/** The lag screen: a game stops sending actions while some player is too far behind in confirming them. */
module LagScreen {
  import opened Bytes

  const WAIT_SECONDS := 60

  /** How long a client bears the screen before it wants an update. */
  const RESET_SECONDS := 60

  /** A player: how many keepalives were received, whether the lag screen shows the name, and whether the
      others were told that the connection is lost. */
  datatype Player = Player(syncCounter: nat, lagging: bool, deleteMe: bool, usesGProxy: bool, noticeSent: bool)

  datatype Screen = Screen(
    players: seq<Player>,
    syncCounter: nat,
    syncLimit: nat,
    lagging: bool,
    startedLagging: int,
    lastReset: int)

  // ----- What an update does -----

  /** How many keepalives a player lags behind, as unsigned numbers are subtracted. */
  function Behind(syncCounter: nat, p: Player): nat {
    (syncCounter - p.syncCounter) % DWORD
  }

  predicate AnyLagging(players: seq<Player>) { exists p :: p in players && p.lagging }

  predicate AnyGProxy(players: seq<Player>) { exists p :: p in players && p.usesGProxy }

  function Each(players: seq<Player>, f: Player -> Player): (r: seq<Player>)
    ensures |r| == |players| && forall i :: 0 <= i < |r| ==> r[i] == f(players[i])
  {
    seq(|players|, i requires 0 <= i < |players| => f(players[i]))
  }

  function Started(syncCounter: nat, limit: nat): Player -> Player {
    (p: Player) => if Behind(syncCounter, p) > limit then p.(lagging := true) else p
  }

  function Stopped(syncCounter: nat, limit: nat): Player -> Player {
    (p: Player) => if p.lagging && Behind(syncCounter, p) < limit / 2 then p.(lagging := false) else p
  }

  function Dropped(): Player -> Player {
    (p: Player) => if p.lagging then p.(deleteMe := true) else p
  }

  function StartLagging(s: Screen, time: int): Screen {
    if exists p :: p in s.players && Behind(s.syncCounter, p) > s.syncLimit then
      s.(players := Each(s.players, Started(s.syncCounter, s.syncLimit)), lagging := true, startedLagging := time,
        lastReset := time)
    else s
  }

  function WaitTime(players: seq<Player>, emptyActions: nat): nat {
    if AnyGProxy(players) then (emptyActions + 1) * WAIT_SECONDS else WAIT_SECONDS
  }

  function DropLaggers(s: Screen, time: int, emptyActions: nat): Screen {
    if time - s.startedLagging >= WaitTime(s.players, emptyActions) then s.(players := Each(s.players, Dropped()))
      else s
  }

  /** Clients give up if the screen stays for more than a minute: it is taken down and put up again. */
  function ResetScreen(s: Screen, time: int): Screen {
    if time - s.lastReset >= RESET_SECONDS then s.(lastReset := time) else s
  }

  function StopLagging(s: Screen): Screen {
    var players := Each(s.players, Stopped(s.syncCounter, s.syncLimit));
    s.(players := players, lagging := AnyLagging(players))
  }

  function CheckLag(s: Screen, time: int, emptyActions: nat): Screen {
    var started := if s.lagging then s else StartLagging(s, time);
    if started.lagging then StopLagging(ResetScreen(DropLaggers(started, time, emptyActions), time)) else started
  }

  /** An update; `due` says whether it is time for the next actions. */
  function Updated(s: Screen, time: int, emptyActions: nat, due: bool): (next: Screen)
    ensures |next.players| == |s.players|
  {
    var checked := CheckLag(s, time, emptyActions);
    if !checked.lagging && due then checked.(syncCounter := checked.syncCounter + 1) else checked
  }

  /** The connection of a player who uses GProxy++ is found to be lost. The first time the others are told,
      and the wait starts unless it has. */
  function Disconnected(s: Screen, i: nat, time: int): Screen
    requires i < |s.players|
  {
    if s.players[i].noticeSent then s
    else
      s.(players := s.players[i := s.players[i].(noticeSent := true)],
         startedLagging := if s.startedLagging == 0 then time else s.startedLagging)
  }

  /** A player who reconnects sets the start of the wait to zero. */
  function Reconnected(s: Screen, i: nat): Screen
    requires i < |s.players|
  {
    s.(players := s.players[i := s.players[i].(noticeSent := false)], startedLagging := 0)
  }

  // ----- The game -----

  class Game {
    var players: seq<Player>
    var syncCounter: nat
    const syncLimit: nat
    var lagging: bool
    var startedLagging: int
    var lastReset: int
    const gproxyEmptyActions: nat
    var latency: int
    var lastActionSent: int
    var lastActionLateBy: int

    ghost function View(): Screen
      reads this
    {
      Screen(players, syncCounter, syncLimit, lagging, startedLagging, lastReset)
    }

    constructor (players: seq<Player>, syncLimit: nat, gproxyEmptyActions: nat, latency: int, now: int)
      requires forall p :: p in players ==> p.syncCounter == 0 && !p.lagging
      ensures View() == Screen(players, 0, syncLimit, false, 0, now) && Inv(View())
      ensures this.gproxyEmptyActions == gproxyEmptyActions && this.latency == latency
      ensures lastActionSent == now && lastActionLateBy == 0
    {
      this.players, syncCounter, this.syncLimit, lagging, startedLagging, lastReset := players, 0, syncLimit, false, 0,
        now;
      this.gproxyEmptyActions, this.latency, lastActionSent, lastActionLateBy := gproxyEmptyActions, latency, now, 0;
    }

    method CheckStarted(time: int)
      modifies this`players, this`lagging, this`startedLagging, this`lastReset
      requires !lagging
      ensures View() == StartLagging(old(View()), time)
    {
      var i := 0;
      while i < |players|
        invariant 0 <= i <= |players| == |old(players)|
        invariant forall k :: 0 <= k < |players| ==>
          players[k] == if k < i then Started(syncCounter, syncLimit)(old(players)[k]) else old(players)[k]
        invariant lagging <==> exists k :: 0 <= k < i && Behind(syncCounter, old(players)[k]) > syncLimit
        invariant startedLagging == (if lagging then time else old(startedLagging)) && lastReset == old(lastReset)
      {
        if (syncCounter - players[i].syncCounter) % DWORD > syncLimit {
          players := players[i := players[i].(lagging := true)];
          lagging := true;
          startedLagging := time;
        }
        i := i + 1;
      }
      SomeoneBehind(old(players), syncCounter, syncLimit);
      if lagging {
        assert players == Each(old(players), Started(syncCounter, syncLimit));
        lastReset := time;
      } else {
        assert players == old(players);
      }
    }

    lemma SomeoneBehind(players: seq<Player>, syncCounter: nat, limit: nat)
      ensures (exists p :: p in players && Behind(syncCounter, p) > limit)
              <==> exists k :: 0 <= k < |players| && Behind(syncCounter, players[k]) > limit
    {
      hide Behind;
    }

    method StopLaggers()
      modifies this`players
      ensures players == Each(old(players), Dropped())
    {
      var i := 0;
      while i < |players|
        invariant 0 <= i <= |players| == |old(players)|
        invariant forall k :: 0 <= k < |players| ==>
          players[k] == if k < i then Dropped()(old(players)[k]) else old(players)[k]
      {
        if players[i].lagging {
          players := players[i := players[i].(deleteMe := true)];
        }
        i := i + 1;
      }
    }

    method UsingGProxy() returns (any: bool)
      ensures any <==> AnyGProxy(players)
    {
      var i := 0;
      while i < |players|
        invariant 0 <= i <= |players| && forall k :: 0 <= k < i ==> !players[k].usesGProxy
      {
        if players[i].usesGProxy {
          return true;
        }
        i := i + 1;
      }
      any := false;
    }

    method CheckStopped()
      modifies this`players, this`lagging
      ensures View() == StopLagging(old(View()))
    {
      var i := 0;
      while i < |players|
        invariant 0 <= i <= |players| == |old(players)|
        invariant forall k :: 0 <= k < |players| ==>
          players[k] == if k < i then Stopped(syncCounter, syncLimit)(old(players)[k]) else old(players)[k]
      {
        if players[i].lagging && (syncCounter - players[i].syncCounter) % DWORD < syncLimit / 2 {
          players := players[i := players[i].(lagging := false)];
        }
        i := i + 1;
      }
      assert players == Each(old(players), Stopped(syncCounter, syncLimit));
      var any := false;
      i := 0;
      while i < |players|
        invariant 0 <= i <= |players| && !any && forall k :: 0 <= k < i ==> !players[k].lagging
      {
        if players[i].lagging {
          any := true;
          break;
        }
        i := i + 1;
      }
      lagging := any;
    }

    method EventPlayerDisconnected(i: nat, time: int)
      requires i < |players| && players[i].usesGProxy
      modifies this`players, this`startedLagging
      ensures View() == Disconnected(old(View()), i, time)
    {
      if !players[i].noticeSent {
        players := players[i := players[i].(noticeSent := true)];
        if startedLagging == 0 {
          startedLagging := time;
        }
      }
    }

    method EventGProxyReconnect(i: nat)
      requires i < |players|
      modifies this`players, this`startedLagging
      ensures View() == Reconnected(old(View()), i)
    {
      players := players[i := players[i].(noticeSent := false)];
      startedLagging := 0;
    }

    method UpdateLag(time: int, ticks: int)
      modifies this
      ensures View() == CheckLag(old(View()), time, gproxyEmptyActions)
      ensures latency == old(latency) && lastActionLateBy == old(lastActionLateBy)
      ensures lastActionSent == if old(lagging) ||
        StartLagging(old(View()), time).lagging then ticks else old(lastActionSent)
    {
      if !lagging {
        CheckStarted(time);
      }
      if lagging {
        var usingGProxy := UsingGProxy();
        var waitTime := WAIT_SECONDS;
        if usingGProxy {
          waitTime := (gproxyEmptyActions + 1) * WAIT_SECONDS;
        }
        if time - startedLagging >= waitTime {
          StopLaggers();
        }
        if time - lastReset >= RESET_SECONDS {
          lastReset := time;
        }
        CheckStopped();
        lastActionSent := ticks;
      }
    }

    /** The part of an update that follows the reading of the players' packets. */
    method Update(time: int, ticks: int, ticksAfter: int)
      modifies this
      ensures var since := if old(lagging) ||
        StartLagging(old(View()), time).lagging then ticks else old(lastActionSent);
        View() == Updated(old(View()), time, gproxyEmptyActions, ticks - since >= old(latency) - old(lastActionLateBy))
      ensures syncCounter == old(syncCounter) || (syncCounter == old(syncCounter) + 1 && !lagging)
      ensures latency == old(latency)
      ensures var since := if old(lagging) ||
        StartLagging(old(View()), time).lagging then ticks else old(lastActionSent);
        var late := ticksAfter - (since - old(lastActionLateBy) + latency);
        if syncCounter == old(syncCounter) then lastActionSent == since && lastActionLateBy == old(lastActionLateBy)
        else lastActionSent == ticksAfter && lastActionLateBy == if late > latency then latency else late
    {
      UpdateLag(time, ticks);
      ghost var due := ticks - lastActionSent >= latency - lastActionLateBy;
      if !lagging && ticks - lastActionSent >= latency - lastActionLateBy {
        syncCounter := syncCounter + 1;
        lastActionLateBy := ticksAfter - lastActionSent - (latency - lastActionLateBy);
        if lastActionLateBy > latency {
          lastActionLateBy := latency;
        }
        lastActionSent := ticksAfter;
      }
      assert View() == Updated(old(View()), time, gproxyEmptyActions, due);
    }
  }

  // ----- Whole runs -----

  datatype Event =
    | KeepAlive(i: nat)
    | UseGProxy(i: nat)
    | Disconnect(i: nat, time: int)
    | Reconnect(i: nat)
    | Delete(i: nat)
    | Leave(i: nat)
    | UpdateGame(time: int, emptyActions: nat, due: bool)
  {
    function Time(): int {
      if Disconnect? || UpdateGame? then time else 0
    }
  }

  /** Clients confirm no more actions than were sent; the counter does not run over; the clock is past zero. */
  predicate Enabled(s: Screen, e: Event) {
    match e
    case KeepAlive(i) => i < |s.players| && s.players[i].syncCounter < s.syncCounter
    case UseGProxy(i) => i < |s.players|
    case Disconnect(i, time) => i < |s.players| && s.players[i].usesGProxy && time > 0
    case Reconnect(i) => i < |s.players|
    case Delete(i) => i < |s.players|
    case Leave(i) => i < |s.players|
    case UpdateGame(_, _, _) => s.syncCounter + 1 < DWORD
  }

  function Step(s: Screen, e: Event): Screen
    requires Enabled(s, e)
  {
    match e
    case KeepAlive(i) => s.(players := s.players[i := s.players[i].(syncCounter := s.players[i].syncCounter + 1)])
    case UseGProxy(i) => s.(players := s.players[i := s.players[i].(usesGProxy := true)])
    case Disconnect(i, time) => Disconnected(s, i, time)
    case Reconnect(i) => Reconnected(s, i)
    case Delete(i) => s.(players := s.players[i := s.players[i].(deleteMe := true)])
    case Leave(i) => s.(players := s.players[..i] + s.players[i + 1..])
    case UpdateGame(time, emptyActions, due) => Updated(s, time, emptyActions, due)
  }

  ghost predicate Run(s: Screen, events: seq<Event>)
    decreases |events|, 0
  {
    events == [] || (Run(s, events[..|events| - 1]) && Enabled(After(s, events[..|events| - 1]), events[|events| - 1]))
  }

  ghost function After(s: Screen, events: seq<Event>): Screen
    requires Run(s, events)
    decreases |events|, 1
  {
    if events == [] then s else Step(After(s, events[..|events| - 1]), events[|events| - 1])
  }

  /** How far a player may be behind: while the screen is up only those it shows are over the limit. */
  ghost predicate InBounds(s: Screen, p: Player) {
    && p.syncCounter <= s.syncCounter
    && s.syncCounter - p.syncCounter <= s.syncLimit + (if s.lagging && !p.lagging then 0 else 1)
    && (p.lagging ==> s.lagging)
  }

  ghost predicate Inv(s: Screen) {
    s.syncCounter < DWORD && forall i :: 0 <= i < |s.players| ==> InBounds(s, s.players[i])
  }

  lemma StepKeepsInv(s: Screen, e: Event)
    requires Inv(s) && Enabled(s, e)
    ensures Inv(Step(s, e))
    ensures Step(s, e).syncLimit == s.syncLimit
  {
    if e.UpdateGame? {
      UpdateKeepsInv(s, e.time, e.emptyActions, e.due);
    }
  }

  lemma BehindInBounds(s: Screen, p: Player)
    requires InBounds(s, p) && s.syncCounter < DWORD
    ensures Behind(s.syncCounter, p) == s.syncCounter - p.syncCounter
  {
  }

  /** After the check, whoever is over the limit is on the screen. */
  ghost predicate Checked(s: Screen) {
    Inv(s) && forall i :: 0 <= i < |s.players| && !s.players[i].lagging ==>
      s.syncCounter - s.players[i].syncCounter <= s.syncLimit
  }

  lemma StartChecks(s: Screen, time: int)
    requires Inv(s) && !s.lagging
    ensures Checked(StartLagging(s, time))
  {
    hide Behind;
    forall i | 0 <= i < |s.players|
      ensures Behind(s.syncCounter, s.players[i]) == s.syncCounter - s.players[i].syncCounter {
      BehindInBounds(s, s.players[i]);
    }
    assert forall i :: 0 <= i < |s.players| ==> s.players[i] in s.players;
  }

  lemma StopChecks(s: Screen)
    requires Checked(s) && s.lagging
    ensures Checked(StopLagging(s))
  {
    hide Behind;
    forall i | 0 <= i < |s.players|
      ensures Behind(s.syncCounter, s.players[i]) == s.syncCounter - s.players[i].syncCounter {
      BehindInBounds(s, s.players[i]);
    }
    var next := StopLagging(s);
    assert forall i :: 0 <= i < |next.players| ==> next.players[i] in next.players;
  }

  lemma UpdateKeepsInv(s: Screen, time: int, emptyActions: nat, due: bool)
    requires Inv(s) && s.syncCounter + 1 < DWORD
    ensures Inv(Updated(s, time, emptyActions, due)) && Updated(s, time, emptyActions, due).syncLimit == s.syncLimit
    ensures Checked(CheckLag(s, time, emptyActions))
  {
    hide StopLagging, StartLagging;
    if !s.lagging {
      StartChecks(s, time);
    }
    var started := if s.lagging then s else StartLagging(s, time);
    var dropped := DropLaggers(started, time, emptyActions);
    if started.lagging {
      StopChecks(ResetScreen(dropped, time));
    }
    OnlyLag(s, time);
    OnlyLag(ResetScreen(dropped, time), time);
  }

  lemma OnlyLag(s: Screen, time: int)
    ensures StartLagging(s, time).syncLimit == s.syncLimit == StopLagging(s).syncLimit
    ensures StartLagging(s, time).syncCounter == s.syncCounter == StopLagging(s).syncCounter
  {
  }

  /** In every run no player is more than one over the limit behind, and while the screen is up only those
      it shows are over it. */
  lemma {:induction false} NobodyFarBehind(s: Screen, events: seq<Event>)
    requires Inv(s) && Run(s, events)
    ensures Inv(After(s, events)) && After(s, events).syncLimit == s.syncLimit
    decreases |events|
  {
    if events != [] {
      NobodyFarBehind(s, events[..|events| - 1]);
      StepKeepsInv(After(s, events[..|events| - 1]), events[|events| - 1]);
    }
  }

  /** After an update the screen is up exactly if it shows someone; if it is, no action was sent, and it was
      put up or reset less than a minute ago. The wait starts when it is put up. */
  lemma AfterUpdate(s: Screen, time: int, emptyActions: nat, due: bool)
    requires Inv(s)
    ensures var next := Updated(s, time, emptyActions, due);
      && (next.lagging <==> AnyLagging(next.players))
      && (next.lagging ==> next.syncCounter == s.syncCounter && time - next.lastReset < RESET_SECONDS)
      && (next.lagging && !s.lagging ==> next.startedLagging == time)
      && |next.players| == |s.players|
  {
    if !s.lagging && !StartLagging(s, time).lagging {
      assert forall p :: p in s.players ==> !p.lagging;
    }
  }

  /** Once the wait is over, everyone on the screen is dropped, and the update after that closes it. */
  lemma WaitEndsScreen(s: Screen, time: int, emptyActions: nat, remaining: seq<Player>, later: int, due: bool)
    requires Inv(s) && s.lagging && time - s.startedLagging >= WaitTime(s.players, emptyActions)
    requires forall p :: p in remaining ==> p in CheckLag(s, time, emptyActions).players && !p.deleteMe
    ensures forall i :: 0 <= i < |s.players| && s.players[i].lagging ==>
      CheckLag(s, time, emptyActions).players[i].deleteMe
    ensures !CheckLag(CheckLag(s, time, emptyActions).(players := remaining), later, emptyActions).lagging
  {
    hide WaitTime, CheckLag;
    var next := CheckLag(s, time, emptyActions);
    CheckDrops(s, time, emptyActions);
    forall p | p in remaining ensures !p.lagging && Behind(s.syncCounter, p) <= s.syncLimit {
      var i :| 0 <= i < |next.players| && next.players[i] == p;
    }
    NobodyToShow(next.(players := remaining), later, emptyActions);
  }

  lemma CheckDrops(s: Screen, time: int, emptyActions: nat)
    requires Inv(s) && s.lagging && time - s.startedLagging >= WaitTime(s.players, emptyActions)
    ensures var next := CheckLag(s, time, emptyActions);
      && |next.players| == |s.players| && next.syncCounter == s.syncCounter && next.syncLimit == s.syncLimit
      && forall i :: 0 <= i < |s.players| ==>
        && (s.players[i].lagging ==> next.players[i].deleteMe)
        && (next.players[i].deleteMe ||
          (!next.players[i].lagging && Behind(s.syncCounter, next.players[i]) <= s.syncLimit))
  {
    hide WaitTime, AnyLagging, Behind;
    forall i | 0 <= i < |s.players| ensures s.players[i].lagging || Behind(s.syncCounter, s.players[i]) <= s.syncLimit {
      BehindInBounds(s, s.players[i]);
    }
    forall i | 0 <= i < |s.players|
      ensures forall p: Player :: p.syncCounter == s.players[i].syncCounter ==>
        Behind(s.syncCounter, p) == Behind(s.syncCounter, s.players[i]) {
      SameBehind(s.syncCounter, s.players[i]);
    }
  }

  lemma SameBehind(syncCounter: nat, q: Player)
    ensures forall p: Player :: p.syncCounter == q.syncCounter ==> Behind(syncCounter, p) == Behind(syncCounter, q)
  {
  }

  lemma NobodyToShow(s: Screen, time: int, emptyActions: nat)
    requires forall p :: p in s.players ==> !p.lagging && Behind(s.syncCounter, p) <= s.syncLimit
    ensures !CheckLag(s, time, emptyActions).lagging
  {
    hide WaitTime, Behind;
    if s.lagging {
      var dropped := ResetScreen(DropLaggers(s, time, emptyActions), time);
      assert forall i :: 0 <= i < |s.players| ==> s.players[i] in s.players;
      assert forall i :: 0 <= i < |dropped.players| ==> !dropped.players[i].lagging;
      assert forall i :: 0 <= i < |dropped.players| ==> !StopLagging(dropped).players[i].lagging;
    }
  }

  // ----- When the wait ends -----

  /** An update marks exactly those who were on the screen when the wait was over. */
  lemma DroppedExactly(s: Screen, time: int, emptyActions: nat, due: bool, i: nat)
    requires i < |s.players|
    ensures Updated(s, time, emptyActions, due).players[i].deleteMe <==>
            || s.players[i].deleteMe
            || (s.lagging && s.players[i].lagging && time - s.startedLagging >= WaitTime(s.players, emptyActions))
  {
    hide WaitTime, StopLagging, StartLagging;
    if s.lagging {
      OnlyDropped(s, time, emptyActions, i);
    } else {
      OnlyStarted(s, time, i);
      var started := StartLagging(s, time);
      if started.lagging {
        WaitIsPositive(started.players, emptyActions);
        OnlyDropped(started, time, emptyActions, i);
      }
    }
  }

  lemma OnlyDropped(s: Screen, time: int, emptyActions: nat, i: nat)
    requires i < |s.players|
    ensures var next := StopLagging(ResetScreen(DropLaggers(s, time, emptyActions), time));
      |next.players| == |s.players| &&
      (next.players[i].deleteMe <==>
        s.players[i].deleteMe || (s.players[i].lagging && time - s.startedLagging >= WaitTime(s.players, emptyActions)))
  {
    hide WaitTime, Behind, AnyLagging;
  }

  lemma OnlyStarted(s: Screen, time: int, i: nat)
    requires i < |s.players|
    ensures var next := StartLagging(s, time);
      |next.players| == |s.players| && next.players[i].deleteMe == s.players[i].deleteMe &&
        (next.lagging && !s.lagging ==> next.startedLagging == time)
  {
    hide Behind;
  }

  /** The screen is up in every state of a run. */
  ghost predicate StaysUp(s: Screen, events: seq<Event>)
    requires Run(s, events)
    decreases |events|
  {
    After(s, events).lagging && (events != [] ==> StaysUp(s, events[..|events| - 1]))
  }

  ghost predicate LastReconnection(events: seq<Event>, r: nat) {
    r < |events| && events[r].Reconnect? && forall k :: r < k < |events| ==> !events[k].Reconnect?
  }

  lemma {:induction false} PrefixRuns(s: Screen, events: seq<Event>, k: nat)
    requires Run(s, events) && k <= |events|
    ensures Run(s, events[..k])
    decreases |events|
  {
    if k < |events| {
      PrefixRuns(s, events[..|events| - 1], k);
      assert events[..|events| - 1][..k] == events[..k];
    } else {
      assert events[..k] == events;
    }
  }

  lemma IsEnabled(s: Screen, events: seq<Event>, k: nat)
    requires Run(s, events) && k < |events|
    ensures Run(s, events[..k]) && Enabled(After(s, events[..k]), events[k])
  {
    PrefixRuns(s, events, k + 1);
    assert events[..k + 1][..k] == events[..k];
  }

  /** At the `k`-th event a player who uses GProxy++ is first found to be disconnected. */
  ghost predicate Notice(s: Screen, events: seq<Event>, k: nat)
    requires Run(s, events) && k < |events|
  {
    IsEnabled(s, events, k);
    events[k].Disconnect? && !After(s, events[..k]).players[events[k].i].noticeSent
  }

  /** The first such event behind the `r`-th. */
  ghost predicate FirstNotice(s: Screen, events: seq<Event>, r: nat, n: nat): (first: bool)
    requires Run(s, events)
    ensures first ==> n < |events|
  {
    r < n < |events| && Notice(s, events, n) && NoNotice(s, events, r, n)
  }

  ghost predicate NoNotice(s: Screen, events: seq<Event>, r: nat, n: nat)
    requires Run(s, events) && n <= |events|
  {
    forall k :: r < k < n ==> !Notice(s, events, k)
  }

  /** The start of the wait: when the screen was put up; but zero if a player has reconnected since, or then
      the time when a player was first found to be disconnected after that. */
  ghost predicate WaitStarts(s: Screen, events: seq<Event>, start: int)
    requires Run(s, events)
  {
    && ((forall k :: 0 <= k < |events| ==> !events[k].Reconnect?) ==> start == s.startedLagging)
    && (forall r: nat :: LastReconnection(events, r) && NoNotice(s, events, r, |events|) ==> start == 0)
    && (forall r: nat, n: nat :: LastReconnection(events, r) && FirstNotice(s, events, r, n) ==>
      start == events[n].Time())
  }

  lemma SameNotice(s: Screen, events: seq<Event>, k: nat)
    requires Run(s, events) && k < |events| - 1
    ensures Run(s, events[..|events| - 1])
    ensures Notice(s, events, k) <==> Notice(s, events[..|events| - 1], k)
  {
    PrefixRuns(s, events, k);
    assert events[..|events| - 1][..k] == events[..k];
  }

  /** Notices but the last are those of the run before. */
  lemma SameNotices(s: Screen, events: seq<Event>, r: nat, n: nat)
    requires Run(s, events) && events != [] && n <= |events| - 1
    ensures Run(s, events[..|events| - 1])
    ensures NoNotice(s, events, r, n) <==> NoNotice(s, events[..|events| - 1], r, n)
    ensures n < |events| - 1 ==> (FirstNotice(s, events, r, n) <==> FirstNotice(s, events[..|events| - 1], r, n))
  {
    hide After, Step, Enabled;
    PrefixRuns(s, events, |events| - 1);
    var front := events[..|events| - 1];
    forall k: nat | k < |front| ensures Notice(s, events, k) <==> Notice(s, front, k) {
      SameNotice(s, events, k);
    }
    if NoNotice(s, front, r, n) {
      forall k | r < k < n ensures !Notice(s, events, k) {
        assert !Notice(s, front, k);
      }
    }
    if n < |front| {
      assert Notice(s, events, n) <==> Notice(s, front, n);
    }
  }

  lemma OtherEventsKeepClock(s: Screen, e: Event)
    requires s.lagging && Enabled(s, e)
    ensures Step(s, e).startedLagging ==
            if e.Reconnect? then 0
            else if e.Disconnect? && !s.players[e.i].noticeSent && s.startedLagging == 0 then e.Time()
            else s.startedLagging
  {
  }

  lemma ClockStep(s: Screen, events: seq<Event>)
    requires Run(s, events) && events != [] && StaysUp(s, events) && s.startedLagging != 0
    requires WaitStarts(s, events[..|events| - 1], After(s, events[..|events| - 1]).startedLagging)
    ensures WaitStarts(s, events, After(s, events).startedLagging)
  {
    hide Step, Notice, NoNotice, FirstNotice;
    var n := |events| - 1;
    var front, e := events[..n], events[n];
    var start := After(s, events).startedLagging;
    OtherEventsKeepClock(After(s, front), e);
    assert start == 0 || !e.Reconnect?;
    forall r: nat | LastReconnection(events, r) && NoNotice(s, events, r, |events|) ensures start == 0 {
      LastNotice(s, events, r);
      if r < n {
        SameNotices(s, events, r, n);
        assert LastReconnection(front, r);
      }
    }
    forall r: nat, k: nat | LastReconnection(events, r) && FirstNotice(s, events, r, k)
      ensures start == events[k].Time() {
      FirstIsNotice(s, events, r, k);
      assert LastReconnection(front, r);
      SameNotices(s, events, r, k);
      if k < n {
        assert front[k] == events[k];
      }
    }
  }

  lemma FirstIsNotice(s: Screen, events: seq<Event>, r: nat, k: nat)
    requires Run(s, events) && FirstNotice(s, events, r, k)
    ensures r < k < |events| && events[k].Disconnect? && events[k].Time() > 0 && NoNotice(s, events, r, k)
    ensures Run(s, events[..k]) && events[k].i < |After(s, events[..k]).players|
    ensures !After(s, events[..k]).players[events[k].i].noticeSent
  {
    hide NoNotice;
    IsEnabled(s, events, k);
  }

  /** Without a notice the last event is none. */
  lemma LastNotice(s: Screen, events: seq<Event>, r: nat)
    requires Run(s, events) && r < |events| && NoNotice(s, events, r, |events|)
    ensures r < |events| - 1 ==> NoNotice(s, events, r, |events| - 1)
    ensures r < |events| - 1 && events[|events| - 1].Disconnect? ==>
      After(s, events[..|events| - 1]).players[events[|events| - 1].i].noticeSent
  {
    IsEnabled(s, events, |events| - 1);
    assert r < |events| - 1 ==> !Notice(s, events, |events| - 1);
  }

  lemma {:induction false} ClockShows(s: Screen, events: seq<Event>)
    requires Run(s, events) && StaysUp(s, events) && s.startedLagging != 0
    ensures WaitStarts(s, events, After(s, events).startedLagging)
    decreases |events|
  {
    if events != [] {
      var n := |events| - 1;
      ClockShows(s, events[..n]);
      ClockStep(s, events);
    }
  }

  lemma {:induction false} SomeLastReconnection(events: seq<Event>)
    ensures (forall k :: 0 <= k < |events| ==> !events[k].Reconnect?) || exists r: nat :: LastReconnection(events, r)
  {
    if events != [] {
      var n := |events| - 1;
      if events[n].Reconnect? {
        assert LastReconnection(events, n);
      } else {
        SomeLastReconnection(events[..n]);
        if r: nat :| LastReconnection(events[..n], r) {
          assert LastReconnection(events, r);
        }
      }
    }
  }

  lemma {:induction false} SomeFirstNotice(s: Screen, events: seq<Event>, r: nat, n: nat)
    requires Run(s, events) && r < n <= |events|
    ensures NoNotice(s, events, r, n) || exists k: nat :: k < n && FirstNotice(s, events, r, k)
    decreases n
  {
    hide Notice;
    if r + 1 < n {
      SomeFirstNotice(s, events, r, n - 1);
      assert NoNotice(s, events, r, n - 1) && Notice(s, events, n - 1) ==> FirstNotice(s, events, r, n - 1);
    }
  }

  /** While the screen stays up, an update drops a player on it exactly if the wait is over: since the screen
      was put up, if nobody has reconnected; since the clock's zero, if somebody has, and nobody was first found
      disconnected after that; and else since the first time this happened. */
  lemma DroppedWhen(s: Screen, events: seq<Event>, time: int, emptyActions: nat, due: bool, i: nat)
    requires Run(s, events) && StaysUp(s, events) && s.startedLagging != 0
    requires var now := After(s, events); i < |now.players| && now.players[i].lagging && !now.players[i].deleteMe
    ensures var wait := WaitTime(After(s, events).players, emptyActions);
      Updated(After(s, events), time, emptyActions, due).players[i].deleteMe <==>
      || ((forall k :: 0 <= k < |events| ==> !events[k].Reconnect?) && time - s.startedLagging >= wait)
      || (exists r: nat :: LastReconnection(events, r) && NoNotice(s, events, r, |events|) && time >= wait)
      || (exists r: nat, n: nat ::
            LastReconnection(events, r) && FirstNotice(s, events, r, n) && time - events[n].Time() >= wait)
  {
    hide Notice, NoNotice, FirstNotice, LastReconnection, Updated, WaitTime, Step;
    var now := After(s, events);
    ClockShows(s, events);
    DroppedExactly(now, time, emptyActions, due, i);
    SomeLastReconnection(events);
    forall r: nat | LastReconnection(events, r)
      ensures r < |events| && events[r].Reconnect?
      ensures NoNotice(s, events, r, |events|) || exists k: nat :: FirstNotice(s, events, r, k)
    {
      IsReconnection(events, r);
      SomeFirstNotice(s, events, r, |events|);
    }
  }

  lemma IsReconnection(events: seq<Event>, r: nat)
    requires LastReconnection(events, r)
    ensures r < |events| && events[r].Reconnect?
  {
  }

  /** However short the lag, a reconnection lets the next update drop everyone on the screen, if the clock shows
      more than the wait; but not if some other player is first found disconnected in that update. */
  lemma ReconnectionDropsLaggers(s: Screen, j: nat, time: int, emptyActions: nat, due: bool, i: nat)
    requires s.lagging && j < |s.players| && i < |s.players| && s.players[i].lagging && !s.players[i].deleteMe
    ensures Updated(Reconnected(s, j), time, emptyActions, due).players[i].deleteMe <==>
      time >= WaitTime(s.players, emptyActions)
    ensures time > 0 ==>
      forall k :: 0 <= k < |s.players| && k != j && s.players[k].usesGProxy && !s.players[k].noticeSent ==>
      !Updated(Disconnected(Reconnected(s, j), k, time), time, emptyActions, due).players[i].deleteMe
  {
    hide Updated, WaitTime;
    var next := Reconnected(s, j);
    DroppedExactly(next, time, emptyActions, due, i);
    SameWait(s.players, next.players, emptyActions);
    forall k | 0 <= k < |s.players| && k != j && s.players[k].usesGProxy && !s.players[k].noticeSent && time > 0
      ensures !Updated(Disconnected(next, k, time), time, emptyActions, due).players[i].deleteMe
    {
      DroppedExactly(Disconnected(next, k, time), time, emptyActions, due, i);
      WaitIsPositive(Disconnected(next, k, time).players, emptyActions);
    }
  }

  lemma SameWait(a: seq<Player>, b: seq<Player>, emptyActions: nat)
    requires |a| == |b| && forall i :: 0 <= i < |a| ==> a[i].usesGProxy == b[i].usesGProxy
    ensures WaitTime(a, emptyActions) == WaitTime(b, emptyActions)
  {
    assert AnyGProxy(a) <==> exists i :: 0 <= i < |a| && a[i].usesGProxy;
    assert AnyGProxy(b) <==> exists i :: 0 <= i < |b| && b[i].usesGProxy;
  }

  lemma WaitIsPositive(players: seq<Player>, emptyActions: nat)
    ensures WaitTime(players, emptyActions) > 0
  {
  }

  // ----- Clients that confirm too much -----

  /** Who is flagged: those behind by more than the limit, but also those ahead, unless by so much that the
      unsigned difference comes round to the limit. So a flag means being behind exactly if the client is not
      ahead by less than that. */
  lemma TooManyKeepAlives(s: Screen, time: int, i: nat)
    requires !s.lagging && i < |s.players| && !s.players[i].lagging
    requires s.syncCounter < DWORD && s.players[i].syncCounter < DWORD && s.syncLimit < DWORD
    ensures var ahead := s.players[i].syncCounter - s.syncCounter;
      && (StartLagging(s, time).players[i].lagging <==> -ahead > s.syncLimit || 0 < ahead < DWORD - s.syncLimit)
      && ((StartLagging(s, time).players[i].lagging <==> -ahead > s.syncLimit) <==> !(0 < ahead < DWORD - s.syncLimit))
  {
    hide Behind;
    BehindOrAhead(s.syncCounter, s.players[i]);
    assert s.players[i] in s.players;
  }

  lemma BehindOrAhead(syncCounter: nat, p: Player)
    requires syncCounter < DWORD && p.syncCounter < DWORD
    ensures Behind(syncCounter, p) ==
      if p.syncCounter <= syncCounter then syncCounter - p.syncCounter else DWORD - (p.syncCounter - syncCounter)
  {
  }

  /** In the same way a client on the screen that is ahead is not taken off it, unless by nearly all the range. */
  lemma AheadStaysOnScreen(s: Screen, i: nat)
    requires i < |s.players| && s.players[i].lagging
    requires s.syncCounter < DWORD && s.players[i].syncCounter < DWORD && s.syncLimit < DWORD
    ensures var ahead := s.players[i].syncCounter - s.syncCounter;
      !StopLagging(s).players[i].lagging <==> 0 <= -ahead < s.syncLimit / 2 || ahead > DWORD - s.syncLimit / 2
  {
    hide Behind;
    BehindOrAhead(s.syncCounter, s.players[i]);
  }
}
