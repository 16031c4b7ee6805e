/** What players and the host do to the slots of a lobby, and what that keeps. */
module Slots {
  import opened GameSlot

  const NO_SLOT := 255

  /** The values of `f` along a sequence, in no order. */
  function Values<T>(s: seq<T>, f: T -> nat): multiset<nat> {
    if s == [] then multiset{} else multiset{f(s[0])} + Values(s[1..], f)
  }

  lemma Associative(a: multiset<nat>, b: multiset<nat>, c: multiset<nat>)
    ensures a + b + c == a + (b + c)
  {
  }

  lemma Cancel<T>(a: multiset<T>, b: multiset<T>, x: T)
    requires a + multiset{x} == b + multiset{x}
    ensures a == b
  {
    assert a == a + multiset{x} - multiset{x};
    assert b == b + multiset{x} - multiset{x};
  }

  lemma FirstValue<T>(s: seq<T>, f: T -> nat)
    requires s != []
    ensures Values(s, f) == multiset{f(s[0])} + Values(s[1..], f)
  {
  }

  lemma {:induction false} ValuesOfConcat<T>(a: seq<T>, b: seq<T>, f: T -> nat)
    ensures Values(a + b, f) == Values(a, f) + Values(b, f)
  {
    if a == [] {
      assert a + b == b;
    } else {
      ConcatFirst(a, b);
      hide Values;
      ValuesOfConcat(a[1..], b, f);
      FirstValue(a, f);
      FirstValue(a + b, f);
      Associative(multiset{f(a[0])}, Values(a[1..], f), Values(b, f));
    }
  }

  lemma ConcatFirst<T>(a: seq<T>, b: seq<T>)
    requires a != []
    ensures (a + b)[1..] == a[1..] + b && (a + b)[0] == a[0]
  {
  }

  /** One element apart from the rest. */
  lemma ValuesWithout<T>(s: seq<T>, i: nat, f: T -> nat)
    requires i < |s|
    ensures Values(s, f) == Values(s[..i] + s[i + 1..], f) + multiset{f(s[i])}
  {
    hide Values;
    ValuesOfConcat(s[..i], s[i..], f);
    ValuesOfConcat(s[..i], s[i + 1..], f);
    assert s == s[..i] + s[i..] && s[i..][1..] == s[i + 1..];
    FirstValue(s[i..], f);
    Associative(Values(s[..i], f), Values(s[i + 1..], f), multiset{f(s[i])});
  }

  /** How often a value is there after a change. */
  lemma ValuesChange<T>(s: seq<T>, i: nat, x: T, f: T -> nat)
    requires i < |s|
    ensures Values(s, f)[f(s[i])] > 0
    ensures forall v ::
      Values(s[i := x], f)[v] == Values(s, f)[v] - (if v == f(s[i]) then 1 else 0) + (if v == f(x) then 1 else 0)
  {
    hide Values;
    ValuesWithout(s, i, f);
    ValuesWithout(s[i := x], i, f);
    assert s[i := x][..i] + s[i := x][i + 1..] == s[..i] + s[i + 1..];
  }

  lemma {:induction false} HasValue<T>(s: seq<T>, f: T -> nat, v: nat)
    ensures v in Values(s, f) <==> exists i :: 0 <= i < |s| && f(s[i]) == v
  {
    if s != [] {
      HasValue(s[1..], f, v);
      if i :| 0 <= i < |s| && f(s[i]) == v {
        assert i > 0 ==> s[1..][i - 1] == s[i];
      }
    }
  }

  function ColourOf(slot: Slot): nat { slot.colour }

  function PidOf(slot: Slot): nat { slot.pid }

  /** No colour of a player is there twice; observers all have the same. */
  ghost predicate DistinctColours(slots: seq<Slot>) {
    forall c :: c < MAX_SLOTS && c in Values(slots, ColourOf) ==> Values(slots, ColourOf)[c] == 1
  }

  lemma SameColours(slots: seq<Slot>, i: nat, slot: Slot)
    requires i < |slots| && slot.colour == slots[i].colour
    ensures Values(slots[i := slot], ColourOf) == Values(slots, ColourOf)
  {
    hide Values;
    ValuesChange(slots, i, slot, ColourOf);
    var before, now := Values(slots, ColourOf), Values(slots[i := slot], ColourOf);
    forall c ensures now[c] == before[c] {
      assert now[c] == before[c] - (if c == slots[i].colour then 1 else 0) + (if c == slot.colour then 1 else 0);
    }
  }

  /** A slot may get a colour that no other slot has, or one that is no player's. */
  lemma NewColour(slots: seq<Slot>, i: nat, slot: Slot)
    requires DistinctColours(slots) && i < |slots|
    requires slot.colour == slots[i].colour || slot.colour >= MAX_SLOTS || slot.colour !in Values(slots, ColourOf)
    ensures DistinctColours(slots[i := slot])
  {
    hide Values;
    ValuesChange(slots, i, slot, ColourOf);
    var before, now := Values(slots, ColourOf), Values(slots[i := slot], ColourOf);
    forall c | c < MAX_SLOTS && c in now ensures now[c] == 1 {
      assert now[c] == before[c] - (if c == slots[i].colour then 1 else 0) + (if c == slot.colour then 1 else 0);
    }
  }

  /** Two slots may exchange their colours. */
  lemma SwappedColours(slots: seq<Slot>, i: nat, j: nat, a: Slot, b: Slot)
    requires DistinctColours(slots) && i < |slots| && j < |slots| && i != j
    requires a.colour == slots[j].colour && b.colour == slots[i].colour
    ensures DistinctColours(slots[i := a][j := b])
  {
    hide Values;
    ValuesChange(slots, i, a, ColourOf);
    ValuesChange(slots[i := a], j, b, ColourOf);
    var before, between, now := Values(slots, ColourOf), Values(slots[i := a], ColourOf),
      Values(slots[i := a][j := b], ColourOf);
    forall c | c < MAX_SLOTS && c in now ensures now[c] == 1 {
      assert between[c] == before[c] - (if c == slots[i].colour then 1 else 0) + (if c == a.colour then 1 else 0);
      assert now[c] == between[c] - (if c == slots[j].colour then 1 else 0) + (if c == b.colour then 1 else 0);
    }
  }

  // ----- Shuffling -----

  predicate IsPlayer(slot: Slot) { slot.status == OCCUPIED && slot.computer == 0 && slot.team != MAX_SLOTS }

  function PlayerSlots(slots: seq<Slot>): (r: seq<Slot>)
    ensures |r| <= |slots| && forall i :: 0 <= i < |r| ==> IsPlayer(r[i])
  {
    if slots == [] then [] else (if IsPlayer(slots[0]) then [slots[0]] else []) + PlayerSlots(slots[1..])
  }

  function OtherSlots(slots: seq<Slot>): seq<Slot> {
    if slots == [] then [] else (if IsPlayer(slots[0]) then [] else [slots[0]]) + OtherSlots(slots[1..])
  }

  /** The slots with the players replaced in order. */
  function Rebuilt(slots: seq<Slot>, players: seq<Slot>): (r: seq<Slot>)
    requires |players| == |PlayerSlots(slots)|
    ensures |r| == |slots|
  {
    if slots == [] then []
    else if IsPlayer(slots[0]) then [players[0]] + Rebuilt(slots[1..], players[1..])
    else [slots[0]] + Rebuilt(slots[1..], players)
  }

  function Range(n: nat): (r: seq<nat>)
    ensures |r| == n
  {
    seq(n, i requires 0 <= i < n => i)
  }

  /** The numbers below `n` in any order. */
  predicate IsShuffle(order: seq<nat>, n: nat) { multiset(order) == multiset(Range(n)) }

  /** The numbers in order are a shuffle, and so is every one with two of them exchanged: thus any order is. */
  lemma ShufflesAre(order: seq<nat>, n: nat, i: nat, j: nat)
    requires IsShuffle(order, n) && i < |order| && j < |order|
    ensures IsShuffle(Range(n), n) && IsShuffle(order[i := order[j]][j := order[i]], n)
  {
  }

  lemma ShuffleIndices(order: seq<nat>, n: nat)
    requires IsShuffle(order, n)
    ensures |order| == n && forall i :: 0 <= i < n ==> order[i] < n
  {
    assert |order| == |multiset(order)| == |multiset(Range(n))| == n;
    forall i | 0 <= i < n ensures order[i] < n {
      assert order[i] in multiset(order);
      assert order[i] in Range(n);
    }
  }

  /** Player slots in another order; with custom forces team, colour and race stay where they are. */
  function Shuffled(players: seq<Slot>, order: seq<nat>, customForces: bool): (r: seq<Slot>)
    requires |order| == |players| && forall i :: 0 <= i < |order| ==> order[i] < |players|
    ensures |r| == |players|
  {
    seq(|players|, i requires 0 <= i < |players| =>
      var p, here := players[order[i]], players[i];
      if customForces then Slot(p.pid, p.downloadStatus, p.status, p.computer, here.team, here.colour, here.race)
        else p)
  }

  lemma MultisetWithout<T>(s: seq<T>, j: nat)
    requires j < |s|
    ensures multiset(s) == multiset(s[..j] + s[j + 1..]) + multiset{s[j]}
  {
    assert s == s[..j] + [s[j]] + s[j + 1..];
  }

  /** The same elements in any order give the same values. */
  lemma {:induction false} SameElements<T>(a: seq<T>, b: seq<T>, f: T -> nat)
    requires multiset(a) == multiset(b)
    ensures Values(a, f) == Values(b, f)
  {
    if a == [] {
      assert |b| == |multiset(b)| == 0;
    } else {
      assert a[0] in multiset(b);
      var j :| 0 <= j < |b| && b[j] == a[0];
      MultisetWithout(a, 0);
      MultisetWithout(b, j);
      assert a[..0] + a[1..] == a[1..];
      Cancel(multiset(a[1..]), multiset(b[..j] + b[j + 1..]), a[0]);
      SameElements(a[1..], b[..j] + b[j + 1..], f);
      ValuesWithout(b, j, f);
    }
  }

  lemma {:induction false} SameValues<S, T>(a: seq<S>, f: S -> nat, b: seq<T>, g: T -> nat)
    requires |a| == |b| && forall i :: 0 <= i < |a| ==> f(a[i]) == g(b[i])
    ensures Values(a, f) == Values(b, g)
  {
    if a != [] {
      SameValues(a[1..], f, b[1..], g);
    }
  }

  /** Values that belong to the player, in another order. */
  lemma ShuffledValues(players: seq<Slot>, order: seq<nat>, customForces: bool, f: Slot -> nat)
    requires IsShuffle(order, |players|)
    requires |order| == |players| && forall i :: 0 <= i < |order| ==> order[i] < |players|
    requires forall i :: 0 <= i < |players| ==> f(Shuffled(players, order, customForces)[i]) == f(players[order[i]])
    ensures Values(Shuffled(players, order, customForces), f) == Values(players, f)
  {
    hide Values, ValueAt, Shuffled;
    forall i | 0 <= i < |players|
      ensures ValueAt(players, f)(i) == f(players[i]) && ValueAt(players, f)(order[i]) == f(players[order[i]])
    {
      ValueOf(players, f, i);
      ValueOf(players, f, order[i]);
    }
    SameElements(order, Range(|players|), ValueAt(players, f));
    assert |Shuffled(players, order, customForces)| == |players|;
    SameValues(order, ValueAt(players, f), Shuffled(players, order, customForces), f);
    SameValues(Range(|players|), ValueAt(players, f), players, f);
  }

  function ValueAt(players: seq<Slot>, f: Slot -> nat): nat -> nat {
    (i: nat) => if i < |players| then f(players[i]) else 0
  }

  lemma ValueOf(players: seq<Slot>, f: Slot -> nat, i: nat)
    requires i < |players|
    ensures ValueAt(players, f)(i) == f(players[i])
  {
  }

  lemma {:induction false} RebuiltValues(slots: seq<Slot>, players: seq<Slot>, f: Slot -> nat)
    requires |players| == |PlayerSlots(slots)|
    ensures Values(Rebuilt(slots, players), f) == Values(players, f) + Values(OtherSlots(slots), f)
  {
    hide Values, IsPlayer, Rebuilt;
    RebuiltHead(slots, players);
    if slots == [] {
      NoValues(f);
    } else if IsPlayer(slots[0]) {
      RebuiltValues(slots[1..], players[1..], f);
      ValuesOfCons(players[0], Rebuilt(slots[1..], players[1..]), f);
      ValuesOfCons(players[0], players[1..], f);
      assert players == [players[0]] + players[1..];
      Associative(multiset{f(players[0])}, Values(players[1..], f), Values(OtherSlots(slots[1..]), f));
    } else {
      RebuiltValues(slots[1..], players, f);
      ValuesOfCons(slots[0], Rebuilt(slots[1..], players), f);
      ValuesOfCons(slots[0], OtherSlots(slots[1..]), f);
      Between(multiset{f(slots[0])}, Values(players, f), Values(OtherSlots(slots[1..]), f));
    }
  }

  lemma NoValues<T>(f: T -> nat)
    ensures Values([], f) == multiset{}
  {
  }

  lemma ValuesOfCons<T>(x: T, s: seq<T>, f: T -> nat)
    ensures Values([x] + s, f) == multiset{f(x)} + Values(s, f)
  {
    assert ([x] + s)[1..] == s;
  }

  lemma Between(a: multiset<nat>, b: multiset<nat>, c: multiset<nat>)
    ensures a + (b + c) == b + (a + c)
  {
  }

  lemma RebuiltHead(slots: seq<Slot>, players: seq<Slot>)
    requires |players| == |PlayerSlots(slots)|
    ensures slots == [] ==> players == [] && Rebuilt(slots, players) == [] && OtherSlots(slots) == []
    ensures slots != [] && IsPlayer(slots[0]) ==>
      && players != [] && |players[1..]| == |PlayerSlots(slots[1..])| && OtherSlots(slots) == OtherSlots(slots[1..])
      && Rebuilt(slots, players) == [players[0]] + Rebuilt(slots[1..], players[1..])
    ensures slots != [] && !IsPlayer(slots[0]) ==>
      && |players| == |PlayerSlots(slots[1..])| && OtherSlots(slots) == [slots[0]] + OtherSlots(slots[1..])
      && Rebuilt(slots, players) == [slots[0]] + Rebuilt(slots[1..], players)
  {
    hide IsPlayer;
  }

  lemma RebuiltNext(slots: seq<Slot>, players: seq<Slot>, done: seq<Slot>)
    requires slots != [] && |players| == |PlayerSlots(slots)|
    ensures if IsPlayer(slots[0])
            then
              && players != [] && |players[1..]| == |PlayerSlots(slots[1..])|
              && done + Rebuilt(slots, players) == done + [players[0]] + Rebuilt(slots[1..], players[1..])
            else
              && |players| == |PlayerSlots(slots[1..])|
              && done + Rebuilt(slots, players) == done + [slots[0]] + Rebuilt(slots[1..], players)
  {
    hide IsPlayer, Rebuilt;
    RebuiltHead(slots, players);
  }

  lemma {:induction false} RebuiltFromOwn(slots: seq<Slot>)
    ensures Rebuilt(slots, PlayerSlots(slots)) == slots
  {
    hide IsPlayer;
    if slots != [] {
      RebuiltFromOwn(slots[1..]);
      assert slots == [slots[0]] + slots[1..];
      if IsPlayer(slots[0]) {
        assert PlayerSlots(slots)[1..] == PlayerSlots(slots[1..]);
      } else {
        assert PlayerSlots(slots) == PlayerSlots(slots[1..]);
      }
    }
  }

  /** Slots of others are not moved, and what agrees for the players in order agrees slot by slot. */
  lemma {:induction false} RebuiltAt(slots: seq<Slot>, players: seq<Slot>, i: nat, same: (Slot, Slot) -> bool)
    requires |players| == |PlayerSlots(slots)| && i < |slots|
    requires forall k :: 0 <= k < |players| ==> same(players[k], PlayerSlots(slots)[k])
    ensures if IsPlayer(slots[i]) then same(Rebuilt(slots, players)[i], slots[i])
      else Rebuilt(slots, players)[i] == slots[i]
  {
    if IsPlayer(slots[0]) {
      assert PlayerSlots(slots)[1..] == PlayerSlots(slots[1..]);
      if i > 0 {
        RebuiltAt(slots[1..], players[1..], i - 1, same);
      }
    } else if i > 0 {
      RebuiltAt(slots[1..], players, i - 1, same);
    }
  }

  /** What a shuffle keeps, whatever the order: nobody is lost or doubled, no two players get the same
      colour, and who is no player stays in place. */
  lemma ShuffleKeeps(slots: seq<Slot>, order: seq<nat>, customForces: bool)
    requires IsShuffle(order, |PlayerSlots(slots)|)
    ensures |order| == |PlayerSlots(slots)| && forall i :: 0 <= i < |order| ==> order[i] < |order|
    ensures var r := Rebuilt(slots, Shuffled(PlayerSlots(slots), order, customForces));
      && Values(r, PidOf) == Values(slots, PidOf) && Values(r, ColourOf) == Values(slots, ColourOf)
      && forall i :: 0 <= i < |slots| && !IsPlayer(slots[i]) ==> r[i] == slots[i]
  {
    hide Values, Rebuilt, IsPlayer;
    var players := PlayerSlots(slots);
    ShuffleIndices(order, |players|);
    var shuffled := Shuffled(players, order, customForces);
    SameValuesShuffled(slots, order, customForces, PidOf, shuffled);
    if customForces {
      SameValues(shuffled, ColourOf, players, ColourOf);
      RebuiltValues(slots, shuffled, ColourOf);
      RebuiltValues(slots, players, ColourOf);
    } else {
      SameValuesShuffled(slots, order, customForces, ColourOf, shuffled);
    }
    RebuiltFromOwn(slots);
    forall i | 0 <= i < |slots| && !IsPlayer(slots[i]) ensures Rebuilt(slots, shuffled)[i] == slots[i] {
      RebuiltAt(slots, shuffled, i, (a: Slot, b: Slot) => true);
    }
  }

  /** Whoever was there is still there, and nobody else. */
  lemma EveryoneStays(slots: seq<Slot>, order: seq<nat>, customForces: bool, pid: nat)
    requires IsShuffle(order, |PlayerSlots(slots)|)
    requires |order| == |PlayerSlots(slots)| && forall i :: 0 <= i < |order| ==> order[i] < |order|
    ensures var r := Rebuilt(slots, Shuffled(PlayerSlots(slots), order, customForces));
      (exists i :: 0 <= i < |r| && r[i].pid == pid) <==> (exists i :: 0 <= i < |slots| && slots[i].pid == pid)
  {
    hide Values, Rebuilt, IsPlayer, PlayerSlots, IsShuffle;
    ShuffleKeeps(slots, order, customForces);
    HasValue(slots, PidOf, pid);
    HasValue(Rebuilt(slots, Shuffled(PlayerSlots(slots), order, customForces)), PidOf, pid);
  }

  lemma SameValuesShuffled(slots: seq<Slot>, order: seq<nat>, customForces: bool, f: Slot -> nat, shuffled: seq<Slot>)
    requires IsShuffle(order, |PlayerSlots(slots)|)
    requires |order| == |PlayerSlots(slots)| && forall i :: 0 <= i < |order| ==> order[i] < |order|
    requires shuffled == Shuffled(PlayerSlots(slots), order, customForces)
    requires forall i :: 0 <= i < |shuffled| ==> f(shuffled[i]) == f(PlayerSlots(slots)[order[i]])
    ensures Values(Rebuilt(slots, shuffled), f) == Values(slots, f)
  {
    hide Values, Rebuilt, IsPlayer;
    ShuffledValues(PlayerSlots(slots), order, customForces, f);
    RebuiltValues(slots, shuffled, f);
    RebuiltValues(slots, PlayerSlots(slots), f);
    RebuiltFromOwn(slots);
  }

  /** With custom forces every slot keeps its team, colour and race, and every player's handicap is reset. */
  lemma CustomForcesStay(slots: seq<Slot>, order: seq<nat>, i: nat)
    requires IsShuffle(order, |PlayerSlots(slots)|) && i < |slots|
    requires |order| == |PlayerSlots(slots)| && forall k :: 0 <= k < |order| ==> order[k] < |order|
    ensures var r := Rebuilt(slots, Shuffled(PlayerSlots(slots), order, true))[i];
      && r.team == slots[i].team && r.colour == slots[i].colour && r.race == slots[i].race
      && (IsPlayer(slots[i]) ==> r.handicap == FULL_HANDICAP && r.computerType == COMPUTER_NORMAL)
  {
    hide Rebuilt, IsPlayer;
    RebuiltAt(slots, Shuffled(PlayerSlots(slots), order, true), i, SameForce);
    RebuiltAt(slots, Shuffled(PlayerSlots(slots), order, true), i,
      (a: Slot, b: Slot) => a.handicap == FULL_HANDICAP && a.computerType == COMPUTER_NORMAL);
  }

  predicate SameForce(a: Slot, b: Slot) { a.team == b.team && a.colour == b.colour && a.race == b.race }

  /** How many others are occupied and not observing. */
  function OtherPlayers(slots: seq<Slot>, pid: int): (n: nat)
    ensures n <= |slots|
  {
    if slots == [] then 0
    else
      (if slots[0].status == OCCUPIED && slots[0].team != MAX_SLOTS && slots[0].pid != pid then 1 else 0)
      + OtherPlayers(slots[1..], pid)
  }

  /** The first slot of a player, or one behind the last. */
  function FirstSid(slots: seq<Slot>, pid: nat): (sid: nat)
    ensures sid <= |slots| && (sid < |slots| ==> slots[sid].pid == pid)
    ensures forall i :: 0 <= i < sid ==> slots[i].pid != pid
  {
    if slots == [] || slots[0].pid == pid then 0 else 1 + FirstSid(slots[1..], pid)
  }

  predicate OpenIn(slot: Slot, team: nat) { slot.status == OPEN && slot.team == team }

  /** The slot that is emptied or filled keeps its team, colour and race. */
  function Refilled(slot: Slot, pid: nat, downloadStatus: nat, status: nat, computer: nat, computerType: nat): Slot {
    Slot(pid, downloadStatus, status, computer, slot.team, slot.colour, slot.race, computerType)
  }

  ghost predicate HasOpen(slots: seq<Slot>, team: nat) { exists k :: 0 <= k < |slots| && OpenIn(slots[k], team) }

  /** Where the search for an open slot of a team begins: at the player's slot, if that is of the team. */
  ghost function SearchStart(slots: seq<Slot>, team: nat, pid: nat): (start: nat) {
    var sid := FirstSid(slots, pid);
    if sid < |slots| && slots[sid].team == team then sid else 0
  }

  /** The first open slot of a team from the start of the search on, or else the first before that. */
  ghost predicate IsEmptySlot(slots: seq<Slot>, team: nat, pid: nat, sid: nat)
    requires sid < |slots|
  {
    var start := SearchStart(slots, team, pid);
    && OpenIn(slots[sid], team)
    && (forall k :: start <= k < sid ==> !OpenIn(slots[k], team))
    && (sid < start ==> forall k :: 0 <= k < sid || start <= k < |slots| ==> !OpenIn(slots[k], team))
  }

  class Lobby {
    var slots: seq<Slot>
    const customForces: bool
    const fixedPlayerSettings: bool
    const randomRaces: bool
    const observersAllowed: bool
    const mapNumPlayers: nat

    ghost predicate Valid()
      reads this
    {
      |slots| <= NO_SLOT && DistinctColours(slots)
    }

    constructor (slots: seq<Slot>, customForces: bool, fixedPlayerSettings: bool, randomRaces: bool,
                 observersAllowed: bool, mapNumPlayers: nat)
      requires |slots| <= NO_SLOT && DistinctColours(slots)
      ensures Valid() && this.slots == slots && this.customForces == customForces
      ensures this.fixedPlayerSettings == fixedPlayerSettings
      ensures this.randomRaces == randomRaces && this.observersAllowed == observersAllowed
      ensures this.mapNumPlayers == mapNumPlayers
    {
      this.slots, this.customForces, this.fixedPlayerSettings := slots, customForces, fixedPlayerSettings;
      this.randomRaces, this.observersAllowed, this.mapNumPlayers := randomRaces, observersAllowed, mapNumPlayers;
    }

    /** The lowest colour that no slot has. */
    method GetNewColour() returns (colour: nat)
      ensures colour <= MAX_SLOTS && (colour < MAX_SLOTS ==> colour !in Values(slots, ColourOf))
      ensures forall c :: 0 <= c < colour ==> c in Values(slots, ColourOf)
    {
      hide Values;
      colour := 0;
      while colour < MAX_SLOTS
        invariant colour <= MAX_SLOTS && forall c :: 0 <= c < colour ==> c in Values(slots, ColourOf)
      {
        HasValue(slots, ColourOf, colour);
        var inUse, i := false, 0;
        while i < |slots| && !inUse
          invariant 0 <= i <= |slots|
          invariant inUse <==> exists k :: 0 <= k < i && ColourOf(slots[k]) == colour
        {
          if slots[i].colour == colour {
            inUse := true;
          }
          i := i + 1;
        }
        if !inUse {
          return;
        }
        colour := colour + 1;
      }
    }

    method GetSid(pid: nat) returns (sid: nat)
      requires |slots| <= NO_SLOT
      ensures sid == if FirstSid(slots, pid) < |slots| then FirstSid(slots, pid) else NO_SLOT
    {
      sid := 0;
      while sid < |slots|
        invariant sid <= |slots| && forall i :: 0 <= i < sid ==> slots[i].pid != pid
      {
        if slots[sid].pid == pid {
          return;
        }
        sid := sid + 1;
      }
      sid := NO_SLOT;
    }

    method CountOtherPlayers(pid: int) returns (n: nat)
      ensures n == OtherPlayers(slots, pid)
    {
      n := 0;
      var i := 0;
      assert slots[0..] == slots;
      while i < |slots|
        invariant 0 <= i <= |slots| && n + OtherPlayers(slots[i..], pid) == OtherPlayers(slots, pid)
      {
        assert slots[i..][1..] == slots[i + 1..];
        if slots[i].status == OCCUPIED && slots[i].team != MAX_SLOTS && slots[i].pid != pid {
          n := n + 1;
        }
        i := i + 1;
      }
    }

    function Race(): nat { if randomRaces then RACE_RANDOM else RACE_RANDOM + RACE_SELECTABLE }

    /** The slots once a player sits down without custom forces, before a team and a colour are chosen. */
    function Seated(slots: seq<Slot>, sid: nat, pid: nat): seq<Slot>
      requires sid < |slots|
    {
      slots[sid := Slot(pid, 255, OCCUPIED, 0, MAX_SLOTS, MAX_SLOTS, Race())]
    }

    /** A player sits down. Without custom forces the slot's settings are chosen anew: the player observes
        unless the map has room for another, who gets the lowest colour that is free. */
    method JoinSlot(sid: nat, pid: nat)
      requires Valid() && sid < |slots|
      modifies this`slots
      ensures Valid() && |slots| == |old(slots)|
      ensures forall i :: 0 <= i < |slots| && i != sid ==> slots[i] == old(slots)[i]
      ensures customForces ==> slots[sid] == Refilled(old(slots)[sid], pid, 255, OCCUPIED, 0, COMPUTER_NORMAL)
      ensures !customForces ==> var seated, c := Seated(old(slots), sid, pid), slots[sid].colour;
        if OtherPlayers(seated, -1) >= mapNumPlayers then slots == seated
        else
          && slots[sid] == seated[sid].(team := if sid < mapNumPlayers then sid else 0, colour := c) && c <= MAX_SLOTS
          && (c < MAX_SLOTS ==> c !in Values(seated, ColourOf)) && forall d :: 0 <= d < c ==>
            d in Values(seated, ColourOf)
    {
      hide Values, DistinctColours;
      if customForces {
        NewColour(slots, sid, Refilled(slots[sid], pid, 255, OCCUPIED, 0, COMPUTER_NORMAL));
        slots := slots[sid := Slot(pid, 255, OCCUPIED, 0, slots[sid].team, slots[sid].colour, slots[sid].race)];
      } else {
        var race := if randomRaces then RACE_RANDOM else RACE_RANDOM + RACE_SELECTABLE;
        NewColour(slots, sid, Slot(pid, 255, OCCUPIED, 0, MAX_SLOTS, MAX_SLOTS, race));
        slots := slots[sid := Slot(pid, 255, OCCUPIED, 0, MAX_SLOTS, MAX_SLOTS, race)];
        ghost var seated := slots;
        var n := CountOtherPlayers(-1);
        if n < mapNumPlayers {
          var colour := GetNewColour();
          NewColour(slots, sid, slots[sid].(team := if sid < mapNumPlayers then sid else 0, colour := colour));
          slots := slots[sid := slots[sid].(team := if sid < mapNumPlayers then sid else 0)];
          slots := slots[sid := slots[sid].(colour := colour)];
          assert slots == seated[sid := seated[sid].(team := if sid < mapNumPlayers then sid else 0, colour := colour)];
        }
      }
    }

    /** The player's slot goes to another one, but with fixed settings not its team, colour, race and handicap,
        and with custom forces not its team. */
    method SwapSlots(sid1: nat, sid2: nat)
      requires Valid()
      modifies this`slots
      ensures Valid()
      ensures slots ==
        if sid1 < |old(slots)| && sid2 < |old(slots)| then Exchanged(old(slots), sid1, sid2) else old(slots)
    {
      hide Values, DistinctColours;
      if sid1 < |slots| && sid2 < |slots| && sid1 != sid2 {
        var slot1, slot2 := slots[sid1], slots[sid2];
        if fixedPlayerSettings {
          NewColour(slots, sid1, Moved(slot2, slot1));
          slots := slots[sid1 := Slot(slot2.pid, slot2.downloadStatus, slot2.status, slot2.computer, slot1.team,
            slot1.colour, slot1.race, slot2.computerType, slot1.handicap)];
          NewColour(slots, sid2, Moved(slot1, slot2));
          slots := slots[sid2 := Slot(slot1.pid, slot1.downloadStatus, slot1.status, slot1.computer, slot2.team,
            slot2.colour, slot2.race, slot1.computerType, slot2.handicap)];
        } else {
          SwappedColours(slots, sid1, sid2, Moved(slot2, slot1), Moved(slot1, slot2));
          if customForces {
            slot1, slot2 := slot1.(team := slots[sid2].team), slot2.(team := slots[sid1].team);
          }
          slots := slots[sid1 := slot2];
          slots := slots[sid2 := slot1];
        }
      }
    }

    /** The slots with what moves exchanged between two of them. */
    function Exchanged(slots: seq<Slot>, sid1: nat, sid2: nat): (r: seq<Slot>)
      requires sid1 < |slots| && sid2 < |slots|
      ensures |r| == |slots|
    {
      slots[sid1 := Moved(slots[sid2], slots[sid1])][sid2 := Moved(slots[sid1], slots[sid2])]
    }

    /** What `from` becomes in the place of `to`. */
    function Moved(from: Slot, to: Slot): Slot {
      if fixedPlayerSettings then from.(team := to.team, colour := to.colour, race := to.race, handicap := to.handicap)
      else if customForces then from.(team := to.team)
      else from
    }

    /** The first open slot of a team from the start of the search on, or else the first before that. */
    method GetEmptySlot(team: nat, pid: nat) returns (sid: nat)
      requires |slots| <= NO_SLOT
      ensures FirstSid(slots, pid) == |slots| ==> sid == NO_SLOT
      ensures sid < |slots| ==> IsEmptySlot(slots, team, pid, sid)
      ensures sid >= |slots| ==> sid == NO_SLOT
      ensures sid >= |slots| && FirstSid(slots, pid) < |slots| ==>
        forall k :: 0 <= k < |slots| ==> !OpenIn(slots[k], team)
    {
      var start := GetSid(pid);
      sid := NO_SLOT;
      if start < |slots| {
        if slots[start].team != team {
          start := 0;
        }
        var i: nat := start;
        while i < |slots|
          invariant start <= i <= |slots| && forall k :: start <= k < i ==> !OpenIn(slots[k], team)
        {
          if slots[i].status == OPEN && slots[i].team == team {
            return i;
          }
          i := i + 1;
        }
        i := 0;
        while i < start
          invariant i <= start && forall k :: 0 <= k < i ==> !OpenIn(slots[k], team)
        {
          if slots[i].status == OPEN && slots[i].team == team {
            return i;
          }
          i := i + 1;
        }
      }
    }

    /** Whether a player may join a team, or observe. */
    ghost predicate MayJoin(pid: nat, team: nat)
      reads this
    {
      if team < MAX_SLOTS then team < mapNumPlayers && OtherPlayers(slots, pid) < mapNumPlayers
        else team == MAX_SLOTS && observersAllowed
    }

    /** A player asks for another team, or to observe. With custom forces the player moves to an open slot
        of the team; otherwise the slot changes its team, and its colour if observing begins or ends. */
    method ChangeTeam(pid: nat, team: nat)
      requires Valid()
      modifies this`slots
      ensures Valid() && |slots| == |old(slots)|
      ensures customForces && FirstSid(old(slots), pid) < |slots| && HasOpen(old(slots), team) ==>
        exists to: nat :: to < |slots| && IsEmptySlot(old(slots), team, pid, to) &&
          slots == Exchanged(old(slots), FirstSid(old(slots), pid), to)
      ensures customForces && !(FirstSid(old(slots), pid) < |slots| && HasOpen(old(slots), team)) ==>
        slots == old(slots)
      ensures !customForces && !(FirstSid(old(slots), pid) < |slots| && old(MayJoin(pid, team))) ==> slots == old(slots)
      ensures !customForces && FirstSid(old(slots), pid) < |slots| && old(MayJoin(pid, team)) ==>
        var sid, was := FirstSid(old(slots), pid), old(slots);
        && slots == was[sid := was[sid].(team := team, colour := slots[sid].colour)]
        && (team == MAX_SLOTS ==> slots[sid].colour == MAX_SLOTS)
        && (team < MAX_SLOTS && was[sid].colour != MAX_SLOTS ==> slots[sid].colour == was[sid].colour)
        && (team < MAX_SLOTS && was[sid].colour == MAX_SLOTS ==>
            slots[sid].colour <= MAX_SLOTS && forall c :: 0 <= c < slots[sid].colour ==> c in Values(was, ColourOf))
    {
      hide Values, DistinctColours, OtherPlayers;
      if customForces {
        var oldSid := GetSid(pid);
        var newSid := GetEmptySlot(team, pid);
        SwapSlots(oldSid, newSid);
        return;
      }
      if team > MAX_SLOTS {
        return;
      }
      if team == MAX_SLOTS {
        if !observersAllowed {
          return;
        }
      } else {
        if team >= mapNumPlayers {
          return;
        }
        var n := CountOtherPlayers(pid);
        if n >= mapNumPlayers {
          return;
        }
      }
      var sid := GetSid(pid);
      if sid < |slots| {
        SetTeam(sid, team);
      }
    }

    method SetTeam(sid: nat, team: nat)
      requires Valid() && sid < |slots| && team <= MAX_SLOTS
      modifies this`slots
      ensures Valid() && |slots| == |old(slots)|
      ensures slots == old(slots)[sid := old(slots)[sid].(team := team, colour := slots[sid].colour)]
      ensures team == MAX_SLOTS ==> slots[sid].colour == MAX_SLOTS
      ensures team < MAX_SLOTS && old(slots)[sid].colour != MAX_SLOTS ==> slots[sid].colour == old(slots)[sid].colour
      ensures team < MAX_SLOTS && old(slots)[sid].colour == MAX_SLOTS ==>
        slots[sid].colour <= MAX_SLOTS && forall c :: 0 <= c < slots[sid].colour ==> c in Values(old(slots), ColourOf)
    {
      hide Values, DistinctColours;
      ghost var was := slots;
      NewColour(slots, sid, slots[sid].(team := team));
      SameColours(slots, sid, slots[sid].(team := team));
      slots := slots[sid := slots[sid].(team := team)];
      if team == MAX_SLOTS {
        NewColour(slots, sid, slots[sid].(colour := MAX_SLOTS));
        slots := slots[sid := slots[sid].(colour := MAX_SLOTS)];
      } else if slots[sid].colour == MAX_SLOTS {
        var colour := GetNewColour();
        NewColour(slots, sid, slots[sid].(colour := colour));
        slots := slots[sid := slots[sid].(colour := colour)];
      }
    }

    /** A slot asks for a colour; it gets one that is free, or that of a slot not in use, in exchange for its own. */
    method ColourSlot(sid: nat, colour: nat)
      requires Valid()
      modifies this`slots
      ensures Valid() && |slots| == |old(slots)|
      ensures forall i :: 0 <= i < |slots| ==> slots[i] == old(slots)[i].(colour := slots[i].colour)
      ensures sid < |slots| && colour < MAX_SLOTS ==>
        if (exists k :: 0 <= k < |slots| && old(slots)[k].colour == colour && old(slots)[k].status == OCCUPIED)
        then slots == old(slots)
        else slots[sid].colour == colour && forall i :: 0 <= i < |slots| && i != sid ==>
          slots[i].colour == if old(slots)[i].colour == colour then old(slots)[sid].colour else old(slots)[i].colour
      ensures !(sid < |slots| && colour < MAX_SLOTS) ==> slots == old(slots)
    {
      hide Values, DistinctColours;
      if sid < |slots| && colour < MAX_SLOTS {
        var taken, takenSid, i: nat := false, 0, 0;
        while i < |slots|
          invariant i <= |slots| && (taken <==> exists k :: 0 <= k < i && slots[k].colour == colour)
          invariant taken ==> 0 <= takenSid < i && slots[takenSid].colour == colour
        {
          if slots[i].colour == colour {
            takenSid := i;
            taken := true;
          }
          i := i + 1;
        }
        if taken {
          OnlySlotOfColour(slots, takenSid);
        }
        HasValue(slots, ColourOf, colour);
        if taken && slots[takenSid].status != OCCUPIED {
          if takenSid != sid {
            SwappedColours(slots, takenSid, sid, slots[takenSid].(colour := slots[sid].colour),
              slots[sid].(colour := colour));
          }
          slots := slots[takenSid := slots[takenSid].(colour := slots[sid].colour)];
          slots := slots[sid := slots[sid].(colour := colour)];
          assert takenSid == sid ==> slots == old(slots);
        } else if !taken {
          NewColour(slots, sid, slots[sid].(colour := colour));
          slots := slots[sid := slots[sid].(colour := colour)];
        }
      }
    }

    method OpenSlot(sid: nat)
      requires Valid()
      modifies this`slots
      ensures Valid()
      ensures slots == if sid < |old(slots)|
        then old(slots)[sid := Refilled(old(slots)[sid], 0, 255, OPEN, 0, COMPUTER_NORMAL)] else old(slots)
    {
      hide Values, DistinctColours;
      if sid < |slots| {
        NewColour(slots, sid, Refilled(slots[sid], 0, 255, OPEN, 0, COMPUTER_NORMAL));
        slots := slots[sid := Slot(0, 255, OPEN, 0, slots[sid].team, slots[sid].colour, slots[sid].race)];
      }
    }

    method CloseSlot(sid: nat)
      requires Valid()
      modifies this`slots
      ensures Valid()
      ensures slots == if sid < |old(slots)|
        then old(slots)[sid := Refilled(old(slots)[sid], 0, 255, CLOSED, 0, COMPUTER_NORMAL)] else old(slots)
    {
      hide Values, DistinctColours;
      if sid < |slots| {
        NewColour(slots, sid, Refilled(slots[sid], 0, 255, CLOSED, 0, COMPUTER_NORMAL));
        slots := slots[sid := Slot(0, 255, CLOSED, 0, slots[sid].team, slots[sid].colour, slots[sid].race)];
      }
    }

    method ComputerSlot(sid: nat, skill: nat)
      requires Valid()
      modifies this`slots
      ensures Valid()
      ensures slots == if sid < |old(slots)| && skill < 3
        then old(slots)[sid := Refilled(old(slots)[sid], 0, 100, OCCUPIED, 1, skill)] else old(slots)
    {
      hide Values, DistinctColours;
      if sid < |slots| && skill < 3 {
        NewColour(slots, sid, Refilled(slots[sid], 0, 100, OCCUPIED, 1, skill));
        slots := slots[sid := Slot(0, 100, OCCUPIED, 1, slots[sid].team, slots[sid].colour, slots[sid].race, skill)];
      }
    }

    /** Shuffles the players by the given order of their numbers. */
    method ShuffleSlots(order: seq<nat>)
      requires Valid() && IsShuffle(order, |PlayerSlots(slots)|)
      modifies this`slots
      ensures |order| == |PlayerSlots(old(slots))| && (forall i :: 0 <= i < |order| ==> order[i] < |order|)
      ensures Valid() && slots == Rebuilt(old(slots), Shuffled(PlayerSlots(old(slots)), order, customForces))
      ensures Values(slots, PidOf) == Values(old(slots), PidOf)
    {
      hide Values, Rebuilt, PlayerSlots, IsPlayer;
      ShuffleKeeps(slots, order, customForces);
      var playerSlots := CollectPlayers();
      var shuffled, i: nat := [], 0;
      while i < |order|
        invariant i == |shuffled| <= |order|
        invariant forall k :: 0 <= k < i ==> shuffled[k] == Shuffled(playerSlots, order, customForces)[k]
      {
        var p, here := playerSlots[order[i]], playerSlots[i];
        shuffled := shuffled + [if customForces then Slot(p.pid, p.downloadStatus, p.status, p.computer, here.team,
          here.colour, here.race) else p];
        i := i + 1;
      }
      assert shuffled == Shuffled(playerSlots, order, customForces);
      PutBack(shuffled);
    }

    method CollectPlayers() returns (players: seq<Slot>)
      ensures players == PlayerSlots(slots)
    {
      players := [];
      var i := 0;
      assert slots[0..] == slots;
      while i < |slots|
        invariant 0 <= i <= |slots| && players + PlayerSlots(slots[i..]) == PlayerSlots(slots)
      {
        assert slots[i..][1..] == slots[i + 1..];
        if slots[i].status == OCCUPIED && slots[i].computer == 0 && slots[i].team != MAX_SLOTS {
          players := players + [slots[i]];
        }
        i := i + 1;
      }
    }

    method PutBack(players: seq<Slot>)
      requires |players| == |PlayerSlots(slots)|
      modifies this`slots
      ensures slots == Rebuilt(old(slots), players)
    {
      hide Rebuilt;
      var result, current, i: nat := [], 0, 0;
      ghost var rest, left, all := slots, players, Rebuilt(slots, players);
      while i < |slots|
        invariant i <= |slots| && rest == slots[i..] && current <= |players| && left == players[current..]
        invariant |left| == |PlayerSlots(rest)| && result + Rebuilt(rest, left) == all
      {
        RebuiltNext(rest, left, result);
        ghost var next, more := rest[1..], left;
        if slots[i].status == OCCUPIED && slots[i].computer == 0 && slots[i].team != MAX_SLOTS {
          result := result + [players[current]];
          current := current + 1;
          more := left[1..];
        } else {
          result := result + [slots[i]];
        }
        rest, left := next, more;
        i := i + 1;
      }
      RebuiltHead(rest, left);
      slots := result;
    }
  }

  lemma OnlySlotOfColour(slots: seq<Slot>, i: nat)
    requires DistinctColours(slots) && i < |slots| && slots[i].colour < MAX_SLOTS
    ensures forall k :: 0 <= k < |slots| && k != i ==> slots[k].colour != slots[i].colour
  {
    hide Values;
    ValuesWithout(slots, i, ColourOf);
    var rest := slots[..i] + slots[i + 1..];
    HasValue(rest, ColourOf, slots[i].colour);
    var c := slots[i].colour;
    assert c in Values(slots, ColourOf) && Values(slots, ColourOf)[c] == Values(rest, ColourOf)[c] + 1;
    assert c !in Values(rest, ColourOf);
    forall k | 0 <= k < |slots| && k != i ensures slots[k].colour != c {
      assert slots[k] == rest[if k < i then k else k - 1] && ColourOf(slots[k]) == slots[k].colour;
    }
  }
}
