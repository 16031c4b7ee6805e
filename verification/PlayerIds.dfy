/** The player ids of a lobby: of its players, of fake players, and of the virtual host. */
module PlayerIds {
  import opened GameSlot

  const NO_PID := 255

  datatype Player = Player(pid: nat, leftMessageSent: bool) {
    function Pids(): multiset<nat> { if leftMessageSent then multiset{} else multiset{pid} }
  }

  /** The ids of the players who were not yet announced to have left. */
  function PidsOf(players: seq<Player>): multiset<nat> {
    if players == [] then multiset{} else players[0].Pids() + PidsOf(players[1..])
  }

  /** No id is there twice, and all are player ids. */
  ghost predicate Distinct(pids: multiset<nat>) {
    forall pid :: pid in pids ==> pids[pid] == 1 && 1 <= pid < NO_PID
  }

  function HostPid(virtualHost: nat): multiset<nat> {
    if virtualHost == NO_PID then multiset{} else multiset{virtualHost}
  }

  lemma {:induction false} PidsOfConcat(a: seq<Player>, b: seq<Player>)
    ensures PidsOf(a + b) == PidsOf(a) + PidsOf(b)
  {
    hide Player.Pids;
    if a == [] {
      assert a + b == b;
    } else {
      PidsOfConcat(a[1..], b);
      assert (a + b)[1..] == a[1..] + b;
    }
  }

  lemma PidsOfOne(p: Player)
    ensures PidsOf([p]) == p.Pids()
  {
    assert [p][1..] == [];
  }

  /** A player who leaves, or is announced to have left, takes at most the own id away. */
  lemma Removed(players: seq<Player>, i: nat)
    requires i < |players|
    ensures PidsOf(players) == PidsOf(players[..i] + players[i + 1..]) + players[i].Pids()
    ensures PidsOf(players) == PidsOf(players[i := players[i].(leftMessageSent := true)]) + players[i].Pids()
  {
    hide PidsOf;
    var p := players[i].(leftMessageSent := true);
    assert players == players[..i] + ([players[i]] + players[i + 1..]);
    assert players[i := p] == players[..i] + ([p] + players[i + 1..]);
    PidsOfConcat(players[..i], players[i + 1..]);
    PidsOfConcat(players[..i], [players[i]] + players[i + 1..]);
    PidsOfConcat(players[..i], [p] + players[i + 1..]);
    PidsOfConcat([players[i]], players[i + 1..]);
    PidsOfConcat([p], players[i + 1..]);
    PidsOfOne(players[i]);
    PidsOfOne(p);
  }

  lemma {:induction false} HasPid(players: seq<Player>, pid: nat)
    ensures pid in PidsOf(players) <==>
      exists i :: 0 <= i < |players| && !players[i].leftMessageSent && players[i].pid == pid
  {
    if players != [] {
      HasPid(players[1..], pid);
    }
  }

  /** Fewer ids in use than there are leave one of them. */
  lemma {:induction false} SomePidFree(pids: multiset<nat>, n: nat)
    requires |pids| < n
    ensures exists pid :: 1 <= pid <= n && pid !in pids
  {
    if n in pids {
      SomePidFree(pids - multiset{n}, n - 1);
      var pid :| 1 <= pid <= n - 1 && pid !in pids - multiset{n};
      assert pid !in pids;
    }
  }

  lemma Fewer(pids: multiset<nat>, less: multiset<nat>)
    requires Distinct(pids) && less <= pids
    ensures Distinct(less) && |less| <= |pids|
  {
    assert pids == less + (pids - less);
  }

  lemma OneMore(pids: multiset<nat>, pid: nat)
    requires Distinct(pids) && 1 <= pid < NO_PID && pid !in pids
    ensures Distinct(pids + multiset{pid})
  {
  }

  /** The ids of everyone in a lobby. */
  function All(players: seq<Player>, fakePlayers: seq<nat>, virtualHost: nat): multiset<nat> {
    PidsOf(players) + multiset(fakePlayers) + HostPid(virtualHost)
  }

  lemma AllWithHost(players: seq<Player>, fakePlayers: seq<nat>, pid: nat)
    ensures pid != NO_PID ==> All(players, fakePlayers, pid) == All(players, fakePlayers, NO_PID) + multiset{pid}
  {
    hide PidsOf;
  }

  lemma AllWithPlayer(players: seq<Player>, fakePlayers: seq<nat>, virtualHost: nat, pid: nat)
    ensures All(players + [Player(pid, false)], fakePlayers, virtualHost) ==
      All(players, fakePlayers, virtualHost) + multiset{pid}
    ensures |PidsOf(players + [Player(pid, false)])| == |PidsOf(players)| + 1
  {
    hide PidsOf;
    PidsOfConcat(players, [Player(pid, false)]);
    PidsOfOne(Player(pid, false));
  }

  lemma AllWithFake(players: seq<Player>, fakePlayers: seq<nat>, virtualHost: nat, pid: nat)
    ensures All(players, fakePlayers + [pid], virtualHost) == All(players, fakePlayers, virtualHost) + multiset{pid}
  {
    hide PidsOf;
  }

  lemma AllWithout(players: seq<Player>, fakePlayers: seq<nat>, virtualHost: nat, i: nat)
    requires i < |players|
    ensures All(players[..i] + players[i + 1..], fakePlayers, virtualHost) <= All(players, fakePlayers, virtualHost)
    ensures All(players[i := players[i].(leftMessageSent := true)], fakePlayers, virtualHost) <=
      All(players, fakePlayers, virtualHost)
    ensures |PidsOf(players[..i] + players[i + 1..])| <= |PidsOf(players)|
    ensures |PidsOf(players[i := players[i].(leftMessageSent := true)])| <= |PidsOf(players)|
  {
    hide PidsOf, Player.Pids;
    Removed(players, i);
  }

  /** The lowest id that is not in use. */
  ghost predicate IsLowestFree(pids: multiset<nat>, pid: nat) {
    1 <= pid <= NO_PID && (pid < NO_PID ==> pid !in pids) && forall q :: 1 <= q < pid ==> q in pids
  }

  /** The id of a kicked player is free at once, though the player's object still has it; it is the next one
      given away exactly if every lower id is in use. */
  lemma KickedIdIsFree(players: seq<Player>, fakePlayers: seq<nat>, virtualHost: nat, i: nat, next: nat)
    requires i < |players| && !players[i].leftMessageSent && Distinct(All(players, fakePlayers, virtualHost))
    ensures |PidsOf(players)| == |PidsOf(players[i := players[i].(leftMessageSent := true)])| + 1
    ensures var pid, all := players[i].pid, All(players, fakePlayers, virtualHost);
      var rest := All(players[i := players[i].(leftMessageSent := true)], fakePlayers, virtualHost);
      && all == rest + multiset{pid} && pid !in rest
      && (IsLowestFree(rest, next) ==> (next == pid <==> forall q :: 1 <= q < pid ==> q in all))
  {
    hide PidsOf;
    Removed(players, i);
    var pid, all := players[i].pid, All(players, fakePlayers, virtualHost);
    var rest := All(players[i := players[i].(leftMessageSent := true)], fakePlayers, virtualHost);
    assert all == rest + multiset{pid};
    assert all[pid] == rest[pid] + 1;
    FreeOfRest(all, rest, pid, next);
  }

  lemma FreeOfRest(all: multiset<nat>, rest: multiset<nat>, pid: nat, next: nat)
    requires all == rest + multiset{pid} && pid !in rest && 1 <= pid < NO_PID
    ensures IsLowestFree(rest, next) ==> (next == pid <==> forall q :: 1 <= q < pid ==> q in all)
  {
    assert forall q :: q != pid ==> (q in all <==> q in rest);
  }

  class Lobby {
    var virtualHost: nat
    var fakePlayers: seq<nat>
    var players: seq<Player>

    /** All ids in use. */
    ghost function InUse(): multiset<nat>
      reads this
    {
      All(players, fakePlayers, virtualHost)
    }

    /** Players not announced to have left, and fake players. */
    ghost function NumPlayers(): nat
      reads this
    {
      |PidsOf(players)| + |fakePlayers|
    }

    /** No two of those in the lobby have the same id, and the virtual host leaves room for a player. */
    ghost predicate Valid()
      reads this
    {
      Distinct(InUse()) && virtualHost <= NO_PID && (virtualHost != NO_PID ==> NumPlayers() < MAX_SLOTS)
    }

    constructor ()
      ensures Valid() && InUse() == multiset{}
    {
      virtualHost, fakePlayers, players := NO_PID, [], [];
    }

    method GetNumPlayers() returns (n: nat)
      ensures n == NumPlayers()
    {
      hide PidsOf;
      var i: nat := 0;
      n := 0;
      assert players[0..] == players;
      while i < |players|
        invariant i <= |players| && n + |PidsOf(players[i..])| == |PidsOf(players)|
      {
        NextPlayer(players[i..]);
        assert players[i..][1..] == players[i + 1..];
        if !players[i].leftMessageSent {
          n := n + 1;
        }
        i := i + 1;
      }
      NoPlayers(players[i..]);
      n := n + |fakePlayers|;
    }

    method IsUsed(pid: nat) returns (used: bool)
      requires pid != NO_PID && pid != virtualHost
      ensures used <==> pid in InUse()
    {
      hide PidsOf;
      HasPid(players, pid);
      var i := 0;
      while i < |fakePlayers|
        invariant 0 <= i <= |fakePlayers| && forall k :: 0 <= k < i ==> fakePlayers[k] != pid
      {
        if fakePlayers[i] == pid {
          return true;
        }
        i := i + 1;
      }
      i := 0;
      while i < |players|
        invariant 0 <= i <= |players| && forall k :: 0 <= k < i ==> players[k].leftMessageSent || players[k].pid != pid
      {
        if !players[i].leftMessageSent && players[i].pid == pid {
          return true;
        }
        i := i + 1;
      }
      used := false;
    }

    /** The lowest id not in use; 255 only if there is none. */
    method GetNewPid() returns (pid: nat)
      ensures IsLowestFree(InUse(), pid)
      ensures |InUse()| < NO_PID - 1 ==> pid < NO_PID
    {
      hide PidsOf;
      if |InUse()| < NO_PID - 1 {
        SomePidFree(InUse(), NO_PID - 1);
      }
      pid := 1;
      while pid < NO_PID
        invariant 1 <= pid <= NO_PID && forall q :: 1 <= q < pid ==> q in InUse()
      {
        if pid != virtualHost {
          var used := IsUsed(pid);
          if !used {
            return;
          }
        }
        pid := pid + 1;
      }
    }

    method DeleteVirtualHost()
      requires Valid()
      modifies this`virtualHost
      ensures Valid() && virtualHost == NO_PID && InUse() <= old(InUse()) && |InUse()| <= |old(InUse())|
      ensures old(virtualHost) == NO_PID ==> InUse() == old(InUse())
    {
      hide PidsOf, All, Distinct;
      AllWithHost(players, fakePlayers, virtualHost);
      Fewer(InUse(), All(players, fakePlayers, NO_PID));
      virtualHost := NO_PID;
    }

    /** As long as there is room for another player the lobby has a virtual host. */
    method UpdateVirtualHost()
      requires Valid() && |InUse()| < NO_PID - 1
      modifies this`virtualHost
      ensures Valid() && (virtualHost != NO_PID <==> NumPlayers() < MAX_SLOTS)
      ensures old(virtualHost) != NO_PID ==> virtualHost == old(virtualHost)
    {
      hide PidsOf, All, Distinct;
      var n := GetNumPlayers();
      if n < MAX_SLOTS && virtualHost == NO_PID {
        var pid := GetNewPid();
        OneMore(InUse(), pid);
        AllWithHost(players, fakePlayers, pid);
        virtualHost := pid;
      }
    }

    /** A player joins. If another is kicked for that, the others are told at once. */
    method Join(kicked: nat)
      requires Valid() && |InUse()| < NO_PID - 1
      modifies this
      ensures Valid() && fakePlayers == old(fakePlayers)
      ensures virtualHost == if NumPlayers() >= MAX_SLOTS then NO_PID else old(virtualHost)
      ensures |players| == |old(players)| + 1 && !players[|old(players)|].leftMessageSent
      ensures players[..|old(players)|] ==
              if kicked < |old(players)| then old(players)[kicked := old(players)[kicked].(leftMessageSent := true)]
                else old(players)
      ensures forall q :: 1 <= q < players[|old(players)|].pid ==> q in InUse()
      ensures kicked < |old(players)| && !old(players)[kicked].leftMessageSent ==>
        var pid := old(players)[kicked].pid;
        players[|old(players)|].pid == pid <==> forall q :: 1 <= q < pid ==> q in old(InUse())
    {
      hide PidsOf, All, Distinct;
      if kicked < |players| {
        Kick(kicked);
      }
      var n := GetNumPlayers();
      if n >= MAX_SLOTS - 1 {
        DeleteVirtualHost();
      }
      var pid := GetNewPid();
      if kicked < |players| && !old(players)[kicked].leftMessageSent {
        KickedIdIsFree(old(players), old(fakePlayers), old(virtualHost), kicked, pid);
      }
      OneMore(InUse(), pid);
      AllWithPlayer(players, fakePlayers, virtualHost, pid);
      players := players + [Player(pid, false)];
    }

    method Kick(i: nat)
      requires Valid() && i < |players|
      modifies this`players
      ensures Valid() && players == old(players)[i := old(players)[i].(leftMessageSent := true)]
      ensures |InUse()| <= |old(InUse())|
    {
      hide PidsOf, All, Distinct;
      AllWithout(players, fakePlayers, virtualHost, i);
      ghost var before := InUse();
      players := players[i := players[i].(leftMessageSent := true)];
      Fewer(before, InUse());
    }

    /** A player's object is deleted. */
    method Delete(i: nat)
      requires Valid() && i < |players|
      modifies this`players
      ensures Valid() && players == old(players[..i] + players[i + 1..]) && |InUse()| <= |old(InUse())|
    {
      hide PidsOf, All, Distinct;
      AllWithout(players, fakePlayers, virtualHost, i);
      ghost var before := InUse();
      players := players[..i] + players[i + 1..];
      Fewer(before, InUse());
    }

    /** A fake player joins, if there is an empty slot and there are not too many. */
    method CreateFakePlayer(slotFree: bool)
      requires Valid() && |InUse()| < NO_PID - 1
      modifies this`virtualHost, this`fakePlayers
      ensures Valid()
      ensures if |old(fakePlayers)| <= MAX_SLOTS - 2 && slotFree
              then
                && |fakePlayers| == |old(fakePlayers)| + 1 && fakePlayers[..|old(fakePlayers)|] == old(fakePlayers)
                && virtualHost == (if NumPlayers() >= MAX_SLOTS then NO_PID else old(virtualHost))
                && forall q :: 1 <= q < fakePlayers[|old(fakePlayers)|] ==> q in InUse()
              else fakePlayers == old(fakePlayers) && virtualHost == old(virtualHost)
    {
      hide PidsOf, All, Distinct;
      if |fakePlayers| > MAX_SLOTS - 2 {
        return;
      }
      if slotFree {
        var n := GetNumPlayers();
        if n >= MAX_SLOTS - 1 {
          DeleteVirtualHost();
        }
        var pid := GetNewPid();
        OneMore(InUse(), pid);
        AllWithFake(players, fakePlayers, virtualHost, pid);
        fakePlayers := fakePlayers + [pid];
      }
    }

    method DeleteFakePlayers()
      requires Valid()
      modifies this`fakePlayers
      ensures Valid() && fakePlayers == [] && |InUse()| <= |old(InUse())|
    {
      hide PidsOf;
      ghost var before := InUse();
      fakePlayers := [];
      Fewer(before, InUse());
    }
  }

  lemma NextPlayer(players: seq<Player>)
    requires players != []
    ensures |PidsOf(players)| == (if players[0].leftMessageSent then 0 else 1) + |PidsOf(players[1..])|
  {
  }

  lemma NoPlayers(players: seq<Player>)
    requires players == []
    ensures |PidsOf(players)| == 0
  {
  }
}
