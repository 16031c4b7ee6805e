/** Sending the map to players who lack it: in parts, ahead of their acknowledgements, under a limit. */
module MapDownload {
  import opened Bytes
  import opened Crc32
  import opened Division
  import opened Packet

  const MAPPART: bv8 := 67
  const PART_SIZE := 1442
  const PARTS_AHEAD := 100
  const PART_OVERHEAD := 18
  const PACKET_LIMIT := 1460

  datatype Player = Player(downloadStarted: bool, downloadFinished: bool, lastMapPartSent: nat, lastMapPartAcked: nat) {
    predicate Downloading() { downloadStarted && !downloadFinished }
  }

  // ----- The packet -----

  /** The piece of the map in the part that begins at `start`. */
  function Part(mapData: seq<bv8>, start: nat): (data: seq<bv8>)
    requires start < |mapData|
    ensures 0 < |data| <= PART_SIZE
  {
    mapData[start..Min(start + PART_SIZE, |mapData|)]
  }

  function MapPart(fromPid: bv8, toPid: bv8, start: nat, data: seq<bv8>): seq<bv8> {
    AssignLength([HEADER, MAPPART, 0, 0, toPid, fromPid, 1, 0, 0, 0] + Le(start, 4) + Le(Crc(data, 0) as nat, 4) + data)
  }

  /** A client finds the start, the checksum and the data of a part in its packet. */
  lemma MapPartHolds(fromPid: bv8, toPid: bv8, start: nat, data: seq<bv8>)
    requires start < DWORD && |data| <= PART_SIZE
    ensures var p := MapPart(fromPid, toPid, start, data);
      && |p| == PART_OVERHEAD + |data| <= PACKET_LIMIT && FromLe(p[2..4]) == |p| && p[..2] == [HEADER, MAPPART]
      && p[4..10] == [toPid, fromPid, 1, 0, 0, 0]
      && FromLe(p[10..14]) == start && FromLe(p[14..18]) == Crc(data, 0) as nat && p[18..] == data
  {
    hide Le, FromLe, Crc, AssignLength;
    var checksum := Crc(data, 0) as nat;
    var head := [HEADER, MAPPART, 0, 0, toPid, fromPid, 1, 0, 0, 0];
    var packet := head + Le(start, 4) + Le(checksum, 4) + data;
    var p := AssignLength(packet);
    LengthField(packet);
    Le32RoundTrip(start);
    Le32RoundTrip(checksum);
    FieldsOf(head, Le(start, 4), Le(checksum, 4), data);
    BehindLength(packet, p, 4, 10);
    BehindLength(packet, p, 10, 14);
    BehindLength(packet, p, 14, 18);
    BehindLength(packet, p, 18, |p|);
  }

  lemma FieldsOf(head: seq<bv8>, a: seq<bv8>, b: seq<bv8>, data: seq<bv8>)
    requires |head| == 10 && |a| == 4 && |b| == 4
    ensures var packet := head + a + b + data;
      && packet[4..10] == head[4..] && packet[10..14] == a && packet[14..18] == b && packet[18..|packet|] == data
  {
  }

  lemma BehindLength(packet: seq<bv8>, p: seq<bv8>, from: nat, to: nat)
    requires |packet| == |p| && 4 <= from <= to <= |p| && p[4..] == packet[4..]
    ensures p[from..to] == packet[from..to]
  {
    assert p[from..to] == p[4..][from - 4..to - 4];
    assert packet[from..to] == packet[4..][from - 4..to - 4];
  }

  // ----- What a player has been sent -----

  /** The parts sent so far are the first of the map, without gap or overlap. */
  ghost predicate Tiles(mapData: seq<bv8>, starts: seq<nat>, lastSent: nat) {
    && lastSent == PART_SIZE * |starts| && lastSent < |mapData| + PART_SIZE
    && forall k :: 0 <= k < |starts| ==> starts[k] == PART_SIZE * k && starts[k] < |mapData|
  }

  function Joined(mapData: seq<bv8>, starts: seq<nat>): seq<bv8>
    requires forall k :: 0 <= k < |starts| ==> starts[k] < |mapData|
  {
    if starts == [] then [] else Joined(mapData, starts[..|starts| - 1]) + Part(mapData, starts[|starts| - 1])
  }

  /** Put together, they are a prefix of the map, and all of it once the last part has been sent. */
  lemma {:induction false} PartsArePrefix(mapData: seq<bv8>, starts: seq<nat>, lastSent: nat)
    requires Tiles(mapData, starts, lastSent)
    ensures Joined(mapData, starts) == mapData[..Min(lastSent, |mapData|)]
    ensures lastSent >= |mapData| ==> Joined(mapData, starts) == mapData
  {
    if starts != [] {
      PartsArePrefix(mapData, starts[..|starts| - 1], lastSent - PART_SIZE);
      var start := starts[|starts| - 1];
      assert mapData[..start] + Part(mapData, start) == mapData[..Min(lastSent, |mapData|)];
    }
  }

  /** How many of the first `i` players are downloading. */
  function Downloaders(players: seq<Player>, i: nat): nat
    requires i <= |players|
  {
    if i == 0 then 0 else Downloaders(players, i - 1) + if players[i - 1].Downloading() then 1 else 0
  }

  /** A player waits for acknowledgements, has the whole map, or the limit is reached. */
  predicate Served(p: Player, size: nat, maxSpeed: nat, counter: nat): (served: bool)
    ensures served && p.lastMapPartSent < size && (maxSpeed > 0 ==> counter <= maxSpeed * 1024) ==>
      p.lastMapPartSent >= (p.lastMapPartAcked + PART_SIZE * PARTS_AHEAD) % DWORD
  {
    || p.lastMapPartSent >= (p.lastMapPartAcked + PART_SIZE * PARTS_AHEAD) % DWORD
    || p.lastMapPartSent >= size
    || (maxSpeed > 0 && counter > maxSpeed * 1024)
  }

  /** Whether the `i`-th player is downloading and among the first so many. */
  predicate IsDue(players: seq<Player>, i: nat, maxDownloaders: nat)
    requires i < |players|
  {
    players[i].Downloading() && (maxDownloaders > 0 ==> Downloaders(players, i) < maxDownloaders)
  }

  /** What was sent has parts of the map added to it. */
  ghost predicate Extends(before: seq<nat>, after: seq<nat>, size: nat) {
    before <= after && forall k :: |before| <= k < |after| ==> after[k] < size
  }

  /** The packets of a round: the new parts of each player in turn. */
  ghost function RoundPackets(mapData: seq<bv8>, fromPid: bv8, toPids: seq<bv8>, before: seq<seq<nat>>,
                              after: seq<seq<nat>>, n: nat): seq<seq<bv8>>
    requires n <= |toPids| && n <= |before| && n <= |after|
    requires forall i :: 0 <= i < n ==> Extends(before[i], after[i], |mapData|)
  {
    if n == 0 then []
    else
      assert Extends(before[n - 1], after[n - 1], |mapData|);
      RoundPackets(mapData, fromPid, toPids, before, after, n - 1) +
      MapParts(mapData, fromPid, toPids[n - 1], after[n - 1][|before[n - 1]|..])
  }

  lemma {:induction false} SameRound(mapData: seq<bv8>, fromPid: bv8, toPids: seq<bv8>, before: seq<seq<nat>>,
                                     a: seq<seq<nat>>, b: seq<seq<nat>>, n: nat)
    requires n <= |toPids| && n <= |before| && n <= |a| && n <= |b| && forall i :: 0 <= i < n ==> a[i] == b[i]
    requires forall i :: 0 <= i < n ==> Extends(before[i], a[i], |mapData|)
    ensures forall i :: 0 <= i < n ==> Extends(before[i], b[i], |mapData|)
    ensures RoundPackets(mapData, fromPid, toPids, before, a, n) == RoundPackets(mapData, fromPid, toPids, before, b, n)
  {
    hide MapParts;
    if n > 0 {
      SameRound(mapData, fromPid, toPids, before, a, b, n - 1);
    }
  }

  /** Players who are sent nothing add no packets. */
  lemma {:induction false} RestOfRound(mapData: seq<bv8>, fromPid: bv8, toPids: seq<bv8>, before: seq<seq<nat>>,
                                       after: seq<seq<nat>>, m: nat, n: nat)
    requires m <= n <= |toPids| && n <= |before| && n <= |after| && forall i :: m <= i < n ==> after[i] == before[i]
    requires forall i :: 0 <= i < m ==> Extends(before[i], after[i], |mapData|)
    ensures forall i :: 0 <= i < n ==> Extends(before[i], after[i], |mapData|)
    ensures RoundPackets(mapData, fromPid, toPids, before, after, n) ==
            RoundPackets(mapData, fromPid, toPids, before, after, m)
    decreases n
  {
    if m < n {
      RestOfRound(mapData, fromPid, toPids, before, after, m, n - 1);
      assert after[n - 1][|before[n - 1]|..] == [];
      NoPackets(mapData, fromPid, toPids[n - 1]);
    }
  }

  /** A player's turn: only one who is due is sent parts, which begin inside the window, as many as possible. */
  ghost predicate Turn(was: Player, p: Player, sentBefore: seq<nat>, sent: seq<nat>, due: bool, size: nat,
                       maxSpeed: nat, counter: nat) {
    && Extends(sentBefore, sent, size) && (sent != sentBefore ==> due)
    && p == was.(lastMapPartSent := p.lastMapPartSent) && (!due ==> p == was)
    && (forall k :: |sentBefore| <= k < |sent| ==> sent[k] < was.lastMapPartAcked + PART_SIZE * PARTS_AHEAD)
    && (due ==> Served(p, size, maxSpeed, counter))
  }

  lemma TurnStays(was: Player, p: Player, sentBefore: seq<nat>, sent: seq<nat>, due: bool, size: nat, maxSpeed: nat,
                  counter: nat, later: nat)
    requires Turn(was, p, sentBefore, sent, due, size, maxSpeed, counter) && counter <= later
    ensures Turn(was, p, sentBefore, sent, due, size, maxSpeed, later)
  {
  }

  class Lobby {
    const mapData: seq<bv8>
    const maxDownloaders: nat
    const maxDownloadSpeed: nat
    var players: seq<Player>
    var downloadCounter: nat
    /** The starts of the parts that each player was sent. */
    ghost var sent: seq<seq<nat>>
    var packets: seq<seq<bv8>>
    const crc: Calculator

    ghost predicate Valid()
      reads this
    {
      && |mapData| + PART_SIZE < DWORD && |sent| == |players|
      && (forall i :: 0 <= i < |players| ==> Tiles(mapData, sent[i], players[i].lastMapPartSent))
      && (maxDownloadSpeed > 0 ==> downloadCounter <= maxDownloadSpeed * 1024 + PART_SIZE)
    }

    constructor (mapData: seq<bv8>, maxDownloaders: nat, maxDownloadSpeed: nat)
      requires |mapData| + PART_SIZE < DWORD
      ensures Valid() && players == [] && crc.Valid() && fresh(crc) && fresh(crc.lut)
    {
      this.mapData, this.maxDownloaders, this.maxDownloadSpeed := mapData, maxDownloaders, maxDownloadSpeed;
      players, sent, packets, downloadCounter := [], [], [], 0;
      crc := new Calculator();
    }

    method Join()
      requires Valid()
      modifies this`players, this`sent
      ensures Valid() && players == old(players) + [Player(false, false, 0, 0)] && sent == old(sent) + [[]]
    {
      players := players + [Player(false, false, 0, 0)];
      sent := sent + [[]];
    }

    method Leave(i: nat)
      requires Valid() && i < |players|
      modifies this`players, this`sent
      ensures Valid() && players == old(players[..i] + players[i + 1..]) && sent == old(sent[..i] + sent[i + 1..])
    {
      players := players[..i] + players[i + 1..];
      sent := sent[..i] + sent[i + 1..];
    }

    /** A client tells how much of the map it has. */
    method MapSize(i: nat, sizeFlag: nat, mapSize: nat, allowed: bool)
      requires Valid() && i < |players| && mapSize < DWORD
      modifies this`players
      ensures Valid() && |players| == |old(players)|
      ensures forall k :: 0 <= k < |players| && k != i ==> players[k] == old(players)[k]
      ensures var p := old(players)[i];
        players[i] == if sizeFlag == 1 && mapSize == |mapData|
          then p.(downloadFinished := p.downloadFinished || p.downloadStarted)
                      else if !allowed then p
                      else if !p.downloadStarted && sizeFlag == 1 then p.(downloadStarted := true)
                      else p.(lastMapPartAcked := mapSize)
    {
      var p := players[i];
      if sizeFlag != 1 || mapSize != |mapData| {
        if allowed {
          if !p.downloadStarted && sizeFlag == 1 {
            players := players[i := p.(downloadStarted := true)];
          } else {
            players := players[i := p.(lastMapPartAcked := mapSize)];
          }
        }
      } else if p.downloadStarted {
        players := players[i := p.(downloadFinished := true)];
      }
    }

    /** Once a second. */
    method ResetCounter()
      requires Valid()
      modifies this`downloadCounter
      ensures Valid() && downloadCounter == 0
    {
      downloadCounter := 0;
    }

    /** Sends a player parts, up to a hundred ahead of the acknowledgements, the map's end, or the limit. */
    method SendParts(i: nat, fromPid: bv8, toPid: bv8)
      requires Valid() && i < |players| && crc.Valid()
      modifies this`players, this`downloadCounter, this`sent, this`packets
      ensures Valid() && |players| == |old(players)| == |old(sent)|
      ensures players == old(players)[i := old(players)[i].(lastMapPartSent := players[i].lastMapPartSent)]
      ensures sent == old(sent)[i := sent[i]] && old(sent)[i] <= sent[i]
      ensures (sent[i] == old(sent)[i] ==> players == old(players))
      ensures forall k :: |old(sent)[i]| <= k < |sent[i]| ==>
        sent[i][k] < players[i].lastMapPartAcked + PART_SIZE * PARTS_AHEAD && sent[i][k] < |mapData|
      ensures downloadCounter == old(downloadCounter) + PART_SIZE * (|sent[i]| - |old(sent)[i]|)
      ensures Extends(old(sent)[i], sent[i], |mapData|)
      ensures packets == old(packets) + MapParts(mapData, fromPid, toPid, sent[i][|old(sent)[i]|..])
      ensures Served(players[i], |mapData|, maxDownloadSpeed, downloadCounter)
    {
      hide Tiles, MapPart, MapParts, Part;
      ghost var before := sent[i];
      NoPackets(mapData, fromPid, toPid);
      assert before[|before|..] == [];
      while players[i].lastMapPartSent < (players[i].lastMapPartAcked + PART_SIZE * PARTS_AHEAD) % DWORD &&
        players[i].lastMapPartSent < |mapData|
        invariant Valid() && |players| == |old(players)| == |old(sent)|
        invariant players == old(players)[i := old(players)[i].(lastMapPartSent := players[i].lastMapPartSent)]
        invariant sent == old(sent)[i := sent[i]] && before <= sent[i]
        invariant (sent[i] == before ==> players == old(players))
        invariant forall k :: |before| <= k < |sent[i]| ==>
          sent[i][k] < players[i].lastMapPartAcked + PART_SIZE * PARTS_AHEAD && sent[i][k] < |mapData|
        invariant downloadCounter == old(downloadCounter) + PART_SIZE * (|sent[i]| - |before|)
        invariant packets == old(packets) + MapParts(mapData, fromPid, toPid, sent[i][|before|..])
        decreases |mapData| + PART_SIZE - players[i].lastMapPartSent
      {
        if maxDownloadSpeed > 0 && downloadCounter > maxDownloadSpeed * 1024 {
          break;
        }
        ghost var starts, start := sent[i], players[i].lastMapPartSent;
        SendNext(i, fromPid, toPid);
        assert sent[i][|before|..] == starts[|before|..] + [start];
        OneMorePacket(mapData, fromPid, toPid, starts[|before|..], start);
      }
    }

    method SendNext(i: nat, fromPid: bv8, toPid: bv8)
      requires Valid() && crc.Valid() && i < |players| && players[i].lastMapPartSent < |mapData|
      requires maxDownloadSpeed > 0 ==> downloadCounter <= maxDownloadSpeed * 1024
      modifies this`players, this`downloadCounter, this`sent, this`packets
      ensures Valid() && |old(sent)| == |old(players)| && downloadCounter == old(downloadCounter) + PART_SIZE
      ensures var start := old(players)[i].lastMapPartSent;
        && players == old(players)[i := old(players)[i].(lastMapPartSent := start + PART_SIZE)]
        && sent == old(sent)[i := old(sent)[i] + [start]]
        && packets == old(packets) + [MapPart(fromPid, toPid, start, Part(mapData, start))]
    {
      hide Tiles, MapPart;
      var start := players[i].lastMapPartSent;
      var packet := SendMapPart(fromPid, toPid, start);
      OneMoreTile(mapData, sent[i], start);
      packets := packets + [packet];
      players := players[i := players[i].(lastMapPartSent := start + PART_SIZE)];
      sent := sent[i := sent[i] + [start]];
      downloadCounter := downloadCounter + PART_SIZE;
    }

    /** There is no part behind the end of the map. */
    method SendMapPart(fromPid: bv8, toPid: bv8, start: nat) returns (packet: seq<bv8>)
      requires crc.Valid()
      ensures packet == if start < |mapData| then MapPart(fromPid, toPid, start, Part(mapData, start)) else []
    {
      hide Crc, Le, AssignLength;
      if start >= |mapData| {
        return [];
      }
      var end := start + PART_SIZE;
      if end > |mapData| {
        end := |mapData|;
      }
      var checksum := crc.CalculateCrc(mapData[start..end], 0);
      packet := AssignLength([HEADER, MAPPART, 0, 0, toPid, fromPid, 1, 0, 0, 0] + Le(start, 4) + Le(checksum as nat, 4)
        + mapData[start..end]);
    }

    /** Ten times a second: those who are downloading get more parts, up to a number of players. */
    method SendToDownloaders(fromPid: bv8, toPids: seq<bv8>)
      requires Valid() && crc.Valid() && |toPids| == |players|
      modifies this`players, this`downloadCounter, this`sent, this`packets
      ensures Valid() && |players| == |old(players)| == |old(sent)|
      ensures forall i :: 0 <= i < |players| ==>
        Turn(old(players)[i], players[i], old(sent)[i], sent[i], IsDue(old(players), i, maxDownloaders), |mapData|,
          maxDownloadSpeed, downloadCounter)
      ensures forall i :: 0 <= i < |players| ==> Extends(old(sent)[i], sent[i], |mapData|)
      ensures packets == old(packets) + RoundPackets(mapData, fromPid, toPids, old(sent), sent, |players|)
    {
      hide Tiles, MapParts, Turn, Served, Extends, RoundPackets;
      var downloaders, i: nat := 0, 0;
      NoRound(mapData, fromPid, toPids, sent);
      while i < |players|
        invariant Valid() && i <= |players| == |old(players)| == |old(sent)|
        invariant downloaders == Downloaders(old(players), i)
        invariant forall j :: 0 <= j < i ==> Extends(old(sent)[j], sent[j], |mapData|)
        invariant packets == old(packets) + RoundPackets(mapData, fromPid, toPids, old(sent), sent, i)
        invariant forall j :: i <= j < |players| ==> players[j] == old(players)[j] && sent[j] == old(sent)[j]
        invariant forall j :: 0 <= j < i ==>
          Turn(old(players)[j], players[j], old(sent)[j], sent[j], IsDue(old(players), j, maxDownloaders), |mapData|,
            maxDownloadSpeed, downloadCounter)
      {
        if players[i].downloadStarted && !players[i].downloadFinished {
          downloaders := downloaders + 1;
          if maxDownloaders > 0 && downloaders > maxDownloaders {
            DownloadersGrow(old(players), i);
            break;
          }
          ghost var now, counter, parts := players, downloadCounter, sent;
          SendParts(i, fromPid, toPids[i]);
          forall j: nat | j < i
            ensures Turn(old(players)[j], players[j], old(sent)[j], sent[j], IsDue(old(players), j, maxDownloaders),
              |mapData|, maxDownloadSpeed, downloadCounter)
          {
            TurnStays(old(players)[j], now[j], old(sent)[j], parts[j], IsDue(old(players), j, maxDownloaders),
              |mapData|, maxDownloadSpeed, counter, downloadCounter);
          }
          TurnTaken(old(players)[i], players[i], old(sent)[i], sent[i], |mapData|, maxDownloadSpeed, downloadCounter);
          SameRound(mapData, fromPid, toPids, old(sent), parts, sent, i);
          RoundMore(mapData, fromPid, toPids, old(sent), sent, i);
        } else {
          NoTurn(old(players)[i], old(sent)[i], |mapData|, maxDownloadSpeed, downloadCounter);
          RestOfRound(mapData, fromPid, toPids, old(sent), sent, i, i + 1);
        }
        i := i + 1;
      }
      RestOfRound(mapData, fromPid, toPids, old(sent), sent, i, |players|);
      forall j | i <= j < |players| ensures Turn(old(players)[j], players[j], old(sent)[j], sent[j],
        IsDue(old(players), j, maxDownloaders), |mapData|, maxDownloadSpeed, downloadCounter) {
        NoTurn(old(players)[j], old(sent)[j], |mapData|, maxDownloadSpeed, downloadCounter);
      }
    }
  }

  lemma NoRound(mapData: seq<bv8>, fromPid: bv8, toPids: seq<bv8>, sent: seq<seq<nat>>)
    ensures RoundPackets(mapData, fromPid, toPids, sent, sent, 0) == []
  {
  }

  lemma RoundMore(mapData: seq<bv8>, fromPid: bv8, toPids: seq<bv8>, before: seq<seq<nat>>, after: seq<seq<nat>>,
                  n: nat)
    requires n < |toPids| && n < |before| && n < |after|
    requires forall i :: 0 <= i <= n ==> Extends(before[i], after[i], |mapData|)
    ensures RoundPackets(mapData, fromPid, toPids, before, after, n + 1) ==
      RoundPackets(mapData, fromPid, toPids, before, after, n) +
      MapParts(mapData, fromPid, toPids[n], after[n][|before[n]|..])
  {
    hide MapParts;
  }

  lemma NoTurn(p: Player, sent: seq<nat>, size: nat, maxSpeed: nat, counter: nat)
    ensures Turn(p, p, sent, sent, false, size, maxSpeed, counter)
  {
  }

  lemma TurnTaken(was: Player, p: Player, sentBefore: seq<nat>, sent: seq<nat>, size: nat, maxSpeed: nat, counter: nat)
    requires Extends(sentBefore, sent, size) && Served(p, size, maxSpeed, counter)
    requires p == was.(lastMapPartSent := p.lastMapPartSent)
    requires forall k :: |sentBefore| <= k < |sent| ==> sent[k] < was.lastMapPartAcked + PART_SIZE * PARTS_AHEAD
    ensures Turn(was, p, sentBefore, sent, true, size, maxSpeed, counter)
  {
  }

  lemma {:induction false} DownloadersGrow(players: seq<Player>, i: nat)
    requires i <= |players|
    ensures forall j :: i <= j <= |players| ==> Downloaders(players, i) <= Downloaders(players, j)
    decreases |players| - i
  {
    if i < |players| {
      DownloadersGrow(players, i + 1);
      assert Downloaders(players, i) <= Downloaders(players, i + 1);
    }
  }

  lemma OneMoreTile(mapData: seq<bv8>, starts: seq<nat>, start: nat)
    requires Tiles(mapData, starts, start) && start < |mapData|
    ensures Tiles(mapData, starts + [start], start + PART_SIZE)
  {
  }

  /** The packets of some parts. */
  function MapParts(mapData: seq<bv8>, fromPid: bv8, toPid: bv8, starts: seq<nat>): seq<seq<bv8>>
    requires forall k :: 0 <= k < |starts| ==> starts[k] < |mapData|
  {
    seq(|starts|, k requires 0 <= k < |starts| => MapPart(fromPid, toPid, starts[k], Part(mapData, starts[k])))
  }

  lemma NoPackets(mapData: seq<bv8>, fromPid: bv8, toPid: bv8)
    ensures MapParts(mapData, fromPid, toPid, []) == []
  {
  }

  lemma OneMorePacket(mapData: seq<bv8>, fromPid: bv8, toPid: bv8, starts: seq<nat>, start: nat)
    requires start < |mapData| && forall k :: 0 <= k < |starts| ==> starts[k] < |mapData|
    ensures MapParts(mapData, fromPid, toPid, starts + [start]) ==
            MapParts(mapData, fromPid, toPid, starts) + [MapPart(fromPid, toPid, start, Part(mapData, start))]
  {
    hide MapPart, Part;
  }
}
