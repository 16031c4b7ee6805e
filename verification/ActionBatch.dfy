/** How a game sends the actions of its players: in batches that fit a packet, in order. */
module ActionBatch {
  import opened Bytes
  import opened Crc32
  import opened Packet

  const INCOMING_ACTION: bv8 := 12
  const INCOMING_ACTION2: bv8 := 72
  const BATCH_LIMIT := 1452
  const PACKET_OVERHEAD := 8
  const PACKET_LIMIT := 1460

  datatype Action = Action(pid: bv8, data: seq<bv8>) {
    function Length(): nat { |data| + 3 }
  }

  function Size(actions: seq<Action>): nat {
    if actions == [] then 0 else actions[0].Length() + Size(actions[1..])
  }

  lemma {:induction false} SizeOfConcat(a: seq<Action>, b: seq<Action>)
    ensures Size(a + b) == Size(a) + Size(b)
  {
    if a == [] {
      assert a + b == b;
    } else {
      SizeOfConcat(a[1..], b);
      assert (a + b)[1..] == a[1..] + b;
    }
  }

  // ----- Batches -----

  /** The batches that begin with `batch`, which takes as much of `rest` as it has room for. */
  function Greedy(batch: seq<Action>, rest: seq<Action>): (batches: seq<seq<Action>>)
    ensures |batches| > 0
    decreases |rest|
  {
    if rest == [] then [batch]
    else if Size(batch) + rest[0].Length() > BATCH_LIMIT then [batch] + Greedy([rest[0]], rest[1..])
    else Greedy(batch + [rest[0]], rest[1..])
  }

  /** The batches of a queue; an empty queue is one empty batch. */
  function Batches(queue: seq<Action>): (batches: seq<seq<Action>>)
    ensures |batches| > 0
  {
    if queue == [] then [[]] else Greedy([queue[0]], queue[1..])
  }

  function Flatten(batches: seq<seq<Action>>): seq<Action> {
    if batches == [] then [] else batches[0] + Flatten(batches[1..])
  }

  lemma GreedyStep(done: seq<seq<Action>>, batch: seq<Action>, rest: seq<Action>)
    requires rest != []
    ensures done + Greedy(batch, rest) ==
            if Size(batch) + rest[0].Length() > BATCH_LIMIT then done + [batch] + Greedy([] + [rest[0]], rest[1..])
            else done + Greedy(batch + [rest[0]], rest[1..])
  {
    assert [] + [rest[0]] == [rest[0]];
  }

  /** A batch that fits a packet, or a single action whatever its size. */
  predicate Fits(batch: seq<Action>) { |batch| > 0 && (Size(batch) <= BATCH_LIMIT || |batch| == 1) }

  predicate AllFit(batches: seq<seq<Action>>) { forall i :: 0 <= i < |batches| ==> Fits(batches[i]) }

  lemma {:induction false} GreedyPartitions(batch: seq<Action>, rest: seq<Action>)
    requires Fits(batch)
    ensures Flatten(Greedy(batch, rest)) == batch + rest
    ensures AllFit(Greedy(batch, rest))
    decreases |rest|
  {
    if rest == [] {
      assert Flatten([batch]) == batch + Flatten([]);
    } else if Size(batch) + rest[0].Length() > BATCH_LIMIT {
      GreedyPartitions([rest[0]], rest[1..]);
      var more := Greedy([rest[0]], rest[1..]);
      assert Greedy(batch, rest)[1..] == more;
      assert [rest[0]] + rest[1..] == rest;
    } else {
      SizeOfConcat(batch, [rest[0]]);
      GreedyPartitions(batch + [rest[0]], rest[1..]);
      assert batch + [rest[0]] + rest[1..] == batch + rest;
    }
  }

  /** A partition that has to cover `batch` and `rest`, and perhaps more before, needs as many batches. */
  lemma {:induction false} GreedyIsFewest(before: seq<Action>, batch: seq<Action>, rest: seq<Action>,
                                          other: seq<seq<Action>>)
    requires Fits(batch) && AllFit(other) && Flatten(other) == before + batch + rest
    ensures |Greedy(batch, rest)| <= |other|
    decreases |rest|
  {
    if rest == [] {
      assert other != [];
    } else {
      var next := rest[0];
      SizeOfConcat(batch, [next]);
      if Size(batch) + next.Length() > BATCH_LIMIT {
        var first, done := other[0], before + batch;
        assert Flatten(other) == first + Flatten(other[1..]);
        if |first| > |done| {
          FirstHoldsBoth(before, batch, next, rest, first, Flatten(other[1..]));
          assert false;
        }
        assert Flatten(other[1..]) == (done + rest)[|first|..] == done[|first|..] + [next] + rest[1..];
        GreedyIsFewest(done[|first|..], [next], rest[1..], other[1..]);
      } else {
        assert before + (batch + [next]) + rest[1..] == before + batch + rest;
        GreedyIsFewest(before, batch + [next], rest[1..], other);
      }
    }
  }

  /** A batch that holds all of `batch` and the action after it is as large as both. */
  lemma FirstHoldsBoth(before: seq<Action>, batch: seq<Action>, next: Action, rest: seq<Action>, first: seq<Action>,
                       others: seq<Action>)
    requires rest != [] && next == rest[0] && batch != []
    requires first + others == before + batch + rest && |first| > |before + batch|
    ensures |first| >= 2 && Size(first) >= Size(batch) + next.Length()
  {
    hide Size;
    var whole, k := first + others, |before| + |batch| + 1;
    assert whole[..k] == before + (batch + [next]) by { PrefixOfSum(before, batch, rest, whole); }
    assert first[..k] == whole[..k] && first == first[..k] + first[k..];
    SizeOfConcat(first[..k], first[k..]);
    SizeOfConcat(before, batch + [next]);
    SizeOfConcat(batch, [next]);
    SizeOfOne(next);
  }

  lemma PrefixOfSum(before: seq<Action>, batch: seq<Action>, rest: seq<Action>, whole: seq<Action>)
    requires rest != [] && whole == before + batch + rest
    ensures whole[..|before| + |batch| + 1] == before + (batch + [rest[0]])
  {
    hide Size;
  }

  lemma SizeOfOne(a: Action)
    ensures Size([a]) == a.Length()
  {
  }

  /** The batches are the queue in order, each fits, and no partition of the queue into batches that fit has fewer. */
  lemma BatchesAreFewest(queue: seq<Action>, other: seq<seq<Action>>)
    requires queue != [] && AllFit(other) && Flatten(other) == queue
    ensures Flatten(Batches(queue)) == queue && AllFit(Batches(queue)) && |Batches(queue)| <= |other|
  {
    hide Greedy, Flatten, Size, AllFit;
    GreedyPartitions([queue[0]], queue[1..]);
    assert [queue[0]] + queue[1..] == queue;
    assert [] + [queue[0]] + queue[1..] == queue;
    GreedyIsFewest([], [queue[0]], queue[1..], other);
  }

  // ----- Packets -----

  function Subpacket(actions: seq<Action>): (s: seq<bv8>)
    ensures |s| == Size(actions)
  {
    if actions == [] then []
    else [actions[0].pid] + Le(|actions[0].data|, 2) + actions[0].data + Subpacket(actions[1..])
  }

  /** A packet of actions: nothing follows the interval when there are none. */
  function ActionPacket(id: bv8, interval: nat, actions: seq<Action>): seq<bv8> {
    var body := if actions == [] then [] else Le(Crc(Subpacket(actions), 0) as nat, 2) + Subpacket(actions);
    AssignLength([HEADER, id, 0, 0] + Le(interval, 2) + body)
  }

  /** The actions in a subpacket, as a client reads them. */
  function Decode(s: seq<bv8>): seq<Action> {
    if |s| < 3 then []
    else
      var n := FromLe(s[1..3]);
      if 3 + n > |s| then [] else [Action(s[0], s[3..3 + n])] + Decode(s[3 + n..])
  }

  lemma DecodeStep(a: Action, rest: seq<bv8>)
    requires |a.data| < LENGTH_RANGE
    ensures Decode([a.pid] + Le(|a.data|, 2) + a.data + rest) == [a] + Decode(rest)
  {
    hide Le, FromLe;
    var s := [a.pid] + Le(|a.data|, 2) + a.data + rest;
    assert s[1..3] == Le(|a.data|, 2);
    Le16RoundTrip(|a.data|);
    assert s[3..3 + |a.data|] == a.data && s[3 + |a.data|..] == rest;
  }

  /** A client reads the same actions out of a subpacket, if their sizes fit into 16 bits. */
  lemma {:induction false} DecodesBack(actions: seq<Action>)
    requires forall i :: 0 <= i < |actions| ==> |actions[i].data| < LENGTH_RANGE
    ensures Decode(Subpacket(actions)) == actions
  {
    if actions != [] {
      DecodesBack(actions[1..]);
      DecodeStep(actions[0], Subpacket(actions[1..]));
    }
  }

  /** A packet of a batch that fits is within the limit unless its only action is too long; its length field
      is right if it is not much too long; and it holds the actions of the batch. */
  lemma PacketHolds(id: bv8, interval: nat, actions: seq<Action>)
    requires actions != [] && forall i :: 0 <= i < |actions| ==> |actions[i].data| < LENGTH_RANGE
    ensures var p := ActionPacket(id, interval, actions);
      && |p| == PACKET_OVERHEAD + Size(actions) && p[..2] == [HEADER, id] && Decode(p[PACKET_OVERHEAD..]) == actions
      && (Fits(actions) ==> |p| <= PACKET_LIMIT || |actions| == 1)
      && (FromLe(p[2..4]) == |p| <==> Size(actions) < LENGTH_RANGE - PACKET_OVERHEAD)
      && FromLe(p[4..6]) == interval % LENGTH_RANGE
      && FromLe(p[6..8]) == Crc(p[PACKET_OVERHEAD..], 0) as nat % LENGTH_RANGE
  {
    hide Le, FromLe, Crc, Subpacket, Decode;
    var sub := Subpacket(actions);
    var packet := [HEADER, id, 0, 0] + Le(interval, 2) + (Le(Crc(sub, 0) as nat, 2) + sub);
    var p := AssignLength(packet);
    LengthField(packet);
    assert p[PACKET_OVERHEAD..] == p[4..][4..] == packet[4..][4..] == sub;
    assert p[4..6] == p[4..][..2] == packet[4..][..2] == Le(interval, 2);
    assert p[6..8] == p[4..][2..4] == packet[4..][2..4] == Le(Crc(sub, 0) as nat, 2);
    Le16Low(interval);
    Le16Low(Crc(sub, 0) as nat);
    DecodesBack(actions);
  }

  /** A turn without actions is a packet with the interval and nothing behind it. */
  lemma EmptyPacketHolds(id: bv8, interval: nat)
    ensures var p := ActionPacket(id, interval, []);
      |p| == 6 && p[..4] == [HEADER, id, 6, 0] && FromLe(p[4..6]) == interval % LENGTH_RANGE
  {
    hide Le, FromLe;
    hide AssignLength;
    var packet := [HEADER, id, 0, 0] + Le(interval, 2) + [];
    var p := AssignLength(packet);
    assert p[4..6] == p[4..] == packet[4..] == Le(interval, 2);
    Le16Low(interval);
    ShortLength(packet);
    assert p[..4] == p[..2] + [p[2], p[3]] && packet[..2] == [HEADER, id];
  }

  /** The packets of one turn: all but the last batch overflow into packets of their own before it. */
  function Packets(batches: seq<seq<Action>>, latency: nat): (packets: seq<seq<bv8>>)
    requires |batches| > 0
    ensures |packets| == |batches|
  {
    if |batches| == 1 then [ActionPacket(INCOMING_ACTION, latency, batches[0])]
    else [ActionPacket(INCOMING_ACTION2, 0, batches[0])] + Packets(batches[1..], latency)
  }

  /** The actions that a client reads out of the packets of a turn. */
  function Received(packets: seq<seq<bv8>>): seq<Action> {
    if packets == [] then []
    else (if |packets[0]| < PACKET_OVERHEAD then [] else Decode(packets[0][PACKET_OVERHEAD..])) + Received(packets[1..])
  }

  /** A packet of a turn: of the right kind, and within the limit or with a single action. */
  predicate TurnPacket(p: seq<bv8>, last: bool) {
    && |p| >= PACKET_OVERHEAD && p[1] == (if last then INCOMING_ACTION else INCOMING_ACTION2)
    && (|p| <= PACKET_LIMIT || |Decode(p[PACKET_OVERHEAD..])| == 1)
  }

  lemma {:induction false} PacketsHold(batches: seq<seq<Action>>, latency: nat)
    requires |batches| > 0 && AllFit(batches)
    requires forall i, k :: 0 <= i < |batches| && 0 <= k < |batches[i]| ==> |batches[i][k].data| < LENGTH_RANGE
    ensures Received(Packets(batches, latency)) == Flatten(batches)
    ensures forall i :: 0 <= i < |batches| ==> TurnPacket(Packets(batches, latency)[i], i == |batches| - 1)
  {
    hide ActionPacket, Decode;
    var packets := Packets(batches, latency);
    PacketHolds(INCOMING_ACTION2, 0, batches[0]);
    PacketHolds(INCOMING_ACTION, latency, batches[0]);
    if |batches| == 1 {
      assert packets[1..] == [] && batches[1..] == [];
      assert Received(packets) == Decode(packets[0][PACKET_OVERHEAD..]) + Received([]);
      assert Flatten(batches) == batches[0] + Flatten([]);
    } else {
      PacketsHold(batches[1..], latency);
      assert packets[1..] == Packets(batches[1..], latency);
    }
  }

  lemma {:induction false} InFlatten(batches: seq<seq<Action>>, i: nat, k: nat)
    requires i < |batches| && k < |batches[i]|
    ensures batches[i][k] in Flatten(batches)
  {
    if i == 0 {
      assert Flatten(batches)[k] == batches[0][k];
    } else {
      InFlatten(batches[1..], i - 1, k);
    }
  }

  /** A turn delivers the queue: every action once, in order, all packets but the last being overflow ones,
      and each within the limit or with a single action. */
  lemma TurnDelivers(queue: seq<Action>, latency: nat)
    requires queue != [] && forall i :: 0 <= i < |queue| ==> |queue[i].data| < LENGTH_RANGE
    ensures var packets := Packets(Batches(queue), latency);
      && Received(packets) == queue
      && forall i :: 0 <= i < |packets| ==>
        && |packets[i]| >= PACKET_OVERHEAD
        && packets[i][1] == (if i == |packets| - 1 then INCOMING_ACTION else INCOMING_ACTION2)
        && (|packets[i]| <= PACKET_LIMIT || |Decode(packets[i][PACKET_OVERHEAD..])| == 1)
  {
    hide ActionPacket, Decode;
    GreedyPartitions([queue[0]], queue[1..]);
    var batches: seq<seq<Action>> := Batches(queue);
    assert [queue[0]] + queue[1..] == queue;
    forall i: nat, k: nat | i < |batches| && k < |batches[i]| ensures |batches[i][k].data| < LENGTH_RANGE {
      InFlatten(batches, i, k);
    }
    PacketsHold(batches, latency);
  }

  /** The overflow packets of batches that are not the last of their turn. */
  function Overflow(batches: seq<seq<Action>>): (packets: seq<seq<bv8>>) {
    if batches == [] then [] else [ActionPacket(INCOMING_ACTION2, 0, batches[0])] + Overflow(batches[1..])
  }

  lemma {:induction false} PacketsOfLast(batches: seq<seq<Action>>, last: seq<Action>, latency: nat)
    ensures Packets(batches + [last], latency) == Overflow(batches) + [ActionPacket(INCOMING_ACTION, latency, last)]
  {
    hide ActionPacket;
    if batches == [] {
      assert batches + [last] == [last];
    } else {
      PacketsOfLast(batches[1..], last, latency);
      assert (batches + [last])[1..] == batches[1..] + [last];
    }
  }

  lemma {:induction false} OverflowOneMore(batches: seq<seq<Action>>, batch: seq<Action>)
    ensures Overflow(batches + [batch]) == Overflow(batches) + [ActionPacket(INCOMING_ACTION2, 0, batch)]
  {
    hide ActionPacket;
    if batches == [] {
      assert batches + [batch] == [batch];
    } else {
      OverflowOneMore(batches[1..], batch);
      assert (batches + [batch])[1..] == batches[1..] + [batch];
    }
  }

  // ----- The game -----

  class Game {
    var actions: seq<Action>
    var sent: seq<seq<bv8>>
    const latency: nat
    const crc: Calculator

    constructor (latency: nat)
      ensures crc.Valid() && fresh(crc) && fresh(crc.lut) && actions == [] && sent == [] && this.latency == latency
    {
      actions, sent, this.latency := [], [], latency;
      crc := new Calculator();
    }

    /** The packet for a batch; both kinds of packets are built alike. */
    method Encode(id: bv8, interval: nat, batch: seq<Action>) returns (packet: seq<bv8>)
      requires crc.Valid()
      ensures packet == ActionPacket(id, interval, batch)
    {
      hide Crc, Le;
      packet := [HEADER, id, 0, 0] + Le(interval, 2);
      if |batch| > 0 {
        var subpacket, rest := [], batch;
        while |rest| > 0
          invariant subpacket + Subpacket(rest) == Subpacket(batch)
        {
          var action := rest[0];
          rest := rest[1..];
          subpacket := subpacket + [action.pid] + Le(|action.data|, 2) + action.data;
        }
        assert subpacket == Subpacket(batch);
        var checksum := crc.CalculateCrc(subpacket, 0);
        packet := packet + (Le(checksum as nat, 2) + subpacket);
      }
      packet := AssignLength(packet);
    }

    method SendAllActions()
      requires crc.Valid()
      modifies this
      ensures actions == [] && sent == old(sent) + Packets(Batches(old(actions)), latency)
    {
      hide ActionPacket, Size, Overflow, Packets, Greedy, Batches;
      if |actions| > 0 {
        var action := actions[0];
        actions := actions[1..];
        var subActions, subActionsLength := [action], action.Length();
        ghost var batches, was: seq<seq<bv8>> := [], sent;
        NothingOverflows();
        SizeOfOne(action);
        BatchesStart(old(actions), batches);
        while |actions| > 0
          invariant batches + Greedy(subActions, actions) == Batches(old(actions))
          invariant subActionsLength == Size(subActions)
          invariant sent == was + Overflow(batches)
        {
          GreedyStep(batches, subActions, actions);
          action := actions[0];
          actions := actions[1..];
          if subActionsLength + action.Length() > BATCH_LIMIT {
            var packet := Encode(INCOMING_ACTION2, 0, subActions);
            sent := sent + [packet];
            OverflowOneMore(batches, subActions);
            assert sent == was + (Overflow(batches) + [packet]);
            batches := batches + [subActions];
            subActions, subActionsLength := [], 0;
          }
          SizeOfConcat(subActions, [action]);
          SizeOfOne(action);
          NoSize();
          subActions := subActions + [action];
          subActionsLength := subActionsLength + action.Length();
        }
        var packet := Encode(INCOMING_ACTION, latency, subActions);
        sent := sent + [packet];
        GreedyEnds(subActions);
        PacketsOfLast(batches, subActions, latency);
        assert sent == was + (Overflow(batches) + [packet]);
      } else {
        var packet := Encode(INCOMING_ACTION, latency, actions);
        sent := sent + [packet];
        ghost var none: seq<seq<Action>> := [];
        BatchesStart(actions, none);
        PacketsOfLast(none, [], latency);
        NothingOverflows();
        assert none + [[]] == [[]];
      }
    }
  }

  lemma BatchesStart(queue: seq<Action>, none: seq<seq<Action>>)
    requires none == []
    ensures Batches(queue) == if queue == [] then [[]] else none + Greedy([queue[0]], queue[1..])
  {
  }

  lemma GreedyEnds(batch: seq<Action>)
    ensures Greedy(batch, []) == [batch]
  {
  }

  lemma NothingOverflows()
    ensures Overflow([]) == []
  {
  }

  lemma NoSize()
    ensures Size([]) == 0
  {
  }
}
