/** The resend buffer that lets a player who lost the connection to a running game come back to it. */
module GProxy {
  import opened Bytes

  type Packet = seq<bv8>

  /** What a connection carries to the client: packets of the game, or of the resend protocol. */
  datatype Wire = Game(packet: Packet) | Init | Reconnect(lastPacket: nat)

  function Games(packets: seq<Packet>): (wire: seq<Wire>)
    ensures |wire| == |packets|
  {
    seq(|packets|, i requires 0 <= i < |packets| => Game(packets[i]))
  }

  /** How many packets have left the buffer after the client confirmed `lastPacket` of `total`. A stale
      confirmation changes nothing, and one that is too large empties the buffer. */
  function Unqueue(unqueued: nat, lastPacket: nat, total: nat): (r: nat)
    requires unqueued <= total
    ensures unqueued <= r <= total
  {
    if lastPacket <= unqueued then unqueued else if lastPacket <= total then lastPacket else total
  }

  /** The server's end of the link: everything sent, how much of that has left the buffer, and whether
      packets are kept at all. */
  datatype Server = Server(sent: seq<Packet>, unqueued: nat, buffering: bool) {
    predicate Sound() { unqueued <= |sent| && (!buffering ==> unqueued == |sent|) }
  }

  function Sent(s: Server, p: Packet): Server {
    Server(s.sent + [p], if s.buffering then s.unqueued else |s.sent| + 1, s.buffering)
  }

  function Confirmed(s: Server, lastPacket: nat): Server
    requires s.Sound()
  {
    s.(unqueued := Unqueue(s.unqueued, lastPacket, |s.sent|))
  }

  /** What is sent again over a new connection. */
  function Replay(s: Server): seq<Packet>
    requires s.Sound()
  {
    s.sent[s.unqueued..]
  }

  class Player {
    var socket: seq<Wire>
    var buffer: seq<Packet>
    var totalPacketsSent: nat
    var totalPacketsReceived: nat
    var usesGProxy: bool
    var gameLoaded: bool
    var disconnectNoticeSent: bool
    ghost var sent: seq<Packet>

    /** The buffer holds exactly the last packets sent. */
    ghost predicate Valid()
      reads this
    {
      && totalPacketsSent == |sent| < DWORD
      && |buffer| <= |sent| && View().Sound() && buffer == Replay(View())
    }

    ghost function View(): Server
      reads this
      requires |buffer| <= |sent|
    {
      Server(sent, |sent| - |buffer|, usesGProxy && gameLoaded)
    }

    constructor ()
      ensures Valid() && socket == [] && sent == [] && !usesGProxy && !gameLoaded
    {
      socket, buffer, sent := [], [], [];
      totalPacketsSent, totalPacketsReceived := 0, 0;
      usesGProxy, gameLoaded, disconnectNoticeSent := false, false, false;
    }

    method Send(data: Packet)
      requires Valid() && totalPacketsSent + 1 < DWORD
      modifies this`totalPacketsSent, this`buffer, this`socket, this`sent
      ensures Valid() && View() == Sent(old(View()), data) && socket == old(socket) + [Game(data)]
    {
      totalPacketsSent := totalPacketsSent + 1;
      if usesGProxy && gameLoaded {
        buffer := buffer + [data];
      }
      socket := socket + [Game(data)];
      sent := sent + [data];
    }

    /** The client announces that it speaks the resend protocol. */
    method HandleInit()
      requires Valid()
      modifies this`usesGProxy, this`socket
      ensures Valid() && usesGProxy && View() == old(View()).(buffering := gameLoaded) && socket == old(socket) + [Init]
    {
      usesGProxy := true;
      socket := socket + [Init];
    }

    method LoadGame()
      requires Valid()
      modifies this`gameLoaded
      ensures Valid() && gameLoaded && View() == old(View()).(buffering := usesGProxy)
    {
      gameLoaded := true;
    }

    method HandleAck(lastPacket: nat)
      requires Valid() && lastPacket < DWORD
      modifies this`buffer
      ensures Valid() && View() == Confirmed(old(View()), lastPacket)
    {
      var packetsAlreadyUnqueued := totalPacketsSent - |buffer|;
      if lastPacket > packetsAlreadyUnqueued {
        var packetsToUnqueue := lastPacket - packetsAlreadyUnqueued;
        if packetsToUnqueue > |buffer| {
          packetsToUnqueue := |buffer|;
        }
        while packetsToUnqueue > 0
          invariant 0 <= packetsToUnqueue <= |buffer| <= |sent| && buffer == sent[|sent| - |buffer|..]
          invariant |sent| - |buffer| + packetsToUnqueue == Confirmed(old(View()), lastPacket).unqueued
        {
          buffer := buffer[1..];
          packetsToUnqueue := packetsToUnqueue - 1;
        }
      }
    }

    /** The client is back on a new connection, having received `lastPacket` packets: the rest of the
        buffer is sent again and stays in the buffer. */
    method EventReconnect(lastPacket: nat)
      requires Valid() && usesGProxy && gameLoaded && lastPacket < DWORD
      modifies this`socket, this`buffer, this`disconnectNoticeSent
      ensures Valid() && View() == Confirmed(old(View()), lastPacket) && !disconnectNoticeSent
      ensures socket == [Reconnect(totalPacketsReceived)] + Games(Replay(View()))
    {
      socket := [Reconnect(totalPacketsReceived)];
      HandleAck(lastPacket);
      Resend();
      disconnectNoticeSent := false;
    }

    method Resend()
      modifies this`socket, this`buffer
      ensures buffer == old(buffer) && socket == old(socket) + Games(buffer)
    {
      var temp := [];
      ghost var kept, before := buffer, socket;
      while |buffer| > 0
        invariant temp + buffer == kept && socket == before + Games(temp)
      {
        assert temp + buffer == temp + [buffer[0]] + buffer[1..];
        OneMoreGame(before, temp, buffer[0]);
        socket := socket + [Game(buffer[0])];
        temp := temp + [buffer[0]];
        buffer := buffer[1..];
      }
      assert temp == kept;
      buffer := temp;
    }
  }

  lemma OneMoreGame(before: seq<Wire>, packets: seq<Packet>, p: Packet)
    ensures before + Games(packets) + [Game(p)] == before + Games(packets + [p])
  {
  }

  /** A client that has received the first `n` packets gets every packet exactly once, in order, if and
      only if it has all that were already gone from the buffer. */
  lemma ReplayIsExact(s: Server, n: nat)
    requires s.Sound() && n <= |s.sent|
    ensures s.sent[..n] + Replay(Confirmed(s, n)) == s.sent <==> s.unqueued <= n
  {
    if s.unqueued <= n {
      assert Confirmed(s, n).unqueued == n;
    } else {
      assert |s.sent[..n] + Replay(Confirmed(s, n))| < |s.sent|;
    }
  }

  // ----- Whole runs -----

  /** Both ends of the connection. `unbuffered` is the number of packets sent before the server began to
      keep packets; `acks` are the confirmations that may still reach it, in any order, more than once. */
  datatype Link = Link(
    server: Server,
    unbuffered: nat,
    connected: bool,
    inFlight: seq<Packet>,
    received: seq<Packet>,
    acks: set<nat>)
  {
    ghost predicate Inv() {
      && received <= server.sent && server.Sound()
      && (connected ==> received + inFlight == server.sent) && (!connected ==> inFlight == [] && server.buffering)
      && (forall n :: n in acks ==> n <= |received|)
      && (server.buffering ==> server.unqueued <= |received| || server.unqueued <= unbuffered)
    }
  }

  datatype Event =
    | StartBuffering
    | Send(packet: Packet)
    | Deliver
    | Confirm
    | Acknowledge(n: nat)
    | Disconnect
    | Reconnects

  /** Which events may happen. A client without all of the packets sent before the server kept any
      cannot be brought up to date, and is taken not to come back. */
  predicate Enabled(s: Link, e: Event) {
    match e
    case StartBuffering => !s.server.buffering
    case Send(_) => true
    case Deliver => s.connected && s.inFlight != []
    case Confirm => true
    case Acknowledge(n) => n in s.acks
    case Disconnect => s.server.buffering
    case Reconnects => s.server.buffering && s.unbuffered <= |s.received|
  }

  function Step(s: Link, e: Event): Link
    requires s.server.Sound() && Enabled(s, e)
  {
    match e
    case StartBuffering => s.(server := s.server.(buffering := true), unbuffered := |s.server.sent|)
    case Send(p) => s.(server := Sent(s.server, p), inFlight := if s.connected then s.inFlight + [p] else [])
    case Deliver => s.(received := s.received + [s.inFlight[0]], inFlight := s.inFlight[1..])
    case Confirm => s.(acks := s.acks + {|s.received|})
    case Acknowledge(n) => s.(server := Confirmed(s.server, n))
    case Disconnect => s.(connected := false, inFlight := [])
    case Reconnects =>
      var server := Confirmed(s.server, |s.received|);
      s.(connected := true, server := server, inFlight := Replay(server))
  }

  const START := Link(Server([], 0, false), 0, true, [], [], {})

  ghost predicate Run(s: Link, events: seq<Event>)
    decreases |events|
  {
    events == [] || (Enabled(s, events[0]) && s.server.Sound() && Run(Step(s, events[0]), events[1..]))
  }

  ghost function After(s: Link, events: seq<Event>): Link
    requires Run(s, events)
    decreases |events|
  {
    if events == [] then s else After(Step(s, events[0]), events[1..])
  }

  lemma StepKeepsInv(s: Link, e: Event)
    requires s.Inv() && Enabled(s, e)
    ensures Step(s, e).Inv()
  {
    match e
    case Send(p) =>
      if s.connected {
        assert s.received + (s.inFlight + [p]) == s.server.sent + [p];
      }
    case Deliver =>
      var next := Step(s, e);
      assert next.received + next.inFlight == s.received + s.inFlight;
      assert next.received <= next.received + next.inFlight;
    case Reconnects =>
      assert s.received == s.server.sent[..|s.received|];
      ReplayIsExact(s.server, |s.received|);
    case StartBuffering =>
    case Confirm =>
    case Acknowledge(_) =>
    case Disconnect =>
  }

  /** The first packet sent after the server began to keep packets is the first that is kept. */
  lemma KeepsFromStart(s: Link, p: Packet)
    requires s.Inv() && !s.server.buffering
    ensures Step(s, StartBuffering).server.Sound()
    ensures var server := Step(Step(s, StartBuffering), Send(p)).server; server.Sound() && Replay(server) == [p]
  {
  }

  /** A reconnection puts on its way exactly what the buffer keeps, which is what the client lacks. */
  lemma ReconnectionReplays(s: Link)
    requires s.Inv() && Enabled(s, Reconnects)
    ensures var next := Step(s, Reconnects);
      && next.server.Sound() && next.connected && next.inFlight == Replay(next.server)
      && next.received == s.received && next.received + next.inFlight == s.server.sent
  {
    StepKeepsInv(s, Reconnects);
  }

  /** When a confirmation has arrived, the buffer keeps no more than the client lacks. */
  lemma ConfirmedLeavesBuffer(s: Link)
    requires s.Inv() && s.server.buffering && s.unbuffered <= |s.received|
    ensures Run(s, [Confirm, Acknowledge(|s.received|)])
    ensures var server := After(s, [Confirm, Acknowledge(|s.received|)]).server;
      server.Sound() && server.sent == s.server.sent && s.received + Replay(server) == s.server.sent
  {
    var n := |s.received|;
    var confirmed := Step(s, Confirm);
    assert Enabled(confirmed, Acknowledge(n));
    var next := Step(confirmed, Acknowledge(n));
    var last, both := [Acknowledge(n)], [Confirm, Acknowledge(n)];
    assert both[1..] == last && last[1..] == [] && last[0] == Acknowledge(n) && both[0] == Confirm;
    assert Run(next, []);
    assert Run(confirmed, last) && After(confirmed, last) == next;
    assert next.server.unqueued == n && s.received == s.server.sent[..n];
  }

  /** Nothing is lost, duplicated or reordered: in every run the client has a prefix of what was sent, and
      over a connection the rest is on its way. */
  lemma {:induction false} NothingLost(s: Link, events: seq<Event>)
    requires s.Inv() && Run(s, events)
    ensures After(s, events).Inv()
    decreases |events|
  {
    if events != [] {
      StepKeepsInv(s, events[0]);
      NothingLost(Step(s, events[0]), events[1..]);
    }
  }

  /** Once connected, a client that takes what is on its way has everything. */
  lemma {:induction false} CatchesUp(s: Link)
    requires s.Inv() && s.connected
    ensures var deliveries := seq(|s.inFlight|, _ => Deliver);
      Run(s, deliveries) && After(s, deliveries).received == s.server.sent == After(s, deliveries).server.sent
    decreases |s.inFlight|
  {
    var deliveries: seq<Event> := seq(|s.inFlight|, _ => Deliver);
    if s.inFlight == [] {
      assert s.received + s.inFlight == s.received;
    } else {
      var next := Step(s, Deliver);
      StepKeepsInv(s, Deliver);
      CatchesUp(next);
      assert deliveries[1..] == seq(|next.inFlight|, _ => Deliver);
    }
  }

  lemma StartInv()
    ensures START.Inv()
  {
  }

  /** Every run from the start: the client's packets are a prefix of those sent; and whoever comes back
      can receive the rest. */
  lemma EveryRun(events: seq<Event>)
    requires Run(START, events)
    ensures var s := After(START, events);
      && s.received <= s.server.sent && s.server.Sound()
      && (s.connected ==> s.received + s.inFlight == s.server.sent)
      && (Enabled(s, Reconnects) ==>
          var deliveries := seq(|Step(s, Reconnects).inFlight|, _ => Deliver);
          Run(Step(s, Reconnects), deliveries) && After(Step(s, Reconnects), deliveries).received == s.server.sent)
  {
    StartInv();
    NothingLost(START, events);
    var s := After(START, events);
    if Enabled(s, Reconnects) {
      StepKeepsInv(s, Reconnects);
      CatchesUp(Step(s, Reconnects));
    }
  }
}
