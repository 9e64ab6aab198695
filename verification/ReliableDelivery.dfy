/** Two channels joined by a network that may lose, duplicate and reorder packets. */
module ReliableDelivery {
  import opened Bytes
  import opened SizeBuffer
  import opened NetChannel

  /** A packet in flight, with what its sender knew: the reliable bytes it carries, if any, the datagram it was asked to
      send along, and how many reliable messages its sender had been given. The receiver acts on packet alone. */
  datatype Flight = Flight(packet: seq<byte>, view: Packet, payload: seq<byte>, datagram: seq<byte>, heard: nat)

  /** A channel with its history: the bytes handed to it, the reliable messages it has taken from them,
      the bodies of the reliable packets it accepted, and how many of its own the last accepted packet confirmed. */
  datatype Endpoint = Endpoint(
    chan: Chan,
    submitted: seq<byte>,
    sent: seq<seq<byte>>,
    delivered: seq<seq<byte>>,
    confirmed: nat)

  datatype System = System(a: Endpoint, b: Endpoint, ab: set<Flight>, ba: set<Flight>)

  function Swap(s: System): System {
    System(s.b, s.a, s.ba, s.ab)
  }

  // ---------- Steps ----------

  function SubmitEnd(x: Endpoint, bytes: seq<byte>): Endpoint
    requires Written(x.chan.message, bytes).Some?
  {
    x.(chan := x.chan.(message := Written(x.chan.message, bytes).value), submitted := x.submitted + bytes)
  }

  predicate CanTransmit(x: Endpoint, data: seq<byte>) {
    x.chan.outgoingSequence + 1 < TOP_BIT && Transmitted(x.chan, data).Sent?
  }

  function TransmitEnd(x: Endpoint, data: seq<byte>): Endpoint
    requires CanTransmit(x, data)
  {
    x.(chan := Transmitted(x.chan, data).chan,
       sent := if LoadsMessage(x.chan) then x.sent + [x.chan.message.contents] else x.sent)
  }

  function TransmitFlight(x: Endpoint, data: seq<byte>): Flight
    requires CanTransmit(x, data)
  {
    var packet := Transmitted(x.chan, data).packet;
    Flight(packet, Parsed(Opposite(x.chan.sock), packet),
           if SendsReliable(x.chan) then Load(x.chan).reliable else [], data, |x.delivered|)
  }

  function ReceiveEnd(y: Endpoint, f: Flight): Endpoint {
    if !Accepts(y.chan, f.packet) then y
    else
      var seen := Parsed(y.chan.sock, f.packet);
      y.(chan := Processed(y.chan, f.packet),
         delivered := if seen.reliable == 1 then y.delivered + [seen.body] else y.delivered,
         confirmed := f.heard)
  }

  /** onA says which end acts. Losing a packet is never delivering it. */
  datatype Event =
    | Submit(onA: bool, bytes: seq<byte>)
    | Transmit(onA: bool, data: seq<byte>)
    | Receive(onA: bool, flight: Flight)

  predicate EnabledOnA(s: System, e: Event) {
    match e
    case Submit(_, bytes) => Written(s.a.chan.message, bytes).Some?
    case Transmit(_, data) => CanTransmit(s.a, data)
    case Receive(_, f) => f in s.ba
  }

  function StepOnA(s: System, e: Event): System
    requires EnabledOnA(s, e)
  {
    match e
    case Submit(_, bytes) => s.(a := SubmitEnd(s.a, bytes))
    case Transmit(_, data) => s.(a := TransmitEnd(s.a, data), ab := s.ab + {TransmitFlight(s.a, data)})
    case Receive(_, f) => s.(a := ReceiveEnd(s.a, f))
  }

  predicate Enabled(s: System, e: Event) {
    if e.onA then EnabledOnA(s, e) else EnabledOnA(Swap(s), e)
  }

  function Step(s: System, e: Event): System
    requires Enabled(s, e)
  {
    if e.onA then StepOnA(s, e) else Swap(StepOnA(Swap(s), e))
  }

  /** The states that some sequence of events reaches. */
  ghost predicate Reaches(s: System, events: seq<Event>, t: System)
    decreases |events|
  {
    if events == [] then s == t
    else Enabled(s, events[0]) && Reaches(Step(s, events[0]), events[1..], t)
  }

  function InitialEnd(sock: Sock, qport: uint16, mtu: int): Endpoint {
    Endpoint(InitialChan(sock, qport, mtu), [], [], [], 0)
  }

  function InitialSystem(qport: uint16, mtuA: int, mtuB: int): System {
    System(InitialEnd(Client, qport, mtuA), InitialEnd(Server, qport, mtuB), {}, {})
  }

  // ---------- The invariant, one direction at a time: x sends, y receives ----------

  predicate Counts(x: Endpoint, y: Endpoint) {
    && y.chan.sock == Opposite(x.chan.sock)
    && |y.delivered| <= |x.sent| <= |y.delivered| + 1
    && x.chan.reliableSequence == |x.sent| % 2
    && y.chan.incomingReliableSequence == |y.delivered| % 2
    && (forall i | 0 <= i < |y.delivered| :: x.sent[i] <= y.delivered[i])
    && (forall i | 0 <= i < |x.sent| :: x.sent[i] != [])
    && (x.chan.reliable != [] ==> x.sent != [] && x.chan.reliable == x.sent[|x.sent| - 1])
    && |x.sent| - 1 <= x.confirmed <= |y.delivered|
    && x.chan.incomingReliableAcknowledged == x.confirmed % 2
    && (x.chan.reliable == [] <==> x.confirmed == |x.sent|)
    && x.chan.lastReliableSequence <= x.chan.outgoingSequence
    && (x.sent != [] ==> x.chan.lastReliableSequence > 0)
    && x.chan.incomingAcknowledged <= y.chan.incomingSequence
    && (x.chan.incomingAcknowledged > 0 ==> y.chan.outgoingSequence > 0)
    && (y.chan.incomingSequence == 0 || y.chan.incomingSequence < x.chan.outgoingSequence)
  }

  /** A reliable packet that could still be accepted is the last one sent, and is awaited. */
  predicate LiveDataIsCurrent(x: Endpoint, y: Endpoint, f: Flight) {
    f.view.reliable == 1 && f.view.sequence > y.chan.incomingSequence ==>
      && |x.sent| == |y.delivered| + 1
      && f.view.sequence == x.chan.lastReliableSequence - 1
      && f.payload == x.sent[|x.sent| - 1]
  }

  /** The packet reads as the reliable bytes and then the datagram, which only the lack of room for all of it can keep
      out. */
  predicate CarriesDatagram(x: Endpoint, f: Flight) {
    f.view.body == f.payload + Fitting(x.chan.sock, x.chan.message.maxsize, f.payload, f.datagram)
  }

  predicate DataFlight(x: Endpoint, y: Endpoint, f: Flight) {
    && f.view == Parsed(y.chan.sock, f.packet)
    && f.view.sequence < x.chan.outgoingSequence
    && CarriesDatagram(x, f)
    && (f.view.reliable == 1 <==> f.payload != [])
    && LiveDataIsCurrent(x, y, f)
  }

  predicate AckFlight(x: Endpoint, y: Endpoint, g: Flight) {
    && g.view == Parsed(x.chan.sock, g.packet)
    && g.view.sequence < y.chan.outgoingSequence
    && g.view.ack <= y.chan.incomingSequence
    && g.heard <= |y.delivered|
    && g.view.reliableAck == g.heard % 2
    && (g.view.sequence > x.chan.incomingSequence ==> g.heard >= x.confirmed)
    && (|x.sent| == |y.delivered| && x.sent != [] && g.view.ack + 1 >= x.chan.lastReliableSequence ==>
          g.heard == |x.sent|)
  }

  predicate Ordered(g: Flight, h: Flight) {
    g.view.sequence < h.view.sequence ==> g.heard <= h.heard && g.view.ack <= h.view.ack
  }

  /** Once the message is delivered, an acknowledgement that reaches past its packet says so. */
  predicate NoStaleAck(x: Endpoint, y: Endpoint) {
    |x.sent| == |y.delivered| && x.sent != [] && x.chan.incomingAcknowledged + 1 >= x.chan.lastReliableSequence ==>
      x.confirmed == |x.sent|
  }

  predicate Conserved(x: Endpoint) {
    if x.chan.message.overflowed then Concat(x.sent) <= x.submitted
    else Concat(x.sent) + x.chan.message.contents == x.submitted
  }

  predicate Sized(c: Chan) {
    && MIN_MTU <= c.message.maxsize <= MAX_MSGLEN && c.message.allowOverflow
    && |c.message.contents| <= c.message.maxsize
    && |c.reliable| <= c.message.maxsize
  }

  predicate Direction(x: Endpoint, y: Endpoint, xy: set<Flight>, yx: set<Flight>) {
    && Sized(x.chan) && Counts(x, y) && NoStaleAck(x, y) && Conserved(x)
    && (forall f | f in xy :: DataFlight(x, y, f))
    && (forall g | g in yx :: AckFlight(x, y, g))
    && (forall g, h | g in yx && h in yx :: Ordered(g, h))
  }

  predicate Inv(s: System) {
    Direction(s.a, s.b, s.ab, s.ba) && Direction(s.b, s.a, s.ba, s.ab)
  }

  // ---------- Every step keeps it ----------

  lemma FlightCarriesMessage(x: Endpoint, data: seq<byte>)
    requires CanTransmit(x, data)
    ensures var f := TransmitFlight(x, data);
            && f.view.sequence == x.chan.outgoingSequence
            && f.view.reliable == (if SendsReliable(x.chan) then 1 else 0)
            && f.view.ack == x.chan.incomingSequence
            && f.view.reliableAck == x.chan.incomingReliableSequence
            && CarriesDatagram(TransmitEnd(x, data), f)
  {
    var loaded := Load(x.chan);
    HeaderRoundTrip(loaded, SendsReliable(x.chan), Body(loaded, SendsReliable(x.chan), data));
    BodyArrives(x.chan, data);
  }

  /** A resend is due only if the message is undelivered and its last copy is too old to be accepted. */
  lemma ResendIsSafe(x: Endpoint, y: Endpoint, xy: set<Flight>, yx: set<Flight>)
    requires Direction(x, y, xy, yx) && MustResend(x.chan)
    ensures x.chan.reliable != [] && |x.sent| == |y.delivered| + 1
    ensures forall f | f in xy && f.view.reliable == 1 :: f.view.sequence <= y.chan.incomingSequence
  {
    forall f | f in xy && f.view.reliable == 1 ensures f.view.sequence <= y.chan.incomingSequence {
      assert DataFlight(x, y, f);
    }
  }

  /** A new message is loaded only when every earlier one is delivered. */
  lemma LoadIsSafe(x: Endpoint, y: Endpoint, xy: set<Flight>, yx: set<Flight>)
    requires Direction(x, y, xy, yx) && LoadsMessage(x.chan)
    ensures |x.sent| == |y.delivered|
    ensures forall f | f in xy && f.view.reliable == 1 :: f.view.sequence <= y.chan.incomingSequence
  {
    forall f | f in xy && f.view.reliable == 1 ensures f.view.sequence <= y.chan.incomingSequence {
      assert DataFlight(x, y, f);
    }
  }

  lemma TransmitConserves(x: Endpoint, data: seq<byte>)
    requires CanTransmit(x, data) && Conserved(x)
    ensures Conserved(TransmitEnd(x, data))
  {
    hide Parsed, Header;
    var x' := TransmitEnd(x, data);
    if LoadsMessage(x.chan) {
      assert x'.sent[..|x'.sent| - 1] == x.sent;
      assert Concat(x'.sent) == Concat(x.sent) + x.chan.message.contents;
    }
  }

  lemma TransmittedChan(c: Chan, data: seq<byte>)
    requires c.outgoingSequence + 1 < TOP_BIT && Transmitted(c, data).Sent?
    ensures Transmitted(c, data).chan
            == Load(c).(outgoingSequence := c.outgoingSequence + 1,
                        lastReliableSequence := if SendsReliable(c) then c.outgoingSequence + 1
                                                else c.lastReliableSequence)
  {
  }

  lemma LoadKeepsCounts(x: Endpoint, y: Endpoint, data: seq<byte>)
    requires Sized(x.chan) && Counts(x, y) && CanTransmit(x, data)
    requires LoadsMessage(x.chan) && |x.sent| == |y.delivered|
    ensures var x' := TransmitEnd(x, data);
            Sized(x'.chan) && Counts(x', y) && NoStaleAck(x', y)
  {
    TransmittedChan(x.chan, data);
    hide Transmitted;
    var x' := TransmitEnd(x, data);
    assert forall i | 0 <= i < |x.sent| :: x'.sent[i] == x.sent[i];
    assert |x'.sent| == |x.sent| + 1 && (|x.sent| + 1) % 2 == 1 - |x.sent| % 2;
  }

  lemma OldMessageKeepsCounts(x: Endpoint, y: Endpoint, data: seq<byte>)
    requires Sized(x.chan) && Counts(x, y) && NoStaleAck(x, y) && CanTransmit(x, data) && !LoadsMessage(x.chan)
    requires MustResend(x.chan) ==> |x.sent| == |y.delivered| + 1
    ensures var x' := TransmitEnd(x, data);
            Sized(x'.chan) && Counts(x', y) && NoStaleAck(x', y)
  {
    TransmittedChan(x.chan, data);
    hide Transmitted;
  }

  lemma TransmitKeepsCounts(x: Endpoint, y: Endpoint, xy: set<Flight>, yx: set<Flight>, data: seq<byte>)
    requires Direction(x, y, xy, yx) && CanTransmit(x, data)
    ensures var x' := TransmitEnd(x, data);
            Sized(x'.chan) && Counts(x', y) && NoStaleAck(x', y) && Conserved(x')
  {
    hide Counts, NoStaleAck, Conserved, CanTransmit, MustResend, LoadsMessage, Sized;
    TransmitConserves(x, data);
    if LoadsMessage(x.chan) {
      LoadIsSafe(x, y, xy, yx);
      LoadKeepsCounts(x, y, data);
    } else {
      if MustResend(x.chan) {
        ResendIsSafe(x, y, xy, yx);
      }
      OldMessageKeepsCounts(x, y, data);
    }
  }

  lemma TransmitKeepsFlights(x: Endpoint, y: Endpoint, xy: set<Flight>, yx: set<Flight>, data: seq<byte>, h: Flight)
    requires Direction(x, y, xy, yx) && CanTransmit(x, data)
    requires h in xy + {TransmitFlight(x, data)}
    ensures DataFlight(TransmitEnd(x, data), y, h)
  {
    hide Parsed, Header;
    var x', f := TransmitEnd(x, data), TransmitFlight(x, data);
    FlightCarriesMessage(x, data);
    if LoadsMessage(x.chan) {
      LoadIsSafe(x, y, xy, yx);
      assert h in xy ==> DataFlight(x, y, h);
    } else if MustResend(x.chan) {
      ResendIsSafe(x, y, xy, yx);
      assert h in xy ==> DataFlight(x, y, h);
    } else {
      assert h in xy ==> DataFlight(x, y, h);
    }
  }

  /** With one end sending, its own direction is kept. */
  lemma TransmitKeepsData(x: Endpoint, y: Endpoint, xy: set<Flight>, yx: set<Flight>, data: seq<byte>)
    requires Direction(x, y, xy, yx) && CanTransmit(x, data)
    ensures Direction(TransmitEnd(x, data), y, xy + {TransmitFlight(x, data)}, yx)
  {
    hide Parsed, Header;
    var x', f := TransmitEnd(x, data), TransmitFlight(x, data);
    TransmitKeepsCounts(x, y, xy, yx, data);
    forall h | h in xy + {f} ensures DataFlight(x', y, h) {
      TransmitKeepsFlights(x, y, xy, yx, data, h);
    }
    forall g | g in yx ensures AckFlight(x', y, g) {
      assert AckFlight(x, y, g);
      if LoadsMessage(x.chan) {
        LoadIsSafe(x, y, xy, yx);
      } else if MustResend(x.chan) {
        ResendIsSafe(x, y, xy, yx);
      }
    }
  }

  lemma TransmitKeepsAcks(x: Endpoint, y: Endpoint, xy: set<Flight>, yx: set<Flight>, data: seq<byte>)
    requires Direction(x, y, xy, yx) && CanTransmit(y, data)
    ensures Direction(x, TransmitEnd(y, data), xy, yx + {TransmitFlight(y, data)})
  {
    hide Parsed, Header;
    var y', g' := TransmitEnd(y, data), TransmitFlight(y, data);
    FlightCarriesMessage(y, data);
    forall f | f in xy ensures DataFlight(x, y', f) {
      assert DataFlight(x, y, f);
    }
    forall g | g in yx ensures AckFlight(x, y', g) && Ordered(g, g') && Ordered(g', g) {
      assert AckFlight(x, y, g);
    }
    assert AckFlight(x, y', g');
  }

  lemma ReceiveKeepsData(x: Endpoint, y: Endpoint, xy: set<Flight>, yx: set<Flight>, f: Flight)
    requires Direction(x, y, xy, yx) && f in xy
    ensures Direction(x, ReceiveEnd(y, f), xy, yx)
  {
    hide Parsed, Concat;
    var y' := ReceiveEnd(y, f);
    assert DataFlight(x, y, f);
    if Accepts(y.chan, f.packet) {
      forall h | h in xy ensures DataFlight(x, y', h) {
        assert DataFlight(x, y, h);
      }
      forall g | g in yx ensures AckFlight(x, y', g) {
        assert AckFlight(x, y, g);
      }
    }
  }

  lemma ReceiveKeepsAcks(x: Endpoint, y: Endpoint, xy: set<Flight>, yx: set<Flight>, g: Flight)
    requires Direction(x, y, xy, yx) && g in yx
    ensures Direction(ReceiveEnd(x, g), y, xy, yx)
  {
    hide Parsed, Concat;
    var x' := ReceiveEnd(x, g);
    assert AckFlight(x, y, g);
    if Accepts(x.chan, g.packet) {
      assert Counts(x', y) && NoStaleAck(x', y);
      forall h | h in xy ensures DataFlight(x', y, h) {
        assert DataFlight(x, y, h);
      }
      forall h | h in yx ensures AckFlight(x', y, h) {
        assert AckFlight(x, y, h) && Ordered(g, h);
      }
    }
  }

  lemma SubmitKeeps(x: Endpoint, y: Endpoint, xy: set<Flight>, yx: set<Flight>, bytes: seq<byte>)
    requires Direction(x, y, xy, yx) && Written(x.chan.message, bytes).Some?
    ensures Direction(SubmitEnd(x, bytes), y, xy, yx)
  {
    var x' := SubmitEnd(x, bytes);
    assert Conserved(x');
    forall f | f in xy ensures DataFlight(x', y, f) {
      assert DataFlight(x, y, f);
    }
    forall g | g in yx ensures AckFlight(x', y, g) {
      assert AckFlight(x, y, g);
    }
  }

  lemma SubmitKeepsAcks(x: Endpoint, y: Endpoint, xy: set<Flight>, yx: set<Flight>, bytes: seq<byte>)
    requires Direction(x, y, xy, yx) && Written(y.chan.message, bytes).Some?
    ensures Direction(x, SubmitEnd(y, bytes), xy, yx)
  {
    var y' := SubmitEnd(y, bytes);
    forall f | f in xy ensures DataFlight(x, y', f) {
      assert DataFlight(x, y, f);
    }
    forall g | g in yx ensures AckFlight(x, y', g) {
      assert AckFlight(x, y, g);
    }
  }

  lemma StepOnAKeepsInv(s: System, e: Event)
    requires Inv(s) && EnabledOnA(s, e)
    ensures Inv(StepOnA(s, e))
  {
    match e
    case Submit(_, bytes) =>
      SubmitKeeps(s.a, s.b, s.ab, s.ba, bytes);
      SubmitKeepsAcks(s.b, s.a, s.ba, s.ab, bytes);
    case Transmit(_, data) =>
      TransmitKeepsData(s.a, s.b, s.ab, s.ba, data);
      TransmitKeepsAcks(s.b, s.a, s.ba, s.ab, data);
    case Receive(_, f) =>
      ReceiveKeepsData(s.b, s.a, s.ba, s.ab, f);
      ReceiveKeepsAcks(s.a, s.b, s.ab, s.ba, f);
  }

  lemma StepKeepsInv(s: System, e: Event)
    requires Inv(s) && Enabled(s, e)
    ensures Inv(Step(s, e))
  {
    StepOnAKeepsInv(if e.onA then s else Swap(s), e);
  }

  lemma {:induction false} RunKeepsInv(s: System, events: seq<Event>, t: System)
    requires Inv(s) && Reaches(s, events, t)
    ensures Inv(t)
    decreases |events|
  {
    if events != [] {
      StepKeepsInv(s, events[0]);
      RunKeepsInv(Step(s, events[0]), events[1..], t);
    }
  }

  // ---------- What every reachable state satisfies ----------

  ghost predicate Reachable(s: System) {
    exists qport, mtuA, mtuB, events :: Reaches(InitialSystem(qport, mtuA, mtuB), events, s)
  }

  lemma ReachableInv(s: System)
    requires Reachable(s)
    ensures Inv(s)
  {
    var qport, mtuA, mtuB, events :| Reaches(InitialSystem(qport, mtuA, mtuB), events, s);
    RunKeepsInv(InitialSystem(qport, mtuA, mtuB), events, s);
  }

  lemma {:induction false} ConcatOfPrefix(messages: seq<seq<byte>>, n: nat)
    requires n <= |messages|
    ensures Concat(messages[..n]) <= Concat(messages)
  {
    if n < |messages| {
      var front := messages[..|messages| - 1];
      ConcatOfPrefix(front, n);
      assert messages[..n] == front[..n];
    } else {
      assert messages[..n] == messages;
    }
  }

  /** Exactly once and in order, from x to y: the reliable packets y has accepted are the messages x took,
      each once and in the order taken, with at most the last still to come and none to come once x's
      reliable buffer is empty; joined together they begin the stream x was given. */
  predicate ExactlyOnceInOrder(x: Endpoint, y: Endpoint) {
    && |y.delivered| <= |x.sent| <= |y.delivered| + 1
    && (forall i | 0 <= i < |y.delivered| :: x.sent[i] <= y.delivered[i])
    && (x.chan.reliable == [] ==> |y.delivered| == |x.sent|)
    && (|x.sent| > |y.delivered| ==> x.chan.reliable == x.sent[|y.delivered|])
    && Concat(x.sent[..|y.delivered|]) <= Concat(x.sent) <= x.submitted
    && (!x.chan.message.overflowed ==> Concat(x.sent) + x.chan.message.contents == x.submitted)
  }

  lemma EveryRunDeliversExactlyOnce(s: System)
    requires Reachable(s)
    ensures ExactlyOnceInOrder(s.a, s.b) && ExactlyOnceInOrder(s.b, s.a)
  {
    ReachableInv(s);
    ConcatOfPrefix(s.a.sent, |s.b.delivered|);
    ConcatOfPrefix(s.b.sent, |s.a.delivered|);
  }

  /** Whatever packet, however old or often repeated, an end accepts next as reliable,
      is the one message it still lacks. */
  lemma AcceptedIsTheNextMessage(s: System, toB: bool, f: Flight)
    requires Reachable(s)
    requires f in (if toB then s.ab else s.ba)
    requires Accepts((if toB then s.b else s.a).chan, f.packet)
    requires Parsed((if toB then s.b else s.a).chan.sock, f.packet).reliable == 1
    ensures var (x, y) := if toB then (s.a, s.b) else (s.b, s.a);
            && |x.sent| == |y.delivered| + 1
            && x.chan.reliable == x.sent[|y.delivered|] == f.payload
            && f.payload <= Parsed(y.chan.sock, f.packet).body
  {
    ReachableInv(s);
    var (x, y) := if toB then (s.a, s.b) else (s.b, s.a);
    assert DataFlight(x, y, f);
  }

  /** What an end reads in any packet that it accepts: the message it lacks, if the packet is a reliable one, and then
      the whole datagram that was sent along, unless there was no room for it. */
  lemma AcceptedBodyIsExact(s: System, toB: bool, f: Flight)
    requires Reachable(s) && f in (if toB then s.ab else s.ba)
    requires Accepts((if toB then s.b else s.a).chan, f.packet)
    ensures var (x, y) := if toB then (s.a, s.b) else (s.b, s.a);
            var seen := Parsed(y.chan.sock, f.packet);
            var message := if seen.reliable == 1 && |x.sent| > |y.delivered| then x.sent[|y.delivered|] else [];
            && (seen.reliable == 1 ==> message != [])
            && seen.body == message + Fitting(x.chan.sock, x.chan.message.maxsize, message, f.datagram)
  {
    ReachableInv(s);
    hide Parsed, Fitting, Concat;
    var (x, y) := if toB then (s.a, s.b) else (s.b, s.a);
    assert DataFlight(x, y, f);
  }

  /** And that datagram is the one given to the transmission that put the packet into the network. */
  lemma SentAlong(s: System, onA: bool, data: seq<byte>)
    requires Enabled(s, Transmit(onA, data))
    ensures var t := Step(s, Transmit(onA, data));
            var x := if onA then s.a else s.b;
            var (before, after) := if onA then (s.ab, t.ab) else (s.ba, t.ba);
            exists f: Flight ::
              after == before + {f} && f.datagram == data && Transmitted(x.chan, data).packet == f.packet
  {
    var x := if onA then s.a else s.b;
    assert TransmitFlight(x, data).datagram == data;
  }

  /** When the channel resends, the message is undelivered and every reliable packet sent before
      is too old to be accepted, now and (sequence numbers only grow) ever after. */
  lemma ResendsOnlyWhenOldCopiesAreDead(s: System, fromA: bool)
    requires Reachable(s) && MustResend((if fromA then s.a else s.b).chan)
    ensures var (x, y, xy) := if fromA then (s.a, s.b, s.ab) else (s.b, s.a, s.ba);
            && |x.sent| == |y.delivered| + 1
            && forall f: Flight | f in xy && Parsed(y.chan.sock, f.packet).reliable == 1 :: !Accepts(y.chan, f.packet)
  {
    ReachableInv(s);
    var (x, y, xy, yx) := if fromA then (s.a, s.b, s.ab, s.ba) else (s.b, s.a, s.ba, s.ab);
    ResendIsSafe(x, y, xy, yx);
    assert forall f | f in xy :: DataFlight(x, y, f);
  }

  // ---------- Progress ----------

  /** An end that can send k more packets. A client needs two bytes of room for its qport. */
  predicate Ready(x: Endpoint, k: nat) {
    && !x.chan.message.overflowed
    && x.chan.outgoingSequence + k < TOP_BIT
    && (x.chan.sock == Client ==>
          |x.chan.reliable| <= x.chan.message.maxsize - 2 && |x.chan.message.contents| <= x.chan.message.maxsize - 2)
  }

  /** a sends, b hears it and answers, a hears the answer. */
  function Trip(s: System, dataA: seq<byte>, dataB: seq<byte>): System {
    if !CanTransmit(s.a, dataA) then s
    else
      var s1 := Step(s, Transmit(true, dataA));
      var s2 := Step(s1, Receive(false, TransmitFlight(s.a, dataA)));
      if !CanTransmit(s2.b, dataB) then s2
      else
        var s3 := Step(s2, Transmit(false, dataB));
        Step(s3, Receive(true, TransmitFlight(s2.b, dataB)))
  }

  function Trips(s: System, data: seq<(seq<byte>, seq<byte>)>): System
    decreases |data|
  {
    if data == [] then s else Trips(Trip(s, data[0].0, data[0].1), data[1..])
  }

  lemma ReadyTransmits(x: Endpoint, y: Endpoint, xy: set<Flight>, yx: set<Flight>, data: seq<byte>, k: nat)
    requires Direction(x, y, xy, yx) && Ready(x, k) && k > 0
    ensures CanTransmit(x, data) && Ready(TransmitEnd(x, data), k - 1)
  {
    OnlyClientsOverrunTheSendBuffer(x.chan, data);
  }

  /** What b makes of a's next packet, unless that is a's packet 0. */
  lemma Heard(x: Endpoint, y: Endpoint, data: seq<byte>)
    requires CanTransmit(x, data) && y.chan.sock == Opposite(x.chan.sock)
    requires y.chan.incomingSequence == 0 || y.chan.incomingSequence < x.chan.outgoingSequence
    ensures var t := ReceiveEnd(y, TransmitFlight(x, data));
            && t.chan.outgoingSequence == y.chan.outgoingSequence
            && (forall j | Ready(y, j) :: Ready(t, j))
            && |t.delivered| >= |y.delivered|
            && t.sent == y.sent
            && t.chan.message == y.chan.message
            && t.chan.lastReliableSequence == y.chan.lastReliableSequence
            && t.chan.reliableSequence == y.chan.reliableSequence
            && (x.chan.outgoingSequence > 0 ==>
                  && t.chan.incomingSequence == x.chan.outgoingSequence
                  && t.confirmed == |x.delivered|
                  && t.chan.incomingAcknowledged == x.chan.incomingSequence
                  && |t.delivered| == |y.delivered| + if SendsReliable(x.chan) then 1 else 0)
            && (x.chan.outgoingSequence == 0 ==> t == y)
  {
    FlightCarriesMessage(x, data);
  }

  /** a sends and b hears it. */
  function HalfWay(s: System, data: seq<byte>): System
    requires CanTransmit(s.a, data)
  {
    Step(Step(s, Transmit(true, data)), Receive(false, TransmitFlight(s.a, data)))
  }

  /** The first half of a trip. */
  lemma HalfTrip(s: System, data: seq<byte>, k: nat)
    requires Inv(s) && Ready(s.a, k) && k > 0
    ensures CanTransmit(s.a, data) && Ready(TransmitEnd(s.a, data), k - 1)
    ensures var t := HalfWay(s, data);
            && Inv(t)
            && t.a == TransmitEnd(s.a, data)
            && t.b == ReceiveEnd(s.b, TransmitFlight(s.a, data))
            && t.b.confirmed >= s.b.confirmed
            && (s.a.chan.outgoingSequence > 0 && SendsReliable(s.a.chan) ==> |t.b.delivered| == |t.a.sent|)
  {
    ReadyTransmits(s.a, s.b, s.ab, s.ba, data, k);
    var f := TransmitFlight(s.a, data);
    var s1 := Step(s, Transmit(true, data));
    StepKeepsInv(s, Transmit(true, data));
    StepKeepsInv(s1, Receive(false, f));
    Heard(s.a, s.b, data);
    FlightCarriesMessage(s.a, data);
    assert AckFlight(s1.b, s1.a, f);
    assert DataFlight(s1.a, s1.b, f);
  }

  /** A trip is two half trips, the second seen from b. */
  lemma TripIsTwoHalves(s: System, dataA: seq<byte>, dataB: seq<byte>)
    requires CanTransmit(s.a, dataA) && CanTransmit(HalfWay(s, dataA).b, dataB)
    ensures Trip(s, dataA, dataB) == Swap(HalfWay(Swap(HalfWay(s, dataA)), dataB))
  {
  }

  lemma TripKeepsInv(s: System, dataA: seq<byte>, dataB: seq<byte>, k: nat)
    requires Inv(s) && Ready(s.a, k) && Ready(s.b, k) && k > 0
    ensures CanTransmit(s.a, dataA) && Ready(TransmitEnd(s.a, dataA), k - 1)
    ensures var y := ReceiveEnd(s.b, TransmitFlight(s.a, dataA));
            && CanTransmit(y, dataB) && Ready(TransmitEnd(y, dataB), k - 1)
            && y.chan.sock == Opposite(s.a.chan.sock) == s.b.chan.sock
            && (s.a.chan.outgoingSequence > 0 && SendsReliable(s.a.chan) ==>
                  |y.delivered| == |TransmitEnd(s.a, dataA).sent|)
    ensures var t := Trip(s, dataA, dataB);
            var y := ReceiveEnd(s.b, TransmitFlight(s.a, dataA));
            && Inv(t)
            && t.a == ReceiveEnd(TransmitEnd(s.a, dataA), TransmitFlight(y, dataB))
            && t.b == TransmitEnd(y, dataB)
            && t.a.confirmed >= s.a.confirmed
  {
    HalfTrip(s, dataA, k);
    Heard(s.a, s.b, dataA);
    var h := Swap(HalfWay(s, dataA));
    HalfTrip(h, dataB, k);
    TripIsTwoHalves(s, dataA, dataB);
  }

  predicate LagsBehind(y: Chan, x: Chan) {
    y.incomingSequence == 0 || y.incomingSequence < x.outgoingSequence
  }

  lemma TripNumbers(x: Endpoint, y: Endpoint, dataA: seq<byte>, dataB: seq<byte>, k: nat)
    requires y.chan.sock == Opposite(x.chan.sock)
    requires LagsBehind(x.chan, y.chan) && LagsBehind(y.chan, x.chan)
    requires CanTransmit(x, dataA) && Ready(TransmitEnd(x, dataA), k)
    requires CanTransmit(ReceiveEnd(y, TransmitFlight(x, dataA)), dataB)
    ensures var y1 := ReceiveEnd(y, TransmitFlight(x, dataA));
            var t := ReceiveEnd(TransmitEnd(x, dataA), TransmitFlight(y1, dataB));
            && Ready(t, k)
            && t.chan.outgoingSequence == x.chan.outgoingSequence + 1
            && TransmitEnd(y1, dataB).chan.outgoingSequence == y.chan.outgoingSequence + 1
            && t.sent == TransmitEnd(x, dataA).sent
            && (x.chan.outgoingSequence > 0 && y.chan.outgoingSequence > 0 ==>
                  && t.chan.incomingAcknowledged == x.chan.outgoingSequence
                  && t.confirmed == |y1.delivered|
                  && (!SendsReliable(x.chan) ==> t.chan.lastReliableSequence == x.chan.lastReliableSequence))
  {
    Heard(x, y, dataA);
    Heard(ReceiveEnd(y, TransmitFlight(x, dataA)), TransmitEnd(x, dataA), dataB);
  }

  /** A round trip: unless a packet number is still 0, both packets are heard. */
  lemma OneTrip(s: System, dataA: seq<byte>, dataB: seq<byte>, k: nat)
    requires Inv(s) && Ready(s.a, k) && Ready(s.b, k) && k > 0
    ensures var t := Trip(s, dataA, dataB);
            && Inv(t) && Ready(t.a, k - 1) && Ready(t.b, k - 1)
            && t.a.chan.outgoingSequence == s.a.chan.outgoingSequence + 1
            && t.b.chan.outgoingSequence == s.b.chan.outgoingSequence + 1
            && t.a.confirmed >= s.a.confirmed
            && t.a.sent == TransmitEnd(s.a, dataA).sent
            && (s.a.chan.outgoingSequence > 0 && s.b.chan.outgoingSequence > 0 ==>
                  && t.a.chan.incomingAcknowledged == s.a.chan.outgoingSequence
                  && (SendsReliable(s.a.chan) ==> t.a.confirmed == |t.a.sent|)
                  && (!SendsReliable(s.a.chan) ==> t.a.chan.lastReliableSequence == s.a.chan.lastReliableSequence))
  {
    TripKeepsInv(s, dataA, dataB, k);
    TripNumbers(s.a, s.b, dataA, dataB, k - 1);
  }

  /** Waiting for the acknowledgement of n messages: both ends are past packet 0, the last message went out
      in an earlier packet, and is due to be sent again if only one more trip is left. */
  predicate Awaiting(s: System, n: nat, k: nat) {
    && Inv(s) && Ready(s.a, k) && Ready(s.b, k)
    && s.a.chan.outgoingSequence > 0 && s.b.chan.outgoingSequence > 0
    && |s.a.sent| == n
    && (s.a.confirmed < n ==>
          k > 0 && s.a.chan.lastReliableSequence < s.a.chan.outgoingSequence && (k == 1 ==> MustResend(s.a.chan)))
  }

  lemma AwaitedTrip(s: System, dataA: seq<byte>, dataB: seq<byte>, n: nat, k: nat)
    requires Awaiting(s, n, k) && s.a.confirmed < n
    ensures var t := Trip(s, dataA, dataB);
            t.a.confirmed >= n || Awaiting(t, n, k - 1)
  {
    hide Parsed, Header, Concat, Trip;
    OneTrip(s, dataA, dataB, k);
  }

  lemma {:induction false} TripsKeepConfirmed(s: System, data: seq<(seq<byte>, seq<byte>)>)
    requires Inv(s) && Ready(s.a, |data|) && Ready(s.b, |data|)
    ensures Inv(Trips(s, data)) && Trips(s, data).a.confirmed >= s.a.confirmed
    decreases |data|
  {
    if data != [] {
      OneTrip(s, data[0].0, data[0].1, |data|);
      TripsKeepConfirmed(Trip(s, data[0].0, data[0].1), data[1..]);
    }
  }

  lemma {:induction false} AwaitedTripsConfirm(s: System, n: nat, data: seq<(seq<byte>, seq<byte>)>)
    requires Awaiting(s, n, |data|) || (Inv(s) && Ready(s.a, |data|) && Ready(s.b, |data|) && s.a.confirmed >= n)
    ensures Trips(s, data).a.confirmed >= n
    decreases |data|
  {
    if s.a.confirmed >= n {
      TripsKeepConfirmed(s, data);
    } else {
      AwaitedTrip(s, data[0].0, data[0].1, n, |data|);
      OneTrip(s, data[0].0, data[0].1, |data|);
      AwaitedTripsConfirm(Trip(s, data[0].0, data[0].1), n, data[1..]);
    }
  }

  lemma QuietTrip(x: Endpoint, y: Endpoint, dataA: seq<byte>, dataB: seq<byte>)
    requires CanTransmit(x, dataA) && x.chan.reliable != [] && !MustResend(x.chan)
    ensures var y1 := ReceiveEnd(y, TransmitFlight(x, dataA));
            CanTransmit(y1, dataB) ==>
              var t := ReceiveEnd(TransmitEnd(x, dataA), TransmitFlight(y1, dataB));
              t.sent == x.sent && t.chan.lastReliableSequence == x.chan.lastReliableSequence
  {
  }

  /** A resend that is due goes out with the trip, and comes back acknowledged. */
  lemma FirstTripResends(s: System, dataA: seq<byte>, dataB: seq<byte>)
    requires Inv(s) && Ready(s.a, 3) && Ready(s.b, 3) && s.a.chan.reliable != [] && MustResend(s.a.chan)
    ensures Trip(s, dataA, dataB).a.confirmed >= |s.a.sent|
  {
    ResendingEndsArePastZero(s.a, s.b, s.ab, s.ba);
    hide Inv, Ready, Trip, MustResend, SendsReliable;
    OneTrip(s, dataA, dataB, 3);
    SentOnlyGrows(s.a, dataA);
  }

  lemma SentOnlyGrows(x: Endpoint, data: seq<byte>)
    ensures CanTransmit(x, data) ==> |TransmitEnd(x, data).sent| >= |x.sent|
  {
  }

  lemma ResendingEndsArePastZero(x: Endpoint, y: Endpoint, xy: set<Flight>, yx: set<Flight>)
    requires Direction(x, y, xy, yx) && MustResend(x.chan) && x.chan.reliable != []
    ensures x.chan.outgoingSequence > 0 && y.chan.outgoingSequence > 0 && SendsReliable(x.chan)
  {
  }

  /** Without one, the message stays the last that was sent. */
  lemma FirstTripIsQuiet(s: System, dataA: seq<byte>, dataB: seq<byte>)
    requires Inv(s) && Ready(s.a, 3) && Ready(s.b, 3) && s.a.chan.reliable != [] && !MustResend(s.a.chan)
    ensures var t := Trip(s, dataA, dataB);
            t.a.sent == s.a.sent && t.a.chan.lastReliableSequence == s.a.chan.lastReliableSequence
  {
    TripKeepsInv(s, dataA, dataB, 3);
    QuietTrip(s.a, s.b, dataA, dataB);
  }

  lemma ThresholdIsBehind(s: System)
    requires Inv(s)
    ensures s.a.chan.lastReliableSequence <= s.a.chan.outgoingSequence
  {
  }

  /** After any trip the channel awaits the last acknowledgement, or has it. */
  lemma FirstTrip(s: System, dataA: seq<byte>, dataB: seq<byte>)
    requires Inv(s) && Ready(s.a, 3) && Ready(s.b, 3) && s.a.chan.reliable != []
    ensures var t := Trip(s, dataA, dataB);
            && Inv(t) && Ready(t.a, 2) && Ready(t.b, 2)
            && (t.a.confirmed >= |s.a.sent| || Awaiting(t, |s.a.sent|, 2))
  {
    hide Inv, Trip, Ready, MustResend, SendsReliable, TransmitEnd;
    OneTrip(s, dataA, dataB, 3);
    ThresholdIsBehind(s);
    if MustResend(s.a.chan) {
      FirstTripResends(s, dataA, dataB);
    } else {
      FirstTripIsQuiet(s, dataA, dataB);
    }
  }

  lemma ThreeTripsConfirm(s: System, data: seq<(seq<byte>, seq<byte>)>)
    requires Inv(s) && |data| == 3
    requires Ready(s.a, 3) && Ready(s.b, 3)
    requires s.a.chan.reliable != []
    ensures var t := Trips(s, data);
            && |t.b.delivered| >= |s.a.sent|
            && t.a.confirmed >= |s.a.sent|
            && (t.a.sent == s.a.sent ==> t.a.chan.reliable == [])
  {
    FirstTrip(s, data[0].0, data[0].1);
    AwaitedTripsConfirm(Trip(s, data[0].0, data[0].1), |s.a.sent|, data[1..]);
    TripsKeepConfirmed(s, data);
  }

  lemma UndeliveredTrip(s: System, dataA: seq<byte>, dataB: seq<byte>, k: nat)
    requires Inv(s) && Ready(s.a, k) && Ready(s.b, k) && k > 0
    requires |s.b.delivered| < |s.a.sent| && !MustResend(s.a.chan)
    ensures var t := Trip(s, dataA, dataB);
            && Inv(t) && Ready(t.a, k - 1) && Ready(t.b, k - 1)
            && t.a.sent == s.a.sent && |t.b.delivered| < |t.a.sent|
            && t.a.chan.incomingAcknowledged <= s.a.chan.outgoingSequence
            && t.a.chan.lastReliableSequence == s.a.chan.lastReliableSequence
  {
    OneTrip(s, dataA, dataB, k);
    TripKeepsInv(s, dataA, dataB, k);
    Heard(s.a, s.b, dataA);
    Heard(ReceiveEnd(s.b, TransmitFlight(s.a, dataA)), TransmitEnd(s.a, dataA), dataB);
  }

  lemma {:induction false} StaysUndelivered(s: System, data: seq<(seq<byte>, seq<byte>)>)
    requires Inv(s) && Ready(s.a, |data|) && Ready(s.b, |data|) && |data| <= 2
    requires |s.b.delivered| < |s.a.sent|
    requires data != [] ==> s.a.chan.incomingAcknowledged <= s.a.chan.lastReliableSequence
    requires |data| == 2 ==> s.a.chan.outgoingSequence <= s.a.chan.lastReliableSequence
    ensures |Trips(s, data).b.delivered| < |s.a.sent|
    decreases |data|
  {
    if data != [] {
      UndeliveredTrip(s, data[0].0, data[0].1, |data|);
      StaysUndelivered(Trip(s, data[0].0, data[0].1), data[1..]);
    }
  }

  /** An answer that is the far end's very first packet is dropped, so nothing is acknowledged by it. */
  lemma FirstAnswerIsDropped(s: System, dataA: seq<byte>, dataB: seq<byte>, k: nat)
    requires Inv(s) && Ready(s.a, k) && Ready(s.b, k) && k > 0 && s.b.chan.outgoingSequence == 0
    ensures !MustResend(s.a.chan) && !MustResend(Trip(s, dataA, dataB).a.chan)
  {
    hide Parsed, Header, Concat;
    TripKeepsInv(s, dataA, dataB, k);
    Heard(s.a, s.b, dataA);
    Heard(ReceiveEnd(s.b, TransmitFlight(s.a, dataA)), TransmitEnd(s.a, dataA), dataB);
  }

  lemma TwoTripsAfterSilence(s: System, data: seq<(seq<byte>, seq<byte>)>)
    requires Inv(s) && Ready(s.a, 2) && Ready(s.b, 2) && |data| == 2
    requires |s.b.delivered| < |s.a.sent| && s.b.chan.outgoingSequence == 0
    ensures |Trips(s, data).b.delivered| < |s.a.sent|
  {
    hide Inv, Ready, Trip, MustResend;
    FirstAnswerIsDropped(s, data[0].0, data[0].1, 2);
    UndeliveredTrip(s, data[0].0, data[0].1, 2);
    var t := Trip(s, data[0].0, data[0].1);
    var rest := data[1..];
    UndeliveredTrip(t, rest[0].0, rest[0].1, 1);
    assert Trips(t, rest) == Trips(Trip(t, rest[0].0, rest[0].1), rest[1..]);
  }

  lemma TwoTripsExactlyWhen(s: System, data: seq<(seq<byte>, seq<byte>)>)
    requires Inv(s) && Ready(s.a, 2) && Ready(s.b, 2) && |data| == 2
    requires |s.b.delivered| < |s.a.sent|
    ensures |Trips(s, data).b.delivered| >= |s.a.sent| <==>
            s.b.chan.outgoingSequence > 0 && s.a.chan.lastReliableSequence < s.a.chan.outgoingSequence
  {
    ThresholdIsBehind(s);
    if s.b.chan.outgoingSequence == 0 {
      TwoTripsAfterSilence(s, data);
    } else if s.a.chan.lastReliableSequence == s.a.chan.outgoingSequence {
      AcknowledgedIsBehind(s);
      hide Inv, Ready, Trips;
      StaysUndelivered(s, data);
    } else {
      AwaitedTripsConfirm(s, |s.a.sent|, data);
      TripsKeepConfirmed(s, data);
    }
  }

  // ---------- From either end ----------

  /** One end sends, the other hears it and answers, and the first hears the answer. */
  function RoundTrip(s: System, fromA: bool, dataX: seq<byte>, dataY: seq<byte>): System {
    var x := if fromA then s.a else s.b;
    if !CanTransmit(x, dataX) then s
    else
      var s1 := Step(s, Transmit(fromA, dataX));
      var s2 := Step(s1, Receive(!fromA, TransmitFlight(x, dataX)));
      var y := if fromA then s2.b else s2.a;
      if !CanTransmit(y, dataY) then s2
      else
        var s3 := Step(s2, Transmit(!fromA, dataY));
        Step(s3, Receive(fromA, TransmitFlight(y, dataY)))
  }

  function RoundTrips(s: System, fromA: bool, data: seq<(seq<byte>, seq<byte>)>): System
    decreases |data|
  {
    if data == [] then s else RoundTrips(RoundTrip(s, fromA, data[0].0, data[0].1), fromA, data[1..])
  }

  /** The system as the sender sees it. */
  function SeenFrom(s: System, fromA: bool): System {
    if fromA then s else Swap(s)
  }

  lemma RoundTripIsTrip(s: System, fromA: bool, dataX: seq<byte>, dataY: seq<byte>)
    ensures SeenFrom(RoundTrip(s, fromA, dataX, dataY), fromA) == Trip(SeenFrom(s, fromA), dataX, dataY)
  {
    hide TransmitEnd, TransmitFlight, ReceiveEnd, CanTransmit;
  }

  lemma {:induction false} RoundTripsAreTrips(s: System, fromA: bool, data: seq<(seq<byte>, seq<byte>)>)
    ensures SeenFrom(RoundTrips(s, fromA, data), fromA) == Trips(SeenFrom(s, fromA), data)
    decreases |data|
  {
    hide Trip, RoundTrip, SeenFrom;
    if data != [] {
      RoundTripIsTrip(s, fromA, data[0].0, data[0].1);
      RoundTripsAreTrips(RoundTrip(s, fromA, data[0].0, data[0].1), fromA, data[1..]);
    }
  }

  lemma ReachableSeenFrom(s: System, fromA: bool)
    requires Reachable(s)
    ensures Inv(SeenFrom(s, fromA))
  {
    ReachableInv(s);
    hide Direction;
  }

  /** Three round trips deliver the outstanding message of either end and bring its acknowledgement back. */
  lemma ThreeTripsDeliver(s: System, fromA: bool, data: seq<(seq<byte>, seq<byte>)>)
    requires Reachable(s) && |data| == 3
    requires Ready(s.a, 3) && Ready(s.b, 3)
    requires (if fromA then s.a else s.b).chan.reliable != []
    ensures var t := RoundTrips(s, fromA, data);
            var (x, x', y') := if fromA then (s.a, t.a, t.b) else (s.b, t.b, t.a);
            && |y'.delivered| >= |x.sent|
            && x'.confirmed >= |x.sent|
            && (x'.sent == x.sent ==> x'.chan.reliable == [])
  {
    hide Inv, Reachable, Ready, RoundTrips, Trips;
    ReachableSeenFrom(s, fromA);
    RoundTripsAreTrips(s, fromA, data);
    ThreeTripsConfirm(SeenFrom(s, fromA), data);
  }

  /** Two round trips deliver a message that was lost exactly if the far end has already sent a packet, so that its
      answer is not dropped, and this end has sent one since the message: the threshold for resending is one above
      the packet that carried it. */
  lemma TwoTripsDeliverExactlyWhen(s: System, fromA: bool, data: seq<(seq<byte>, seq<byte>)>)
    requires Reachable(s) && |data| == 2
    requires Ready(s.a, 2) && Ready(s.b, 2)
    requires var (x, y) := if fromA then (s.a, s.b) else (s.b, s.a); |y.delivered| < |x.sent|
    ensures var t := RoundTrips(s, fromA, data);
            var (x, y, y') := if fromA then (s.a, s.b, t.b) else (s.b, s.a, t.a);
            |y'.delivered| >= |x.sent| <==>
            y.chan.outgoingSequence > 0 && x.chan.lastReliableSequence < x.chan.outgoingSequence
  {
    hide Inv, Reachable, Ready, RoundTrips, Trips;
    ReachableSeenFrom(s, fromA);
    RoundTripsAreTrips(s, fromA, data);
    TwoTripsExactlyWhen(SeenFrom(s, fromA), data);
  }

  /** In particular a message lost with the packet just sent needs a third. */
  lemma LostMessageNeedsThreeTrips(s: System, fromA: bool, data: seq<(seq<byte>, seq<byte>)>)
    requires Reachable(s) && |data| == 2
    requires Ready(s.a, 2) && Ready(s.b, 2)
    requires var (x, y) := if fromA then (s.a, s.b) else (s.b, s.a);
             |y.delivered| < |x.sent| && x.chan.lastReliableSequence == x.chan.outgoingSequence
    ensures var t := RoundTrips(s, fromA, data);
            if fromA then |t.b.delivered| < |s.a.sent| else |t.a.delivered| < |s.b.sent|
  {
    hide Reachable, Ready, RoundTrips;
    TwoTripsDeliverExactlyWhen(s, fromA, data);
  }

  // ---------- Inputs at which the promises fail ----------

  /** The client has been given these bytes and nothing has been sent. */
  function Given(bytes: seq<byte>): System
    requires |bytes| <= MAX_MSGLEN
  {
    Step(InitialSystem(0, 0, 0), Submit(true, bytes))
  }

  lemma GivenIsReachable(bytes: seq<byte>)
    requires |bytes| <= MAX_MSGLEN
    ensures Reachable(Given(bytes))
  {
    var first, e := InitialSystem(0, 0, 0), Submit(true, bytes);
    assert Reaches(Step(first, e), [], Given(bytes));
    assert [e][1..] == [];
    assert Reaches(first, [e], Given(bytes));
  }

  /** A reachable client whose next transmission is fatal: it has been given as many bytes as a message holds. */
  lemma ClientCanOverrunTheSendBuffer()
    ensures var s := Given(seq(MAX_MSGLEN, _ => 0));
            Reachable(s) && s.a.chan.sock == Client && Transmitted(s.a.chan, []).SysError?
  {
    var bytes: seq<byte> := seq(MAX_MSGLEN, _ => 0);
    GivenIsReachable(bytes);
    var c := Given(bytes).a.chan;
    assert [] + bytes == bytes;
    OnlyClientsOverrunTheSendBuffer(c, []);
    assert Load(c).reliable == bytes;
  }

  /** The client has sent its first packet, with a message of one byte, and nothing has arrived. */
  function FirstPacketLost(): System {
    var s := Given([1]);
    if CanTransmit(s.a, []) then Step(s, Transmit(true, [])) else s
  }

  /** A reachable system in which two round trips, whatever they carry, do not deliver the message. */
  lemma TwoTripsCanFail(data: seq<(seq<byte>, seq<byte>)>)
    requires |data| == 2
    ensures var s := FirstPacketLost();
            Reachable(s) && |s.a.sent| == 1 && |RoundTrips(s, true, data).b.delivered| < |s.a.sent|
  {
    var s := FirstPacketLost();
    FirstPacketIsLost();
    hide Reachable, RoundTrips;
    LostMessageNeedsThreeTrips(s, true, data);
  }

  lemma FirstPacketIsLost()
    ensures var s := FirstPacketLost();
            && Reachable(s) && Ready(s.a, 2) && Ready(s.b, 2) && |s.a.sent| == 1 && s.b.delivered == []
            && s.a.chan.lastReliableSequence == s.a.chan.outgoingSequence
  {
    var first, e, f := InitialSystem(0, 0, 0), Submit(true, [1]), Transmit(true, []);
    var g := Given([1]);
    assert [] + [1] == [1];
    assert g.a.chan.message.contents == [1];
    OnlyClientsOverrunTheSendBuffer(g.a.chan, []);
    var s := FirstPacketLost();
    assert [e, f][1..] == [f] && [f][1..] == [];
    assert Reaches(s, [], s) && Reaches(g, [f], s) && Reaches(first, [e, f], s);
  }

  lemma AcknowledgedIsBehind(s: System)
    requires Inv(s)
    ensures s.a.chan.incomingAcknowledged <= s.a.chan.outgoingSequence
  {
  }
}
