/** netchan_t: one end of a connection, with sequence numbers and a reliable buffer
    that is resent until the far end acknowledges it. */
module NetChannel {
  import opened Bytes
  import opened SizeBuffer

  const PACKET_HEADER := 8
  const MAX_MSGLEN := 1450
  const MIN_MTU := 1350
  const TOP_BIT := 0x8000_0000

  type bit = x: int | 0 <= x < 2
  type sequence = x: int | 0 <= x < TOP_BIT

  datatype Sock = Client | Server

  /** The value of a channel. reliable is reliable_buf up to reliable_length. */
  datatype Chan = Chan(
    sock: Sock,
    qport: uint16,
    incomingSequence: sequence,
    incomingAcknowledged: sequence,
    incomingReliableAcknowledged: bit,
    incomingReliableSequence: bit,
    outgoingSequence: sequence,
    reliableSequence: bit,
    lastReliableSequence: sequence,
    message: Buf,
    reliable: seq<byte>)

  function InitialChan(sock: Sock, qport: uint16, mtu: int): Chan {
    Chan(sock, qport, 0, 0, 0, 0, 0, 0, 0, Buf([], MessageSize(mtu), true, false), [])
  }

  /** The room Netchan_Setup gives the outgoing message: between MIN_MTU and MAX_MSGLEN, and as near as that allows to
      what the mtu leaves beside the header. */
  function MessageSize(mtu: int): (size: nat)
    ensures MIN_MTU <= size <= MAX_MSGLEN
    ensures mtu < 1 ==> size == MAX_MSGLEN
    ensures mtu >= 1 ==>
              forall n | MIN_MTU <= n <= MAX_MSGLEN :: Overhang(size, mtu) <= Overhang(n, mtu)
  {
    var wanted := if mtu < 1 then MAX_MSGLEN else mtu - PACKET_HEADER;
    if wanted < MIN_MTU then MIN_MTU else if wanted > MAX_MSGLEN then MAX_MSGLEN else wanted
  }

  /** By how much a message and its header miss the mtu. */
  function Overhang(size: nat, mtu: int): int {
    if size + PACKET_HEADER < mtu then mtu - PACKET_HEADER - size else size + PACKET_HEADER - mtu
  }

  // ---------- Netchan_Transmit ----------

  /** The far end has answered a later packet and its bit says the reliable message never arrived. */
  predicate MustResend(c: Chan) {
    c.incomingAcknowledged > c.lastReliableSequence && c.incomingReliableAcknowledged != c.reliableSequence
  }

  predicate LoadsMessage(c: Chan) {
    c.reliable == [] && c.message.contents != []
  }

  predicate SendsReliable(c: Chan) {
    MustResend(c) || LoadsMessage(c)
  }

  /** The waiting message becomes the reliable one and the sequence bit flips. */
  function Load(c: Chan): Chan {
    if LoadsMessage(c) then
      c.(reliable := c.message.contents,
         message := c.message.(contents := []),
         reliableSequence := 1 - c.reliableSequence)
    else c
  }

  function Header(c: Chan, sendReliable: bool): seq<byte> {
    Le32(c.outgoingSequence + if sendReliable then TOP_BIT else 0) +
    Le32(c.incomingSequence + TOP_BIT * c.incomingReliableSequence) +
    if c.sock == Client then Le16(c.qport) else []
  }

  datatype Transmission = Refused | SysError | Sent(chan: Chan, packet: seq<byte>)

  /** The room Netchan_Transmit gives a packet. */
  function SendSize(maxsize: nat): nat {
    if maxsize + PACKET_HEADER < MAX_MSGLEN + PACKET_HEADER then maxsize + PACKET_HEADER else MAX_MSGLEN + PACKET_HEADER
  }

  /** The packet body: the reliable part when it is due, then the unreliable part when there is room. */
  function Body(loaded: Chan, sendReliable: bool, unreliable: seq<byte>): seq<byte> {
    var reliable := if sendReliable then loaded.reliable else [];
    reliable +
    if |Header(loaded, sendReliable)| + |reliable| + |unreliable| <= SendSize(loaded.message.maxsize) then unreliable
    else []
  }

  function Transmitted(c: Chan, unreliable: seq<byte>): Transmission
    requires c.outgoingSequence + 1 < TOP_BIT
  {
    var sendReliable := SendsReliable(c);
    var loaded := Load(c);
    if c.message.overflowed then Refused
    else if |Header(loaded, sendReliable)| + (if sendReliable then |loaded.reliable| else 0)
            > SendSize(c.message.maxsize) then SysError
    else
      Sent(loaded.(outgoingSequence := c.outgoingSequence + 1,
                   lastReliableSequence := if sendReliable then c.outgoingSequence + 1 else c.lastReliableSequence),
           Header(loaded, sendReliable) + Body(loaded, sendReliable, unreliable))
  }

  // ---------- Netchan_Process ----------

  /** MSG_ReadLong: -1, without advancing, when four bytes are not left. */
  function ReadLong(packet: seq<byte>, at: nat): (uint32, nat) {
    if at + 4 > |packet| then (0xFFFF_FFFF, at)
    else (Long(packet[at], packet[at + 1], packet[at + 2], packet[at + 3]), at + 4)
  }

  /** MSG_ReadShort's effect on the read position. */
  function SkipShort(packet: seq<byte>, at: nat): nat {
    if at + 2 > |packet| then at else at + 2
  }

  datatype Packet = Packet(sequence: sequence, reliable: bit, ack: sequence, reliableAck: bit, body: seq<byte>)

  /** What the receiver sees in a packet. */
  function Parsed(sock: Sock, packet: seq<byte>): Packet {
    var (w1, at1) := ReadLong(packet, 0);
    var (w2, at2) := ReadLong(packet, at1);
    var at := if sock == Server then SkipShort(packet, at2) else at2;
    Packet(w1 % TOP_BIT, w1 / TOP_BIT, w2 % TOP_BIT, w2 / TOP_BIT, packet[at..])
  }

  predicate Accepts(c: Chan, packet: seq<byte>) {
    Parsed(c.sock, packet).sequence > c.incomingSequence
  }

  function Processed(c: Chan, packet: seq<byte>): Chan {
    var p := Parsed(c.sock, packet);
    if !Accepts(c, packet) then c
    else
      c.(incomingSequence := p.sequence,
         incomingAcknowledged := p.ack,
         incomingReliableAcknowledged := p.reliableAck,
         incomingReliableSequence :=
           if p.reliable == 1 then 1 - c.incomingReliableSequence else c.incomingReliableSequence,
         reliable := if p.reliableAck == c.reliableSequence then [] else c.reliable)
  }

  function Opposite(sock: Sock): Sock {
    if sock == Client then Server else Client
  }

  lemma ReadLongOfLe32(before: seq<byte>, c: uint32, after: seq<byte>)
    ensures ReadLong(before + Le32(c) + after, |before|) == (c, |before| + 4)
  {
    LongOfLe32(c);
    var b := Le32(c);
    var packet := before + b + after;
    assert forall i | 0 <= i < 4 :: packet[|before| + i] == b[i];
  }

  lemma SplitWord(s: sequence, top: bit)
    ensures (s + TOP_BIT * top) % TOP_BIT == s && (s + TOP_BIT * top) / TOP_BIT == top
  {
  }

  lemma ParsedOfWords(sock: Sock, w1: uint32, w2: uint32, port: seq<byte>, body: seq<byte>)
    requires |port| == if sock == Server then 2 else 0
    ensures Parsed(sock, Le32(w1) + Le32(w2) + port + body)
            == Packet(w1 % TOP_BIT, w1 / TOP_BIT, w2 % TOP_BIT, w2 / TOP_BIT, body)
  {
    var l1, l2 := Le32(w1), Le32(w2);
    var packet := l1 + l2 + port + body;
    ReadLongOfLe32([], w1, l2 + port + body);
    assert packet == [] + l1 + (l2 + port + body);
    ReadLongOfLe32(l1, w2, port + body);
    assert packet == l1 + l2 + (port + body);
    assert packet[8 + |port|..] == body;
  }

  /** What one end writes, the other end reads. */
  lemma HeaderRoundTrip(c: Chan, sendReliable: bool, body: seq<byte>)
    ensures Parsed(Opposite(c.sock), Header(c, sendReliable) + body)
            == Packet(c.outgoingSequence, if sendReliable then 1 else 0,
                      c.incomingSequence, c.incomingReliableSequence, body)
  {
    var top: bit := if sendReliable then 1 else 0;
    SplitWord(c.outgoingSequence, top);
    SplitWord(c.incomingSequence, c.incomingReliableSequence);
    ParsedOfWords(Opposite(c.sock), c.outgoingSequence + TOP_BIT * top,
                  c.incomingSequence + TOP_BIT * c.incomingReliableSequence,
                  if c.sock == Client then Le16(c.qport) else [], body);
  }

  /** The reliable bytes that the next packet owes the far end: a waiting message when there is no earlier one, or the
      earlier one when it must be sent again. */
  function Due(c: Chan): seq<byte> {
    if c.reliable == [] then c.message.contents else if MustResend(c) then c.reliable else []
  }

  function HeaderSize(sock: Sock): nat {
    if sock == Client then 10 else 8
  }

  /** What a packet can hold besides its eight bytes of sequence numbers. */
  function Room(maxsize: nat): nat {
    if maxsize < MAX_MSGLEN then maxsize else MAX_MSGLEN
  }

  /** The datagram, if there is room for all of it after the reliable bytes, and else nothing. */
  function Fitting(sock: Sock, maxsize: nat, reliable: seq<byte>, data: seq<byte>): seq<byte> {
    if HeaderSize(sock) + |reliable| + |data| <= Room(maxsize) + 8 then data else []
  }

  lemma BodyIsWhatFits(c: Chan, data: seq<byte>)
    ensures Body(Load(c), SendsReliable(c), data) == Due(c) + Fitting(c.sock, c.message.maxsize, Due(c), data)
  {
    assert |Header(Load(c), SendsReliable(c))| == HeaderSize(c.sock);
    assert Due(c) == if SendsReliable(c) then Load(c).reliable else [];
  }

  /** A packet byte by byte: sequence number and bit, acknowledgement and bit, a client's qport, the reliable bytes that
      are due, and the datagram if it fits. */
  lemma PacketLayout(c: Chan, data: seq<byte>)
    requires c.outgoingSequence + 1 < TOP_BIT && Transmitted(c, data).Sent?
    ensures var packet, h := Transmitted(c, data).packet, HeaderSize(c.sock);
            && |packet| >= h
            && LittleEndian(packet[..4]) == c.outgoingSequence + (if SendsReliable(c) then TOP_BIT else 0)
            && LittleEndian(packet[4..8]) == c.incomingSequence + TOP_BIT * c.incomingReliableSequence
            && (c.sock == Client ==> LittleEndian(packet[8..10]) == c.qport)
            && packet[h..] == Due(c) + Fitting(c.sock, c.message.maxsize, Due(c), data)
  {
    BodyIsWhatFits(c, data);
    hide LittleEndian, Body, Due, Fitting, Le32, Le16;
    var w1: uint32 := c.outgoingSequence + if SendsReliable(c) then TOP_BIT else 0;
    var w2: uint32 := c.incomingSequence + TOP_BIT * c.incomingReliableSequence;
    Le32IsLittleEndian(w1);
    Le32IsLittleEndian(w2);
    Le16IsLittleEndian(c.qport);
    Le32Length(w1);
    Le32Length(w2);
    Le16Length(c.qport);
    PartsOf(Le32(w1), Le32(w2), if c.sock == Client then Le16(c.qport) else [], Body(Load(c), SendsReliable(c), data));
  }

  lemma PartsOf(w1: seq<byte>, w2: seq<byte>, port: seq<byte>, body: seq<byte>)
    requires |w1| == |w2| == 4
    ensures var packet := w1 + w2 + port + body;
            packet[..4] == w1 && packet[4..8] == w2 && packet[8..8 + |port|] == port && packet[8 + |port|..] == body
  {
  }

  /** The body that the far end reads in a packet. */
  lemma BodyArrives(c: Chan, data: seq<byte>)
    requires c.outgoingSequence + 1 < TOP_BIT && Transmitted(c, data).Sent?
    ensures Parsed(Opposite(c.sock), Transmitted(c, data).packet).body
            == Due(c) + Fitting(c.sock, c.message.maxsize, Due(c), data)
  {
    PacketLayout(c, data);
  }

  /** Whether a transmission ends in Sys_Error: never for a server, and for a client exactly when
      the reliable part leaves fewer than two of the maxsize bytes for the qport it also sends. */
  lemma OnlyClientsOverrunTheSendBuffer(c: Chan, unreliable: seq<byte>)
    requires c.outgoingSequence + 1 < TOP_BIT && !c.message.overflowed
    requires MIN_MTU <= c.message.maxsize <= MAX_MSGLEN
    requires |c.reliable| <= c.message.maxsize && |c.message.contents| <= c.message.maxsize
    ensures Transmitted(c, unreliable).SysError? <==>
              c.sock == Client && SendsReliable(c) && |Load(c).reliable| > c.message.maxsize - 2
  {
  }

  /** The part of Netchan_Transmit that fills the send buffer: the two words, a client's qport,
      the reliable part when it is due and the unreliable part when it fits. */
  method WritePacket(maxsize: nat, w1: seq<byte>, w2: seq<byte>, port: seq<byte>, reliable: seq<byte>, data: seq<byte>)
    returns (ok: bool, packet: seq<byte>)
    requires |w1| == |w2| == 4 && |port| <= 2 <= maxsize
    ensures var header := w1 + w2 + port;
            ok == (|header| + |reliable| <= SendSize(maxsize)) &&
            (ok ==> packet == header + (reliable +
                              if |header| + |reliable| + |data| <= SendSize(maxsize) then data else []))
  {
    var send := new SizeBuf(MAX_MSGLEN + PACKET_HEADER, SendSize(maxsize), false);
    var _ := send.Write(w1);
    var _ := send.Write(w2);
    var _ := send.Write(port);
    ghost var header := w1 + w2 + port;
    assert send.Value() == Buf(header, SendSize(maxsize), false, false);
    packet := [];
    ok := send.Write(reliable);
    if !ok {
      return;
    }
    ghost var filled := header + reliable;
    assert send.Value().contents == filled;
    if send.maxsize - send.cursize >= |data| {
      var _ := send.Write(data);
    }
    packet := send.data[..send.cursize];
    ghost var rest := if |filled| + |data| <= SendSize(maxsize) then data else [];
    assert packet == filled + rest == header + (reliable + rest);
  }

  class NetChan {
    const sock: Sock
    const qport: uint16
    var incomingSequence: sequence
    var incomingAcknowledged: sequence
    var incomingReliableAcknowledged: bit
    var incomingReliableSequence: bit
    var outgoingSequence: sequence
    var reliableSequence: bit
    var lastReliableSequence: sequence
    const message: SizeBuf
    const reliableBuf: array<byte>
    var reliableLength: nat

    ghost predicate Valid()
      reads this, message
    {
      message.Valid() && reliableBuf != message.data &&
      MIN_MTU <= message.maxsize <= message.data.Length == MAX_MSGLEN == reliableBuf.Length &&
      reliableLength <= message.maxsize && message.allowOverflow
    }

    ghost function Value(): Chan
      requires Valid()
      reads this, message, message.data, reliableBuf
    {
      Chan(sock, qport, incomingSequence, incomingAcknowledged, incomingReliableAcknowledged,
           incomingReliableSequence, outgoingSequence, reliableSequence, lastReliableSequence,
           message.Value(), reliableBuf[..reliableLength])
    }

    /** Netchan_Setup */
    constructor (sock: Sock, qport: uint16, mtu: int)
      ensures Valid() && fresh(message) && fresh(message.data) && fresh(reliableBuf)
      ensures Value() == InitialChan(sock, qport, mtu)
    {
      this.sock, this.qport := sock, qport;
      incomingSequence, incomingAcknowledged := 0, 0;
      incomingReliableAcknowledged, incomingReliableSequence := 0, 0;
      outgoingSequence, reliableSequence, lastReliableSequence := 0, 0, 0;
      message := new SizeBuf(MAX_MSGLEN, MessageSize(mtu), true);
      reliableBuf := new byte[MAX_MSGLEN];
      reliableLength := 0;
    }

    /** The part of Netchan_Transmit that decides what to send. */
    method StageReliable() returns (sendReliable: bool)
      requires Valid()
      modifies this, message, reliableBuf
      ensures Valid()
      ensures sendReliable == SendsReliable(old(Value())) && Value() == Load(old(Value()))
    {
      sendReliable := false;
      if incomingAcknowledged > lastReliableSequence && incomingReliableAcknowledged != reliableSequence {
        sendReliable := true;
      }
      if reliableLength == 0 && message.cursize != 0 {
        forall i | 0 <= i < message.cursize {
          reliableBuf[i] := message.data[i];
        }
        reliableLength := message.cursize;
        message.cursize := 0;
        reliableSequence := 1 - reliableSequence;
        sendReliable := true;
        assert reliableBuf[..reliableLength] == old(message.data[..message.cursize]);
      }
    }

    /** Netchan_Transmit: sent says whether a packet went out, fatal whether Sys_Error stopped it. */
    method Transmit(data: seq<byte>) returns (sent: bool, fatal: bool, packet: seq<byte>)
      requires Valid() && outgoingSequence + 1 < TOP_BIT
      modifies this, message, reliableBuf
      ensures Valid()
      ensures var t := Transmitted(old(Value()), data);
              sent == t.Sent? && fatal == t.SysError? &&
              (t.Sent? ==> packet == t.packet && Value() == t.chan) &&
              (t.Refused? ==> Value() == old(Value()))
      ensures sent ==>
                Parsed(Opposite(sock), packet).body
                == old(Due(Value())) + Fitting(sock, old(message.maxsize), old(Due(Value())), data)
    {
      hide Due, Fitting, Parsed, LittleEndian, Le32, Le16;
      sent, fatal, packet := false, false, [];
      ghost var before := Value();
      if message.overflowed {
        return;
      }
      var sendReliable := StageReliable();
      ghost var loaded := Value();
      var w1: uint32 := outgoingSequence + if sendReliable then TOP_BIT else 0;
      var w2: uint32 := incomingSequence + TOP_BIT * incomingReliableSequence;
      var bytes1, bytes2 := Le32(w1), Le32(w2);
      Le32Length(w1);
      Le32Length(w2);
      Le16Length(qport);
      var port := if sock == Client then Le16(qport) else [];
      var reliable := if sendReliable then reliableBuf[..reliableLength] else [];
      assert Header(loaded, sendReliable) == bytes1 + bytes2 + port;
      sent, packet := WritePacket(message.maxsize, bytes1, bytes2, port, reliable, data);
      fatal := !sent;
      outgoingSequence := outgoingSequence + 1;
      if sendReliable {
        lastReliableSequence := outgoingSequence;
      }
      if sent {
        BodyArrives(before, data);
      }
    }

    /** Netchan_Process on a packet from the remote address: whether it is accepted. */
    method Process(packet: seq<byte>) returns (accepted: bool)
      requires Valid()
      modifies this
      ensures Valid() && accepted == Accepts(old(Value()), packet)
      ensures Value() == Processed(old(Value()), packet)
    {
      var (w1, at1) := ReadLong(packet, 0);
      var (w2, _) := ReadLong(packet, at1);
      var reliableMessage, reliableAck := w1 / TOP_BIT, w2 / TOP_BIT;
      var sequence, sequenceAck := w1 % TOP_BIT, w2 % TOP_BIT;
      if sequence <= incomingSequence {
        return false;
      }
      if reliableAck == reliableSequence {
        reliableLength := 0;
      }
      incomingSequence := sequence;
      incomingAcknowledged := sequenceAck;
      incomingReliableAcknowledged := reliableAck;
      if reliableMessage == 1 {
        incomingReliableSequence := 1 - incomingReliableSequence;
      }
      accepted := true;
    }
  }
}
