/** RCON framing: `writePacket` and `readPacket` (backend/internal/minecraft/rcon.go). */
module Rcon {
  import opened Wrappers

  /** 4 MiB. */
  const MAX_PACKET_SIZE: nat := 4_194_304

  datatype Packet = Packet(id: Int32, kind: Int32, payload: Bytes)

  datatype RconError = TooLarge | EndOfStream | BadLength | BadTerminator

  predicate Sendable(p: Packet) {
    |p.payload| <= MAX_PACKET_SIZE - 10
  }

  // ---- little-endian two's complement ----

  function Unpack(u: nat): (bytes: Bytes)
    requires u < 0x1_0000_0000
    ensures |bytes| == 4
  {
    [u % 256, u / 256 % 256, u / 256 / 256 % 256, u / 256 / 256 / 256]
  }

  function Pack(bytes: Bytes): (u: nat)
    requires |bytes| == 4
    ensures u < 0x1_0000_0000
  {
    var b0: nat, b1: nat, b2: nat, b3: nat := bytes[0], bytes[1], bytes[2], bytes[3];
    b0 + 256 * (b1 + 256 * (b2 + 256 * b3))
  }

  lemma Peel(b: Byte, rest: nat)
    ensures (b + 256 * rest) % 256 == b && (b + 256 * rest) / 256 == rest
  {
  }

  lemma UnpackUndoesPack(bytes: Bytes)
    requires |bytes| == 4
    ensures Unpack(Pack(bytes)) == bytes
  {
    var b1: nat, b2: nat, b3: nat := bytes[1], bytes[2], bytes[3];
    Peel(b2, b3);
    Peel(b1, b2 + 256 * b3);
    Peel(bytes[0], b1 + 256 * (b2 + 256 * b3));
  }

  lemma PackUndoesUnpack(u: nat)
    requires u < 0x1_0000_0000
    ensures Pack(Unpack(u)) == u
  {
  }

  function Encode32(value: Int32): (bytes: Bytes)
    ensures |bytes| == 4
  {
    Unpack(if value < 0 then value + 0x1_0000_0000 else value)
  }

  function Decode32(bytes: Bytes): (value: Int32)
    requires |bytes| == 4
  {
    var u := Pack(bytes);
    if u >= 0x8000_0000 then u - 0x1_0000_0000 else u
  }

  lemma Decode32UndoesEncode32(value: Int32)
    ensures Decode32(Encode32(value)) == value
  {
    hide Pack, Unpack;
    PackUndoesUnpack(if value < 0 then value + 0x1_0000_0000 else value);
  }

  lemma Encode32UndoesDecode32(bytes: Bytes)
    requires |bytes| == 4
    ensures Encode32(Decode32(bytes)) == bytes
  {
    hide Pack, Unpack;
    UnpackUndoesPack(bytes);
  }

  // ---- frames ----

  /** Length, identifier, type, payload and two zero bytes. */
  function Frame(p: Packet): Bytes
    requires Sendable(p)
  {
    Encode32(|p.payload| + 10) + (Encode32(p.id) + (Encode32(p.kind) + (p.payload + [0, 0])))
  }

  /** Four bytes, the least significant first, stand for a number modulo 2^32. */
  predicate StandsFor(bytes: Bytes, value: int)
    requires |bytes| == 4
  {
    var b0: int, b1: int, b2: int, b3: int := bytes[0], bytes[1], bytes[2], bytes[3];
    var u := b0 + 256 * b1 + 65_536 * b2 + 16_777_216 * b3;
    u == value || u == value + 4_294_967_296
  }

  /** A packet byte by byte: the length of what follows, identifier and type in four bytes each,
      the payload and two zero bytes. */
  predicate OnTheWire(frame: Bytes, p: Packet) {
    && |frame| == |p.payload| + 14
    && StandsFor(frame[0..4], |p.payload| + 10) && StandsFor(frame[4..8], p.id) && StandsFor(frame[8..12], p.kind)
    && frame[12..|frame| - 2] == p.payload && frame[|frame| - 2] == 0 && frame[|frame| - 1] == 0
  }

  lemma Encode32StandsFor(value: Int32)
    ensures StandsFor(Encode32(value), value)
  {
    PackUndoesUnpack(if value < 0 then value + 0x1_0000_0000 else value);
    hide Unpack;
  }

  lemma FrameOnTheWire(p: Packet)
    requires Sendable(p)
    ensures OnTheWire(Frame(p), p)
  {
    Encode32StandsFor(|p.payload| + 10);
    Encode32StandsFor(p.id);
    Encode32StandsFor(p.kind);
    hide Encode32, StandsFor;
    FieldsOf(Encode32(|p.payload| + 10), Encode32(p.id), Encode32(p.kind), p.payload);
  }

  lemma FieldsOf(a: Bytes, b: Bytes, c: Bytes, payload: Bytes)
    requires |a| == |b| == |c| == 4
    ensures var frame := a + (b + (c + (payload + [0, 0])));
            && |frame| == |payload| + 14 && frame[0..4] == a && frame[4..8] == b && frame[8..12] == c
            && frame[12..|frame| - 2] == payload && frame[|frame| - 2] == 0 && frame[|frame| - 1] == 0
  {
  }

  lemma Assembled(head: Bytes, p: Packet)
    requires Sendable(p) && |head| == 12
    requires head[..4] == Encode32(|p.payload| + 10) && head[4..8] == Encode32(p.id) && head[8..12] == Encode32(p.kind)
    ensures head + (p.payload + [0, 0]) == Frame(p) && OnTheWire(Frame(p), p)
  {
    FrameOnTheWire(p);
    hide Encode32, OnTheWire, StandsFor;
    assert head == head[..4] + (head[4..8] + head[8..12]);
    InThree(head[..4], head[4..8], head[8..12], p.payload + [0, 0]);
  }

  lemma InThree(a: Bytes, b: Bytes, c: Bytes, d: Bytes)
    ensures a + (b + c) + d == a + (b + (c + d))
  {
  }

  lemma AppendedLast(sent: Bytes, frame: Bytes)
    ensures (sent + frame)[|sent|..] == frame && (sent + frame)[..|sent|] == sent
  {
  }

  /** Reading one packet from a stream: the outcome and what is left unread. */
  function Decode(stream: Bytes): (r: (Result<Packet, RconError>, Bytes))
    ensures r.0.Success? ==> |r.1| < |stream|
  {
    if |stream| < 4 then (Failure(EndOfStream), [])
    else
      var length := Decode32(stream[..4]);
      if length < 10 || length > MAX_PACKET_SIZE then (Failure(BadLength), stream[4..])
      else if |stream| < 4 + length then (Failure(EndOfStream), [])
      else
        var packet, rest := stream[4..4 + length], stream[4 + length..];
        if packet[length - 2] != 0 || packet[length - 1] != 0 then (Failure(BadTerminator), rest)
        else (Success(Packet(Decode32(packet[0..4]), Decode32(packet[4..8]), packet[8..length - 2])), rest)
  }

  /** The writing end of a connection. */
  class Writer {
    var sent: Bytes

    constructor ()
      ensures sent == []
    {
      sent := [];
    }

    method WritePacket(p: Packet) returns (error: Option<RconError>)
      modifies this
      ensures Sendable(p) ==> error.None? && sent == old(sent) + Frame(p)
      ensures !Sendable(p) ==> error == Some(TooLarge) && sent == old(sent)
      ensures error.None? <==> |p.payload| <= 4_194_294
      ensures error.None? ==> OnTheWire(sent[|old(sent)|..], p) && sent[..|old(sent)|] == old(sent)
    {
      hide OnTheWire, Frame, Encode32;
      if |p.payload| > MAX_PACKET_SIZE - 10 {
        return Some(TooLarge);
      }
      var fields: seq<Int32> := [|p.payload| + 10, p.id, p.kind];
      var buffer: Bytes := [];
      for i := 0 to 3
        invariant |buffer| == 4 * i
        invariant i >= 1 ==> buffer[..4] == Encode32(fields[0])
        invariant i >= 2 ==> buffer[4..8] == Encode32(fields[1])
        invariant i >= 3 ==> buffer[8..12] == Encode32(fields[2])
      {
        buffer := buffer + Encode32(fields[i]);
      }
      Assembled(buffer, p);
      AppendedLast(sent, Frame(p));
      buffer := buffer + (p.payload + [0, 0]);
      sent := sent + buffer;
      return None;
    }
  }

  /** The reading end of a connection. */
  class Reader {
    var unread: Bytes

    constructor (stream: Bytes)
      ensures unread == stream
    {
      unread := stream;
    }

    /** `io.ReadFull`: all the bytes asked for, or nothing is left. */
    method ReadFull(n: nat) returns (bytes: Option<Bytes>)
      modifies this
      ensures |old(unread)| >= n ==> bytes == Some(old(unread)[..n]) && unread == old(unread)[n..]
      ensures |old(unread)| < n ==> bytes.None? && unread == []
    {
      if |unread| < n {
        unread := [];
        return None;
      }
      bytes := Some(unread[..n]);
      unread := unread[n..];
    }

    method ReadPacket() returns (r: Result<Packet, RconError>)
      modifies this
      ensures (r, unread) == Decode(old(unread))
    {
      var head := ReadFull(4);
      if head.None? {
        return Failure(EndOfStream);
      }
      var length := Decode32(head.value);
      if length < 10 || length > MAX_PACKET_SIZE {
        return Failure(BadLength);
      }
      var body := ReadFull(length);
      if body.None? {
        return Failure(EndOfStream);
      }
      var packet := body.value;
      assert packet == old(unread)[4..4 + length];
      if packet[|packet| - 2] != 0 || packet[|packet| - 1] != 0 {
        return Failure(BadTerminator);
      }
      return Success(Packet(Decode32(packet[0..4]), Decode32(packet[4..8]), packet[8..|packet| - 2]));
    }
  }

  // ---- bijection ----

  /** A written packet is read back, and what follows it is left alone. */
  lemma DecodeUndoesFrame(p: Packet, suffix: Bytes)
    requires Sendable(p)
    ensures Decode(Frame(p) + suffix) == (Success(p), suffix)
  {
    var length := |p.payload| + 10;
    var stream := Frame(p) + suffix;
    Decode32UndoesEncode32(length);
    Decode32UndoesEncode32(p.id);
    Decode32UndoesEncode32(p.kind);
    hide Encode32, Decode32;
    assert stream[..4] == Encode32(length);
    var packet := stream[4..4 + length];
    assert packet == Encode32(p.id) + Encode32(p.kind) + p.payload + [0, 0];
    assert packet[0..4] == Encode32(p.id) && packet[4..8] == Encode32(p.kind);
    assert packet[8..length - 2] == p.payload;
    assert stream[4 + length..] == suffix;
  }

  /** Every frame that is accepted is the one `writePacket` writes for its packet. */
  lemma FrameUndoesDecode(stream: Bytes)
    requires Decode(stream).0.Success?
    ensures Sendable(Decode(stream).0.value)
    ensures Frame(Decode(stream).0.value) + Decode(stream).1 == stream
    ensures |Decode(stream).0.value.payload| <= 4_194_294
  {
    hide Encode32, Decode32;
    var length := Decode32(stream[..4]);
    var packet := stream[4..4 + length];
    Encode32UndoesDecode32(stream[..4]);
    PacketParts(packet);
    assert stream == stream[..4] + (packet + stream[4 + length..]);
    var p := Decode(stream).0.value;
    assert Frame(p) == stream[..4] + packet;
  }

  /** A terminated packet is its two numbers, its payload and the terminator. */
  lemma PacketParts(packet: Bytes)
    requires |packet| >= 10 && packet[|packet| - 2] == packet[|packet| - 1] == 0
    ensures var id, kind := Decode32(packet[0..4]), Decode32(packet[4..8]);
            packet == Encode32(id) + (Encode32(kind) + (packet[8..|packet| - 2] + [0, 0]))
  {
    hide Encode32, Decode32;
    Encode32UndoesDecode32(packet[0..4]);
    Encode32UndoesDecode32(packet[4..8]);
  }

  function Frames(packets: seq<Packet>): Bytes
    requires forall p | p in packets :: Sendable(p)
  {
    if packets == [] then [] else Frame(packets[0]) + Frames(packets[1..])
  }

  function DecodeAll(stream: Bytes): (seq<Packet>, Bytes)
    decreases |stream|
  {
    var first := Decode(stream);
    if first.0.Failure? then ([], stream)
    else
      var more := DecodeAll(first.1);
      ([first.0.value] + more.0, more.1)
  }

  /** Frames sent one after the other decode to exactly the packets sent. */
  lemma {:induction false} StreamDecodes(packets: seq<Packet>)
    requires forall p | p in packets :: Sendable(p)
    ensures DecodeAll(Frames(packets)) == (packets, [])
    decreases |packets|
  {
    if packets != [] {
      DecodeUndoesFrame(packets[0], Frames(packets[1..]));
      assert |Frame(packets[0])| >= 14;
      hide Frame, Decode;
      StreamDecodes(packets[1..]);
      assert packets == [packets[0]] + packets[1..];
    }
  }
}
