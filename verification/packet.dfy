/** The wire format of praxis2/src/packet.c: serialising, and decoding in two halves. */
module Packets {
  import opened Words
  import Bits

  const CTRL: byte := 128
  const RPLY: byte := 2
  const LKUP: byte := 1

  const ACK: byte := 8
  const GET: byte := 4
  const SET: byte := 2
  const DEL: byte := 1

  const HEADER_LEN := 7

  /** The C struct. `key` and `value` are empty until the body has been decoded. */
  datatype Packet = Packet(
    flags: byte,
    keyLen: uint16, valueLen: uint32, key: Bytes, value: Bytes,
    hashId: uint16, nodeId: uint16, nodeIp: uint32, nodePort: uint16)

  function NewPacket(flags: byte): Packet {
    Packet(flags, 0, 0, [], [], 0, 0, 0, 0)
  }

  predicate IsControl(p: Packet) {
    Has(p.flags, CTRL)
  }

  /** The two buffers hold as many bytes as the length fields say. */
  predicate Filled(p: Packet) {
    |p.key| == p.keyLen && |p.value| == p.valueLen
  }

  /** The number of body bytes the server waits for. The sum is a 32-bit one. */
  function BodySize(p: Packet): uint32 {
    if !IsControl(p) then (p.keyLen + p.valueLen) % 0x1_0000_0000 else 4
  }

  // ---------- serialising ----------

  function SerializeData(p: Packet): Bytes {
    [p.flags] + Big16(p.keyLen) + Big32(p.valueLen) + p.key + p.value
  }

  function SerializeCtrl(p: Packet): Bytes {
    [p.flags] + Big16(p.hashId) + Big16(p.nodeId) + Big32(p.nodeIp) + Big16(p.nodePort)
  }

  function Serialize(p: Packet): Bytes {
    if IsControl(p) then SerializeCtrl(p) else SerializeData(p)
  }

  /** memcpy into a buffer at an offset. */
  method CopyInto(buffer: array<byte>, at: nat, src: Bytes)
    requires at + |src| <= buffer.Length
    modifies buffer
    ensures buffer[..] == old(buffer[..at]) + src + old(buffer[at + |src|..])
  {
    var i := 0;
    while i < |src|
      invariant 0 <= i <= |src|
      invariant buffer[..at] == old(buffer[..at])
      invariant buffer[at..at + i] == src[..i]
      invariant forall k :: at + i <= k < buffer.Length ==> buffer[k] == old(buffer[k])
    {
      buffer[at + i] := src[i];
      i := i + 1;
    }
    assert buffer[at + i..] == old(buffer[at + |src|..]);
    assert buffer[..] == buffer[..at] + buffer[at..at + i] + buffer[at + i..];
  }

  method PacketSerializeData(p: Packet) returns (buffer: array<byte>)
    requires Filled(p)
    ensures fresh(buffer) && buffer[..] == SerializeData(p)
  {
    buffer := new byte[HEADER_LEN + p.keyLen + p.valueLen];
    buffer[0] := p.flags;
    buffer[1] := p.keyLen / 0x100 % 0x100;
    buffer[2] := p.keyLen % 0x100;
    buffer[3] := p.valueLen / 0x100_0000 % 0x100;
    buffer[4] := p.valueLen / 0x1_0000 % 0x100;
    buffer[5] := p.valueLen / 0x100 % 0x100;
    buffer[6] := p.valueLen % 0x100;
    ghost var head := [p.flags] + Big16(p.keyLen) + Big32(p.valueLen);
    assert buffer[..7] == head;
    if p.keyLen != 0 {
      CopyInto(buffer, 7, p.key);
    }
    assert buffer[..7] == head && buffer[7..7 + p.keyLen] == p.key;
    if p.valueLen != 0 {
      CopyInto(buffer, 7 + p.keyLen, p.value);
    }
    assert buffer[..7 + p.keyLen] == head + p.key;
    assert buffer[7 + p.keyLen..] == p.value;
    assert buffer[..] == buffer[..7 + p.keyLen] + buffer[7 + p.keyLen..];
  }

  method PacketSerializeCtrl(p: Packet) returns (buffer: array<byte>)
    ensures fresh(buffer) && buffer[..] == SerializeCtrl(p)
  {
    buffer := new byte[11];
    buffer[0] := p.flags;
    buffer[1] := p.hashId / 0x100 % 0x100;
    buffer[2] := p.hashId % 0x100;
    buffer[3] := p.nodeId / 0x100 % 0x100;
    buffer[4] := p.nodeId % 0x100;
    buffer[5] := p.nodeIp / 0x100_0000 % 0x100;
    buffer[6] := p.nodeIp / 0x1_0000 % 0x100;
    buffer[7] := p.nodeIp / 0x100 % 0x100;
    buffer[8] := p.nodeIp % 0x100;
    buffer[9] := p.nodePort / 0x100 % 0x100;
    buffer[10] := p.nodePort % 0x100;
  }

  // ---------- decoding ----------

  /** The first seven bytes; of a control packet's address only the upper half is known yet. */
  function DecodeHdr(buffer: Bytes): Option<Packet> {
    if |buffer| < HEADER_LEN then None
    else
      var p := NewPacket(buffer[0]);
      if !IsControl(p) then
        Some(p.(keyLen := From16(buffer[1], buffer[2]),
                valueLen := From32(buffer[3], buffer[4], buffer[5], buffer[6])))
      else
        Some(p.(hashId := From16(buffer[1], buffer[2]),
                nodeId := From16(buffer[3], buffer[4]),
                nodeIp := From32(buffer[5], buffer[6], 0, 0)))
  }

  /** What decoding a body ends in. `Overread` is a read past the end of the buffer. */
  datatype Decoded = Complete(packet: Packet) | Rejected | Overread

  lemma Bits32()
    ensures Bits.Pow2(16) == 0x1_0000 && Bits.Pow2(32) == 0x1_0000_0000
  {
    assert Bits.Pow2(8) == 0x100;
    assert Bits.Pow2(12) == 0x1000;
    assert Bits.Pow2(16) == 0x1_0000;
    assert Bits.Pow2(20) == 0x10_0000;
    assert Bits.Pow2(24) == 0x100_0000;
    assert Bits.Pow2(28) == 0x1000_0000;
  }

  /** `claimed` is the length the caller passes, `buffer` the bytes that are really there. */
  function DecodeBody(p: Packet, buffer: Bytes, claimed: nat): Decoded {
    if IsControl(p) then
      if |buffer| < 4 then Overread
      else
        var low := From16(buffer[0], buffer[1]);
        Bits32();
        Bits.OrBound(p.nodeIp, low, 32);
        Complete(p.(nodeIp := Bits.Or(p.nodeIp, low), nodePort := From16(buffer[2], buffer[3])))
    else if claimed < BodySize(p) then Rejected
    else if |buffer| < p.keyLen + p.valueLen then Overread
    else
      Complete(p.(key := buffer[..p.keyLen],
                  value := buffer[p.keyLen..p.keyLen + p.valueLen]))
  }

  /** Decoding one buffer. The body check is given the length of the whole buffer. */
  function PacketDecode(buffer: Bytes): Decoded {
    match DecodeHdr(buffer)
    case None => Rejected
    case Some(p) => DecodeBody(p, buffer[HEADER_LEN..], |buffer|)
  }

  // ---------- encode and decode are inverse ----------

  /** The fields that travel: a data packet's control fields are zero, and the other way round. */
  function Travelling(p: Packet): Packet {
    if IsControl(p)
    then p.(keyLen := 0, valueLen := 0, key := [], value := [])
    else p.(hashId := 0, nodeId := 0, nodeIp := 0, nodePort := 0)
  }

  /** The address half in the header and the half in the body make up the address. */
  lemma IpHalvesJoin(b0: byte, b1: byte, b2: byte, b3: byte)
    ensures Bits.Or(From32(b0, b1, 0, 0), From16(b2, b3)) == From32(b0, b1, b2, b3)
  {
    hide Bits.Or;
    var high := From32(b0, b1, 0, 0);
    Bits32();
    assert high == (b0 * 0x100 + b1) * 0x1_0000;
    Bits.OrOfDisjoint(high, 16, From16(b2, b3));
  }

  lemma IpHalves(ip: uint32)
    ensures var b := Big32(ip);
      Bits.Or(From32(b[0], b[1], 0, 0), From16(b[2], b[3])) == ip
  {
    hide *;
    var b := Big32(ip);
    IpHalvesJoin(b[0], b[1], b[2], b[3]);
    Big32Inverse(ip, 0, 0, 0, 0);
  }

  lemma CtrlRoundTrip(p: Packet, rest: Bytes)
    requires IsControl(p)
    ensures PacketDecode(SerializeCtrl(p) + rest) == Complete(Travelling(p))
  {
    hide Big16, Big32, From16, From32, Bits.Or;
    var b := SerializeCtrl(p) + rest;
    Big16Inverse(p.hashId, 0, 0);
    Big16Inverse(p.nodeId, 0, 0);
    Big16Inverse(p.nodePort, 0, 0);
    IpHalves(p.nodeIp);
    var h, i, a, t := Big16(p.hashId), Big16(p.nodeId), Big32(p.nodeIp), Big16(p.nodePort);
    assert b == [p.flags, h[0], h[1], i[0], i[1], a[0], a[1], a[2], a[3], t[0], t[1]] + rest;
    assert b[7..][..4] == [a[2], a[3], t[0], t[1]];
  }

  lemma DataHeaderDecodes(p: Packet, rest: Bytes)
    requires !IsControl(p) && Filled(p)
    ensures var b := SerializeData(p) + rest;
      |b| >= 7 && b[7..] == p.key + p.value + rest
      && DecodeHdr(b[..7]) == DecodeHdr(b) == Some(Travelling(p).(key := [], value := []))
  {
    hide Big16, Big32, From16, From32;
    var b := SerializeData(p) + rest;
    var k, v := Big16(p.keyLen), Big32(p.valueLen);
    Big16Inverse(p.keyLen, 0, 0);
    Big32Inverse(p.valueLen, 0, 0, 0, 0);
    assert b == [p.flags, k[0], k[1], v[0], v[1], v[2], v[3]] + (p.key + p.value + rest);
  }

  lemma DataRoundTrip(p: Packet, rest: Bytes)
    requires !IsControl(p) && Filled(p)
    ensures PacketDecode(SerializeData(p) + rest) == Complete(Travelling(p))
  {
    hide SerializeData, DecodeHdr;
    DataHeaderDecodes(p, rest);
    var body := (SerializeData(p) + rest)[7..];
    assert body[..p.keyLen] == p.key;
    assert body[p.keyLen..p.keyLen + p.valueLen] == p.value;
  }

  /** Decode undoes encode, whatever follows in the buffer. */
  lemma DecodeUndoesSerialize(p: Packet, rest: Bytes)
    requires IsControl(p) || Filled(p)
    ensures PacketDecode(Serialize(p) + rest) == Complete(Travelling(p))
  {
    if IsControl(p) {
      CtrlRoundTrip(p, rest);
    } else {
      DataRoundTrip(p, rest);
    }
  }

  lemma CtrlBytes(b: Bytes, p: Packet)
    requires PacketDecode(b) == Complete(p) && IsControl(p)
    ensures Serialize(p) <= b
  {
    hide Big16, Big32, From16, From32, Bits.Or;
    Big16Inverse(0, b[1], b[2]);
    Big16Inverse(0, b[3], b[4]);
    Big16Inverse(0, b[9], b[10]);
    Big32Inverse(0, b[5], b[6], b[7], b[8]);
    IpHalvesJoin(b[5], b[6], b[7], b[8]);
    assert b[7..][..4] == [b[7], b[8], b[9], b[10]];
    assert Serialize(p) == b[..11];
  }

  lemma DataBytes(b: Bytes, p: Packet)
    requires PacketDecode(b) == Complete(p) && !IsControl(p)
    ensures Serialize(p) <= b
  {
    hide Big16, Big32, From16, From32;
    Big16Inverse(0, b[1], b[2]);
    Big32Inverse(0, b[3], b[4], b[5], b[6]);
    var n := p.keyLen + p.valueLen;
    assert p.key + p.value == b[7..][..n];
    assert Serialize(p) == b[..7] + b[7..][..n] == b[..7 + n];
  }

  /** Encode undoes decode: a decoded packet serialises to the bytes it was read from. */
  lemma SerializeUndoesDecode(b: Bytes)
    requires PacketDecode(b).Complete?
    ensures var p := PacketDecode(b).packet;
      Travelling(p) == p && (IsControl(p) || Filled(p)) && Serialize(p) <= b
  {
    hide Serialize, SerializeCtrl, SerializeData, Big16, Big32, From16, From32, Bits.Or;
    var p := PacketDecode(b).packet;
    if IsControl(p) {
      CtrlBytes(b, p);
    } else {
      DataBytes(b, p);
    }
  }

  lemma TravellingBytes(p: Packet)
    ensures Serialize(Travelling(p)) == Serialize(p)
  {
  }

  /** What stands behind a complete packet makes no difference. */
  lemma MoreBehind(b: Bytes, rest: Bytes)
    requires PacketDecode(b).Complete?
    ensures PacketDecode(b + rest) == PacketDecode(b)
  {
    hide From16, From32, Bits.Or;
    assert (b + rest)[HEADER_LEN..] == b[HEADER_LEN..] + rest;
    var p := DecodeHdr(b).value;
    assert DecodeHdr(b + rest) == DecodeHdr(b);
    if !IsControl(p) {
      var (s, n) := (b[HEADER_LEN..], p.keyLen + p.valueLen);
      assert (s + rest)[..p.keyLen] == s[..p.keyLen];
      assert (s + rest)[p.keyLen..n] == s[p.keyLen..n];
    }
  }

  /** No part of a packet decodes to a packet. */
  lemma PartIncomplete(p: Packet, n: nat)
    requires (IsControl(p) || Filled(p)) && n < |Serialize(p)|
    ensures !PacketDecode(Serialize(p)[..n]).Complete?
  {
    hide PacketDecode, Serialize;
    var b := Serialize(p)[..n];
    if PacketDecode(b).Complete? {
      DecodeUndoesSerialize(p, []);
      assert Serialize(p) + [] == Serialize(p) == b + Serialize(p)[n..];
      MoreBehind(b, Serialize(p)[n..]);
      SerializeUndoesDecode(b);
      assert Serialize(Travelling(p)) <= b;
      TravellingBytes(p);
    }
  }

  /** One hop decodes a packet and forwards it unchanged. */
  function Hop(p: Packet): Decoded {
    PacketDecode(Serialize(p))
  }

  function Hops(p: Packet, n: nat): Decoded
    decreases n
  {
    if n == 0 then Complete(p)
    else if Hop(p).Complete? then Hops(Hop(p).packet, n - 1)
    else Hop(p)
  }

  /** After any number of hops a control packet carries the originator's hash, id, ip and port. */
  lemma {:induction false} HopsPreserve(p: Packet, n: nat)
    requires IsControl(p) || Filled(p)
    ensures Hops(p, n).Complete?
    ensures n > 0 ==> Hops(p, n) == Complete(Travelling(p))
    decreases n
  {
    hide PacketDecode, Serialize;
    if n > 0 {
      DecodeUndoesSerialize(p, []);
      assert Serialize(p) + [] == Serialize(p);
      HopsPreserve(Travelling(p), n - 1);
    }
  }

  /**
   * packet_decode reads past its buffer exactly when the length given to the body check,
   * which counts the header too or has wrapped at 2^32, hides that bytes are missing.
   */
  lemma OverreadExactly(b: Bytes)
    ensures PacketDecode(b).Overread? <==>
      |b| >= 7 && var p := DecodeHdr(b).value;
        if IsControl(p) then |b| < 11
        else BodySize(p) <= |b| < 7 + p.keyLen + p.valueLen
  {
  }

  /** The header of a data packet with a one byte key, and nothing behind it, is read past. */
  lemma MissingKeyIsOverread()
    ensures PacketDecode([GET, 0, 1, 0, 0, 0, 0]) == Overread
  {
    OverreadExactly([GET, 0, 1, 0, 0, 0, 0]);
  }

  /** The server waits for the whole body exactly when the two lengths sum below 2^32. */
  lemma BodySizeExactly(p: Packet)
    requires !IsControl(p)
    ensures BodySize(p) == p.keyLen + p.valueLen <==> p.keyLen + p.valueLen < 0x1_0000_0000
  {
  }
}
