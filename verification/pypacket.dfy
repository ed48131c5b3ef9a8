/** The test bench's own codec for the same wire format (rnvs_tb/packet.py). */
module PyPackets {
  import opened Words
  import opened Packets
  import Bits

  datatype Method =
    | Get | Set | Delete
    | Reply | Lookup | Stabilize | Notify | Join | Fack | Finger

  /** Python integers and byte strings are unbounded; an IPv4Address has 32 bits. */
  datatype PyPacket =
    | DataPacket(verb: Method, key: Bytes, value: Bytes, ack: bool)
    | ControlPacket(kind: Method, hashId: int, nodeId: int, ip: uint32, port: int)

  /** A return value or a raised exception. */
  datatype Outcome<+T> = Returned(value: T) | Raised

  function MethodBit(m: Method): byte {
    match m
    case Get => 4 case Set => 2 case Delete => 1
    case Reply => 2 case Lookup => 1 case Stabilize => 4 case Notify => 8
    case Join => 16 case Fack => 32 case Finger => 64
  }

  /** Shifts and masks: of a negative number the low bits of its two's complement. */
  function Big16Of(n: int): Bytes {
    [n / 0x100 % 0x100, n % 0x100]
  }

  function Big32Of(n: int): Bytes {
    [n / 0x100_0000 % 0x100, n / 0x1_0000 % 0x100, n / 0x100 % 0x100, n % 0x100]
  }

  predicate IsDataMethod(m: Method) {
    m.Get? || m.Set? || m.Delete?
  }

  function PySerialize(p: PyPacket): Outcome<Bytes> {
    match p
    case DataPacket(m, key, value, ack) =>
      if !IsDataMethod(m) then Raised
      else Returned([MethodBit(m) + if ack then 8 else 0]
                    + Big16Of(|key|) + Big32Of(|value|) + key + value)
    case ControlPacket(m, hashId, nodeId, ip, port) =>
      if IsDataMethod(m) then Raised
      else Returned([128 + MethodBit(m)]
                    + Big16Of(hashId) + Big16Of(nodeId) + Big32(ip) + Big16Of(port))
  }

  function PyDataMethod(flags: byte): Outcome<Method> {
    var (del, set_, get) := (Has(flags, 1), Has(flags, 2), Has(flags, 4));
    if del then (if get || set_ then Raised else Returned(Delete))
    else if set_ then (if get || del then Raised else Returned(Set))
    else if get then (if del || set_ then Raised else Returned(Get))
    else Raised
  }

  function PyControlMethod(flags: byte): Outcome<Method> {
    if Has(flags, 2) then Returned(Reply)
    else if Has(flags, 1) then Returned(Lookup)
    else if Has(flags, 4) then Returned(Stabilize)
    else if Has(flags, 8) then Returned(Notify)
    else if Has(flags, 16) then Returned(Join)
    else if Has(flags, 32) then Returned(Fack)
    else if Has(flags, 64) then Returned(Finger)
    else Raised
  }

  function PyParseData(b: Bytes): Outcome<PyPacket> {
    if |b| < 7 || Has(b[0], 128) then Raised
    else
      var keyLen, valueLen := From16(b[1], b[2]), From32(b[3], b[4], b[5], b[6]);
      if |b| < 7 + keyLen + valueLen then Raised
      else
        match PyDataMethod(b[0])
        case Raised => Raised
        case Returned(m) =>
          Returned(DataPacket(m, b[7..7 + keyLen], b[7 + keyLen..7 + keyLen + valueLen],
                              Has(b[0], 8)))
  }

  function PyParseControl(b: Bytes): Outcome<PyPacket> {
    if |b| < 11 || !Has(b[0], 128) then Raised
    else
      match PyControlMethod(b[0])
      case Raised => Raised
      case Returned(m) =>
        Returned(ControlPacket(m, From16(b[1], b[2]), From16(b[3], b[4]),
                               From32(b[5], b[6], b[7], b[8]), From16(b[9], b[10])))
  }

  /** packet_type picks the parser by the control bit. */
  function PyParse(b: Bytes): Outcome<PyPacket> {
    if |b| == 0 then Raised
    else if Has(b[0], 128) then PyParseControl(b)
    else PyParseData(b)
  }

  // ---------- the C side's view of a Python packet, and the other way round ----------

  predicate InRange(p: PyPacket) {
    match p
    case DataPacket(_, key, value, _) => |key| < 0x1_0000 && |value| < 0x1_0000_0000
    case ControlPacket(_, hashId, nodeId, _, port) =>
      0 <= hashId < 0x1_0000 && 0 <= nodeId < 0x1_0000 && 0 <= port < 0x1_0000
  }

  predicate Proper(p: PyPacket) {
    match p
    case DataPacket(m, _, _, _) => IsDataMethod(m)
    case ControlPacket(m, _, _, _, _) => !IsDataMethod(m)
  }

  /** Every field of the C packet is the field of the Python packet. */
  predicate SameFields(c: Packet, p: PyPacket) {
    match p
    case DataPacket(m, key, value, ack) =>
      && c.flags == MethodBit(m) + (if ack then ACK else 0)
      && c.key == key && c.keyLen == |key|
      && c.value == value && c.valueLen == |value|
    case ControlPacket(m, hashId, nodeId, ip, port) =>
      && c.flags == CTRL + MethodBit(m)
      && c.hashId == hashId && c.nodeId == nodeId && c.nodeIp == ip && c.nodePort == port
  }

  function AsC(p: PyPacket): Packet
    requires Proper(p) && InRange(p)
  {
    match p
    case DataPacket(m, key, value, ack) =>
      NewPacket(MethodBit(m) + if ack then ACK else 0)
      .(keyLen := |key|, valueLen := |value|, key := key, value := value)
    case ControlPacket(m, hashId, nodeId, ip, port) =>
      NewPacket(CTRL + MethodBit(m))
      .(hashId := hashId, nodeId := nodeId, nodeIp := ip, nodePort := port)
  }

  lemma SameBytes(p: PyPacket)
    requires Proper(p) && InRange(p)
    ensures PySerialize(p) == Returned(Serialize(AsC(p)))
    ensures IsControl(AsC(p)) == p.ControlPacket? && Travelling(AsC(p)) == AsC(p)
  {
  }

  lemma CReadsFitting(p: PyPacket)
    requires Proper(p) && InRange(p)
    ensures PacketDecode(PySerialize(p).value) == Complete(AsC(p))
    ensures SameFields(AsC(p), p)
  {
    hide PySerialize, PacketDecode, Serialize;
    SameBytes(p);
    assert Serialize(AsC(p)) + [] == Serialize(AsC(p));
    DecodeUndoesSerialize(AsC(p), []);
  }

  /**
   * The C decoder reads back exactly the Python packets whose numbers fit their fields;
   * the Python serialiser silently masks the others.
   */
  lemma CReadsPython(p: PyPacket)
    requires Proper(p)
    ensures
      var d := PacketDecode(PySerialize(p).value);
      d.Complete? && SameFields(d.packet, p) <==> InRange(p)
  {
    if InRange(p) {
      CReadsFitting(p);
    } else {
      hide PacketDecode, Big16Of, Big32Of, Big32;
    }
  }

  /** The Python parser accepts a C data packet exactly when one method bit is set. */
  predicate OneMethod(flags: byte) {
    var (del, set_, get) := (Has(flags, 1), Has(flags, 2), Has(flags, 4));
    || (del && !set_ && !get) || (!del && set_ && !get) || (!del && !set_ && get)
  }

  lemma PythonReadsCData(c: Packet)
    requires !IsControl(c) && Filled(c)
    ensures PyParse(Serialize(c)).Returned? <==> OneMethod(c.flags)
    ensures OneMethod(c.flags) ==>
      var p := PyParse(Serialize(c)).value;
      && p == DataPacket(p.verb, c.key, c.value, Has(c.flags, ACK))
      && IsDataMethod(p.verb) && Has(c.flags, MethodBit(p.verb))
  {
    hide Big16, Big32, From16, From32;
    var k, v := Big16(c.keyLen), Big32(c.valueLen);
    Big16Inverse(c.keyLen, 0, 0);
    Big32Inverse(c.valueLen, 0, 0, 0, 0);
    var b := Serialize(c);
    assert b == [c.flags, k[0], k[1], v[0], v[1], v[2], v[3]] + (c.key + c.value);
    assert b[7..7 + c.keyLen] == c.key;
    assert b[7 + c.keyLen..7 + c.keyLen + c.valueLen] == c.value;
  }

  lemma NoBitBelow(flags: byte, mask: int)
    requires mask in {2, 4, 8, 16, 32, 64} && flags % mask == 0 && !Has(flags, mask)
    ensures flags % (2 * mask) == 0
  {
    var q := flags / mask;
    assert flags == mask * q && q == 2 * (q / 2);
    if mask == 2 {
      assert flags == 4 * (q / 2);
    } else if mask == 4 {
      assert flags == 8 * (q / 2);
    } else if mask == 8 {
      assert flags == 16 * (q / 2);
    } else if mask == 16 {
      assert flags == 32 * (q / 2);
    } else if mask == 32 {
      assert flags == 64 * (q / 2);
    } else {
      assert flags == 128 * (q / 2);
    }
  }

  lemma ControlMethodExists(flags: byte)
    requires Has(flags, CTRL)
    ensures PyControlMethod(flags).Returned? <==> flags != CTRL
  {
    if PyControlMethod(flags).Raised? {
      NoBitBelow(flags, 2);
      NoBitBelow(flags, 4);
      NoBitBelow(flags, 8);
      NoBitBelow(flags, 16);
      NoBitBelow(flags, 32);
      NoBitBelow(flags, 64);
    }
  }

  lemma PythonReadsCControl(c: Packet)
    requires IsControl(c)
    ensures PyParse(Serialize(c)).Returned? <==> c.flags != CTRL
    ensures c.flags != CTRL ==>
      var p := PyParse(Serialize(c)).value;
      && p == ControlPacket(p.kind, c.hashId, c.nodeId, c.nodeIp, c.nodePort)
      && PyControlMethod(c.flags) == Returned(p.kind)
  {
    hide Big16, Big32, From16, From32, Has;
    Big16Inverse(c.hashId, 0, 0);
    Big16Inverse(c.nodeId, 0, 0);
    Big16Inverse(c.nodePort, 0, 0);
    Big32Inverse(c.nodeIp, 0, 0, 0, 0);
    var h, i, a, t := Big16(c.hashId), Big16(c.nodeId), Big32(c.nodeIp), Big16(c.nodePort);
    assert Serialize(c) == [c.flags, h[0], h[1], i[0], i[1], a[0], a[1], a[2], a[3], t[0], t[1]];
    ControlMethodExists(c.flags);
  }

  /** The parser takes a packet for a kind only if that kind's bit is set. */
  lemma KindHasItsBit(flags: byte)
    ensures PyControlMethod(flags).Returned? ==>
      Has(flags, MethodBit(PyControlMethod(flags).value))
  {
  }

  /** The peer tests the LOOKUP bit first, the Python parser the REPLY bit first. */
  lemma KindsAgreeExactly(flags: byte)
    requires Has(flags, LKUP) || Has(flags, RPLY)
    ensures PyControlMethod(flags) == Returned(if Has(flags, LKUP) then Lookup else Reply)
      <==> !(Has(flags, LKUP) && Has(flags, RPLY))
  {
  }

  /** Both sides give every method the same flag bit (praxis2/include/packet.h). */
  lemma MethodBitsAreFlags()
    ensures MethodBit(Get) == GET && MethodBit(Set) == SET && MethodBit(Delete) == DEL
    ensures MethodBit(Lookup) == LKUP && MethodBit(Reply) == RPLY
    ensures var shifts := [Lookup, Reply, Stabilize, Notify, Join, Fack, Finger];
      forall k :: 0 <= k < |shifts| ==> MethodBit(shifts[k]) == Bits.Pow2(k)
  {
    assert Bits.Pow2(2) == 4 && Bits.Pow2(4) == 16 && Bits.Pow2(6) == 64;
  }

  // ---------- the test bench on its own ----------

  lemma DataMethodRead(m: Method, ack: bool)
    requires IsDataMethod(m)
    ensures var flags := MethodBit(m) + if ack then 8 else 0;
      !Has(flags, 128) && Has(flags, 8) == ack && PyDataMethod(flags) == Returned(m)
  {
  }

  lemma ControlMethodRead(m: Method)
    requires !IsDataMethod(m)
    ensures Has(128 + MethodBit(m), 128) && PyControlMethod(128 + MethodBit(m)) == Returned(m)
  {
  }

  lemma DataRoundTripPy(p: PyPacket)
    requires p.DataPacket? && Proper(p) && InRange(p)
    ensures PyParse(PySerialize(p).value) == Returned(p)
  {
    hide MethodBit, PyDataMethod, Has, Big16, Big32, From16, From32;
    var (m, key, value) := (p.verb, p.key, p.value);
    SameBytes(p);
    DataMethodRead(m, p.ack);
    Big16Inverse(|key|, 0, 0);
    Big32Inverse(|value|, 0, 0, 0, 0);
    var (b, k, v) := (Serialize(AsC(p)), Big16(|key|), Big32(|value|));
    assert b == [b[0], k[0], k[1], v[0], v[1], v[2], v[3]] + (key + value);
    assert b[7..7 + |key|] == key && b[7 + |key|..7 + |key| + |value|] == value;
  }

  lemma ControlRoundTripPy(p: PyPacket)
    requires p.ControlPacket? && Proper(p) && InRange(p)
    ensures PyParse(PySerialize(p).value) == Returned(p)
  {
    hide MethodBit, PyControlMethod, Has, Big16, Big32, From16, From32;
    SameBytes(p);
    ControlMethodRead(p.kind);
    Big16Inverse(p.hashId, 0, 0);
    Big16Inverse(p.nodeId, 0, 0);
    Big16Inverse(p.port, 0, 0);
    Big32Inverse(p.ip, 0, 0, 0, 0);
  }

  /** The Python parser undoes the Python serialiser for packets whose numbers fit. */
  lemma PythonRoundTrip(p: PyPacket)
    requires Proper(p) && InRange(p)
    ensures PyParse(PySerialize(p).value) == Returned(p)
  {
    hide *;
    if p.DataPacket? {
      DataRoundTripPy(p);
    } else {
      ControlRoundTripPy(p);
    }
  }

  /** No part of a packet parses. */
  lemma PartRaises(p: PyPacket, n: nat)
    requires Proper(p) && InRange(p) && n < |PySerialize(p).value|
    ensures PyParse(PySerialize(p).value[..n]) == Raised
  {
    hide MethodBit, PyDataMethod, PyControlMethod, Has, Big16, Big32, From16, From32;
    SameBytes(p);
    var b := PySerialize(p).value[..n];
    if n > 0 {
      match p
      case DataPacket(m, key, value, ack) =>
        DataMethodRead(m, ack);
        Big16Inverse(|key|, 0, 0);
        Big32Inverse(|value|, 0, 0, 0, 0);
        var (k, v) := (Big16(|key|), Big32(|value|));
        assert Serialize(AsC(p))[..7] == [b[0], k[0], k[1], v[0], v[1], v[2], v[3]];
        assert n >= 7 ==> b[..7] == Serialize(AsC(p))[..7];
      case ControlPacket(m, _, _, _, _) =>
        ControlMethodRead(m);
    }
  }

  // ---------- packets on which the two sides differ ----------

  /** A lookup for port 65536, which the test bench does not check. */
  const BIG_PORT := ControlPacket(Lookup, 1, 2, 3, 0x1_0000)

  /** The C side reads port 0. */
  lemma BigPortIsMasked()
    ensures PacketDecode(PySerialize(BIG_PORT).value)
      == Complete(NewPacket(CTRL + LKUP).(hashId := 1, nodeId := 2, nodeIp := 3, nodePort := 0))
  {
    hide PacketDecode, Serialize;
    assert PySerialize(BIG_PORT) == PySerialize(BIG_PORT.(port := 0));
    CReadsFitting(BIG_PORT.(port := 0));
  }

  /** A data packet with the bits of GET and SET. */
  const GET_AND_SET := NewPacket(GET + SET)

  /** The C decoder takes it, the Python parser raises. */
  lemma TwoMethodsRaise()
    ensures PacketDecode(Serialize(GET_AND_SET)) == Complete(GET_AND_SET)
    ensures PyParse(Serialize(GET_AND_SET)) == Raised
  {
    hide PacketDecode, Serialize, PyParse;
    DecodeUndoesSerialize(GET_AND_SET, []);
    assert Serialize(GET_AND_SET) + [] == Serialize(GET_AND_SET);
    PythonReadsCData(GET_AND_SET);
  }

  /** With both bits set the peer sees a LOOKUP and the Python parser a REPLY. */
  lemma BothKindsDiffer()
    ensures Has(CTRL + LKUP + RPLY, LKUP)
    ensures PyControlMethod(CTRL + LKUP + RPLY) == Returned(Reply)
  {
  }
}
