/** Machine words and byte strings shared by all components. */
module Words {
  type byte = x: int | 0 <= x < 0x100
  type uint16 = x: int | 0 <= x < 0x1_0000
  type uint32 = x: int | 0 <= x < 0x1_0000_0000

  type Bytes = seq<byte>

  datatype Option<+T> = None | Some(value: T)

  function Min(a: nat, b: nat): nat {
    if a < b then a else b
  }

  function RemoveAt<T>(s: seq<T>, k: nat): (r: seq<T>)
    requires k < |s|
    ensures |r| == |s| - 1
    ensures forall i :: 0 <= i < |r| ==> r[i] == if i < k then s[i] else s[i + 1]
  {
    s[..k] + s[k + 1..]
  }

  /** Whether the flag byte has the bit `mask` (a power of two) set: `flags & mask`. */
  predicate Has(flags: byte, mask: int)
    requires mask > 0
  {
    flags / mask % 2 == 1
  }

  /** The big-endian encodings: `x >> 8`, `x >> 0` and so on, each truncated to a byte. */
  function Big16(x: uint16): (b: Bytes)
    ensures |b| == 2
  {
    [x / 0x100 % 0x100, x % 0x100]
  }

  function Big32(x: uint32): (b: Bytes)
    ensures |b| == 4
  {
    [x / 0x100_0000 % 0x100, x / 0x1_0000 % 0x100, x / 0x100 % 0x100, x % 0x100]
  }

  /** `b0 << 8 | b1`: the operands share no bit, so `|` is addition (Bits.OrOfDisjoint). */
  function From16(b0: byte, b1: byte): uint16 {
    b0 * 0x100 + b1
  }

  function From32(b0: byte, b1: byte, b2: byte, b3: byte): uint32 {
    b0 * 0x100_0000 + b1 * 0x1_0000 + b2 * 0x100 + b3
  }

  lemma Big16Inverse(x: uint16, b0: byte, b1: byte)
    ensures From16(Big16(x)[0], Big16(x)[1]) == x
    ensures Big16(From16(b0, b1)) == [b0, b1]
  {
  }

  /** Shifting by one more byte is dividing once more. */
  lemma ByteOff(x: uint32, unit: int)
    requires unit in {1, 0x100, 0x1_0000}
    ensures x / (unit * 0x100) == x / unit / 0x100
  {
  }

  lemma Big32Split(x: uint32)
    ensures From32(Big32(x)[0], Big32(x)[1], Big32(x)[2], Big32(x)[3]) == x
  {
    var q1 := x / 0x100;
    var q2 := q1 / 0x100;
    var q3 := q2 / 0x100;
    ByteOff(x, 1);
    ByteOff(x, 0x100);
    ByteOff(x, 0x1_0000);
    assert x == q1 * 0x100 + x % 0x100 && q1 == q2 * 0x100 + q1 % 0x100;
    assert q2 == q3 * 0x100 + q2 % 0x100 && q3 % 0x100 == q3;
  }

  lemma Big32Join(b0: byte, b1: byte, b2: byte, b3: byte)
    ensures Big32(From32(b0, b1, b2, b3)) == [b0, b1, b2, b3]
  {
    var y := From32(b0, b1, b2, b3);
    assert y / 0x100_0000 == b0;
    assert y / 0x1_0000 == b0 * 0x100 + b1;
    assert y / 0x100 == b0 * 0x1_0000 + b1 * 0x100 + b2;
    assert (b0 * 0x100 + b1) % 0x100 == b1;
    assert (b0 * 0x1_0000 + b1 * 0x100 + b2) % 0x100 == b2;
  }

  lemma Big32Inverse(x: uint32, b0: byte, b1: byte, b2: byte, b3: byte)
    ensures From32(Big32(x)[0], Big32(x)[1], Big32(x)[2], Big32(x)[3]) == x
    ensures Big32(From32(b0, b1, b2, b3)) == [b0, b1, b2, b3]
  {
    Big32Split(x);
    Big32Join(b0, b1, b2, b3);
  }
}
