/** Bytes, and the signed big-endian integers of postgresql/encoding/bytes/int.go. */
module BigEndian {
  type byte = b: int | 0 <= b < 256
  type Bytes = seq<byte>

  /** A Go string is a sequence of bytes. */
  type GoString = Bytes

  /** The bytes of an ASCII text. */
  function Ascii(s: string): (b: GoString)
    ensures |b| == |s| && forall k :: 0 <= k < |s| ==> b[k] == s[k] as int % 256
  {
    seq(|s|, k requires 0 <= k < |s| => s[k] as int % 256)
  }

  datatype Option<+T> = None | Some(value: T)

  /** A value on the wire: NULL or some bytes. */
  datatype Field = Null | Field(value: Bytes)

  /** The value an int16 or int32 holds after a Go conversion that drops high bits. */
  function Wrap16(v: int): int { (v + 0x8000) % 0x1_0000 - 0x8000 }
  function Wrap32(v: int): int { (v + 0x8000_0000) % 0x1_0000_0000 - 0x8000_0000 }

  predicate IsInt16(v: int) { -0x8000 <= v < 0x8000 }
  predicate IsInt32(v: int) { -0x8000_0000 <= v < 0x8000_0000 }

  /** `byte(v >> k)` is a floored division followed by a remainder. */
  function Int16Bytes(v: int): (b: Bytes)
    ensures |b| == 2
  {
    [(v / 0x100) % 256, v % 256]
  }

  function Int32Bytes(v: int): (b: Bytes)
    ensures |b| == 4
  {
    [(v / 0x100_0000) % 256, (v / 0x1_0000) % 256, (v / 0x100) % 256, v % 256]
  }

  function Int64Bytes(v: int): (b: Bytes)
    ensures |b| == 8
  {
    Int32Bytes(v / 0x1_0000_0000) + Int32Bytes(v)
  }

  /** Unsigned positional values. */
  function Join2(b1: int, b0: int): int { b1 * 0x100 + b0 }
  function Join4(b3: int, b2: int, b1: int, b0: int): int { Join2(Join2(Join2(b3, b2), b1), b0) }

  function Int16Of(b: Bytes): (v: int)
    requires |b| == 2
  {
    Wrap16(Join2(b[0], b[1]))
  }

  function Int32Of(b: Bytes): (v: int)
    requires |b| == 4
  {
    Wrap32(Join4(b[0], b[1], b[2], b[3]))
  }

  /** Adding a multiple of the word size changes nothing that fits in the word. */
  lemma WrapPeriod16(k: int, u: int)
    ensures Wrap16(k * 0x1_0000 + u) == Wrap16(u)
  {
    var x := u + 0x8000;
    var y := k * 0x1_0000 + x;
    assert y / 0x1_0000 == k + x / 0x1_0000;
    assert y % 0x1_0000 == y - (y / 0x1_0000) * 0x1_0000;
  }

  lemma WrapPeriod32(k: int, u: int)
    ensures Wrap32(k * 0x1_0000_0000 + u) == Wrap32(u)
  {
    var x := u + 0x8000_0000;
    var y := k * 0x1_0000_0000 + x;
    assert y / 0x1_0000_0000 == k + x / 0x1_0000_0000;
    assert y % 0x1_0000_0000 == y - (y / 0x1_0000_0000) * 0x1_0000_0000;
  }

  lemma WrapInRange(v: int)
    ensures IsInt16(v) ==> Wrap16(v) == v
    ensures IsInt32(v) ==> Wrap32(v) == v
  {}

  /** Shifting by 16 or 24 bits is shifting by 8 twice or three times. */
  lemma ShiftInSteps(v: int)
    ensures v / 0x1_0000 == (v / 0x100) / 0x100
    ensures v / 0x100_0000 == (v / 0x1_0000) / 0x100
  {}

  lemma Split8(v: int)
    ensures v == (v / 0x100) * 0x100 + v % 0x100
  {}

  lemma LowBytes(v: int)
    ensures v == (v / 0x1_0000) * 0x1_0000 + Join2((v / 0x100) % 256, v % 256)
    ensures v == ((v / 0x100_0000) / 0x100) * 0x1_0000_0000
                 + Join4((v / 0x100_0000) % 256, (v / 0x1_0000) % 256, (v / 0x100) % 256, v % 256)
  {
    ShiftInSteps(v);
    Split8(v);
    Split8(v / 0x100);
    Split8(v / 0x1_0000);
    Split8(v / 0x100_0000);
  }

  /** Writing any integer and reading it back gives the value the Go type would hold. */
  lemma Int16RoundTrip(v: int)
    ensures Int16Of(Int16Bytes(v)) == Wrap16(v)
    ensures IsInt16(v) ==> Int16Of(Int16Bytes(v)) == v
  {
    LowBytes(v);
    WrapPeriod16(v / 0x1_0000, Join2((v / 0x100) % 256, v % 256));
    WrapInRange(v);
  }

  lemma Int32RoundTrip(v: int)
    ensures Int32Of(Int32Bytes(v)) == Wrap32(v)
    ensures IsInt32(v) ==> Int32Of(Int32Bytes(v)) == v
  {
    LowBytes(v);
    WrapPeriod32((v / 0x100_0000) / 0x100,
                 Join4((v / 0x100_0000) % 256, (v / 0x1_0000) % 256, (v / 0x100) % 256, v % 256));
    WrapInRange(v);
  }

  lemma ShiftByte(x: int, b: byte)
    ensures Join2(x, b) / 0x100 == x && Join2(x, b) % 0x100 == b
  {}

  /** The signed value is the unsigned one with its top byte read as signed. */
  lemma TopByte(b: Bytes)
    requires |b| == 4
    ensures var t := if b[0] < 128 then b[0] as int else b[0] as int - 256;
      Int32Of(b) == Join4(t, b[1], b[2], b[3]) && -128 <= t < 128 && t % 256 == b[0]
  {
    var u := Join4(b[0], b[1], b[2], b[3]);
    assert 0 <= u < 0x1_0000_0000 && (u < 0x8000_0000 <==> b[0] < 128);
  }

  /** Reading loses nothing either: the bytes can be rebuilt from the value. */
  lemma Int32Injective(b: Bytes)
    requires |b| == 4
    ensures Int32Bytes(Int32Of(b)) == b && IsInt32(Int32Of(b))
  {
    TopByte(b);
    var v := Int32Of(b);
    var t := if b[0] < 128 then b[0] as int else b[0] as int - 256;
    var w2 := Join2(t, b[1]);
    var w1 := Join2(w2, b[2]);
    ShiftByte(w1, b[3]);
    ShiftByte(w2, b[2]);
    ShiftByte(t, b[1]);
    ShiftInSteps(v);
    assert -0x8000 <= w2 < 0x8000 && -0x80_0000 <= w1 < 0x80_0000;
    hide Int32Of;
    assert v == Join2(w1, b[3]) && v / 0x100 == w1 && v / 0x1_0000 == w2 && v / 0x100_0000 == t;
  }

  /** The fresh four-byte (two-byte) slice of `Int32ToBytes` (`Int16ToBytes`). */
  method Int32ToBytes(v: int) returns (b: array<byte>)
    ensures fresh(b) && b[..] == Int32Bytes(v)
  {
    b := new byte[4];
    b[0] := (v / 0x100_0000) % 256;
    b[1] := (v / 0x1_0000) % 256;
    b[2] := (v / 0x100) % 256;
    b[3] := v % 256;
  }

  method Int16ToBytes(v: int) returns (b: array<byte>)
    ensures fresh(b) && b[..] == Int16Bytes(v)
  {
    b := new byte[2];
    b[0] := (v / 0x100) % 256;
    b[1] := v % 256;
  }

  method Int64ToBytes(v: int) returns (b: array<byte>)
    ensures fresh(b) && b[..] == Int64Bytes(v)
  {
    b := new byte[8];
    var high := v / 0x1_0000_0000;
    b[0] := (high / 0x100_0000) % 256;
    b[1] := (high / 0x1_0000) % 256;
    b[2] := (high / 0x100) % 256;
    b[3] := high % 256;
    b[4] := (v / 0x100_0000) % 256;
    b[5] := (v / 0x1_0000) % 256;
    b[6] := (v / 0x100) % 256;
    b[7] := v % 256;
    assert b[..4] == Int32Bytes(high) && b[4..] == Int32Bytes(v);
  }
}
