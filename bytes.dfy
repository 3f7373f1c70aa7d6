/**
 * Bytes as Node's `Buffer` holds them: what `Buffer.from(string)` produces (UTF-8), what
 * `String.fromCharCode(byte)` makes of one byte, and the signed 32-bit big-endian integers
 * of `writeInt32BE` / `readInt32BE`. A 32-bit float is kept as its opaque 4-byte pattern.
 */
module Bytes {

  type byte = b: int | 0 <= b < 256

  /** The big-endian IEEE-754 pattern `writeFloatBE` writes; the bits themselves are not interpreted. */
  type Float32Bits = b: seq<byte> | |b| == 4 witness [0, 0, 0, 0]

  function Zeros(n: nat): (r: seq<byte>)
    ensures |r| == n
  {
    seq(n, _ => 0)
  }

  // ---------------------------------------------------------------------------
  // `Buffer.from(s)`: UTF-8

  predicate IsAscii(s: string) {
    forall i :: 0 <= i < |s| ==> (s[i] as int) < 128
  }

  /** The UTF-8 bytes of one Unicode scalar value. */
  function Utf8Char(c: char): (r: seq<byte>)
    ensures 1 <= |r| <= 4
    ensures (c as int) < 128 ==> r == [c as int]
    ensures (c as int) >= 128 ==> forall i :: 0 <= i < |r| ==> r[i] >= 128
  {
    var k := c as int;
    if k < 0x80 then [k]
    else if k < 0x800 then [0xC0 + k / 64, 0x80 + k % 64]
    else if k < 0x10000 then [0xE0 + k / 4096, 0x80 + (k / 64) % 64, 0x80 + k % 64]
    else [0xF0 + k / 262144, 0x80 + (k / 4096) % 64, 0x80 + (k / 64) % 64, 0x80 + k % 64]
  }

  function Utf8(s: string): (r: seq<byte>)
    ensures |r| >= |s|
  {
    if s == [] then [] else Utf8Char(s[0]) + Utf8(s[1..])
  }

  lemma {:induction false} Utf8Concat(a: string, b: string)
    ensures Utf8(a + b) == Utf8(a) + Utf8(b)
  {
    if a != [] {
      assert (a + b)[1..] == a[1..] + b;
      Utf8Concat(a[1..], b);
    } else {
      assert a + b == b;
    }
  }

  lemma Utf8AsciiChar(c: char)
    requires (c as int) < 128
    ensures Utf8([c]) == [c as int]
  {
    assert [c][1..] == [];
  }

  lemma Utf8SnocAscii(s: string, c: char)
    requires (c as int) < 128
    ensures Utf8(s + [c]) == Utf8(s) + [c as int]
  {
    Utf8Concat(s, [c]);
    Utf8AsciiChar(c);
  }

  /** An ASCII string encodes to one byte per character, each its character code. */
  lemma {:induction false} Utf8Ascii(s: string)
    requires IsAscii(s)
    ensures |Utf8(s)| == |s|
    ensures forall i :: 0 <= i < |s| ==> Utf8(s)[i] == s[i] as int
  {
    if s != [] {
      Utf8Ascii(s[1..]);
    }
  }

  /** UTF-8 has a zero byte exactly where the string has a NUL character. */
  lemma {:induction false} Utf8NoZero(s: string)
    ensures (0 in Utf8(s)) <==> ('\0' in s)
  {
    if s != [] {
      Utf8NoZero(s[1..]);
      assert Utf8(s) == Utf8Char(s[0]) + Utf8(s[1..]);
      assert s == [s[0]] + s[1..];
    }
  }

  // ---------------------------------------------------------------------------
  // `String.fromCharCode(byte)`: one character per byte

  function Latin1(bs: seq<byte>): (s: string)
    ensures |s| == |bs|
  {
    seq(|bs|, i requires 0 <= i < |bs| => bs[i] as char)
  }

  /** Reading back the bytes of an ASCII string one character per byte restores the string. */
  lemma Latin1Utf8Ascii(s: string)
    requires IsAscii(s)
    ensures Latin1(Utf8(s)) == s
  {
    Utf8Ascii(s);
  }

  // ---------------------------------------------------------------------------
  // `writeInt32BE` / `readInt32BE`

  predicate InInt32(v: int) { -0x8000_0000 <= v < 0x8000_0000 }

  /** Four big-endian bytes of `v` in two's complement; `writeInt32BE` throws out of range. */
  function Int32BE(v: int): (r: seq<byte>)
    requires InInt32(v)
    ensures |r| == 4
  {
    var u := if v < 0 then v + 0x1_0000_0000 else v;
    [u / 0x100_0000, (u / 0x1_0000) % 0x100, (u / 0x100) % 0x100, u % 0x100]
  }

  function ReadInt32BE(b: seq<byte>): (v: int)
    requires |b| >= 4
    ensures InInt32(v)
  {
    var u: int := (b[0] as int) * 0x100_0000 + (b[1] as int) * 0x1_0000 + (b[2] as int) * 0x100 + b[3];
    if u >= 0x8000_0000 then u - 0x1_0000_0000 else u
  }

  lemma Unsigned32Bytes(u: int)
    requires 0 <= u < 0x1_0000_0000
    ensures (u / 0x100_0000) * 0x100_0000 + ((u / 0x1_0000) % 0x100) * 0x1_0000
            + ((u / 0x100) % 0x100) * 0x100 + u % 0x100 == u
  {
    var q1 := u / 0x100;
    var q2 := q1 / 0x100;
    var q3 := q2 / 0x100;
    assert u == q1 * 0x100 + u % 0x100;
    assert q1 == q2 * 0x100 + q1 % 0x100;
    assert q2 == q3 * 0x100 + q2 % 0x100;
    assert u / 0x1_0000 == q2;
    assert u / 0x100_0000 == q3;
  }

  /** `readInt32BE` inverts `writeInt32BE` on the int32 range. */
  lemma ReadWriteInt32(v: int)
    requires InInt32(v)
    ensures ReadInt32BE(Int32BE(v)) == v
  {
    var u := if v < 0 then v + 0x1_0000_0000 else v;
    Unsigned32Bytes(u);
  }
}
