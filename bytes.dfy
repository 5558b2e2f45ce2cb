/**
 * Bytes as the Kotlin code handles them: the unsigned value of each element of a
 * ByteArray, 16-bit little-endian fields written byte by byte through a mask and
 * a shift, and the UTF-8 encoding of strings.
 */
module Bytes {

  /** One octet; a Kotlin `Byte` is modelled by its unsigned value. */
  type byte = b: int | 0 <= b < 256
  type Bytes = seq<byte>

  /** Reads the 16-bit little-endian field that starts at `at`. */
  function ReadU16LE(b: Bytes, at: nat): (v: nat)
    requires at + 2 <= |b|
    ensures v < 0x1_0000
  {
    (b[at] as int) + 256 * (b[at + 1] as int)
  }

  /**
   * The two bytes written for a non-negative Int: they hold the low 16 bits of `v`,
   * low byte first; higher bits are lost.
   */
  function U16LE(v: nat): (r: Bytes)
    ensures |r| == 2
  {
    [v % 256, (v / 256) % 256]
  }

  /** Reading the field back gives `v` modulo 2^16. */
  lemma U16LERoundTrip(v: nat)
    ensures ReadU16LE(U16LE(v), 0) == v % 0x1_0000
  {
    var q, r := v / 0x1_0000, v % 0x1_0000;
    assert v == 0x1_0000 * q + r;
    assert v / 256 == 256 * q + r / 256;
    assert (v / 256) % 256 == r / 256;
    assert v % 256 == r % 256;
  }

  /** UTF-8 encoding of one Unicode scalar value. */
  function Utf8Char(c: char): (r: Bytes)
    ensures 1 <= |r| <= 4
    ensures |r| == 1 <==> (c as int) < 0x80
    ensures |r| == 1 ==> r[0] == c as int
  {
    var cp := c as int;
    if cp < 0x80 then [cp]
    else if cp < 0x800 then [0xC0 + cp / 64, 0x80 + cp % 64]
    else if cp < 0x1_0000 then [0xE0 + cp / 4096, 0x80 + (cp / 64) % 64, 0x80 + cp % 64]
    else [0xF0 + cp / 262144, 0x80 + (cp / 4096) % 64, 0x80 + (cp / 64) % 64, 0x80 + cp % 64]
  }

  /** The UTF-8 encoding of a string, one scalar value after another. */
  function Utf8(s: string): (r: Bytes)
    ensures |s| <= |r| <= 4 * |s|
  {
    if s == [] then [] else Utf8Char(s[0]) + Utf8(s[1..])
  }

  /** Plain ASCII text encodes to one byte per character, each byte the character's code. */
  lemma {:induction false} Utf8Ascii(s: string)
    requires forall i :: 0 <= i < |s| ==> (s[i] as int) < 0x80
    ensures |Utf8(s)| == |s|
    ensures forall i :: 0 <= i < |s| ==> Utf8(s)[i] == s[i] as int
  {
    if s != [] {
      Utf8Ascii(s[1..]);
      assert Utf8(s) == [s[0] as int] + Utf8(s[1..]);
    }
  }
}
