/**
 * Byte-level encodings the handlers use: `Buffer#toString("hex")` for the
 * session token and `Buffer.from(string)` (UTF-8) for the password
 * comparison. Cryptographic digests themselves are not modelled; their
 * output shape is the subset type `HexDigest`.
 */
module Encoding {

  newtype byte = x: int | 0 <= x < 256

  predicate IsLowerHex(c: char) {
    ('0' <= c <= '9') || ('a' <= c <= 'f')
  }

  predicate IsLowerHexString(s: string) {
    forall i | 0 <= i < |s| :: IsLowerHex(s[i])
  }

  /** The lower-case hexadecimal digit for a value below 16. */
  function HexDigit(d: nat): (c: char)
    requires d < 16
    ensures IsLowerHex(c)
  {
    if d < 10 then ('0' as int + d) as char else ('a' as int + d - 10) as char
  }

  /** The value of a lower-case hexadecimal digit: the inverse of `HexDigit`. */
  function HexValue(c: char): (v: nat)
    requires IsLowerHex(c)
    ensures v < 16 && HexDigit(v) == c
  {
    if c <= '9' then c as int - '0' as int else c as int - 'a' as int + 10
  }

  /** A SHA-256 digest rendered by `digest("hex")`: 64 lower-case hex digits. */
  type HexDigest = s: string | |s| == 64 && IsLowerHexString(s)
    witness ToHex(seq(32, _ => 0))

  /** `Buffer#toString("hex")`: two lower-case hex digits per byte, high nibble first. */
  function ToHex(bytes: seq<byte>): (r: string)
    ensures |r| == 2 * |bytes|
    ensures IsLowerHexString(r)
  {
    if bytes == [] then []
    else [HexDigit(bytes[0] as int / 16), HexDigit(bytes[0] as int % 16)] + ToHex(bytes[1..])
  }

  /** Reads a hex string back into bytes: the partner of `ToHex`. */
  function FromHex(s: string): (r: seq<byte>)
    requires |s| % 2 == 0 && IsLowerHexString(s)
    ensures |r| == |s| / 2
  {
    if s == [] then []
    else [(16 * HexValue(s[0]) + HexValue(s[1])) as byte] + FromHex(s[2..])
  }

  /** The two digits of one byte read back as that byte. */
  lemma ByteDigitsRoundTrip(b: byte)
    ensures (16 * HexValue(HexDigit(b as int / 16)) + HexValue(HexDigit(b as int % 16))) as byte == b
  {
    var hi, lo := b as int / 16, b as int % 16;
    assert HexValue(HexDigit(hi)) == hi;
    assert HexValue(HexDigit(lo)) == lo;
  }

  /** Hex encoding loses nothing: distinct byte strings give distinct tokens. */
  lemma {:induction false} HexRoundTrip(bytes: seq<byte>)
    ensures FromHex(ToHex(bytes)) == bytes
  {
    if bytes != [] {
      var h := ToHex(bytes);
      assert h[2..] == ToHex(bytes[1..]);
      assert h[0] == HexDigit(bytes[0] as int / 16) && h[1] == HexDigit(bytes[0] as int % 16);
      ByteDigitsRoundTrip(bytes[0]);
      HexRoundTrip(bytes[1..]);
    }
  }

  /** UTF-8 encoding of one Unicode scalar value, as `Buffer.from` produces it. */
  function Utf8Char(c: char): (r: seq<byte>)
    ensures 1 <= |r| <= 4
  {
    var n := c as int;
    var q1 := n / 64;
    var q2 := q1 / 64;
    var q3 := q2 / 64;
    if n < 0x80 then [n as byte]
    else if n < 0x800 then [(0xC0 + q1) as byte, (0x80 + n % 64) as byte]
    else if n < 0x10000 then
      [(0xE0 + q2) as byte, (0x80 + q1 % 64) as byte, (0x80 + n % 64) as byte]
    else
      [(0xF0 + q3) as byte, (0x80 + q2 % 64) as byte, (0x80 + q1 % 64) as byte, (0x80 + n % 64) as byte]
  }

  /** The length of an encoded character, read off its first byte. */
  function SequenceLength(lead: byte): nat {
    if lead < 0x80 then 1 else if lead < 0xE0 then 2 else if lead < 0xF0 then 3 else 4
  }

  /** The first byte of a character's encoding tells how long it is. */
  lemma Utf8CharLead(c: char)
    ensures SequenceLength(Utf8Char(c)[0]) == |Utf8Char(c)|
  {
  }

  /** Distinct characters have distinct encodings. */
  lemma Utf8CharInjective(c: char, d: char)
    requires Utf8Char(c) == Utf8Char(d)
    ensures c == d
  {
    var n, m := c as int, d as int;
    Utf8CharLead(c);
    Utf8CharLead(d);
    var e := Utf8Char(c);
    if n < 0x80 {
      assert e[0] as int == n == m;
    } else if n < 0x800 {
      assert e[0] as int == 0xC0 + n / 64 == 0xC0 + m / 64;
      assert e[1] as int == 0x80 + n % 64 == 0x80 + m % 64;
    } else if n < 0x10000 {
      assert n / 64 / 64 == m / 64 / 64;
      assert n / 64 % 64 == m / 64 % 64;
      assert n / 64 == m / 64;
      assert n % 64 == m % 64;
    } else {
      assert n / 64 / 64 / 64 == m / 64 / 64 / 64;
      assert n / 64 / 64 % 64 == m / 64 / 64 % 64;
      assert n / 64 / 64 == m / 64 / 64;
      assert n / 64 % 64 == m / 64 % 64;
      assert n / 64 == m / 64;
      assert n % 64 == m % 64;
    }
    assert n == m;
  }

  /** `Buffer.from(s)`: the UTF-8 bytes of `s`. */
  function Utf8(s: string): (r: seq<byte>)
    ensures |r| >= |s|
  {
    if s == [] then [] else Utf8Char(s[0]) + Utf8(s[1..])
  }

  /** UTF-8 is injective: equal byte strings come from equal strings. */
  lemma {:induction false} Utf8Injective(a: string, b: string)
    requires Utf8(a) == Utf8(b)
    ensures a == b
    decreases |a|
  {
    if a != [] && b != [] {
      var ea, eb := Utf8Char(a[0]), Utf8Char(b[0]);
      assert Utf8(a)[0] == ea[0] && Utf8(b)[0] == eb[0];
      Utf8CharLead(a[0]);
      Utf8CharLead(b[0]);
      assert |ea| == |eb|;
      assert ea == Utf8(a)[..|ea|] == Utf8(b)[..|eb|] == eb;
      Utf8CharInjective(a[0], b[0]);
      assert Utf8(a[1..]) == Utf8(a)[|ea|..] == Utf8(b)[|eb|..] == Utf8(b[1..]);
      Utf8Injective(a[1..], b[1..]);
    }
  }
}
