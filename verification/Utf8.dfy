/** `str.encode("utf-8")` over Unicode scalar values. */
module Utf8 {

  newtype byte = x: int | 0 <= x < 256

  type Bytes = seq<byte>

  function EncodeChar(c: char): (r: Bytes)
    ensures 1 <= |r| <= 4
  {
    var n := c as int;
    if n < 0x80 then [n as byte]
    else if n < 0x800 then [(0xC0 + n / 64) as byte, (0x80 + n % 64) as byte]
    else if n < 0x10000 then [(0xE0 + n / 4096) as byte, (0x80 + n / 64 % 64) as byte, (0x80 + n % 64) as byte]
    else
      [(0xF0 + n / 262144) as byte, (0x80 + n / 4096 % 64) as byte, (0x80 + n / 64 % 64) as byte,
       (0x80 + n % 64) as byte]
  }

  function Encode(s: string): Bytes {
    if |s| == 0 then [] else EncodeChar(s[0]) + Encode(s[1..])
  }

  /** How many bytes the character starting with `b` takes. */
  function Width(b: byte): nat {
    if b < 0x80 then 1 else if b < 0xE0 then 2 else if b < 0xF0 then 3 else 4
  }

  /** The code point carried by one encoded character. */
  function CodePoint(r: Bytes): int
    requires |r| > 0 && |r| == Width(r[0])
  {
    if |r| == 1 then r[0] as int
    else if |r| == 2 then (r[0] as int - 0xC0) * 64 + (r[1] as int - 0x80)
    else if |r| == 3 then (r[0] as int - 0xE0) * 4096 + (r[1] as int - 0x80) * 64 + (r[2] as int - 0x80)
    else
      (r[0] as int - 0xF0) * 262144 + (r[1] as int - 0x80) * 4096 + (r[2] as int - 0x80) * 64
      + (r[3] as int - 0x80)
  }

  lemma CharSelfDelimiting(c: char)
    ensures var r := EncodeChar(c); |r| == Width(r[0]) && CodePoint(r) == c as int
  {
    var n := c as int;
    if n >= 0x10000 {
      assert n / 64 / 64 == n / 4096 && n / 4096 / 64 == n / 262144;
      assert n / 4096 == n / 262144 * 64 + n / 4096 % 64;
      assert n / 64 == n / 4096 * 64 + n / 64 % 64;
    } else if n >= 0x800 {
      assert n / 64 / 64 == n / 4096;
      assert n / 64 == n / 4096 * 64 + n / 64 % 64;
    }
  }

  /** Different texts have different bytes. */
  lemma {:induction false} EncodeInjective(s: string, t: string)
    requires Encode(s) == Encode(t)
    ensures s == t
  {
    if |s| > 0 && |t| > 0 {
      var a, b := EncodeChar(s[0]), EncodeChar(t[0]);
      CharSelfDelimiting(s[0]);
      CharSelfDelimiting(t[0]);
      assert Encode(s)[0] == a[0] && Encode(t)[0] == b[0];
      assert Encode(s)[..|a|] == a && Encode(t)[..|b|] == b;
      assert Encode(s)[|a|..] == Encode(s[1..]) && Encode(t)[|b|..] == Encode(t[1..]);
      EncodeInjective(s[1..], t[1..]);
      assert s == [s[0]] + s[1..] && t == [t[0]] + t[1..];
    }
  }

  /** ASCII text is its own bytes. */
  lemma {:induction false} AsciiIsItself(s: string)
    requires forall i :: 0 <= i < |s| ==> s[i] as int < 128
    ensures |Encode(s)| == |s| && forall i :: 0 <= i < |s| ==> Encode(s)[i] as int == s[i] as int
  {
    if |s| > 0 { AsciiIsItself(s[1..]); }
  }

  /** The bytes of a text are those of its characters, one after the other. */
  lemma {:induction false} EncodeConcat(s: string, t: string)
    ensures Encode(s + t) == Encode(s) + Encode(t)
  {
    if |s| == 0 {
      assert s + t == t;
    } else {
      assert (s + t)[0] == s[0] && (s + t)[1..] == s[1..] + t;
      EncodeConcat(s[1..], t);
    }
  }

  /** The bytes of one character (RFC 3629, section 3): how many, their marks, and the bits they carry. */
  lemma CharBytes(c: char)
    ensures var n, r := c as int, EncodeChar(c);
            && (n < 0x80 ==> |r| == 1 && r[0] as int == n)
            && (0x80 <= n < 0x800 ==>
                  |r| == 2 && 0xC0 <= r[0] < 0xE0 && n == (r[0] as int - 0xC0) * 64 + (r[1] as int - 0x80))
            && (0x800 <= n < 0x10000 ==>
                  |r| == 3 && 0xE0 <= r[0] < 0xF0
                  && n == (r[0] as int - 0xE0) * 4096 + (r[1] as int - 0x80) * 64 + (r[2] as int - 0x80))
            && (0x10000 <= n ==>
                  |r| == 4 && 0xF0 <= r[0] < 0xF8
                  && n == (r[0] as int - 0xF0) * 262144 + (r[1] as int - 0x80) * 4096 + (r[2] as int - 0x80) * 64
                          + (r[3] as int - 0x80))
            && forall i :: 1 <= i < |r| ==> 0x80 <= r[i] < 0xC0
  {
    CharSelfDelimiting(c);
  }
}
