/** UTF-8 as used by `new String(bytes, UTF_8)` and `String.getBytes(UTF_8)`.
    A Dafny `char` is one Unicode scalar value; Java's `String.length()`
    counts UTF-16 code units, so a supplementary character counts twice. */
module Utf8 {
  import opened Wire

  const REPLACEMENT: char := '�'

  /** How many continuation bytes follow the lead byte of scalar `x`. */
  function ContinuationCount(x: int): (n: nat)
    ensures n <= 3
  {
    if x < 0x80 then 0 else if x < 0x800 then 1 else if x < 0x1_0000 then 2 else 3
  }

  /** The last `n` groups of six bits of `x`, most significant first, each
      marked 10xxxxxx. */
  function ContinuationBytes(x: nat, n: nat): (r: seq<byte>)
    ensures |r| == n
  {
    if n == 0 then [] else ContinuationBytes(x / 64, n - 1) + [(0x80 + x % 64) as byte]
  }

  /** The lead byte: the length marker and the bits the continuation bytes
      do not carry. */
  function LeadByte(x: nat, n: nat): byte
    requires n == ContinuationCount(x) && x < 0x11_0000
  {
    if n == 0 then x as byte
    else if n == 1 then (0xC0 + x / 64) as byte
    else if n == 2 then (0xE0 + x / 4096) as byte
    else (0xF0 + x / 262144) as byte
  }

  function EncodeChar(c: char): (r: seq<byte>)
    ensures 1 <= |r| <= 4
  {
    var x := c as int;
    [LeadByte(x, ContinuationCount(x))] + ContinuationBytes(x, ContinuationCount(x))
  }

  function Encode(s: string): (r: seq<byte>)
    ensures |s| <= |r| <= 4 * |s|
  {
    if s == [] then [] else EncodeChar(s[0]) + Encode(s[1..])
  }

  predicate IsContinuation(b: byte) {
    0x80 <= b < 0xC0
  }

  predicate IsScalar(v: int) {
    (0 <= v < 0xD800) || (0xE000 <= v < 0x11_0000)
  }

  /** How many continuation bytes a lead byte announces: 0 for a
      single-byte character, -1 for a byte that cannot start one. */
  function ContinuationsAfter(b0: byte): int {
    if b0 < 0x80 then 0 else if 0xC0 <= b0 < 0xE0 then 1 else if 0xE0 <= b0 < 0xF0 then 2
    else if 0xF0 <= b0 < 0xF8 then 3 else -1
  }

  /** The payload bits of a lead byte that announces `n` continuation bytes. */
  function LeadBits(b0: byte, n: int): int {
    if n == 1 then b0 as int - 0xC0 else if n == 2 then b0 as int - 0xE0 else b0 as int - 0xF0
  }

  /** The smallest scalar that needs `n` continuation bytes; anything
      smaller is an overlong form. */
  function MinScalar(n: int): int {
    if n == 1 then 0x80 else if n == 2 then 0x800 else 0x1_0000
  }

  /** Appends the six payload bits of each of the `n` bytes at `b[i..]` to
      `lead`; None when one of them is not a continuation byte. */
  function ContinuationValue(b: seq<byte>, i: nat, n: nat, lead: int): Option<int>
    requires i + n <= |b|
  {
    if n == 0 then Some(lead)
    else if !IsContinuation(b[i + n - 1]) then None
    else match ContinuationValue(b, i, n - 1, lead)
      case None => None
      case Some(v) => Some(v * 64 + (b[i + n - 1] as int - 0x80))
  }

  /** Decodes the first character of a non-empty byte string and says how
      many bytes it used. An ill-formed byte becomes one U+FFFD. */
  function DecodeFirst(b: seq<byte>): (r: (char, nat))
    requires |b| > 0
    ensures 1 <= r.1 <= |b| && r.1 <= 4
  {
    var n := ContinuationsAfter(b[0]);
    if n == 0 then (b[0] as char, 1)
    else if n < 0 || |b| < n + 1 then (REPLACEMENT, 1)
    else match ContinuationValue(b, 1, n, LeadBits(b[0], n))
      case None => (REPLACEMENT, 1)
      case Some(v) => if MinScalar(n) <= v && IsScalar(v) then (v as char, n + 1) else (REPLACEMENT, 1)
  }

  function Decode(b: seq<byte>): (s: string)
    ensures |s| <= |b|
    decreases |b|
  {
    if b == [] then [] else
      var (c, n) := DecodeFirst(b);
      [c] + Decode(b[n..])
  }

  /** Java's `String.length()`: UTF-16 code units. */
  function Utf16Length(s: string): (n: nat)
    ensures |s| <= n <= 2 * |s|
  {
    if s == [] then 0 else (if s[0] as int >= 0x1_0000 then 2 else 1) + Utf16Length(s[1..])
  }

  lemma Split3(x: int)
    requires 0 <= x
    ensures x == (x / 4096) * 4096 + ((x / 64) % 64) * 64 + x % 64
  {
    assert x == (x / 64) * 64 + x % 64;
    assert x / 64 == ((x / 64) / 64) * 64 + (x / 64) % 64;
    assert (x / 64) / 64 == x / 4096;
  }

  lemma Split4(x: int)
    requires 0 <= x
    ensures x == (x / 262144) * 262144 + ((x / 4096) % 64) * 4096 + ((x / 64) % 64) * 64 + x % 64
  {
    Split3(x);
    assert x / 4096 == ((x / 4096) / 64) * 64 + (x / 4096) % 64;
    assert (x / 4096) / 64 == x / 262144;
  }

  /** A two-byte character decodes back. */
  lemma DecodeEncodeChar2(c: char, rest: seq<byte>)
    requires 0x80 <= c as int < 0x800
    ensures DecodeFirst(EncodeChar(c) + rest) == (c, 2)
  {
    var x := c as int;
    var b := EncodeChar(c) + rest;
    assert b[0] == (0xC0 + x / 64) as byte && b[1] == (0x80 + x % 64) as byte;
    assert ContinuationValue(b, 1, 1, x / 64) == Some(x);
  }

  /** A three-byte character decodes back. */
  lemma DecodeEncodeChar3(c: char, rest: seq<byte>)
    requires 0x800 <= c as int < 0x1_0000
    ensures DecodeFirst(EncodeChar(c) + rest) == (c, 3)
  {
    var x := c as int;
    var b := EncodeChar(c) + rest;
    assert ContinuationBytes(x, 2) == [(0x80 + (x / 64) % 64) as byte, (0x80 + x % 64) as byte];
    assert b[0] == (0xE0 + x / 4096) as byte;
    assert b[1] == (0x80 + (x / 64) % 64) as byte && b[2] == (0x80 + x % 64) as byte;
    Split3(x);
    assert ContinuationValue(b, 1, 1, x / 4096) == Some((x / 4096) * 64 + (x / 64) % 64);
    assert ContinuationValue(b, 1, 2, x / 4096) == Some(x);
  }

  /** A four-byte character decodes back. */
  lemma DecodeEncodeChar4(c: char, rest: seq<byte>)
    requires 0x1_0000 <= c as int
    ensures DecodeFirst(EncodeChar(c) + rest) == (c, 4)
  {
    var x := c as int;
    var b := EncodeChar(c) + rest;
    assert ContinuationBytes(x / 64, 2) == [(0x80 + (x / 4096) % 64) as byte, (0x80 + (x / 64) % 64) as byte] by {
      assert x / 64 / 64 == x / 4096;
    }
    assert b[0] == (0xF0 + x / 262144) as byte;
    assert b[1] == (0x80 + (x / 4096) % 64) as byte && b[2] == (0x80 + (x / 64) % 64) as byte;
    assert b[3] == (0x80 + x % 64) as byte;
    Split4(x);
    var v1 := (x / 262144) * 64 + (x / 4096) % 64;
    var v2 := v1 * 64 + (x / 64) % 64;
    assert ContinuationValue(b, 1, 1, x / 262144) == Some(v1);
    assert ContinuationValue(b, 1, 2, x / 262144) == Some(v2);
    assert ContinuationValue(b, 1, 3, x / 262144) == Some(x);
  }

  /** The first character of an encoding decodes back, using all its bytes. */
  lemma DecodeEncodeChar(c: char, rest: seq<byte>)
    ensures DecodeFirst(EncodeChar(c) + rest) == (c, |EncodeChar(c)|)
  {
    var x := c as int;
    if x < 0x80 {
    } else if x < 0x800 {
      DecodeEncodeChar2(c, rest);
    } else if x < 0x1_0000 {
      DecodeEncodeChar3(c, rest);
    } else {
      DecodeEncodeChar4(c, rest);
    }
  }

  /** Encoding then decoding gives back the string. */
  lemma {:induction false} DecodeEncode(s: string)
    ensures Decode(Encode(s)) == s
  {
    if s != [] {
      var e := EncodeChar(s[0]);
      var rest := Encode(s[1..]);
      DecodeEncodeChar(s[0], rest);
      assert (e + rest)[|e|..] == rest;
      DecodeEncode(s[1..]);
    }
  }

  /** Every UTF-16 code unit costs at most three UTF-8 bytes, which is why
      a byte length above four times the character limit can be refused
      before decoding. */
  lemma {:induction false} EncodedLengthBound(s: string)
    ensures |Encode(s)| <= 3 * Utf16Length(s)
  {
    if s != [] {
      EncodedLengthBound(s[1..]);
    }
  }
}
