/** UTF-8 (RFC 3629): the bytes of a string, and the string of some bytes. */
module Utf8 {
  type byte = x: int | 0 <= x < 256

  function EncodeChar(c: char): (r: seq<byte>)
    ensures 1 <= |r| <= 4
  {
    var n := c as int;
    if n < 0x80 then [n]
    else if n < 0x800 then [0xC0 + n / 64, 0x80 + n % 64]
    else if n < 0x10000 then [0xE0 + n / 64 / 64, 0x80 + n / 64 % 64, 0x80 + n % 64]
    else [0xF0 + n / 64 / 64 / 64, 0x80 + n / 64 / 64 % 64, 0x80 + n / 64 % 64, 0x80 + n % 64]
  }

  function Encode(s: string): seq<byte> {
    if s == "" then [] else EncodeChar(s[0]) + Encode(s[1..])
  }

  predicate Continues(b: seq<byte>, i: nat) {
    i < |b| && 0x80 <= b[i] < 0xC0
  }

  /** Six more bits, from a continuation byte. */
  function Joined(high: int, low: byte): int {
    high * 64 + low - 0x80
  }

  /** The first character and the number of bytes it takes.  A byte that starts no character
      decodes to the replacement character. */
  function DecodeChar(b: seq<byte>): (r: (char, nat))
    requires b != []
    ensures 1 <= r.1 <= |b|
  {
    if b[0] < 0x80 then (b[0] as char, 1)
    else if 0xC2 <= b[0] < 0xE0 && Continues(b, 1) then
      (Joined(b[0] - 0xC0, b[1]) as char, 2)
    else if 0xE0 <= b[0] < 0xF0 && Continues(b, 1) && Continues(b, 2) then
      var n := Joined(Joined(b[0] - 0xE0, b[1]), b[2]);
      if n < 0x800 || 0xD800 <= n < 0xE000 then (REPLACEMENT, 1) else (n as char, 3)
    else if 0xF0 <= b[0] < 0xF8 && Continues(b, 1) && Continues(b, 2) && Continues(b, 3) then
      var n := Joined(Joined(Joined(b[0] - 0xF0, b[1]), b[2]), b[3]);
      if n < 0x10000 || n >= 0x110000 then (REPLACEMENT, 1) else (n as char, 4)
    else (REPLACEMENT, 1)
  }

  const REPLACEMENT: char := '\U{FFFD}'

  function Decode(b: seq<byte>): string
    decreases |b|
  {
    if b == [] then "" else
      var first := DecodeChar(b);
      [first.0] + Decode(b[first.1..])
  }

  lemma CharRoundTrip(c: char, rest: seq<byte>)
    ensures DecodeChar(EncodeChar(c) + rest) == (c, |EncodeChar(c)|)
  {
    var n, b := c as int, EncodeChar(c) + rest;
    if n >= 0x800 {
      SplitSix(n);
      SplitSix(n / 64);
      if n >= 0x10000 {
        SplitSix(n / 64 / 64);
      }
    }
  }

  lemma SplitSix(n: nat)
    ensures Joined(n / 64, 0x80 + n % 64) == n
  {
  }

  /** Decoding undoes encoding, for every string of Unicode scalar values. */
  lemma {:induction false} RoundTrip(s: string)
    ensures Decode(Encode(s)) == s
    decreases |s|
  {
    if s != "" {
      var first, rest := EncodeChar(s[0]), Encode(s[1..]);
      CharRoundTrip(s[0], rest);
      assert (first + rest)[|first|..] == rest;
      RoundTrip(s[1..]);
    }
  }

  predicate Ascii(s: string) {
    forall i :: 0 <= i < |s| ==> s[i] as int < 0x80
  }

  function Bytes(s: string): (r: seq<byte>)
    requires Ascii(s)
    ensures |r| == |s| && forall i :: 0 <= i < |s| ==> r[i] == s[i] as int
  {
    seq(|s|, i requires 0 <= i < |s| => s[i] as int)
  }

  lemma {:induction false} AsciiDecodes(s: string)
    requires Ascii(s)
    ensures Decode(Bytes(s)) == s
    decreases |s|
  {
    if s != "" {
      assert Bytes(s)[1..] == Bytes(s[1..]);
      AsciiDecodes(s[1..]);
    }
  }

  /** The lead byte tells the length of a character (table 3 of RFC 3629), and the others continue it. */
  lemma EncodedShape(c: char)
    ensures var n, b := c as int, EncodeChar(c);
      && |b| == (if n < 0x80 then 1 else if n < 0x800 then 2 else if n < 0x10000 then 3 else 4)
      && (|b| == 1 ==> b[0] == n) && (|b| == 2 ==> 0xC2 <= b[0] <= 0xDF)
      && (|b| == 3 ==> 0xE0 <= b[0] <= 0xEF) && (|b| == 4 ==> 0xF0 <= b[0] <= 0xF4)
      && forall i :: 1 <= i < |b| ==> 0x80 <= b[i] <= 0xBF
  {
  }

  /** Whatever is decoded is what its character encodes to, and any other byte is replaced alone. */
  lemma DecodedIsEncoded(b: seq<byte>)
    requires b != []
    ensures var (c, n) := DecodeChar(b); b[..n] == EncodeChar(c) || (c == '\U{FFFD}' && n == 1)
  {
    var (c, n) := DecodeChar(b);
    if n == 2 {
      assert b[..2] == [b[0], b[1]];
    } else if n == 3 {
      ThreeBytes(b[0], b[1], b[2]);
      assert b[..3] == [b[0], b[1], b[2]];
    } else if n == 4 {
      FourBytes(b[0], b[1], b[2], b[3]);
      assert b[..4] == [b[0], b[1], b[2], b[3]];
    }
  }

  lemma ThreeBytes(a: byte, b: byte, c: byte)
    requires 0xE0 <= a < 0xF0 && 0x80 <= b < 0xC0 && 0x80 <= c < 0xC0
    ensures var n := Joined(Joined(a - 0xE0, b), c); n / 64 / 64 == a - 0xE0 && n / 64 % 64 == b - 0x80 && n % 64 == c - 0x80
  {
  }

  lemma FourBytes(a: byte, b: byte, c: byte, d: byte)
    requires 0xF0 <= a < 0xF8 && 0x80 <= b < 0xC0 && 0x80 <= c < 0xC0 && 0x80 <= d < 0xC0
    ensures var n := Joined(Joined(Joined(a - 0xF0, b), c), d);
      n / 64 / 64 / 64 == a - 0xF0 && n / 64 / 64 % 64 == b - 0x80 && n / 64 % 64 == c - 0x80 && n % 64 == d - 0x80
  {
  }
}
