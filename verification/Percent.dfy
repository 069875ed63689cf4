/** Percent-encoding of a text as its UTF-8 octets, and back (section 2.1 of RFC 3986). */
module Percent {

  // UTF-8

  function Utf8Char(c: char): seq<nat> {
    var n := c as int;
    if n < 0x80 then [n]
    else if n < 0x800 then [0xC0 + n / 64, 0x80 + n % 64]
    else if n < 0x10000 then [0xE0 + n / 4096, 0x80 + n / 64 % 64, 0x80 + n % 64]
    else [0xF0 + n / 262144, 0x80 + n / 4096 % 64, 0x80 + n / 64 % 64, 0x80 + n % 64]
  }

  function Utf8(s: string): seq<nat> {
    if s == "" then [] else Utf8Char(s[0]) + Utf8(s[1..])
  }

  /** The code points of well-formed octets, by lead octet. */
  function CodePoints(b: seq<nat>): seq<int>
    decreases |b|
  {
    if b == [] then []
    else if b[0] < 0x80 then [b[0]] + CodePoints(b[1..])
    else if b[0] < 0xE0 && |b| >= 2 then [(b[0] - 0xC0) * 64 + b[1] - 0x80] + CodePoints(b[2..])
    else if b[0] < 0xF0 && |b| >= 3 then
      [(b[0] - 0xE0) * 4096 + (b[1] - 0x80) * 64 + b[2] - 0x80] + CodePoints(b[3..])
    else if |b| >= 4 then
      [(b[0] - 0xF0) * 262144 + (b[1] - 0x80) * 4096 + (b[2] - 0x80) * 64 + b[3] - 0x80] + CodePoints(b[4..])
    else []
  }

  function Points(s: string): seq<int> {
    if s == "" then [] else [s[0] as int] + Points(s[1..])
  }

  lemma Digits64(n: nat)
    ensures n == n / 64 * 64 + n % 64
    ensures n == n / 4096 * 4096 + n / 64 % 64 * 64 + n % 64
    ensures n == n / 262144 * 262144 + n / 4096 % 64 * 4096 + n / 64 % 64 * 64 + n % 64
  {
    assert n / 4096 == n / 64 / 64;
    assert n / 262144 == n / 4096 / 64;
  }

  lemma CharDecodes(c: char, rest: seq<nat>)
    ensures CodePoints(Utf8Char(c) + rest) == [c as int] + CodePoints(rest)
  {
    var n := c as int;
    var b := Utf8Char(c) + rest;
    assert b[|Utf8Char(c)|..] == rest;
    Digits64(n);
  }

  /** UTF-8 loses nothing. */
  lemma {:induction false} Utf8Decodes(s: string)
    ensures CodePoints(Utf8(s)) == Points(s)
  {
    if s != "" {
      CharDecodes(s[0], Utf8(s[1..]));
      Utf8Decodes(s[1..]);
    }
  }

  lemma {:induction false} PointsInjective(a: string, b: string)
    requires Points(a) == Points(b)
    ensures a == b
  {
    if a != "" && b != "" {
      assert Points(a)[0] == Points(b)[0] && Points(a)[1..] == Points(b)[1..];
      PointsInjective(a[1..], b[1..]);
      assert a == [a[0]] + a[1..] && b == [b[0]] + b[1..];
    }
  }

  // Percent-encoding

  predicate Unreserved(b: nat) {
    ('a' as int <= b <= 'z' as int) || ('A' as int <= b <= 'Z' as int) || ('0' as int <= b <= '9' as int)
    || b == '_' as int || b == '.' as int || b == '-' as int || b == '~' as int
  }

  function Hex(d: nat): char
    requires d < 16
  {
    if d < 10 then '0' + d as char else 'A' + (d - 10) as char
  }

  predicate IsHex(c: char) { '0' <= c <= '9' || 'A' <= c <= 'F' }

  function HexValue(c: char): nat
    requires IsHex(c)
  {
    if c <= '9' then c as int - '0' as int else c as int - 'A' as int + 10
  }

  function QuoteOctet(b: nat): string
    requires b < 256
  {
    if Unreserved(b) then [b as char] else ['%', Hex(b / 16), Hex(b % 16)]
  }

  function QuoteOctets(bs: seq<nat>): string
    requires forall i :: 0 <= i < |bs| ==> bs[i] < 256
  {
    if bs == [] then "" else QuoteOctet(bs[0]) + QuoteOctets(bs[1..])
  }

  lemma {:induction false} Utf8IsOctets(s: string)
    ensures forall i :: 0 <= i < |Utf8(s)| ==> Utf8(s)[i] < 256
  {
    if s != "" {
      Utf8IsOctets(s[1..]);
      assert s[0] as int < 0x110000;
    }
  }

  /** quote(s, safe="") */
  function Quote(s: string): string {
    Utf8IsOctets(s);
    QuoteOctets(Utf8(s))
  }

  function Decode(s: string): seq<nat>
    decreases |s|
  {
    if s == "" then []
    else if s[0] == '%' && |s| >= 3 && IsHex(s[1]) && IsHex(s[2]) then
      [16 * HexValue(s[1]) + HexValue(s[2])] + Decode(s[3..])
    else [s[0] as int] + Decode(s[1..])
  }

  lemma HexDecodes(d: nat)
    requires d < 16
    ensures IsHex(Hex(d)) && HexValue(Hex(d)) == d
  {
  }

  lemma OctetDecodes(b: nat, rest: string)
    requires b < 256
    ensures Decode(QuoteOctet(b) + rest) == [b] + Decode(rest)
  {
    var s := QuoteOctet(b) + rest;
    if Unreserved(b) {
      assert s[1..] == rest;
    } else {
      assert s[3..] == rest;
      HexDecodes(b / 16);
      HexDecodes(b % 16);
    }
  }

  lemma {:induction false} OctetsDecode(bs: seq<nat>)
    requires forall i :: 0 <= i < |bs| ==> bs[i] < 256
    ensures Decode(QuoteOctets(bs)) == bs
  {
    if bs != [] {
      OctetDecodes(bs[0], QuoteOctets(bs[1..]));
      OctetsDecode(bs[1..]);
    }
  }

  /** Decoding a quoted text gives its octets, hence the text itself. */
  lemma QuoteRoundTrip(s: string)
    ensures Decode(Quote(s)) == Utf8(s) && CodePoints(Decode(Quote(s))) == Points(s)
  {
    Utf8IsOctets(s);
    OctetsDecode(Utf8(s));
    Utf8Decodes(s);
  }

  lemma QuoteInjective(a: string, b: string)
    requires Quote(a) == Quote(b)
    ensures a == b
  {
    QuoteRoundTrip(a);
    QuoteRoundTrip(b);
    PointsInjective(a, b);
  }

  predicate QuotedChar(c: char) { Unreserved(c as int) || c == '%' }

  lemma OctetChars(b: nat)
    requires b < 256
    ensures forall i :: 0 <= i < |QuoteOctet(b)| ==> QuotedChar(QuoteOctet(b)[i])
  {
    if !Unreserved(b) {
      assert QuotedChar(Hex(b / 16)) && QuotedChar(Hex(b % 16));
    }
  }

  lemma {:induction false} OctetsChars(bs: seq<nat>)
    requires forall i :: 0 <= i < |bs| ==> bs[i] < 256
    ensures forall i :: 0 <= i < |QuoteOctets(bs)| ==> QuotedChar(QuoteOctets(bs)[i])
  {
    if bs != [] {
      OctetChars(bs[0]);
      OctetsChars(bs[1..]);
    }
  }

  /** A quoted text consists of unreserved characters and percent signs. */
  lemma QuoteChars(s: string)
    ensures forall i :: 0 <= i < |Quote(s)| ==> QuotedChar(Quote(s)[i])
  {
    Utf8IsOctets(s);
    OctetsChars(Utf8(s));
  }

  // What is quoted and how, spelled out

  predicate LeftAlone(c: char) {
    'a' <= c <= 'z' || 'A' <= c <= 'Z' || '0' <= c <= '9' || c == '_' || c == '.' || c == '-' || c == '~'
  }

  const HEX_DIGITS := "0123456789ABCDEF"

  lemma {:induction false} Utf8Plus(a: string, b: string)
    ensures Utf8(a + b) == Utf8(a) + Utf8(b)
  {
    if a == "" {
      assert a + b == b;
    } else {
      Utf8Plus(a[1..], b);
      assert (a + b)[1..] == a[1..] + b;
    }
  }

  lemma {:induction false} OctetsPlus(a: seq<nat>, b: seq<nat>)
    requires forall i :: 0 <= i < |a| ==> a[i] < 256
    requires forall i :: 0 <= i < |b| ==> b[i] < 256
    ensures QuoteOctets(a + b) == QuoteOctets(a) + QuoteOctets(b)
  {
    if a == [] {
      assert a + b == b;
    } else {
      OctetsPlus(a[1..], b);
      assert (a + b)[1..] == a[1..] + b;
    }
  }

  /** A text is quoted character by character. */
  lemma QuotePlus(a: string, b: string)
    ensures Quote(a + b) == Quote(a) + Quote(b)
  {
    Utf8IsOctets(a);
    Utf8IsOctets(b);
    Utf8Plus(a, b);
    OctetsPlus(Utf8(a), Utf8(b));
  }

  /** An octet is left alone exactly when it is a letter, a digit, or one of '_', '.', '-' and '~'; otherwise it
      becomes '%' and two upper-case hexadecimal digits. */
  lemma OctetQuoted(b: nat)
    requires b < 256
    ensures QuoteOctet(b) ==
      if LeftAlone(b as char) then [b as char] else ['%', HEX_DIGITS[b / 16], HEX_DIGITS[b % 16]]
  {
    assert HEX_DIGITS[..10] == "0123456789" && HEX_DIGITS[10..] == "ABCDEF";
  }

  lemma QuoteOne(c: char)
    requires LeftAlone(c)
    ensures Quote([c]) == [c]
  {
    Utf8IsOctets([c]);
    assert Utf8([c]) == [c as nat];
    assert QuoteOctets([c as nat]) == QuoteOctet(c as nat);
  }

  /** A text of such characters is its own quote. */
  lemma {:induction false} QuotePlain(s: string)
    requires forall i :: 0 <= i < |s| ==> LeftAlone(s[i])
    ensures Quote(s) == s
  {
    if s != "" {
      QuoteOne(s[0]);
      QuotePlain(s[1..]);
      assert s == [s[0]] + s[1..];
      QuotePlus([s[0]], s[1..]);
    }
  }
}
