/** The canonical text form of a UUID: 32 upper-case hexadecimal digits in
    groups of 8-4-4-4-12 separated by hyphens. */
module Canonical {

  import opened Wrappers

  /** The digit table, indexed by nibble value. */
  const Digits: string := "0123456789ABCDEF"

  /** The characters of the digit table. */
  predicate IsDigit(c: char)
  {
    '0' <= c <= '9' || 'A' <= c <= 'F'
  }

  /** The nibble an upper-case hexadecimal digit stands for; None for any other character. */
  function DigitValue(c: char): (v: Option<nat>)
    ensures v.Some? <==> IsDigit(c)
    ensures v.Some? ==> v.value < 16 && Digits[v.value] == c
  {
    if '0' <= c <= '9' then Some(c as int - '0' as int)
    else if 'A' <= c <= 'F' then Some(c as int - 'A' as int + 10)
    else None
  }

  /** The digit for a nibble. */
  function Hex(n: bv8): (c: char)
    requires n < 16
    ensures DigitValue(c) == Some(n as nat)
  {
    Digits[n as int]
  }

  /** Nibble t of a byte sequence, high nibble first. */
  function NibbleOf(u: seq<bv8>, t: nat): (n: bv8)
    requires t < 2 * |u|
    ensures n < 16
  {
    if t % 2 == 0 then u[t / 2] >> 4 else u[t / 2] & 0xF
  }

  /** The digits of a byte sequence, two per byte, high nibble first. */
  function HexDigits(u: seq<bv8>): (s: string)
    ensures |s| == 2 * |u|
    ensures forall j :: 0 <= j < |s| ==> IsDigit(s[j])
  {
    if u == [] then [] else [Hex(u[0] >> 4), Hex(u[0] & 0xF)] + HexDigits(u[1..])
  }

  /** The byte a pair of digit values stands for. */
  function FromNibbles(hi: nat, lo: nat): bv8
    requires hi < 16 && lo < 16
  {
    (hi as bv8) * 16 + (lo as bv8)
  }

  /** Reads pairs of digits back into bytes; None unless every character is a digit. */
  function ParseDigits(s: string): (r: Option<seq<bv8>>)
    requires |s| % 2 == 0
    ensures r.Some? ==> |r.value| == |s| / 2
  {
    if s == [] then Some([])
    else match (DigitValue(s[0]), DigitValue(s[1]), ParseDigits(s[2..]))
      case (Some(hi), Some(lo), Some(rest)) => Some([FromNibbles(hi, lo)] + rest)
      case _ => None
  }

  /** The offsets of the canonical string that hold a hyphen. */
  predicate IsHyphenOffset(k: int)
  {
    k == 8 || k == 13 || k == 18 || k == 23
  }

  /** The number of hyphens before offset k. */
  function HyphensBefore(k: nat): nat
  {
    if k <= 8 then 0 else if k <= 13 then 1 else if k <= 18 then 2 else if k <= 23 then 3 else 4
  }

  /** The offset in the canonical string of digit j (0 <= j < 32). */
  function DigitOffset(j: nat): (k: nat)
    requires j < 32
    ensures k < 36 && !IsHyphenOffset(k) && k - HyphensBefore(k) == j
  {
    j + (if j < 8 then 0 else if j < 12 then 1 else if j < 16 then 2 else if j < 20 then 3 else 4)
  }

  /** The canonical rendering of 16 bytes: 36 characters, a hyphen at offsets
      8, 13, 18 and 23, and at every other offset the digits of the bytes in
      order, high nibble first. */
  function Render(u: seq<bv8>): (s: string)
    requires |u| == 16
    ensures |s| == 36
    ensures forall k :: 0 <= k < 36 ==> (s[k] == '-' <==> IsHyphenOffset(k))
    ensures forall k :: 0 <= k < 36 && !IsHyphenOffset(k) ==> IsDigit(s[k])
    ensures forall j :: 0 <= j < 32 ==> DigitValue(s[DigitOffset(j)]) == Some(NibbleOf(u, j) as nat)
  {
    seq(36, k requires 0 <= k < 36 =>
      if IsHyphenOffset(k) then '-' else Hex(NibbleOf(u, k - HyphensBefore(k))))
  }

  /** A digit offset of the rendering holds the digit of its nibble. */
  lemma RenderAt(u: seq<bv8>, k: nat)
    requires |u| == 16 && k < 36 && !IsHyphenOffset(k)
    ensures Render(u)[k] == Hex(NibbleOf(u, k - HyphensBefore(k)))
  {
  }

  /** Byte j of the UUID is rendered as two digits, high nibble first, at
      the offsets of digits 2j and 2j+1. */
  lemma RenderByte(u: seq<bv8>, j: nat)
    requires |u| == 16 && j < 16
    ensures Render(u)[DigitOffset(2 * j)] == Hex(u[j] >> 4)
    ensures Render(u)[DigitOffset(2 * j + 1)] == Hex(u[j] & 0xF)
  {
    assert (2 * j) / 2 == j && (2 * j) % 2 == 0;
    assert (2 * j + 1) / 2 == j && (2 * j + 1) % 2 == 1;
    RenderAt(u, DigitOffset(2 * j));
    RenderAt(u, DigitOffset(2 * j + 1));
  }

  /** The 32 digits of a 36-character string with its hyphen offsets left out. */
  function Ungroup(s: string): (h: string)
    requires |s| == 36
    ensures |h| == 32
  {
    seq(32, j requires 0 <= j < 32 => s[DigitOffset(j)])
  }

  /** Reads a canonical string back into 16 bytes; None for any string that is
      not 36 characters with hyphens at 8, 13, 18, 23 and upper-case digits elsewhere. */
  function Parse(s: string): (r: Option<seq<bv8>>)
    ensures r.Some? ==> |r.value| == 16
  {
    if |s| == 36 && s[8] == '-' && s[13] == '-' && s[18] == '-' && s[23] == '-'
    then ParseDigits(Ungroup(s))
    else None
  }

  lemma NibbleRoundTrip(n: bv8)
    ensures (n as int) as bv8 == n
  {
  }

  lemma PackNibbles(x: bv8)
    ensures (x >> 4) * 16 + (x & 0xF) == x
  {
  }

  lemma FromNibblesOfByte(x: bv8)
    ensures FromNibbles((x >> 4) as int, (x & 0xF) as int) == x
  {
    NibbleRoundTrip(x >> 4);
    NibbleRoundTrip(x & 0xF);
    PackNibbles(x);
  }

  lemma UnpackNibbles(hi: nat, lo: nat)
    requires hi < 16 && lo < 16
    ensures FromNibbles(hi, lo) >> 4 == hi as bv8 && FromNibbles(hi, lo) & 0xF == lo as bv8
  {
  }

  lemma HexOfDigitValue(c: char)
    requires DigitValue(c).Some?
    ensures Hex(DigitValue(c).value as bv8) == c
  {
    var n := DigitValue(c).value;
    assert (n as bv8) as int == n;
  }

  /** A pair of digits read into a byte renders back as the same pair. */
  lemma HexOfDigitPair(c0: char, c1: char)
    requires DigitValue(c0).Some? && DigitValue(c1).Some?
    ensures var x := FromNibbles(DigitValue(c0).value, DigitValue(c1).value);
      Hex(x >> 4) == c0 && Hex(x & 0xF) == c1
  {
    UnpackNibbles(DigitValue(c0).value, DigitValue(c1).value);
    HexOfDigitValue(c0);
    HexOfDigitValue(c1);
  }

  lemma HexDigitsCons(x: bv8, rest: seq<bv8>)
    ensures HexDigits([x] + rest) == [Hex(x >> 4), Hex(x & 0xF)] + HexDigits(rest)
  {
    assert ([x] + rest)[1..] == rest;
  }

  /** Digit j of HexDigits(u) is the digit of nibble j. */
  lemma {:induction false} HexDigitsAt(u: seq<bv8>, j: nat)
    requires j < 2 * |u|
    ensures HexDigits(u)[j] == Hex(NibbleOf(u, j))
  {
    if j >= 2 {
      HexDigitsAt(u[1..], j - 2);
      assert j / 2 == (j - 2) / 2 + 1 && j % 2 == (j - 2) % 2;
      assert NibbleOf(u, j) == NibbleOf(u[1..], j - 2);
    }
  }

  /** Reading the two digits of a byte in front of more digits gives that byte in front. */
  lemma ParseDigitsCons(x: bv8, t: string, rest: seq<bv8>)
    requires |t| % 2 == 0 && ParseDigits(t) == Some(rest)
    ensures ParseDigits([Hex(x >> 4), Hex(x & 0xF)] + t) == Some([x] + rest)
  {
    var s := [Hex(x >> 4), Hex(x & 0xF)] + t;
    assert s[0] == Hex(x >> 4) && s[1] == Hex(x & 0xF) && s[2..] == t;
    FromNibblesOfByte(x);
  }

  lemma {:induction false} ParseHexDigits(u: seq<bv8>)
    ensures ParseDigits(HexDigits(u)) == Some(u)
  {
    if u != [] {
      var t := HexDigits(u[1..]);
      assert HexDigits(u) == [Hex(u[0] >> 4), Hex(u[0] & 0xF)] + t;
      ParseHexDigits(u[1..]);
      ParseDigitsCons(u[0], t, u[1..]);
      assert [u[0]] + u[1..] == u;
    }
  }

  /** A successful parse of a non-empty string starts with the byte of its first two digits. */
  lemma ParseDigitsUncons(s: string)
    requires |s| % 2 == 0 && s != [] && ParseDigits(s).Some?
    ensures DigitValue(s[0]).Some? && DigitValue(s[1]).Some? && ParseDigits(s[2..]).Some?
    ensures ParseDigits(s).value
      == [FromNibbles(DigitValue(s[0]).value, DigitValue(s[1]).value)] + ParseDigits(s[2..]).value
  {
  }

  /** A byte whose digits start s, in front of bytes whose digits are the rest of s, has digits s. */
  lemma HexDigitsFront(s: string, x: bv8, rest: seq<bv8>)
    requires |s| >= 2 && Hex(x >> 4) == s[0] && Hex(x & 0xF) == s[1] && HexDigits(rest) == s[2..]
    ensures HexDigits([x] + rest) == s
  {
    HexDigitsCons(x, rest);
    assert s == [s[0], s[1]] + s[2..];
  }

  lemma {:induction false} HexDigitsOfParse(s: string, u: seq<bv8>)
    requires |s| % 2 == 0 && ParseDigits(s) == Some(u)
    ensures HexDigits(u) == s
  {
    if s != [] {
      ParseDigitsUncons(s);
      var rest := ParseDigits(s[2..]).value;
      var x := FromNibbles(DigitValue(s[0]).value, DigitValue(s[1]).value);
      HexDigitsOfParse(s[2..], rest);
      HexOfDigitPair(s[0], s[1]);
      HexDigitsFront(s, x, rest);
    }
  }

  /** Leaving out the hyphens of the rendering leaves the digits of the bytes. */
  lemma UngroupRender(u: seq<bv8>)
    requires |u| == 16
    ensures Ungroup(Render(u)) == HexDigits(u)
  {
    forall j | 0 <= j < 32
      ensures Ungroup(Render(u))[j] == HexDigits(u)[j]
    {
      var k := DigitOffset(j);
      RenderAt(u, k);
      assert Ungroup(Render(u))[j] == Render(u)[k];
      HexDigitsAt(u, j);
    }
  }

  /** Parsing the rendering gives back the 16 bytes. */
  lemma ParseRender(u: seq<bv8>)
    requires |u| == 16
    ensures Parse(Render(u)) == Some(u)
  {
    UngroupRender(u);
    ParseHexDigits(u);
  }

  /** Two 36-character strings with hyphens at the four hyphen offsets are
      equal when their digits are. */
  lemma UngroupInjective(s: string, t: string)
    requires |s| == 36 && s[8] == '-' && s[13] == '-' && s[18] == '-' && s[23] == '-'
    requires |t| == 36 && t[8] == '-' && t[13] == '-' && t[18] == '-' && t[23] == '-'
    requires Ungroup(s) == Ungroup(t)
    ensures s == t
  {
    forall k | 0 <= k < 36
      ensures s[k] == t[k]
    {
      if !IsHyphenOffset(k) {
        var j := k - HyphensBefore(k);
        assert DigitOffset(j) == k;
        assert Ungroup(s)[j] == Ungroup(t)[j];
      }
    }
  }

  /** Every string that parses is the rendering of what it parses to, so the
      canonical form of 16 bytes is unique. */
  lemma RenderParse(s: string)
    requires Parse(s).Some?
    ensures Render(Parse(s).value) == s
  {
    var u := Parse(s).value;
    HexDigitsOfParse(Ungroup(s), u);
    UngroupRender(u);
    UngroupInjective(Render(u), s);
  }
}
