/**
 * The pieces of Python's str behaviour the system relies on: strip() and lower()
 * (ASCII range), "sep".join(parts), str() of an integer, hexdigest() and int(s, 16),
 * and the code-point ordering that sorted() uses.
 */
module Strings {
  import opened ModArith

  // ---------------------------------------------------------------- whitespace

  /** The ASCII characters for which Python's str.isspace() holds. */
  predicate IsSpace(c: char) {
    c == ' ' || c == '\t' || c == '\n' || c == '\r' || c == '\U{B}' || c == '\U{C}'
    || c == '\U{1C}' || c == '\U{1D}' || c == '\U{1E}' || c == '\U{1F}'
  }

  predicate AllSpace(s: string) {
    forall i :: 0 <= i < |s| ==> IsSpace(s[i])
  }

  /** str.lstrip(): drops the longest all-whitespace prefix. */
  function StripLeft(s: string): (r: string)
    ensures |r| <= |s| && r == s[|s| - |r|..]
    ensures AllSpace(s[..|s| - |r|])
    ensures r == [] || !IsSpace(r[0])
  {
    if s == [] || !IsSpace(s[0]) then s else StripLeft(s[1..])
  }

  /** str.rstrip(): drops the longest all-whitespace suffix. */
  function StripRight(s: string): (r: string)
    ensures |r| <= |s| && r == s[..|r|]
    ensures AllSpace(s[|r|..])
    ensures r == [] || !IsSpace(r[|r| - 1])
  {
    if s == [] || !IsSpace(s[|s| - 1]) then s else StripRight(s[..|s| - 1])
  }

  /** str.strip() */
  function Strip(s: string): string {
    StripRight(StripLeft(s))
  }

  // ---------------------------------------------------------------- letter case

  function LowerChar(c: char): char {
    if 'A' <= c <= 'Z' then (c as int + 32) as char else c
  }

  /** str.lower() on the ASCII letters; every other character is kept. */
  function Lower(s: string): (r: string)
    ensures |r| == |s|
    ensures forall i :: 0 <= i < |s| ==> r[i] == LowerChar(s[i])
  {
    seq(|s|, i requires 0 <= i < |s| => LowerChar(s[i]))
  }

  /** The normal form of an identifier field: str(value).strip().lower(). */
  function Normalize(s: string): string {
    Lower(Strip(s))
  }

  lemma {:induction false} StripLeftPadding(p: string, s: string)
    requires AllSpace(p)
    ensures StripLeft(p + s) == StripLeft(s)
  {
    if p != [] {
      assert (p + s)[1..] == p[1..] + s;
      StripLeftPadding(p[1..], s);
    } else {
      assert p + s == s;
    }
  }

  lemma {:induction false} StripRightPadding(s: string, q: string)
    requires AllSpace(q)
    ensures StripRight(s + q) == StripRight(s)
  {
    if q != [] {
      assert (s + q)[..|s + q| - 1] == s + q[..|q| - 1];
      StripRightPadding(s, q[..|q| - 1]);
    } else {
      assert s + q == s;
    }
  }

  /** Appending anything after a non-blank head does not change what lstrip() removes. */
  lemma {:induction false} StripLeftAppend(s: string, q: string)
    requires StripLeft(s) != []
    ensures StripLeft(s + q) == StripLeft(s) + q
  {
    assert (s + q)[0] == s[0];
    if IsSpace(s[0]) {
      assert StripLeft(s) == StripLeft(s[1..]);
      assert (s + q)[1..] == s[1..] + q;
      StripLeftAppend(s[1..], q);
    } else {
      assert StripLeft(s) == s;
    }
  }

  /** Surrounding whitespace never changes the stripped value. */
  lemma StripIgnoresPadding(p: string, s: string, q: string)
    requires AllSpace(p) && AllSpace(q)
    ensures Strip(p + s + q) == Strip(s)
  {
    assert p + s + q == p + (s + q);
    StripLeftPadding(p, s + q);
    if StripLeft(s) == [] {
      var k := |s| - |StripLeft(s)|;
      assert s == s[..k];
      assert AllSpace(s + q);
      StripLeftPadding(s + q, []);
      assert (s + q) + [] == s + q;
    } else {
      StripLeftAppend(s, q);
      StripRightPadding(StripLeft(s), q);
    }
  }

  lemma LowerKeepsSpace(c: char)
    ensures IsSpace(LowerChar(c)) <==> IsSpace(c)
  {
  }

  lemma {:induction false} LowerStripLeft(s: string)
    ensures Lower(StripLeft(s)) == StripLeft(Lower(s))
  {
    if s != [] {
      LowerKeepsSpace(s[0]);
      var l := Lower(s);
      assert l[0] == LowerChar(s[0]);
      if IsSpace(s[0]) {
        assert l[1..] == Lower(s[1..]);
        assert StripLeft(l) == StripLeft(l[1..]);
        assert StripLeft(s) == StripLeft(s[1..]);
        LowerStripLeft(s[1..]);
      } else {
        assert StripLeft(l) == l;
      }
    }
  }

  lemma {:induction false} LowerStripRight(s: string)
    ensures Lower(StripRight(s)) == StripRight(Lower(s))
  {
    if s != [] {
      LowerKeepsSpace(s[|s| - 1]);
      var l := Lower(s);
      assert l[|l| - 1] == LowerChar(s[|s| - 1]);
      if IsSpace(s[|s| - 1]) {
        assert l[..|l| - 1] == Lower(s[..|s| - 1]);
        assert StripRight(l) == StripRight(l[..|l| - 1]);
        assert StripRight(s) == StripRight(s[..|s| - 1]);
        LowerStripRight(s[..|s| - 1]);
      } else {
        assert StripRight(l) == l;
      }
    }
  }

  /**
   * Two identifier fields that differ only in letter case and in surrounding
   * whitespace have the same normal form.
   */
  lemma NormalizeIgnoresCaseAndPadding(p: string, s: string, q: string, p': string, t: string, q': string)
    requires AllSpace(p) && AllSpace(q) && AllSpace(p') && AllSpace(q')
    requires Lower(s) == Lower(t)
    ensures Normalize(p + s + q) == Normalize(p' + t + q')
  {
    StripIgnoresPadding(p, s, q);
    StripIgnoresPadding(p', t, q');
    LowerStripLeft(s);
    LowerStripRight(StripLeft(s));
    LowerStripLeft(t);
    LowerStripRight(StripLeft(t));
  }

  lemma {:induction false} LowerIdempotent(s: string)
    ensures Lower(Lower(s)) == Lower(s)
  {
  }

  /** Normalizing a normalized field changes nothing. */
  lemma NormalizeIdempotent(s: string)
    ensures Normalize(Normalize(s)) == Normalize(s)
  {
    var t := Strip(s);
    var l := StripLeft(s);
    assert StripLeft(t) == t by {
      if t != [] {
        assert t[0] == l[0];
      }
    }
    assert StripRight(t) == t;
    LowerStripLeft(t);
    assert StripLeft(Lower(t)) == Lower(t);
    LowerStripRight(t);
    assert Strip(Lower(t)) == Lower(t);
    LowerIdempotent(t);
  }

  /** No whitespace and no upper-case letter. */
  predicate Plain(s: string) {
    forall i :: 0 <= i < |s| ==> !IsSpace(s[i]) && !('A' <= s[i] <= 'Z')
  }

  /** A plain field is its own normal form. */
  lemma NormalizeKeepsPlain(s: string)
    requires Plain(s)
    ensures Normalize(s) == s
  {
    assert StripLeft(s) == s;
    assert StripRight(s) == s;
    assert Lower(s) == s;
  }

  // ---------------------------------------------------------------- join, str(int)

  /** sep.join(parts) */
  function Join(parts: seq<string>, sep: string): string
  {
    if |parts| == 0 then ""
    else if |parts| == 1 then parts[0]
    else Join(parts[..|parts| - 1], sep) + sep + parts[|parts| - 1]
  }

  function DigitChar(d: nat): char
    requires d < 10
  {
    "0123456789"[d]
  }

  function NatToDecimal(n: nat): (r: string)
    ensures |r| > 0
  {
    if n < 10 then [DigitChar(n)] else NatToDecimal(n / 10) + [DigitChar(n % 10)]
  }

  /** str(i) for a Python int. */
  function IntToDecimal(i: int): string {
    if i < 0 then "-" + NatToDecimal(-i) else NatToDecimal(i)
  }

  // ---------------------------------------------------------------- hexdigest, int(s, 16)

  type Byte = b: int | 0 <= b < 256

  const HexDigits: string := "0123456789abcdef"

  predicate IsHexDigit(c: char) {
    '0' <= c <= '9' || 'a' <= c <= 'f'
  }

  predicate IsHexString(s: string) {
    forall i :: 0 <= i < |s| ==> IsHexDigit(s[i])
  }

  function ByteToHex(b: Byte): string {
    [HexDigits[b / 16], HexDigits[b % 16]]
  }

  /** hexdigest(): two lower-case hex digits per byte, most significant nibble first. */
  function Hex(bytes: seq<Byte>): (r: string)
    ensures |r| == 2 * |bytes|
    ensures IsHexString(r)
  {
    if bytes == [] then "" else ByteToHex(bytes[0]) + Hex(bytes[1..])
  }

  function HexValue(c: char): (v: nat)
    requires IsHexDigit(c)
    ensures v < 16
  {
    if '0' <= c <= '9' then c as int - '0' as int else c as int - 'a' as int + 10
  }

  /** int(s, 16) on a string of hex digits. */
  function ParseHex(s: string): (n: nat)
    requires IsHexString(s)
    ensures n < Pow(16, |s|)
  {
    if s == [] then 0 else ParseHex(s[..|s| - 1]) * 16 + HexValue(s[|s| - 1])
  }

  // ---------------------------------------------------------------- ordering

  /** a <= b for Python str values: lexicographic comparison of code points. */
  predicate LexLessEq(a: string, b: string) {
    a == [] || (b != [] && (a[0] < b[0] || (a[0] == b[0] && LexLessEq(a[1..], b[1..]))))
  }

  lemma {:induction false} LexTotal(a: string, b: string)
    ensures LexLessEq(a, b) || LexLessEq(b, a)
  {
    if a != [] && b != [] && a[0] == b[0] {
      LexTotal(a[1..], b[1..]);
    }
  }

  lemma {:induction false} LexAntisymmetric(a: string, b: string)
    requires LexLessEq(a, b) && LexLessEq(b, a)
    ensures a == b
  {
    if a != [] && b != [] {
      LexAntisymmetric(a[1..], b[1..]);
      assert a == [a[0]] + a[1..] && b == [b[0]] + b[1..];
    }
  }
}
