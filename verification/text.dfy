/** String helpers the JavaScript code gets from the runtime: `String(n)` on integers,
    `padStart`, and `toLowerCase` (restricted to ASCII letters). */
module Text {

  predicate IsDigit(ch: char) {
    '0' <= ch <= '9'
  }

  predicate AllDigits(s: string) {
    forall i :: 0 <= i < |s| ==> IsDigit(s[i])
  }

  function DigitChar(d: nat): (ch: char)
    requires d < 10
    ensures IsDigit(ch)
  {
    (48 + d) as char
  }

  function DigitValue(ch: char): int {
    ch as int - 48
  }

  /** `String(n)` for a non-negative integer: its decimal digits, no leading zero. */
  function NatToString(n: nat): (r: string)
    ensures |r| >= 1 && AllDigits(r)
    ensures |r| > 1 ==> r[0] != '0'
    decreases n
  {
    if n < 10 then [DigitChar(n)] else NatToString(n / 10) + [DigitChar(n % 10)]
  }

  /** Reads a string of decimal digits back as a number. */
  function StringToNat(s: string): nat
    requires AllDigits(s)
  {
    if s == [] then 0 else StringToNat(s[..|s| - 1]) * 10 + DigitValue(s[|s| - 1])
  }

  lemma {:induction false} NatToStringRoundTrip(n: nat)
    ensures StringToNat(NatToString(n)) == n
    decreases n
  {
    var r := NatToString(n);
    if n >= 10 {
      NatToStringRoundTrip(n / 10);
      assert r[..|r| - 1] == NatToString(n / 10);
    }
  }

  /** Distinct numbers have distinct decimal representations. */
  lemma NatToStringInjective(a: nat, b: nat)
    ensures NatToString(a) == NatToString(b) <==> a == b
  {
    if NatToString(a) == NatToString(b) {
      NatToStringRoundTrip(a);
      NatToStringRoundTrip(b);
    }
  }

  /** `String(i)` for any integer. */
  function IntToString(i: int): (r: string)
    ensures |r| >= 1
    ensures i >= 0 ==> AllDigits(r)
    ensures i < 0 ==> r[0] == '-' && AllDigits(r[1..])
  {
    if i < 0 then "-" + NatToString(-i) else NatToString(i)
  }

  function Repeat(ch: char, n: nat): (r: string)
    ensures |r| == n
    ensures forall i :: 0 <= i < n ==> r[i] == ch
  {
    if n == 0 then [] else [ch] + Repeat(ch, n - 1)
  }

  /** `s.padStart(width, fill)`: prefix `fill` until the string is `width` long. */
  function PadStart(s: string, width: nat, fill: char): (r: string)
    ensures |s| >= width ==> r == s
    ensures |s| < width ==> |r| == width && r[width - |s|..] == s
    ensures forall i :: 0 <= i < |r| - |s| ==> r[i] == fill
  {
    if |s| >= width then s else Repeat(fill, width - |s|) + s
  }

  /** Two decimal digits, as `String(x).padStart(2, '0')` gives them for x < 100. */
  lemma Pad2Digits(x: nat)
    requires x < 100
    ensures PadStart(NatToString(x), 2, '0') == [DigitChar(x / 10), DigitChar(x % 10)]
  {
    if x >= 10 {
      assert NatToString(x) == NatToString(x / 10) + [DigitChar(x % 10)];
    }
  }

  lemma Pad2Injective(a: nat, b: nat)
    requires a < 100 && b < 100
    ensures PadStart(NatToString(a), 2, '0') == PadStart(NatToString(b), 2, '0') <==> a == b
  {
    Pad2Digits(a);
    Pad2Digits(b);
    if PadStart(NatToString(a), 2, '0') == PadStart(NatToString(b), 2, '0') {
      assert DigitChar(a / 10) == DigitChar(b / 10) && DigitChar(a % 10) == DigitChar(b % 10);
      assert a == 10 * (a / 10) + a % 10 && b == 10 * (b / 10) + b % 10;
    }
  }

  /** Left-padding decimal text with zeros keeps numbers apart: decimal text has no
      leading zero, so the padding cannot be mistaken for digits. */
  lemma PadZerosInjective(a: nat, b: nat, width: nat)
    ensures PadStart(NatToString(a), width, '0') == PadStart(NatToString(b), width, '0') <==> a == b
  {
    var sa, sb := NatToString(a), NatToString(b);
    var pa, pb := PadStart(sa, width, '0'), PadStart(sb, width, '0');
    if pa == pb {
      assert |sa| == |sb|;
      assert sa == pa[|pa| - |sa|..] && sb == pb[|pb| - |sb|..];
      NatToStringInjective(a, b);
    }
  }

  /** Length of the leading run of digits. */
  function DigitRun(s: string): (n: nat)
    ensures n <= |s|
  {
    if s == [] || !IsDigit(s[0]) then 0 else 1 + DigitRun(s[1..])
  }

  lemma {:induction false} DigitRunOf(x: string, c: char, r: string)
    requires AllDigits(x) && !IsDigit(c)
    ensures DigitRun(x + [c] + r) == |x|
    decreases |x|
  {
    if x != [] {
      assert (x + [c] + r)[1..] == x[1..] + [c] + r;
      DigitRunOf(x[1..], c, r);
    }
  }

  /** A digit string followed by a non-digit marker can be split at the marker in one way only. */
  lemma DigitsBeforeMarker(x: string, y: string, c: char, r: string, r': string)
    requires AllDigits(x) && AllDigits(y) && !IsDigit(c)
    requires x + [c] + r == y + [c] + r'
    ensures x == y && r == r'
  {
    var s := x + [c] + r;
    DigitRunOf(x, c, r);
    DigitRunOf(y, c, r');
    assert x == s[..|x|] && y == s[..|y|];
    assert r == s[|x| + 1..] && r' == s[|y| + 1..];
  }

  function LowerChar(ch: char): char {
    if 'A' <= ch <= 'Z' then (ch as int + 32) as char else ch
  }

  /** `toLowerCase()`, restricted to the ASCII letters A-Z. */
  function AsciiLower(s: string): (r: string)
    ensures |r| == |s|
    ensures forall i :: 0 <= i < |s| ==> r[i] == LowerChar(s[i])
  {
    seq(|s|, i requires 0 <= i < |s| => LowerChar(s[i]))
  }

  /** Lower-casing an already lower-cased string changes nothing. */
  lemma AsciiLowerIdempotent(s: string)
    ensures AsciiLower(AsciiLower(s)) == AsciiLower(s)
  {
  }
}
