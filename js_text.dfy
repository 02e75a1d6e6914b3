/**
 * The three pieces of JavaScript's built-in string and number behaviour that
 * the order screen depends on:
 *  - `parseInt(text)` with no radix (ECMA-262, section 19.2.5), which turns the
 *    quantity text into a number;
 *  - the decimal form of a non-negative integer Number, which template
 *    literals such as `${qtyValue}` produce;
 *  - `String.prototype.includes`, which the message classifier uses.
 * NaN is `None`; a Number that holds an integer is an unbounded `int`.
 */
module JsText {
  import opened Wrappers

  /** StrWhiteSpaceChar: WhiteSpace (TAB, VT, FF, ZWNBSP and the Unicode
      "Zs" space separators) and LineTerminator (LF, CR, LS, PS). */
  predicate IsStrWhiteSpaceChar(c: char) {
    || c == '\t' || c == '\U{000B}' || c == '\U{000C}' || c == '\U{FEFF}'
    || c == ' ' || c == '\U{00A0}' || c == '\U{1680}'
    || ('\U{2000}' <= c <= '\U{200A}') || c == '\U{202F}' || c == '\U{205F}' || c == '\U{3000}'
    || c == '\n' || c == '\r' || c == '\U{2028}' || c == '\U{2029}'
  }

  predicate IsDecimalDigit(c: char) {
    '0' <= c <= '9'
  }

  /** The value of `c` as a digit in radices up to 36 (`0`-`9`, then `a`-`z`
      or `A`-`Z` for 10 to 35), and 36 for a character that is no digit. */
  function DigitValue(c: char): (d: nat)
    ensures d <= 36
    ensures IsDecimalDigit(c) <==> d < 10
  {
    if '0' <= c <= '9' then c as int - '0' as int
    else if 'a' <= c <= 'z' then c as int - 'a' as int + 10
    else if 'A' <= c <= 'Z' then c as int - 'A' as int + 10
    else 36
  }

  predicate IsRadixDigit(c: char, radix: nat) {
    DigitValue(c) < radix
  }

  /** The character that shows the decimal digit `d`. */
  function DigitChar(d: nat): (c: char)
    requires d < 10
    ensures IsDecimalDigit(c) && DigitValue(c) == d
  {
    ('0' as int + d) as char
  }

  /** What is left of `s` once its leading white space is skipped. */
  function TrimStart(s: string): (r: string)
    ensures |r| <= |s| && r == s[|s| - |r|..]
    ensures forall i :: 0 <= i < |s| - |r| ==> IsStrWhiteSpaceChar(s[i])
    ensures r == [] || !IsStrWhiteSpaceChar(r[0])
  {
    if s != [] && IsStrWhiteSpaceChar(s[0]) then
      var rest := s[1..];
      var r := TrimStart(rest);
      assert rest[|rest| - |r|..] == s[|s| - |r|..];
      assert forall i :: 1 <= i < |s| - |r| ==> s[i] == rest[i - 1];
      r
    else
      s
  }

  /** The length of the longest prefix of `s` made of digits of `radix`. */
  function DigitPrefixLength(s: string, radix: nat): (n: nat)
    ensures n <= |s|
    ensures forall i :: 0 <= i < n ==> IsRadixDigit(s[i], radix)
    ensures n == |s| || !IsRadixDigit(s[n], radix)
  {
    if s != [] && IsRadixDigit(s[0], radix) then 1 + DigitPrefixLength(s[1..], radix) else 0
  }

  /** The mathematical value of the numeral `z` in base `radix`, most
      significant digit first. */
  function NumeralValue(z: string, radix: nat): (v: nat)
    requires forall i :: 0 <= i < |z| ==> IsRadixDigit(z[i], radix)
    ensures v == 0 <==> forall i :: 0 <= i < |z| ==> DigitValue(z[i]) == 0
  {
    if z == [] then 0
    else
      var init := z[..|z| - 1];
      assert forall i :: 0 <= i < |init| ==> init[i] == z[i];
      var high: nat := NumeralValue(init, radix);
      var low := DigitValue(z[|z| - 1]);
      var shifted := high * radix;
      assert IsRadixDigit(z[|z| - 1], radix);
      ProductIsZero(high, radix);
      assert (forall i :: 0 <= i < |z| ==> DigitValue(z[i]) == 0) <==>
             (forall i :: 0 <= i < |init| ==> DigitValue(init[i]) == 0) && low == 0;
      shifted + low
  }

  /** A product of naturals with a positive factor `b` is zero exactly
      when `a` is. */
  lemma {:induction false} ProductIsZero(a: nat, b: nat)
    requires b > 0
    ensures a * b >= 0 && (a * b == 0 <==> a == 0)
  {
  }

  /** The `0x` or `0X` that makes `parseInt` read radix 16. */
  predicate HasHexPrefix(u: string) {
    |u| >= 2 && u[0] == '0' && (u[1] == 'x' || u[1] == 'X')
  }

  /** The unsigned part of `parseInt`: a `0x`/`0X` prefix selects radix 16,
      otherwise radix 10; then the longest run of digits is read, and no
      digits at all gives NaN. */
  function ParseUnsigned(u: string): (r: Option<nat>)
    ensures r.Some? <==>
      if HasHexPrefix(u) then |u| > 2 && IsRadixDigit(u[2], 16) else u != [] && IsDecimalDigit(u[0])
  {
    var radix := if HasHexPrefix(u) then 16 else 10;
    var v := if HasHexPrefix(u) then u[2..] else u;
    var n := DigitPrefixLength(v, radix);
    if n == 0 then None else Some(NumeralValue(v[..n], radix))
  }

  /** `parseInt` once the leading white space is gone: an optional sign,
      then the unsigned part. A negative zero is the integer 0. */
  function ParseSigned(t: string): (r: Option<int>)
    ensures r.Some? ==> exists k :: 0 <= k < |t| && IsDecimalDigit(t[k])
    ensures r.Some? && r.value < 0 ==> t != [] && t[0] == '-'
  {
    var negative := t != [] && t[0] == '-';
    var signed := t != [] && (t[0] == '-' || t[0] == '+');
    var u := if signed then t[1..] else t;
    match ParseUnsigned(u)
    case None => None
    case Some(m) =>
      var k := if signed then 1 else 0;
      assert IsDecimalDigit(t[k]) by {
        assert u[0] == t[k];
      }
      var value: int := if negative then -(m as int) else m;
      Some(value)
  }

  /** `parseInt(s)` with the radix argument left out. */
  function ParseInt(s: string): (r: Option<int>)
    ensures r.Some? ==> exists k :: 0 <= k < |s| && IsDecimalDigit(s[k])
    ensures r.Some? && r.value < 0 ==> exists k :: 0 <= k < |s| && s[k] == '-'
  {
    var t := TrimStart(s);
    var skipped := |s| - |t|;
    var r := ParseSigned(t);
    if r.Some? then
      var k :| 0 <= k < |t| && IsDecimalDigit(t[k]);
      assert IsDecimalDigit(s[skipped + k]);
      assert r.value < 0 ==> s[skipped] == '-';
      r
    else
      r
  }

  /** The decimal form of an integral Number `n >= 0`: digits only, no
      leading zero, and read back in base 10 it is `n`. */
  function NatToString(n: nat): (s: string)
    ensures s != []
    ensures forall i :: 0 <= i < |s| ==> IsDecimalDigit(s[i])
    ensures s[0] == '0' ==> n == 0 && s == "0"
    ensures NumeralValue(s, 10) == n
  {
    if n < 10 then [DigitChar(n)]
    else
      var s := NatToString(n / 10) + [DigitChar(n % 10)];
      assert s[..|s| - 1] == NatToString(n / 10);
      s
  }

  /** The window of `s` that starts at `i` reads exactly `p`. */
  predicate MatchesAt(s: string, p: string, i: nat) {
    i + |p| <= |s| && s[i..i + |p|] == p
  }

  /** `s.includes(p)`: some window of `s` reads exactly `p`. */
  function Includes(s: string, p: string): (b: bool)
    ensures b <==> exists i: nat :: MatchesAt(s, p, i)
    decreases |s|
  {
    if |s| < |p| then false
    else if s[..|p|] == p then assert MatchesAt(s, p, 0); true
    else
      var b := Includes(s[1..], p);
      assert forall i: nat :: MatchesAt(s[1..], p, i) <==> MatchesAt(s, p, i + 1);
      assert !MatchesAt(s, p, 0);
      assert forall i: nat :: MatchesAt(s, p, i) ==> i > 0 && MatchesAt(s[1..], p, i - 1);
      b
  }

  // ---------------------------------------------------------------------
  // parseInt

  /** A prefix of digits that is followed by the end of `s` or by a
      non-digit is the longest one. */
  lemma {:induction false} DigitPrefixLengthIs(s: string, radix: nat, k: nat)
    requires k <= |s|
    requires forall i :: 0 <= i < k ==> IsRadixDigit(s[i], radix)
    requires k == |s| || !IsRadixDigit(s[k], radix)
    ensures DigitPrefixLength(s, radix) == k
  {
    if k > 0 {
      DigitPrefixLengthIs(s[1..], radix, k - 1);
    }
  }

  /** The digit run of a numeral ends where the numeral ends, when what
      follows it is not a decimal digit. */
  lemma {:induction false} NumeralDigitRun(n: nat, tail: string)
    requires tail == [] || !IsDecimalDigit(tail[0])
    ensures DigitPrefixLength(NatToString(n) + tail, 10) == |NatToString(n)|
  {
    var x := NatToString(n) + tail;
    DigitPrefixLengthIs(x, 10, |NatToString(n)|);
  }

  lemma {:induction false} UnsignedNumeral(n: nat, tail: string)
    requires tail == [] || !IsDecimalDigit(tail[0])
    requires n == 0 && tail != [] ==> tail[0] != 'x' && tail[0] != 'X'
    ensures ParseUnsigned(NatToString(n) + tail) == Some(n)
  {
    var x := NatToString(n) + tail;
    assert !HasHexPrefix(x) by {
      if |x| >= 2 && x[0] == '0' {
        assert x[1] == tail[0];
      }
    }
    NumeralDigitRun(n, tail);
    assert x[..|NatToString(n)|] == NatToString(n);
  }

  /** Text that starts with a digit has no white space or sign to skip. */
  lemma {:induction false} ParseIntDigitStart(x: string)
    requires x != [] && IsDecimalDigit(x[0])
    ensures ParseInt(x) == ParseUnsigned(x)
  {
    assert !IsStrWhiteSpaceChar(x[0]);
    assert TrimStart(x) == x;
    assert x[0] != '-' && x[0] != '+';
  }

  /** `parseInt` reads back the decimal form of any integral Number, and
      ignores whatever follows the digits (`parseInt("12abc")` is 12), except
      that `x` or `X` after a lone zero switches to radix 16. */
  lemma {:induction false} ParseIntNumeral(n: nat, tail: string)
    requires tail == [] || !IsDecimalDigit(tail[0])
    requires n == 0 && tail != [] ==> tail[0] != 'x' && tail[0] != 'X'
    ensures ParseInt(NatToString(n) + tail) == Some(n)
  {
    var x := NatToString(n) + tail;
    assert x[0] == NatToString(n)[0];
    ParseIntDigitStart(x);
    UnsignedNumeral(n, tail);
  }

  /** Text that starts with a minus sign is the negated unsigned part. */
  lemma {:induction false} ParseIntMinusStart(x: string)
    requires x != [] && x[0] == '-'
    ensures ParseUnsigned(x[1..]).None? ==> ParseInt(x) == None
    ensures ParseUnsigned(x[1..]).Some? ==> ParseInt(x) == Some(-(ParseUnsigned(x[1..]).value as int))
  {
    assert TrimStart(x) == x;
  }

  lemma {:induction false} MinusValue(x: string, rest: string, n: nat)
    requires x != [] && x[0] == '-' && x[1..] == rest && ParseUnsigned(rest) == Some(n)
    ensures ParseInt(x) == Some(-(n as int))
  {
    ParseIntMinusStart(x);
  }

  /** What follows the minus sign of `"-" + rest`. */
  lemma {:induction false} AfterMinus(x: string, rest: string)
    requires x == "-" + rest
    ensures x != [] && x[0] == '-' && x[1..] == rest
  {
  }

  /** A minus sign in front of a numeral negates it: `parseInt("-1")` is -1. */
  lemma {:induction false} ParseIntNegatedNumeral(x: string, n: nat, tail: string)
    requires x == "-" + NatToString(n) + tail
    requires tail == [] || !IsDecimalDigit(tail[0])
    requires n == 0 && tail != [] ==> tail[0] != 'x' && tail[0] != 'X'
    ensures ParseInt(x) == Some(-(n as int))
  {
    var rest := NatToString(n) + tail;
    AfterMinus(x, rest);
    UnsignedNumeral(n, tail);
    MinusValue(x, rest, n);
  }

  /** A plus sign in front of a numeral is dropped: `parseInt("+5")` is 5. */
  lemma {:induction false} ParseIntPlusNumeral(x: string, n: nat, tail: string)
    requires x == "+" + NatToString(n) + tail
    requires tail == [] || !IsDecimalDigit(tail[0])
    requires n == 0 && tail != [] ==> tail[0] != 'x' && tail[0] != 'X'
    ensures ParseInt(x) == Some(n)
  {
    var rest := NatToString(n) + tail;
    assert x[0] == '+' && x[1..] == rest;
    ParseIntPlusStart(x);
    UnsignedNumeral(n, tail);
  }

  /** Text that starts with a plus sign is its unsigned part. */
  lemma {:induction false} ParseIntPlusStart(x: string)
    requires x != [] && x[0] == '+'
    ensures ParseInt(x) == ParseUnsigned(x[1..])
  {
    assert TrimStart(x) == x;
  }

  lemma {:induction false} TrimStartSkipsWhiteSpace(w: string, s: string)
    requires forall i :: 0 <= i < |w| ==> IsStrWhiteSpaceChar(w[i])
    ensures TrimStart(w + s) == TrimStart(s)
  {
    if w == [] {
      assert w + s == s;
    } else {
      assert (w + s)[0] == w[0];
      assert (w + s)[1..] == w[1..] + s;
      TrimStartSkipsWhiteSpace(w[1..], s);
    }
  }

  /** Leading white space never changes what `parseInt` reads. */
  lemma {:induction false} ParseIntSkipsWhiteSpace(w: string, s: string)
    requires forall i :: 0 <= i < |w| ==> IsStrWhiteSpaceChar(w[i])
    ensures ParseInt(w + s) == ParseInt(s)
  {
    TrimStartSkipsWhiteSpace(w, s);
  }

  /** Text with no digit where the number should start is NaN. */
  lemma {:induction false} ParseIntNaN(s: string)
    requires var t := TrimStart(s);
      var u := if t != [] && (t[0] == '-' || t[0] == '+') then t[1..] else t;
      u == [] || !IsDecimalDigit(u[0])
    ensures ParseInt(s) == None
  {
  }

  /** Quantity texts that `parseInt` turns into NaN: letters, nothing,
      blanks, and a sign alone. */
  lemma ParseIntLettersNaN()
    ensures ParseInt("abc") == None
  {
    ParseIntNaN("abc");
  }

  lemma ParseIntEmptyNaN()
    ensures ParseInt("") == None
  {
    ParseIntNaN("");
  }

  lemma ParseIntBlankNaN()
    ensures ParseInt("   ") == None
  {
    TrimStartSkipsWhiteSpace("   ", "");
    assert "   " + "" == "   ";
    ParseIntNaN("   ");
  }

  lemma ParseIntSignOnlyNaN()
    ensures ParseInt("-") == None
  {
    ParseIntNaN("-");
  }

  /** `parseInt` reads "0" and "-1" as numbers; the quantity check, not
      the parser, rejects them. */
  lemma ParseIntNonPositiveExamples()
    ensures ParseInt("0") == Some(0)
    ensures ParseInt("-1") == Some(-1)
  {
    ParseIntNumeral(0, "");
    assert NatToString(0) + "" == "0";
    ParseIntNegatedNumeral("-1", 1, "");
  }

  /** `parseInt` stops at a decimal point. */
  lemma ParseIntFractionExample()
    ensures ParseInt("2.5") == Some(2)
  {
    ParseIntNumeral(2, ".5");
    assert NatToString(2) + ".5" == "2.5";
  }

  /** A `0x` prefix makes `parseInt` read hexadecimal digits. */
  lemma ParseIntHexExample()
    ensures ParseInt("0x1A") == Some(26)
  {
    var h := "0x1A";
    assert TrimStart(h) == h;
    assert HasHexPrefix(h) && h[2..] == "1A";
    DigitPrefixLengthIs("1A", 16, 2);
    assert "1A"[..2] == "1A";
    assert NumeralValue("1A", 16) == 26;
    assert ParseUnsigned(h) == Some(26);
  }

  // ---------------------------------------------------------------------
  // includes

  lemma {:induction false} IncludesWindow(s: string, p: string, i: nat)
    requires MatchesAt(s, p, i)
    ensures Includes(s, p)
  {
  }

  /** Whatever includes `p` includes every piece of `p`. */
  lemma {:induction false} IncludesPiece(s: string, p: string, k: nat, m: nat)
    requires k + m <= |p|
    requires Includes(s, p)
    ensures Includes(s, p[k..k + m])
  {
    var i: nat :| MatchesAt(s, p, i);
    forall j | k <= j < k + m
      ensures p[j] == s[i + j]
    {
      assert s[i + j] == s[i..i + |p|][j];
    }
    assert p[k..k + m] == s[i + k..i + k + m];
    assert MatchesAt(s, p[k..k + m], i + k);
  }

  /** Text lacking one character of `p` does not include `p`. */
  lemma {:induction false} MissingCharExcludes(s: string, p: string, k: nat)
    requires k < |p| && p[k] !in s
    ensures !Includes(s, p)
  {
  }

  /** A match in `a + b` that cannot start inside `a` lies in `b`. */
  lemma {:induction false} MatchAfterPrefix(a: string, b: string, p: string)
    requires p != [] && p[0] !in a
    requires Includes(a + b, p)
    ensures Includes(b, p)
  {
    var i: nat :| MatchesAt(a + b, p, i);
    assert (a + b)[i] == (a + b)[i..i + |p|][0];
    assert (a + b)[i..i + |p|] == b[i - |a|..i - |a| + |p|];
    assert MatchesAt(b, p, i - |a|);
  }

  /** Where a two-character match in `a + b` lies: in `a`, in `b`, or
      across the seam. */
  lemma {:induction false} PairWindow(a: string, b: string, p: string, i: nat)
    requires |p| == 2 && MatchesAt(a + b, p, i)
    ensures || MatchesAt(a, p, i)
            || (i >= |a| && MatchesAt(b, p, i - |a|))
            || (i + 1 == |a| && a[i] == p[0] && b[0] == p[1])
  {
    var c := a + b;
    assert c[i] == c[i..i + 2][0] && c[i + 1] == c[i..i + 2][1];
    if i + 2 <= |a| {
      assert a[i..i + 2] == [c[i], c[i + 1]];
    } else if i >= |a| {
      assert b[i - |a|..i - |a| + 2] == [c[i], c[i + 1]];
    }
  }

  /** A two-character pattern found in neither `a` nor `b`, and not formed
      across the seam, is not in `a + b`. */
  lemma {:induction false} PairAcrossConcat(a: string, b: string, p: string)
    requires |p| == 2
    requires !Includes(a, p) && !Includes(b, p)
    requires a == [] || b == [] || a[|a| - 1] != p[0] || b[0] != p[1]
    ensures !Includes(a + b, p)
  {
    if Includes(a + b, p) {
      var i: nat :| MatchesAt(a + b, p, i);
      PairWindow(a, b, p, i);
    }
  }
}
