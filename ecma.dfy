/**
 * The two ECMA-262 string built-ins the cycle-check command relies on:
 * `parseInt(string, 10)` (section 19.2.5) and `String.prototype.trim`
 * (section 22.1.3.30 of the 2022 edition). Strings are sequences of Unicode
 * scalar values; every character these operations inspect (white space, line
 * terminators, signs, decimal digits) lies in the Basic Multilingual Plane,
 * so this reads the same as the standard's UTF-16 code units.
 */
module Ecma {
  import opened Wrappers

  // ---------------------------------------------------------------------------
  // Character classes
  // ---------------------------------------------------------------------------

  /**
   * WhiteSpace (section 12.2): TAB, VT, FF, ZWNBSP and every code point of the
   * Unicode category Zs (SP, NBSP, U+1680, U+2000..U+200A, U+202F, U+205F, U+3000).
   */
  predicate IsWhiteSpace(c: char) {
    c == '\t' || c == '\U{000B}' || c == '\U{000C}' || c == '\U{FEFF}'
    || c == ' ' || c == '\U{00A0}' || c == '\U{1680}'
    || ('\U{2000}' <= c <= '\U{200A}')
    || c == '\U{202F}' || c == '\U{205F}' || c == '\U{3000}'
  }

  /** LineTerminator (section 12.3): LF, CR, LINE SEPARATOR, PARAGRAPH SEPARATOR. */
  predicate IsLineTerminator(c: char) {
    c == '\n' || c == '\r' || c == '\U{2028}' || c == '\U{2029}'
  }

  /** StrWhiteSpaceChar (section 7.1.4.1.1): what both trim and parseInt strip. */
  predicate IsStrWhiteSpace(c: char) {
    IsWhiteSpace(c) || IsLineTerminator(c)
  }

  predicate AllStrWhiteSpace(s: string) {
    forall i :: 0 <= i < |s| ==> IsStrWhiteSpace(s[i])
  }

  /** Neither the first nor the last character of `s` is white space. */
  predicate Unpadded(s: string) {
    s == [] || (!IsStrWhiteSpace(s[0]) && !IsStrWhiteSpace(s[|s| - 1]))
  }

  /** A decimal digit, the radix-10 digits of section 19.2.5 step 11. */
  predicate IsDigit(c: char) {
    '0' <= c <= '9'
  }

  predicate AllDigits(s: string) {
    forall i :: 0 <= i < |s| ==> IsDigit(s[i])
  }

  predicate ContainsDigit(s: string) {
    exists i :: 0 <= i < |s| && IsDigit(s[i])
  }

  // ---------------------------------------------------------------------------
  // TrimString (section 22.1.3.30.1) and String.prototype.trim
  // ---------------------------------------------------------------------------

  /** TrimString(s, start): drops the longest white-space prefix. */
  function TrimStart(s: string): (r: string)
    ensures |r| <= |s| && r == s[|s| - |r|..]
    ensures AllStrWhiteSpace(s[..|s| - |r|])
    ensures r == [] || !IsStrWhiteSpace(r[0])
  {
    if s != [] && IsStrWhiteSpace(s[0]) then
      var r := TrimStart(s[1..]);
      assert s[..|s| - |r|] == [s[0]] + s[1..][..|s| - 1 - |r|];
      r
    else
      s
  }

  /** TrimString(s, end): drops the longest white-space suffix. */
  function TrimEnd(s: string): (r: string)
    ensures |r| <= |s| && r == s[..|r|]
    ensures AllStrWhiteSpace(s[|r|..])
    ensures r == [] || !IsStrWhiteSpace(r[|r| - 1])
  {
    if s != [] && IsStrWhiteSpace(s[|s| - 1]) then
      var r := TrimEnd(s[..|s| - 1]);
      assert s[|r|..] == s[..|s| - 1][|r|..] + [s[|s| - 1]];
      r
    else
      s
  }

  /** `r` is the piece of `s` at offset `k`, and everything around it is white space. */
  predicate IsTrimmedAt(s: string, r: string, k: int) {
    0 <= k <= |s| - |r| && r == s[k..k + |r|]
    && AllStrWhiteSpace(s[..k]) && AllStrWhiteSpace(s[k + |r|..])
  }

  /**
   * `s.trim()`: TrimString(s, start+end). The result is a contiguous piece of
   * `s` with no white space at either end, and everything cut away on either
   * side is white space.
   */
  function Trim(s: string): (r: string)
    ensures Unpadded(r)
    ensures exists k :: IsTrimmedAt(s, r, k)
  {
    var t := TrimStart(s);
    var r := TrimEnd(t);
    TrimBothEnds(s, t, r, |s| - |t|);
    r
  }

  /** Cutting white space first from the start and then from the end trims both ends. */
  lemma TrimBothEnds(s: string, t: string, r: string, k: int)
    requires 0 <= k <= |s| && t == s[k..] && AllStrWhiteSpace(s[..k])
    requires t == [] || !IsStrWhiteSpace(t[0])
    requires |r| <= |t| && r == t[..|r|] && AllStrWhiteSpace(t[|r|..])
    requires r == [] || !IsStrWhiteSpace(r[|r| - 1])
    ensures Unpadded(r) && IsTrimmedAt(s, r, k)
  {
    assert r != [] ==> r[0] == t[0];
    assert s[k + |r|..] == t[|r|..];
  }

  lemma {:induction false} TrimStartSkips(ws: string, t: string)
    requires AllStrWhiteSpace(ws)
    requires t == [] || !IsStrWhiteSpace(t[0])
    ensures TrimStart(ws + t) == t
  {
    if ws != [] {
      assert (ws + t)[1..] == ws[1..] + t;
      TrimStartSkips(ws[1..], t);
    }
  }

  lemma {:induction false} TrimStartAllWhiteSpace(ws: string)
    requires AllStrWhiteSpace(ws)
    ensures TrimStart(ws) == []
  {
    if ws != [] {
      TrimStartAllWhiteSpace(ws[1..]);
    }
  }

  lemma {:induction false} TrimStartAbsorbs(ws: string, s: string)
    requires AllStrWhiteSpace(ws)
    ensures TrimStart(ws + s) == TrimStart(s)
  {
    if ws == [] {
      assert ws + s == s;
    } else {
      assert (ws + s)[0] == ws[0];
      assert (ws + s)[1..] == ws[1..] + s;
      TrimStartAbsorbs(ws[1..], s);
    }
  }

  lemma {:induction false} TrimEndSkips(t: string, ws: string)
    requires AllStrWhiteSpace(ws)
    requires t == [] || !IsStrWhiteSpace(t[|t| - 1])
    ensures TrimEnd(t + ws) == t
  {
    if ws != [] {
      assert (t + ws)[..|t + ws| - 1] == t + ws[..|ws| - 1];
      TrimEndSkips(t, ws[..|ws| - 1]);
    }
  }

  /**
   * Trim is determined by its padding: a core with no white space at its ends,
   * surrounded by any white space, trims to exactly that core.
   */
  lemma TrimOfPadded(pre: string, core: string, post: string)
    requires AllStrWhiteSpace(pre) && AllStrWhiteSpace(post) && Unpadded(core)
    ensures Trim(pre + core + post) == core
  {
    if core == [] {
      assert pre + core + post == pre + post;
      assert AllStrWhiteSpace(pre + post);
      TrimStartAllWhiteSpace(pre + post);
    } else {
      assert pre + core + post == pre + (core + post);
      TrimStartSkips(pre, core + post);
      TrimEndSkips(core, post);
    }
  }

  /** Trimming twice is trimming once. */
  lemma TrimIdempotent(s: string)
    ensures Trim(Trim(s)) == Trim(s)
  {
    var r := Trim(s);
    assert [] + r + [] == r;
    TrimOfPadded([], r, []);
  }

  /** A label without surrounding white space passes through trim verbatim. */
  lemma TrimUnpadded(s: string)
    requires Unpadded(s)
    ensures Trim(s) == s
  {
    assert [] + s + [] == s;
    TrimOfPadded([], s, []);
  }

  /** An empty or all-white-space string trims to the empty string. */
  lemma TrimAllWhiteSpace(s: string)
    requires AllStrWhiteSpace(s)
    ensures Trim(s) == []
  {
    assert s + [] + [] == s;
    TrimOfPadded(s, [], []);
  }

  // ---------------------------------------------------------------------------
  // parseInt(string, 10) (section 19.2.5)
  // ---------------------------------------------------------------------------

  /** The longest prefix of `s` made of decimal digits (steps 11-12). */
  function LeadingDigits(s: string): (d: string)
    ensures d <= s
    ensures AllDigits(d)
    ensures |d| == |s| || !IsDigit(s[|d|])
  {
    if s != [] && IsDigit(s[0]) then [s[0]] + LeadingDigits(s[1..]) else []
  }

  function DigitValue(c: char): (v: nat)
    requires IsDigit(c)
    ensures v < 10
  {
    c as int - '0' as int
  }

  function DigitChar(v: nat): (c: char)
    requires v < 10
    ensures IsDigit(c) && DigitValue(c) == v
  {
    ('0' as int + v) as char
  }

  /** The mathematical value of a string of decimal digits (step 14). */
  function DigitsValue(d: string): nat
    requires AllDigits(d)
  {
    if d == [] then 0 else 10 * DigitsValue(d[..|d| - 1]) + DigitValue(d[|d| - 1])
  }

  /** Nothing, or one sign character: what step 5 may remove. */
  predicate IsOptionalSign(sign: string) {
    |sign| <= 1 && (sign != [] ==> sign[0] == '+' || sign[0] == '-')
  }

  /** Steps 3-4: the sign read before the digits. */
  predicate IsNegative(t: string) {
    t != [] && t[0] == '-'
  }

  /** Step 5: the input with one leading sign character removed. */
  function DropSign(t: string): (u: string)
    ensures u == t || (t != [] && u == t[1..])
  {
    if t != [] && (t[0] == '+' || t[0] == '-') then t[1..] else t
  }

  /** Step 16: sign times the digits' value. */
  function Signed(negative: bool, z: string): (v: int)
    requires AllDigits(z)
  {
    if negative then -(DigitsValue(z) as int) else DigitsValue(z)
  }

  /**
   * `parseInt(s, 10)`: skip leading white space, read an optional sign, then
   * the longest run of decimal digits. No digits gives NaN, here None. The
   * JavaScript Number result is an unbounded integer here, and -0 is 0.
   */
  function ParseInt10(s: string): (r: Option<int>)
    ensures r.Some? ==> ContainsDigit(s)
  {
    var t := TrimStart(s);
    var z := LeadingDigits(DropSign(t));
    if z == [] then None
    else
      assert DropSign(t)[0] == s[|s| - |DropSign(t)|];
      Some(Signed(IsNegative(t), z))
  }

  lemma {:induction false} LeadingDigitsOf(digits: string, rest: string)
    requires AllDigits(digits)
    requires rest == [] || !IsDigit(rest[0])
    ensures LeadingDigits(digits + rest) == digits
  {
    if digits != [] {
      assert (digits + rest)[1..] == digits[1..] + rest;
      LeadingDigitsOf(digits[1..], rest);
    }
  }

  /** Step 5 removes exactly the optional sign in front of what follows it. */
  lemma DropSignOf(sign: string, u: string)
    requires IsOptionalSign(sign)
    requires sign == [] ==> u == [] || (u[0] != '+' && u[0] != '-')
    ensures DropSign(sign + u) == u
    ensures IsNegative(sign + u) == IsNegative(sign) || (sign == [] && IsNegative(u))
  {
    if sign != [] {
      assert (sign + u)[1..] == u;
    } else {
      assert sign + u == u;
    }
  }

  /**
   * Every string whose value parseInt reads: optional white space, an optional
   * sign, a non-empty digit run, and then anything that does not continue the
   * run. The result is the digits' value, negated after a minus sign.
   */
  lemma ParseIntOf(ws: string, sign: string, digits: string, rest: string)
    requires AllStrWhiteSpace(ws) && IsOptionalSign(sign)
    requires digits != [] && AllDigits(digits)
    requires rest == [] || !IsDigit(rest[0])
    ensures ParseInt10(ws + sign + digits + rest) == Some(Signed(IsNegative(sign), digits))
  {
    var u := digits + rest;
    var t := sign + u;
    assert ws + sign + digits + rest == ws + t;
    assert t[0] == if sign == [] then digits[0] else sign[0];
    TrimStartSkips(ws, t);
    DropSignOf(sign, u);
    LeadingDigitsOf(digits, rest);
  }

  /**
   * Every string parseInt reads as NaN: after optional white space and an
   * optional sign, the next character (if any) is not a digit, and without a
   * sign it is neither white space nor a sign either.
   */
  lemma ParseIntNaN(ws: string, sign: string, rest: string)
    requires AllStrWhiteSpace(ws) && IsOptionalSign(sign)
    requires rest == [] || !IsDigit(rest[0])
    requires sign == [] && rest != [] ==> !IsStrWhiteSpace(rest[0]) && rest[0] != '+' && rest[0] != '-'
    ensures ParseInt10(ws + sign + rest) == None
  {
    var t := sign + rest;
    assert ws + sign + rest == ws + t;
    TrimStartSkips(ws, t);
    if sign != [] {
      assert t[1..] == rest;
      assert DropSign(t) == rest;
    } else {
      assert t == rest;
      assert DropSign(t) == rest;
    }
    assert LeadingDigits(rest) == [];
  }

  /** `s` is white space, an optional sign, a non-empty digit run and a rest that does not continue it. */
  predicate IsNumeralSplit(s: string, ws: string, sign: string, digits: string, rest: string) {
    s == ws + sign + digits + rest
    && AllStrWhiteSpace(ws) && IsOptionalSign(sign)
    && digits != [] && AllDigits(digits)
    && (rest == [] || !IsDigit(rest[0]))
  }

  /** A string is the concatenation of its two slices at any cut. */
  lemma SlicesJoin(s: string, k: nat)
    requires k <= |s|
    ensures s == s[..k] + s[k..]
  {
  }

  /** Concatenation regroups. */
  lemma JoinFour(a: string, b: string, c: string, d: string)
    ensures a + (b + (c + d)) == a + b + c + d
  {
  }

  /** The pieces ParseInt10 reads, put back together, give the whole input. */
  lemma NumeralSplitOf(s: string, t: string, u: string, digits: string) returns (ws: string, sign: string, rest: string)
    requires |t| <= |s| && t == s[|s| - |t|..] && AllStrWhiteSpace(s[..|s| - |t|])
    requires u == t || (t != [] && (t[0] == '+' || t[0] == '-') && u == t[1..])
    requires digits <= u && digits != [] && AllDigits(digits)
    requires |digits| == |u| || !IsDigit(u[|digits|])
    ensures IsNumeralSplit(s, ws, sign, digits, rest)
    ensures IsNegative(t) == IsNegative(sign)
  {
    ws, rest := s[..|s| - |t|], u[|digits|..];
    sign := if u == t then [] else [t[0]];
    assert t == sign + u;
    SlicesJoin(u, |digits|);
    assert u == digits + rest;
    SlicesJoin(s, |s| - |t|);
    assert s == ws + (sign + (digits + rest));
    JoinFour(ws, sign, digits, rest);
  }

  /**
   * The converse of ParseIntOf: whenever parseInt reads a number, the string
   * splits into white space, an optional sign, a digit run and a rest, and the
   * number is the run's value, negated after a minus.
   */
  lemma ParseIntCases(s: string)
    ensures ParseInt10(s).Some? ==>
              exists ws, sign, digits, rest :: IsNumeralSplit(s, ws, sign, digits, rest)
                                               && ParseInt10(s).value == Signed(IsNegative(sign), digits)
  {
    var t := TrimStart(s);
    var u := DropSign(t);
    var digits := LeadingDigits(u);
    assert ParseInt10(s) == if digits == [] then None else Some(Signed(IsNegative(t), digits));
    if digits != [] {
      var ws, sign, rest := NumeralSplitOf(s, t, u, digits);
      assert IsNumeralSplit(s, ws, sign, digits, rest) && ParseInt10(s).value == Signed(IsNegative(sign), digits);
    }
  }

  /** A string without any decimal digit is NaN. */
  lemma ParseIntNoDigits(s: string)
    requires !ContainsDigit(s)
    ensures ParseInt10(s) == None
  {
  }

  /** Leading white space never changes what parseInt reads. */
  lemma ParseIntSkipsWhiteSpace(ws: string, s: string)
    requires AllStrWhiteSpace(ws)
    ensures ParseInt10(ws + s) == ParseInt10(s)
  {
    TrimStartAbsorbs(ws, s);
  }

  // ---------------------------------------------------------------------------
  // Decimal rendering of a non-negative integer, the inverse of parsing
  // ---------------------------------------------------------------------------

  /** The shortest decimal numeral for `n` (no sign, no leading zero, radix 10). */
  function DecimalString(n: nat): (d: string)
    ensures d != [] && AllDigits(d)
    ensures d[0] == '0' ==> n == 0
  {
    if n < 10 then [DigitChar(n)] else DecimalString(n / 10) + [DigitChar(n % 10)]
  }

  lemma {:induction false} DecimalStringValue(n: nat)
    ensures DigitsValue(DecimalString(n)) == n
  {
    if n >= 10 {
      var d := DecimalString(n);
      assert d[..|d| - 1] == DecimalString(n / 10);
      DecimalStringValue(n / 10);
    }
  }

  /** A bare numeral, possibly signed, parses to its signed value. */
  lemma ParseIntNumeral(sign: string, d: string)
    requires IsOptionalSign(sign)
    requires d != [] && AllDigits(d)
    ensures ParseInt10(sign + d) == Some(Signed(IsNegative(sign), d))
  {
    assert [] + sign + d + [] == sign + d;
    ParseIntOf([], sign, d, []);
  }

  /** parseInt reads back every decimal numeral, with or without a sign. */
  lemma ParseIntDecimalRoundTrip(n: nat)
    ensures ParseInt10(DecimalString(n)) == Some(n)
    ensures ParseInt10(['+'] + DecimalString(n)) == Some(n)
    ensures ParseInt10(['-'] + DecimalString(n)) == Some(0 - n)
  {
    var d := DecimalString(n);
    DecimalStringValue(n);
    assert [] + d == d;
    assert !IsNegative([]) && Signed(false, d) == n;
    ParseIntNumeral([], d);
    assert !IsNegative(['+']);
    ParseIntNumeral(['+'], d);
    assert IsNegative(['-']);
    assert Signed(true, d) == 0 - n;
    ParseIntNumeral(['-'], d);
  }

  /** Leading zeros do not change a digit run's value. */
  lemma {:induction false} LeadingZeroValue(d: string)
    requires AllDigits(d)
    ensures DigitsValue("0" + d) == DigitsValue(d)
  {
    if d != [] {
      var z := "0" + d;
      assert z[..|z| - 1] == "0" + d[..|d| - 1];
      LeadingZeroValue(d[..|d| - 1]);
    }
  }

  /** A zero in front of the digits of a numeral does not change what parseInt reads. */
  lemma ParseIntLeadingZero(sign: string, d: string)
    requires IsOptionalSign(sign)
    requires d != [] && AllDigits(d)
    ensures ParseInt10(sign + "0" + d) == ParseInt10(sign + d)
  {
    var z := "0" + d;
    assert forall i :: 0 <= i < |z| ==> IsDigit(z[i]) by {
      forall i | 0 <= i < |z| ensures IsDigit(z[i]) {
        if i > 0 {
          assert z[i] == d[i - 1];
        }
      }
    }
    LeadingZeroValue(d);
    assert Signed(IsNegative(sign), z) == Signed(IsNegative(sign), d);
    assert sign + "0" + d == sign + z;
    ParseIntNumeral(sign, z);
    ParseIntNumeral(sign, d);
  }

  // ---------------------------------------------------------------------------
  // Worked examples
  // ---------------------------------------------------------------------------

  // Each example takes the typed string as a parameter fixed by its
  // precondition, and is derived from the general lemmas above.

  /** "3" is read as 3. */
  lemma ParseIntExamplePlain(s: string)
    requires s == "3"
    ensures ParseInt10(s) == Some(3)
  {
    assert DecimalString(3) == s;
    ParseIntDecimalRoundTrip(3);
  }

  /** "3.9" is read as 3: parsing stops at the first non-digit. */
  lemma ParseIntExampleFraction(s: string)
    requires s == "3.9"
    ensures ParseInt10(s) == Some(3)
  {
    assert s == [] + [] + "3" + ".9";
    ParseIntOf([], [], "3", ".9");
    assert DigitsValue("3") == 3;
  }

  /** " 3" is read as 3: leading white space is skipped. */
  lemma ParseIntExampleBlank(s: string)
    requires s == " 3"
    ensures ParseInt10(s) == Some(3)
  {
    assert s == " " + [] + "3" + [];
    assert AllStrWhiteSpace(" ");
    ParseIntOf(" ", [], "3", []);
    assert DigitsValue("3") == 3;
  }

  /** "3abc" is read as 3: trailing letters are ignored. */
  lemma ParseIntExampleTrailing(s: string)
    requires s == "3abc"
    ensures ParseInt10(s) == Some(3)
  {
    assert s == [] + [] + "3" + "abc";
    ParseIntOf([], [], "3", "abc");
    assert DigitsValue("3") == 3;
  }

  /** "03" is read as 3: a leading zero does not change the value. */
  lemma ParseIntExampleLeadingZero(s: string)
    requires s == "03"
    ensures ParseInt10(s) == Some(3)
  {
    assert s == [] + "0" + "3";
    ParseIntLeadingZero([], "3");
    ParseIntExamplePlain("3");
  }

  /** "0" is read as 0, just below the table. */
  lemma ParseIntExampleZero(s: string)
    requires s == "0"
    ensures ParseInt10(s) == Some(0)
  {
    assert DecimalString(0) == s;
    ParseIntDecimalRoundTrip(0);
  }

  /** "9" is read as 9, just above the table. */
  lemma ParseIntExampleNine(s: string)
    requires s == "9"
    ensures ParseInt10(s) == Some(9)
  {
    assert DecimalString(9) == s;
    ParseIntDecimalRoundTrip(9);
  }

  /** "-3" is read as -3. */
  lemma ParseIntExampleMinus(s: string)
    requires s == "-3"
    ensures ParseInt10(s) == Some(-3)
  {
    assert s == ['-'] + DecimalString(3);
    ParseIntDecimalRoundTrip(3);
  }

  /** "abc" has no digits: NaN. */
  lemma ParseIntExampleLetters(s: string)
    requires s == "abc"
    ensures ParseInt10(s) == None
  {
    assert s == [] + [] + "abc";
    ParseIntNaN([], [], "abc");
  }

  /** The empty string, which is what an unanswered week field becomes, is NaN. */
  lemma ParseIntExampleEmpty(s: string)
    requires s == ""
    ensures ParseInt10(s) == None
  {
    ParseIntNoDigits(s);
  }
}
