/**
 * The Python string built-ins the field extractor relies on: `str.strip()`,
 * chains of `str.replace(c, '')`, `str.startswith` and `float()` on a
 * decimal literal.
 */
module PyText {
  import opened Wrappers

  /** The characters for which Python's `str.isspace()` holds. */
  predicate IsSpace(c: char) {
    || ('\U{9}' <= c <= '\U{d}') || ('\U{1c}' <= c <= '\U{20}')
    || c == '\U{85}' || c == '\U{a0}' || c == '\U{1680}'
    || ('\U{2000}' <= c <= '\U{200a}') || c == '\U{2028}' || c == '\U{2029}'
    || c == '\U{202f}' || c == '\U{205f}' || c == '\U{3000}'
  }

  predicate IsDigit(c: char) {
    '0' <= c <= '9'
  }

  predicate AllDigits(s: string) {
    forall i :: 0 <= i < |s| ==> IsDigit(s[i])
  }

  /** Leading whitespace removed. */
  function StripLeft(s: string): (r: string)
    ensures |r| <= |s| && r == s[|s| - |r|..]
    ensures r == [] || !IsSpace(r[0])
    ensures forall i :: 0 <= i < |s| - |r| ==> IsSpace(s[i])
  {
    if |s| > 0 && IsSpace(s[0]) then StripLeft(s[1..]) else s
  }

  /** Trailing whitespace removed. */
  function StripRight(s: string): (r: string)
    ensures |r| <= |s| && r == s[..|r|]
    ensures r == [] || !IsSpace(r[|r| - 1])
    ensures forall i :: |r| <= i < |s| ==> IsSpace(s[i])
  {
    if |s| > 0 && IsSpace(s[|s| - 1]) then StripRight(s[..|s| - 1]) else s
  }

  /** Stripping keeps a first character that is not a space in first place. */
  lemma StripKeepsHead(s: string)
    ensures |s| > 0 && !IsSpace(s[0]) ==>
      |StripRight(StripLeft(s))| > 0 && StripRight(StripLeft(s))[0] == s[0]
  {
    if |s| > 0 && !IsSpace(s[0]) {
      assert StripLeft(s) == s;
    }
  }

  /** `s.strip()`: whitespace is dropped at the two ends. */
  function Strip(s: string): (r: string)
    ensures r == [] || (!IsSpace(r[0]) && !IsSpace(r[|r| - 1]))
    ensures |s| > 0 && !IsSpace(s[0]) ==> |r| > 0 && r[0] == s[0]
  {
    StripKeepsHead(s);
    StripRight(StripLeft(s))
  }

  /** Stripping drops only whitespace: it keeps exactly the characters of `s`, less some spaces. */
  lemma StripMember(s: string, c: char)
    ensures c in Strip(s) ==> c in s
    ensures c in s && !IsSpace(c) ==> c in Strip(s)
  {
    if c in Strip(s) {
      StripRightMember(StripLeft(s), c);
      StripLeftSubset(s, c);
    }
    if c in s && !IsSpace(c) {
      StripLeftKeeps(s, c);
      StripRightMember(StripLeft(s), c);
    }
  }

  lemma StripLeftSubset(s: string, c: char)
    requires c in StripLeft(s)
    ensures c in s
  {
    var left := StripLeft(s);
    var j :| 0 <= j < |left| && left[j] == c;
    assert left == s[|s| - |left|..];
    assert s[|s| - |left| + j] == c;
  }

  lemma StripLeftKeeps(s: string, c: char)
    requires c in s && !IsSpace(c)
    ensures c in StripLeft(s)
  {
    var left := StripLeft(s);
    var off := |s| - |left|;
    var i :| 0 <= i < |s| && s[i] == c;
    assert off <= i;
    assert left[i - off] == c;
  }


  lemma StripRightMember(s: string, c: char)
    ensures c in StripRight(s) ==> c in s
    ensures c in s && !IsSpace(c) ==> c in StripRight(s)
  {
    var r := StripRight(s);
    if c in r {
      var j :| 0 <= j < |r| && r[j] == c;
      assert s[j] == c;
    }
    if c in s && !IsSpace(c) {
      var i :| 0 <= i < |s| && s[i] == c;
      assert i < |r|;
      assert r[i] == c;
    }
  }


  /**
   * `s.replace(c1, '').replace(c2, '')...` for the characters in `drop`:
   * the other characters, in their order.
   */
  function Remove(s: string, drop: set<char>): (r: string)
    ensures |r| <= |s|
    ensures |s| > 0 && s[0] !in drop ==> |r| > 0 && r[0] == s[0]
  {
    if s == [] then []
    else if s[0] in drop then Remove(s[1..], drop)
    else [s[0]] + Remove(s[1..], drop)
  }

  /** Every occurrence of a dropped character goes, every other character stays. */
  lemma {:induction false} RemoveMember(s: string, drop: set<char>, c: char)
    ensures c in Remove(s, drop) <==> c in s && c !in drop
  {
    if s != [] {
      assert s == [s[0]] + s[1..];
      RemoveMember(s[1..], drop, c);
    }
  }

  /** `s.startswith(c)` for a one-character prefix. */
  predicate StartsWith(s: string, c: char) {
    |s| > 0 && s[0] == c
  }

  /** The number of leading decimal digits of `s`. */
  function LeadingDigits(s: string): (n: nat)
    ensures n <= |s| && AllDigits(s[..n])
    ensures n == |s| || !IsDigit(s[n])
  {
    if |s| > 0 && IsDigit(s[0]) then 1 + LeadingDigits(s[1..]) else 0
  }

  function DigitValue(c: char): nat
    requires IsDigit(c)
  {
    c as int - '0' as int
  }

  /** The value of a string of decimal digits, most significant first. */
  function Whole(ds: string): nat
    requires AllDigits(ds)
  {
    if ds == [] then 0 else 10 * Whole(ds[..|ds| - 1]) + DigitValue(ds[|ds| - 1])
  }

  /** The value of the digits after a decimal point: `Fraction("25") == 0.25`. */
  function Fraction(ds: string): (f: real)
    requires AllDigits(ds)
    ensures 0.0 <= f < 1.0
  {
    if ds == [] then 0.0 else (DigitValue(ds[0]) as real + Fraction(ds[1..])) / 10.0
  }

  /** An unsigned decimal literal: digits with at most one point and at least one digit. */
  function ParseUnsigned(u: string): (r: Option<real>)
    ensures r.Some? ==> 0.0 <= r.value
    ensures r.Some? ==> u != [] && forall i :: 0 <= i < |u| ==> IsDigit(u[i]) || u[i] == '.'
  {
    var n := LeadingDigits(u);
    var whole := Whole(u[..n]) as real;
    if n == |u| then
      if n > 0 then Some(whole) else None
    else if u[n] == '.' && AllDigits(u[n + 1..]) && (n > 0 || n + 1 < |u|) then
      assert forall i :: n < i < |u| ==> u[i] == u[n + 1..][i - n - 1];
      Some(whole + Fraction(u[n + 1..]))
    else None
  }

  /** The characters a decimal literal accepted by `float()` is made of. */
  predicate IsNumeralChar(c: char) {
    IsSpace(c) || IsDigit(c) || c == '.' || c == '+' || c == '-'
  }

  /**
   * `float(s)` for a decimal literal: surrounding whitespace, an optional
   * sign, then an unsigned literal. `None` stands for the `ValueError`.
   */
  function ParseFloat(s: string): (r: Option<real>)
    ensures r.Some? && StartsWith(Strip(s), '-') ==> r.value <= 0.0
    ensures r.Some? && !StartsWith(Strip(s), '-') ==> 0.0 <= r.value
  {
    var t := Strip(s);
    if StartsWith(t, '-') then
      match ParseUnsigned(t[1..])
      case Some(m) => Some(-m)
      case None => None
    else if StartsWith(t, '+') then ParseUnsigned(t[1..])
    else ParseUnsigned(t)
  }

  /** `float()` accepts only whitespace, signs, digits and a point. */
  lemma ParseFloatChars(s: string, c: char)
    requires ParseFloat(s).Some? && c in s
    ensures IsNumeralChar(c)
  {
    StripMember(s, c);
    var t := Strip(s);
    if c in t && t[0] != c {
      var i :| 0 <= i < |t| && t[i] == c;
      if StartsWith(t, '-') || StartsWith(t, '+') {
        assert t[1..][i - 1] == c;
      }
    }
  }

  /** A text without a minus sign never reads as a negative number. */
  lemma ParseFloatNoMinus(s: string)
    requires ParseFloat(s).Some? && '-' !in s
    ensures 0.0 <= ParseFloat(s).value
  {
    StripMember(s, '-');
  }

  function DigitChar(d: nat): (c: char)
    requires d < 10
    ensures IsDigit(c) && DigitValue(c) == d
  {
    ('0' as int + d) as char
  }

  /** `str(n)` for a natural number: its decimal digits, most significant first. */
  function NatText(n: nat): (t: string)
    ensures |t| > 0 && AllDigits(t)
  {
    if n < 10 then [DigitChar(n)] else NatText(n / 10) + [DigitChar(n % 10)]
  }

  /** `str(k)` for an integer. */
  function IntText(k: int): string {
    if k < 0 then "-" + NatText(-k) else NatText(k)
  }

  lemma {:induction false} WholeNatText(n: nat)
    ensures Whole(NatText(n)) == n
  {
    if n >= 10 {
      var t := NatText(n);
      assert t[..|t| - 1] == NatText(n / 10);
      WholeNatText(n / 10);
    }
  }

  /** `float(str(k)) == k`: the parser reads back every integer literal. */
  lemma ParseFloatIntText(k: int)
    ensures ParseFloat(IntText(k)) == Some(k as real)
  {
    var digits := NatText(if k < 0 then -k else k);
    var text := IntText(k);
    assert !IsSpace(text[0]) && !IsSpace(text[|text| - 1]);
    assert StripLeft(text) == text;
    assert StripRight(text) == text;
    assert LeadingDigits(digits) == |digits|;
    assert digits[..|digits|] == digits;
    WholeNatText(if k < 0 then -k else k);
    if k < 0 {
      assert text[1..] == digits;
    }
  }

  /** A numeral that begins with a minus sign never reads as a positive number. */
  lemma ParseFloatLeadingMinus(s: string)
    requires StartsWith(s, '-')
    ensures ParseFloat(s).Some? ==> ParseFloat(s).value <= 0.0
  {
    assert !IsSpace(s[0]);
    assert StartsWith(Strip(s), '-');
  }

  /** A text with no whitespace at either end is left as it is by `strip()`. */
  lemma StripPlain(s: string)
    requires |s| > 0 && !IsSpace(s[0]) && !IsSpace(s[|s| - 1])
    ensures Strip(s) == s
  {
    assert StripLeft(s) == s;
  }

  /** Removing characters that do not occur changes nothing. */
  lemma {:induction false} RemoveAbsent(s: string, drop: set<char>)
    requires forall i :: 0 <= i < |s| ==> s[i] !in drop
    ensures Remove(s, drop) == s
  {
    if s != [] {
      RemoveAbsent(s[1..], drop);
    }
  }

  /** Removal works piecewise on a concatenation. */
  lemma {:induction false} RemoveAppend(a: string, b: string, drop: set<char>)
    ensures Remove(a + b, drop) == Remove(a, drop) + Remove(b, drop)
  {
    if a != [] {
      assert (a + b)[1..] == a[1..] + b;
      RemoveAppend(a[1..], b, drop);
    } else {
      assert a + b == b;
    }
  }

  /** What `float()` makes of a few decimal literals. */
  lemma ParseUnsignedExamples()
    ensures ParseUnsigned("5.2") == Some(5.2)
    ensures ParseUnsigned(".5") == Some(0.5)
    ensures ParseUnsigned("5.") == Some(5.0)
    ensures ParseUnsigned(".") == None
    ensures ParseUnsigned("1.2.3") == None
  {
  }
}
