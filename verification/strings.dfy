/** The conventional Some/None datatype. */
module Optional {
  datatype Option<+T> = None | Some(value: T)
}

/**
  Character classes and string helpers with the meaning the metrics engine
  gives them: Java's default (ASCII) regular-expression classes `\s` and `\d`,
  ASCII case folding, `String.contains`, `String.endsWith`, `String.trim`
  and `Double.parseDouble` restricted to the digit strings the patterns admit.
*/
module Strings {

  /** Java's `\s`: space, tab, newline, vertical tab, form feed, carriage return. */
  predicate IsSpace(c: char) {
    c == ' ' || c == '\t' || c == '\n' || c == '\U{B}' || c == '\U{C}' || c == '\r'
  }

  predicate IsNotSpace(c: char) {
    !IsSpace(c)
  }

  /** Java's `\d` (without UNICODE_CHARACTER_CLASS). */
  predicate IsDigit(c: char) {
    '0' <= c <= '9'
  }

  predicate AllDigits(s: string) {
    forall k :: 0 <= k < |s| ==> IsDigit(s[k])
  }

  function LowerChar(c: char): char {
    if 'A' <= c <= 'Z' then (c as int + 32) as char else c
  }

  /** Lower-casing of ASCII letters; every other character is kept. */
  function Lower(s: string): string {
    seq(|s|, i requires 0 <= i < |s| => LowerChar(s[i]))
  }

  lemma LowerIdempotent(s: string)
    ensures Lower(Lower(s)) == Lower(s)
  {
  }

  ghost predicate OccursAt(s: string, t: string, i: int) {
    0 <= i && i + |t| <= |s| && s[i..i + |t|] == t
  }

  /** `s.contains(t)`. */
  function Contains(s: string, t: string): bool
    decreases |s|
  {
    if |t| > |s| then false
    else s[..|t|] == t || (|s| > 0 && Contains(s[1..], t))
  }

  /** Contains agrees with the declarative "t occurs at some index of s". */
  lemma {:induction false} ContainsIffOccurs(s: string, t: string)
    ensures Contains(s, t) <==> exists i :: OccursAt(s, t, i)
    decreases |s|
  {
    if |t| > |s| {
    } else if s[..|t|] == t {
      assert OccursAt(s, t, 0);
    } else {
      assert |t| > 0;
      ContainsIffOccurs(s[1..], t);
      if Contains(s[1..], t) {
        var i :| OccursAt(s[1..], t, i);
        assert s[1..][i..i + |t|] == s[i + 1..i + 1 + |t|];
        assert OccursAt(s, t, i + 1);
      }
      if exists i :: OccursAt(s, t, i) {
        var i :| OccursAt(s, t, i);
        assert i != 0;
        assert s[1..][i - 1..i - 1 + |t|] == s[i..i + |t|];
        assert OccursAt(s[1..], t, i - 1);
      }
    }
  }

  /** `s.endsWith(t)`. */
  predicate EndsWith(s: string, t: string) {
    |t| <= |s| && s[|s| - |t|..] == t
  }

  /** `s` ends with `t` exactly when it is some string followed by `t`. */
  lemma EndsWithIff(s: string, t: string)
    ensures EndsWith(s, t) <==> exists p :: s == p + t
  {
    if EndsWith(s, t) {
      assert s == s[..|s| - |t|] + t;
    }
    forall p | s == p + t
      ensures EndsWith(s, t)
    {
      assert s[|s| - |t|..] == t;
    }
  }

  /** Literal `lit` (given in lower case) at position i, compared case-insensitively. */
  predicate StartsWithCaseless(s: string, i: nat, lit: string) {
    i + |lit| <= |s| && CaselessAt(s, i, lit)
  }

  /** The characters from i on agree with lit up to ASCII case, compared one at a time. */
  predicate CaselessAt(s: string, i: nat, lit: string)
    requires i + |lit| <= |s|
    decreases |lit|
  {
    lit == [] || (LowerChar(s[i]) == lit[0] && CaselessAt(s, i + 1, lit[1..]))
  }

  /** The character-wise comparison is the comparison of the lower-cased slice. */
  lemma {:induction false} StartsWithCaselessIff(s: string, i: nat, lit: string)
    requires i + |lit| <= |s|
    ensures CaselessAt(s, i, lit) <==> Lower(s[i..i + |lit|]) == lit
    decreases |lit|
  {
    if lit != [] {
      StartsWithCaselessIff(s, i + 1, lit[1..]);
      assert Lower(s[i..i + |lit|]) == [LowerChar(s[i])] + Lower(s[i + 1..i + |lit|]);
      assert lit == [lit[0]] + lit[1..];
    }
  }

  /** Literal `lit` at position i, compared exactly. */
  predicate StartsWithExact(s: string, i: nat, lit: string) {
    i + |lit| <= |s| && ExactAt(s, i, lit)
  }

  predicate ExactAt(s: string, i: nat, lit: string)
    requires i + |lit| <= |s|
    decreases |lit|
  {
    lit == [] || (s[i] == lit[0] && ExactAt(s, i + 1, lit[1..]))
  }

  lemma {:induction false} StartsWithExactIff(s: string, i: nat, lit: string)
    requires i + |lit| <= |s|
    ensures ExactAt(s, i, lit) <==> s[i..i + |lit|] == lit
    decreases |lit|
  {
    if lit != [] {
      StartsWithExactIff(s, i + 1, lit[1..]);
      assert s[i..i + |lit|] == [s[i]] + s[i + 1..i + |lit|];
      assert lit == [lit[0]] + lit[1..];
    }
  }

  /** The end of the longest run of characters satisfying p that starts at i. */
  function RunEnd(s: string, i: nat, p: char -> bool): (r: nat)
    requires i <= |s|
    ensures i <= r <= |s|
    ensures r < |s| ==> !p(s[r])
    decreases |s| - i
  {
    if i < |s| && p(s[i]) then RunEnd(s, i + 1, p) else i
  }

  /** Every character the run passes over satisfies p. */
  lemma {:induction false} RunEndAll(s: string, i: nat, p: char -> bool)
    requires i <= |s|
    ensures forall k :: i <= k < RunEnd(s, i, p) ==> p(s[k])
    decreases |s| - i
  {
    if i < |s| && p(s[i]) {
      RunEndAll(s, i + 1, p);
    }
  }

  /** Java's `String.trim`: drops leading and trailing characters up to U+0020. */
  function Trim(s: string): (r: string)
    ensures |r| <= |s|
    ensures exists a, b ::
              0 <= a <= b <= |s| && r == s[a..b]
              && (forall k :: 0 <= k < a ==> s[k] <= ' ')
              && (forall k :: b <= k < |s| ==> s[k] <= ' ')
    ensures r != [] ==> r[0] > ' ' && r[|r| - 1] > ' '
  {
    var t := TrimStart(s);
    var a := |s| - |t|;
    var r := TrimEnd(t);
    assert r == s[a..a + |r|];
    r
  }

  function TrimStart(s: string): (r: string)
    ensures |r| <= |s| && r == s[|s| - |r|..]
    ensures forall k :: 0 <= k < |s| - |r| ==> s[k] <= ' '
    ensures r != [] ==> r[0] > ' '
  {
    if |s| > 0 && s[0] <= ' ' then TrimStart(s[1..]) else s
  }

  function TrimEnd(s: string): (r: string)
    ensures |r| <= |s| && r == s[..|r|]
    ensures forall k :: |r| <= k < |s| ==> s[k] <= ' '
    ensures r != [] ==> r[|r| - 1] > ' '
  {
    if |s| > 0 && s[|s| - 1] <= ' ' then TrimEnd(s[..|s| - 1]) else s
  }

  function DigitValue(c: char): nat
    requires IsDigit(c)
  {
    c as int - '0' as int
  }

  /** The value of a decimal digit string, most significant digit first. */
  function DigitsValue(ds: string): nat
    requires AllDigits(ds)
  {
    if ds == [] then 0 else DigitsValue(ds[..|ds| - 1]) * 10 + DigitValue(ds[|ds| - 1])
  }

  function Pow10(n: nat): (r: nat)
    ensures r >= 1
  {
    if n == 0 then 1 else 10 * Pow10(n - 1)
  }

  /** `Double.parseDouble` of "whole" or "whole.frac", as an exact real. */
  function Decimal(whole: string, frac: string): (r: real)
    requires AllDigits(whole) && AllDigits(frac)
    ensures r >= DigitsValue(whole) as real
    ensures r < DigitsValue(whole) as real + 1.0
  {
    DecimalFractionBelowOne(frac);
    DigitsValue(whole) as real + DigitsValue(frac) as real / Pow10(|frac|) as real
  }

  /** A digit string of length n denotes less than 10^n. */
  lemma {:induction false} DigitsBelowPow10(ds: string)
    requires AllDigits(ds)
    ensures DigitsValue(ds) < Pow10(|ds|)
  {
    if ds != [] {
      DigitsBelowPow10(ds[..|ds| - 1]);
    }
  }

  lemma DecimalFractionBelowOne(frac: string)
    requires AllDigits(frac)
    ensures 0.0 <= DigitsValue(frac) as real / Pow10(|frac|) as real < 1.0
  {
    DigitsBelowPow10(frac);
    QuotientBelowOne(DigitsValue(frac) as real, Pow10(|frac|) as real);
  }

  lemma QuotientBelowOne(a: real, b: real)
    requires 0.0 <= a < b
    ensures 0.0 <= a / b < 1.0
  {
    var q := a / b;
    assert q * b == a;
  }
}
