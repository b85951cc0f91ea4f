/** Options and the few string operations that the modelled code takes from its platform. */
module Text {
  datatype Option<+T> = None | Some(value: T)

  /** `char.IsWhiteSpace` of .NET: the Unicode white-space characters. */
  predicate IsWhiteSpace(c: char) {
    || '\U{0009}' <= c <= '\U{000D}'
    || c == ' ' || c == '\U{0085}' || c == '\U{00A0}' || c == '\U{1680}'
    || '\U{2000}' <= c <= '\U{200A}'
    || c == '\U{2028}' || c == '\U{2029}' || c == '\U{202F}' || c == '\U{205F}' || c == '\U{3000}'
  }

  /** `string.IsNullOrWhiteSpace`. */
  predicate IsBlank(s: string) {
    forall i :: 0 <= i < |s| ==> IsWhiteSpace(s[i])
  }

  // ---- Trimming ----

  /** `string.Trim` for a given notion of white space. */
  function TrimBy(s: string, space: char -> bool): string
    decreases |s|
  {
    if s == [] then []
    else if space(s[0]) then TrimBy(s[1..], space)
    else if space(s[|s| - 1]) then TrimBy(s[..|s| - 1], space)
    else s
  }

  predicate TrimmedBy(s: string, space: char -> bool) {
    s == [] || (!space(s[0]) && !space(s[|s| - 1]))
  }

  lemma TrimIsTrimmed(s: string, space: char -> bool)
    ensures TrimmedBy(TrimBy(s, space), space)
    ensures TrimBy(s, space) == s <==> TrimmedBy(s, space)
    ensures |TrimBy(s, space)| <= |s|
    decreases |s|
  {
  }

  function Trim(s: string): string {
    TrimBy(s, IsWhiteSpace)
  }

  lemma TrimBlank(s: string)
    ensures Trim(s) == "" <==> IsBlank(s)
    decreases |s|
  {
    if s != "" {
      if IsWhiteSpace(s[0]) {
        TrimBlank(s[1..]);
        assert s == [s[0]] + s[1..];
      } else if IsWhiteSpace(s[|s| - 1]) {
        assert !IsBlank(s[..|s| - 1]) by { assert s[..|s| - 1][0] == s[0]; }
        TrimBlank(s[..|s| - 1]);
      }
    }
  }

  /** Trimming takes white space from both ends and nothing else. */
  lemma {:induction false} TrimIsMiddle(s: string, space: char -> bool) returns (i: nat, j: nat)
    ensures i <= j <= |s| && TrimBy(s, space) == s[i..j]
    ensures forall k :: 0 <= k < i || j <= k < |s| ==> space(s[k])
    decreases |s|
  {
    i, j := 0, |s|;
    if s != "" && space(s[0]) {
      var low, high := TrimIsMiddle(s[1..], space);
      i, j := low + 1, high + 1;
      assert forall k :: 1 <= k < |s| ==> s[k] == s[1..][k - 1];
    } else if s != "" && space(s[|s| - 1]) {
      i, j := TrimIsMiddle(s[..|s| - 1], space);
    }
  }

  // ---- Case ----

  function LowerChar(c: char): char {
    if 'A' <= c <= 'Z' then (c as int + 32) as char else c
  }

  /** Case folding of the ASCII letters. */
  function Lower(s: string): (r: string)
    ensures |r| == |s|
  {
    seq(|s|, i requires 0 <= i < |s| => LowerChar(s[i]))
  }

  /** The same letter, in upper and lower case. */
  predicate CasesOfOne(a: char, b: char) {
    || ('A' <= a <= 'Z' && b as int == a as int - 'A' as int + 'a' as int)
    || ('A' <= b <= 'Z' && a as int == b as int - 'A' as int + 'a' as int)
  }

  predicate SameIgnoringCase(a: string, b: string) {
    |a| == |b| && forall i :: 0 <= i < |a| ==> a[i] == b[i] || CasesOfOne(a[i], b[i])
  }

  /** Folded texts are equal exactly when the texts are, up to the case of letters. */
  lemma LowerIsCaseless(a: string, b: string)
    ensures Lower(a) == Lower(b) <==> SameIgnoringCase(a, b)
  {
    if Lower(a) == Lower(b) {
      forall i | 0 <= i < |a|
        ensures a[i] == b[i] || CasesOfOne(a[i], b[i])
      {
        assert Lower(a)[i] == Lower(b)[i];
      }
    }
  }

  // ---- Decimal numerals ----

  function Digit(d: nat): char
    requires d < 10
  {
    ('0' as int + d) as char
  }

  function Decimal(n: nat): string {
    if n < 10 then [Digit(n)] else Decimal(n / 10) + [Digit(n % 10)]
  }

  predicate AllDigits(s: string) {
    s != "" && forall i :: 0 <= i < |s| ==> '0' <= s[i] <= '9'
  }

  function Natural(s: string): nat
    requires forall i :: 0 <= i < |s| ==> '0' <= s[i] <= '9'
  {
    if s == "" then 0
    else Natural(s[..|s| - 1]) * 10 + (s[|s| - 1] as int - '0' as int)
  }

  lemma {:induction false} DecimalIsDigits(m: nat)
    ensures AllDigits(Decimal(m)) && Natural(Decimal(m)) == m
  {
    if m >= 10 {
      DecimalIsDigits(m / 10);
      assert Decimal(m)[..|Decimal(m)| - 1] == Decimal(m / 10);
    } else {
      assert Decimal(m)[..0] == "";
    }
  }
}
