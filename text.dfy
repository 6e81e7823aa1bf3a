/**
  The string operations the handlers rely on: the case-insensitive substring
  test behind `ilike '%term%'`, and Python's `int(...)` on a decimal string.
 */
module Text {
  import opened Wrappers

  /** ASCII lower-casing of one character. */
  function Lower(c: char): char {
    if 'A' <= c <= 'Z' then (c as int + 32) as char else c
  }

  function LowerString(s: string): (r: string)
    ensures |r| == |s|
    ensures forall i :: 0 <= i < |s| ==> r[i] == Lower(s[i])
    decreases |s|
  {
    if s == [] then [] else [Lower(s[0])] + LowerString(s[1..])
  }

  /** `term` occurs in `text` starting at index `i`. */
  predicate OccursAt(term: string, text: string, i: int) {
    0 <= i && i + |term| <= |text| && text[i..i + |term|] == term
  }

  /** `term` is a prefix of `text` or occurs in its tail. */
  predicate Contains(text: string, term: string)
    decreases |text|
  {
    term <= text || (text != [] && Contains(text[1..], term))
  }

  /** An occurrence in the tail is an occurrence one place further on. */
  lemma ShiftOccurrence(text: string, term: string, i: int)
    requires text != [] && OccursAt(term, text[1..], i)
    ensures OccursAt(term, text, i + 1)
  {
    assert text[i + 1..i + 1 + |term|] == text[1..][i..i + |term|];
  }

  lemma {:induction false} ContainsHasOccurrence(text: string, term: string)
    requires Contains(text, term)
    ensures exists i :: OccursAt(term, text, i)
    decreases |text|
  {
    if term <= text {
      assert OccursAt(term, text, 0);
    } else {
      ContainsHasOccurrence(text[1..], term);
      var i :| OccursAt(term, text[1..], i);
      ShiftOccurrence(text, term, i);
    }
  }

  lemma {:induction false} OccurrenceIsContained(text: string, term: string, i: int)
    requires OccursAt(term, text, i)
    ensures Contains(text, term)
    decreases i
  {
    if i == 0 {
      assert term <= text;
    } else {
      assert text[1..][i - 1..i - 1 + |term|] == text[i..i + |term|];
      OccurrenceIsContained(text[1..], term, i - 1);
    }
  }

  /** The recursive substring test agrees with "occurs at some index". */
  lemma ContainsIff(text: string, term: string)
    ensures Contains(text, term) <==> exists i :: OccursAt(term, text, i)
  {
    if Contains(text, term) {
      ContainsHasOccurrence(text, term);
    }
    if i :| OccursAt(term, text, i) {
      OccurrenceIsContained(text, term, i);
    }
  }

  /** `text ilike '%term%'`, with ASCII case folding. */
  predicate ContainsIgnoringCase(text: string, term: string) {
    Contains(LowerString(text), LowerString(term))
  }

  predicate IsDigit(c: char) { '0' <= c <= '9' }

  predicate AllDigits(s: string) {
    forall i :: 0 <= i < |s| ==> IsDigit(s[i])
  }

  /** The value of a string of decimal digits, most significant first. */
  function DigitsValue(s: string): nat
    requires AllDigits(s)
    decreases |s|
  {
    if s == [] then 0
    else DigitsValue(s[..|s| - 1]) * 10 + (s[|s| - 1] as int - '0' as int)
  }

  /** Python's `int(s)` on a string: an optional sign and one or more decimal digits. */
  function ParseInt(s: string): (r: Option<int>)
    ensures r.Some? ==> |s| > 0
  {
    if |s| >= 2 && s[0] == '-' && AllDigits(s[1..]) then Some(-(DigitsValue(s[1..]) as int))
    else if |s| >= 2 && s[0] == '+' && AllDigits(s[1..]) then Some(DigitsValue(s[1..]))
    else if |s| >= 1 && AllDigits(s) then Some(DigitsValue(s))
    else None
  }

  function DigitChar(d: nat): (c: char)
    requires d < 10
    ensures IsDigit(c) && c as int - '0' as int == d
  {
    ('0' as int + d) as char
  }

  /** The decimal digits of `n`, as `str(n)` writes them. */
  function Decimal(n: nat): (r: string)
    ensures |r| > 0 && AllDigits(r)
    decreases n
  {
    if n < 10 then [DigitChar(n)] else Decimal(n / 10) + [DigitChar(n % 10)]
  }

  /** `str(n)`. */
  function ShowInt(n: int): string {
    if n < 0 then "-" + Decimal(-n) else Decimal(n)
  }

  lemma {:induction false} DecimalValue(n: nat)
    ensures DigitsValue(Decimal(n)) == n
    decreases n
  {
    if n >= 10 {
      DecimalValue(n / 10);
      var s := Decimal(n);
      assert s[..|s| - 1] == Decimal(n / 10);
    }
  }

  /** `int(str(n)) == n`. */
  lemma ParseShowRoundTrip(n: int)
    ensures ParseInt(ShowInt(n)) == Some(n)
  {
    if n < 0 {
      DecimalValue(-n);
      assert ShowInt(n)[1..] == Decimal(-n);
    } else {
      DecimalValue(n);
      assert IsDigit(ShowInt(n)[0]);
    }
  }
}
