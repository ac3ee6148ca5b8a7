/**
 * The text primitives the core relies on: int() on a plain integer literal,
 * re.sub("[^0-9]", "", s) and s.split(".")[0].
 */
module Digits {
  import opened Results
  import opened Lists

  predicate IsDigit(c: char) { '0' <= c <= '9' }

  predicate AllDigits(s: string) { forall i | 0 <= i < |s| :: IsDigit(s[i]) }

  function DigitValue(c: char): (d: nat)
    requires IsDigit(c)
    ensures d < 10
  {
    c as int - '0' as int
  }

  function DigitChar(d: nat): (c: char)
    requires d < 10
    ensures IsDigit(c) && DigitValue(c) == d
  {
    ('0' as int + d) as char
  }

  /** The value of a decimal digit string, most significant digit first. */
  function ValueOf(s: string): (v: nat)
    requires AllDigits(s)
    decreases |s|
  {
    if s == [] then 0 else 10 * ValueOf(s[..|s| - 1]) + DigitValue(s[|s| - 1])
  }

  /** The decimal text of n, without leading zeros. */
  function ShowNat(n: nat): (s: string)
    decreases n
  {
    if n < 10 then [DigitChar(n)] else ShowNat(n / 10) + [DigitChar(n % 10)]
  }

  function ShowInt(i: int): (s: string)
  {
    if i < 0 then "-" + ShowNat(-i) else ShowNat(i)
  }

  /** A plain integer literal: an optional sign followed by at least one decimal digit. */
  predicate IntLiteral(s: string)
  {
    (s != [] && AllDigits(s)) || (|s| > 1 && (s[0] == '-' || s[0] == '+') && AllDigits(s[1..]))
  }

  /**
   * Python's int() on a string, restricted to a plain literal: an optional
   * sign followed by at least one decimal digit. Anything else is a ValueError.
   */
  function ParseInt(s: string): (r: Result<int>)
    ensures r.Ok? <==> IntLiteral(s)
    ensures r.Ok? ==> s != [] && IsDigit(s[|s| - 1])
    ensures r.Ok? && s[0] == '-' ==> r.value <= 0
    ensures r.Ok? && s[0] != '-' ==> r.value >= 0
    ensures AllDigits(s) && s != [] ==> r == Ok(ValueOf(s))
  {
    if s != [] && (s[0] == '-' || s[0] == '+') then
      var body := s[1..];
      if body != [] && AllDigits(body) then
        var v: int := ValueOf(body);
        Ok(if s[0] == '-' then -v else v)
      else Err(ValueError)
    else if s != [] && AllDigits(s) then Ok(ValueOf(s))
    else Err(ValueError)
  }

  /**
   * int() raises on text with a non-digit after its first character, such as
   * "1x1" or "1.5", and on text whose first character is neither a sign nor a digit.
   */
  lemma ParseIntRejects(s: string, i: nat)
    requires i < |s| && !IsDigit(s[i]) && (i > 0 || (s[0] != '-' && s[0] != '+'))
    ensures ParseInt(s).Err?
  {
    if i > 0 {
      assert s[1..][i - 1] == s[i];
    }
  }

  lemma {:induction false} ShowNatIsDigits(n: nat)
    ensures ShowNat(n) != [] && AllDigits(ShowNat(n)) && ValueOf(ShowNat(n)) == n
    decreases n
  {
    if n >= 10 {
      ShowNatIsDigits(n / 10);
      var s := ShowNat(n);
      assert s[..|s| - 1] == ShowNat(n / 10);
    }
  }

  /** int() reads back every integer from its decimal text. */
  lemma ParseShowInt(i: int)
    ensures ParseInt(ShowInt(i)) == Ok(i)
  {
    if i < 0 {
      ShowNatIsDigits(-i);
      assert ShowInt(i)[1..] == ShowNat(-i);
    } else {
      ShowNatIsDigits(i);
      assert IsDigit(ShowNat(i)[0]);
    }
  }

  /** On a digit string, int() fails exactly when the string is empty. */
  lemma ParseDigits(s: string)
    requires AllDigits(s)
    ensures ParseInt(s).Ok? <==> s != []
    ensures s != [] ==> ParseInt(s) == Ok(ValueOf(s))
  {
    if s != [] {
      assert IsDigit(s[0]);
    }
  }

  /** re.sub("[^0-9]", "", s): the digits of s, in order. */
  function KeepDigits(s: string): (r: string)
    ensures AllDigits(r) && |r| <= |s|
    decreases |s|
  {
    if s == [] then []
    else KeepDigits(s[..|s| - 1]) + (if IsDigit(s[|s| - 1]) then [s[|s| - 1]] else [])
  }

  /** The kept characters are a subsequence of the input, so their order is the input's. */
  lemma {:induction false} KeepDigitsSubsequence(s: string)
    ensures Subsequence(KeepDigits(s), s)
    decreases |s|
  {
    if s != [] {
      var init := s[..|s| - 1];
      KeepDigitsSubsequence(init);
      assert init + [s[|s| - 1]] == s;
      if IsDigit(s[|s| - 1]) {
        SubsequenceSnoc(KeepDigits(init), init, s[|s| - 1]);
      } else {
        assert KeepDigits(s) == KeepDigits(init);
        SubsequenceExtend(KeepDigits(init), init, s[|s| - 1]);
      }
    }
  }

  /** No digit of s is dropped: every digit keeps its number of occurrences. */
  lemma {:induction false} KeepDigitsCounts(s: string)
    ensures forall c :: multiset(KeepDigits(s))[c] == if IsDigit(c) then multiset(s)[c] else 0
    decreases |s|
  {
    if s != [] {
      var init := s[..|s| - 1];
      KeepDigitsCounts(init);
      assert init + [s[|s| - 1]] == s;
    }
  }

  lemma {:induction false} KeepDigitsAppend(a: string, b: string)
    ensures KeepDigits(a + b) == KeepDigits(a) + KeepDigits(b)
    decreases |b|
  {
    if b == [] {
      assert a + b == a;
    } else {
      var binit := b[..|b| - 1];
      KeepDigitsAppend(a, binit);
      assert (a + b)[..|a + b| - 1] == a + binit;
    }
  }

  /** A digit string passes through unchanged, which makes KeepDigits idempotent. */
  lemma {:induction false} KeepDigitsOfDigits(s: string)
    requires AllDigits(s)
    ensures KeepDigits(s) == s
    decreases |s|
  {
    if s != [] {
      KeepDigitsOfDigits(s[..|s| - 1]);
    }
  }

  /** The result is empty exactly when s holds no digit. */
  lemma KeepDigitsEmpty(s: string)
    ensures KeepDigits(s) == [] <==> forall i | 0 <= i < |s| :: !IsDigit(s[i])
  {
    KeepDigitsCounts(s);
    if KeepDigits(s) == [] {
      forall i | 0 <= i < |s| ensures !IsDigit(s[i]) {
        assert multiset(KeepDigits(s))[s[i]] == 0;
      }
    } else {
      var c := KeepDigits(s)[0];
      assert multiset(KeepDigits(s))[c] > 0;
      assert c in s;
    }
  }

  /** s.split(".")[0]: the text before the first '.', or all of s when it has none. */
  function BeforeFirstDot(s: string): (r: string)
    ensures r <= s && '.' !in r
    ensures |r| < |s| ==> s[|r|] == '.'
  {
    if s == [] || s[0] == '.' then [] else [s[0]] + BeforeFirstDot(s[1..])
  }
}
