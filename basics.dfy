/** Small value types and string helpers shared by the rest of the model:
    optional values and results (the source's null fields and exceptions),
    sums of byte counts, decimal rendering of non-negative integers (what
    `string.Format("{0}", n)` and string interpolation produce for a
    non-negative `int` or `long`), ordinal substring search (`string.Contains`)
    and ASCII case folding. */
module Basics {

  datatype Option<T> = None | Some(value: T)

  datatype Result<T, E> = Ok(value: T) | Err(error: E)

  /** The sum of a sequence of byte counts, accumulated from the left. */
  function Sum(xs: seq<nat>): nat
  {
    if xs == [] then 0 else Sum(xs[..|xs| - 1]) + xs[|xs| - 1]
  }

  lemma {:induction false} SumConcat(a: seq<nat>, b: seq<nat>)
    ensures Sum(a + b) == Sum(a) + Sum(b)
  {
    if b == [] {
      assert a + b == a;
    } else {
      assert (a + b)[..|a + b| - 1] == a + b[..|b| - 1];
      SumConcat(a, b[..|b| - 1]);
    }
  }

  // ---------------------------------------------------------------------------
  // Decimal rendering of non-negative integers
  // ---------------------------------------------------------------------------

  predicate IsDigit(c: char)
  {
    '0' <= c <= '9'
  }

  predicate AllDigits(s: string)
  {
    forall i :: 0 <= i < |s| ==> IsDigit(s[i])
  }

  function DigitChar(d: nat): (c: char)
    requires d < 10
    ensures IsDigit(c) && (c as int) - ('0' as int) == d
  {
    (('0' as int) + d) as char
  }

  /** The shortest decimal numeral of `n`: digits only, no sign, no leading zero. */
  function DecimalString(n: nat): (s: string)
    ensures |s| >= 1 && AllDigits(s)
    ensures s[0] == '0' ==> n == 0
    decreases n
  {
    if n < 10 then [DigitChar(n)] else DecimalString(n / 10) + [DigitChar(n % 10)]
  }

  /** The value of a numeral; the partner of DecimalString. */
  function DecimalValue(s: string): nat
    requires AllDigits(s)
  {
    if s == [] then 0
    else DecimalValue(s[..|s| - 1]) * 10 + ((s[|s| - 1] as int) - ('0' as int))
  }

  /** Reading back a rendered numeral gives the number: the rendering loses nothing. */
  lemma {:induction false} DecimalRoundTrip(n: nat)
    ensures DecimalValue(DecimalString(n)) == n
    decreases n
  {
    var s := DecimalString(n);
    if n >= 10 {
      DecimalRoundTrip(n / 10);
      assert s[..|s| - 1] == DecimalString(n / 10);
    }
  }

  lemma DecimalStringInjective(m: nat, n: nat)
    requires DecimalString(m) == DecimalString(n)
    ensures m == n
  {
    DecimalRoundTrip(m);
    DecimalRoundTrip(n);
  }

  // ---------------------------------------------------------------------------
  // Ordinal substring search
  // ---------------------------------------------------------------------------

  /** `pattern` occurs in `s` starting at index `i`. */
  predicate OccursAt(s: string, pattern: string, i: nat)
  {
    i + |pattern| <= |s| && s[i..i + |pattern|] == pattern
  }

  /** `s.Contains(pattern)`: some contiguous slice of `s` equals `pattern`. */
  predicate Contains(s: string, pattern: string)
  {
    exists i: nat | i <= |s| :: OccursAt(s, pattern, i)
  }

  /** A separator character that does not occur in the pattern splits the
      search: the pattern occurs in `a + [sep] + b` exactly when it occurs in
      `a` or in `b`. */
  lemma {:induction false} ContainsAcrossSeparator(a: string, sep: char, b: string, pattern: string)
    requires sep !in pattern
    ensures Contains(a + [sep] + b, pattern) <==> Contains(a, pattern) || Contains(b, pattern)
  {
    var s := a + [sep] + b;
    var n := |pattern|;
    var k := |a| + 1;
    if Contains(a, pattern) {
      var i: nat :| i <= |a| && OccursAt(a, pattern, i);
      assert s[i..i + n] == a[i..i + n];
      assert OccursAt(s, pattern, i);
    }
    if Contains(b, pattern) {
      var i: nat :| i <= |b| && OccursAt(b, pattern, i);
      assert s[k + i..k + i + n] == b[i..i + n];
      assert OccursAt(s, pattern, k + i);
    }
    if Contains(s, pattern) {
      var i: nat :| i <= |s| && OccursAt(s, pattern, i);
      if i + n <= |a| {
        assert a[i..i + n] == s[i..i + n];
        assert OccursAt(a, pattern, i);
      } else if i >= k {
        assert b[i - k..i - k + n] == s[i..i + n];
        assert OccursAt(b, pattern, i - k);
      } else {
        SeparatorInsideOccurrence(a, sep, b, pattern, i);
        assert false;
      }
    }
  }

  lemma SeparatorInsideOccurrence(a: string, sep: char, b: string, pattern: string, i: nat)
    requires OccursAt(a + [sep] + b, pattern, i)
    requires i <= |a| < i + |pattern|
    ensures sep in pattern
  {
    var s := a + [sep] + b;
    assert pattern[|a| - i] == s[|a|];
  }

  /** A pattern whose first character does not occur in `s` does not occur in `s`. */
  lemma {:induction false} FirstCharAbsent(s: string, pattern: string)
    requires |pattern| > 0 && pattern[0] !in s
    ensures !Contains(s, pattern)
  {
    forall i: nat | i <= |s|
      ensures !OccursAt(s, pattern, i)
    {
      if i + |pattern| <= |s| {
        assert s[i..i + |pattern|][0] == s[i];
      }
    }
  }

  // ---------------------------------------------------------------------------
  // ASCII case folding
  // ---------------------------------------------------------------------------

  function LowerAscii(c: char): (l: char)
    ensures 'A' <= c <= 'Z' ==> l as int == c as int + 32
    ensures !('A' <= c <= 'Z') ==> l == c
  {
    if 'A' <= c <= 'Z' then (c as int + 32) as char else c
  }

  /** Case-insensitive equality of two strings, folding ASCII letters only. */
  predicate EqualsIgnoreCase(a: string, b: string)
  {
    |a| == |b| && forall i :: 0 <= i < |a| ==> LowerAscii(a[i]) == LowerAscii(b[i])
  }
}
