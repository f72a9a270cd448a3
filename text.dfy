/** The string operations the controllers rely on: decimal rendering
    (`Number.prototype.toString`), `String.prototype.padStart`,
    `parseInt(s, 10)`, `startsWith`, `replace` of the first occurrence,
    code-point string order (how the database compares strings) and the
    case-insensitive substring search the order listing uses. */
module Text {
  import opened Wrappers

  predicate IsDigit(c: char) { '0' <= c <= '9' }

  predicate AllDigits(s: string) { forall i :: 0 <= i < |s| ==> IsDigit(s[i]) }

  function DigitValue(c: char): (d: nat)
    requires IsDigit(c)
    ensures d < 10
  {
    c as int - '0' as int
  }

  function DigitChar(d: nat): (c: char)
    requires d < 10
    ensures IsDigit(c) && DigitValue(c) == d
  {
    (('0' as int) + d) as char
  }

  function Pow10(k: nat): (p: nat)
    ensures p >= 1
  {
    if k == 0 then 1 else 10 * Pow10(k - 1)
  }

  lemma {:induction false} Pow10Monotone(j: nat, k: nat)
    requires j <= k
    ensures Pow10(j) <= Pow10(k)
  {
    if j < k { Pow10Monotone(j, k - 1); }
  }

  // ---------------------------------------------------------------------
  // Decimal rendering and its value

  /** `n.toString()` for a non-negative integer: no sign, no leading zero. */
  function NatToDecimal(n: nat): (s: string)
    ensures |s| >= 1 && AllDigits(s)
    ensures |s| > 1 ==> s[0] != '0'
    decreases n
  {
    if n < 10 then [DigitChar(n)] else NatToDecimal(n / 10) + [DigitChar(n % 10)]
  }

  /** The value of a string of decimal digits, accumulated left to right
      as `parseInt` does (`acc * 10 + digit`). */
  function DecimalValue(s: string): nat
    requires AllDigits(s)
  {
    if s == [] then 0 else 10 * DecimalValue(s[..|s| - 1]) + DigitValue(s[|s| - 1])
  }

  lemma {:induction false} DecimalValueBound(s: string)
    requires AllDigits(s)
    ensures DecimalValue(s) < Pow10(|s|)
  {
    if s != [] { DecimalValueBound(s[..|s| - 1]); }
  }

  /** Rendering then reading back gives the number. */
  lemma {:induction false} DecimalRoundTrip(n: nat)
    ensures DecimalValue(NatToDecimal(n)) == n
    decreases n
  {
    if n >= 10 {
      var t := NatToDecimal(n / 10);
      var s := NatToDecimal(n);
      assert s == t + [DigitChar(n % 10)];
      assert s[..|s| - 1] == t;
      DecimalRoundTrip(n / 10);
    }
  }

  /** The rendering of `n` has as many digits as `n` needs: `n` is below
      `10^|s|` and, past one digit, at least `10^(|s|-1)`. */
  lemma {:induction false} DecimalLength(n: nat)
    ensures n < Pow10(|NatToDecimal(n)|)
    ensures |NatToDecimal(n)| > 1 ==> Pow10(|NatToDecimal(n)| - 1) <= n
    decreases n
  {
    if n >= 10 {
      DecimalLength(n / 10);
      var t := NatToDecimal(n / 10);
      assert |NatToDecimal(n)| == |t| + 1;
      assert Pow10(|t| + 1) == 10 * Pow10(|t|);
      if |t| > 1 {
        assert Pow10(|t|) == 10 * Pow10(|t| - 1);
      }
    }
  }

  /** `|toString(n)| <= k` exactly when `n < 10^k`. */
  lemma DecimalFitsIn(n: nat, k: nat)
    requires k >= 1
    ensures |NatToDecimal(n)| <= k <==> n < Pow10(k)
  {
    var l := |NatToDecimal(n)|;
    DecimalLength(n);
    if l <= k {
      Pow10Monotone(l, k);
    } else {
      Pow10Monotone(k, l - 1);
    }
  }

  /** Splitting off the most significant digit. */
  lemma {:induction false} DecimalValueFront(c: char, s: string)
    requires IsDigit(c) && AllDigits(s)
    ensures AllDigits([c] + s)
    ensures DecimalValue([c] + s) == DigitValue(c) * Pow10(|s|) + DecimalValue(s)
    decreases |s|
  {
    var cs := [c] + s;
    if s != [] {
      var init := s[..|s| - 1];
      assert cs[..|cs| - 1] == [c] + init;
      DecimalValueFront(c, init);
      assert Pow10(|s|) == 10 * Pow10(|init|);
      calc {
        DecimalValue(cs);
        10 * DecimalValue([c] + init) + DigitValue(s[|s| - 1]);
        10 * (DigitValue(c) * Pow10(|init|) + DecimalValue(init)) + DigitValue(s[|s| - 1]);
        DigitValue(c) * (10 * Pow10(|init|)) + (10 * DecimalValue(init) + DigitValue(s[|s| - 1]));
        DigitValue(c) * Pow10(|s|) + DecimalValue(s);
      }
    }
  }

  // ---------------------------------------------------------------------
  // padStart

  function Repeat(c: char, k: nat): (r: string)
    ensures |r| == k
    ensures forall i :: 0 <= i < k ==> r[i] == c
  {
    if k == 0 then [] else [c] + Repeat(c, k - 1)
  }

  /** `s.padStart(width, fill)` with a one-character fill: the result is
      never shorter than `s`, never truncates it, and ends with `s`. */
  function PadStart(s: string, width: nat, fill: char): (r: string)
    ensures |r| == if |s| >= width then |s| else width
    ensures r[|r| - |s|..] == s
    ensures forall i :: 0 <= i < |r| - |s| ==> r[i] == fill
  {
    if |s| >= width then s else Repeat(fill, width - |s|) + s
  }

  /** Leading zeros do not change the value of a digit string. */
  lemma {:induction false} LeadingZeros(k: nat, s: string)
    requires AllDigits(s)
    ensures AllDigits(Repeat('0', k) + s)
    ensures DecimalValue(Repeat('0', k) + s) == DecimalValue(s)
  {
    if k > 0 {
      LeadingZeros(k - 1, s);
      var rest := Repeat('0', k - 1) + s;
      assert Repeat('0', k) + s == ['0'] + rest;
      DecimalValueFront('0', rest);
      assert DigitValue('0') == 0;
    } else {
      assert Repeat('0', k) + s == s;
    }
  }

  // ---------------------------------------------------------------------
  // parseInt(s, 10), restricted to its digit-prefix behaviour

  /** The longest prefix of `s` made of decimal digits. */
  function LeadingDigits(s: string): (r: string)
    ensures |r| <= |s| && r == s[..|r|] && AllDigits(r)
    ensures |r| < |s| ==> !IsDigit(s[|r|])
  {
    if s == [] || !IsDigit(s[0]) then [] else [s[0]] + LeadingDigits(s[1..])
  }

  /** `parseInt(s, 10)`: the value of the leading digits, or NaN (`None`)
      when `s` does not start with a digit. */
  function ParseInt(s: string): Option<nat>
  {
    var d := LeadingDigits(s);
    if d == [] then None else Some(DecimalValue(d))
  }

  lemma ParseIntOfDigits(s: string)
    requires AllDigits(s) && s != []
    ensures ParseInt(s) == Some(DecimalValue(s))
  {
    var d := LeadingDigits(s);
    assert d == s;
  }

  // ---------------------------------------------------------------------
  // Code-point string order

  /** Strict lexicographic order on code points, a proper prefix first. */
  predicate StrLess(a: string, b: string)
  {
    if a == [] then b != []
    else if b == [] then false
    else if a[0] == b[0] then StrLess(a[1..], b[1..])
    else a[0] < b[0]
  }

  lemma {:induction false} StrLessIrreflexive(a: string)
    ensures !StrLess(a, a)
  {
    if a != [] { StrLessIrreflexive(a[1..]); }
  }

  lemma {:induction false} StrLessTotal(a: string, b: string)
    ensures a == b || StrLess(a, b) || StrLess(b, a)
  {
    if a != [] && b != [] && a[0] == b[0] {
      StrLessTotal(a[1..], b[1..]);
      if a[1..] == b[1..] {
        assert a == [a[0]] + a[1..] && b == [b[0]] + b[1..];
      }
    }
  }

  lemma {:induction false} StrLessTransitive(a: string, b: string, c: string)
    requires StrLess(a, b) && StrLess(b, c)
    ensures StrLess(a, c)
  {
    if a != [] && a[0] == b[0] && b[0] == c[0] {
      StrLessTransitive(a[1..], b[1..], c[1..]);
    }
  }

  lemma {:induction false} StrLessAsymmetric(a: string, b: string)
    requires StrLess(a, b)
    ensures !StrLess(b, a)
  {
    if a != [] && b != [] && a[0] == b[0] {
      StrLessAsymmetric(a[1..], b[1..]);
    }
  }

  /** Whatever is below `n`'s lower bound `r`... stays not above `n`:
      `r < n` and `x <= r` give `x <= n`. */
  lemma StrLessNotBelow(r: string, n: string, x: string)
    requires StrLess(r, n) && !StrLess(r, x)
    ensures !StrLess(n, x)
  {
    StrLessTotal(r, x);
    if r == x {
      StrLessAsymmetric(x, n);
    } else {
      StrLessTransitive(x, r, n);
      StrLessAsymmetric(x, n);
    }
  }

  lemma MulMonotone(x: int, y: int, p: nat)
    requires x <= y
    ensures x * p <= y * p
  {
  }

  /** On digit strings of one length, string order is numeric order. */
  lemma {:induction false} DigitOrderIsNumeric(a: string, b: string)
    requires AllDigits(a) && AllDigits(b) && |a| == |b|
    ensures StrLess(a, b) <==> DecimalValue(a) < DecimalValue(b)
    decreases |a|
  {
    if a != [] {
      var x, y := a[0], b[0];
      var a', b' := a[1..], b[1..];
      assert a == [x] + a' && b == [y] + b';
      DecimalValueFront(x, a');
      DecimalValueFront(y, b');
      var p := Pow10(|a'|);
      DecimalValueBound(a');
      DecimalValueBound(b');
      if x == y {
        DigitOrderIsNumeric(a', b');
      } else if x < y {
        MulMonotone(DigitValue(x) + 1, DigitValue(y), p);
        assert DecimalValue(a) < (DigitValue(x) + 1) * p;
      } else {
        MulMonotone(DigitValue(y) + 1, DigitValue(x), p);
        assert DecimalValue(b) < (DigitValue(y) + 1) * p;
      }
    }
  }

  // ---------------------------------------------------------------------
  // Prefixes, first-occurrence replacement, case-insensitive search

  predicate StartsWith(s: string, prefix: string)
  {
    |prefix| <= |s| && s[..|prefix|] == prefix
  }

  /** `pat` occurs in `s` at position `j`. */
  predicate OccursAt(s: string, pat: string, j: nat)
  {
    j + |pat| <= |s| && s[j..j + |pat|] == pat
  }

  /** `s.indexOf(pat, from)`: the first position at or after `from` where
      `pat` occurs. */
  function IndexOfFrom(s: string, pat: string, from: nat): (r: Option<nat>)
    ensures r.Some? ==> from <= r.value && OccursAt(s, pat, r.value)
    ensures r.Some? ==> forall j :: from <= j < r.value ==> !OccursAt(s, pat, j)
    ensures r.None? ==> forall j :: from <= j ==> !OccursAt(s, pat, j)
    decreases |s| - from
  {
    if from + |pat| > |s| then None
    else if OccursAt(s, pat, from) then Some(from)
    else IndexOfFrom(s, pat, from + 1)
  }

  /** `s.replace(pat, rep)` with a string pattern: only the first
      occurrence is replaced. */
  function ReplaceFirst(s: string, pat: string, rep: string): string
  {
    match IndexOfFrom(s, pat, 0)
    case None => s
    case Some(i) => s[..i] + rep + s[i + |pat|..]
  }

  /** When `s` starts with `p`, removing the first occurrence of `p`
      removes exactly that prefix. */
  lemma ReplacePrefix(s: string, p: string)
    requires StartsWith(s, p)
    ensures ReplaceFirst(s, p, "") == s[|p|..]
  {
    assert s[0..|p|] == p;
  }

  function ToLowerChar(c: char): char
  {
    if 'A' <= c <= 'Z' then (c as int + 32) as char else c
  }

  function ToLower(s: string): (r: string)
    ensures |r| == |s| && forall i :: 0 <= i < |s| ==> r[i] == ToLowerChar(s[i])
  {
    seq(|s|, i requires 0 <= i < |s| => ToLowerChar(s[i]))
  }

  /** Case-insensitive substring test (an `$regex` with option `i`, for a
      pattern without metacharacters). */
  predicate ContainsIgnoreCase(text: string, pattern: string)
  {
    exists i: nat :: i <= |text| && OccursAt(ToLower(text), ToLower(pattern), i)
  }

  /** `pattern` matches `text` at `j` letter by letter, ignoring case. */
  predicate MatchesAtIgnoringCase(text: string, pattern: string, j: nat)
  {
    j + |pattern| <= |text| &&
    forall i :: 0 <= i < |pattern| ==> ToLowerChar(text[j + i]) == ToLowerChar(pattern[i])
  }

  lemma OccursAtLowered(text: string, pattern: string, j: nat)
    ensures OccursAt(ToLower(text), ToLower(pattern), j) <==> MatchesAtIgnoringCase(text, pattern, j)
  {
    var lt, lp := ToLower(text), ToLower(pattern);
    if j + |pattern| <= |text| {
      if MatchesAtIgnoringCase(text, pattern, j) {
        assert lt[j..j + |lp|] == lp;
      }
      if OccursAt(lt, lp, j) {
        forall i | 0 <= i < |pattern|
          ensures ToLowerChar(text[j + i]) == ToLowerChar(pattern[i])
        {
          assert lt[j..j + |lp|][i] == lp[i];
        }
      }
    }
  }

  /** The search holds exactly when the pattern lines up with some part
      of the text, each letter equal to the text's up to case. */
  lemma ContainsIgnoreCaseLetterwise(text: string, pattern: string)
    ensures ContainsIgnoreCase(text, pattern) <==>
              exists j: nat :: j <= |text| && MatchesAtIgnoringCase(text, pattern, j)
  {
    if ContainsIgnoreCase(text, pattern) {
      var j: nat :| j <= |text| && OccursAt(ToLower(text), ToLower(pattern), j);
      OccursAtLowered(text, pattern, j);
    }
    if exists j: nat :: j <= |text| && MatchesAtIgnoringCase(text, pattern, j) {
      var j: nat :| j <= |text| && MatchesAtIgnoringCase(text, pattern, j);
      OccursAtLowered(text, pattern, j);
    }
  }

  lemma ToLowerIdempotent(s: string)
    ensures ToLower(ToLower(s)) == ToLower(s)
  {
  }

  /** The search does not depend on the case of either side. */
  lemma ContainsIgnoresCase(text: string, pattern: string)
    ensures ContainsIgnoreCase(text, pattern) == ContainsIgnoreCase(ToLower(text), pattern)
    ensures ContainsIgnoreCase(text, pattern) == ContainsIgnoreCase(text, ToLower(pattern))
  {
    ToLowerIdempotent(text);
    ToLowerIdempotent(pattern);
  }
}
