/** Shared vocabulary: optional cells, decimal digits, order-preserving
    selection (the shape of a boolean-mask filter and of a list
    comprehension with a condition), subsequences, distinct non-null
    values of a column, and the case-insensitive substring test. */
module Common {

  /** A table cell that may be null (pandas NaN / JSON null). */
  datatype Option<+T> = None | Some(value: T)

  // ---------------------------------------------------------------- digits

  predicate IsDigit(c: char) { '0' <= c <= '9' }

  predicate AllDigits(s: string) { forall i :: 0 <= i < |s| ==> IsDigit(s[i]) }

  function Pow10(n: nat): (p: nat)
    ensures p >= 1
  {
    if n == 0 then 1 else 10 * Pow10(n - 1)
  }

  function DigitValue(c: char): (d: nat)
    requires IsDigit(c)
    ensures d < 10
  {
    c as int - '0' as int
  }

  function DigitChar(d: nat): (c: char)
    requires d < 10
    ensures IsDigit(c) && DigitValue(c) == d
  {
    ('0' as int + d) as char
  }

  /** Value of a string of decimal digits, most significant first ("" is 0). */
  function DigitsValue(s: string): (v: nat)
    requires AllDigits(s)
    ensures v < Pow10(|s|)
  {
    if s == [] then 0 else DigitsValue(s[..|s| - 1]) * 10 + DigitValue(s[|s| - 1])
  }

  /** The fixed-width rendering with leading zeros used by `%d`, `%m`, `%Y`. */
  function PadDigits(n: nat, width: nat): (s: string)
    requires n < Pow10(width)
    ensures |s| == width && AllDigits(s) && DigitsValue(s) == n
  {
    if width == 0 then ""
    else
      var s := PadDigits(n / 10, width - 1) + [DigitChar(n % 10)];
      assert s[..|s| - 1] == PadDigits(n / 10, width - 1);
      s
  }

  /** A digit string is the padded rendering of its own value. */
  lemma {:induction false} PadDigitsOfValue(s: string)
    requires AllDigits(s)
    ensures PadDigits(DigitsValue(s), |s|) == s
  {
    if s != [] {
      var init := s[..|s| - 1];
      var last := s[|s| - 1];
      assert AllDigits(init);
      PadDigitsOfValue(init);
      var n := DigitsValue(s);
      assert n == DigitsValue(init) * 10 + DigitValue(last);
      DivModTen(DigitsValue(init), DigitValue(last));
      assert PadDigits(n, |s|) == PadDigits(n / 10, |s| - 1) + [DigitChar(n % 10)];
      assert DigitChar(n % 10) == last;
      assert init + [last] == s;
    }
  }

  lemma DivModTen(a: nat, d: nat)
    requires d < 10
    ensures (a * 10 + d) / 10 == a && (a * 10 + d) % 10 == d
  {
  }

  /** Canonical decimal rendering of a natural number (Python's `str(n)`). */
  function ShowNat(n: nat): (s: string)
    ensures |s| >= 1 && AllDigits(s) && DigitsValue(s) == n
  {
    if n < 10 then [DigitChar(n)]
    else
      var s := ShowNat(n / 10) + [DigitChar(n % 10)];
      assert s[..|s| - 1] == ShowNat(n / 10);
      s
  }

  // -------------------------------------------------- order-preserving selection

  /** The elements of `xs` that satisfy `p`, in their original order and with
      duplicates kept. */
  function Keep<T>(xs: seq<T>, p: T -> bool): (r: seq<T>)
    ensures |r| <= |xs|
    ensures forall i :: 0 <= i < |r| ==> p(r[i])
  {
    if xs == [] then []
    else if p(xs[0]) then [xs[0]] + Keep(xs[1..], p)
    else Keep(xs[1..], p)
  }

  lemma {:induction false} KeepMembership<T>(xs: seq<T>, p: T -> bool, x: T)
    ensures x in Keep(xs, p) <==> x in xs && p(x)
  {
    if xs != [] {
      KeepMembership(xs[1..], p, x);
      assert xs == [xs[0]] + xs[1..];
    }
  }

  /** `a` can be obtained from `b` by deleting elements. */
  predicate IsSubsequence<T(==)>(a: seq<T>, b: seq<T>)
  {
    a == [] ||
    (b != [] &&
     ((a[0] == b[0] && IsSubsequence(a[1..], b[1..])) || IsSubsequence(a, b[1..])))
  }

  lemma {:induction false} SubsequenceLength<T>(a: seq<T>, b: seq<T>)
    requires IsSubsequence(a, b)
    ensures |a| <= |b|
  {
    if a != [] {
      if a[0] == b[0] && IsSubsequence(a[1..], b[1..]) {
        SubsequenceLength(a[1..], b[1..]);
      } else {
        SubsequenceLength(a, b[1..]);
      }
    }
  }

  lemma {:induction false} KeepIsSubsequence<T>(xs: seq<T>, p: T -> bool)
    ensures IsSubsequence(Keep(xs, p), xs)
  {
    if xs != [] {
      KeepIsSubsequence(xs[1..], p);
    }
  }

  /** Keeping every element that passes the test is the identity. */
  lemma {:induction false} KeepAllPass<T>(xs: seq<T>, p: T -> bool)
    requires forall i :: 0 <= i < |xs| ==> p(xs[i])
    ensures Keep(xs, p) == xs
  {
    if xs != [] {
      KeepAllPass(xs[1..], p);
    }
  }

  /** Two tests that agree on the elements of `xs` select the same rows. */
  lemma {:induction false} KeepAgree<T>(xs: seq<T>, p: T -> bool, q: T -> bool)
    requires forall i :: 0 <= i < |xs| ==> p(xs[i]) == q(xs[i])
    ensures Keep(xs, p) == Keep(xs, q)
  {
    if xs != [] {
      KeepAgree(xs[1..], p, q);
    }
  }

  function And<T>(p: T -> bool, q: T -> bool): T -> bool
  {
    x => p(x) && q(x)
  }

  function Not<T>(p: T -> bool): T -> bool
  {
    x => !p(x)
  }

  /** The test "is an element of S" (Python's `x in S`). */
  function InSet<T>(S: set<T>): T -> bool
  {
    x => x in S
  }

  /** Two masks applied one after the other are one mask with their conjunction. */
  lemma {:induction false} KeepFuse<T>(xs: seq<T>, p: T -> bool, q: T -> bool)
    ensures Keep(Keep(xs, p), q) == Keep(xs, And(p, q))
  {
    if xs != [] {
      KeepFuse(xs[1..], p, q);
      if p(xs[0]) {
        assert Keep(xs, p) == [xs[0]] + Keep(xs[1..], p);
        assert Keep(xs, p)[1..] == Keep(xs[1..], p);
      }
    }
  }

  /** Applying the same mask twice changes nothing. */
  lemma {:induction false} KeepIdempotent<T>(xs: seq<T>, p: T -> bool)
    ensures Keep(Keep(xs, p), p) == Keep(xs, p)
  {
    KeepAllPass(Keep(xs, p), p);
  }

  /** Every element is kept by exactly one of a test and its negation. */
  lemma {:induction false} KeepSplitCount<T>(xs: seq<T>, p: T -> bool)
    ensures |Keep(xs, p)| + |Keep(xs, Not(p))| == |xs|
  {
    if xs != [] {
      KeepSplitCount(xs[1..], p);
    }
  }

  // --------------------------------------------------- distinct column values

  /** The distinct non-null values of a column (pandas `nunique`/`unique`
      without NaN); `cell` projects the column out of a row. */
  function DistinctValues<T>(rows: seq<T>, cell: T -> Option<string>): (s: set<string>)
    ensures |s| <= |rows|
    ensures forall v :: v in s <==> exists i :: 0 <= i < |rows| && cell(rows[i]) == Some(v)
  {
    if rows == [] then {}
    else
      var rest := DistinctValues(rows[1..], cell);
      var s := (if cell(rows[0]).Some? then {cell(rows[0]).value} else {}) + rest;
      assert forall v :: (exists i :: 0 <= i < |rows| - 1 && cell(rows[1..][i]) == Some(v)) ==>
                         (exists i :: 0 <= i < |rows| && cell(rows[i]) == Some(v)) by {
        forall v | exists i :: 0 <= i < |rows| - 1 && cell(rows[1..][i]) == Some(v)
          ensures exists i :: 0 <= i < |rows| && cell(rows[i]) == Some(v)
        {
          var i :| 0 <= i < |rows| - 1 && cell(rows[1..][i]) == Some(v);
          assert cell(rows[i + 1]) == Some(v);
        }
      }
      assert forall v :: (exists i :: 0 <= i < |rows| && cell(rows[i]) == Some(v)) ==> v in s by {
        forall v | exists i :: 0 <= i < |rows| && cell(rows[i]) == Some(v)
          ensures v in s
        {
          var i :| 0 <= i < |rows| && cell(rows[i]) == Some(v);
          if i > 0 {
            assert cell(rows[1..][i - 1]) == Some(v);
          }
        }
      }
      s
  }

  /** Selecting rows never adds distinct values. */
  lemma {:induction false} DistinctValuesOfKeep<T>(rows: seq<T>, p: T -> bool, cell: T -> Option<string>)
    ensures DistinctValues(Keep(rows, p), cell) <= DistinctValues(rows, cell)
  {
    var sub := Keep(rows, p);
    forall v | v in DistinctValues(sub, cell)
      ensures v in DistinctValues(rows, cell)
    {
      var i :| 0 <= i < |sub| && cell(sub[i]) == Some(v);
      KeepMembership(rows, p, sub[i]);
      var j :| 0 <= j < |rows| && rows[j] == sub[i];
    }
  }

  /** A value is among the distinct values of the selected rows exactly when
      some row that passes the test holds it. */
  lemma {:induction false} DistinctValuesOfKeepExact<T>(rows: seq<T>, p: T -> bool, cell: T -> Option<string>, v: string)
    ensures v in DistinctValues(Keep(rows, p), cell) <==>
            exists i :: 0 <= i < |rows| && p(rows[i]) && cell(rows[i]) == Some(v)
  {
    var sub := Keep(rows, p);
    if v in DistinctValues(sub, cell) {
      var k :| 0 <= k < |sub| && cell(sub[k]) == Some(v);
      KeepMembership(rows, p, sub[k]);
      var i :| 0 <= i < |rows| && rows[i] == sub[k];
      assert p(rows[i]) && cell(rows[i]) == Some(v);
    }
    if exists i :: 0 <= i < |rows| && p(rows[i]) && cell(rows[i]) == Some(v) {
      var i :| 0 <= i < |rows| && p(rows[i]) && cell(rows[i]) == Some(v);
      KeepMembership(rows, p, rows[i]);
      var k :| 0 <= k < |sub| && sub[k] == rows[i];
      assert cell(sub[k]) == Some(v);
    }
  }

  // ------------------------------------------------------------- text search

  /** ASCII lower-casing. */
  function Lower(c: char): char
  {
    if 'A' <= c <= 'Z' then (c as int + 32) as char else c
  }

  function LowerString(s: string): (r: string)
    ensures |r| == |s| && forall i :: 0 <= i < |s| ==> r[i] == Lower(s[i])
  {
    seq(|s|, i requires 0 <= i < |s| => Lower(s[i]))
  }

  predicate IsPrefix(q: string, s: string)
  {
    |q| <= |s| && s[..|q|] == q
  }

  /** `q` occurs in `s` at some position. */
  predicate Contains(s: string, q: string)
  {
    IsPrefix(q, s) || (s != [] && Contains(s[1..], q))
  }

  /** A witness position for `Contains`. */
  lemma {:induction false} ContainsAt(s: string, q: string, k: nat)
    requires k + |q| <= |s| && s[k..k + |q|] == q
    ensures Contains(s, q)
  {
    if k > 0 {
      assert s[1..][k - 1..k - 1 + |q|] == q;
      ContainsAt(s[1..], q, k - 1);
    }
  }

  /** The case-insensitive, null-safe substring test of `str.contains(q,
      case=False, na=False)`, with the query read literally. */
  predicate TextContains(cell: Option<string>, q: string)
  {
    cell.Some? && Contains(LowerString(cell.value), LowerString(q))
  }

  lemma LowerStringIdempotent(s: string)
    ensures LowerString(LowerString(s)) == LowerString(s)
  {
  }

  /** Changing the case of the cell or of the query does not change the outcome,
      and an exact occurrence always matches. */
  lemma {:induction false} TextContainsCaseInsensitive(s: string, q: string)
    ensures TextContains(Some(s), q) == TextContains(Some(LowerString(s)), q)
    ensures TextContains(Some(s), q) == TextContains(Some(s), LowerString(q))
    ensures Contains(s, q) ==> TextContains(Some(s), q)
  {
    LowerStringIdempotent(s);
    LowerStringIdempotent(q);
    if Contains(s, q) {
      ContainsLowered(s, q);
    }
  }

  lemma {:induction false} ContainsLowered(s: string, q: string)
    requires Contains(s, q)
    ensures Contains(LowerString(s), LowerString(q))
  {
    if IsPrefix(q, s) {
      assert LowerString(s)[..|q|] == LowerString(q);
    } else {
      ContainsLowered(s[1..], q);
      assert LowerString(s)[1..] == LowerString(s[1..]);
    }
  }
}
