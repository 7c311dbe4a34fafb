/** Reductions over sequences: the model of Python's built-in `sum`, `min`
    and `max` applied to a generator `f(x) for x in s`. Real arithmetic is
    exact, so the order of accumulation does not affect the values. */
module Seqs {

  /** `sum(f(x) for x in s)`. */
  function SumOf<T>(s: seq<T>, f: T -> real): real
  {
    if s == [] then 0.0 else f(s[0]) + SumOf(s[1..], f)
  }

  /** `min(f(x) for x in s)`; Python raises on an empty sequence. */
  function MinOf<T>(s: seq<T>, f: T -> real): real
    requires |s| > 0
  {
    if |s| == 1 then f(s[0])
    else
      var rest := MinOf(s[1..], f);
      if f(s[0]) <= rest then f(s[0]) else rest
  }

  /** `max(f(x) for x in s)`; Python raises on an empty sequence. */
  function MaxOf<T>(s: seq<T>, f: T -> real): real
    requires |s| > 0
  {
    if |s| == 1 then f(s[0])
    else
      var rest := MaxOf(s[1..], f);
      if f(s[0]) >= rest then f(s[0]) else rest
  }

  /** The minimum is a lower bound that some element attains. */
  lemma {:induction false} MinOfIsLeast<T>(s: seq<T>, f: T -> real)
    requires |s| > 0
    ensures forall i :: 0 <= i < |s| ==> MinOf(s, f) <= f(s[i])
    ensures exists i :: 0 <= i < |s| && MinOf(s, f) == f(s[i])
  {
    if |s| > 1 {
      MinOfIsLeast(s[1..], f);
      assert forall i :: 1 <= i < |s| ==> s[i] == s[1..][i - 1];
      var k :| 0 <= k < |s[1..]| && MinOf(s[1..], f) == f(s[1..][k]);
      assert s[k + 1] == s[1..][k];
      if f(s[0]) <= MinOf(s[1..], f) {
        assert MinOf(s, f) == f(s[0]);
      } else {
        assert MinOf(s, f) == f(s[k + 1]);
      }
    } else {
      assert MinOf(s, f) == f(s[0]);
    }
  }

  /** The maximum is an upper bound that some element attains. */
  lemma {:induction false} MaxOfIsGreatest<T>(s: seq<T>, f: T -> real)
    requires |s| > 0
    ensures forall i :: 0 <= i < |s| ==> f(s[i]) <= MaxOf(s, f)
    ensures exists i :: 0 <= i < |s| && MaxOf(s, f) == f(s[i])
  {
    if |s| > 1 {
      MaxOfIsGreatest(s[1..], f);
      assert forall i :: 1 <= i < |s| ==> s[i] == s[1..][i - 1];
      var k :| 0 <= k < |s[1..]| && MaxOf(s[1..], f) == f(s[1..][k]);
      assert s[k + 1] == s[1..][k];
      if f(s[0]) >= MaxOf(s[1..], f) {
        assert MaxOf(s, f) == f(s[0]);
      } else {
        assert MaxOf(s, f) == f(s[k + 1]);
      }
    } else {
      assert MaxOf(s, f) == f(s[0]);
    }
  }

  /** Number of `true` entries, `sum(1 for b in s if b)`. */
  function CountTrue(s: seq<bool>): nat
  {
    if s == [] then 0 else (if s[0] then 1 else 0) + CountTrue(s[1..])
  }

  /** The count over a concatenation is the sum of the counts. */
  lemma {:induction false} CountTrueConcat(a: seq<bool>, b: seq<bool>)
    ensures CountTrue(a + b) == CountTrue(a) + CountTrue(b)
  {
    if a == [] {
      assert a + b == b;
    } else {
      assert (a + b)[1..] == a[1..] + b;
      CountTrueConcat(a[1..], b);
    }
  }

  /** No more flags are set than there are flags. */
  lemma {:induction false} CountTrueAtMost(s: seq<bool>)
    ensures CountTrue(s) <= |s|
  {
    if s != [] {
      CountTrueAtMost(s[1..]);
    }
  }

  function MinInt(a: int, b: int): int { if a <= b then a else b }

  function MaxInt(a: int, b: int): int { if a >= b then a else b }

  /** A sum over a concatenation splits into two sums. */
  lemma {:induction false} SumOfAppend<T>(a: seq<T>, b: seq<T>, f: T -> real)
    ensures SumOf(a + b, f) == SumOf(a, f) + SumOf(b, f)
  {
    if a == [] {
      assert a + b == b;
    } else {
      assert (a + b)[1..] == a[1..] + b;
      SumOfAppend(a[1..], b, f);
    }
  }

  /** Two sequences with the same elements (as a set) have the same minimum. */
  lemma MinOfSameElements<T>(a: seq<T>, b: seq<T>, f: T -> real)
    requires |a| > 0 && |b| > 0
    requires forall x :: x in a <==> x in b
    ensures MinOf(a, f) == MinOf(b, f)
  {
    MinOfIsLeast(a, f);
    MinOfIsLeast(b, f);
    var ra, rb := MinOf(a, f), MinOf(b, f);
    var i :| 0 <= i < |a| && ra == f(a[i]);
    var j :| 0 <= j < |b| && rb == f(b[j]);
    assert a[i] in b;
    assert b[j] in a;
  }

  /** Two sequences with the same elements (as a set) have the same maximum. */
  lemma MaxOfSameElements<T>(a: seq<T>, b: seq<T>, f: T -> real)
    requires |a| > 0 && |b| > 0
    requires forall x :: x in a <==> x in b
    ensures MaxOf(a, f) == MaxOf(b, f)
  {
    MaxOfIsGreatest(a, f);
    MaxOfIsGreatest(b, f);
    var ra, rb := MaxOf(a, f), MaxOf(b, f);
    var i :| 0 <= i < |a| && ra == f(a[i]);
    var j :| 0 <= j < |b| && rb == f(b[j]);
    assert a[i] in b;
    assert b[j] in a;
  }

  /** A sum of non-negative terms is non-negative. */
  lemma {:induction false} NonNegativeSum<T>(s: seq<T>, f: T -> real)
    requires forall i :: 0 <= i < |s| ==> f(s[i]) >= 0.0
    ensures SumOf(s, f) >= 0.0
  {
    if s != [] {
      NonNegativeSum(s[1..], f);
    }
  }

  /** A non-empty sum of positive terms is positive. */
  lemma {:induction false} PositiveSum<T>(s: seq<T>, f: T -> real)
    requires |s| > 0
    requires forall i :: 0 <= i < |s| ==> f(s[i]) > 0.0
    ensures SumOf(s, f) > 0.0
  {
    if |s| > 1 {
      var rest := s[1..];
      forall i | 0 <= i < |rest| ensures f(rest[i]) > 0.0 {
        assert rest[i] == s[i + 1];
      }
      PositiveSum(rest, f);
    }
  }

  /** Each non-negative term is at most the sum. */
  lemma {:induction false} TermAtMostSum<T>(s: seq<T>, f: T -> real, i: int)
    requires 0 <= i < |s|
    requires forall j :: 0 <= j < |s| ==> f(s[j]) >= 0.0
    ensures f(s[i]) <= SumOf(s, f)
  {
    var rest := s[1..];
    forall j | 0 <= j < |rest| ensures f(rest[j]) >= 0.0 {
      assert rest[j] == s[j + 1];
    }
    if i == 0 {
      NonNegativeSum(rest, f);
    } else {
      TermAtMostSum(rest, f, i - 1);
      assert rest[i - 1] == s[i];
    }
  }

  /** If every term `v(x)` is at least `c * w(x)`, the sum of `v` is at least
      `c` times the sum of `w`. */
  lemma {:induction false} WeightedSumAtLeast<T>(s: seq<T>, w: T -> real, v: T -> real, c: real)
    requires forall i :: 0 <= i < |s| ==> c * w(s[i]) <= v(s[i])
    ensures c * SumOf(s, w) <= SumOf(s, v)
  {
    if s != [] {
      var rest := s[1..];
      forall i | 0 <= i < |rest| ensures c * w(rest[i]) <= v(rest[i]) {
        assert rest[i] == s[i + 1];
      }
      WeightedSumAtLeast(rest, w, v, c);
      Distribute(c, w(s[0]), SumOf(rest, w));
    }
  }

  /** If every term `v(x)` is at most `c * w(x)`, the sum of `v` is at most
      `c` times the sum of `w`. */
  lemma {:induction false} WeightedSumAtMost<T>(s: seq<T>, w: T -> real, v: T -> real, c: real)
    requires forall i :: 0 <= i < |s| ==> v(s[i]) <= c * w(s[i])
    ensures SumOf(s, v) <= c * SumOf(s, w)
  {
    if s != [] {
      var rest := s[1..];
      forall i | 0 <= i < |rest| ensures v(rest[i]) <= c * w(rest[i]) {
        assert rest[i] == s[i + 1];
      }
      WeightedSumAtMost(rest, w, v, c);
      Distribute(c, w(s[0]), SumOf(rest, w));
    }
  }

  lemma Distribute(c: real, a: real, b: real)
    ensures c * (a + b) == c * a + c * b
  {
  }

  /** Scaling a value between `lo` and `hi` by a non-negative weight. */
  lemma MulBounds(lo: real, hi: real, p: real, v: real)
    requires lo <= p <= hi && v >= 0.0
    ensures lo * v <= p * v <= hi * v
  {
    assert (p - lo) * v >= 0.0;
    assert (hi - p) * v >= 0.0;
  }
}
