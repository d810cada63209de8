/** Aggregates over the percentages of a list of submissions, as Java's
    `DoubleStream.average()`, `max()` and `min()` compute them: each gives an
    empty optional on an empty stream, and the caller picks the default. */
module Statistics {
  import opened Entities

  /** The percentages of `submissions`, position by position. */
  function Percentages(submissions: seq<Submission>): (ps: seq<real>)
    ensures |ps| == |submissions|
    ensures forall i :: 0 <= i < |ps| ==> ps[i] == submissions[i].percentage
  {
    if submissions == [] then [] else [submissions[0].percentage] + Percentages(submissions[1..])
  }

  function Sum(ps: seq<real>): real {
    if ps == [] then 0.0 else ps[0] + Sum(ps[1..])
  }

  /** Arithmetic mean; none for an empty list. */
  function Average(ps: seq<real>): (m: Option<real>)
    ensures m.None? <==> ps == []
    ensures m.Some? ==> m.value * |ps| as real == Sum(ps)
  {
    if ps == [] then None else Some(Sum(ps) / |ps| as real)
  }

  /** Largest element; none for an empty list. */
  function Maximum(ps: seq<real>): (m: Option<real>)
    ensures m.None? <==> ps == []
    ensures m.Some? ==> m.value in ps && forall i :: 0 <= i < |ps| ==> ps[i] <= m.value
  {
    if ps == [] then None
    else
      match Maximum(ps[1..])
      case None => Some(ps[0])
      case Some(rest) => Some(if ps[0] >= rest then ps[0] else rest)
  }

  /** Smallest element; none for an empty list. */
  function Minimum(ps: seq<real>): (m: Option<real>)
    ensures m.None? <==> ps == []
    ensures m.Some? ==> m.value in ps && forall i :: 0 <= i < |ps| ==> m.value <= ps[i]
  {
    if ps == [] then None
    else
      match Minimum(ps[1..])
      case None => Some(ps[0])
      case Some(rest) => Some(if ps[0] <= rest then ps[0] else rest)
  }

  lemma {:induction false} SumConcat(a: seq<real>, b: seq<real>)
    ensures Sum(a + b) == Sum(a) + Sum(b)
  {
    if a == [] {
      assert a + b == b;
    } else {
      assert (a + b)[1..] == a[1..] + b;
      SumConcat(a[1..], b);
    }
  }

  /** The sum does not depend on the order of the elements. */
  lemma {:induction false} SumPermutation(a: seq<real>, b: seq<real>)
    requires multiset(a) == multiset(b)
    ensures Sum(a) == Sum(b)
  {
    if a == [] {
      assert |b| == |multiset(b)| == 0;
    } else {
      var i := RemoveFirst(a, b);
      SumPermutation(a[1..], b[..i] + b[i + 1..]);
      SumWithout(b, i);
    }
  }

  /** If `a` is a non-empty permutation of `b`, then `a[1..]` is a permutation
      of `b` without one occurrence of `a[0]`, at the index returned. */
  lemma RemoveFirst<T>(a: seq<T>, b: seq<T>) returns (i: nat)
    requires a != [] && multiset(a) == multiset(b)
    ensures i < |b| && b[i] == a[0]
    ensures multiset(a[1..]) == multiset(b[..i] + b[i + 1..])
  {
    assert a[0] in multiset(b);
    i :| 0 <= i < |b| && b[i] == a[0];
    assert b == b[..i] + [b[i]] + b[i + 1..];
    assert a == [a[0]] + a[1..];
    calc {
      multiset(a[1..]);
      multiset(a) - multiset{a[0]};
      multiset(b) - multiset{b[i]};
      multiset(b[..i] + b[i + 1..]);
    }
  }

  lemma SumWithout(b: seq<real>, i: nat)
    requires i < |b|
    ensures Sum(b) == b[i] + Sum(b[..i] + b[i + 1..])
  {
    var left, right := b[..i], b[i + 1..];
    var tail := [b[i]] + right;
    assert b == left + tail;
    SumConcat(left, tail);
    assert tail[1..] == right;
    assert Sum(tail) == b[i] + Sum(right);
    SumConcat(left, right);
  }

  /** A sum of `n` values between `lo` and `hi` lies between `n * lo` and `n * hi`. */
  lemma {:induction false} SumBounds(ps: seq<real>, lo: real, hi: real)
    requires forall i :: 0 <= i < |ps| ==> lo <= ps[i] <= hi
    ensures |ps| as real * lo <= Sum(ps) <= |ps| as real * hi
  {
    if ps != [] {
      SumBounds(ps[1..], lo, hi);
    }
  }

  /** The mean lies between the smallest and the largest element. */
  lemma AverageBetweenMinimumAndMaximum(ps: seq<real>)
    requires ps != []
    ensures Minimum(ps).value <= Average(ps).value <= Maximum(ps).value
  {
    var lo, hi := Minimum(ps).value, Maximum(ps).value;
    SumBounds(ps, lo, hi);
    QuotientBounds(Sum(ps), |ps| as real, lo, hi);
  }

  lemma QuotientBounds(s: real, n: real, lo: real, hi: real)
    requires n > 0.0 && n * lo <= s <= n * hi
    ensures lo <= s / n <= hi
  {
  }

  /** Average, maximum and minimum do not depend on the order of the elements. */
  lemma AggregatesOrderIndependent(a: seq<real>, b: seq<real>)
    requires multiset(a) == multiset(b)
    ensures Average(a) == Average(b)
    ensures Maximum(a) == Maximum(b)
    ensures Minimum(a) == Minimum(b)
  {
    SumPermutation(a, b);
    assert |a| == |multiset(a)| == |multiset(b)| == |b|;
    if a != [] {
      MaximumOfSameElements(a, b);
      MaximumOfSameElements(b, a);
      MinimumOfSameElements(a, b);
      MinimumOfSameElements(b, a);
    }
  }

  lemma MaximumOfSameElements(a: seq<real>, b: seq<real>)
    requires a != [] && multiset(a) == multiset(b)
    ensures b != [] && Maximum(a).value <= Maximum(b).value
  {
    var ma := Maximum(a).value;
    assert ma in multiset(b);
    var i :| 0 <= i < |b| && b[i] == ma;
  }

  lemma MinimumOfSameElements(a: seq<real>, b: seq<real>)
    requires a != [] && multiset(a) == multiset(b)
    ensures b != [] && Minimum(b).value <= Minimum(a).value
  {
    var ma := Minimum(a).value;
    assert ma in multiset(b);
    var i :| 0 <= i < |b| && b[i] == ma;
  }

  /** Reordering the submissions reorders their percentages. */
  lemma {:induction false} PercentagesPermutation(a: seq<Submission>, b: seq<Submission>)
    requires multiset(a) == multiset(b)
    ensures multiset(Percentages(a)) == multiset(Percentages(b))
  {
    if a == [] {
      assert |b| == |multiset(b)| == 0;
    } else {
      var i := RemoveFirst(a, b);
      PercentagesPermutation(a[1..], b[..i] + b[i + 1..]);
      PercentagesWithout(b, i);
      assert Percentages(a) == [a[0].percentage] + Percentages(a[1..]);
    }
  }

  lemma PercentagesWithout(b: seq<Submission>, i: nat)
    requires i < |b|
    ensures multiset(Percentages(b)) == multiset{b[i].percentage} + multiset(Percentages(b[..i] + b[i + 1..]))
  {
    var left, right := b[..i], b[i + 1..];
    var pl, pr := Percentages(left), Percentages(right);
    PercentagesSplitAt(b, i);
    PercentagesConcat(left, right);
    MultisetOfMiddle(pl, b[i].percentage, pr);
  }

  /** The percentages of `b`, split around position `i`. */
  lemma PercentagesSplitAt(b: seq<Submission>, i: nat)
    requires i < |b|
    ensures Percentages(b) == Percentages(b[..i]) + ([b[i].percentage] + Percentages(b[i + 1..]))
  {
    assert b == b[..i] + b[i..];
    PercentagesConcat(b[..i], b[i..]);
    assert b[i..][1..] == b[i + 1..];
  }

  lemma MultisetOfMiddle<T>(left: seq<T>, x: T, right: seq<T>)
    ensures multiset(left + ([x] + right)) == multiset{x} + multiset(left + right)
  {
  }

  lemma {:induction false} PercentagesConcat(a: seq<Submission>, b: seq<Submission>)
    ensures Percentages(a + b) == Percentages(a) + Percentages(b)
  {
    if a == [] {
      assert a + b == b;
    } else {
      assert (a + b)[1..] == a[1..] + b;
      PercentagesConcat(a[1..], b);
    }
  }

  /** Quiz results with percentages 40 and 90 average 65, with highest 90
      and lowest 40. */
  lemma TwoSubmissionExample()
    ensures Average([40.0, 90.0]) == Some(65.0)
    ensures Maximum([40.0, 90.0]) == Some(90.0)
    ensures Minimum([40.0, 90.0]) == Some(40.0)
  {
    assert [40.0, 90.0][1..] == [90.0];
  }

  /** A candidate history with percentages 80, 60 and 100 averages 80, best 100. */
  lemma ThreeSubmissionExample()
    ensures Average([80.0, 60.0, 100.0]) == Some(80.0)
    ensures Maximum([80.0, 60.0, 100.0]) == Some(100.0)
  {
    assert [80.0, 60.0, 100.0][1..] == [60.0, 100.0];
    assert [60.0, 100.0][1..] == [100.0];
  }
}
