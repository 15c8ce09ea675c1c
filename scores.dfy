/**
 * What the score interpreter of TextClassifier promises, stated over score
 * vectors as mathematical reals (the rounding of doubles is abstracted away).
 * The methods of TextClassifier that scan the scores are proved against these
 * definitions.
 */
module Scores {
  import opened Common
  import opened SortedMap

  /** Double.MAX_VALUE, the sentinel that getBestLabels starts its scan from. */
  const DoubleMax: real := 179769313486231570814527423731704356798070567525844996598917476803157260780028538760589558632766878171540458953514382464234321326889464182768467546703537516986049910576551282076245490090389328944075868508455133942304583236903222948165808559332123348274797826204144723168738177180919299881250404026184124858368.0

  /** Every score is a finite double. */
  predicate FiniteDoubles(s: seq<real>) {
    forall i :: 0 <= i < |s| ==> -DoubleMax <= s[i] <= DoubleMax
  }

  // ---------------------------------------------------------------------------
  // Best label

  /**
   * k is the index getBestLabel picks: when some score is at least 0, the
   * highest index holding the maximum score; otherwise index 0.
   */
  ghost predicate IsBestIndex(s: seq<real>, k: nat) {
    if exists i :: 0 <= i < |s| && s[i] >= 0.0 then
      k < |s| &&
      (forall j :: 0 <= j < |s| ==> s[j] <= s[k]) &&
      (forall j :: k < j < |s| ==> s[j] < s[k])
    else
      k == 0
  }

  /** IsBestIndex names exactly one index, so it determines the label returned. */
  lemma BestIndexUnique(s: seq<real>, k1: nat, k2: nat)
    requires IsBestIndex(s, k1) && IsBestIndex(s, k2)
    ensures k1 == k2
  {
  }

  /** Ties go to the later index: [0.5, 0.5] gives index 1. */
  lemma BestIndexTieGoesLast()
    ensures IsBestIndex([0.5, 0.5], 1)
    ensures !IsBestIndex([0.5, 0.5], 0)
  {
    var s := [0.5, 0.5];
    assert s[1] >= 0.0;
  }

  /** With no score at least 0 the baseline wins: [-1, -2] gives index 0. */
  lemma BestIndexAllNegative()
    ensures IsBestIndex([-1.0, -2.0], 0)
    ensures forall k: nat :: k != 0 ==> !IsBestIndex([-1.0, -2.0], k)
  {
  }

  // ---------------------------------------------------------------------------
  // Min/max rescaling

  function Max(s: seq<real>): (m: real)
    requires s != []
    ensures m in s
    ensures forall i :: 0 <= i < |s| ==> s[i] <= m
  {
    if |s| == 1 then s[0]
    else
      var p := Max(s[..|s| - 1]);
      assert forall i :: 0 <= i < |s| - 1 ==> s[i] == s[..|s| - 1][i];
      if s[|s| - 1] > p then s[|s| - 1] else p
  }

  function Min(s: seq<real>): (m: real)
    requires s != []
    ensures m in s
    ensures forall i :: 0 <= i < |s| ==> m <= s[i]
  {
    if |s| == 1 then s[0]
    else
      var p := Min(s[..|s| - 1]);
      assert forall i :: 0 <= i < |s| - 1 ==> s[i] == s[..|s| - 1][i];
      if s[|s| - 1] < p then s[|s| - 1] else p
  }

  /**
   * The TreeMap key of a score x given the range [min, max]: (x - min) / (max - min),
   * or NaN when max == min, where the division is 0 / 0.
   */
  function Rescale(x: real, min: real, max: real): Key {
    if max == min then NaN else Scaled((x - min) / (max - min))
  }

  /** The TreeMap key of score i. */
  function ScaledKey(s: seq<real>, i: nat): Key
    requires i < |s|
  {
    Rescale(s[i], Min(s), Max(s))
  }

  function ScaledKeys(s: seq<real>): (ks: seq<Key>)
    ensures |ks| == |s|
    ensures forall i :: 0 <= i < |s| ==> ks[i] == ScaledKey(s, i)
  {
    seq(|s|, i requires 0 <= i < |s| => ScaledKey(s, i))
  }

  /** A quotient a / b with 0 <= a <= b lies in [0, 1], hitting 1 only at a == b and 0 only at a == 0. */
  lemma QuotientRange(a: real, b: real)
    requires 0.0 <= a <= b && b > 0.0
    ensures 0.0 <= a / b <= 1.0
    ensures a / b == 1.0 <==> a == b
    ensures a / b == 0.0 <==> a == 0.0
  {
    var v := a / b;
    assert a == v * b;
    assert (v - 1.0) * b == a - b;
  }

  /** Within a proper range [min, max] a score rescales into [0, 1], to 1 only at max and 0 only at min. */
  lemma RescaleRange(x: real, min: real, max: real)
    requires min <= x <= max && min < max
    ensures Rescale(x, min, max).Scaled?
    ensures 0.0 <= Rescale(x, min, max).value <= 1.0
    ensures Rescale(x, min, max).value == 1.0 <==> x == max
    ensures Rescale(x, min, max).value == 0.0 <==> x == min
  {
    QuotientRange(x - min, max - min);
  }

  /** With max > min every rescaled score lies in [0, 1]; exactly the maxima map to 1. */
  lemma ScaledKeyRange(s: seq<real>, i: nat)
    requires i < |s| && Max(s) > Min(s)
    ensures ScaledKey(s, i).Scaled?
    ensures 0.0 <= ScaledKey(s, i).value <= 1.0
    ensures ScaledKey(s, i).value == 1.0 <==> s[i] == Max(s)
    ensures ScaledKey(s, i).value == 0.0 <==> s[i] == Min(s)
  {
    RescaleRange(s[i], Min(s), Max(s));
  }

  // ---------------------------------------------------------------------------
  // The TreeMap after all puts: equal keys overwrite, the later index wins

  /** The highest index holding key k. */
  function LastIndexOf(ks: seq<Key>, k: Key): (i: nat)
    requires k in ks
    ensures i < |ks| && ks[i] == k
    ensures forall j :: i < j < |ks| ==> ks[j] != k
  {
    if ks[|ks| - 1] == k then |ks| - 1
    else
      assert k in ks[..|ks| - 1] by {
        var j :| 0 <= j < |ks| && ks[j] == k;
        assert ks[..|ks| - 1][j] == k;
      }
      LastIndexOf(ks[..|ks| - 1], k)
  }

  /** The dictionary that puts of labels[i] under key ks[i], in index order, leave behind. */
  ghost function Overwritten(ks: seq<Key>, labels: seq<string>): map<Key, string>
    requires |ks| <= |labels|
  {
    map k | k in ks :: labels[LastIndexOf(ks, k)]
  }

  lemma OverwrittenStep(ks: seq<Key>, labels: seq<string>, n: nat)
    requires n < |ks| <= |labels|
    ensures Overwritten(ks[..n + 1], labels) == Overwritten(ks[..n], labels)[ks[n] := labels[n]]
  {
    var q, q' := ks[..n], ks[..n + 1];
    assert q'[..n] == q;
    forall k | k in q' && k != ks[n] ensures k in q && LastIndexOf(q', k) == LastIndexOf(q, k) {
      var j :| 0 <= j < |q'| && q'[j] == k;
      assert q[j] == k;
    }
    forall k | k in q ensures k in q' {
      var j :| 0 <= j < |q| && q[j] == k;
      assert q'[j] == k;
    }
  }

  // ---------------------------------------------------------------------------
  // Ratio of best

  predicate StrictlyIncreasing(q: seq<real>) {
    forall i, j :: 0 <= i < j < |q| ==> q[i] < q[j]
  }

  lemma IncreasingTail(q: seq<real>, x: real)
    requires StrictlyIncreasing(q) && q != []
    ensures StrictlyIncreasing(q[1..])
    ensures x in q[1..] <==> x in q && x != q[0]
  {
    if x in q && x != q[0] {
      var j :| 0 <= j < |q| && q[j] == x;
      assert q[1..][j - 1] == x;
    }
  }

  /** Two strictly increasing sequences with the same elements are equal. */
  lemma {:induction false} IncreasingUnique(p: seq<real>, q: seq<real>)
    requires StrictlyIncreasing(p) && StrictlyIncreasing(q)
    requires forall x :: x in p <==> x in q
    ensures p == q
  {
    if p != [] { assert p[0] in p; }
    if q != [] { assert q[0] in q; }
    if p != [] && q != [] {
      assert p[0] == q[0];
      forall x ensures x in p[1..] <==> x in q[1..] {
        IncreasingTail(p, x);
        IncreasingTail(q, x);
      }
      IncreasingUnique(p[1..], q[1..]);
      assert p == [p[0]] + p[1..];
      assert q == [q[0]] + q[1..];
    }
  }

  /** A value below every element of a strictly increasing sequence may head it. */
  lemma IncreasingCons(a: real, t: seq<real>)
    requires StrictlyIncreasing(t)
    requires forall y :: y in t ==> a < y
    ensures StrictlyIncreasing([a] + t)
    ensures forall y :: y in [a] + t <==> y == a || y in t
  {
    var r := [a] + t;
    forall i, j | 0 <= i < j < |r| ensures r[i] < r[j] {
      assert r[j] == t[j - 1];
      if i == 0 {
        assert t[j - 1] in t;
      } else {
        assert r[i] == t[i - 1];
      }
    }
  }

  /** x added to a strictly increasing sequence in its place, unless it is there already. */
  function Insert(q: seq<real>, x: real): (r: seq<real>)
    requires StrictlyIncreasing(q)
    ensures StrictlyIncreasing(r)
    ensures forall y :: y in r <==> y in q || y == x
  {
    if q == [] || x < q[0] then
      forall y | y in q ensures x < y {
        var j :| 0 <= j < |q| && q[j] == y;
        assert q[0] <= q[j];
      }
      IncreasingCons(x, q);
      [x] + q
    else if x == q[0] then
      q
    else
      var tail := Insert(q[1..], x);
      forall y ensures y in q[1..] <==> y in q && y != q[0] {
        IncreasingTail(q, y);
      }
      forall y | y in tail ensures q[0] < y {
        if y != x {
          var j :| 0 <= j < |q| && q[j] == y;
          assert q[0] <= q[j];
        }
      }
      IncreasingCons(q[0], tail);
      [q[0]] + tail
  }

  /** The distinct elements of xs in ascending order. */
  function SortedDistinct(xs: seq<real>): (r: seq<real>)
    ensures StrictlyIncreasing(r)
    ensures forall y :: y in r <==> y in xs
  {
    if xs == [] then []
    else
      var init := xs[..|xs| - 1];
      assert xs == init + [xs[|xs| - 1]];
      Insert(SortedDistinct(init), xs[|xs| - 1])
  }

  /** The rescaled scores that reach the ratio, in index order; a NaN key never does. */
  function KeptValues(ks: seq<Key>, ratio: real): (r: seq<real>)
    ensures forall x :: x in r <==> Scaled(x) in ks && x >= ratio
  {
    if ks == [] then []
    else
      var head := if ks[0].Scaled? && ks[0].value >= ratio then [ks[0].value] else [];
      assert forall k :: k in ks <==> k == ks[0] || k in ks[1..];
      head + KeptValues(ks[1..], ratio)
  }

  /** The label the TreeMap holds for each kept rescaled score, in the order of q. */
  function LabelsOf(ks: seq<Key>, labels: seq<string>, q: seq<real>): (r: seq<string>)
    requires |ks| <= |labels|
    requires forall x :: x in q ==> Scaled(x) in ks
    ensures |r| == |q|
  {
    if q == [] then []
    else [labels[LastIndexOf(ks, Scaled(q[0]))]] + LabelsOf(ks, labels, q[1..])
  }

  lemma {:induction false} LabelsOfAt(ks: seq<Key>, labels: seq<string>, q: seq<real>, t: nat)
    requires |ks| <= |labels|
    requires forall x :: x in q ==> Scaled(x) in ks
    requires t < |q|
    ensures LabelsOf(ks, labels, q)[t] == labels[LastIndexOf(ks, Scaled(q[t]))]
  {
    if t > 0 {
      assert q[1..][t - 1] == q[t];
      LabelsOfAt(ks, labels, q[1..], t - 1);
    }
  }

  /**
   * getBestLabels: fails on a ratio outside (0, 1]; otherwise the labels of the
   * distinct rescaled scores that are at least the ratio, in ascending order of
   * that score, each the label of the highest index with that score.
   */
  function BestLabelsOf(s: seq<real>, labels: seq<string>, ratio: real): Result<seq<string>>
    requires 0.0 < ratio <= 1.0 ==> |s| <= |labels|
  {
    if ratio > 1.0 || ratio <= 0.0 then
      Failure(InvalidRatio(ratio))
    else
      var ks := ScaledKeys(s);
      Success(LabelsOf(ks, labels, SortedDistinct(KeptValues(ks, ratio))))
  }

  /** A ratio outside (0, 1] is rejected whatever the scores, and only such a ratio. */
  lemma BestLabelsRejectsRatio(s: seq<real>, labels: seq<string>, ratio: real)
    requires 0.0 < ratio <= 1.0 ==> |s| <= |labels|
    ensures BestLabelsOf(s, labels, ratio).Failure? <==> ratio > 1.0 || ratio <= 0.0
    ensures BestLabelsOf(s, labels, ratio).Failure? ==> BestLabelsOf(s, labels, ratio).error == InvalidRatio(ratio)
  {
  }

  /**
   * No scores, or all scores equal (a single score included): every key is NaN,
   * no comparison with the ratio holds and nothing is kept.
   */
  lemma BestLabelsDegenerate(s: seq<real>, labels: seq<string>, ratio: real)
    requires |s| <= |labels|
    requires 0.0 < ratio <= 1.0
    requires s == [] || Max(s) == Min(s)
    ensures BestLabelsOf(s, labels, ratio) == Success([])
  {
    var ks := ScaledKeys(s);
    var q := SortedDistinct(KeptValues(ks, ratio));
    assert forall k :: k in ks ==> k == NaN;
    IncreasingUnique(q, []);
  }

  /**
   * With max > min the maximum rescales to exactly 1 >= ratio, so the result is
   * never empty, and its last label is that of the highest index holding the
   * maximum raw score.
   */
  lemma BestLabelsEndWithBest(s: seq<real>, labels: seq<string>, ratio: real)
    requires |s| <= |labels|
    requires 0.0 < ratio <= 1.0
    requires s != [] && Max(s) > Min(s)
    ensures var r := BestLabelsOf(s, labels, ratio).value;
            |r| > 0 &&
            exists i :: 0 <= i < |s| && s[i] == Max(s) && r[|r| - 1] == labels[i] &&
                        forall j :: i < j < |s| ==> s[j] < Max(s)
  {
    var ks := ScaledKeys(s);
    var q := SortedDistinct(KeptValues(ks, ratio));
    var r := BestLabelsOf(s, labels, ratio).value;
    assert r == LabelsOf(ks, labels, q);
    KeptTopIsOne(s, ratio);
    IncreasingLast(q, 1.0);
    LabelsOfAt(ks, labels, q, |q| - 1);
    var i := LastIndexOf(ks, Scaled(1.0));
    ScaledKeyRange(s, i);
    forall j | i < j < |s| ensures s[j] < Max(s) {
      ScaledKeyRange(s, j);
    }
    assert s[i] == Max(s) && r[|r| - 1] == labels[i];
  }

  /** With max > min the kept rescaled scores include 1 and none exceeds it. */
  lemma KeptTopIsOne(s: seq<real>, ratio: real)
    requires 0.0 < ratio <= 1.0
    requires s != [] && Max(s) > Min(s)
    ensures 1.0 in KeptValues(ScaledKeys(s), ratio)
    ensures forall x :: x in KeptValues(ScaledKeys(s), ratio) ==> x <= 1.0
  {
    var ks := ScaledKeys(s);
    var top :| 0 <= top < |s| && s[top] == Max(s);
    ScaledKeyRange(s, top);
    assert ks[top] == Scaled(1.0);
    forall x | x in KeptValues(ks, ratio) ensures x <= 1.0 {
      var j :| 0 <= j < |ks| && ks[j] == Scaled(x);
      ScaledKeyRange(s, j);
    }
  }

  /** The greatest element of a strictly increasing sequence is its last. */
  lemma IncreasingLast(q: seq<real>, x: real)
    requires StrictlyIncreasing(q)
    requires x in q && forall y :: y in q ==> y <= x
    ensures q[|q| - 1] == x
  {
    var p :| 0 <= p < |q| && q[p] == x;
    assert q[|q| - 1] in q;
    assert q[p] <= q[|q| - 1];
  }

  /** [10, 10, 0] with ratio 1: both maxima rescale to 1 and the later one wins. */
  lemma BestLabelsTiedMaxima(labels: seq<string>)
    requires |labels| >= 3
    ensures BestLabelsOf([10.0, 10.0, 0.0], labels, 1.0) == Success([labels[1]])
  {
    var s := [10.0, 10.0, 0.0];
    assert Max(s) == 10.0 && Min(s) == 0.0;
    var ks := ScaledKeys(s);
    assert ks == [Scaled(1.0), Scaled(1.0), Scaled(0.0)];
    var q := SortedDistinct(KeptValues(ks, 1.0));
    IncreasingUnique(q, [1.0]);
    assert LastIndexOf(ks, Scaled(1.0)) == 1;
    LabelsOfAt(ks, labels, q, 0);
    assert LabelsOf(ks, labels, q) == [labels[1]];
    assert BestLabelsOf(s, labels, 1.0) == Success(LabelsOf(ks, labels, q));
  }

  /** [0, 5, 10] with ratio 0.5: the rescaled scores are 0, 0.5 and 1 and the boundary is kept. */
  lemma BestLabelsBoundaryKept(labels: seq<string>)
    requires |labels| >= 3
    ensures BestLabelsOf([0.0, 5.0, 10.0], labels, 0.5) == Success([labels[1], labels[2]])
  {
    var s := [0.0, 5.0, 10.0];
    assert Max(s) == 10.0 && Min(s) == 0.0;
    var ks := ScaledKeys(s);
    assert ks == [Scaled(0.0), Scaled(0.5), Scaled(1.0)];
    var q := SortedDistinct(KeptValues(ks, 0.5));
    IncreasingUnique(q, [0.5, 1.0]);
    assert LastIndexOf(ks, Scaled(0.5)) == 1;
    assert LastIndexOf(ks, Scaled(1.0)) == 2;
    LabelsOfAt(ks, labels, q, 0);
    LabelsOfAt(ks, labels, q, 1);
    assert LabelsOf(ks, labels, q) == [labels[1], labels[2]];
    assert BestLabelsOf(s, labels, 0.5) == Success(LabelsOf(ks, labels, q));
  }
}
