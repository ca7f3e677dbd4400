/** Softmax over a row of scores in which some entries are minus infinity, over the reals. */
module Softmax {
  type PosFn = f: real -> real | forall x :: f(x) > 0.0 witness (x: real) => 1.0

  datatype Score = NegInf | Fin(x: real)

  predicate SomeFinite(scores: seq<Score>) {
    exists j :: 0 <= j < |scores| && scores[j].Fin?
  }

  /** `values.argmax()` among the first `n`: the first position of the largest value. */
  function Argmax(values: seq<real>, n: nat): (i: nat)
    requires 0 < n <= |values|
    ensures i < n
    ensures forall j :: 0 <= j < n ==> values[j] <= values[i]
    ensures forall j :: 0 <= j < i ==> values[j] < values[i]
  {
    if n == 1 then 0 else
      var i := Argmax(values, n - 1);
      if values[n - 1] > values[i] then n - 1 else i
  }

  function Finites(values: seq<real>): (s: seq<Score>)
    ensures |s| == |values|
  {
    seq(|values|, i requires 0 <= i < |values| => Fin(values[i]))
  }

  /** The largest score, minus infinity when there is none. */
  function RowMax(scores: seq<Score>): (r: Score)
    ensures r.Fin? <==> SomeFinite(scores)
  {
    if scores == [] then NegInf else
      var n := |scores| - 1;
      var front := RowMax(scores[..n]);
      assert scores[n].Fin? ==> SomeFinite(scores);
      assert SomeFinite(scores[..n]) ==> SomeFinite(scores) by {
        if SomeFinite(scores[..n]) {
          var j :| 0 <= j < n && scores[..n][j].Fin?;
          assert scores[j].Fin?;
        }
      }
      if scores[n].NegInf? then front
      else if front.Fin? && front.x >= scores[n].x then front
      else scores[n]
  }

  /** `exp(score - max)`, where `exp(-inf)` is 0. */
  function Power(exp: PosFn, s: Score, max: real): (r: real)
    ensures r >= 0.0 && (r > 0.0 <==> s.Fin?)
  {
    match s
    case NegInf => 0.0
    case Fin(x) => exp(x - max)
  }

  function Total(exp: PosFn, scores: seq<Score>, max: real): (r: real)
    ensures r >= 0.0 && (SomeFinite(scores) ==> r > 0.0)
  {
    if scores == [] then 0.0 else
      var n := |scores| - 1;
      assert SomeFinite(scores) ==> SomeFinite(scores[..n]) || scores[n].Fin? by {
        if SomeFinite(scores) && scores[n].NegInf? {
          var j :| 0 <= j < |scores| && scores[j].Fin?;
          assert scores[..n][j].Fin?;
        }
      }
      Total(exp, scores[..n], max) + Power(exp, scores[n], max)
  }

  /** The weight of entry `j` of the row. */
  function Weight(exp: PosFn, scores: seq<Score>, j: nat): (r: real)
    requires j < |scores| && SomeFinite(scores)
    ensures r >= 0.0 && (r > 0.0 <==> scores[j].Fin?)
  {
    var max := RowMax(scores).x;
    Power(exp, scores[j], max) / Total(exp, scores, max)
  }

  function Weights(exp: PosFn, scores: seq<Score>): (w: seq<real>)
    requires SomeFinite(scores)
    ensures |w| == |scores|
  {
    seq(|scores|, j requires 0 <= j < |scores| => Weight(exp, scores, j))
  }

  function Sum(xs: seq<real>): real {
    if xs == [] then 0.0 else Sum(xs[..|xs| - 1]) + xs[|xs| - 1]
  }

  /** Minus-infinity entries at the end of a row change neither its maximum nor its total. */
  lemma MaskedTail(exp: PosFn, scores: seq<Score>, tail: seq<Score>, max: real)
    requires forall j :: 0 <= j < |tail| ==> tail[j].NegInf?
    ensures RowMax(scores + tail) == RowMax(scores)
    ensures Total(exp, scores + tail, max) == Total(exp, scores, max)
  {
    if tail == [] {
      assert scores + tail == scores;
    } else {
      var n := |tail| - 1;
      MaskedTail(exp, scores, tail[..n], max);
      assert (scores + tail)[..|scores + tail| - 1] == scores + tail[..n];
    }
  }

  lemma AddFractions(a: real, b: real, d: real)
    requires d > 0.0
    ensures a / d + b / d == (a + b) / d
  {
  }

  predicate Divided(exp: PosFn, scores: seq<Score>, max: real, total: real, ws: seq<real>)
    requires total > 0.0
  {
    |ws| == |scores| && forall j :: 0 <= j < |scores| ==> ws[j] == Power(exp, scores[j], max) / total
  }

  lemma {:induction false} DividedSum(exp: PosFn, scores: seq<Score>, max: real, total: real, ws: seq<real>)
    requires total > 0.0 && Divided(exp, scores, max, total, ws)
    ensures Sum(ws) == Total(exp, scores, max) / total
  {
    if scores != [] {
      var n := |scores| - 1;
      DividedSum(exp, scores[..n], max, total, ws[..n]);
      AddFractions(Total(exp, scores[..n], max), Power(exp, scores[n], max), total);
    }
  }

  lemma WeightsDivided(exp: PosFn, scores: seq<Score>, max: real, total: real)
    requires SomeFinite(scores) && max == RowMax(scores).x && total == Total(exp, scores, max)
    ensures Divided(exp, scores, max, total, Weights(exp, scores))
  {
  }

  lemma SelfRatio(t: real)
    requires t > 0.0
    ensures t / t == 1.0
  {
  }

  /** The weights of a row that has a finite score sum to one. */
  lemma WeightsSumToOne(exp: PosFn, scores: seq<Score>)
    requires SomeFinite(scores)
    ensures Sum(Weights(exp, scores)) == 1.0
  {
    var max := RowMax(scores).x;
    var total := Total(exp, scores, max);
    var ws := Weights(exp, scores);
    WeightsDivided(exp, scores, max, total);
    DividedSum(exp, scores, max, total, ws);
    SelfRatio(total);
  }

  /** Sum over the row of weight times value. */
  function Mix(ws: seq<real>, vs: seq<real>): real
    requires |ws| == |vs|
  {
    if ws == [] then 0.0 else
      var n := |ws| - 1;
      Mix(ws[..n], vs[..n]) + ws[n] * vs[n]
  }

  lemma {:induction false} MixZeroTail(ws: seq<real>, vs: seq<real>, zeros: seq<real>, more: seq<real>)
    requires |ws| == |vs| && |zeros| == |more|
    requires forall j :: 0 <= j < |zeros| ==> zeros[j] == 0.0
    ensures Mix(ws + zeros, vs + more) == Mix(ws, vs)
  {
    if zeros == [] {
      assert ws + zeros == ws && vs + more == vs;
    } else {
      var n := |zeros| - 1;
      MixZeroTail(ws, vs, zeros[..n], more[..n]);
      assert (ws + zeros)[..|ws + zeros| - 1] == ws + zeros[..n];
      assert (vs + more)[..|vs + more| - 1] == vs + more[..n];
    }
  }

  /** Attention to masked entries at the end of a row is attention to the row without them. */
  lemma MaskedAttention(exp: PosFn, scores: seq<Score>, tail: seq<Score>, vs: seq<real>, more: seq<real>)
    requires |scores| == |vs| && |tail| == |more| && SomeFinite(scores)
    requires forall j :: 0 <= j < |tail| ==> tail[j].NegInf?
    ensures SomeFinite(scores + tail)
    ensures Mix(Weights(exp, scores + tail), vs + more) == Mix(Weights(exp, scores), vs)
  {
    var all := scores + tail;
    var k :| 0 <= k < |scores| && scores[k].Fin?;
    assert all[k].Fin?;
    var max := RowMax(scores).x;
    MaskedTail(exp, scores, tail, max);
    var zeros := seq(|tail|, _ => 0.0);
    forall j | 0 <= j < |all|
      ensures Weights(exp, all)[j] == (Weights(exp, scores) + zeros)[j]
    {
      assert all[j] == if j < |scores| then scores[j] else tail[j - |scores|];
    }
    assert Weights(exp, all) == Weights(exp, scores) + zeros;
    MixZeroTail(Weights(exp, scores), vs, zeros, more);
  }

  // ----- Attention as an average -----

  function Dot(a: seq<real>, b: seq<real>): real
    requires |a| == |b|
  {
    if a == [] then 0.0 else a[0] * b[0] + Dot(a[1..], b[1..])
  }

  function Added(a: seq<real>): real {
    if a == [] then 0.0 else a[0] + Added(a[1..])
  }

  /** The exponentials of the scores less the largest of them. */
  function Shifted(exp: PosFn, scores: seq<real>): (r: seq<real>)
    requires scores != []
    ensures |r| == |scores|
  {
    var max := scores[Argmax(scores, |scores|)];
    seq(|scores|, j requires 0 <= j < |scores| => exp(scores[j] - max))
  }

  lemma {:induction false} AddedSnoc(a: seq<real>, x: real)
    ensures Added(a + [x]) == Added(a) + x
  {
    if a == [] {
      assert a + [x] == [x];
    } else {
      AddedSnoc(a[1..], x);
      assert (a + [x])[1..] == a[1..] + [x];
    }
  }

  lemma {:induction false} DotSnoc(a: seq<real>, b: seq<real>, x: real, y: real)
    requires |a| == |b|
    ensures Dot(a + [x], b + [y]) == Dot(a, b) + x * y
  {
    if a == [] {
      assert a + [x] == [x] && b + [y] == [y];
    } else {
      DotSnoc(a[1..], b[1..], x, y);
      assert (a + [x])[1..] == a[1..] + [x] && (b + [y])[1..] == b[1..] + [y];
    }
  }

  lemma {:induction false} SumIsAdded(a: seq<real>)
    ensures Sum(a) == Added(a)
  {
    if a != [] {
      var n := |a| - 1;
      SumIsAdded(a[..n]);
      AddedSnoc(a[..n], a[n]);
      assert a == a[..n] + [a[n]];
    }
  }

  lemma {:induction false} MixIsDot(a: seq<real>, b: seq<real>)
    requires |a| == |b|
    ensures Mix(a, b) == Dot(a, b)
  {
    if a != [] {
      var n := |a| - 1;
      MixIsDot(a[..n], b[..n]);
      DotSnoc(a[..n], b[..n], a[n], b[n]);
      assert a == a[..n] + [a[n]] && b == b[..n] + [b[n]];
    }
  }

  lemma {:induction false} TotalIsSum(exp: PosFn, s: seq<Score>, max: real, ps: seq<real>)
    requires |ps| == |s| && forall j :: 0 <= j < |s| ==> ps[j] == Power(exp, s[j], max)
    ensures Total(exp, s, max) == Sum(ps)
  {
    if s != [] {
      TotalIsSum(exp, s[..|s| - 1], max, ps[..|s| - 1]);
    }
  }

  lemma AddProducts(a: real, b: real, c: real)
    ensures (a + b) * c == a * c + b * c
  {
  }

  lemma SwapFactors(a: real, b: real, c: real)
    ensures (a * b) * c == (a * c) * b
  {
  }

  /** The first row is the second divided by `t`. */
  predicate ScaledBy(ws: seq<real>, ps: seq<real>, t: real) {
    |ws| == |ps| && (ws != [] ==> ScaledBy(ws[..|ws| - 1], ps[..|ps| - 1], t) && ws[|ws| - 1] * t == ps[|ps| - 1])
  }

  lemma {:induction false} MixTimesTotal(ws: seq<real>, ps: seq<real>, values: seq<real>, t: real)
    requires |ps| == |values| && ScaledBy(ws, ps, t)
    ensures Mix(ws, values) * t == Mix(ps, values)
  {
    if ps != [] {
      var n := |ps| - 1;
      MixTimesTotal(ws[..n], ps[..n], values[..n], t);
      SwapFactors(ws[n], values[n], t);
      AddProducts(Mix(ws[..n], values[..n]), ws[n] * values[n], t);
    }
  }

  /** The average of the values with these weights. */
  function Average(ps: seq<real>, values: seq<real>): real
    requires |ps| == |values|
  {
    if Added(ps) == 0.0 then 0.0 else Dot(ps, values) / Added(ps)
  }

  /** A quotient is what its divisor times it is. */
  lemma QuotientIs(m: real, d: real, s: real)
    requires d > 0.0 && m * d == s
    ensures m == s / d
  {
  }

  lemma MixIsAverage(ws: seq<real>, ps: seq<real>, values: seq<real>)
    requires |ps| == |values| && ScaledBy(ws, ps, Added(ps)) && Added(ps) > 0.0
    ensures Mix(ws, values) == Average(ps, values)
  {
    MixTimesTotal(ws, ps, values, Added(ps));
    MixIsDot(ps, values);
    QuotientIs(Mix(ws, values), Added(ps), Dot(ps, values));
  }

  /** The scores are these numbers. */
  predicate Numbers(s: seq<Score>, scores: seq<real>) {
    |s| == |scores| && forall j :: 0 <= j < |scores| ==> s[j] == Fin(scores[j])
  }

  lemma {:induction false} RowMaxIsLargest(s: seq<Score>, scores: seq<real>, n: nat)
    requires 0 < n <= |scores| && Numbers(s, scores)
    ensures RowMax(s[..n]) == Fin(scores[Argmax(scores, n)])
  {
    assert s[..n][..n - 1] == s[..n - 1] && s[..n][n - 1] == Fin(scores[n - 1]);
    if n > 1 {
      RowMaxIsLargest(s, scores, n - 1);
    } else {
      assert s[..0] == [];
    }
  }

  lemma LargestIs(s: seq<Score>, scores: seq<real>)
    requires scores != [] && Numbers(s, scores)
    ensures RowMax(s) == Fin(scores[Argmax(scores, |scores|)])
  {
    RowMaxIsLargest(s, scores, |scores|);
    assert s[..|s|] == s;
  }

  lemma PowerOfNumber(exp: PosFn, s: Score, x: real, max: real)
    requires s == Fin(x)
    ensures Power(exp, s, max) == exp(x - max)
  {
  }

  lemma ShiftedIsPower(exp: PosFn, s: seq<Score>, scores: seq<real>, max: real)
    requires scores != [] && Numbers(s, scores) && max == scores[Argmax(scores, |scores|)]
    ensures forall j :: 0 <= j < |s| ==> Shifted(exp, scores)[j] == Power(exp, s[j], max)
  {
    forall j | 0 <= j < |s|
      ensures Shifted(exp, scores)[j] == Power(exp, s[j], max)
    {
      PowerOfNumber(exp, s[j], scores[j], max);
    }
  }

  lemma QuotientTimes(p: real, t: real)
    requires t > 0.0
    ensures (p / t) * t == p
  {
  }

  lemma {:induction false} DividedAreScaled(ws: seq<real>, ps: seq<real>, t: real)
    requires |ws| == |ps| && t > 0.0 && forall j :: 0 <= j < |ps| ==> ws[j] == ps[j] / t
    ensures ScaledBy(ws, ps, t)
  {
    if ps != [] {
      var n := |ps| - 1;
      DividedAreScaled(ws[..n], ps[..n], t);
      QuotientTimes(ps[n], t);
    }
  }

  lemma WeightsAreScaled(exp: PosFn, s: seq<Score>, max: real, ps: seq<real>)
    requires |ps| == |s| && SomeFinite(s) && RowMax(s) == Fin(max)
    requires forall j :: 0 <= j < |s| ==> ps[j] == Power(exp, s[j], max)
    ensures Added(ps) > 0.0 && ScaledBy(Weights(exp, s), ps, Added(ps))
  {
    TotalIsSum(exp, s, max, ps);
    SumIsAdded(ps);
    WeightsDivided(exp, s, max, Added(ps));
    DividedAreScaled(Weights(exp, s), ps, Added(ps));
  }

  /**
   * Attention to a row of scores is the average of the values, weighted by the exponentials of the scores less the
   * largest of them.
   */
  lemma AttentionIsAverage(exp: PosFn, s: seq<Score>, scores: seq<real>, values: seq<real>)
    requires |scores| == |values| > 0 && Numbers(s, scores)
    ensures SomeFinite(s) && Mix(Weights(exp, s), values) == Average(Shifted(exp, scores), values)
  {
    assert s[0].Fin?;
    var max := scores[Argmax(scores, |scores|)];
    LargestIs(s, scores);
    ShiftedIsPower(exp, s, scores, max);
    WeightsAreScaled(exp, s, max, Shifted(exp, scores));
    MixIsAverage(Weights(exp, s), Shifted(exp, scores), values);
  }
}
