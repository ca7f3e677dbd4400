/** Recall, reciprocal rank and nDCG of ranked sources, and the two evaluators that average them. */
module Ranking {
  import opened PyData

  /** `rank => 1 / log2(rank + 1)`, of which only this is used. */
  ghost predicate Discounts(d: nat -> real) {
    && (forall r: nat :: r >= 1 ==> d(r) > 0.0)
    && (forall r: nat, s: nat :: 1 <= r < s ==> d(s) < d(r))
  }

  datatype Metrics = Metrics(recall: real, mrr: real, ndcg: real) {
    function Plus(other: Metrics): Metrics {
      Metrics(recall + other.recall, mrr + other.mrr, ndcg + other.ndcg)
    }

    function Times(n: nat): Metrics {
      Metrics(recall * n as real, mrr * n as real, ndcg * n as real)
    }

    function Over(n: nat): Metrics
      requires n > 0
    {
      Metrics(recall / n as real, mrr / n as real, ndcg / n as real)
    }
  }

  const ZERO := Metrics(0.0, 0.0, 0.0)

  function SetOf(xs: seq<string>): set<string> {
    set x | x in xs
  }

  /** The first `k` distinct results. */
  function Top(ranked: seq<string>, k: nat): seq<string> {
    Take(Dedupe(ranked), k)
  }

  /** The ranks, from 1 on, of the relevant results. */
  function Hits(top: seq<string>, relevant: set<string>): seq<nat> {
    if top == [] then [] else
      var n := |top| - 1;
      Hits(top[..n], relevant) + if top[n] in relevant then [n + 1] else []
  }

  function Gain(ranks: seq<nat>, d: nat -> real): real {
    if ranks == [] then 0.0 else Gain(ranks[..|ranks| - 1], d) + d(ranks[|ranks| - 1])
  }

  /** The gain of `n` relevant results in front. */
  function Ideal(n: nat, d: nat -> real): real {
    if n == 0 then 0.0 else Ideal(n - 1, d) + d(n)
  }

  function Min(a: nat, b: nat): nat {
    if a < b then a else b
  }

  lemma {:induction false} IdealPositive(n: nat, d: nat -> real)
    requires Discounts(d)
    ensures Ideal(n, d) >= 0.0 && (n > 0 ==> Ideal(n, d) > 0.0)
  {
    if n > 0 {
      IdealPositive(n - 1, d);
    }
  }

  /** The ranks are positive and ascending. */
  ghost predicate Ascending(ranks: seq<nat>) {
    && (forall i :: 0 <= i < |ranks| ==> ranks[i] >= 1)
    && (forall i, j :: 0 <= i < j < |ranks| ==> ranks[i] < ranks[j])
  }

  lemma {:induction false} HitsAscend(top: seq<string>, relevant: set<string>)
    ensures Ascending(Hits(top, relevant))
    ensures forall i :: 0 <= i < |Hits(top, relevant)| ==> Hits(top, relevant)[i] <= |top|
    ensures |Hits(top, relevant)| <= |top|
  {
    if top != [] {
      HitsAscend(top[..|top| - 1], relevant);
    }
  }

  function Reciprocal(hits: seq<nat>): real
    requires hits != [] ==> hits[0] >= 1
  {
    if hits == [] then 0.0 else 1.0 / hits[0] as real
  }

  /** One query's contribution, as the benchmark computes it. */
  function Query(d: nat -> real, relevant: seq<string>, ranked: seq<string>, k: nat): Metrics
    requires Discounts(d) && relevant != [] && k > 0
  {
    var expected := SetOf(relevant);
    var top := Top(ranked, k);
    var hits := Hits(top, expected);
    assert relevant[0] in expected;
    IdealPositive(Min(k, |expected|), d);
    HitsAscend(top, expected);
    Metrics(|SetOf(top) * expected| as real / |expected| as real,
            Reciprocal(hits),
            Gain(hits, d) / Ideal(Min(k, |expected|), d))
  }

  // ----- Bounds -----

  ghost predicate Leading(ranks: seq<nat>) {
    forall i :: 0 <= i < |ranks| ==> ranks[i] == i + 1
  }

  lemma {:induction false} RankAtLeast(ranks: seq<nat>, i: nat)
    requires Ascending(ranks) && i < |ranks|
    ensures ranks[i] >= i + 1
  {
    if i > 0 {
      RankAtLeast(ranks, i - 1);
    }
  }

  lemma DiscountAtMost(d: nat -> real, rank: nat, n: nat)
    requires Discounts(d) && rank >= n >= 1
    ensures 0.0 < d(rank) <= d(n) && (d(rank) == d(n) <==> rank == n)
  {
  }

  lemma LeadingSnoc(ranks: seq<nat>)
    requires ranks != []
    ensures Leading(ranks) <==> Leading(ranks[..|ranks| - 1]) && ranks[|ranks| - 1] == |ranks|
  {
  }

  /** Ranks never gain more than the leading ranks do, and gain as much only when they are those. */
  lemma {:induction false} GainAtMost(ranks: seq<nat>, d: nat -> real)
    requires Discounts(d) && Ascending(ranks)
    ensures 0.0 <= Gain(ranks, d) <= Ideal(|ranks|, d)
    ensures Gain(ranks, d) == Ideal(|ranks|, d) <==> Leading(ranks)
  {
    if ranks != [] {
      var n := |ranks| - 1;
      GainAtMost(ranks[..n], d);
      RankAtLeast(ranks, n);
      DiscountAtMost(d, ranks[n], n + 1);
      LeadingSnoc(ranks);
    }
  }

  lemma {:induction false} IdealGrows(n: nat, m: nat, d: nat -> real)
    requires Discounts(d) && n <= m
    ensures Ideal(n, d) <= Ideal(m, d) && (n < m ==> Ideal(n, d) < Ideal(m, d))
  {
    if n < m {
      IdealGrows(n, m - 1, d);
    }
  }

  lemma Scaled(q: real, r: real, n: real, a: real, b: real)
    requires q * n == a && r * n == b && a <= b && n > 0.0
    ensures q <= r
  {
    assert (r - q) * n == b - a;
  }

  lemma QuotientTimes(a: real, n: real)
    requires n > 0.0
    ensures a / n * n == a
  {
  }

  lemma Ratio(a: real, b: real)
    requires 0.0 <= a <= b && b > 0.0
    ensures 0.0 <= a / b <= 1.0 && (a / b == 1.0 <==> a == b)
  {
    QuotientTimes(a, b);
    Scaled(0.0, a / b, b, 0.0, a);
    Scaled(a / b, 1.0, b, a, b);
    if a == b {
      Scaled(1.0, a / b, b, b, a);
    }
  }

  lemma SetOfSnoc(xs: seq<string>, x: string, relevant: set<string>)
    requires x !in xs
    ensures |SetOf(xs + [x]) * relevant| == |SetOf(xs) * relevant| + if x in relevant then 1 else 0
  {
    assert SetOf(xs + [x]) == SetOf(xs) + {x};
    if x in relevant {
      assert SetOf(xs + [x]) * relevant == SetOf(xs) * relevant + {x};
    } else {
      assert SetOf(xs + [x]) * relevant == SetOf(xs) * relevant;
    }
  }

  /** In distinct results, the hits are the relevant ones among them. */
  lemma {:induction false} HitsCount(top: seq<string>, relevant: set<string>)
    requires Distinct(top)
    ensures |Hits(top, relevant)| == |SetOf(top) * relevant|
  {
    if top == [] {
      assert SetOf(top) == {};
    } else {
      var n := |top| - 1;
      HitsCount(top[..n], relevant);
      SetOfSnoc(top[..n], top[n], relevant);
      assert top == top[..n] + [top[n]];
    }
  }

  /** One query's contribution, as the offline evaluator computes it. */
  function QueryByHits(d: nat -> real, relevant: seq<string>, ranked: seq<string>, k: nat): Metrics
    requires Discounts(d) && relevant != [] && k > 0
  {
    var expected := SetOf(relevant);
    var hits := Hits(Top(ranked, k), expected);
    assert relevant[0] in expected;
    IdealPositive(Min(k, |expected|), d);
    HitsAscend(Top(ranked, k), expected);
    Metrics(|hits| as real / |expected| as real, Reciprocal(hits), Gain(hits, d) / Ideal(Min(k, |expected|), d))
  }

  /** Both evaluators compute the same metrics of a query. */
  lemma QueriesAgree(d: nat -> real, relevant: seq<string>, ranked: seq<string>, k: nat)
    requires Discounts(d) && relevant != [] && k > 0
    ensures QueryByHits(d, relevant, ranked, k) == Query(d, relevant, ranked, k)
  {
    TopDistinct(ranked, k);
    HitsCount(Top(ranked, k), SetOf(relevant));
  }

  lemma SubsetSize(a: set<string>, b: set<string>)
    requires a <= b
    ensures |a| <= |b| && (|a| == |b| ==> a == b)
  {
    assert b == a + (b - a);
  }

  lemma TopDistinct(ranked: seq<string>, k: nat)
    ensures Distinct(Top(ranked, k))
  {
    DedupeDistinct(ranked);
  }

  /** Hits lead exactly when the first results are all relevant. */
  lemma {:induction false} HitsLead(top: seq<string>, relevant: set<string>, m: nat)
    requires m <= |top|
    ensures (forall i :: 0 <= i < m ==> top[i] in relevant) ==> |Hits(top, relevant)| >= m
    ensures |Hits(top, relevant)| >= m && Leading(Hits(top, relevant)) ==> forall i :: 0 <= i < m ==> top[i] in relevant
    ensures forall i :: 0 <= i < |Hits(top, relevant)| ==> 1 <= Hits(top, relevant)[i] <= |top| && top[Hits(top, relevant)[i] - 1] in relevant
  {
    if top != [] {
      var n := |top| - 1;
      HitsLead(top[..n], relevant, Min(m, n));
      var hits := Hits(top, relevant);
      if |hits| >= m && Leading(hits) {
        forall i | 0 <= i < m
          ensures top[i] in relevant
        {
          assert hits[i] == i + 1;
        }
      }
    }
  }

  /** There are at most as many hits as results and as relevant sources. */
  lemma HitsWithin(ranked: seq<string>, expected: set<string>, k: nat)
    ensures var hits := Hits(Top(ranked, k), expected); Ascending(hits) && |hits| <= Min(k, |expected|)
  {
    var top := Top(ranked, k);
    TopDistinct(ranked, k);
    HitsAscend(top, expected);
    HitsCount(top, expected);
    SubsetSize(SetOf(top) * expected, expected);
  }

  /** Up to `m` ranks gain at most the ideal, and gain it only when they are the leading `m`. */
  lemma GainBounds(hits: seq<nat>, m: nat, d: nat -> real)
    requires Discounts(d) && Ascending(hits) && |hits| <= m && m > 0
    ensures 0.0 <= Gain(hits, d) <= Ideal(m, d) && Ideal(m, d) > 0.0
    ensures Gain(hits, d) == Ideal(m, d) <==> |hits| == m && Leading(hits)
  {
    GainAtMost(hits, d);
    IdealGrows(|hits|, m, d);
    IdealPositive(m, d);
  }

  /** No more than `m` hits lead and number `m` exactly when the first `m` results are hits. */
  lemma FullHits(top: seq<string>, relevant: set<string>, m: nat)
    requires |Hits(top, relevant)| <= m
    ensures |Hits(top, relevant)| == m && Leading(Hits(top, relevant)) <==>
            |top| >= m && forall i :: 0 <= i < m ==> top[i] in relevant
  {
    HitsAscend(top, relevant);
    if |top| >= m {
      HitsLead(top, relevant, m);
      if forall i :: 0 <= i < m ==> top[i] in relevant {
        HitsOfPrefix(top, relevant, m);
      }
    }
  }

  /** When the first `m` results are hits, so are the first `m` ranks. */
  lemma {:induction false} HitsOfPrefix(top: seq<string>, relevant: set<string>, m: nat)
    requires m <= |top| && forall i :: 0 <= i < m ==> top[i] in relevant
    ensures |Hits(top, relevant)| >= m && Leading(Hits(top, relevant)[..m])
  {
    if |top| > m {
      HitsOfPrefix(top[..|top| - 1], relevant, m);
      assert Hits(top, relevant)[..m] == Hits(top[..|top| - 1], relevant)[..m];
    } else if m > 0 {
      HitsOfPrefix(top[..m - 1], relevant, m - 1);
      HitsAscend(top[..m - 1], relevant);
      var before := Hits(top[..m - 1], relevant);
      assert before[..m - 1] == before;
      assert Hits(top, relevant)[..m] == before + [m];
    }
  }

  lemma {:induction false} GainPositive(ranks: seq<nat>, d: nat -> real)
    requires Discounts(d) && Ascending(ranks)
    ensures Gain(ranks, d) >= 0.0 && (Gain(ranks, d) > 0.0 <==> ranks != [])
  {
    if ranks != [] {
      GainPositive(ranks[..|ranks| - 1], d);
    }
  }

  /** The gain and the ideal whose quotient is the nDCG. */
  lemma NdcgParts(d: nat -> real, relevant: seq<string>, ranked: seq<string>, k: nat) returns (a: real, b: real)
    requires Discounts(d) && relevant != [] && k > 0
    ensures a == Gain(Hits(Top(ranked, k), SetOf(relevant)), d) && b == Ideal(Min(k, |SetOf(relevant)|), d)
    ensures 0.0 <= a <= b && b > 0.0 && Query(d, relevant, ranked, k).ndcg == a / b
    ensures a > 0.0 <==> Hits(Top(ranked, k), SetOf(relevant)) != []
  {
    var expected := SetOf(relevant);
    assert relevant[0] in expected;
    var hits := Hits(Top(ranked, k), expected);
    a, b := Gain(hits, d), Ideal(Min(k, |expected|), d);
    HitsWithin(ranked, expected, k);
    GainBounds(hits, Min(k, |expected|), d);
    GainPositive(hits, d);
  }

  /** The gain is ideal exactly when the first results that can be relevant are. */
  lemma IdealReached(d: nat -> real, relevant: seq<string>, ranked: seq<string>, k: nat)
    requires Discounts(d) && relevant != [] && k > 0
    ensures var expected := SetOf(relevant);
            var best := Min(k, |expected|);
            Gain(Hits(Top(ranked, k), expected), d) == Ideal(best, d) <==>
              |Dedupe(ranked)| >= best && forall i :: 0 <= i < best ==> Dedupe(ranked)[i] in expected
  {
    var expected := SetOf(relevant);
    assert relevant[0] in expected;
    var best, top := Min(k, |expected|), Top(ranked, k);
    HitsWithin(ranked, expected, k);
    GainBounds(Hits(top, expected), best, d);
    FullHits(top, expected, best);
  }

  /** nDCG lies between 0 and 1, and is 1 exactly when the first `min(k, |relevant|)` distinct results exist and are all relevant. */
  lemma NdcgBounds(d: nat -> real, relevant: seq<string>, ranked: seq<string>, k: nat)
    requires Discounts(d) && relevant != [] && k > 0
    ensures 0.0 <= Query(d, relevant, ranked, k).ndcg <= 1.0
    ensures var best := Min(k, |SetOf(relevant)|);
            Query(d, relevant, ranked, k).ndcg == 1.0 <==>
              |Dedupe(ranked)| >= best && forall i :: 0 <= i < best ==> Dedupe(ranked)[i] in SetOf(relevant)
  {
    var a, b := NdcgParts(d, relevant, ranked, k);
    Ratio(a, b);
    IdealReached(d, relevant, ranked, k);
  }

  // ----- Growth with k -----

  lemma {:induction false} HitsExtend(top: seq<string>, more: seq<string>, relevant: set<string>)
    requires top <= more
    ensures Hits(top, relevant) <= Hits(more, relevant)
  {
    if |top| < |more| {
      HitsExtend(top, more[..|more| - 1], relevant);
    } else {
      assert top == more;
    }
  }

  lemma SetOfPrefix(a: seq<string>, b: seq<string>, relevant: set<string>)
    requires a <= b
    ensures |SetOf(a) * relevant| <= |SetOf(b) * relevant| <= |relevant|
  {
    assert forall x :: x in a ==> x in b;
    SubsetSize(SetOf(a) * relevant, SetOf(b) * relevant);
    SubsetSize(SetOf(b) * relevant, relevant);
  }

  /** Recall never falls when more results count. */
  lemma RecallGrows(d: nat -> real, relevant: seq<string>, ranked: seq<string>, k: nat, l: nat)
    requires Discounts(d) && relevant != [] && 0 < k <= l
    ensures 0.0 <= Query(d, relevant, ranked, k).recall <= Query(d, relevant, ranked, l).recall <= 1.0
  {
    var expected := SetOf(relevant);
    assert relevant[0] in expected;
    SetOfPrefix(Top(ranked, k), Top(ranked, l), expected);
    RatioGrows(|SetOf(Top(ranked, k)) * expected|, |SetOf(Top(ranked, l)) * expected|, |expected|);
  }

  /** The reciprocal rank never falls when more results count, and is settled by the first relevant one. */
  lemma MrrGrows(d: nat -> real, relevant: seq<string>, ranked: seq<string>, k: nat, l: nat)
    requires Discounts(d) && relevant != [] && 0 < k <= l
    ensures 0.0 <= Query(d, relevant, ranked, k).mrr <= Query(d, relevant, ranked, l).mrr <= 1.0
    ensures Query(d, relevant, ranked, k).mrr > 0.0 ==> Query(d, relevant, ranked, l).mrr == Query(d, relevant, ranked, k).mrr
  {
    var expected := SetOf(relevant);
    var a, b := Top(ranked, k), Top(ranked, l);
    HitsAscend(a, expected);
    HitsAscend(b, expected);
    HitsExtend(a, b, expected);
    ReciprocalGrows(Hits(a, expected), Hits(b, expected));
  }

  lemma ReciprocalGrows(a: seq<nat>, b: seq<nat>)
    requires a <= b && (b != [] ==> b[0] >= 1)
    ensures 0.0 <= Reciprocal(a) <= Reciprocal(b) <= 1.0
    ensures Reciprocal(a) > 0.0 ==> Reciprocal(b) == Reciprocal(a)
  {
    if b != [] {
      RatioGrows(1, 1, b[0]);
    }
  }

  lemma QuotientsGrow(a: real, b: real, n: real)
    requires a <= b && n > 0.0
    ensures a / n <= b / n
  {
    QuotientTimes(a, n);
    QuotientTimes(b, n);
    Scaled(a / n, b / n, n, a, b);
  }

  lemma RatioGrows(a: nat, b: nat, n: nat)
    requires a <= b <= n && n > 0
    ensures 0.0 <= a as real / n as real <= b as real / n as real <= 1.0
  {
    var m := n as real;
    Ratio(a as real, m);
    Ratio(b as real, m);
    QuotientsGrow(a as real, b as real, m);
  }

  // ----- When nDCG falls, and when it rises -----

  lemma HitsSnoc(top: seq<string>, x: string, relevant: set<string>)
    ensures Hits(top + [x], relevant) == Hits(top, relevant) + if x in relevant then [|top| + 1] else []
  {
    assert (top + [x])[..|top|] == top;
  }

  /** One more result: the next one, if there is one. */
  lemma TopNext(ranked: seq<string>, k: nat)
    ensures Top(ranked, k + 1) == Top(ranked, k) + if k < |Dedupe(ranked)| then [Dedupe(ranked)[k]] else []
    ensures k < |Dedupe(ranked)| ==> |Top(ranked, k)| == k
  {
  }

  lemma GainSnoc(ranks: seq<nat>, rank: nat, d: nat -> real)
    ensures Gain(ranks + [rank], d) == Gain(ranks, d) + d(rank)
  {
    assert (ranks + [rank])[..|ranks|] == ranks;
  }

  /** The result at index `k` exists and is relevant. */
  predicate NextIsRelevant(relevant: seq<string>, ranked: seq<string>, k: nat) {
    k < |Dedupe(ranked)| && Dedupe(ranked)[k] in SetOf(relevant)
  }

  /** What one more result adds to the gain. */
  lemma GainNext(d: nat -> real, relevant: seq<string>, ranked: seq<string>, k: nat)
    ensures Gain(Hits(Top(ranked, k + 1), SetOf(relevant)), d) ==
            Gain(Hits(Top(ranked, k), SetOf(relevant)), d) + if NextIsRelevant(relevant, ranked, k) then d(k + 1) else 0.0
  {
    TopNext(ranked, k);
    var hits := Hits(Top(ranked, k), SetOf(relevant));
    if NextIsRelevant(relevant, ranked, k) {
      HitsSnoc(Top(ranked, k), Dedupe(ranked)[k], SetOf(relevant));
      GainSnoc(hits, k + 1, d);
    } else if k < |Dedupe(ranked)| {
      HitsSnoc(Top(ranked, k), Dedupe(ranked)[k], SetOf(relevant));
      assert hits + [] == hits;
    } else {
      assert Top(ranked, k) + [] == Top(ranked, k);
    }
  }

  lemma Product(x: real, y: real)
    requires x >= 0.0 && y > 0.0
    ensures x * y >= 0.0 && (x * y > 0.0 <==> x > 0.0)
  {
  }

  /** A quotient falls when only its divisor grows, unless it is zero. */
  lemma LargerDivisor(a: real, b: real, e: real)
    requires a >= 0.0 && b > 0.0 && e > 0.0
    ensures a / (b + e) <= a / b && (a / (b + e) < a / b <==> a > 0.0)
  {
    var q, r := a / b, a / (b + e);
    QuotientTimes(a, b);
    QuotientTimes(a, b + e);
    Ratio(0.0, b + e);
    assert (q - r) * b == r * e;
    Scaled(0.0, r, b + e, 0.0, a);
    Product(r, e);
    SignOf(q - r, b);
    SignOf(r, b + e);
  }

  lemma SignOf(x: real, y: real)
    requires y > 0.0
    ensures x * y > 0.0 <==> x > 0.0
    ensures x * y == 0.0 <==> x == 0.0
  {
  }

  /** A proper fraction rises when the same amount is added above and below. */
  lemma AddedToBoth(a: real, b: real, e: real)
    requires a <= b && b > 0.0 && e > 0.0
    ensures (a + e) / (b + e) >= a / b && ((a + e) / (b + e) > a / b <==> a < b)
  {
    var q, r := a / b, (a + e) / (b + e);
    QuotientTimes(a, b);
    QuotientTimes(a + e, b + e);
    assert q * b == a && r * (b + e) == a + e;
    assert ((r - q) * (b + e)) * b == (b - a) * e;
    SignOf((r - q) * (b + e), b);
    SignOf(r - q, b + e);
    SignOf(b - a, e);
  }

  /** A quotient rises when its dividend grows. */
  lemma LargerDividend(a: real, b: real, e: real)
    requires b > 0.0 && e > 0.0
    ensures (a + e) / b > a / b
  {
    QuotientTimes(a, b);
    QuotientTimes(a + e, b);
    assert ((a + e) / b - a / b) * b == e;
    SignOf((a + e) / b - a / b, b);
  }

  /** What happens to a fraction when an amount is added above, below, to both or to none. */
  lemma QuotientSteps(a: real, b: real, a': real, b': real, e: real, above: bool, below: bool, q: real, r: real)
    requires 0.0 <= a <= b && b > 0.0 && a' <= b' && b' > 0.0 && e > 0.0
    requires a' == a + (if above then e else 0.0) && b' == b + (if below then e else 0.0)
    requires q == a / b && r == a' / b'
    ensures r < q <==> below && !above && a > 0.0
    ensures r > q <==> above && q < 1.0
  {
    Ratio(a, b);
    if below && above {
      AddedToBoth(a, b, e);
    } else if below {
      LargerDivisor(a, b, e);
    } else if above {
      LargerDividend(a, b, e);
    }
  }

  /** The ideal of one more result. */
  lemma IdealNext(d: nat -> real, n: nat, k: nat)
    ensures Ideal(Min(k + 1, n), d) == Ideal(Min(k, n), d) + if k < n then d(k + 1) else 0.0
  {
  }

  /**
   * One more result: nDCG falls exactly when a relevant source has been found, more relevant sources than results were
   * counted, and the next result is missing or not relevant. It rises exactly when the next result is relevant and nDCG
   * was not 1.
   */
  lemma NdcgStep(d: nat -> real, relevant: seq<string>, ranked: seq<string>, k: nat)
    requires Discounts(d) && relevant != [] && k > 0
    ensures Query(d, relevant, ranked, k + 1).ndcg < Query(d, relevant, ranked, k).ndcg <==>
              && k < |SetOf(relevant)| && !NextIsRelevant(relevant, ranked, k)
              && Hits(Top(ranked, k), SetOf(relevant)) != []
    ensures Query(d, relevant, ranked, k + 1).ndcg > Query(d, relevant, ranked, k).ndcg <==>
              NextIsRelevant(relevant, ranked, k) && Query(d, relevant, ranked, k).ndcg < 1.0
  {
    var a, b := NdcgParts(d, relevant, ranked, k);
    var a', b' := NdcgParts(d, relevant, ranked, k + 1);
    GainNext(d, relevant, ranked, k);
    IdealNext(d, |SetOf(relevant)|, k);
    QuotientSteps(a, b, a', b', d(k + 1), NextIsRelevant(relevant, ranked, k), k < |SetOf(relevant)|,
                  Query(d, relevant, ranked, k).ndcg, Query(d, relevant, ranked, k + 1).ndcg);
  }

  lemma FirstHit(relevant: seq<string>, ranked: seq<string>)
    requires |Dedupe(ranked)| > 0 && Dedupe(ranked)[0] in SetOf(relevant)
    ensures Hits(Top(ranked, 1), SetOf(relevant)) != []
  {
    assert Top(ranked, 1)[0] in SetOf(relevant);
  }

  /** nDCG may fall: from 1, whenever more than one source is relevant and only the first of two results is. */
  lemma NdcgMayFall(d: nat -> real, relevant: seq<string>, ranked: seq<string>)
    requires Discounts(d) && |SetOf(relevant)| > 1 && relevant != [] && |Dedupe(ranked)| > 1
    requires Dedupe(ranked)[0] in SetOf(relevant) && Dedupe(ranked)[1] !in SetOf(relevant)
    ensures Query(d, relevant, ranked, 1).ndcg == 1.0 && Query(d, relevant, ranked, 2).ndcg < 1.0
  {
    FirstHit(relevant, ranked);
    NdcgBounds(d, relevant, ranked, 1);
    NdcgStep(d, relevant, ranked, 1);
  }

  // ----- Recall and reciprocal rank, one result at a time -----

  lemma FoundNext(relevant: seq<string>, ranked: seq<string>, k: nat)
    ensures |SetOf(Top(ranked, k + 1)) * SetOf(relevant)|
         == |SetOf(Top(ranked, k)) * SetOf(relevant)| + if NextIsRelevant(relevant, ranked, k) then 1 else 0
  {
    TopNext(ranked, k);
    TopDistinct(ranked, k + 1);
    if k < |Dedupe(ranked)| {
      assert Top(ranked, k + 1)[k] == Dedupe(ranked)[k] && Top(ranked, k + 1)[..k] == Top(ranked, k);
      SetOfSnoc(Top(ranked, k), Dedupe(ranked)[k], SetOf(relevant));
    } else {
      assert Top(ranked, k + 1) == Top(ranked, k);
    }
  }

  lemma NothingFound(relevant: seq<string>, ranked: seq<string>)
    ensures |SetOf(Top(ranked, 0)) * SetOf(relevant)| == 0 && Hits(Top(ranked, 0), SetOf(relevant)) == []
  {
    assert Top(ranked, 0) == [] && SetOf(Top(ranked, 0)) == {};
  }

  /** How many of the first `k` distinct results are relevant. */
  function Found(relevant: seq<string>, ranked: seq<string>, k: nat): nat {
    if k == 0 then 0 else Found(relevant, ranked, k - 1) + if NextIsRelevant(relevant, ranked, k - 1) then 1 else 0
  }

  lemma {:induction false} FoundCounts(relevant: seq<string>, ranked: seq<string>, k: nat)
    ensures |SetOf(Top(ranked, k)) * SetOf(relevant)| == Found(relevant, ranked, k)
  {
    if k == 0 {
      NothingFound(relevant, ranked);
    } else {
      FoundCounts(relevant, ranked, k - 1);
      FoundNext(relevant, ranked, k - 1);
    }
  }

  /** Recall is the share of the relevant sources that are found, counted one result at a time. */
  lemma RecallIsShareFound(d: nat -> real, relevant: seq<string>, ranked: seq<string>, k: nat)
    requires Discounts(d) && relevant != [] && k > 0
    ensures |SetOf(relevant)| > 0
    ensures Query(d, relevant, ranked, k).recall == Found(relevant, ranked, k) as real / |SetOf(relevant)| as real
  {
    assert relevant[0] in SetOf(relevant);
    FoundCounts(relevant, ranked, k);
  }

  lemma HitsNext(relevant: seq<string>, ranked: seq<string>, k: nat)
    ensures Hits(Top(ranked, k + 1), SetOf(relevant))
         == Hits(Top(ranked, k), SetOf(relevant)) + if NextIsRelevant(relevant, ranked, k) then [k + 1] else []
  {
    TopNext(ranked, k);
    if k < |Dedupe(ranked)| {
      HitsSnoc(Top(ranked, k), Dedupe(ranked)[k], SetOf(relevant));
    } else {
      assert Top(ranked, k + 1) == Top(ranked, k);
    }
  }

  lemma ReciprocalIs(d: nat -> real, relevant: seq<string>, ranked: seq<string>, k: nat, hits: seq<nat>)
    requires Discounts(d) && relevant != [] && k > 0 && hits == Hits(Top(ranked, k), SetOf(relevant))
    ensures Ascending(hits) && Query(d, relevant, ranked, k).mrr == Reciprocal(hits)
  {
    HitsAscend(Top(ranked, k), SetOf(relevant));
  }

  lemma ReciprocalNext(hits: seq<nat>, next: bool, rank: nat)
    requires (hits != [] ==> hits[0] >= 1) && rank >= 1
    ensures Reciprocal(hits + if next then [rank] else []) ==
            if Reciprocal(hits) > 0.0 then Reciprocal(hits) else if next then 1.0 / rank as real else 0.0
  {
    if hits != [] {
      RatioGrows(1, 1, hits[0]);
    }
  }

  /** The reciprocal rank is that of the first relevant result, 0 before it. */
  lemma MrrStep(d: nat -> real, relevant: seq<string>, ranked: seq<string>, k: nat)
    requires Discounts(d) && relevant != []
    ensures var before := if k == 0 then 0.0 else Query(d, relevant, ranked, k).mrr;
            Query(d, relevant, ranked, k + 1).mrr ==
            if before > 0.0 then before else if NextIsRelevant(relevant, ranked, k) then 1.0 / (k + 1) as real else 0.0
  {
    var hits := Hits(Top(ranked, k), SetOf(relevant));
    NothingFound(relevant, ranked);
    HitsNext(relevant, ranked, k);
    ReciprocalIs(d, relevant, ranked, k + 1, Hits(Top(ranked, k + 1), SetOf(relevant)));
    if k > 0 {
      ReciprocalIs(d, relevant, ranked, k, hits);
    }
    ReciprocalNext(hits, NextIsRelevant(relevant, ranked, k), k + 1);
  }
}
