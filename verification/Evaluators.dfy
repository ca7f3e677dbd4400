/** The benchmark and the offline evaluator, which average the metrics of `Ranking` over queries. */
module Evaluators {
  import opened PyData
  import opened Ranking

  /** A row of the benchmark. */
  datatype Row = Row(id: string, relevant: seq<string>, ranked: seq<string>)

  datatype Judgment = Judgment(id: string, relevant: seq<string>)

  datatype Prediction = Prediction(id: string, ranked: seq<string>)

  datatype Report = Report(queries: nat, metrics: Metrics)

  // ----- The benchmark -----

  predicate NoEmpty(paths: seq<string>) {
    forall i :: 0 <= i < |paths| ==> paths[i] != ""
  }

  predicate RowOk(r: Row) {
    r.id != "" && r.relevant != [] && NoEmpty(r.relevant) && NoEmpty(r.ranked)
  }

  /** All rows are in order and their ids differ. */
  predicate RowsOk(rows: seq<Row>) {
    (forall i :: 0 <= i < |rows| ==> RowOk(rows[i])) && forall i, j :: 0 <= i < j < |rows| ==> rows[i].id != rows[j].id
  }

  /** What one query contributes at a cutoff, given its relevant and its ranked sources. */
  type Score = (seq<string>, seq<string>, nat) -> Metrics

  /** The metrics of `Ranking`, on labelled queries and positive cutoffs. */
  function Scorer(d: nat -> real): Score
    requires Discounts(d)
  {
    (relevant: seq<string>, ranked: seq<string>, k: nat) =>
      if relevant == [] || k == 0 then ZERO else Query(d, relevant, ranked, k)
  }

  /** The sum over the rows at one cutoff. */
  function RowTotal(score: Score, rows: seq<Row>, k: nat): Metrics {
    if rows == [] then ZERO else
      var n := |rows| - 1;
      RowTotal(score, rows[..n], k).Plus(score(rows[n].relevant, rows[n].ranked, k))
  }

  /** How often a cutoff is asked for. */
  function Count(ks: seq<int>, k: int): nat {
    if ks == [] then 0 else Count(ks[..|ks| - 1], k) + if ks[|ks| - 1] == k then 1 else 0
  }

  lemma ScaledSum(x: real, y: real, n: nat)
    ensures x * n as real + x == x * (n + 1) as real
    ensures (x + y) * n as real == x * n as real + y * n as real
  {
    assert (n + 1) as real == n as real + 1.0;
  }

  lemma TimesSucc(m: Metrics, n: nat)
    ensures m.Times(n).Plus(m) == m.Times(n + 1)
  {
    ScaledSum(m.recall, 0.0, n);
    ScaledSum(m.mrr, 0.0, n);
    ScaledSum(m.ndcg, 0.0, n);
  }

  lemma TimesPlus(a: Metrics, b: Metrics, n: nat)
    ensures a.Plus(b).Times(n) == a.Times(n).Plus(b.Times(n))
  {
    ScaledSum(a.recall, b.recall, n);
    ScaledSum(a.mrr, b.mrr, n);
    ScaledSum(a.ndcg, b.ndcg, n);
  }

  lemma PlusAgain(a: Metrics, m: Metrics, n: nat)
    ensures a.Plus(m.Times(n)).Plus(m) == a.Plus(m.Times(n + 1))
    ensures a.Plus(m.Times(0)) == a
  {
    TimesSucc(m, n);
  }

  /** One row is added to the totals of every cutoff, as often as it is asked for; `false` stands for a division by zero. */
  method AddRow(score: Score, row: Row, ks: seq<int>, totals: map<int, Metrics>) returns (ok: bool, r: map<int, Metrics>)
    requires forall i :: 0 <= i < |ks| ==> ks[i] in totals
    ensures ok <==> forall i :: 0 <= i < |ks| ==> ks[i] > 0
    ensures r.Keys == totals.Keys
    ensures ok ==> forall k: nat :: k in totals ==>
              r[k] == totals[k].Plus(score(row.relevant, row.ranked, k).Times(Count(ks, k)))
  {
    ok, r := true, totals;
    forall k: nat | k in totals
      ensures r[k] == totals[k].Plus(score(row.relevant, row.ranked, k).Times(Count(ks[..0], k)))
    {
      PlusAgain(totals[k], score(row.relevant, row.ranked, k), 0);
    }
    for n := 0 to |ks|
      invariant ok && r.Keys == totals.Keys && forall i :: 0 <= i < n ==> ks[i] > 0
      invariant forall k: nat :: k in totals ==>
                  r[k] == totals[k].Plus(score(row.relevant, row.ranked, k).Times(Count(ks[..n], k)))
    {
      var cut := ks[n];
      if cut <= 0 {
        ok := false;
        return;
      }
      assert ks[..n + 1][..n] == ks[..n];
      PlusAgain(totals[cut], score(row.relevant, row.ranked, cut), Count(ks[..n], cut));
      r := r[cut := r[cut].Plus(score(row.relevant, row.ranked, cut))];
    }
    assert ks[..|ks|] == ks;
  }

  lemma RowTotalSnoc(score: Score, rows: seq<Row>, n: nat, k: nat, times: nat)
    requires n < |rows|
    ensures RowTotal(score, rows[..n + 1], k).Times(times)
         == RowTotal(score, rows[..n], k).Times(times).Plus(score(rows[n].relevant, rows[n].ranked, k).Times(times))
  {
    assert rows[..n + 1][..n] == rows[..n];
    TimesPlus(RowTotal(score, rows[..n], k), score(rows[n].relevant, rows[n].ranked, k), times);
  }

  predicate Seen(rows: seq<Row>, id: string) {
    exists i :: 0 <= i < |rows| && rows[i].id == id
  }

  lemma RowsOkSnoc(rows: seq<Row>, n: nat)
    requires n < |rows| && RowsOk(rows[..n])
    ensures RowsOk(rows[..n + 1]) <==> RowOk(rows[n]) && !Seen(rows[..n], rows[n].id)
    ensures forall id :: Seen(rows[..n + 1], id) <==> Seen(rows[..n], id) || rows[n].id == id
  {
    var a, b := rows[..n], rows[..n + 1];
    assert b == a + [rows[n]];
    if RowsOk(b) {
      assert b[n] == rows[n] && forall i :: 0 <= i < n ==> b[i] == a[i];
    }
    forall id
      ensures Seen(b, id) <==> Seen(a, id) || rows[n].id == id
    {
      assert b[n] == rows[n] && forall i :: 0 <= i < n ==> b[i] == a[i];
    }
  }

  lemma RowsOkPrefix(rows: seq<Row>, n: nat)
    requires n <= |rows|
    ensures RowsOk(rows) ==> RowsOk(rows[..n])
  {
  }

  /** The totals of the first rows: at each cutoff their sum, as often as the cutoff is asked for. */
  ghost predicate Totals(score: Score, rows: seq<Row>, ks: seq<int>, totals: map<int, Metrics>) {
    forall k: nat :: k in totals ==> totals[k] == RowTotal(score, rows, k).Times(Count(ks, k))
  }

  lemma TotalsStep(score: Score, rows: seq<Row>, n: nat, ks: seq<int>, totals: map<int, Metrics>, r: map<int, Metrics>)
    requires n < |rows| && Totals(score, rows[..n], ks, totals) && r.Keys == totals.Keys
    requires forall k: nat :: k in totals ==> r[k] == totals[k].Plus(score(rows[n].relevant, rows[n].ranked, k).Times(Count(ks, k)))
    ensures Totals(score, rows[..n + 1], ks, r)
  {
    forall k: nat | k in r
      ensures r[k] == RowTotal(score, rows[..n + 1], k).Times(Count(ks, k))
    {
      RowTotalSnoc(score, rows, n, k, Count(ks, k));
    }
  }

  /** What the benchmark reports; `None` stands for an exception. */
  function RowsReport(score: Score, rows: seq<Row>, ks: seq<int>): Option<map<int, Metrics>> {
    if rows == [] || !RowsOk(rows) || exists i :: 0 <= i < |ks| && ks[i] <= 0 then None
    else Some(map k | k in ks :: if k < 0 then ZERO else RowTotal(score, rows, k).Times(Count(ks, k)).Over(|rows|))
  }

  lemma TimesOne(m: Metrics)
    ensures m.Times(1) == m
  {
  }

  lemma {:induction false} CountedIsIn(ks: seq<int>, k: nat)
    ensures Count(ks, k) > 0 <==> k in ks
  {
    if ks != [] {
      CountedIsIn(ks[..|ks| - 1], k);
      assert ks == ks[..|ks| - 1] + [ks[|ks| - 1]];
    }
  }

  /** The checks of one row; `seen` holds the ids of the rows before it. */
  method CheckRow(rows: seq<Row>, n: nat, seen: set<string>) returns (ok: bool, seen': set<string>)
    requires n < |rows| && RowsOk(rows[..n]) && forall id :: id in seen <==> Seen(rows[..n], id)
    ensures if ok then RowsOk(rows[..n + 1]) else !RowsOk(rows)
    ensures ok ==> forall id :: id in seen' <==> Seen(rows[..n + 1], id)
  {
    var row := rows[n];
    RowsOkSnoc(rows, n);
    RowsOkPrefix(rows, n + 1);
    ok := RowOk(row) && row.id !in seen;
    seen' := seen + {row.id};
  }

  /** The loop over the rows of the benchmark: the totals of every cutoff. */
  method TotalRows(score: Score, rows: seq<Row>, ks: seq<int>) returns (r: Option<map<int, Metrics>>)
    requires rows != []
    ensures r.Some? <==> RowsOk(rows) && forall i :: 0 <= i < |ks| ==> ks[i] > 0
    ensures r.Some? ==> r.value.Keys == (set i | 0 <= i < |ks| :: ks[i]) && Totals(score, rows, ks, r.value)
  {
    var totals := map i | 0 <= i < |ks| :: ks[i] := ZERO;
    var seen: set<string> := {};
    for n := 0 to |rows|
      invariant RowsOk(rows[..n]) && forall id :: id in seen <==> Seen(rows[..n], id)
      invariant totals.Keys == (set i | 0 <= i < |ks| :: ks[i]) && Totals(score, rows[..n], ks, totals)
      invariant n > 0 ==> forall i :: 0 <= i < |ks| ==> ks[i] > 0
    {
      var ok, next;
      ok, seen := CheckRow(rows, n, seen);
      if !ok {
        return None;
      }
      ok, next := AddRow(score, rows[n], ks, totals);
      if !ok {
        return None;
      }
      TotalsStep(score, rows, n, ks, totals, next);
      totals := next;
    }
    assert rows[..|rows|] == rows;
    r := Some(totals);
  }

  lemma AveragedTotals(score: Score, rows: seq<Row>, ks: seq<int>, totals: map<int, Metrics>)
    requires rows != [] && RowsOk(rows) && forall i :: 0 <= i < |ks| ==> ks[i] > 0
    requires totals.Keys == (set i | 0 <= i < |ks| :: ks[i]) && Totals(score, rows, ks, totals)
    ensures RowsReport(score, rows, ks) == Some(map k | k in totals :: totals[k].Over(|rows|))
  {
    var report := RowsReport(score, rows, ks).value;
    var averages := map k | k in totals :: totals[k].Over(|rows|);
    assert report.Keys == averages.Keys;
    forall k | k in totals
      ensures report[k] == averages[k]
    {
      assert k > 0;
    }
    assert report == averages;
  }

  /** `evaluate` of the benchmark. A cutoff that is asked for twice has its metrics doubled. */
  method EvaluateRows(score: Score, rows: seq<Row>, ks: seq<int>) returns (r: Option<map<int, Metrics>>)
    ensures r == RowsReport(score, rows, ks)
  {
    if rows == [] {
      return None;
    }
    var totals := TotalRows(score, rows, ks);
    if totals.None? {
      return None;
    }
    AveragedTotals(score, rows, ks, totals.value);
    r := Some(map k | k in totals.value :: totals.value[k].Over(|rows|));
  }

  // ----- The offline evaluator -----

  function HitScorer(d: nat -> real): Score
    requires Discounts(d)
  {
    (relevant: seq<string>, ranked: seq<string>, k: nat) =>
      if relevant == [] || k == 0 then ZERO else QueryByHits(d, relevant, ranked, k)
  }

  predicate Predicted(predictions: seq<Prediction>, id: string) {
    exists i :: 0 <= i < |predictions| && predictions[i].id == id
  }

  predicate PredictionsOk(predictions: seq<Prediction>) {
    forall i, j :: 0 <= i < j < |predictions| ==> predictions[i].id != predictions[j].id
  }

  function ById(predictions: seq<Prediction>): map<string, seq<string>> {
    if predictions == [] then map[] else
      var n := |predictions| - 1;
      ById(predictions[..n])[predictions[n].id := predictions[n].ranked]
  }

  lemma {:induction false} ByIdKeys(predictions: seq<Prediction>, id: string)
    ensures id in ById(predictions) <==> Predicted(predictions, id)
  {
    if predictions != [] {
      var n := |predictions| - 1;
      ByIdKeys(predictions[..n], id);
      assert forall i :: 0 <= i < n ==> predictions[..n][i] == predictions[i];
    }
  }

  lemma PredictionsOkSnoc(predictions: seq<Prediction>, n: nat)
    requires n < |predictions| && PredictionsOk(predictions[..n])
    ensures PredictionsOk(predictions[..n + 1]) <==> predictions[n].id !in ById(predictions[..n])
    ensures PredictionsOk(predictions) ==> PredictionsOk(predictions[..n + 1])
  {
    ByIdKeys(predictions[..n], predictions[n].id);
    var a, b := predictions[..n], predictions[..n + 1];
    assert b[n] == predictions[n] && forall i :: 0 <= i < n ==> b[i] == a[i];
  }

  method IndexPredictions(predictions: seq<Prediction>) returns (byId: Option<map<string, seq<string>>>)
    ensures byId == if PredictionsOk(predictions) then Some(ById(predictions)) else None
  {
    var index: map<string, seq<string>> := map[];
    for n := 0 to |predictions|
      invariant PredictionsOk(predictions[..n]) && index == ById(predictions[..n])
    {
      PredictionsOkSnoc(predictions, n);
      if predictions[n].id in index {
        return None;
      }
      index := index[predictions[n].id := predictions[n].ranked];
      assert predictions[..n + 1][..n] == predictions[..n];
    }
    assert predictions[..|predictions|] == predictions;
    byId := Some(index);
  }

  predicate Judged(judgments: seq<Judgment>, id: string) {
    exists i :: 0 <= i < |judgments| && judgments[i].id == id
  }

  /** Ids differ, and labelled queries have a prediction. */
  predicate JudgmentsOk(judgments: seq<Judgment>, byId: map<string, seq<string>>) {
    && (forall i, j :: 0 <= i < j < |judgments| ==> judgments[i].id != judgments[j].id)
    && forall i :: 0 <= i < |judgments| && judgments[i].relevant != [] ==> judgments[i].id in byId
  }

  lemma JudgmentsOkSnoc(judgments: seq<Judgment>, byId: map<string, seq<string>>, n: nat)
    requires n < |judgments| && JudgmentsOk(judgments[..n], byId)
    ensures JudgmentsOk(judgments[..n + 1], byId) <==>
            !Judged(judgments[..n], judgments[n].id) && (judgments[n].relevant != [] ==> judgments[n].id in byId)
    ensures forall id :: Judged(judgments[..n + 1], id) <==> Judged(judgments[..n], id) || judgments[n].id == id
    ensures JudgmentsOk(judgments, byId) ==> JudgmentsOk(judgments[..n + 1], byId)
  {
    var a, b := judgments[..n], judgments[..n + 1];
    assert b[n] == judgments[n] && forall i :: 0 <= i < n ==> b[i] == a[i];
    forall id
      ensures Judged(b, id) <==> Judged(a, id) || judgments[n].id == id
    {
      assert b[n] == judgments[n] && forall i :: 0 <= i < n ==> b[i] == a[i];
    }
  }

  /** The number of labelled queries and the sum over them. */
  function LabelledTotal(score: Score, judgments: seq<Judgment>, byId: map<string, seq<string>>, k: nat): Report
    requires forall i :: 0 <= i < |judgments| && judgments[i].relevant != [] ==> judgments[i].id in byId
  {
    if judgments == [] then Report(0, ZERO) else
      var n := |judgments| - 1;
      var before := LabelledTotal(score, judgments[..n], byId, k);
      if judgments[n].relevant == [] then before
      else Report(before.queries + 1, before.metrics.Plus(score(judgments[n].relevant, byId[judgments[n].id], k)))
  }

  lemma LabelledSnoc(score: Score, judgments: seq<Judgment>, byId: map<string, seq<string>>, k: nat, n: nat)
    requires n < |judgments| && forall i :: 0 <= i <= n && judgments[i].relevant != [] ==> judgments[i].id in byId
    ensures var before, j := LabelledTotal(score, judgments[..n], byId, k), judgments[n];
            LabelledTotal(score, judgments[..n + 1], byId, k) ==
            if j.relevant == [] then before
            else Report(before.queries + 1, before.metrics.Plus(score(j.relevant, byId[j.id], k)))
  {
    assert judgments[..n + 1][..n] == judgments[..n];
  }

  /** The loop over the judgments of the offline evaluator. */
  method TotalJudgments(score: Score, judgments: seq<Judgment>, byId: map<string, seq<string>>, k: nat)
    returns (r: Option<Report>)
    ensures r.Some? <==> JudgmentsOk(judgments, byId)
    ensures r.Some? ==> r.value == LabelledTotal(score, judgments, byId, k)
  {
    var total, count: nat := ZERO, 0;
    var seen: set<string> := {};
    for n := 0 to |judgments|
      invariant JudgmentsOk(judgments[..n], byId) && forall id :: id in seen <==> Judged(judgments[..n], id)
      invariant Report(count, total) == LabelledTotal(score, judgments[..n], byId, k)
    {
      var judgment := judgments[n];
      JudgmentsOkSnoc(judgments, byId, n);
      if judgment.id in seen {
        return None;
      }
      seen := seen + {judgment.id};
      if judgment.relevant != [] && judgment.id !in byId {
        return None;
      }
      LabelledSnoc(score, judgments, byId, k, n);
      if judgment.relevant != [] {
        total := total.Plus(score(judgment.relevant, byId[judgment.id], k));
        count := count + 1;
      }
    }
    assert judgments[..|judgments|] == judgments;
    r := Some(Report(count, total));
  }

  /** What the offline evaluator reports; `None` stands for a ValueError. */
  function JudgmentsReport(score: Score, judgments: seq<Judgment>, predictions: seq<Prediction>, k: int): Option<Report> {
    if k <= 0 || !PredictionsOk(predictions) || !JudgmentsOk(judgments, ById(predictions)) then None else
      var total := LabelledTotal(score, judgments, ById(predictions), k);
      if total.queries == 0 then None else Some(Report(total.queries, total.metrics.Over(total.queries)))
  }

  /** `evaluate` of the offline evaluator. */
  method EvaluateJudgments(score: Score, judgments: seq<Judgment>, predictions: seq<Prediction>, k: int) returns (r: Option<Report>)
    ensures r == JudgmentsReport(score, judgments, predictions, k)
  {
    if k <= 0 {
      return None;
    }
    var index := IndexPredictions(predictions);
    if index.None? {
      return None;
    }
    var total := TotalJudgments(score, judgments, index.value, k);
    if total.None? || total.value.queries == 0 {
      return None;
    }
    r := Some(Report(total.value.queries, total.value.metrics.Over(total.value.queries)));
  }

  // ----- The evaluators agree -----

  function JudgmentsOf(rows: seq<Row>): seq<Judgment> {
    seq(|rows|, i requires 0 <= i < |rows| => Judgment(rows[i].id, rows[i].relevant))
  }

  function PredictionsOf(rows: seq<Row>): seq<Prediction> {
    seq(|rows|, i requires 0 <= i < |rows| => Prediction(rows[i].id, rows[i].ranked))
  }

  lemma {:induction false} ByIdFinds(rows: seq<Row>, i: nat)
    requires RowsOk(rows) && i < |rows|
    ensures rows[i].id in ById(PredictionsOf(rows)) && ById(PredictionsOf(rows))[rows[i].id] == rows[i].ranked
  {
    var n := |rows| - 1;
    assert PredictionsOf(rows)[..n] == PredictionsOf(rows[..n]);
    if i < n {
      ByIdFinds(rows[..n], i);
      assert rows[i].id != rows[n].id;
    }
  }

  lemma {:induction false} TotalsAgree(score: Score, other: Score, rows: seq<Row>, byId: map<string, seq<string>>, k: nat)
    requires forall i :: 0 <= i < |rows| ==> rows[i].relevant != [] && rows[i].id in byId && byId[rows[i].id] == rows[i].ranked
    requires forall relevant, ranked :: score(relevant, ranked, k) == other(relevant, ranked, k)
    ensures LabelledTotal(other, JudgmentsOf(rows), byId, k) == Report(|rows|, RowTotal(score, rows, k))
  {
    if rows != [] {
      var n := |rows| - 1;
      TotalsAgree(score, other, rows[..n], byId, k);
      assert JudgmentsOf(rows)[..n] == JudgmentsOf(rows[..n]);
    }
  }

  /** On the same labelled queries both evaluators total the same metrics. */
  lemma TotalsOfBothAgree(d: nat -> real, rows: seq<Row>, k: nat)
    requires Discounts(d) && RowsOk(rows)
    ensures PredictionsOk(PredictionsOf(rows)) && JudgmentsOk(JudgmentsOf(rows), ById(PredictionsOf(rows)))
    ensures LabelledTotal(HitScorer(d), JudgmentsOf(rows), ById(PredictionsOf(rows)), k)
         == Report(|rows|, RowTotal(Scorer(d), rows, k))
  {
    var byId := ById(PredictionsOf(rows));
    forall i | 0 <= i < |rows|
      ensures rows[i].id in byId && byId[rows[i].id] == rows[i].ranked
    {
      ByIdFinds(rows, i);
    }
    forall relevant, ranked
      ensures Scorer(d)(relevant, ranked, k) == HitScorer(d)(relevant, ranked, k)
    {
      if relevant != [] && k > 0 {
        QueriesAgree(d, relevant, ranked, k);
      }
    }
    TotalsAgree(Scorer(d), HitScorer(d), rows, byId, k);
  }

  /**
   * On the same labelled queries both evaluators accept the data, and for every cutoff that the benchmark is asked for
   * once the offline evaluator reports the benchmark's averages.
   */
  lemma EvaluatorsAgree(d: nat -> real, rows: seq<Row>, ks: seq<int>, k: nat)
    requires Discounts(d) && rows != [] && RowsOk(rows) && Count(ks, k) == 1 && forall i :: 0 <= i < |ks| ==> ks[i] > 0
    ensures RowsReport(Scorer(d), rows, ks).Some? && k in RowsReport(Scorer(d), rows, ks).value
    ensures JudgmentsReport(HitScorer(d), JudgmentsOf(rows), PredictionsOf(rows), k)
         == Some(Report(|rows|, RowsReport(Scorer(d), rows, ks).value[k]))
  {
    TotalsOfBothAgree(d, rows, k);
    CountedIsIn(ks, k);
    TimesOne(RowTotal(Scorer(d), rows, k));
  }

  // ----- Averages -----

  /** All three metrics lie between 0 and `n`. */
  predicate Within(m: Metrics, n: nat) {
    0.0 <= m.recall <= n as real && 0.0 <= m.mrr <= n as real && 0.0 <= m.ndcg <= n as real
  }

  lemma ScoreWithin(d: nat -> real, relevant: seq<string>, ranked: seq<string>, k: nat)
    requires Discounts(d)
    ensures Within(Scorer(d)(relevant, ranked, k), 1)
  {
    if relevant != [] && k > 0 {
      RecallGrows(d, relevant, ranked, k, k);
      MrrGrows(d, relevant, ranked, k, k);
      NdcgBounds(d, relevant, ranked, k);
    }
  }

  lemma WithinPlus(a: Metrics, n: nat, b: Metrics)
    requires Within(a, n) && Within(b, 1)
    ensures Within(a.Plus(b), n + 1)
  {
    assert (n + 1) as real == n as real + 1.0;
  }

  lemma {:induction false} TotalWithin(d: nat -> real, rows: seq<Row>, k: nat)
    requires Discounts(d)
    ensures Within(RowTotal(Scorer(d), rows, k), |rows|)
  {
    if rows != [] {
      var n := |rows| - 1;
      TotalWithin(d, rows[..n], k);
      ScoreWithin(d, rows[n].relevant, rows[n].ranked, k);
      WithinPlus(RowTotal(Scorer(d), rows[..n], k), n, Scorer(d)(rows[n].relevant, rows[n].ranked, k));
    }
  }

  lemma WithinOver(m: Metrics, n: nat)
    requires n > 0 && Within(m, n)
    ensures Within(m.Over(n), 1)
  {
    Ratio(m.recall, n as real);
    Ratio(m.mrr, n as real);
    Ratio(m.ndcg, n as real);
  }

  /** The benchmark's averages at a cutoff that is listed once lie between 0 and 1. */
  lemma AveragesWithin(d: nat -> real, rows: seq<Row>, ks: seq<int>, k: nat)
    requires Discounts(d) && RowsReport(Scorer(d), rows, ks).Some? && Count(ks, k) == 1
    ensures k in RowsReport(Scorer(d), rows, ks).value && Within(RowsReport(Scorer(d), rows, ks).value[k], 1)
  {
    CountedIsIn(ks, k);
    TimesOne(RowTotal(Scorer(d), rows, k));
    TotalWithin(d, rows, k);
    WithinOver(RowTotal(Scorer(d), rows, k), |rows|);
  }

  // ----- What is an error, and what is ignored -----

  /** An id, a relevant source, and no source without a name. */
  predicate Named(row: Row) {
    row.id != "" && row.relevant != [] && "" !in row.relevant && "" !in row.ranked
  }

  lemma NamedIsOk(rows: seq<Row>)
    ensures (forall i :: 0 <= i < |rows| ==> RowOk(rows[i])) <==> (forall row :: row in rows ==> Named(row))
  {
    assert forall row :: RowOk(row) <==> Named(row);
  }

  /** The benchmark reports exactly on rows that are all named, with different ids, at positive cutoffs. */
  lemma RowsReportIff(score: Score, rows: seq<Row>, ks: seq<int>)
    ensures RowsReport(score, rows, ks).Some? <==>
              && rows != [] && (forall row :: row in rows ==> Named(row)) && (forall k :: k in ks ==> k > 0)
              && forall i, j :: 0 <= i < j < |rows| ==> rows[i].id != rows[j].id
  {
    NamedIsOk(rows);
    if i :| 0 <= i < |ks| && ks[i] <= 0 {
      assert ks[i] in ks;
    }
  }

  lemma {:induction false} TotalWithoutUnlabelled(score: Score, a: seq<Judgment>, j: Judgment, b: seq<Judgment>,
                                                  byId: map<string, seq<string>>, k: nat)
    requires j.relevant == []
    requires forall i :: 0 <= i < |a + b| && (a + b)[i].relevant != [] ==> (a + b)[i].id in byId
    requires forall i :: 0 <= i < |a + [j] + b| && (a + [j] + b)[i].relevant != [] ==> (a + [j] + b)[i].id in byId
    ensures LabelledTotal(score, a + [j] + b, byId, k) == LabelledTotal(score, a + b, byId, k)
  {
    if b == [] {
      assert (a + [j] + b)[..|a|] == a && a + b == a;
    } else {
      var n := |b| - 1;
      assert (a + [j] + b)[..|a| + 1 + n] == a + [j] + b[..n];
      assert (a + b)[..|a| + n] == a + b[..n];
      assert forall i :: 0 <= i < |a| + n ==> (a + b[..n])[i] == (a + b)[i];
      assert forall i :: 0 <= i < |a| + 1 + n ==> (a + [j] + b[..n])[i] == (a + [j] + b)[i];
      TotalWithoutUnlabelled(score, a, j, b[..n], byId, k);
    }
  }

  /** Where element `i` of `a + b` stands in `a + [j] + b`. */
  function Shifted(n: nat, i: nat): nat {
    if i < n then i else i + 1
  }

  lemma ShiftedAt(a: seq<Judgment>, j: Judgment, b: seq<Judgment>, i: nat)
    requires i < |a + b|
    ensures (a + [j] + b)[Shifted(|a|, i)] == (a + b)[i] && (a + [j] + b)[|a|] == j
  {
  }

  lemma UnlabelledKeepsOk(a: seq<Judgment>, j: Judgment, b: seq<Judgment>, byId: map<string, seq<string>>)
    requires j.relevant == [] && !Judged(a + b, j.id) && JudgmentsOk(a + b, byId)
    ensures JudgmentsOk(a + [j] + b, byId)
  {
    var n, with := |a|, a + [j] + b;
    forall i: nat | i < |with|
      ensures with[i] == if i == n then j else (a + b)[if i < n then i else i - 1]
    {
      if i != n {
        ShiftedAt(a, j, b, if i < n then i else i - 1);
      }
    }
  }

  lemma OkWithoutUnlabelled(a: seq<Judgment>, j: Judgment, b: seq<Judgment>, byId: map<string, seq<string>>)
    requires JudgmentsOk(a + [j] + b, byId)
    ensures JudgmentsOk(a + b, byId)
  {
    forall i: nat | i < |a + b|
      ensures (a + b)[i] == (a + [j] + b)[Shifted(|a|, i)]
    {
      ShiftedAt(a, j, b, i);
    }
  }

  /** A query without labels changes nothing, whether or not there is a prediction for it. */
  lemma UnlabelledIsIgnored(score: Score, a: seq<Judgment>, j: Judgment, b: seq<Judgment>, predictions: seq<Prediction>, k: int)
    requires j.relevant == [] && !Judged(a + b, j.id)
    ensures JudgmentsReport(score, a + [j] + b, predictions, k) == JudgmentsReport(score, a + b, predictions, k)
  {
    if JudgmentsOk(a + b, ById(predictions)) {
      UnlabelledKeepsOk(a, j, b, ById(predictions));
    } else if JudgmentsOk(a + [j] + b, ById(predictions)) {
      OkWithoutUnlabelled(a, j, b, ById(predictions));
    }
    if k > 0 && JudgmentsOk(a + b, ById(predictions)) {
      TotalWithoutUnlabelled(score, a, j, b, ById(predictions), k);
    }
  }
}
