/** The beam search of `generate`, loop by loop, on a network with cached key and value rows. */
module BeamGenerate {
  import opened PyData
  import opened Utf8
  import opened Softmax
  import opened Transformer
  import opened CachedDecoding
  import opened GenerationContract
  import opened Generation
  import opened EarlyStop
  import opened BeamSearch

  // ----- Log probabilities -----

  /** `shifted - log(exp(shifted).sum())` with `shifted = values - values.max()` */
  function LogSoftmax(exp: PosFn, log: real -> real, values: Row): (lp: seq<real>)
    requires values != []
    ensures |lp| == |values|
  {
    var max := values[Argmax(values, |values|)];
    var total := log(Total(exp, Finites(values), max));
    seq(|values|, i requires 0 <= i < |values| => values[i] - max - total)
  }

  /** All that the search needs to know about the exponential and the logarithm. */
  ghost predicate Logarithmic(exp: PosFn, log: real -> real) {
    exp(0.0) == 1.0 && forall x :: x >= 1.0 ==> log(x) >= 0.0
  }

  lemma {:induction false} TotalCoversEntry(exp: PosFn, scores: seq<Score>, max: real, i: nat)
    requires i < |scores|
    ensures Power(exp, scores[i], max) <= Total(exp, scores, max)
  {
    if i < |scores| - 1 {
      TotalCoversEntry(exp, scores[..|scores| - 1], max, i);
    }
  }

  /** Log probabilities are never positive. */
  lemma LogSoftmaxNonpositive(exp: PosFn, log: real -> real, values: Row)
    requires Logarithmic(exp, log) && values != []
    ensures forall i :: 0 <= i < |values| ==> LogSoftmax(exp, log, values)[i] <= 0.0
  {
    var best := Argmax(values, |values|);
    TotalCoversEntry(exp, Finites(values), values[best], best);
  }

  /** Marks the quotients whose logarithm is taken. */
  predicate Divides(a: real, t: real) {
    true
  }

  /** Subtracting a logarithm divides. */
  ghost predicate LogDivides(exp: PosFn, log: real -> real) {
    forall a, t {:trigger Divides(a, t)} :: Divides(a, t) && t > 0.0 ==> exp(a - log(t)) == exp(a) / t
  }

  /** Subtracting `l` from `a` divides by `t`. */
  predicate DividesAt(exp: PosFn, l: real, t: real, a: real)
    requires t > 0.0
  {
    exp(a - l) == exp(a) / t
  }

  predicate IsQuotient(exp: PosFn, a: real, t: real, w: real)
    requires t > 0.0
  {
    w == exp(a) / t
  }

  lemma DividedPower(exp: PosFn, log: real -> real, t: real, a: real)
    requires t > 0.0
    ensures LogDivides(exp, log) ==> DividesAt(exp, log(t), t, a)
  {
    assert Divides(a, t);
  }

  lemma DividedPowers(exp: PosFn, log: real -> real, xs: seq<real>, t: real)
    requires t > 0.0
    ensures LogDivides(exp, log) ==> forall i :: 0 <= i < |xs| ==> DividesAt(exp, log(t), t, xs[i])
  {
    forall i | 0 <= i < |xs|
      ensures LogDivides(exp, log) ==> DividesAt(exp, log(t), t, xs[i])
    {
      DividedPower(exp, log, t, xs[i]);
    }
  }

  lemma DividedAreQuotients(exp: PosFn, values: Row, max: real, total: real, xs: seq<real>, ws: seq<real>)
    requires total > 0.0 && |xs| == |values| && forall i :: 0 <= i < |values| ==> xs[i] == values[i] - max
    ensures Divided(exp, Finites(values), max, total, ws) ==>
              |ws| == |xs| && forall i :: 0 <= i < |xs| ==> IsQuotient(exp, xs[i], total, ws[i])
  {
    if Divided(exp, Finites(values), max, total, ws) {
      forall i | 0 <= i < |xs|
        ensures IsQuotient(exp, xs[i], total, ws[i])
      {
        PowerOfNumber(exp, Finites(values)[i], values[i], max);
      }
    }
  }

  lemma LogSoftmaxEntries(exp: PosFn, log: real -> real, values: Row, max: real, total: real, xs: seq<real>)
    requires values != [] && max == values[Argmax(values, |values|)] && total == Total(exp, Finites(values), max)
    requires |xs| == |values| && forall i :: 0 <= i < |values| ==> xs[i] == values[i] - max
    ensures forall i :: 0 <= i < |xs| ==> LogSoftmax(exp, log, values)[i] == xs[i] - log(total)
  {
  }

  /** What both the log probabilities and the softmax weights of a row are made of: shifted logits and a normaliser. */
  lemma Normaliser(exp: PosFn, log: real -> real, values: Row, ws: seq<real>) returns (xs: seq<real>, total: real)
    requires values != [] && SomeFinite(Finites(values)) && ws == Weights(exp, Finites(values))
    ensures |xs| == |values| == |ws| && total > 0.0
    ensures forall i :: 0 <= i < |xs| ==> IsQuotient(exp, xs[i], total, ws[i])
    ensures forall i :: 0 <= i < |xs| ==> LogSoftmax(exp, log, values)[i] == xs[i] - log(total)
  {
    LargestIs(Finites(values), values);
    var max := values[Argmax(values, |values|)];
    xs := seq(|values|, i requires 0 <= i < |values| => values[i] - max);
    total := Total(exp, Finites(values), max);
    LogSoftmaxEntries(exp, log, values, max, total, xs);
    WeightsDivided(exp, Finites(values), max, total);
    DividedAreQuotients(exp, values, max, total, xs, ws);
  }

  lemma PowersOfLogs(exp: PosFn, xs: seq<real>, l: real, t: real, lp: seq<real>, ws: seq<real>)
    requires |lp| == |ws| == |xs| && t > 0.0
    requires forall i :: 0 <= i < |xs| ==> lp[i] == xs[i] - l
    requires forall i :: 0 <= i < |xs| ==> IsQuotient(exp, xs[i], t, ws[i])
    requires forall i :: 0 <= i < |xs| ==> DividesAt(exp, l, t, xs[i])
    ensures forall i :: 0 <= i < |xs| ==> exp(lp[i]) == ws[i]
  {
  }

  /** The log probabilities are the logarithms of the softmax weights. */
  lemma LogSoftmaxIsLogOfSoftmax(exp: PosFn, log: real -> real, values: Row)
    requires LogDivides(exp, log) && values != []
    ensures SomeFinite(Finites(values))
    ensures forall i :: 0 <= i < |values| ==> exp(LogSoftmax(exp, log, values)[i]) == Weights(exp, Finites(values))[i]
  {
    assert Finites(values)[0].Fin?;
    var xs, total := Normaliser(exp, log, values, Weights(exp, Finites(values)));
    DividedPowers(exp, log, xs, total);
    PowersOfLogs(exp, xs, log(total), total, LogSoftmax(exp, log, values), Weights(exp, Finites(values)));
  }

  /** They keep the differences of the logits. */
  lemma LogSoftmaxKeepsDifferences(exp: PosFn, log: real -> real, values: Row, i: nat, j: nat)
    requires i < |values| && j < |values|
    ensures LogSoftmax(exp, log, values)[i] - LogSoftmax(exp, log, values)[j] == values[i] - values[j]
  {
  }

  function LogProbs(net: Net, log: real -> real, finite: Row -> bool, tokens: seq<Byte>): Option<seq<real>>
    requires Usable(net) && tokens != [] && Logits(net, tokens) != []
  {
    var values := Logits(net, tokens);
    if finite(values) then Some(LogSoftmax(net.exp, log, values)) else None
  }

  /** The log probabilities of the search are those of the network. */
  ghost predicate Scores(net: Net, log: real -> real, finite: Row -> bool, task: Task) {
    && Usable(net) && task.prefix != [] && task.logp([]) == None
    && (forall x :: |net.readout(x)| == 256)
    && (forall tokens {:trigger Asked(tokens)} ::
          Asked(tokens) && tokens != [] ==> task.logp(tokens) == LogProbs(net, log, finite, tokens))
  }

  /** A search on the network's log probabilities meets the condition under which stopping early is sound. */
  lemma NetworkIsProbabilistic(net: Net, log: real -> real, finite: Row -> bool, task: Task)
    requires Scores(net, log, finite, task) && Logarithmic(net.exp, log)
    ensures Probabilistic(task)
  {
    forall tokens | task.logp(tokens).Some?
      ensures Nonpositive(task.logp(tokens).value)
    {
      assert Asked(tokens) && tokens != [];
      LogSoftmaxNonpositive(net.exp, log, Logits(net, tokens));
    }
  }

  // ----- The loops -----

  method CachedLogProbs(net: Net, log: real -> real, finite: Row -> bool, task: Task, logits: CachedLogits, c: Candidate)
    returns (lp: Option<seq<real>>)
    requires Scores(net, log, finite, task) && logits.Valid() && logits.w == net
    modifies logits`current
    ensures logits.Valid() && lp == Logp(task, c)
  {
    var tokens := task.prefix + c.body;
    assert Asked(tokens);
    var values := logits.Call(tokens);
    lp := if finite(values) then Some(LogSoftmax(net.exp, log, values)) else None;
  }

  /** The best candidate that has ended, the first of them on a tie. */
  function FallbackOf(ends: seq<Candidate>): Option<Candidate> {
    if ends == [] then None else Some(FirstMax(ends, ByScore()))
  }

  /** The loop variables of one depth. */
  datatype Level = Level(expanded: seq<Candidate>, finished: seq<Candidate>, fallback: Option<Candidate>)

  /** What they are once `grown` has been added to the depth and `ends` have ended since the start. */
  function LevelOf(task: Task, grown: seq<Candidate>, ends: seq<Candidate>): Level {
    Level(grown, Kept(task, ends), FallbackOf(ends))
  }

  /** One round of the innermost loop. */
  function Absorb(task: Task, l: Level, candidate: Candidate, token: Byte): Level {
    if token != 0 then l.(expanded := l.expanded + [candidate])
    else
      Level(l.expanded,
            if task.accept(candidate.body) then l.finished + [candidate] else l.finished,
            if l.fallback.None? || candidate.score > l.fallback.value.score then Some(candidate) else l.fallback)
  }

  lemma AbsorbEnd(task: Task, grown: seq<Candidate>, ends: seq<Candidate>, c: Candidate)
    ensures Absorb(task, LevelOf(task, grown, ends), c, 0) == LevelOf(task, grown, ends + [c])
  {
    assert (ends + [c])[..|ends|] == ends;
  }

  /** The loop variables after the bytes `top`, from `grown` and `ends` before them. */
  function LevelAfter(task: Task, grown: seq<Candidate>, ends: seq<Candidate>, c: Candidate, lp: seq<real>,
                      top: seq<Byte>): Level {
    LevelOf(task, grown + Grown(c, lp, top), ends + Ended(c, lp, top))
  }

  lemma AbsorbStep(task: Task, grown: seq<Candidate>, ends: seq<Candidate>, c: Candidate, lp: seq<real>,
                   top: seq<Byte>, i: nat)
    requires i < |top|
    ensures LevelAfter(task, grown, ends, c, lp, top[..i + 1]) ==
            Absorb(task, LevelAfter(task, grown, ends, c, lp, top[..i]), Child(c, lp, top[i]), top[i])
  {
    assert top[..i + 1][..i] == top[..i];
    var g, e := grown + Grown(c, lp, top[..i]), ends + Ended(c, lp, top[..i]);
    var child := Child(c, lp, top[i]);
    if top[i] == 0 {
      AbsorbEnd(task, g, e, child);
      assert ends + Ended(c, lp, top[..i + 1]) == e + [child];
      assert grown + Grown(c, lp, top[..i + 1]) == g;
    } else {
      assert grown + Grown(c, lp, top[..i + 1]) == g + [child];
      assert ends + Ended(c, lp, top[..i + 1]) == e;
    }
  }

  /** The innermost loop: the continuations of one parent by the bytes `top`. */
  method ExpandOne(task: Task, c: Candidate, lp: seq<real>, top: seq<Byte>, start: Level,
                   ghost grown: seq<Candidate>, ghost ends: seq<Candidate>)
    returns (level: Level)
    requires start == LevelOf(task, grown, ends)
    ensures level == LevelAfter(task, grown, ends, c, lp, top)
  {
    level := start;
    assert grown + [] == grown && ends + [] == ends;
    for i := 0 to |top|
      invariant level == LevelAfter(task, grown, ends, c, lp, top[..i])
    {
      var token := top[i];
      var candidate := Child(c, lp, token);
      AbsorbStep(task, grown, ends, c, lp, top, i);
      if token != 0 {
        level := level.(expanded := level.expanded + [candidate]);
      } else {
        var best := level.fallback;
        if best.None? || candidate.score > best.value.score {
          level := level.(fallback := Some(candidate));
        }
        if task.accept(c.body) {
          level := level.(finished := level.finished + [candidate]);
        }
      }
    }
    assert top[..|top|] == top;
  }

  /** The loop variables after the parents `beam`, from `ends` before them. */
  function DepthAfter(task: Task, ends: seq<Candidate>, beam: seq<Candidate>): Level
    requires AllFinite(task, beam)
  {
    LevelOf(task, GrownAll(task, beam), ends + EndedAll(task, beam))
  }

  lemma DepthStep(task: Task, ends: seq<Candidate>, beam: seq<Candidate>, i: nat, lp: seq<real>)
    requires i < |beam| && AllFinite(task, beam[..i]) && Logp(task, beam[i]) == Some(lp)
    ensures AllFinite(task, beam[..i + 1])
    ensures DepthAfter(task, ends, beam[..i + 1]) ==
            LevelAfter(task, GrownAll(task, beam[..i]), ends + EndedAll(task, beam[..i]), beam[i], lp, TopTokens(lp))
  {
    AllSnoc(task, beam, i, lp);
    Regroup(ends, EndedAll(task, beam[..i]), Ended(beam[i], lp, TopTokens(lp)));
  }

  lemma Regroup<T>(a: seq<T>, b: seq<T>, c: seq<T>)
    ensures a + (b + c) == (a + b) + c
  {
  }

  lemma AllSnoc(task: Task, beam: seq<Candidate>, i: nat, lp: seq<real>)
    requires i < |beam| && AllFinite(task, beam[..i]) && Logp(task, beam[i]) == Some(lp)
    ensures AllFinite(task, beam[..i + 1])
    ensures GrownAll(task, beam[..i + 1]) == GrownAll(task, beam[..i]) + Grown(beam[i], lp, TopTokens(lp))
    ensures EndedAll(task, beam[..i + 1]) == EndedAll(task, beam[..i]) + Ended(beam[i], lp, TopTokens(lp))
  {
    assert beam[..i + 1][..i] == beam[..i];
  }

  /** One round of the loop over the beam. */
  method ExpandNext(net: Net, log: real -> real, finite: Row -> bool, task: Task, logits: CachedLogits,
                    beam: seq<Candidate>, i: nat, level: Level, ghost ends: seq<Candidate>)
    returns (r: Option<Level>)
    requires Scores(net, log, finite, task) && logits.Valid() && logits.w == net
    requires i < |beam| && AllFinite(task, beam[..i]) && level == DepthAfter(task, ends, beam[..i])
    modifies logits`current
    ensures logits.Valid()
    ensures r.Some? <==> Logp(task, beam[i]).Some?
    ensures r.Some? ==> AllFinite(task, beam[..i + 1]) && r.value == DepthAfter(task, ends, beam[..i + 1])
  {
    var lp := CachedLogProbs(net, log, finite, task, logits, beam[i]);
    if lp.None? {
      return None;
    }
    DepthStep(task, ends, beam, i, lp.value);
    var l := ExpandOne(task, beam[i], lp.value, TopTokens(lp.value), level,
                       GrownAll(task, beam[..i]), ends + EndedAll(task, beam[..i]));
    r := Some(l);
  }

  lemma DepthStart(task: Task, ends: seq<Candidate>)
    ensures DepthAfter(task, ends, []) == LevelOf(task, [], ends)
  {
    assert ends + [] == ends;
  }

  lemma WholeBeam(task: Task, ends: seq<Candidate>, beam: seq<Candidate>)
    requires AllFinite(task, beam[..|beam|])
    ensures AllFinite(task, beam) && DepthAfter(task, ends, beam[..|beam|]) == DepthAfter(task, ends, beam)
  {
    assert beam[..|beam|] == beam;
  }

  /** The loop over the beam at one depth; `None` stands for the error of a logit that is not a number. */
  method ExpandBeam(net: Net, log: real -> real, finite: Row -> bool, task: Task, logits: CachedLogits,
                    beam: seq<Candidate>, finished: seq<Candidate>, fallback: Option<Candidate>,
                    ghost ends: seq<Candidate>)
    returns (r: Option<Level>)
    requires Scores(net, log, finite, task) && logits.Valid() && logits.w == net
    requires Level([], finished, fallback) == LevelOf(task, [], ends)
    modifies logits`current
    ensures logits.Valid()
    ensures r == if AllFinite(task, beam) then Some(DepthAfter(task, ends, beam)) else None
  {
    var level := Level([], finished, fallback);
    DepthStart(task, ends);
    for i := 0 to |beam|
      invariant logits.Valid() && AllFinite(task, beam[..i])
      invariant level == DepthAfter(task, ends, beam[..i])
    {
      var next := ExpandNext(net, log, finite, task, logits, beam, i, level, ends);
      if next.None? {
        return None;
      }
      level := next.value;
    }
    WholeBeam(task, ends, beam);
    r := Some(level);
  }

  /** The choice after the loop, from the accepted candidates, the fallback and the beam. */
  method Choose(task: Task, beam: seq<Candidate>, finished: seq<Candidate>, fallback: Option<Candidate>,
                ghost ends: seq<Candidate>)
    returns (winner: Candidate, reason: Finish)
    requires Answerable(Search(beam, ends))
    requires finished == Kept(task, ends) && fallback == FallbackOf(ends)
    ensures (winner, reason) == Winner(task, Search(beam, ends))
    ensures Chosen(task, Search(beam, ends), winner, reason)
  {
    WinnerIsChosen(task, Search(beam, ends));
    if finished == [] && fallback.None? {
      winner := FirstMax(beam, ByScore());
    } else {
      var choices := if finished != [] then finished else [fallback.value];
      winner := FirstMax(choices, ByScore());
    }
    reason := if finished != [] || (fallback.Some? && beam == []) then Eos else Length;
    if finished == [] && beam != [] {
      if fallback.Some? {
        FallbackOrBeam(fallback.value, beam);
        winner := FirstMax([fallback.value] + beam, ByScore());
        reason := if FirstMax(beam, ByScore()).score <= fallback.value.score then Eos else Length;
      } else {
        winner := FirstMax(beam, ByScore());
        reason := Length;
      }
    }
  }

  lemma RunStep(task: Task, s: Search, left: nat)
    requires left > 0
    ensures !AllFinite(task, s.beam) ==> Run(task, s, left) == None
    ensures AllFinite(task, s.beam) ==>
      var s' := Deeper(task, s);
      Run(task, s, left) == if Settled(task, s') || s'.beam == [] then Some(s') else Run(task, s', left - 1)
  {
  }

  /** Marks the states whose run is looked up. */
  predicate Reached(s: Search, left: nat) {
    true
  }

  /** `end` names the state in which a run ends, so that the loop's proof does not unfold the run. */
  ghost predicate NamesRun(end: (Search, nat) -> Option<Search>, task: Task) {
    forall s: Search, left: nat {:trigger Reached(s, left)} :: Reached(s, left) ==> end(s, left) == Run(task, s, left)
  }

  /** The body of the depth loop: the state one depth further on, and whether the loop breaks there. */
  method OneDepth(net: Net, log: real -> real, finite: Row -> bool, task: Task, logits: CachedLogits,
                  beam: seq<Candidate>, finished: seq<Candidate>, fallback: Option<Candidate>,
                  ghost s: Search, ghost left: nat, ghost end: (Search, nat) -> Option<Search>)
    returns (ok: bool, stop: bool, beam': seq<Candidate>, finished': seq<Candidate>, fallback': Option<Candidate>,
             ghost s': Search)
    requires Scores(net, log, finite, task) && logits.Valid() && logits.w == net && left > 0 && NamesRun(end, task)
    requires s.beam == beam != [] && finished == Kept(task, s.ends) && fallback == FallbackOf(s.ends)
    modifies logits
    ensures logits.Valid()
    ensures !ok ==> end(s, left) == None
    ensures ok ==> end(s, left) == if stop then Some(s') else end(s', left - 1)
    ensures s'.beam == beam' != [] && finished' == Kept(task, s'.ends) && fallback' == FallbackOf(s'.ends)
  {
    ok, stop, beam', finished', fallback', s' := false, false, beam, finished, fallback, s;
    RunStep(task, s, left);
    assert Reached(s, left);
    var level := ExpandBeam(net, log, finite, task, logits, beam, finished, fallback, s.ends);
    if level.None? {
      return;
    }
    DeeperNonEmpty(task, s);
    s' := Deeper(task, s);
    assert Reached(s', left - 1);
    logits.NextDepth();
    ok, beam' := true, Take(SortDesc(level.value.expanded, ByScore()), WIDTH);
    finished', fallback' := level.value.finished, level.value.fallback;
    if finished' != [] && (beam' == [] || FirstMax(finished', ByScore()).score >= beam'[0].score) {
      stop := true;
    } else if beam' == [] {
      stop := true;
    }
  }

  lemma EndsAtOnce(end: (Search, nat) -> Option<Search>, task: Task, s: Search)
    requires NamesRun(end, task)
    ensures end(s, 0) == Some(s)
  {
    assert Reached(s, 0);
  }

  /** The depth loop, from any state. */
  method DepthLoop(net: Net, log: real -> real, finite: Row -> bool, task: Task, budget: nat,
                   beam0: seq<Candidate>, finished0: seq<Candidate>, fallback0: Option<Candidate>, ghost s0: Search,
                   ghost end: (Search, nat) -> Option<Search>)
    returns (ok: bool, beam: seq<Candidate>, finished: seq<Candidate>, fallback: Option<Candidate>, ghost s: Search)
    requires Scores(net, log, finite, task) && NamesRun(end, task)
    requires s0.beam == beam0 != [] && finished0 == Kept(task, s0.ends) && fallback0 == FallbackOf(s0.ends)
    ensures end(s0, budget) == if ok then Some(s) else None
    ensures s.beam == beam != [] && finished == Kept(task, s.ends) && fallback == FallbackOf(s.ends)
  {
    var logits := new CachedLogits(net);
    beam, finished, fallback, s := beam0, finished0, fallback0, s0;
    var step := 0;
    while step < budget
      invariant step <= budget && logits.Valid() && logits.w == net && fresh(logits)
      invariant s.beam == beam != [] && finished == Kept(task, s.ends) && fallback == FallbackOf(s.ends)
      invariant end(s0, budget) == end(s, budget - step)
    {
      var stop;
      ok, stop, beam, finished, fallback, s :=
        OneDepth(net, log, finite, task, logits, beam, finished, fallback, s, budget - step, end);
      if !ok || stop {
        return;
      }
      step := step + 1;
    }
    ok := true;
    EndsAtOnce(end, task, s);
  }

  /** `generate` after its prompt is built: the winner of the search, or the error it meets. */
  method Generate(net: Net, log: real -> real, finite: Row -> bool, task: Task, budget: nat)
    returns (r: Outcome<(Candidate, Finish)>)
    requires Scores(net, log, finite, task)
    ensures |task.prefix| > net.context ==> r == Raised(ContextExceeded)
    ensures |task.prefix| <= net.context ==>
      match Run(task, START, budget)
      case None => r == Raised(NonFinite)
      case Some(end) => r.Returned? && Answerable(end) && r.value == Winner(task, end) && Chosen(task, end, r.value.0, r.value.1)
  {
    if |task.prefix| > net.context {
      return Raised(ContextExceeded);
    }
    var ok, beam, finished, fallback;
    ghost var s;
    ghost var end := (s: Search, left: nat) => Run(task, s, left);
    assert Reached(START, budget);
    ok, beam, finished, fallback, s := DepthLoop(net, log, finite, task, budget, START.beam, [], None, START, end);
    if !ok {
      return Raised(NonFinite);
    }
    var winner, reason := Choose(task, beam, finished, fallback, s.ends);
    r := Returned((winner, reason));
  }

  // ----- The whole of `generate` -----

  /** The answer at the end of a search, which `None` says has met a logit that is not a number. */
  function AnswerAt(b: Backend, payload: Request, header: Text, task: Task, end: Option<Search>): Outcome<Response> {
    if FormatPrompt(payload, b.promptBytes).None? then Raised(PromptTooLong)
    else if |task.prefix| > b.net.context then Raised(ContextExceeded)
    else match end
      case None => Raised(NonFinite)
      case Some(s) => match Answer(task)(s)
        case None => Raised(NonFinite)
        case Some((winner, reason)) => Checked(Response(b.modelId, header + Decode(winner.body), winner.count, reason))
  }

  /** What the beam search answers. */
  function BeamAnswer(b: Backend, payload: Request, header: Text, task: Task): Outcome<Response> {
    AnswerAt(b, payload, header, task, Run(task, START, payload.maxNewTokens))
  }

  /** The search's task is about this prompt and header, `acceptable` being the structural test of a whole text. */
  ghost predicate Poses(b: Backend, payload: Request, header: Text, acceptable: Text -> bool, task: Task) {
    && (FormatPrompt(payload, b.promptBytes).Some? ==> task.prefix == Encode(FormatPrompt(payload, b.promptBytes).value + header))
    && forall body :: task.accept(body) == acceptable(header + Decode(body))
  }

  method BeamResponse(b: Backend, log: real -> real, payload: Request, header: Text, task: Task) returns (r: Outcome<Response>)
    requires Usable(b.net) && Scores(b.net, log, b.finite, task)
    ensures r == BeamAnswer(b, payload, header, task)
  {
    if FormatPrompt(payload, b.promptBytes).None? {
      return Raised(PromptTooLong);
    }
    var found := Generate(b.net, log, b.finite, task, payload.maxNewTokens);
    match found
    case Raised(f) => r := Raised(f);
    case Returned((winner, reason)) => r := Checked(Response(b.modelId, header + Decode(winner.body), winner.count, reason));
  }

  /** `generate`: the greedy answer where there is one, else the winner of the beam search. */
  method GenerateFunction(b: Backend, log: real -> real, payload: Request, header: Text, declared: bool,
                          keep: Text -> bool, acceptable: Text -> bool, task: Task)
    returns (r: Outcome<Response>)
    requires Ready(b) && Scores(b.net, log, b.finite, task) && Poses(b, payload, header, acceptable, task)
    ensures r == match LegacyAnswer(b, payload, declared, keep)
                 case Raised(f) => Raised(f)
                 case Returned(Some(greedy)) => Returned(greedy)
                 case Returned(None) => BeamAnswer(b, payload, header, task)
  {
    var legacy := LegacyFunction(b, payload, declared, keep);
    match legacy
    case Raised(f) => r := Raised(f);
    case Returned(Some(greedy)) => r := Returned(greedy);
    case Returned(None) => r := BeamResponse(b, log, payload, header, task);
  }

  lemma AnswerIsWinner(b: Backend, payload: Request, header: Text, task: Task)
    requires BeamAnswer(b, payload, header, task).Returned?
    ensures Run(task, START, payload.maxNewTokens).Some?
    ensures Answerable(Run(task, START, payload.maxNewTokens).value)
    ensures var (winner, reason) := Winner(task, Run(task, START, payload.maxNewTokens).value);
            BeamAnswer(b, payload, header, task).value == Response(b.modelId, header + Decode(winner.body), winner.count, reason)
  {
  }

  /**
   * An answer of the search counts one token per byte of its body, and one more for the end byte when it ended; when
   * anything accepted has ended, the answer is an accepted text that ended.
   */
  lemma BeamAnswerIsCounted(b: Backend, payload: Request, header: Text, acceptable: Text -> bool, task: Task)
    requires Poses(b, payload, header, acceptable, task) && BeamAnswer(b, payload, header, task).Returned?
    ensures Run(task, START, payload.maxNewTokens).Some?
    ensures var end := Run(task, START, payload.maxNewTokens).value;
            var r := BeamAnswer(b, payload, header, task).value;
            && (exists body :: r.output == header + Decode(body) && r.generatedTokens == |body| + if r.finish == Eos then 1 else 0)
            && (Kept(task, end.ends) != [] ==> r.finish == Eos && acceptable(r.output))
  {
    AnswerIsWinner(b, payload, header, task);
    WinnerIsScored(task, payload.maxNewTokens);
    var (winner, reason) := Winner(task, Run(task, START, payload.maxNewTokens).value);
    assert BeamAnswer(b, payload, header, task).value.output == header + Decode(winner.body);
  }

  lemma SameAnswer(b: Backend, payload: Request, header: Text, task: Task, x: Option<Search>, y: Option<Search>)
    requires x.Some? && y.Some? && Answer(task)(x.value) == Answer(task)(y.value)
    ensures AnswerAt(b, payload, header, task, x) == AnswerAt(b, payload, header, task, y)
  {
  }

  /** Whenever the search to the full budget returns, `generate` answers with its winner, early stop or not. */
  lemma BeamAnswerIsFullSearch(b: Backend, log: real -> real, payload: Request, header: Text, task: Task)
    requires Scores(b.net, log, b.finite, task) && Logarithmic(b.net.exp, log)
    requires FullRun(task, START, payload.maxNewTokens).Some?
    ensures BeamAnswer(b, payload, header, task) == AnswerAt(b, payload, header, task, FullRun(task, START, payload.maxNewTokens))
  {
    NetworkIsProbabilistic(b.net, log, b.finite, task);
    EarlyStopIsSound(task, START, payload.maxNewTokens);
    SameAnswer(b, payload, header, task, Run(task, START, payload.maxNewTokens), FullRun(task, START, payload.maxNewTokens));
  }

  lemma ScoredByNetwork(net: Net, log: real -> real, finite: Row -> bool, task: Task, c: Candidate)
    requires Scores(net, log, finite, task)
    ensures var values := Logits(net, task.prefix + c.body);
            values != [] && Logp(task, c) == if finite(values) then Some(LogSoftmax(net.exp, log, values)) else None
  {
    assert Asked(task.prefix + c.body);
  }

  lemma PosedPrefix(b: Backend, payload: Request, header: Text, acceptable: Text -> bool, task: Task, body: seq<Byte>)
    requires Poses(b, payload, header, acceptable, task) && FormatPrompt(payload, b.promptBytes).Some?
    ensures Encode(FormatPrompt(payload, b.promptBytes).value) + Encode(header) + body == task.prefix + body
  {
    EncodeConcat(FormatPrompt(payload, b.promptBytes).value, header);
  }

  /**
   * The search scores bytes after the prompt's text, the header and the candidate's body, in that order, and not at all
   * when a logit is not a number.
   */
  lemma SearchReadsPrompt(b: Backend, log: real -> real, payload: Request, header: Text, acceptable: Text -> bool, task: Task,
                          c: Candidate)
    requires Scores(b.net, log, b.finite, task) && Poses(b, payload, header, acceptable, task)
    requires FormatPrompt(payload, b.promptBytes).Some?
    ensures Encode(FormatPrompt(payload, b.promptBytes).value) + Encode(header) + c.body != []
    ensures var values := Logits(b.net, Encode(FormatPrompt(payload, b.promptBytes).value) + Encode(header) + c.body);
            values != [] && Logp(task, c) == if b.finite(values) then Some(LogSoftmax(b.net.exp, log, values)) else None
  {
    PosedPrefix(b, payload, header, acceptable, task, c.body);
    ScoredByNetwork(b.net, log, b.finite, task, c);
  }

  /** An answer of the search is the header and the text of the candidate chosen at its end, with its count and reason. */
  lemma BeamAnswerIsChosen(b: Backend, payload: Request, header: Text, task: Task) returns (c: Candidate)
    requires BeamAnswer(b, payload, header, task).Returned?
    ensures Run(task, START, payload.maxNewTokens).Some?
    ensures var r := BeamAnswer(b, payload, header, task).value;
            && Chosen(task, Run(task, START, payload.maxNewTokens).value, c, r.finish)
            && r == Response(b.modelId, header + Decode(c.body), c.count, r.finish) && ResponseOk(r)
  {
    var end := Run(task, START, payload.maxNewTokens).value;
    WinnerIsChosen(task, end);
    c := Winner(task, end).0;
  }
}
