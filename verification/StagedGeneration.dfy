/** The staged run on a single checkpoint, and how it compares with the routed one. */
module StagedGeneration {
  import opened PyData
  import opened GenerationContract
  import opened StagedRouting

  datatype Record = Record(stage: Stage, request: Request, response: Option<Response>, failed: bool)

  datatype Result = Result(stages: seq<Record>, completed: bool, code: Text, modelId: string, tokens: nat)

  /** Tokens over budget, a changed identity, an empty output or a cut one. */
  predicate Refused(u: Setting, r: Response, budget: int, seen: string) {
    r.generatedTokens > budget || (seen != "" && r.modelId != seen) || Blank(u, r.output) || r.finish != Eos
  }

  /** The identity recorded once the budget and identity checks have passed. */
  function SeenAfter(r: Response, budget: int, seen: string): string {
    if r.generatedTokens > budget || (seen != "" && r.modelId != seen) then seen else r.modelId
  }

  /** The record of one stage; a request that does not fit counts as a failed stage, and `None` is an escaping exception. */
  function StageRecord(u: Setting, b: Backend, task: Text, budget: int, s: Stage, prior: seq<Text>, seen: string): Option<Record> {
    var q := u.request(s, task, prior);
    if !u.fits(q) then Some(Record(s, q, None, true))
    else match b.reply(s, q)
      case Crashed => None
      case Raised(_) => Some(Record(s, q, None, true))
      case Replied(r) => Some(Record(s, q, Some(r), Refused(u, r, budget, seen)))
  }

  function Used(c: Record): nat {
    if c.response.Some? then c.response.value.generatedTokens else 0
  }

  function Seen(c: Record, budget: int, seen: string): string {
    if c.response.Some? then SeenAfter(c.response.value, budget, seen) else seen
  }

  /** The rest of a run, from stage `|prior|` on. */
  function StagedFrom(u: Setting, b: Backend, task: Text, budget: int, prior: seq<Text>, stages: seq<Record>,
                      seen: string, tokens: nat): Option<Result>
    requires |prior| <= 3
    decreases 3 - |prior|
  {
    if |prior| == 3 then Some(Result(stages, true, prior[2], seen, tokens)) else
      match StageRecord(u, b, task, budget, STAGES[|prior|], prior, seen)
      case None => None
      case Some(c) =>
        if c.failed || c.response.None? then Some(Result(stages + [c], false, [], Seen(c, budget, seen), tokens + Used(c)))
        else StagedFrom(u, b, task, budget, prior + [c.response.value.output], stages + [c], Seen(c, budget, seen), tokens + Used(c))
  }

  /** What `run_staged` returns; `whole` is the request that only validates the inputs. `None` stands for an escaping exception. */
  function Staged(u: Setting, b: Backend, task: Text, budget: int, whole: Request): Option<Result> {
    if !(1 <= budget <= 170) || !u.fits(whole) then None else StagedFrom(u, b, task, budget, [], [], "", 0)
  }

  /** The body of the loop over the stages, check by check; `None` when an exception escapes. */
  method RunOne(u: Setting, b: Backend, task: Text, budget: int, s: Stage, artifacts: seq<Text>, modelId: string, tokens: nat)
    returns (record: Option<Record>, modelId': string, tokens': nat)
    ensures record == StageRecord(u, b, task, budget, s, artifacts, modelId)
    ensures record.Some? ==> modelId' == Seen(record.value, budget, modelId) && tokens' == tokens + Used(record.value)
  {
    modelId', tokens' := modelId, tokens;
    var request := u.request(s, task, artifacts);
    if !u.fits(request) {
      return Some(Record(s, request, None, true)), modelId', tokens';
    }
    match b.reply(s, request) {
      case Crashed => record := None;
      case Raised(_) => record := Some(Record(s, request, None, true));
      case Replied(response) =>
        tokens' := tokens' + response.generatedTokens;
        var failed := true;
        if response.generatedTokens <= budget {
          if modelId' == "" || response.modelId == modelId' {
            modelId' := response.modelId;
            if !Blank(u, response.output) && response.finish == Eos {
              failed := false;
            }
          }
        }
        record := Some(Record(s, request, Some(response), failed));
    }
  }

  /** `run_staged` */
  method RunStaged(u: Setting, b: Backend, task: Text, budget: int, whole: Request) returns (r: Option<Result>)
    ensures r == Staged(u, b, task, budget, whole)
  {
    if !(1 <= budget <= 170) || !u.fits(whole) {
      return None;
    }
    var artifacts: seq<Text>, stages: seq<Record>, modelId, tokens: nat := [], [], "", 0;
    while |artifacts| < 3
      invariant |artifacts| <= 3
      invariant StagedFrom(u, b, task, budget, artifacts, stages, modelId, tokens) == Staged(u, b, task, budget, whole)
      decreases 3 - |artifacts|
    {
      var record;
      record, modelId, tokens := RunOne(u, b, task, budget, STAGES[|artifacts|], artifacts, modelId, tokens);
      if record.None? {
        return None;
      }
      var c := record.value;
      stages := stages + [c];
      if c.failed || c.response.None? {
        return Some(Result(stages, false, [], modelId, tokens));
      }
      artifacts := artifacts + [c.response.value.output];
    }
    r := Some(Result(stages, true, artifacts[2], modelId, tokens));
  }

  /** The response of an accepted stage, under the identity `id`. */
  predicate AcceptedUnder(u: Setting, c: Record, budget: int, id: string) {
    && !c.failed && c.response.Some? && c.response.value.modelId == id
    && c.response.value.generatedTokens <= budget && !Blank(u, c.response.value.output) && c.response.value.finish == Eos
  }

  lemma {:induction false} CompletedFromOne(u: Setting, b: Backend, task: Text, budget: int, prior: seq<Text>, stages: seq<Record>,
                                            seen: string, tokens: nat)
    requires |prior| == |stages| <= 3 && (seen == "" <==> stages == [])
    requires forall s, q {:trigger b.reply(s, q)} :: b.reply(s, q).Replied? ==> ResponseOk(b.reply(s, q).response)
    requires forall i :: 0 <= i < |stages| ==> AcceptedUnder(u, stages[i], budget, seen) && stages[i].response.value.output == prior[i]
    ensures var r := StagedFrom(u, b, task, budget, prior, stages, seen, tokens);
            r.Some? && r.value.completed ==>
              && |r.value.stages| == 3
              && (forall i :: 0 <= i < 3 ==> AcceptedUnder(u, r.value.stages[i], budget, r.value.modelId))
              && r.value.code == r.value.stages[2].response.value.output
    decreases 3 - |prior|
  {
    if |prior| < 3 {
      var record := StageRecord(u, b, task, budget, STAGES[|prior|], prior, seen);
      if record.Some? && !record.value.failed && record.value.response.Some? {
        var c := record.value;
        assert b.reply(STAGES[|prior|], c.request).Replied?;
        CompletedFromOne(u, b, task, budget, prior + [c.response.value.output], stages + [c], Seen(c, budget, seen), tokens + Used(c));
      }
    }
  }

  /** A completed run consists of three accepted responses of one checkpoint, and its code is the last of them. */
  lemma CompletedIsOneCheckpoint(u: Setting, b: Backend, task: Text, budget: int, whole: Request)
    requires forall s, q {:trigger b.reply(s, q)} :: b.reply(s, q).Replied? ==> ResponseOk(b.reply(s, q).response)
    requires Staged(u, b, task, budget, whole).Some? && Staged(u, b, task, budget, whole).value.completed
    ensures var r := Staged(u, b, task, budget, whole).value;
            && |r.stages| == 3 && (forall i :: 0 <= i < 3 ==> AcceptedUnder(u, r.stages[i], budget, r.modelId))
            && r.code == r.stages[2].response.value.output
  {
    CompletedFromOne(u, b, task, budget, [], [], "", 0);
  }

  /** The backend shows one nonempty identity, in its attribute and in every response. */
  ghost predicate Steady(b: Backend) {
    && b.modelId != "" && (forall s :: b.idAt(s) == b.modelId)
    && forall s, q {:trigger b.reply(s, q)} :: b.reply(s, q).Replied? ==> b.reply(s, q).response.modelId == b.modelId
  }

  /** A completed run's code and tokens, if it completes. */
  function StagedCode(r: Option<Result>): Option<(Text, nat)> {
    if r.Some? && r.value.completed then Some((r.value.code, r.value.tokens)) else None
  }

  function RoutedCode(t: Option<Trace>): Option<(Text, nat)> {
    if t.Some? && t.value.completed then Some((t.value.code, t.value.tokens)) else None
  }

  lemma StagesAgree(u: Setting, b: Backend, task: Text, s: Stage, prior: seq<Text>, seen: string)
    requires Steady(b) && (seen == "" || seen == b.modelId)
    ensures var a, c := StageCall(u, b, task, s, prior), StageRecord(u, b, task, BUDGET, s, prior, seen);
            && ((a.Some? && !Failed(u, a.value)) <==> (c.Some? && !c.value.failed))
            && (c.Some? && !c.value.failed ==> c.value.response.Some? && a.value.response == c.value.response && Seen(c.value, BUDGET, seen) == b.modelId)
  {
    assert b.reply(s, u.request(s, task, prior)).Replied? ==> b.reply(s, u.request(s, task, prior)).response.modelId == b.modelId;
  }

  lemma {:induction false} RunsAgree(u: Setting, b: Backend, task: Text, prior: seq<Text>, calls: seq<Call>,
                                     stages: seq<Record>, seen: string, tokens: nat)
    requires |prior| <= 3 && Steady(b) && (seen == "" || seen == b.modelId)
    ensures RoutedCode(RunFrom(u, Pair(b, b), task, prior, calls, tokens))
         == StagedCode(StagedFrom(u, b, task, BUDGET, prior, stages, seen, tokens))
    decreases 3 - |prior|
  {
    if |prior| < 3 {
      var s := STAGES[|prior|];
      StagesAgree(u, b, task, s, prior, seen);
      var a, c := StageCall(u, b, task, s, prior), StageRecord(u, b, task, BUDGET, s, prior, seen);
      if c.Some? && !c.value.failed {
        var output, spent := c.value.response.value.output, c.value.response.value.generatedTokens;
        RunsAgree(u, b, task, prior + [output], calls + [a.value], stages + [c.value], b.modelId, tokens + spent);
      }
    }
  }

  /** With one steady backend in both roles, routing completes exactly when the staged run does, with the same code and token count. */
  lemma RoutedIsStaged(u: Setting, b: Backend, task: Text, whole: Request)
    requires Steady(b) && u.fits(whole)
    ensures RoutedCode(Routed(u, Pair(b, b), task)) == StagedCode(Staged(u, b, task, BUDGET, whole))
  {
    RunsAgree(u, b, task, [], [], [], "", 0);
  }

  // ----- What a run asks for and returns -----

  function RecordOutput(c: Record): Text {
    if c.response.Some? then c.response.value.output else []
  }

  function RecordOutputs(stages: seq<Record>): (r: seq<Text>)
    ensures |r| == |stages|
  {
    seq(|stages|, i requires 0 <= i < |stages| => RecordOutput(stages[i]))
  }

  function TokensUsed(stages: seq<Record>): nat {
    if stages == [] then 0 else TokensUsed(stages[..|stages| - 1]) + Used(stages[|stages| - 1])
  }

  /** Record `i` is for stage `i`, and asks for the task with the outputs of the stages before it. */
  predicate RecordInPlace(u: Setting, task: Text, stages: seq<Record>, i: nat)
    requires i < |stages| <= 3
  {
    var c := stages[i];
    c.stage == [Specification, Plan, Code][i] && c.request == u.request(c.stage, task, RecordOutputs(stages[..i]))
  }

  /** The stage has been accepted: within the budget, not blank and ended. */
  predicate RecordPasses(u: Setting, c: Record, budget: int) {
    && !c.failed && c.response.Some? && c.response.value.generatedTokens <= budget
    && (exists i :: 0 <= i < |c.response.value.output| && !u.blank(c.response.value.output[i])) && c.response.value.finish == Eos
  }

  /** What a returned result consists of. */
  predicate IsStagedRun(u: Setting, task: Text, budget: int, r: Result) {
    && 1 <= |r.stages| <= 3 && r.tokens == TokensUsed(r.stages)
    && (forall i :: 0 <= i < |r.stages| ==> RecordInPlace(u, task, r.stages, i))
    && (forall i :: 0 <= i < |r.stages| - 1 ==> RecordPasses(u, r.stages[i], budget))
    && (r.completed <==> |r.stages| == 3 && RecordPasses(u, r.stages[2], budget))
    && (r.completed ==> r.code == r.stages[2].response.value.output)
    && (!r.completed ==> r.code == [] && !RecordPasses(u, r.stages[|r.stages| - 1], budget))
  }

  predicate RecordsProgress(u: Setting, task: Text, budget: int, prior: seq<Text>, stages: seq<Record>, tokens: nat) {
    && |stages| == |prior| <= 3 && prior == RecordOutputs(stages) && tokens == TokensUsed(stages)
    && forall i :: 0 <= i < |stages| ==> RecordInPlace(u, task, stages, i) && RecordPasses(u, stages[i], budget)
  }

  lemma RecordsSnoc(stages: seq<Record>, c: Record)
    ensures RecordOutputs(stages + [c]) == RecordOutputs(stages) + [RecordOutput(c)]
    ensures TokensUsed(stages + [c]) == TokensUsed(stages) + Used(c)
  {
    assert (stages + [c])[..|stages|] == stages;
  }

  lemma StageRecordIs(u: Setting, b: Backend, task: Text, budget: int, s: Stage, prior: seq<Text>, seen: string, c: Record)
    requires StageRecord(u, b, task, budget, s, prior, seen) == Some(c)
    ensures c.stage == s && c.request == u.request(s, task, prior)
    ensures (c.failed || c.response.None?) <==> !RecordPasses(u, c, budget)
  {
  }

  lemma RecordsStay(u: Setting, task: Text, stages: seq<Record>, c: Record)
    requires |stages| < 3 && forall i :: 0 <= i < |stages| ==> RecordInPlace(u, task, stages, i)
    requires c.stage == STAGES[|stages|] && c.request == u.request(c.stage, task, RecordOutputs(stages))
    ensures forall i :: 0 <= i < |stages + [c]| ==> RecordInPlace(u, task, stages + [c], i)
  {
    forall i | 0 <= i < |stages + [c]|
      ensures RecordInPlace(u, task, stages + [c], i)
    {
      if i < |stages| {
        assert RecordInPlace(u, task, stages, i) && (stages + [c])[..i] == stages[..i];
      } else {
        assert (stages + [c])[..i] == stages;
      }
    }
  }

  lemma RecordProgresses(u: Setting, b: Backend, task: Text, budget: int, prior: seq<Text>, stages: seq<Record>, seen: string,
                         tokens: nat, c: Record, id: string)
    requires RecordsProgress(u, task, budget, prior, stages, tokens) && |prior| < 3
    requires StageRecord(u, b, task, budget, STAGES[|prior|], prior, seen) == Some(c)
    ensures if c.failed || c.response.None?
            then IsStagedRun(u, task, budget, Result(stages + [c], false, [], id, tokens + Used(c)))
            else RecordsProgress(u, task, budget, prior + [c.response.value.output], stages + [c], tokens + Used(c))
  {
    StageRecordIs(u, b, task, budget, STAGES[|prior|], prior, seen, c);
    RecordsSnoc(stages, c);
    RecordsStay(u, task, stages, c);
  }

  lemma {:induction false} StagedFromIs(u: Setting, b: Backend, task: Text, budget: int, prior: seq<Text>, stages: seq<Record>,
                                        seen: string, tokens: nat, r: Result)
    requires RecordsProgress(u, task, budget, prior, stages, tokens)
    requires StagedFrom(u, b, task, budget, prior, stages, seen, tokens) == Some(r)
    ensures IsStagedRun(u, task, budget, r)
    decreases 3 - |prior|
  {
    if |prior| == 3 {
      assert RecordOutputs(stages)[2] == RecordOutput(stages[2]);
    } else {
      var c := StageRecord(u, b, task, budget, STAGES[|prior|], prior, seen).value;
      RecordProgresses(u, b, task, budget, prior, stages, seen, tokens, c, Seen(c, budget, seen));
      if !c.failed && c.response.Some? {
        StagedFromIs(u, b, task, budget, prior + [c.response.value.output], stages + [c], Seen(c, budget, seen), tokens + Used(c), r);
      }
    }
  }

  /**
   * A run asks for the stages in order, each with the outputs of all stages before it; it stops at the first that does
   * not pass, completes when three have passed, and its code is the last output.
   */
  lemma StagedIsOrdered(u: Setting, b: Backend, task: Text, budget: int, whole: Request)
    requires Staged(u, b, task, budget, whole).Some?
    ensures IsStagedRun(u, task, budget, Staged(u, b, task, budget, whole).value)
  {
    StagedFromIs(u, b, task, budget, [], [], "", 0, Staged(u, b, task, budget, whole).value);
  }

  // ----- Which budgets are valid -----

  lemma {:induction false} StagedReturns(u: Setting, b: Backend, task: Text, budget: int, prior: seq<Text>, stages: seq<Record>,
                                         seen: string, tokens: nat)
    requires |prior| <= 3 && forall s, q {:trigger b.reply(s, q)} :: !b.reply(s, q).Crashed?
    ensures StagedFrom(u, b, task, budget, prior, stages, seen, tokens).Some?
    decreases 3 - |prior|
  {
    if |prior| < 3 {
      var s := STAGES[|prior|];
      assert !b.reply(s, u.request(s, task, prior)).Crashed?;
      var c := StageRecord(u, b, task, budget, s, prior, seen).value;
      if !c.failed && c.response.Some? {
        StagedReturns(u, b, task, budget, prior + [c.response.value.output], stages + [c], Seen(c, budget, seen), tokens + Used(c));
      }
    }
  }

  /** Unless an exception escapes, a run returns exactly on valid inputs: three stages of the budget make at most 512 tokens. */
  lemma ReturnsIffBudgetFits(u: Setting, b: Backend, task: Text, budget: int, whole: Request)
    requires forall s, q {:trigger b.reply(s, q)} :: !b.reply(s, q).Crashed?
    ensures Staged(u, b, task, budget, whole).Some? <==> u.fits(whole) && budget >= 1 && 3 * budget <= 512
  {
    StagedReturns(u, b, task, budget, [], [], "", 0);
  }

  /** A completed run has stayed within three budgets. */
  lemma CompletedWithinBudgets(u: Setting, b: Backend, task: Text, budget: int, whole: Request)
    requires Staged(u, b, task, budget, whole).Some? && Staged(u, b, task, budget, whole).value.completed
    ensures Staged(u, b, task, budget, whole).value.tokens <= 3 * budget <= 512
  {
    var r := Staged(u, b, task, budget, whole).value;
    StagedIsOrdered(u, b, task, budget, whole);
    assert TokensUsed(r.stages) == Used(r.stages[0]) + Used(r.stages[1]) + Used(r.stages[2]) by {
      var s := r.stages;
      assert s[..2][..1] == s[..1] && s[..1][..0] == [];
      assert s[..2][1] == s[1] && s[..1][0] == s[0];
      assert TokensUsed(s[..2]) == TokensUsed(s[..1]) + Used(s[1]);
    }
  }

  /** A stage lets an exception escape exactly when its request is in order and the backend crashes on it. */
  lemma RecordEscapesIff(u: Setting, b: Backend, task: Text, budget: int, s: Stage, prior: seq<Text>, seen: string)
    ensures StageRecord(u, b, task, budget, s, prior, seen).None? <==>
            u.fits(u.request(s, task, prior)) && b.reply(s, u.request(s, task, prior)).Crashed?
  {
  }
}
