/** The routed three-stage pipeline and the offline auditor of its traces. */
module StagedRouting {
  import opened PyData
  import opened Utf8
  import opened GenerationContract

  datatype Stage = Specification | Plan | Code

  datatype Role = Planner | Coder

  datatype Call = Call(stage: Stage, role: Role, expected: string, request: Request, response: Option<Response>, error: string)

  datatype Trace = Trace(completed: bool, code: Text, stages: seq<Call>, tokens: nat, notRun: bool)

  /** What a call of a backend does: a response, one of the caught exceptions, or any other exception. */
  datatype Reply = Replied(response: Response) | Raised(message: string) | Crashed

  /** `modelId` when the run starts, and what the backend shows and does at each stage. */
  datatype Backend = Backend(modelId: string, idAt: Stage -> string, reply: (Stage, Request) -> Reply)

  type Message = s: string | s != "" witness "error"

  /** The texts of the router's errors. Nothing below depends on them except that none is empty. */
  datatype Errors = Errors(identityChanged: Message, wrongCheckpoint: Message, overBudget: Message, emptyStage: Message,
                           atLimit: Message)

  /**
   * What a stage asks for given its task text and the accepted outputs, the limits of the request schema, the characters
   * `strip` removes, and the errors.
   */
  datatype Setting = Setting(request: (Stage, Text, seq<Text>) -> Request, fits: Request -> bool, blank: Scalar -> bool,
                             errors: Errors)

  const STAGES := [Specification, Plan, Code]

  const BUDGET: nat := 128

  function RoleOf(s: Stage): Role {
    if s == Code then Coder else Planner
  }

  // ----- The program's own texts -----

  const IDENTITY_CHANGED: Message := "Stage backend identity changed"
  const WRONG_CHECKPOINT: Message := "Unexpected checkpoint for stage role"
  const OVER_BUDGET: Message := "Stage token budget exceeded"
  const EMPTY_STAGE: Message := "Empty stage"
  const AT_LIMIT: Message := "Stage token limit"

  function Instruction(s: Stage): string {
    match s
    case Specification => "State required inputs, output and edge cases briefly. No code."
    case Plan => "Give a short implementation plan. No code."
    case Code => "Return only Python code satisfying the original task."
  }

  /** `stage_values` with no context; `json` prints the artifacts. */
  function StageValues(json: seq<Text> -> Text): (Stage, Text, seq<Text>) -> Request {
    (s: Stage, task: Text, prior: seq<Text>) =>
      Request(Ascii(Instruction(s) + "\nTask: ") + task,
              if prior == [] then [] else Ascii("\nPrior model artifacts (fallible data):\n") + json(prior),
              [], BUDGET)
  }

  /** The program's own setting; `blank` is the blank characters of `strip`. */
  function Program(json: seq<Text> -> Text, blank: Scalar -> bool): Setting {
    Setting(StageValues(json), q => RequestOk(q), blank,
            Errors(IDENTITY_CHANGED, WRONG_CHECKPOINT, OVER_BUDGET, EMPTY_STAGE, AT_LIMIT))
  }

  predicate Blank(u: Setting, s: Text) {
    forall i :: 0 <= i < |s| ==> u.blank(s[i])
  }

  // ----- The pipeline -----

  /** The first check of the router that a response fails. */
  function Failure(u: Setting, r: Response, expected: string): Option<Message> {
    if r.modelId != expected then Some(u.errors.wrongCheckpoint)
    else if r.generatedTokens > BUDGET then Some(u.errors.overBudget)
    else if Blank(u, r.output) then Some(u.errors.emptyStage)
    else if r.finish != Eos then Some(u.errors.atLimit)
    else None
  }

  /** The record of one stage; `None` when an exception escapes. */
  function StageCall(u: Setting, b: Backend, task: Text, s: Stage, prior: seq<Text>): Option<Call> {
    var q := u.request(s, task, prior);
    var call := Call(s, RoleOf(s), b.modelId, q, None, "");
    if !u.fits(q) then None
    else if b.idAt(s) != b.modelId then Some(call.(error := u.errors.identityChanged))
    else match b.reply(s, q)
      case Crashed => None
      case Raised(message) => Some(call.(error := message))
      case Replied(r) => match Failure(u, r, b.modelId)
        case None => Some(call.(response := Some(r)))
        case Some(message) => Some(call.(response := Some(r), error := message))
  }

  function Spent(c: Call): nat {
    if c.response.Some? then c.response.value.generatedTokens else 0
  }

  /** An exception was recorded, possibly one without a message. */
  predicate Failed(u: Setting, c: Call) {
    c.response.None? || Failure(u, c.response.value, c.expected).Some?
  }

  datatype Pair = Pair(planner: Backend, coder: Backend) {
    function For(s: Stage): Backend {
      if s == Code then coder else planner
    }
  }

  /** The rest of a run, from stage `|prior|` on. */
  function RunFrom(u: Setting, p: Pair, task: Text, prior: seq<Text>, calls: seq<Call>, tokens: nat): Option<Trace>
    requires |prior| <= 3
    decreases 3 - |prior|
  {
    if |prior| == 3 then Some(Trace(true, prior[2], calls, tokens, true)) else
      var s := STAGES[|prior|];
      match StageCall(u, p.For(s), task, s, prior)
      case None => None
      case Some(c) =>
        if Failed(u, c) then Some(Trace(false, [], calls + [c], tokens + Spent(c), true))
        else RunFrom(u, p, task, prior + [c.response.value.output], calls + [c], tokens + Spent(c))
  }

  /** What `run_routed` returns; `None` when an exception escapes. */
  function Routed(u: Setting, p: Pair, task: Text): Option<Trace> {
    RunFrom(u, p, task, [], [], 0)
  }

  method RunStage(u: Setting, b: Backend, task: Text, s: Stage, prior: seq<Text>) returns (c: Option<Call>)
    ensures c == StageCall(u, b, task, s, prior)
  {
    var request := u.request(s, task, prior);
    if !u.fits(request) {
      return None;
    }
    var call := Call(s, RoleOf(s), b.modelId, request, None, "");
    if b.idAt(s) != b.modelId {
      return Some(call.(error := u.errors.identityChanged));
    }
    match b.reply(s, request) {
      case Crashed => return None;
      case Raised(message) => return Some(call.(error := message));
      case Replied(response) =>
        call := call.(response := Some(response));
        if response.modelId != b.modelId {
          call := call.(error := u.errors.wrongCheckpoint);
        } else if response.generatedTokens > BUDGET {
          call := call.(error := u.errors.overBudget);
        } else if Blank(u, response.output) {
          call := call.(error := u.errors.emptyStage);
        } else if response.finish != Eos {
          call := call.(error := u.errors.atLimit);
        }
        return Some(call);
    }
  }

  /** Holds always; an instance of it asks for the meaning of `rest` below. */
  predicate Reached(prior: seq<Text>, calls: seq<Call>, tokens: nat) {
    true
  }

  ghost predicate NamesRest(u: Setting, p: Pair, task: Text, rest: (seq<Text>, seq<Call>, nat) -> Option<Trace>) {
    forall prior, calls, tokens {:trigger Reached(prior, calls, tokens)} ::
      Reached(prior, calls, tokens) && |prior| <= 3 ==> rest(prior, calls, tokens) == RunFrom(u, p, task, prior, calls, tokens)
  }

  /** One turn of the loop: the trace to return, or the state to go on with. */
  method RunTurn(u: Setting, p: Pair, task: Text, prior: seq<Text>, stages: seq<Call>, tokens: nat,
                 ghost rest: (seq<Text>, seq<Call>, nat) -> Option<Trace>)
    returns (over: bool, r: Option<Trace>, prior': seq<Text>, stages': seq<Call>, tokens': nat)
    requires |prior| < 3 && NamesRest(u, p, task, rest)
    ensures over ==> r == rest(prior, stages, tokens)
    ensures !over ==> |prior'| == |prior| + 1 && rest(prior', stages', tokens') == rest(prior, stages, tokens)
  {
    assert Reached(prior, stages, tokens);
    prior', stages', tokens', over, r := prior, stages, tokens, true, None;
    var stage := STAGES[|prior|];
    var call := RunStage(u, p.For(stage), task, stage, prior);
    if call.Some? {
      stages' := stages + [call.value];
      tokens' := tokens + Spent(call.value);
      if Failed(u, call.value) {
        r := Some(Trace(false, [], stages', tokens', true));
      } else {
        over := false;
        prior' := prior + [call.value.response.value.output];
        assert Reached(prior', stages', tokens');
      }
    }
  }

  method RunLoop(u: Setting, p: Pair, task: Text, ghost rest: (seq<Text>, seq<Call>, nat) -> Option<Trace>)
    returns (r: Option<Trace>)
    requires NamesRest(u, p, task, rest)
    ensures r == rest([], [], 0)
  {
    var prior: seq<Text>, stages: seq<Call>, tokens: nat := [], [], 0;
    while |prior| < 3
      invariant |prior| <= 3 && rest(prior, stages, tokens) == rest([], [], 0)
      decreases 3 - |prior|
    {
      var over;
      over, r, prior, stages, tokens := RunTurn(u, p, task, prior, stages, tokens, rest);
      if over {
        return;
      }
    }
    assert Reached(prior, stages, tokens);
    r := Some(Trace(true, prior[2], stages, tokens, true));
  }

  /** `run_routed` */
  method RunRouted(u: Setting, p: Pair, task: Text) returns (r: Option<Trace>)
    ensures r == Routed(u, p, task)
  {
    ghost var rest := (prior: seq<Text>, calls: seq<Call>, tokens: nat) =>
      if |prior| <= 3 then RunFrom(u, p, task, prior, calls, tokens) else None;
    r := RunLoop(u, p, task, rest);
  }

  // ----- The auditor -----

  /** The error that the auditor expects beside a response. */
  function Reason(u: Setting, r: Response, id: string): string {
    if r.modelId != id then u.errors.wrongCheckpoint
    else if r.generatedTokens > BUDGET then u.errors.overBudget
    else if Blank(u, r.output) then u.errors.emptyStage
    else if r.finish != Eos then u.errors.atLimit
    else ""
  }

  /** The pinned identities the auditor is given. */
  datatype Identities = Identities(planner: string, coder: string) {
    function For(s: Stage): string {
      if s == Code then coder else planner
    }
  }

  predicate CallOk(u: Setting, ids: Identities, task: Text, c: Call, s: Stage, prior: seq<Text>) {
    var q := u.request(s, task, prior);
    && c.stage == s && c.role == RoleOf(s) && c.expected == ids.For(s) && u.fits(q) && c.request == q
    && match c.response
       case Some(r) => c.error == Reason(u, r, ids.For(s))
       case None => c.error != ""
  }

  /** The auditor's loop over the remaining calls, and its final checks. */
  predicate AuditFrom(u: Setting, ids: Identities, task: Text, t: Trace, i: nat, prior: seq<Text>, total: nat)
    requires i <= |t.stages| <= 3
    decreases |t.stages| - i
  {
    if i == |t.stages| then
      && t.code == (if t.completed && |prior| == 3 then prior[2] else [])
      && (t.completed ==> |prior| == 3) && t.tokens == total && t.notRun
    else
      var c := t.stages[i];
      && CallOk(u, ids, task, c, STAGES[i], prior)
      && (c.error != "" ==> i == |t.stages| - 1)
      && AuditFrom(u, ids, task, t, i + 1, if c.error == "" && c.response.Some? then prior + [c.response.value.output] else prior,
                   total + Spent(c))
  }

  /** `audit_trace` returns rather than raises. */
  predicate Accepted(u: Setting, ids: Identities, task: Text, t: Trace) {
    1 <= |t.stages| <= 3 && AuditFrom(u, ids, task, t, 0, [], 0)
  }

  /** The body of the loop of `audit_trace`: the checks of one call, and the state after it. */
  method AuditCall(u: Setting, ids: Identities, task: Text, call: Call, stage: Stage, last: bool, prior: seq<Text>, total: nat)
    returns (ok: bool, prior': seq<Text>, total': nat)
    ensures ok <==> CallOk(u, ids, task, call, stage, prior) && (call.error != "" ==> last)
    ensures ok ==> total' == total + Spent(call)
    ensures ok ==> prior' == if call.error == "" && call.response.Some? then prior + [call.response.value.output] else prior
  {
    ok, prior', total' := false, prior, total;
    var request := u.request(stage, task, prior);
    if call.stage != stage || call.role != RoleOf(stage) || call.expected != ids.For(stage) || !u.fits(request) || call.request != request {
      return;
    }
    if call.response.Some? {
      total' := total' + call.response.value.generatedTokens;
      if call.error != Reason(u, call.response.value, ids.For(stage)) {
        return;
      }
      if call.error == "" {
        prior' := prior' + [call.response.value.output];
      }
    } else if call.error == "" {
      return;
    }
    ok := call.error == "" || last;
  }

  /** A turn of the loop of `audit_trace`. */
  method AuditTurn(u: Setting, ids: Identities, task: Text, t: Trace, i: nat, prior: seq<Text>, total: nat)
    returns (ok: bool, prior': seq<Text>, total': nat)
    requires |prior| <= i < |t.stages| <= 3
    ensures AuditFrom(u, ids, task, t, i, prior, total) <==> ok && AuditFrom(u, ids, task, t, i + 1, prior', total')
    ensures ok ==> |prior'| <= i + 1
  {
    ok, prior', total' := AuditCall(u, ids, task, t.stages[i], STAGES[i], i == |t.stages| - 1, prior, total);
  }

  /** `audit_trace` */
  method AuditTrace(u: Setting, ids: Identities, task: Text, t: Trace) returns (ok: bool)
    ensures ok == Accepted(u, ids, task, t)
  {
    if !(1 <= |t.stages| <= 3) {
      return false;
    }
    var prior: seq<Text>, total: nat := [], 0;
    for i := 0 to |t.stages|
      invariant |prior| <= i
      invariant AuditFrom(u, ids, task, t, i, prior, total) == Accepted(u, ids, task, t)
    {
      var passed;
      passed, prior, total := AuditTurn(u, ids, task, t, i, prior, total);
      if !passed {
        return false;
      }
    }
    var expected := if t.completed && |prior| == 3 then prior[2] else [];
    ok := t.code == expected && (t.completed ==> |prior| == 3) && t.tokens == total && t.notRun;
  }

  // ----- Every run is accepted, except for exceptions without a message -----

  lemma ReasonIsFailure(u: Setting, r: Response, id: string)
    ensures Failure(u, r, id).None? <==> Reason(u, r, id) == ""
    ensures Failure(u, r, id).Some? ==> Failure(u, r, id).value == Reason(u, r, id)
  {
  }

  function Ids(p: Pair): Identities {
    Identities(p.planner.modelId, p.coder.modelId)
  }

  /** The one shape of a run's trace that the auditor refuses. */
  predicate Silent(t: Trace) {
    t.stages != [] && t.stages[|t.stages| - 1].response.None? && t.stages[|t.stages| - 1].error == ""
  }

  /** A stage's record passes the auditor's checks unless an exception without a message was recorded. */
  lemma StageCallOk(u: Setting, p: Pair, task: Text, prior: seq<Text>)
    requires |prior| < 3 && StageCall(u, p.For(STAGES[|prior|]), task, STAGES[|prior|], prior).Some?
    ensures var s := STAGES[|prior|];
            var c := StageCall(u, p.For(s), task, s, prior).value;
            && (CallOk(u, Ids(p), task, c, s, prior) <==> c.response.Some? || c.error != "")
            && (c.response.Some? ==> (Failed(u, c) <==> c.error != ""))
  {
    var s := STAGES[|prior|];
    var c := StageCall(u, p.For(s), task, s, prior).value;
    if c.response.Some? {
      ReasonIsFailure(u, c.response.value, c.expected);
    }
  }

  lemma {:induction false} RunExtends(u: Setting, p: Pair, task: Text, prior: seq<Text>, calls: seq<Call>, tokens: nat)
    requires |prior| <= 3 && |calls| == |prior|
    requires RunFrom(u, p, task, prior, calls, tokens).Some?
    ensures var t := RunFrom(u, p, task, prior, calls, tokens).value;
            |t.stages| <= 3 && calls <= t.stages && (|prior| < 3 ==> |calls| < |t.stages|)
    decreases 3 - |prior|
  {
    if |prior| < 3 {
      var s := STAGES[|prior|];
      var c := StageCall(u, p.For(s), task, s, prior).value;
      if !Failed(u, c) {
        RunExtends(u, p, task, prior + [c.response.value.output], calls + [c], tokens + Spent(c));
      }
    }
  }

  /** The auditor's loop passes a call without error to the calls after it. */
  lemma AuditGoesOn(u: Setting, ids: Identities, task: Text, t: Trace, prior: seq<Text>, total: nat)
    requires |prior| < |t.stages| <= 3
    requires var c := t.stages[|prior|]; c.response.Some? && c.error == "" && CallOk(u, ids, task, c, STAGES[|prior|], prior)
    ensures var c := t.stages[|prior|];
            AuditFrom(u, ids, task, t, |prior|, prior, total) ==
            AuditFrom(u, ids, task, t, |prior| + 1, prior + [c.response.value.output], total + Spent(c))
  {
  }

  /** The auditor's loop ends at the last call of a trace that is not complete. */
  lemma AuditEnds(u: Setting, ids: Identities, task: Text, t: Trace, prior: seq<Text>, total: nat)
    requires |prior| + 1 == |t.stages| <= 3 && t.code == [] && !t.completed && t.notRun
    requires t.tokens == total + Spent(t.stages[|prior|])
    ensures AuditFrom(u, ids, task, t, |prior|, prior, total) <==>
            CallOk(u, ids, task, t.stages[|prior|], STAGES[|prior|], prior)
  {
  }

  lemma StoppedIsAccepted(u: Setting, p: Pair, task: Text, prior: seq<Text>, calls: seq<Call>, c: Call, tokens: nat)
    requires |calls| == |prior| < 3 && Failed(u, c)
    requires StageCall(u, p.For(STAGES[|prior|]), task, STAGES[|prior|], prior) == Some(c)
    ensures var t := Trace(false, [], calls + [c], tokens + Spent(c), true);
            AuditFrom(u, Ids(p), task, t, |prior|, prior, tokens) <==> !Silent(t)
  {
    var t := Trace(false, [], calls + [c], tokens + Spent(c), true);
    assert t.stages[|prior|] == c;
    AuditEnds(u, Ids(p), task, t, prior, tokens);
    StageCallOk(u, p, task, prior);
  }

  lemma PassedGoesOn(u: Setting, p: Pair, task: Text, t: Trace, prior: seq<Text>, tokens: nat)
    requires |prior| < |t.stages| <= 3 && !Failed(u, t.stages[|prior|])
    requires StageCall(u, p.For(STAGES[|prior|]), task, STAGES[|prior|], prior) == Some(t.stages[|prior|])
    ensures var c := t.stages[|prior|];
            AuditFrom(u, Ids(p), task, t, |prior|, prior, tokens) ==
            AuditFrom(u, Ids(p), task, t, |prior| + 1, prior + [c.response.value.output], tokens + Spent(c))
  {
    StageCallOk(u, p, task, prior);
    AuditGoesOn(u, Ids(p), task, t, prior, tokens);
  }

  lemma CompleteIsAccepted(u: Setting, p: Pair, task: Text, prior: seq<Text>, calls: seq<Call>, tokens: nat, t: Trace)
    requires |calls| == |prior| == 3 && RunFrom(u, p, task, prior, calls, tokens) == Some(t)
    ensures |t.stages| == 3 && t.stages == calls && AuditFrom(u, Ids(p), task, t, 3, prior, tokens)
  {
  }

  /** What the next stage of a run that returns `t` does. */
  lemma NextStage(u: Setting, p: Pair, task: Text, prior: seq<Text>, calls: seq<Call>, tokens: nat, t: Trace)
    requires |prior| == |calls| < 3 && RunFrom(u, p, task, prior, calls, tokens) == Some(t)
    ensures |prior| < |t.stages| <= 3
    ensures var c := t.stages[|prior|];
            && StageCall(u, p.For(STAGES[|prior|]), task, STAGES[|prior|], prior) == Some(c)
            && if Failed(u, c) then t == Trace(false, [], calls + [c], tokens + Spent(c), true)
               else RunFrom(u, p, task, prior + [c.response.value.output], calls + [c], tokens + Spent(c)) == Some(t)
  {
    RunExtends(u, p, task, prior, calls, tokens);
    var c := StageCall(u, p.For(STAGES[|prior|]), task, STAGES[|prior|], prior).value;
    if !Failed(u, c) {
      RunExtends(u, p, task, prior + [c.response.value.output], calls + [c], tokens + Spent(c));
      assert (calls + [c])[|prior|] == c;
    }
  }

  lemma {:induction false} RunFromIsAccepted(u: Setting, p: Pair, task: Text, prior: seq<Text>, calls: seq<Call>, tokens: nat, t: Trace)
    requires |calls| == |prior| < 3 && RunFrom(u, p, task, prior, calls, tokens) == Some(t)
    ensures |prior| < |t.stages| <= 3
    ensures AuditFrom(u, Ids(p), task, t, |prior|, prior, tokens) <==> !Silent(t)
    decreases 3 - |prior|
  {
    NextStage(u, p, task, prior, calls, tokens, t);
    var c := t.stages[|prior|];
    if Failed(u, c) {
      StoppedIsAccepted(u, p, task, prior, calls, c, tokens);
    } else {
      PassedGoesOn(u, p, task, t, prior, tokens);
      if |prior| < 2 {
        RunFromIsAccepted(u, p, task, prior + [c.response.value.output], calls + [c], tokens + Spent(c), t);
      } else {
        CompleteIsAccepted(u, p, task, prior + [c.response.value.output], calls + [c], tokens + Spent(c), t);
      }
    }
  }

  /** Every trace that a run returns is accepted, unless the last stage recorded an exception with an empty message. */
  lemma RunIsAccepted(u: Setting, p: Pair, task: Text)
    requires Routed(u, p, task).Some?
    ensures Accepted(u, Ids(p), task, Routed(u, p, task).value) <==> !Silent(Routed(u, p, task).value)
  {
    RunFromIsAccepted(u, p, task, [], [], 0, Routed(u, p, task).value);
  }

  // ----- Every accepted trace that ends is a run -----

  /** The backends that repeat a trace. */
  function Repeating(t: Trace, ids: Identities): Pair {
    var reply := (s: Stage, q: Request) =>
      var i := if s == Specification then 0 else if s == Plan then 1 else 2;
      if i >= |t.stages| then Crashed
      else if t.stages[i].response.Some? then Replied(t.stages[i].response.value)
      else Raised(t.stages[i].error);
    Pair(Backend(ids.planner, s => ids.planner, reply), Backend(ids.coder, s => ids.coder, reply))
  }

  /** The trace reports completion or a failed stage; other traces were cut short. */
  predicate Ended(t: Trace) {
    t.completed || (t.stages != [] && t.stages[|t.stages| - 1].error != "")
  }

  /** A record the auditor passes is what the repeating backends produce. */
  lemma CallRepeats(u: Setting, ids: Identities, task: Text, t: Trace, i: nat, prior: seq<Text>)
    requires i < |t.stages| <= 3 && |prior| == i
    requires CallOk(u, ids, task, t.stages[i], STAGES[i], prior)
    ensures StageCall(u, Repeating(t, ids).For(STAGES[i]), task, STAGES[i], prior) == Some(t.stages[i])
    ensures Failed(u, t.stages[i]) <==> t.stages[i].error != ""
  {
    var c := t.stages[i];
    if c.response.Some? {
      ReasonIsFailure(u, c.response.value, c.expected);
    }
  }

  /** The backends repeat every record that the auditor passes. */
  ghost predicate Repeats(u: Setting, p: Pair, ids: Identities, task: Text, t: Trace)
    requires |t.stages| <= 3
  {
    forall i: nat, prior {:trigger CallOk(u, ids, task, t.stages[i], STAGES[i], prior)} ::
      i < |t.stages| && |prior| == i && CallOk(u, ids, task, t.stages[i], STAGES[i], prior) ==>
        && StageCall(u, p.For(STAGES[i]), task, STAGES[i], prior) == Some(t.stages[i])
        && (Failed(u, t.stages[i]) <==> t.stages[i].error != "")
  }

  lemma {:induction false} AcceptedRepeats(u: Setting, p: Pair, ids: Identities, task: Text, t: Trace, i: nat, prior: seq<Text>, total: nat)
    requires i <= |t.stages| <= 3 && |prior| == i && Ended(t) && Repeats(u, p, ids, task, t)
    requires i == |t.stages| ==> t.completed
    requires AuditFrom(u, ids, task, t, i, prior, total)
    ensures RunFrom(u, p, task, prior, t.stages[..i], total) == Some(t)
    decreases |t.stages| - i
  {
    if i == |t.stages| {
      assert t.stages[..i] == t.stages;
    } else {
      var c := t.stages[i];
      assert CallOk(u, ids, task, c, STAGES[i], prior);
      assert t.stages[..i] + [c] == t.stages[..i + 1];
      if c.error == "" {
        AcceptedRepeats(u, p, ids, task, t, i + 1, prior + [c.response.value.output], total + Spent(c));
      } else {
        assert t.stages[..i + 1] == t.stages;
      }
    }
  }

  lemma {:induction false} RunEnds(u: Setting, p: Pair, task: Text, prior: seq<Text>, calls: seq<Call>, tokens: nat)
    requires |prior| <= 3 && RunFrom(u, p, task, prior, calls, tokens).Some?
    ensures var t := RunFrom(u, p, task, prior, calls, tokens).value; Ended(t) || Silent(t)
    decreases 3 - |prior|
  {
    if |prior| < 3 {
      var s := STAGES[|prior|];
      var c := StageCall(u, p.For(s), task, s, prior).value;
      StageCallOk(u, p, task, prior);
      if Failed(u, c) {
        assert (calls + [c])[|calls + [c]| - 1] == c;
      } else {
        RunEnds(u, p, task, prior + [c.response.value.output], calls + [c], tokens + Spent(c));
      }
    }
  }

  /** An accepted trace that ends is the run of the backends that repeat its responses. */
  lemma AcceptedIsRun(u: Setting, ids: Identities, task: Text, t: Trace)
    requires Accepted(u, ids, task, t) && Ended(t)
    ensures Routed(u, Repeating(t, ids), task) == Some(t) && Ids(Repeating(t, ids)) == ids
  {
    forall i: nat, prior | i < |t.stages| && |prior| == i && CallOk(u, ids, task, t.stages[i], STAGES[i], prior)
      ensures StageCall(u, Repeating(t, ids).For(STAGES[i]), task, STAGES[i], prior) == Some(t.stages[i])
      ensures Failed(u, t.stages[i]) <==> t.stages[i].error != ""
    {
      CallRepeats(u, ids, task, t, i, prior);
    }
    AcceptedRepeats(u, Repeating(t, ids), ids, task, t, 0, [], 0);
    assert t.stages[..0] == [];
  }

  /** The traces that end and are accepted are exactly those of runs in which no exception has an empty message. */
  lemma AcceptedIffRun(u: Setting, ids: Identities, task: Text, t: Trace)
    ensures Accepted(u, ids, task, t) && Ended(t) <==>
            exists p :: Ids(p) == ids && Routed(u, p, task) == Some(t) && !Silent(t)
  {
    if Accepted(u, ids, task, t) && Ended(t) {
      AcceptedIsRun(u, ids, task, t);
      RunIsAccepted(u, Repeating(t, ids), task);
    }
    if p :| Ids(p) == ids && Routed(u, p, task) == Some(t) && !Silent(t) {
      RunIsAccepted(u, p, task);
      RunEnds(u, p, task, [], [], 0);
    }
  }

  // ----- The one exception -----

  /** The last record of a run is what its stage's backend did. */
  lemma {:induction false} LastCall(u: Setting, p: Pair, task: Text, prior: seq<Text>, calls: seq<Call>, tokens: nat)
    returns (s: Stage, before: seq<Text>)
    requires |prior| < 3 && RunFrom(u, p, task, prior, calls, tokens).Some?
    ensures var t := RunFrom(u, p, task, prior, calls, tokens).value;
            t.stages != [] && StageCall(u, p.For(s), task, s, before) == Some(t.stages[|t.stages| - 1])
    decreases 3 - |prior|
  {
    s, before := STAGES[|prior|], prior;
    var c := StageCall(u, p.For(s), task, s, prior).value;
    if !Failed(u, c) {
      var prior', calls' := prior + [c.response.value.output], calls + [c];
      if |prior'| < 3 {
        s, before := LastCall(u, p, task, prior', calls', tokens + Spent(c));
      }
    }
  }

  /** The backend of this record raised an exception without a message. */
  predicate RaisedNothing(p: Pair, c: Call) {
    var b := p.For(c.stage);
    b.idAt(c.stage) == b.modelId && b.reply(c.stage, c.request) == Raised("")
  }

  lemma SilentCall(u: Setting, p: Pair, task: Text, s: Stage, prior: seq<Text>, c: Call)
    requires StageCall(u, p.For(s), task, s, prior) == Some(c)
    ensures (c.response.None? && c.error == "") <==> RaisedNothing(p, c)
  {
  }

  /** A run's trace is refused exactly when the backend of its last stage raised an exception without a message. */
  lemma RefusedIffRaisedNothing(u: Setting, p: Pair, task: Text)
    requires Routed(u, p, task).Some?
    ensures var t := Routed(u, p, task).value;
            t.stages != [] && (!Accepted(u, Ids(p), task, t) <==> RaisedNothing(p, t.stages[|t.stages| - 1]))
  {
    var s, before := LastCall(u, p, task, [], [], 0);
    var t := Routed(u, p, task).value;
    SilentCall(u, p, task, s, before, t.stages[|t.stages| - 1]);
    RunIsAccepted(u, p, task);
  }

  /** Every run's trace is accepted when no backend ever raises an exception without a message. */
  lemma NamedErrorsAreAccepted(u: Setting, p: Pair, task: Text)
    requires forall s, q {:trigger p.For(s).reply(s, q)} :: p.For(s).reply(s, q) != Raised("")
    requires Routed(u, p, task).Some?
    ensures Accepted(u, Ids(p), task, Routed(u, p, task).value)
  {
    RefusedIffRaisedNothing(u, p, task);
    var t := Routed(u, p, task).value;
    var c := t.stages[|t.stages| - 1];
    assert p.For(c.stage).reply(c.stage, c.request) != Raised("");
  }

  /** A planner that raises an exception without a message at once. */
  function Mute(id: string, coder: Backend): Pair {
    Pair(Backend(id, s => id, (s, q) => Raised("")), coder)
  }

  lemma FirstRequestFits(json: seq<Text> -> Text, task: Text)
    requires |task| <= 99_900
    ensures RequestOk(StageValues(json)(Specification, task, []))
  {
    assert |Instruction(Specification)| == 62;
  }

  /** The program meets the exception: with a mute planner, the trace of any task that fits is refused. */
  lemma MutePlannerIsRefused(json: seq<Text> -> Text, blank: Scalar -> bool, id: string, coder: Backend, task: Text)
    requires |task| <= 99_900
    ensures var u, p := Program(json, blank), Mute(id, coder);
            Routed(u, p, task).Some? && !Accepted(u, Ids(p), task, Routed(u, p, task).value)
  {
    FirstRequestFits(json, task);
    RunIsAccepted(Program(json, blank), Mute(id, coder), task);
  }

  // ----- What a run asks for and returns -----

  function OutputOf(c: Call): Text {
    if c.response.Some? then c.response.value.output else []
  }

  /** The outputs of some calls. */
  function Outputs(calls: seq<Call>): (r: seq<Text>)
    ensures |r| == |calls|
  {
    seq(|calls|, i requires 0 <= i < |calls| => OutputOf(calls[i]))
  }

  function TokensOf(calls: seq<Call>): nat {
    if calls == [] then 0 else TokensOf(calls[..|calls| - 1]) + Spent(calls[|calls| - 1])
  }

  /**
   * Call `i` is for stage `i`, by the planner or for the last stage the coder, and asks for the task with the outputs of
   * the calls before it.
   */
  predicate InPlace(u: Setting, p: Pair, task: Text, calls: seq<Call>, i: nat)
    requires i < |calls| <= 3
  {
    var c := calls[i];
    && c.stage == [Specification, Plan, Code][i]
    && c.role == (if i == 2 then Coder else Planner)
    && c.expected == (if i == 2 then p.coder.modelId else p.planner.modelId)
    && c.request == u.request(c.stage, task, Outputs(calls[..i])) && u.fits(c.request)
  }

  /** A response that the router accepts: the expected model, within the budget, not blank and ended. */
  predicate Passes(u: Setting, c: Call) {
    c.response.Some? &&
    var r := c.response.value;
    && r.modelId == c.expected && r.generatedTokens <= 128 && (exists i :: 0 <= i < |r.output| && !u.blank(r.output[i]))
    && r.finish == Eos
  }

  /** All calls are in place and pass, their outputs being `prior`. */
  predicate Progress(u: Setting, p: Pair, task: Text, prior: seq<Text>, calls: seq<Call>, tokens: nat) {
    && |calls| == |prior| <= 3 && prior == Outputs(calls) && tokens == TokensOf(calls)
    && forall i :: 0 <= i < |calls| ==> InPlace(u, p, task, calls, i) && Passes(u, calls[i])
  }

  lemma InPlaceStays(u: Setting, p: Pair, task: Text, calls: seq<Call>, more: seq<Call>, i: nat)
    requires i < |calls| <= |calls + more| <= 3 && InPlace(u, p, task, calls, i)
    ensures InPlace(u, p, task, calls + more, i)
  {
    assert (calls + more)[..i] == calls[..i];
  }

  lemma PassesUnlessFailed(u: Setting, c: Call)
    ensures Passes(u, c) <==> !Failed(u, c)
  {
  }

  lemma OutputsSnoc(calls: seq<Call>, c: Call)
    ensures Outputs(calls + [c]) == Outputs(calls) + [OutputOf(c)]
    ensures TokensOf(calls + [c]) == TokensOf(calls) + Spent(c)
  {
    assert (calls + [c])[..|calls|] == calls;
  }

  lemma StageCallIs(u: Setting, b: Backend, task: Text, s: Stage, prior: seq<Text>, c: Call)
    requires StageCall(u, b, task, s, prior) == Some(c)
    ensures c.stage == s && c.role == RoleOf(s) && c.expected == b.modelId
    ensures c.request == u.request(s, task, prior) && u.fits(c.request)
  {
  }

  lemma CallInPlace(u: Setting, p: Pair, task: Text, calls: seq<Call>, c: Call)
    requires |calls| < 3
    requires StageCall(u, p.For(STAGES[|calls|]), task, STAGES[|calls|], Outputs(calls)) == Some(c)
    ensures InPlace(u, p, task, calls + [c], |calls|)
  {
    StageCallIs(u, p.For(STAGES[|calls|]), task, STAGES[|calls|], Outputs(calls), c);
    assert (calls + [c])[..|calls|] == calls && (calls + [c])[|calls|] == c;
  }

  /** What a returned trace consists of. */
  predicate IsRun(u: Setting, p: Pair, task: Text, t: Trace) {
    && 1 <= |t.stages| <= 3 && t.tokens == TokensOf(t.stages) && t.notRun
    && (forall i :: 0 <= i < |t.stages| ==> InPlace(u, p, task, t.stages, i))
    && (forall i :: 0 <= i < |t.stages| - 1 ==> Passes(u, t.stages[i]))
    && (t.completed <==> |t.stages| == 3 && Passes(u, t.stages[2]))
    && (t.completed ==> t.code == t.stages[2].response.value.output)
    && (!t.completed ==> t.code == [] && !Passes(u, t.stages[|t.stages| - 1]))
  }

  lemma StepProgresses(u: Setting, p: Pair, task: Text, prior: seq<Text>, calls: seq<Call>, tokens: nat, c: Call)
    requires Progress(u, p, task, prior, calls, tokens) && |prior| < 3
    requires StageCall(u, p.For(STAGES[|prior|]), task, STAGES[|prior|], prior) == Some(c)
    ensures if Failed(u, c) then IsRun(u, p, task, Trace(false, [], calls + [c], tokens + Spent(c), true))
            else Progress(u, p, task, prior + [c.response.value.output], calls + [c], tokens + Spent(c))
  {
    CallInPlace(u, p, task, calls, c);
    OutputsSnoc(calls, c);
    PassesUnlessFailed(u, c);
    forall i | 0 <= i < |calls|
      ensures InPlace(u, p, task, calls + [c], i)
    {
      InPlaceStays(u, p, task, calls, [c], i);
    }
  }

  lemma ProgressEnds(u: Setting, p: Pair, task: Text, prior: seq<Text>, calls: seq<Call>, tokens: nat)
    requires Progress(u, p, task, prior, calls, tokens) && |prior| == 3
    ensures IsRun(u, p, task, Trace(true, prior[2], calls, tokens, true))
  {
    assert Outputs(calls)[2] == calls[2].response.value.output;
  }

  lemma {:induction false} RunFromIs(u: Setting, p: Pair, task: Text, prior: seq<Text>, calls: seq<Call>, tokens: nat, t: Trace)
    requires Progress(u, p, task, prior, calls, tokens) && RunFrom(u, p, task, prior, calls, tokens) == Some(t)
    ensures IsRun(u, p, task, t)
    decreases 3 - |prior|
  {
    if |prior| == 3 {
      ProgressEnds(u, p, task, prior, calls, tokens);
    } else {
      var c := StageCall(u, p.For(STAGES[|prior|]), task, STAGES[|prior|], prior).value;
      StepProgresses(u, p, task, prior, calls, tokens, c);
      if !Failed(u, c) {
        RunFromIs(u, p, task, prior + [c.response.value.output], calls + [c], tokens + Spent(c), t);
      }
    }
  }

  /**
   * A run calls the stages in order, each by its own role's backend and with the outputs of all stages before it; it
   * stops at the first call that does not pass, completes when three have passed, and its code is the last output.
   */
  lemma RunIsOrdered(u: Setting, p: Pair, task: Text)
    requires Routed(u, p, task).Some?
    ensures IsRun(u, p, task, Routed(u, p, task).value)
  {
    RunFromIs(u, p, task, [], [], 0, Routed(u, p, task).value);
  }

  /** Every request of the program ends with the whole task, and carries the prior outputs exactly when there are any. */
  lemma RequestsCarryTask(json: seq<Text> -> Text, s: Stage, task: Text, prior: seq<Text>)
    ensures var q := StageValues(json)(s, task, prior);
            && |q.prompt| >= |task| && q.prompt[|q.prompt| - |task|..] == task
            && (prior == [] <==> q.context == [])
            && (prior != [] ==> |q.context| >= |json(prior)| && q.context[|q.context| - |json(prior)|..] == json(prior))
            && q.assistantPrefix == [] && q.maxNewTokens == 128
  {
    assert |Ascii("\nPrior model artifacts (fallible data):\n")| > 0;
  }

  // ----- Which runs an exception escapes from -----

  /** Stage `s` after `prior` lets an exception escape: its request breaks the schema, or the steady backend crashes on it. */
  predicate Escapes(u: Setting, b: Backend, task: Text, s: Stage, prior: seq<Text>) {
    !u.fits(u.request(s, task, prior)) || (b.idAt(s) == b.modelId && b.reply(s, u.request(s, task, prior)).Crashed?)
  }

  /** What the stages before have recorded: none of it failed. */
  ghost predicate Recorded(u: Setting, p: Pair, task: Text, calls: seq<Call>) {
    |calls| <= 3 && forall i :: 0 <= i < |calls| ==>
      !Failed(u, calls[i]) && StageCall(u, p.For(STAGES[i]), task, STAGES[i], Outputs(calls[..i])) == Some(calls[i])
  }

  ghost predicate EscapesAfter(u: Setting, p: Pair, task: Text, calls: seq<Call>) {
    |calls| < 3 && Recorded(u, p, task, calls) && Escapes(u, p.For(STAGES[|calls|]), task, STAGES[|calls|], Outputs(calls))
  }

  lemma StageEscapesIff(u: Setting, b: Backend, task: Text, s: Stage, prior: seq<Text>)
    ensures StageCall(u, b, task, s, prior).None? <==> Escapes(u, b, task, s, prior)
  {
  }

  lemma RecordedSnoc(u: Setting, p: Pair, task: Text, calls: seq<Call>, c: Call)
    requires |calls| < 3 && Recorded(u, p, task, calls) && !Failed(u, c)
    requires StageCall(u, p.For(STAGES[|calls|]), task, STAGES[|calls|], Outputs(calls)) == Some(c)
    ensures Recorded(u, p, task, calls + [c])
  {
    forall i | 0 <= i < |calls + [c]|
      ensures (calls + [c])[..i] == calls[..i]
    {
    }
    assert calls[..|calls|] == calls;
  }

  lemma {:induction false} EscapeIsReached(u: Setting, p: Pair, task: Text, calls: seq<Call>, tokens: nat) returns (w: seq<Call>)
    requires Recorded(u, p, task, calls) && RunFrom(u, p, task, Outputs(calls), calls, tokens).None?
    ensures EscapesAfter(u, p, task, w)
    decreases 3 - |calls|
  {
    var s, prior := STAGES[|calls|], Outputs(calls);
    var call := StageCall(u, p.For(s), task, s, prior);
    StageEscapesIff(u, p.For(s), task, s, prior);
    w := calls;
    if call.Some? {
      RecordedSnoc(u, p, task, calls, call.value);
      OutputsSnoc(calls, call.value);
      w := EscapeIsReached(u, p, task, calls + [call.value], tokens + Spent(call.value));
    }
  }

  lemma {:induction false} ReachedEscapes(u: Setting, p: Pair, task: Text, calls: seq<Call>, n: nat, tokens: nat)
    requires EscapesAfter(u, p, task, calls) && n <= |calls|
    ensures RunFrom(u, p, task, Outputs(calls[..n]), calls[..n], tokens).None?
    decreases |calls| - n
  {
    if n < |calls| {
      OutputsSnoc(calls[..n], calls[n]);
      assert calls[..n + 1] == calls[..n] + [calls[n]];
      ReachedEscapes(u, p, task, calls, n + 1, tokens + Spent(calls[n]));
    } else {
      assert calls[..n] == calls;
      StageEscapesIff(u, p.For(STAGES[n]), task, STAGES[n], Outputs(calls));
    }
  }

  /** An exception escapes from a run exactly when it escapes from the stage after some that have all passed. */
  lemma RunEscapesIff(u: Setting, p: Pair, task: Text)
    ensures Routed(u, p, task).None? <==> exists calls :: EscapesAfter(u, p, task, calls)
  {
    assert Outputs([]) == [];
    if Routed(u, p, task).None? {
      var w := EscapeIsReached(u, p, task, [], 0);
    }
    if calls :| EscapesAfter(u, p, task, calls) {
      assert calls[..0] == [];
      ReachedEscapes(u, p, task, calls, 0, 0);
    }
  }
}
