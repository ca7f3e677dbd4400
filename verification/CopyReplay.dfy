/** Which cases decoding can produce: those the checker accepts and that are complete. */
module CopyReplay {
  import opened PyData
  import opened Utf8
  import opened SequentialCopy
  import opened CopyAudit

  predicate StartsWithDef(output: seq<Byte>) {
    |output| >= 4 && output[..4] == DEF
  }

  /**
   * What the checker does not ask: events are there exactly when an output starts with `def ` and the prompt has
   * bytes, the first one is no boundary, and copying goes on until an exit, a boundary or the last query.
   */
  predicate Complete(prompt: seq<Byte>, output: seq<Byte>, events: seq<Event>) {
    && (events != [] <==> StartsWithDef(output) && prompt != [])
    && (events != [] ==> events[0].Source?)
    && (events != [] && IsCopy(events[|events| - 1]) ==> events[|events| - 1].query == 159)
  }

  // ----- Runs are complete -----

  predicate LastIsCopy(r: Run) {
    r.events != [] && IsCopy(r.events[|r.events| - 1])
  }

  /** Completeness so far, between two queries. */
  predicate Whole(job: Job, r: Run) {
    && (|r.output| > 4 ==> (r.events != [] <==> StartsWithDef(r.output) && job.prompt != []))
    && (|r.output| <= 4 ==> r.events == [] && r.st.mode == Waiting)
    && (r.events != [] ==> r.events[0].Source?)
    && (LastIsCopy(r) <==> r.st.mode == Copying)
  }

  lemma PromptInFirstWindow(job: Job, output: seq<Byte>)
    requires job.context == CONTEXT && |Frame(job)| <= CONTEXT && |output| == 4
    ensures true in Mask(job, output) <==> job.prompt != []
  {
    if job.prompt != [] {
      assert Mask(job, output)[Left(job) - Offset(job, 4)];
    } else {
      assert Left(job) == Right(job);
    }
  }

  /** What the trigger does at each query of a run. */
  lemma TriggerCases(m: Model, job: Job, r: Run)
    requires WellBehaved(m) && NoZero(job.prompt) && Live(job, r) && Whole(job, r)
    requires job.context == CONTEXT && |Frame(job)| <= CONTEXT
    ensures var s := Triggered(m, Window(job, r.output), Mask(job, r.output), Offset(job, |r.output|), r.output, r.st);
      if r.output == DEF && job.prompt != [] then s.mode == Copying && CursorValid(job, 4, s.cursor)
      else if r.output == DEF then s.mode == Ended
      else s == r.st
  {
    TriggerKeepsCursor(m, job, r);
    if r.output == DEF {
      PromptInFirstWindow(job, r.output);
    }
  }

  /** What a decision does to the mode and which events it reports. */
  lemma DecisionCases(m: Model, job: Job, r: Run)
    requires WellBehaved(m) && NoZero(job.prompt) && Live(job, r) && Whole(job, r)
    requires job.context == CONTEXT && |Frame(job)| <= CONTEXT
    ensures var d := Decision(m, job, r);
      && (d.1.Some? ==> (IsCopy(d.1.value) <==> d.2.mode == Copying) && (IsCopy(d.1.value) ==> d.0 != 0))
      && (d.1.None? ==> d.2.mode != Copying)
      && (r.output == DEF ==> (d.1.Some? <==> job.prompt != []) && (d.1.Some? ==> d.1.value.Source?))
      && (r.output != DEF ==> (d.1.Some? <==> r.st.mode == Copying) && (r.st.mode == Waiting ==> d.2.mode == Waiting))
  {
    var s := Triggered(m, Window(job, r.output), Mask(job, r.output), Offset(job, |r.output|), r.output, r.st);
    TriggerCases(m, job, r);
    if s.mode == Copying {
      CopyingDecision(m, job, r.output, r.st, s.cursor);
      if CursorValid(job, |r.output|, s.cursor) {
        FrameShowsPrompt(job, s.cursor);
      }
    }
  }

  lemma QueryKeepsWhole(m: Model, job: Job, r: Run)
    requires WellBehaved(m) && NoZero(job.prompt) && Live(job, r) && Whole(job, r)
    requires job.context == CONTEXT && |Frame(job)| <= CONTEXT
    ensures var (r', stop) := Query(m, job, r);
      if stop then Complete(job.prompt, r'.output, r'.events) else Whole(job, r')
  {
    DecisionCases(m, job, r);
    ApplyKeepsWhole(job, r, Decision(m, job, r));
  }

  lemma ApplyKeepsWhole(job: Job, r: Run, d: (Byte, Option<Event>, State))
    requires Whole(job, r)
    requires d.1.Some? ==> (IsCopy(d.1.value) <==> d.2.mode == Copying) && (IsCopy(d.1.value) ==> d.0 != 0)
    requires d.1.None? ==> d.2.mode != Copying
    requires r.output == DEF ==> (d.1.Some? <==> job.prompt != []) && (d.1.Some? ==> d.1.value.Source?)
    requires r.output != DEF ==> (d.1.Some? <==> r.st.mode == Copying) && (r.st.mode == Waiting ==> d.2.mode == Waiting)
    ensures var (r', stop) := Apply(r, d);
      if stop then Complete(job.prompt, r'.output, r'.events) else Whole(job, r')
  {
    if |r.output| >= 4 && d.0 != 0 {
      assert (r.output + [d.0])[..4] == r.output[..4];
    }
    if |r.output| == 4 {
      assert r.output[..4] == r.output;
    }
  }

  lemma FullLengthIsComplete(job: Job, r: Run)
    requires Live(job, r) && Whole(job, r) && |r.output| == 160
    ensures Complete(job.prompt, r.output, r.events)
  {
  }

  lemma RunIsComplete(m: Model, job: Job, r: Run, left: nat)
    requires WellBehaved(m) && NoZero(job.prompt) && Live(job, r) && Whole(job, r)
    requires job.context == CONTEXT && |Frame(job)| <= CONTEXT && |r.output| + left == 160
    ensures var end := Continue(m, job, r, left); Complete(job.prompt, end.output, end.events)
  {
    var next := (s: Run) => Query(m, job, s);
    var live := (s: Run, k: nat) => Live(job, s) && Whole(job, s) && |s.output| + k == 160;
    var final := (s: Run) => Complete(job.prompt, s.output, s.events);
    forall s: Run | live(s, 0)
      ensures final(s)
    {
      FullLengthIsComplete(job, s);
    }
    forall s: Run, k: nat | k > 0 && live(s, k)
      ensures if next(s).1 then final(next(s).0) else live(next(s).0, k - 1)
    {
      QueryKeepsLive(m, job, s);
      QueryKeepsWhole(m, job, s);
    }
    RepeatedEndsFinal(next, live, final, r, left);
    ContinueIsRepeated(m, job, next, r, left);
  }

  // ----- Complete accepted cases are runs -----

  /** The query at which a case's output shows this window, 160 if it never does. */
  function QueryOf(job: Job, output: seq<Byte>, tokens: seq<Byte>, mask: seq<bool>, from: nat): (q: nat)
    requires from <= |output| + 1
    ensures from <= q
    decreases |output| + 1 - from
  {
    if from == |output| + 1 then from
    else if tokens == Window(job, output[..from]) && mask == Mask(job, output[..from]) then from
    else QueryOf(job, output, tokens, mask, from + 1)
  }

  /** No two queries of a case show the same window with the same mask. */
  lemma WindowsDiffer(job: Job, output: seq<Byte>, p: nat, q: nat)
    requires job.context == CONTEXT && |Frame(job)| <= CONTEXT && p < q <= |output| <= 160
    ensures Window(job, output[..p]) != Window(job, output[..q]) || Mask(job, output[..p]) != Mask(job, output[..q])
  {
    var a, b := Mask(job, output[..p]), Mask(job, output[..q]);
    if |a| == |b| {
      var j := Right(job) - 1 - Offset(job, p);
      assert a[j];
      assert !b[j];
    }
  }

  lemma {:induction false} QueryFound(job: Job, output: seq<Byte>, q: nat, from: nat)
    requires job.context == CONTEXT && |Frame(job)| <= CONTEXT && from <= q <= |output| <= 160
    ensures QueryOf(job, output, Window(job, output[..q]), Mask(job, output[..q]), from) == q
    decreases q - from
  {
    if from < q {
      WindowsDiffer(job, output, from, q);
      QueryFound(job, output, q, from + 1);
    }
  }

  function FirstEligible(tokens: seq<Byte>, mask: seq<bool>, from: nat): (j: nat)
    requires |tokens| == |mask| && from <= |tokens|
    ensures from <= j <= |tokens| && (j < |tokens| ==> Eligible(tokens, mask, j))
    ensures forall i :: from <= i < j ==> !Eligible(tokens, mask, i)
    decreases |tokens| - from
  {
    if from == |tokens| || Eligible(tokens, mask, from) then from else FirstEligible(tokens, mask, from + 1)
  }

  /** The event reported at a query, if any. */
  function EventAtQuery(events: seq<Event>, q: nat): Option<Event> {
    if 4 <= q < 4 + |events| then Some(events[q - 4]) else None
  }

  function BaseAt(output: seq<Byte>, events: seq<Event>, q: nat): Byte {
    var e := EventAtQuery(events, q);
    if e.Some? && 0 <= e.value.base < 256 then e.value.base
    else if q < |output| then output[q] else 0
  }

  function ExitAt(events: seq<Event>, q: nat): (p: real)
    ensures 0.0 <= p <= 1.0
  {
    var e := EventAtQuery(events, q);
    if e.Some? && e.value.Source? && 0.0 <= e.value.probability <= 1.0 then e.value.probability else 0.0
  }

  function StartAt(job: Job, events: seq<Event>, tokens: seq<Byte>, mask: seq<bool>): (j: nat)
    requires |tokens| == |mask|
    ensures (exists i :: Eligible(tokens, mask, i)) ==> Eligible(tokens, mask, j)
  {
    var wanted := if events == [] then 0 else events[0].cursor - Offset(job, 4);
    if wanted >= 0 && Eligible(tokens, mask, wanted) then wanted else FirstEligible(tokens, mask, 0)
  }

  /** The model that reads a recorded case off its windows. */
  function Recorded(job: Job, output: seq<Byte>, events: seq<Event>): Model {
    Model((tokens: seq<Byte>, mask: seq<bool>) => BaseAt(output, events, QueryOf(job, output, tokens, mask, 0)),
          (tokens: seq<Byte>, mask: seq<bool>) => if |tokens| == |mask| then StartAt(job, events, tokens, mask) else 0,
          (tokens: seq<Byte>, mask: seq<bool>, j: nat) => ExitAt(events, QueryOf(job, output, tokens, mask, 0)))
  }

  lemma RecordedIsWellBehaved(job: Job, output: seq<Byte>, events: seq<Event>)
    ensures WellBehaved(Recorded(job, output, events))
  {
  }

  /** A complete case whose bytes and events pass the checks; its text is then the decoded bytes. */
  predicate Producible(job: Job, output: seq<Byte>, events: seq<Event>) {
    |output| <= 160 && NoZero(output) && EventsOk(job, output, events) && Complete(job.prompt, output, events)
  }

  lemma ProducibleIffAccepted(prompt: seq<Byte>, output: seq<Byte>, events: seq<Event>)
    ensures Producible(Audited(prompt), output, events)
            <==> Accepts(prompt, Utf8.Decode(output), output, events) && Complete(prompt, output, events)
  {
    if events != [] && StartsWithDef(output) {
      DecodeAsciiPrefix(DEF, output[4..]);
      assert output == DEF + output[4..];
    }
  }

  /** The events reported before query `q`. */
  function Before(events: seq<Event>, q: nat): seq<Event> {
    if q <= 4 then [] else Take(events, q - 4)
  }

  function CursorOf(e: Event): nat {
    if e.cursor >= 0 then e.cursor else 0
  }

  /** The decoder state before query `q` when it reproduces the case. */
  predicate InStep(job: Job, output: seq<Byte>, events: seq<Event>, q: nat, st: State) {
    if q <= 4 then st.mode == Waiting
    else if q - 4 < |events| then st == State(Copying, CursorOf(events[q - 4]))
    else q < 160 ==> st.mode != Copying
  }

  predicate Fits(job: Job) {
    job.context == CONTEXT && |Frame(job)| <= CONTEXT && NoZero(job.prompt)
  }

  /** Before a query at which the case has an event, the trigger leaves the cursor at that event's. */
  lemma ReplayTrigger(job: Job, output: seq<Byte>, events: seq<Event>, q: nat, st: State)
    requires job == Audited(job.prompt) && Fits(job) && Producible(job, output, events)
    requires 4 <= q <= |output| && q < 4 + |events| && InStep(job, output, events, q, st)
    ensures var m := Recorded(job, output, events);
      Triggered(m, Window(job, output[..q]), Mask(job, output[..q]), Offset(job, q), output[..q], st)
      == State(Copying, CursorOf(events[q - 4]))
  {
    if q == 4 {
      PromptInFirstWindow(job, output[..4]);
      EventAt(job, output, events, 0);
      EligibleIsValid(job, output[..4], events[0].cursor);
    }
  }

  lemma RecordedAnswers(job: Job, output: seq<Byte>, events: seq<Event>, q: nat, j: nat)
    requires Fits(job) && q <= |output| <= 160
    ensures var m := Recorded(job, output, events);
      && m.base(Window(job, output[..q]), Mask(job, output[..q])) == BaseAt(output, events, q)
      && m.exit(Window(job, output[..q]), Mask(job, output[..q]), j) == ExitAt(events, q)
  {
    QueryFound(job, output, q, 0);
  }

  function NextByte(output: seq<Byte>, q: nat): Byte {
    if q < |output| then output[q] else 0
  }

  /** The state after an event. */
  function AfterEvent(e: Event): State {
    if IsCopy(e) then State(Copying, CursorOf(e) + 1) else State(Ended, CursorOf(e))
  }

  lemma CursorsAreNatural(job: Job, output: seq<Byte>, events: seq<Event>, i: nat)
    requires Producible(job, output, events) && job == Audited(job.prompt) && i < |events|
    ensures events[i].cursor == CursorOf(events[i]) && events[i].query == 4 + i
  {
    EventAt(job, output, events, 0);
    AcceptedIsOneEpisode(job, output, events, i);
  }

  /** A producible event is the one that its query, its cursor and the recorded answers make. */
  lemma EventIsMade(job: Job, output: seq<Byte>, events: seq<Event>, q: nat)
    requires job == Audited(job.prompt) && Producible(job, output, events) && 4 <= q <= |output| && q < 4 + |events|
    ensures var e := events[q - 4];
            && e.cursor >= 0 && e == CopyEvent(job, q, CursorOf(e), BaseAt(output, events, q), ExitAt(events, q))
            && NextByte(output, q) as int == e.chosen
  {
    CursorsAreNatural(job, output, events, q - 4);
    EventAt(job, output, events, q - 4);
  }

  /** At a query with an event, the recorded model reproduces the event, its byte and its cursor. */
  lemma ReplayEvent(job: Job, output: seq<Byte>, events: seq<Event>, q: nat, st: State)
    requires job == Audited(job.prompt) && Fits(job) && Producible(job, output, events)
    requires 4 <= q <= |output| && q < 4 + |events| && InStep(job, output, events, q, st)
    ensures StepDecision(Recorded(job, output, events), Window(job, output[..q]), Mask(job, output[..q]),
                         Offset(job, q), output[..q], q, st)
            == (NextByte(output, q), Some(events[q - 4]), AfterEvent(events[q - 4]))
  {
    var e, m := events[q - 4], Recorded(job, output, events);
    EventIsMade(job, output, events, q);
    ReplayTrigger(job, output, events, q, st);
    CopyingDecision(m, job, output[..q], st, CursorOf(e));
    if CursorValid(job, q, e.cursor) {
      RecordedAnswers(job, output, events, q, e.cursor - Offset(job, q));
    } else {
      RecordedAnswers(job, output, events, q, 0);
    }
  }

  /** At a query without an event, the recorded model emits the recorded byte and reports nothing. */
  lemma ReplayQuiet(job: Job, output: seq<Byte>, events: seq<Event>, q: nat, st: State)
    requires job == Audited(job.prompt) && Fits(job) && Producible(job, output, events)
    requires q <= |output| && q < 160 && !(4 <= q < 4 + |events|) && InStep(job, output, events, q, st)
    ensures var r := StepDecision(Recorded(job, output, events), Window(job, output[..q]), Mask(job, output[..q]),
                                  Offset(job, q), output[..q], q, st);
      r.0 == NextByte(output, q) && r.1 == None && InStep(job, output, events, q + 1, r.2)
  {
    RecordedAnswers(job, output, events, q, 0);
    if q == 4 {
      PromptInFirstWindow(job, output[..4]);
    }
  }

  lemma InStepAfterEvent(job: Job, output: seq<Byte>, events: seq<Event>, q: nat)
    requires job == Audited(job.prompt) && Producible(job, output, events)
    requires 4 <= q < 4 + |events|
    ensures InStep(job, output, events, q + 1, AfterEvent(events[q - 4]))
  {
    CursorsAreNatural(job, output, events, q - 4);
    AcceptedIsOneEpisode(job, output, events, q - 4);
    if q + 1 < 4 + |events| {
      CursorsAreNatural(job, output, events, q - 3);
      AcceptedIsOneEpisode(job, output, events, q - 3);
    }
  }

  lemma BeforeGrows(events: seq<Event>, q: nat)
    ensures Before(events, q + 1) == Before(events, q) + if 4 <= q < 4 + |events| then [events[q - 4]] else []
  {
  }

  /** The run before query `q` when it reproduces the case. */
  predicate Replays(job: Job, output: seq<Byte>, events: seq<Event>, q: nat, r: Run) {
    q <= |output| && r.output == output[..q] && r.events == Before(events, q) && InStep(job, output, events, q, r.st)
  }

  /** The recorded model's decision at query `q`. */
  lemma ReplayDecision(job: Job, output: seq<Byte>, events: seq<Event>, q: nat, r: Run)
    requires job == Audited(job.prompt) && Fits(job) && Producible(job, output, events)
    requires q < 160 && Replays(job, output, events, q, r)
    ensures var d := Decision(Recorded(job, output, events), job, r);
      d.0 == NextByte(output, q) && d.1 == EventAtQuery(events, q) && InStep(job, output, events, q + 1, d.2)
  {
    if 4 <= q < 4 + |events| {
      ReplayEvent(job, output, events, q, r.st);
      InStepAfterEvent(job, output, events, q);
    } else {
      ReplayQuiet(job, output, events, q, r.st);
    }
  }

  /** One query of the recorded model extends the replay by one byte, or ends it with all events. */
  lemma ReplayQuery(job: Job, output: seq<Byte>, events: seq<Event>, q: nat, r: Run)
    requires job == Audited(job.prompt) && Fits(job) && Producible(job, output, events)
    requires q < 160 && Replays(job, output, events, q, r)
    ensures var (r', stop) := Query(Recorded(job, output, events), job, r);
      if stop then r'.output == output && r'.events == events else Replays(job, output, events, q + 1, r')
  {
    ReplayDecision(job, output, events, q, r);
    ApplyReplays(job, output, events, q, r, Decision(Recorded(job, output, events), job, r));
  }

  lemma ApplyReplays(job: Job, output: seq<Byte>, events: seq<Event>, q: nat, r: Run, d: (Byte, Option<Event>, State))
    requires job == Audited(job.prompt) && Producible(job, output, events) && Replays(job, output, events, q, r)
    requires d.0 == NextByte(output, q) && d.1 == EventAtQuery(events, q) && InStep(job, output, events, q + 1, d.2)
    ensures var (r', stop) := Apply(r, d);
      if stop then r'.output == output && r'.events == events else Replays(job, output, events, q + 1, r')
  {
    BeforeGrows(events, q);
    if q < |output| {
      assert output[..q + 1] == output[..q] + [output[q]];
    } else {
      AllBeforeEnd(job, output, events, q + 1);
      assert output[..q] == output;
    }
  }

  lemma AllBeforeEnd(job: Job, output: seq<Byte>, events: seq<Event>, q: nat)
    requires job == Audited(job.prompt) && Producible(job, output, events)
    requires q == 160 || q == |output| + 1
    ensures Before(events, q) == events
  {
    if events != [] {
      var n := |events| - 1;
      AcceptedIsOneEpisode(job, output, events, n);
      EventAt(job, output, events, n);
    }
  }

  /** A step from a replaying run replays one more query, or ends with the whole case. */
  ghost predicate StepReplays(next: Run -> (Run, bool), job: Job, output: seq<Byte>, events: seq<Event>) {
    forall s, q: nat {:trigger next(s), Replays(job, output, events, q, s)} ::
      q < 160 && Replays(job, output, events, q, s) ==>
        if next(s).1 then next(s).0.output == output && next(s).0.events == events
        else Replays(job, output, events, q + 1, next(s).0)
  }

  lemma {:induction false} ReplayRepeated(next: Run -> (Run, bool), job: Job, output: seq<Byte>, events: seq<Event>, q: nat, r: Run)
    requires job == Audited(job.prompt) && Producible(job, output, events) && StepReplays(next, job, output, events)
    requires q <= 160 && Replays(job, output, events, q, r)
    ensures var end := Repeated(next, r, 160 - q); end.output == output && end.events == events
    decreases 160 - q
  {
    if q == 160 {
      AllBeforeEnd(job, output, events, q);
    } else if !next(r).1 {
      ReplayRepeated(next, job, output, events, q + 1, next(r).0);
    }
  }

  lemma RecordedReplays(job: Job, output: seq<Byte>, events: seq<Event>, next: Run -> (Run, bool))
    requires job == Audited(job.prompt) && Fits(job) && Producible(job, output, events)
    requires forall s {:trigger next(s)} :: next(s) == Query(Recorded(job, output, events), job, s)
    ensures StepReplays(next, job, output, events)
  {
    forall s, q: nat | q < 160 && Replays(job, output, events, q, s)
      ensures if next(s).1 then next(s).0.output == output && next(s).0.events == events
              else Replays(job, output, events, q + 1, next(s).0)
    {
      ReplayQuery(job, output, events, q, s);
    }
  }

  lemma ReplayRunBy(next: Run -> (Run, bool), job: Job, output: seq<Byte>, events: seq<Event>, q: nat, r: Run)
    requires job == Audited(job.prompt) && Fits(job) && Producible(job, output, events)
    requires q <= 160 && Replays(job, output, events, q, r)
    requires forall s {:trigger next(s)} :: next(s) == Query(Recorded(job, output, events), job, s)
    ensures var end := Repeated(next, r, 160 - q); end.output == output && end.events == events
  {
    RecordedReplays(job, output, events, next);
    ReplayRepeated(next, job, output, events, q, r);
  }

  lemma ReplayRun(job: Job, output: seq<Byte>, events: seq<Event>, q: nat, r: Run)
    requires job == Audited(job.prompt) && Fits(job) && Producible(job, output, events)
    requires q <= 160 && Replays(job, output, events, q, r)
    ensures var end := Continue(Recorded(job, output, events), job, r, 160 - q);
      end.output == output && end.events == events
  {
    var next := (s: Run) => Query(Recorded(job, output, events), job, s);
    var end := Repeated(next, r, 160 - q);
    assert end.output == output && end.events == events by {
      ReplayRunBy(next, job, output, events, q, r);
    }
    assert Continue(Recorded(job, output, events), job, r, 160 - q) == end by {
      ContinueIsRepeated(Recorded(job, output, events), job, next, r, 160 - q);
    }
  }

  /** Some well-behaved model produces this output with these events. */
  ghost predicate Produced(job: Job, output: seq<Byte>, events: seq<Event>) {
    exists m: Model :: WellBehaved(m) && Generated(m, job).output == output && Generated(m, job).events == events
  }

  /**
   * For a prompt that fits and holds no zero byte, some model produces an output, its events and its text exactly when
   * the checker accepts them and they are complete.
   */
  lemma ProducedIffAcceptedAndComplete(prompt: seq<Byte>, text: seq<Scalar>, output: seq<Byte>, events: seq<Event>)
    requires Fits(Audited(prompt))
    ensures Produced(Audited(prompt), output, events) && text == Utf8.Decode(output)
            <==> Accepts(prompt, text, output, events) && Complete(prompt, output, events)
  {
    var job := Audited(prompt);
    if Produced(job, output, events) {
      var m :| WellBehaved(m) && Generated(m, job).output == output && Generated(m, job).events == events;
      EveryRunPasses(m, prompt);
      RunIsComplete(m, job, SequentialCopy.START, 160);
    }
    ProducibleIffAccepted(prompt, output, events);
    if Producible(job, output, events) {
      var m := Recorded(job, output, events);
      RecordedIsWellBehaved(job, output, events);
      ReplayRun(job, output, events, 0, SequentialCopy.START);
    }
  }

  /** The checker alone accepts more: an output that starts with `def ` but reports no copying at all. */
  lemma CheckerAcceptsSilence()
    ensures Accepts([97], Utf8.Decode(DEF), DEF, []) && !Complete([97], DEF, [])
  {
    assert DEF[..4] == DEF;
  }
}
