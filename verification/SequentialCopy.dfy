/** Decoding that switches to copying bytes of the prompt: waiting, copying behind a cursor, ended. */
module SequentialCopy {
  import opened PyData
  import opened Utf8
  import opened Softmax

  /** `b'def '` */
  const DEF: seq<Byte> := [100, 101, 102, 32]

  /**
   * How the network behaves on a window of tokens and its prompt mask: the most likely byte, the position that
   * attention from the last token picks, and the probability of leaving the copy at a position.
   */
  datatype Model = Model(base: (seq<Byte>, seq<bool>) -> Byte, start: (seq<Byte>, seq<bool>) -> nat,
                         exit: (seq<Byte>, seq<bool>, nat) -> real)

  predicate Eligible(tokens: seq<Byte>, mask: seq<bool>, j: nat)
    requires |tokens| == |mask|
  {
    j < |tokens| && mask[j] && tokens[j] != 0
  }

  /** Attention picks an eligible position whenever there is one, and probabilities are between 0 and 1. */
  ghost predicate WellBehaved(m: Model) {
    && (forall tokens, mask {:trigger m.start(tokens, mask)} ::
          |tokens| == |mask| && (exists j :: Eligible(tokens, mask, j)) ==> Eligible(tokens, mask, m.start(tokens, mask)))
    && (forall tokens, mask, j :: 0.0 <= m.exit(tokens, mask, j) <= 1.0)
  }

  // ----- One decoding step -----

  datatype Mode = Waiting | Copying | Ended

  datatype State = State(mode: Mode, cursor: nat)

  /** `Source` carries the copied byte and the exit probability; a `Boundary` has no source byte. */
  datatype Event =
    | Boundary(query: int, cursor: int, base: int, chosen: int)
    | Source(query: int, cursor: int, base: int, chosen: int, source: int, probability: real, exits: bool)

  predicate IsCopy(e: Event) {
    e.Source? && !e.exits
  }

  /** The trigger: the first four output bytes start the copy when the window still shows prompt bytes. */
  function Triggered(m: Model, tokens: seq<Byte>, mask: seq<bool>, offset: nat, output: seq<Byte>, st: State): State {
    if st.mode == Waiting && output == DEF then
      if true !in mask then State(Ended, st.cursor) else State(Copying, offset + m.start(tokens, mask))
    else st
  }

  /** The byte a step emits, the event it reports and the state it leaves. */
  function StepDecision(m: Model, tokens: seq<Byte>, mask: seq<bool>, offset: nat, output: seq<Byte>, query: nat,
                        st: State): (Byte, Option<Event>, State)
    requires |tokens| == |mask|
  {
    var base := m.base(tokens, mask);
    var s := Triggered(m, tokens, mask, offset, output, st);
    if s.mode != Copying then (base, None, s)
    else if s.cursor < offset || !Eligible(tokens, mask, s.cursor - offset) then
      (base, Some(Boundary(query, s.cursor, base, base)), State(Ended, s.cursor))
    else
      var p := m.exit(tokens, mask, s.cursor - offset);
      var source := tokens[s.cursor - offset];
      var chosen := if p >= 0.5 then base else source;
      (chosen, Some(Source(query, s.cursor, base, chosen, source, p, p >= 0.5)),
       if p >= 0.5 then State(Ended, s.cursor) else State(Copying, s.cursor + 1))
  }

  // ----- Generation -----

  datatype Job = Job(prompt: seq<Byte>, context: nat, budget: nat)

  /** `b'[USER]: '` */
  const USER: seq<Byte> := [91, 85, 83, 69, 82, 93, 58, 32]

  /** `b'\n[AI]:\n'` */
  const AI: seq<Byte> := [10, 91, 65, 73, 93, 58, 10]

  function Frame(job: Job): seq<Byte> {
    USER + job.prompt + AI
  }

  function Left(job: Job): nat {
    |USER|
  }

  function Right(job: Job): nat {
    |USER| + |job.prompt|
  }

  function Offset(job: Job, query: nat): nat {
    if |Frame(job)| + query > job.context then |Frame(job)| + query - job.context else 0
  }

  function Window(job: Job, output: seq<Byte>): (w: seq<Byte>)
    ensures |w| == |Frame(job)| + |output| - Offset(job, |output|)
  {
    (Frame(job) + output)[Offset(job, |output|)..]
  }

  function Mask(job: Job, output: seq<Byte>): (r: seq<bool>)
    ensures |r| == |Window(job, output)|
    ensures forall j :: 0 <= j < |r| ==> (r[j] <==> Left(job) <= j + Offset(job, |output|) < Right(job))
  {
    seq(|Window(job, output)|, j requires 0 <= j => Left(job) <= j + Offset(job, |output|) < Right(job))
  }

  datatype Run = Run(output: seq<Byte>, events: seq<Event>, st: State)

  const START := Run([], [], State(Waiting, 0))

  /** The step's decision at the end of a run. */
  function Decision(m: Model, job: Job, r: Run): (Byte, Option<Event>, State) {
    StepDecision(m, Window(job, r.output), Mask(job, r.output), Offset(job, |r.output|), r.output, |r.output|, r.st)
  }

  /** The run after a decision, and whether the end byte stopped it. */
  function Apply(r: Run, d: (Byte, Option<Event>, State)): (Run, bool) {
    var events := if d.1.Some? then r.events + [d.1.value] else r.events;
    if d.0 == 0 then (Run(r.output, events, d.2), true) else (Run(r.output + [d.0], events, d.2), false)
  }

  function Query(m: Model, job: Job, r: Run): (Run, bool) {
    Apply(r, Decision(m, job, r))
  }

  function Continue(m: Model, job: Job, r: Run, left: nat): Run
    decreases left
  {
    if left == 0 then r else
      var (r', stop) := Query(m, job, r);
      if stop then r' else Continue(m, job, r', left - 1)
  }

  /** Steps until one stops, at most `left` times. */
  function Repeated(next: Run -> (Run, bool), r: Run, left: nat): Run
    decreases left
  {
    if left == 0 then r else if next(r).1 then next(r).0 else Repeated(next, next(r).0, left - 1)
  }

  /** Every step from a live state leads to a live one, or stops in a final one. */
  ghost predicate StaysLive(next: Run -> (Run, bool), live: (Run, nat) -> bool, final: Run -> bool) {
    && (forall r :: live(r, 0) ==> final(r))
    && forall r, k: nat {:trigger live(r, k)} :: k > 0 && live(r, k) ==>
         if next(r).1 then final(next(r).0) else live(next(r).0, k - 1)
  }

  lemma {:induction false} RepeatedEndsFinal(next: Run -> (Run, bool), live: (Run, nat) -> bool, final: Run -> bool, r: Run, left: nat)
    requires StaysLive(next, live, final) && live(r, left)
    ensures final(Repeated(next, r, left))
    decreases left
  {
    if left > 0 && !next(r).1 {
      RepeatedEndsFinal(next, live, final, next(r).0, left - 1);
    }
  }

  lemma {:induction false} ContinueIsRepeated(m: Model, job: Job, next: Run -> (Run, bool), r: Run, left: nat)
    requires forall s {:trigger next(s)} :: next(s) == Query(m, job, s)
    ensures Continue(m, job, r, left) == Repeated(next, r, left)
    decreases left
  {
    if left > 0 {
      ContinueIsRepeated(m, job, next, next(r).0, left - 1);
    }
  }

  /** What `generate` produces for a prompt that fits the context. */
  function Generated(m: Model, job: Job): Run {
    Continue(m, job, START, job.budget)
  }

  // ----- What the model is shown, and which bytes it emits -----

  /** The last `n` elements, or all when there are no more. */
  function Newest<T>(s: seq<T>, n: nat): seq<T> {
    if |s| <= n then s else s[|s| - n..]
  }

  /** Which bytes of the frame and `emitted` further ones belong to the prompt. */
  function PromptMask(job: Job, emitted: nat): seq<bool> {
    seq(8, _ => false) + seq(|job.prompt|, _ => true) + seq(7 + emitted, _ => false)
  }

  /** The model first sees the whole frame. */
  lemma WindowStarts(job: Job)
    requires |Frame(job)| <= job.context
    ensures Window(job, []) == USER + job.prompt + AI
  {
    assert Frame(job) + [] == Frame(job);
  }

  /** Each emitted byte is appended to what the model sees; once the context is full, the oldest byte goes. */
  lemma WindowRolls(job: Job, output: seq<Byte>, b: Byte)
    requires |Frame(job)| <= job.context
    ensures Window(job, output + [b]) ==
            if |Frame(job)| + |output| < job.context then Window(job, output) + [b] else Window(job, output)[1..] + [b]
  {
    var whole := Frame(job) + output;
    assert Frame(job) + (output + [b]) == whole + [b];
  }

  lemma WindowIsNewest(job: Job, output: seq<Byte>)
    ensures Window(job, output) == Newest(Frame(job) + output, job.context)
    ensures Mask(job, output) == Newest(PromptMask(job, |output|), job.context)
  {
  }

  /** What the model's base byte is after an output. */
  function BaseByte(m: Model, job: Job, output: seq<Byte>): Byte {
    m.base(Newest(Frame(job) + output, job.context), Newest(PromptMask(job, |output|), job.context))
  }

  /** How many bytes of the frame and the output no longer fit the context. */
  function Gone(job: Job, output: seq<Byte>): nat {
    if |Frame(job) + output| <= job.context then 0 else |Frame(job) + output| - job.context
  }

  /** A copied or declined byte comes with the model's probability of leaving the copy at its place in the window. */
  predicate ExitReported(m: Model, job: Job, output: seq<Byte>, e: Event) {
    e.Source? ==>
      && e.cursor >= Gone(job, output)
      && e.probability == m.exit(Newest(Frame(job) + output, job.context), Newest(PromptMask(job, |output|), job.context),
                                 e.cursor - Gone(job, output))
  }

  /** The first event stands where the model's attention starts. */
  predicate StartReported(m: Model, job: Job, output: seq<Byte>, events: seq<Event>) {
    events != [] ==>
      && |output| >= 4 && output[..4] == DEF
      && events[0].cursor == Gone(job, DEF) + m.start(Newest(Frame(job) + DEF, job.context), Newest(PromptMask(job, 4), job.context))
  }

  /** The byte at `q` is the base byte there; or an event at `q` reports the base byte and chooses the byte. */
  predicate Accounted(m: Model, job: Job, output: seq<Byte>, events: seq<Event>, q: nat)
    requires q < |output|
  {
    var base := BaseByte(m, job, output[..q]);
    && (forall k :: 0 <= k < |events| && events[k].query == q ==>
          events[k].base == base && events[k].chosen == output[q] && ExitReported(m, job, output[..q], events[k]))
    && ((forall k :: 0 <= k < |events| ==> events[k].query != q) ==> output[q] == base)
  }

  predicate AllAccounted(m: Model, job: Job, output: seq<Byte>, events: seq<Event>) {
    forall q :: 0 <= q < |output| ==> Accounted(m, job, output, events, q)
  }

  predicate EventsBefore(events: seq<Event>, q: nat) {
    forall k :: 0 <= k < |events| ==> events[k].query < q
  }

  lemma DecisionReports(m: Model, job: Job, r: Run)
    ensures var d := Decision(m, job, r);
            var base := BaseByte(m, job, r.output);
            match d.1
            case None => d.0 == base
            case Some(e) => e.query == |r.output| && e.base == base && e.chosen == d.0 && ExitReported(m, job, r.output, e)
  {
    WindowIsNewest(job, r.output);
  }

  /** Further bytes, and events at further queries, leave a byte accounted for. */
  lemma StaysAccounted(m: Model, job: Job, output: seq<Byte>, events: seq<Event>, more: seq<Byte>, others: seq<Event>, q: nat)
    requires q < |output| && Accounted(m, job, output, events, q)
    requires forall k :: 0 <= k < |others| ==> others[k].query > q
    ensures Accounted(m, job, output + more, events + others, q)
  {
    assert (output + more)[..q] == output[..q];
    assert forall k :: 0 <= k < |events| ==> (events + others)[k] == events[k];
    assert forall k :: |events| <= k < |events + others| ==> (events + others)[k] == others[k - |events|];
  }

  lemma NewByteAccounted(m: Model, job: Job, output: seq<Byte>, events: seq<Event>, b: Byte, others: seq<Event>)
    requires EventsBefore(events, |output|) && |others| <= 1
    requires if others == [] then b == BaseByte(m, job, output)
             else others[0].query == |output| && others[0].base == BaseByte(m, job, output) && others[0].chosen == b && ExitReported(m, job, output, others[0])
    ensures Accounted(m, job, output + [b], events + others, |output|)
  {
    assert (output + [b])[..|output|] == output;
    assert others != [] ==> (events + others)[|events|] == others[0];
  }

  lemma QueryAccounted(m: Model, job: Job, r: Run)
    requires EventsBefore(r.events, |r.output|) && AllAccounted(m, job, r.output, r.events)
    ensures var (r', stop) := Query(m, job, r);
            AllAccounted(m, job, r'.output, r'.events) && (!stop ==> EventsBefore(r'.events, |r'.output|))
  {
    var d := Decision(m, job, r);
    var (r', stop) := Query(m, job, r);
    var others := if d.1.Some? then [d.1.value] else [];
    var more := if stop then [] else [d.0];
    DecisionReports(m, job, r);
    assert r'.output == r.output + more && r'.events == r.events + others;
    forall q | 0 <= q < |r'.output|
      ensures Accounted(m, job, r'.output, r'.events, q)
    {
      if q < |r.output| {
        StaysAccounted(m, job, r.output, r.events, more, others, q);
      } else {
        NewByteAccounted(m, job, r.output, r.events, d.0, others);
      }
    }
  }

  /** Nothing is copied before the first event, and that is where attention starts. */
  predicate StartKept(m: Model, job: Job, r: Run) {
    StartReported(m, job, r.output, r.events) && (r.events == [] ==> r.st.mode != Copying)
  }

  lemma QueryKeepsStart(m: Model, job: Job, r: Run)
    requires StartKept(m, job, r)
    ensures StartKept(m, job, Query(m, job, r).0)
  {
    var r' := Query(m, job, r).0;
    WindowIsNewest(job, r.output);
    if r.events != [] {
      assert r'.events[0] == r.events[0] && r'.output[..4] == r.output[..4];
    } else if r'.events != [] {
      assert r'.output[..4] == DEF;
    }
  }

  lemma {:induction false} ContinueAccounted(m: Model, job: Job, r: Run, left: nat)
    requires EventsBefore(r.events, |r.output|) && AllAccounted(m, job, r.output, r.events) && StartKept(m, job, r)
    ensures AllAccounted(m, job, Continue(m, job, r, left).output, Continue(m, job, r, left).events)
    ensures StartReported(m, job, Continue(m, job, r, left).output, Continue(m, job, r, left).events)
    decreases left
  {
    if left > 0 {
      QueryAccounted(m, job, r);
      QueryKeepsStart(m, job, r);
      if !Query(m, job, r).1 {
        ContinueAccounted(m, job, Query(m, job, r).0, left - 1);
      }
    }
  }

  /**
   * Every emitted byte without an event is the model's base byte for the last `context` bytes of the frame and the
   * output so far; where there is an event, it reports that base byte, the probability of leaving and chooses the emitted
   * byte; and the first event stands where the model's attention starts.
   */
  lemma GeneratedIsAccounted(m: Model, job: Job)
    ensures AllAccounted(m, job, Generated(m, job).output, Generated(m, job).events)
    ensures StartReported(m, job, Generated(m, job).output, Generated(m, job).events)
  {
    ContinueAccounted(m, job, START, job.budget);
  }

  /** The decoder state, changed by each step. */
  class DecodeState {
    var mode: Mode
    var cursor: nat

    constructor ()
      ensures mode == Waiting && cursor == 0
    {
      mode, cursor := Waiting, 0;
    }

    method Step(m: Model, tokens: seq<Byte>, mask: seq<bool>, offset: nat, output: seq<Byte>, query: nat)
      returns (token: Byte, event: Option<Event>)
      requires |tokens| == |mask|
      modifies this
      ensures (token, event, State(mode, cursor)) ==
              StepDecision(m, tokens, mask, offset, output, query, old(State(mode, cursor)))
    {
      token, event := m.base(tokens, mask), None;
      if mode == Waiting && output == DEF {
        mode := Copying;
        if true !in mask {
          mode := Ended;
        } else {
          cursor := offset + m.start(tokens, mask);
        }
      }
      if mode == Copying {
        if cursor < offset || !Eligible(tokens, mask, cursor - offset) {
          mode := Ended;
          event := Some(Boundary(query, cursor, token, token));
        } else {
          var probability := m.exit(tokens, mask, cursor - offset);
          var source, base := tokens[cursor - offset], token;
          var exits := probability >= 0.5;
          token := if exits then base else source;
          event := Some(Source(query, cursor, base, token, source, probability, exits));
          if exits {
            mode := Ended;
          } else {
            cursor := cursor + 1;
          }
        }
      }
    }
  }

  /** `None` stands for the ValueError of a prompt that holds a zero byte or does not fit the context. */
  method Generate(m: Model, job: Job) returns (r: Option<(seq<Byte>, seq<Event>)>)
    ensures r.None? <==> |Frame(job)| > job.context || 0 in job.prompt
    ensures r.Some? ==> r.value == (Generated(m, job).output, Generated(m, job).events)
    ensures r.Some? ==> AllAccounted(m, job, r.value.0, r.value.1) && StartReported(m, job, r.value.0, r.value.1)
  {
    GeneratedIsAccounted(m, job);
    if |Frame(job)| > job.context || 0 in job.prompt {
      return None;
    }
    var output, events := [], [];
    var state := new DecodeState();
    for query := 0 to job.budget
      invariant |output| == query
      invariant Generated(m, job) == Continue(m, job, Run(output, events, State(state.mode, state.cursor)), job.budget - query)
    {
      var token, event :=
        state.Step(m, Window(job, output), Mask(job, output), Offset(job, query), output, query);
      if event.Some? {
        events := events + [event.value];
      }
      if token == 0 {
        break;
      }
      output := output + [token];
    }
    r := Some((output, events));
  }
}
