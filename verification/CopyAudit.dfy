/** The independent checker of copy events, and how it relates to what decoding can produce. */
module CopyAudit {
  import opened PyData
  import opened Utf8
  import opened SequentialCopy

  const CONTEXT: nat := 256
  const BUDGET: nat := 160

  /** The checker's reading of a prompt: a context of 256 bytes and a budget of 160. */
  function Audited(prompt: seq<Byte>): Job {
    Job(prompt, CONTEXT, BUDGET)
  }

  // ----- The checks -----

  predicate TimingOk(output: seq<Byte>, i: nat, e: Event) {
    4 <= e.query < 160 && e.query <= |output| && (i == 0 ==> e.query == 4) && 0 <= e.base < 256
  }

  predicate FollowsOk(previous: Option<Event>, e: Event) {
    previous.Some? ==>
      IsCopy(previous.value) && e.query == previous.value.query + 1 && e.cursor == previous.value.cursor + 1
  }

  /** The cursor points at a nonzero prompt byte that the window at this query still shows. */
  predicate CursorValid(job: Job, query: nat, cursor: int) {
    Left(job) <= cursor < Right(job) && cursor >= Offset(job, query) && Frame(job)[cursor] != 0
  }

  predicate SourceOk(job: Job, e: Event)
    requires e.query >= 0
  {
    var valid := CursorValid(job, e.query, e.cursor);
    match e
    case Boundary(_, _, base, chosen) => !valid && chosen == base
    case Source(_, cursor, base, chosen, source, p, exits) =>
      && valid && source == Frame(job)[cursor] && 0.0 <= p <= 1.0
      && exits == (p >= 0.5) && chosen == (if p >= 0.5 then base else Frame(job)[cursor] as int)
  }

  predicate EmittedOk(output: seq<Byte>, e: Event)
    requires e.query >= 0
  {
    e.chosen == if e.query < |output| then output[e.query] as int else 0
  }

  predicate EventOk(job: Job, output: seq<Byte>, i: nat, previous: Option<Event>, e: Event) {
    TimingOk(output, i, e) && FollowsOk(previous, e) && SourceOk(job, e) && EmittedOk(output, e)
  }

  function Previous(events: seq<Event>, i: nat): Option<Event>
    requires i <= |events|
  {
    if i == 0 then None else Some(events[i - 1])
  }

  /** Every event passes, next to the one before it. */
  predicate EventsOk(job: Job, output: seq<Byte>, events: seq<Event>) {
    events != [] ==>
      var n := |events| - 1;
      EventsOk(job, output, events[..n]) && EventOk(job, output, n, Previous(events, n), events[n])
  }

  predicate NoZero(output: seq<Byte>) {
    forall i :: 0 <= i < |output| ==> output[i] != 0
  }

  /** The case passes the audit. */
  predicate Accepts(prompt: seq<Byte>, text: seq<Scalar>, output: seq<Byte>, events: seq<Event>) {
    && |output| <= 160 && NoZero(output) && text == Utf8.Decode(output)
    && EventsOk(Audited(prompt), output, events)
    && (events != [] ==> DEF <= text)
  }

  lemma {:induction false} PrefixOk(job: Job, output: seq<Byte>, events: seq<Event>, n: nat)
    requires n <= |events|
    ensures EventsOk(job, output, events) ==> EventsOk(job, output, events[..n])
  {
    if n < |events| {
      var m := |events| - 1;
      PrefixOk(job, output, events[..m], n);
      assert events[..m][..n] == events[..n];
    } else {
      assert events[..n] == events;
    }
  }

  /** The loop of `audit_events` over the events, each next to the one before it. */
  method AuditLoop(job: Job, output: seq<Byte>, events: seq<Event>) returns (ok: bool)
    ensures ok <==> EventsOk(job, output, events)
  {
    var previous: Option<Event> := None;
    for i := 0 to |events|
      invariant previous == Previous(events, i)
      invariant EventsOk(job, output, events[..i])
    {
      assert events[..i + 1][..i] == events[..i];
      if !EventOk(job, output, i, previous, events[i]) {
        PrefixOk(job, output, events, i + 1);
        return false;
      }
      previous := Some(events[i]);
    }
    assert events[..|events|] == events;
    ok := true;
  }

  /** `audit_events`; `false` stands for the ValueError of a failed check. */
  method AuditEvents(prompt: seq<Byte>, text: seq<Scalar>, output: seq<Byte>, events: seq<Event>) returns (ok: bool)
    ensures ok <==> Accepts(prompt, text, output, events)
  {
    if |output| > 160 || !NoZero(output) || Utf8.Decode(output) != text {
      return false;
    }
    ok := AuditLoop(Audited(prompt), output, events);
    ok := ok && (events == [] || DEF <= text);
  }

  // ----- What every accepted case guarantees -----

  lemma EventAt(job: Job, output: seq<Byte>, events: seq<Event>, i: nat)
    requires EventsOk(job, output, events) && i < |events|
    ensures EventOk(job, output, i, Previous(events, i), events[i])
  {
    PrefixOk(job, output, events, i + 1);
    assert events[..i + 1][i] == events[i] && Previous(events[..i + 1], i) == Previous(events, i);
  }

  /** Events are copies at consecutive queries and cursors, up to a last event of any kind. */
  lemma {:induction false} AcceptedIsOneEpisode(job: Job, output: seq<Byte>, events: seq<Event>, i: nat)
    requires EventsOk(job, output, events) && i < |events|
    ensures events[i].query == 4 + i && events[i].cursor == events[0].cursor + i
    ensures i < |events| - 1 ==> IsCopy(events[i])
  {
    EventAt(job, output, events, i);
    if i < |events| - 1 {
      EventAt(job, output, events, i + 1);
    }
    if i > 0 {
      AcceptedIsOneEpisode(job, output, events, i - 1);
    }
  }

  lemma FrameShowsPrompt(job: Job, c: int)
    requires Left(job) <= c < Right(job)
    ensures c < |Frame(job)| && Frame(job)[c] == job.prompt[c - |USER|]
  {
  }

  lemma CopyEmitsPromptByte(job: Job, output: seq<Byte>, events: seq<Event>, k: nat)
    requires EventsOk(job, output, events) && k < |events| && IsCopy(events[k])
    ensures var e := events[k];
            |USER| <= e.cursor < |USER| + |job.prompt| && 4 <= e.query < |output| && output[e.query] == job.prompt[e.cursor - |USER|]
  {
    EventAt(job, output, events, k);
    FrameShowsPrompt(job, events[k].cursor);
  }

  predicate SameAt(a: seq<Byte>, i: int, b: seq<Byte>, j: int, k: nat) {
    0 <= i + k < |a| && 0 <= j + k < |b| && a[i + k] == b[j + k]
  }

  /** The `n` bytes of `a` from `i` on are those of `b` from `j` on. */
  predicate SameSlice(a: seq<Byte>, i: int, b: seq<Byte>, j: int, n: nat) {
    0 <= i && i + n <= |a| && 0 <= j && j + n <= |b| && a[i..i + n] == b[j..j + n]
  }

  lemma SameSlices(a: seq<Byte>, i: nat, b: seq<Byte>, j: int, n: nat)
    requires n > 0 && forall k: nat :: k < n ==> SameAt(a, i, b, j, k)
    ensures SameSlice(a, i, b, j, n)
  {
    assert SameAt(a, i, b, j, 0) && SameAt(a, i, b, j, n - 1);
    var s, t := a[i..i + n], b[j..j + n];
    forall k | 0 <= k < n
      ensures s[k] == t[k]
    {
      assert SameAt(a, i, b, j, k);
    }
  }

  lemma CopiedByte(job: Job, output: seq<Byte>, events: seq<Event>, start: int, k: nat)
    requires EventsOk(job, output, events) && k < |events| && (k == |events| - 1 ==> IsCopy(events[k]))
    requires start == events[0].cursor - |USER|
    ensures SameAt(output, 4, job.prompt, start, k)
  {
    AcceptedIsOneEpisode(job, output, events, k);
    CopyEmitsPromptByte(job, output, events, k);
  }

  lemma CopiedBytes(job: Job, output: seq<Byte>, events: seq<Event>, start: int, n: nat)
    requires EventsOk(job, output, events) && 0 < n <= |events| && (n == |events| ==> IsCopy(events[n - 1]))
    requires start == events[0].cursor - |USER|
    ensures forall k: nat :: k < n ==> SameAt(output, 4, job.prompt, start, k)
  {
    forall k: nat | k < n
      ensures SameAt(output, 4, job.prompt, start, k)
    {
      CopiedByte(job, output, events, start, k);
    }
  }

  /** The bytes that the first `n` events copy are one slice of the prompt, starting at the first cursor. */
  lemma CopiesAreOneSlice(job: Job, output: seq<Byte>, events: seq<Event>, n: nat)
    requires EventsOk(job, output, events)
    requires 0 < n <= |events| && (n == |events| ==> IsCopy(events[n - 1]))
    ensures SameSlice(output, 4, job.prompt, events[0].cursor - |USER|, n)
  {
    var start := events[0].cursor - |USER|;
    CopiedBytes(job, output, events, start, n);
    SameSlices(output, 4, job.prompt, start, n);
  }

  /** After a copy, only the end of the prompt stops the cursor: the window never overtakes it. */
  lemma BoundaryOnlyAtPromptEnd(job: Job, output: seq<Byte>, events: seq<Event>, i: nat)
    requires NoZero(job.prompt) && EventsOk(job, output, events)
    requires 0 < i < |events| && events[i].Boundary?
    ensures events[i].cursor == Right(job)
  {
    EventAt(job, output, events, i - 1);
    EventAt(job, output, events, i);
    var c := events[i].cursor;
    if c != Right(job) {
      FrameShowsPrompt(job, c);
      assert false;
    }
  }

  // ----- Every run passes -----

  /** A position of the window is eligible exactly when the checker calls the cursor there valid. */
  lemma EligibleIsValid(job: Job, output: seq<Byte>, c: nat)
    ensures (c >= Offset(job, |output|) && Eligible(Window(job, output), Mask(job, output), c - Offset(job, |output|)))
            <==> CursorValid(job, |output|, c)
  {
    var offset := Offset(job, |output|);
    if Left(job) <= c < Right(job) && c >= offset {
      FrameShowsPrompt(job, c);
      assert Window(job, output)[c - offset] == (Frame(job) + output)[c];
    }
  }

  /** Reported events belong to past queries, the first of them at the trigger. */
  predicate Paced(r: Run) {
    && (forall i :: 0 <= i < |r.events| ==> r.events[i].query < |r.output|)
    && (r.events != [] ==> |r.output| > 4 && r.output[..4] == DEF)
  }

  /** While copying, the cursor is one past the last copied byte and the window still reaches it. */
  predicate Tracked(job: Job, r: Run) {
    && (r.st.mode == Waiting ==> r.events == [])
    && (r.st.mode == Copying ==>
          r.events != [] &&
          var last := r.events[|r.events| - 1];
          IsCopy(last) && last.query == |r.output| - 1 && last.cursor + 1 == r.st.cursor && 4 <= last.query
          && Offset(job, |r.output|) <= r.st.cursor)
  }

  /** What holds between two queries. */
  predicate Live(job: Job, r: Run) {
    NoZero(r.output) && EventsOk(job, r.output, r.events) && Paced(r) && Tracked(job, r)
  }

  /** Further output bytes leave events that have already been emitted as good as they were. */
  lemma {:induction false} EventsKeepOk(job: Job, output: seq<Byte>, more: seq<Byte>, events: seq<Event>)
    requires EventsOk(job, output, events)
    requires forall i :: 0 <= i < |events| ==> events[i].query < |output|
    ensures EventsOk(job, output + more, events)
  {
    if events != [] {
      EventsKeepOk(job, output, more, events[..|events| - 1]);
    }
  }

  lemma PromptShown(m: Model, job: Job, output: seq<Byte>)
    requires WellBehaved(m) && NoZero(job.prompt) && true in Mask(job, output)
    ensures Eligible(Window(job, output), Mask(job, output), m.start(Window(job, output), Mask(job, output)))
  {
    var tokens, mask := Window(job, output), Mask(job, output);
    var j :| 0 <= j < |mask| && mask[j];
    FrameShowsPrompt(job, j + Offset(job, |output|));
    assert tokens[j] == (Frame(job) + output)[j + Offset(job, |output|)];
    assert Eligible(tokens, mask, j);
  }

  /** Where the cursor stands once the trigger has been tested: on a byte the window shows, or past the prompt. */
  lemma TriggerKeepsCursor(m: Model, job: Job, r: Run)
    requires WellBehaved(m) && NoZero(job.prompt) && Live(job, r)
    ensures var s := Triggered(m, Window(job, r.output), Mask(job, r.output), Offset(job, |r.output|), r.output, r.st);
      && (s.mode == Copying ==> Offset(job, |r.output|) <= s.cursor && 4 <= |r.output|)
      && (s.mode == Copying && r.events == [] ==> r.output == DEF && CursorValid(job, 4, s.cursor))
      && (s.mode == Copying && r.events != [] ==> s == r.st)
      && (s.mode == Waiting ==> r.output != DEF)
  {
    if r.st.mode == Waiting && r.output == DEF && true in Mask(job, r.output) {
      PromptShown(m, job, r.output);
      EligibleIsValid(job, r.output, Offset(job, 4) + m.start(Window(job, r.output), Mask(job, r.output)));
    }
  }

  /** What a step does once the cursor is in place, in the checker's terms. */
  lemma CopyingDecision(m: Model, job: Job, output: seq<Byte>, st: State, c: nat)
    requires Triggered(m, Window(job, output), Mask(job, output), Offset(job, |output|), output, st) == State(Copying, c)
    ensures var (tokens, mask, offset, q) := (Window(job, output), Mask(job, output), Offset(job, |output|), |output|);
      StepDecision(m, tokens, mask, offset, output, q, st) ==
      if !CursorValid(job, q, c) then
        (m.base(tokens, mask), Some(Boundary(q, c, m.base(tokens, mask), m.base(tokens, mask))), State(Ended, c))
      else
        var p, source := m.exit(tokens, mask, c - offset), Frame(job)[c];
        var chosen := if p >= 0.5 then m.base(tokens, mask) else source;
        (chosen, Some(Source(q, c, m.base(tokens, mask), chosen, source, p, p >= 0.5)),
         if p >= 0.5 then State(Ended, c) else State(Copying, c + 1))
  {
    EligibleIsValid(job, output, c);
    if CursorValid(job, |output|, c) {
      assert Window(job, output)[c - Offset(job, |output|)] == (Frame(job) + output)[c];
    }
  }

  /** The event of a query with its cursor at `c`. */
  function CopyEvent(job: Job, q: nat, c: nat, base: Byte, p: real): Event {
    if !CursorValid(job, q, c) then Boundary(q, c, base, base)
    else Source(q, c, base, if p >= 0.5 then base else Frame(job)[c], Frame(job)[c], p, p >= 0.5)
  }

  lemma CopyEventOk(job: Job, output': seq<Byte>, i: nat, previous: Option<Event>, q: nat, c: nat, base: Byte, p: real)
    requires 4 <= q < 160 && (i == 0 ==> q == 4) && 0.0 <= p <= 1.0 && FollowsOk(previous, CopyEvent(job, q, c, base, p))
    requires q <= |output'| && EmittedOk(output', CopyEvent(job, q, c, base, p))
    ensures EventOk(job, output', i, previous, CopyEvent(job, q, c, base, p))
  {
  }

  /** The event and the byte of a step that reports one. */
  lemma DecidedEvent(m: Model, job: Job, output: seq<Byte>, st: State, d: (Byte, Option<Event>, State)) returns (c: nat, p: real)
    requires WellBehaved(m) && d.1.Some?
    requires d == StepDecision(m, Window(job, output), Mask(job, output), Offset(job, |output|), output, |output|, st)
    ensures Triggered(m, Window(job, output), Mask(job, output), Offset(job, |output|), output, st) == State(Copying, c)
    ensures 0.0 <= p <= 1.0 && d.0 as int == d.1.value.chosen
    ensures d.1.value == CopyEvent(job, |output|, c, m.base(Window(job, output), Mask(job, output)), p)
  {
    c, p := Triggered(m, Window(job, output), Mask(job, output), Offset(job, |output|), output, st).cursor, 0.0;
    CopyingDecision(m, job, output, st, c);
    if CursorValid(job, |output|, c) {
      p := m.exit(Window(job, output), Mask(job, output), c - Offset(job, |output|));
    }
  }

  /** A copying step follows the event before it, or is the one at the trigger. */
  lemma StepFollows(m: Model, job: Job, r: Run, e: Event)
    requires WellBehaved(m) && NoZero(job.prompt) && Live(job, r)
    requires var s := Triggered(m, Window(job, r.output), Mask(job, r.output), Offset(job, |r.output|), r.output, r.st);
             s.mode == Copying && e.query == |r.output| && e.cursor == s.cursor
    ensures |r.output| >= 4 && (r.events == [] ==> |r.output| == 4) && FollowsOk(Previous(r.events, |r.events|), e)
  {
    TriggerKeepsCursor(m, job, r);
  }

  /** An event that a query reports passes every check. */
  lemma ReportedEventOk(m: Model, job: Job, r: Run, d: (Byte, Option<Event>, State), output': seq<Byte>)
    requires WellBehaved(m) && NoZero(job.prompt) && Live(job, r) && |r.output| < 160
    requires d == StepDecision(m, Window(job, r.output), Mask(job, r.output), Offset(job, |r.output|), r.output, |r.output|, r.st)
    requires d.1.Some? && output' == if d.0 == 0 then r.output else r.output + [d.0]
    ensures EventOk(job, output', |r.events|, Previous(r.events, |r.events|), d.1.value)
  {
    var c, p := DecidedEvent(m, job, r.output, r.st, d);
    StepFollows(m, job, r, d.1.value);
    CopyEventOk(job, output', |r.events|, Previous(r.events, |r.events|), |r.output|, c,
                m.base(Window(job, r.output), Mask(job, r.output)), p);
  }

  lemma AppendedEventOk(job: Job, output: seq<Byte>, events: seq<Event>, e: Event)
    requires EventsOk(job, output, events) && EventOk(job, output, |events|, Previous(events, |events|), e)
    ensures EventsOk(job, output, events + [e])
  {
    var all := events + [e];
    assert all[..|events|] == events && Previous(all, |events|) == Previous(events, |events|);
  }

  lemma LongerOutputOk(job: Job, r: Run, token: Byte)
    requires Live(job, r)
    ensures var output' := if token == 0 then r.output else r.output + [token];
      NoZero(output') && EventsOk(job, output', r.events)
  {
    if token != 0 {
      EventsKeepOk(job, r.output, [token], r.events);
    }
  }

  /** A query leaves checked events. */
  lemma QueryEventsOk(m: Model, job: Job, r: Run)
    requires WellBehaved(m) && NoZero(job.prompt) && Live(job, r) && |r.output| < 160
    ensures var r' := Query(m, job, r).0; NoZero(r'.output) && EventsOk(job, r'.output, r'.events)
  {
    var d := StepDecision(m, Window(job, r.output), Mask(job, r.output), Offset(job, |r.output|), r.output, |r.output|, r.st);
    var output' := if d.0 == 0 then r.output else r.output + [d.0];
    LongerOutputOk(job, r, d.0);
    if d.1.Some? {
      ReportedEventOk(m, job, r, d, output');
      AppendedEventOk(job, output', r.events, d.1.value);
    }
  }

  lemma QueryPaced(m: Model, job: Job, r: Run)
    requires WellBehaved(m) && NoZero(job.prompt) && Live(job, r)
    ensures var (r', stop) := Query(m, job, r);
      && (!stop ==> Paced(r') && |r'.output| == |r.output| + 1)
      && (r'.events != [] ==> |r'.output| >= 4 && r'.output[..4] == DEF)
  {
    TriggerKeepsCursor(m, job, r);
  }

  lemma QueryTracked(m: Model, job: Job, r: Run)
    requires WellBehaved(m) && NoZero(job.prompt) && Live(job, r)
    ensures var (r', stop) := Query(m, job, r); !stop ==> Tracked(job, r')
  {
    TriggerKeepsCursor(m, job, r);
  }

  /** A finished run: its events pass, and there are none unless the output starts with `def `. */
  predicate Clean(job: Job, r: Run) {
    NoZero(r.output) && EventsOk(job, r.output, r.events) && (r.events != [] ==> |r.output| >= 4 && r.output[..4] == DEF)
  }

  lemma QueryKeepsLive(m: Model, job: Job, r: Run)
    requires WellBehaved(m) && NoZero(job.prompt) && Live(job, r) && |r.output| < 160
    ensures var (r', stop) := Query(m, job, r);
      if stop then Clean(job, r') && r'.output == r.output else Live(job, r') && |r'.output| == |r.output| + 1
  {
    QueryEventsOk(m, job, r);
    QueryPaced(m, job, r);
    QueryTracked(m, job, r);
  }

  /** A run that starts in a live state is clean when it ends, and within the budget. */
  lemma RunIsClean(m: Model, job: Job, r: Run, left: nat)
    requires WellBehaved(m) && NoZero(job.prompt) && Live(job, r) && |r.output| + left <= 160
    ensures Clean(job, Continue(m, job, r, left)) && |Continue(m, job, r, left).output| <= |r.output| + left
  {
    var most := |r.output| + left;
    var next := (s: Run) => Query(m, job, s);
    var live := (s: Run, k: nat) => Live(job, s) && |s.output| + k <= most;
    var final := (s: Run) => Clean(job, s) && |s.output| <= most;
    forall s: Run, k: nat | k > 0 && live(s, k)
      ensures if next(s).1 then final(next(s).0) else live(next(s).0, k - 1)
    {
      QueryKeepsLive(m, job, s);
    }
    RepeatedEndsFinal(next, live, final, r, left);
    ContinueIsRepeated(m, job, next, r, left);
  }

  /** Whatever the model does, the output and events of a run on a prompt without zero bytes pass the audit. */
  lemma EveryRunPasses(m: Model, prompt: seq<Byte>)
    requires WellBehaved(m) && NoZero(prompt)
    ensures var r := Generated(m, Audited(prompt)); Accepts(prompt, Utf8.Decode(r.output), r.output, r.events)
  {
    var r := Generated(m, Audited(prompt));
    RunIsClean(m, Audited(prompt), SequentialCopy.START, BUDGET);
    if r.events != [] {
      DecodeAsciiPrefix(DEF, r.output[4..]);
      assert r.output == DEF + r.output[4..];
    }
  }

  lemma DefIsAscii(text: seq<Scalar>)
    requires DEF <= text
    ensures Ascii("def ") <= text && |text| >= 4 && text[..4] == Ascii("def ")
    ensures forall i :: 0 <= i < 4 ==> text[i] < 0x80
  {
    assert Ascii("def ") == DEF;
    assert forall i :: 0 <= i < 4 ==> text[i] == DEF[i];
  }

  /** Copying is accepted only in a text that starts with `def `, and only where the bytes themselves do. */
  lemma AcceptedCopyStartsWithDef(prompt: seq<Byte>, text: seq<Scalar>, output: seq<Byte>, events: seq<Event>)
    ensures Accepts(prompt, text, output, events) && events != [] ==>
              Ascii("def ") <= text && text == Decode(output) && |output| >= 4 && output[..4] == Ascii("def ")
  {
    if text == Decode(output) && DEF <= text {
      DefIsAscii(text);
      DecodedAsciiBeginning(output, 4);
    }
  }
}
