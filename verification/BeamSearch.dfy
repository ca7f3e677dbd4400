/** Beam search over bytes and its early stop. */
module BeamSearch {
  import opened PyData
  import opened Utf8
  import opened Softmax
  import opened Transformer
  import opened CachedDecoding
  import opened GenerationContract
  import opened Generation
  import opened EarlyStop

  const WIDTH: nat := 8

  datatype Candidate = Candidate(score: real, body: seq<Byte>, count: nat)

  /**
   * What a search runs on: the prompt, the log probabilities of the next byte after a token list (`None` when a
   * logit is not a number) and the structural test of a finished body.
   */
  datatype Task = Task(prefix: seq<Byte>, logp: seq<Byte> -> Option<seq<real>>, accept: seq<Byte> -> bool)

  function ByScore(): Candidate -> real {
    (c: Candidate) => c.score
  }

  function ByteScore(lp: seq<real>): Byte -> real {
    (t: Byte) => if t < |lp| then lp[t] else 0.0
  }

  function AllBytes(): (r: seq<Byte>)
    ensures |r| == 256 && forall i :: 0 <= i < 256 ==> r[i] == i
  {
    seq(256, i requires 0 <= i < 256 => i)
  }

  /** `np.argsort(-logp, kind='stable')[:8]` */
  function TopTokens(lp: seq<real>): (r: seq<Byte>)
    ensures |r| <= WIDTH
  {
    Take(SortDesc(AllBytes(), ByteScore(lp)), WIDTH)
  }

  function Child(c: Candidate, lp: seq<real>, t: Byte): Candidate {
    Candidate(c.score + ByteScore(lp)(t), if t == 0 then c.body else c.body + [t], c.count + 1)
  }

  /** The continuations of `c` by the nonzero bytes among `tokens`. */
  function Grown(c: Candidate, lp: seq<real>, tokens: seq<Byte>): seq<Candidate> {
    if tokens == [] then [] else
      var n := |tokens| - 1;
      Grown(c, lp, tokens[..n]) + if tokens[n] != 0 then [Child(c, lp, tokens[n])] else []
  }

  /** The continuations of `c` by the end byte among `tokens`. */
  function Ended(c: Candidate, lp: seq<real>, tokens: seq<Byte>): seq<Candidate> {
    if tokens == [] then [] else
      var n := |tokens| - 1;
      Ended(c, lp, tokens[..n]) + if tokens[n] == 0 then [Child(c, lp, tokens[n])] else []
  }

  function Logp(task: Task, c: Candidate): Option<seq<real>> {
    task.logp(task.prefix + c.body)
  }

  predicate AllFinite(task: Task, beam: seq<Candidate>) {
    forall i :: 0 <= i < |beam| ==> Logp(task, beam[i]).Some?
  }

  function GrownAll(task: Task, beam: seq<Candidate>): seq<Candidate>
    requires AllFinite(task, beam)
  {
    if beam == [] then [] else
      var n := |beam| - 1;
      var lp := Logp(task, beam[n]).value;
      GrownAll(task, beam[..n]) + Grown(beam[n], lp, TopTokens(lp))
  }

  function EndedAll(task: Task, beam: seq<Candidate>): seq<Candidate>
    requires AllFinite(task, beam)
  {
    if beam == [] then [] else
      var n := |beam| - 1;
      var lp := Logp(task, beam[n]).value;
      EndedAll(task, beam[..n]) + Ended(beam[n], lp, TopTokens(lp))
  }

  /** The state between two depths: the beam, and every candidate that has ended so far, in order. */
  datatype Search = Search(beam: seq<Candidate>, ends: seq<Candidate>)

  const START := Search([Candidate(0.0, [], 0)], [])

  function Kept(task: Task, ends: seq<Candidate>): seq<Candidate> {
    if ends == [] then [] else
      var n := |ends| - 1;
      Kept(task, ends[..n]) + if task.accept(ends[n].body) then [ends[n]] else []
  }

  function Deeper(task: Task, s: Search): Search
    requires AllFinite(task, s.beam)
  {
    Search(Take(SortDesc(GrownAll(task, s.beam), ByScore()), WIDTH), s.ends + EndedAll(task, s.beam))
  }

  /** Something accepted has ended and no candidate still growing scores more. */
  predicate Settled(task: Task, s: Search) {
    var finished := Kept(task, s.ends);
    finished != [] && (s.beam == [] || FirstMax(finished, ByScore()).score >= s.beam[0].score)
  }

  function Step(task: Task): Search -> Option<Search> {
    (s: Search) => if AllFinite(task, s.beam) then Some(Deeper(task, s)) else None
  }

  function Exhausted(): Search -> bool {
    (s: Search) => s.beam == []
  }

  function SettledTest(task: Task): Search -> bool {
    (s: Search) => Settled(task, s)
  }

  /** The depth loop of `generate`; `None` stands for the error of a logit that is not a number. */
  function Run(task: Task, s: Search, left: nat): Option<Search> {
    Iterate(Step(task), Either(SettledTest(task), Exhausted()), s, left)
  }

  /** The same loop without its early stop. */
  function FullRun(task: Task, s: Search, left: nat): Option<Search> {
    Iterate(Step(task), Exhausted(), s, left)
  }

  /** The chosen candidate and the finish reason. */
  function Winner(task: Task, s: Search): (Candidate, Finish)
    requires Answerable(s)
  {
    var finished := Kept(task, s.ends);
    if finished != [] then (FirstMax(finished, ByScore()), Eos)
    else if s.ends == [] then (FirstMax(s.beam, ByScore()), Length)
    else
      var fallback := FirstMax(s.ends, ByScore());
      if s.beam == [] then (fallback, Eos) else
        var winner := FirstMax([fallback] + s.beam, ByScore());
        if FirstMax(s.beam, ByScore()).score <= fallback.score then (winner, Eos) else (winner, Length)
  }

  // ----- The early stop does not change the answer -----

  /** Log probabilities of all 256 bytes, none of them positive. */
  ghost predicate Probabilistic(task: Task) {
    forall tokens :: task.logp(tokens).Some? ==> Nonpositive(task.logp(tokens).value)
  }

  predicate Nonpositive(lp: seq<real>) {
    |lp| == 256 && forall i :: 0 <= i < |lp| ==> lp[i] <= 0.0
  }

  predicate Below(cs: seq<Candidate>, bound: real) {
    forall i :: 0 <= i < |cs| ==> cs[i].score <= bound
  }

  lemma {:induction false} ChildrenBelow(c: Candidate, lp: seq<real>, tokens: seq<Byte>, bound: real)
    requires Nonpositive(lp) && c.score <= bound
    ensures Below(Grown(c, lp, tokens), bound) && Below(Ended(c, lp, tokens), bound)
  {
    if tokens != [] {
      ChildrenBelow(c, lp, tokens[..|tokens| - 1], bound);
    }
  }

  lemma {:induction false} LevelBelow(task: Task, beam: seq<Candidate>, bound: real)
    requires Probabilistic(task) && AllFinite(task, beam) && Below(beam, bound)
    ensures Below(GrownAll(task, beam), bound) && Below(EndedAll(task, beam), bound)
  {
    if beam != [] {
      var n := |beam| - 1;
      LevelBelow(task, beam[..n], bound);
      var lp := Logp(task, beam[n]).value;
      ChildrenBelow(beam[n], lp, TopTokens(lp), bound);
    }
  }

  lemma SortedBelow(cs: seq<Candidate>, bound: real)
    requires Below(cs, bound)
    ensures Below(SortDesc(cs, ByScore()), bound)
  {
    var sorted := SortDesc(cs, ByScore());
    SortDescSorts(cs, ByScore());
    forall i | 0 <= i < |sorted|
      ensures sorted[i].score <= bound
    {
      assert sorted[i] in multiset(sorted);
      assert sorted[i] in cs;
    }
  }

  /** A bound on the beam bounds everything the next depth adds. */
  lemma DeeperBelow(task: Task, s: Search, bound: real)
    requires Probabilistic(task) && AllFinite(task, s.beam) && Below(s.beam, bound)
    ensures Below(Deeper(task, s).beam, bound) && Below(EndedAll(task, s.beam), bound)
  {
    LevelBelow(task, s.beam, bound);
    SortedBelow(GrownAll(task, s.beam), bound);
  }

  lemma {:induction false} KeptConcat(task: Task, a: seq<Candidate>, b: seq<Candidate>)
    ensures Kept(task, a + b) == Kept(task, a) + Kept(task, b)
  {
    if b == [] {
      assert a + b == a;
    } else {
      var n := |b| - 1;
      KeptConcat(task, a, b[..n]);
      assert (a + b)[..|a + b| - 1] == a + b[..n];
    }
  }

  lemma {:induction false} KeptBelow(task: Task, cs: seq<Candidate>, bound: real)
    requires Below(cs, bound)
    ensures Below(Kept(task, cs), bound)
  {
    if cs != [] {
      KeptBelow(task, cs[..|cs| - 1], bound);
    }
  }

  /** Ended candidates that score no more than the best accepted one leave it the winner, ties included. */
  lemma BestKeptStays(task: Task, ends: seq<Candidate>, more: seq<Candidate>)
    requires Kept(task, ends) != []
    requires Below(more, FirstMax(Kept(task, ends), ByScore()).score)
    ensures Kept(task, ends + more) != []
    ensures FirstMax(Kept(task, ends + more), ByScore()) == FirstMax(Kept(task, ends), ByScore())
  {
    var finished, extra := Kept(task, ends), Kept(task, more);
    var best := FirstMax(finished, ByScore());
    KeptConcat(task, ends, more);
    KeptBelow(task, more, best.score);
    forall x | x in extra
      ensures ByScore()(x) <= ByScore()(best)
    {
      var i :| 0 <= i < |extra| && extra[i] == x;
    }
    FirstMaxKeepsFirst(finished, extra, ByScore());
  }

  function BestKept(task: Task, ends: seq<Candidate>): Candidate
    requires Kept(task, ends) != []
  {
    FirstMax(Kept(task, ends), ByScore())
  }

  /** Something accepted has ended and nothing still growing scores more. */
  predicate Led(task: Task, s: Search) {
    Kept(task, s.ends) != [] && Below(s.beam, BestKept(task, s.ends).score)
  }

  lemma DeeperStaysLed(task: Task, s: Search)
    requires Probabilistic(task) && AllFinite(task, s.beam) && Led(task, s)
    ensures Led(task, Deeper(task, s)) && BestKept(task, Deeper(task, s).ends) == BestKept(task, s.ends)
  {
    DeeperBelow(task, s, BestKept(task, s.ends).score);
    BestKeptStays(task, s.ends, EndedAll(task, s.beam));
  }

  lemma SettledIsLed(task: Task, s: Search)
    requires Settled(task, s) && Descending(s.beam, ByScore())
    ensures Led(task, s)
  {
    forall i | 0 <= i < |s.beam|
      ensures s.beam[i].score <= BestKept(task, s.ends).score
    {
      assert i > 0 ==> ByScore()(s.beam[0]) >= ByScore()(s.beam[i]);
    }
  }

  lemma DeeperBeamDescends(task: Task, s: Search)
    requires AllFinite(task, s.beam)
    ensures Descending(Deeper(task, s).beam, ByScore())
  {
    SortDescSorts(GrownAll(task, s.beam), ByScore());
  }

  /** The chosen candidate and finish reason, if there is anything to choose from. */
  function Answer(task: Task): Search -> Option<(Candidate, Finish)> {
    (s: Search) => if Answerable(s) then Some(Winner(task, s)) else None
  }

  function LedTest(task: Task): Search -> bool {
    (s: Search) => Led(task, s)
  }

  lemma LedAnswer(task: Task, s: Search)
    requires Led(task, s)
    ensures Answer(task)(s) == Some((BestKept(task, s.ends), Eos))
  {
  }

  /** Whenever the full-length search returns, the search that stops early returns the same winner and reason. */
  lemma EarlyStopIsSound(task: Task, s: Search, left: nat)
    requires Probabilistic(task) && FullRun(task, s, left).Some?
    ensures Run(task, s, left).Some?
    ensures Answer(task)(Run(task, s, left).value) == Answer(task)(FullRun(task, s, left).value)
  {
    var next, decided := Step(task), LedTest(task);
    forall x | decided(x) && next(x).Some?
      ensures decided(next(x).value) && Answer(task)(next(x).value) == Answer(task)(x)
    {
      DeeperStaysLed(task, x);
      LedAnswer(task, x);
      LedAnswer(task, Deeper(task, x));
    }
    forall x | next(x).Some? && SettledTest(task)(next(x).value)
      ensures decided(next(x).value)
    {
      DeeperBeamDescends(task, x);
      SettledIsLed(task, Deeper(task, x));
    }
    EarlyStopKeepsAnswer(next, Exhausted(), SettledTest(task), decided, Answer(task), s, left);
  }

  /** There is something to choose from. */
  predicate Answerable(s: Search) {
    s.beam != [] || s.ends != []
  }

  // ----- What every run keeps -----

  function LogpOf(task: Task, body: seq<Byte>, t: Byte): real {
    match task.logp(task.prefix + body)
    case None => 0.0
    case Some(lp) => ByteScore(lp)(t)
  }

  /** The model's log probability of the bytes of `body`, one after another. */
  function PathScore(task: Task, body: seq<Byte>): real {
    if body == [] then 0.0 else
      var n := |body| - 1;
      PathScore(task, body[..n]) + LogpOf(task, body[..n], body[n])
  }

  predicate Growing(task: Task, c: Candidate) {
    c.count == |c.body| && c.score == PathScore(task, c.body) && 0 !in c.body
  }

  predicate Complete(task: Task, c: Candidate) {
    c.count == |c.body| + 1 && c.score == PathScore(task, c.body) + LogpOf(task, c.body, 0) && 0 !in c.body
  }

  predicate AllGrowing(task: Task, cs: seq<Candidate>) {
    forall i :: 0 <= i < |cs| ==> Growing(task, cs[i])
  }

  predicate AllComplete(task: Task, cs: seq<Candidate>) {
    forall i :: 0 <= i < |cs| ==> Complete(task, cs[i])
  }

  lemma ChildScored(task: Task, c: Candidate, lp: seq<real>, t: Byte)
    requires Growing(task, c) && Logp(task, c) == Some(lp)
    ensures if t == 0 then Complete(task, Child(c, lp, t)) else Growing(task, Child(c, lp, t))
  {
    if t != 0 {
      assert (c.body + [t])[..|c.body|] == c.body;
    }
  }

  lemma {:induction false} ChildrenScored(task: Task, c: Candidate, lp: seq<real>, tokens: seq<Byte>)
    requires Growing(task, c) && Logp(task, c) == Some(lp)
    ensures AllGrowing(task, Grown(c, lp, tokens)) && AllComplete(task, Ended(c, lp, tokens))
  {
    if tokens != [] {
      ChildrenScored(task, c, lp, tokens[..|tokens| - 1]);
      ChildScored(task, c, lp, tokens[|tokens| - 1]);
    }
  }

  lemma {:induction false} LevelScored(task: Task, beam: seq<Candidate>)
    requires AllFinite(task, beam) && AllGrowing(task, beam)
    ensures AllGrowing(task, GrownAll(task, beam)) && AllComplete(task, EndedAll(task, beam))
  {
    if beam != [] {
      var n := |beam| - 1;
      LevelScored(task, beam[..n]);
      var lp := Logp(task, beam[n]).value;
      ChildrenScored(task, beam[n], lp, TopTokens(lp));
    }
  }

  lemma SortedGrowing(task: Task, cs: seq<Candidate>)
    requires AllGrowing(task, cs)
    ensures AllGrowing(task, SortDesc(cs, ByScore()))
  {
    var sorted := SortDesc(cs, ByScore());
    SortDescSorts(cs, ByScore());
    forall i | 0 <= i < |sorted|
      ensures Growing(task, sorted[i])
    {
      assert sorted[i] in multiset(sorted);
      assert sorted[i] in cs;
    }
  }

  /** The eight best bytes are different ones, so at least one of them is not the end byte. */
  lemma TopHasNonzero(lp: seq<real>)
    ensures |TopTokens(lp)| == 8
    ensures TopTokens(lp)[0] != 0 || TopTokens(lp)[1] != 0
  {
    var sorted := SortDesc(AllBytes(), ByteScore(lp));
    SortDescSorts(AllBytes(), ByteScore(lp));
    assert |sorted| == |multiset(sorted)| == |multiset(AllBytes())| == 256;
    if sorted[0] == 0 && sorted[1] == 0 {
      TwiceInMultiset(sorted, 0);
      OnceInBytes();
    }
  }

  /** The eight bytes are the best ones: a byte left out scores less, or as much and comes later. */
  lemma TopTokensAreBest(lp: seq<real>, t: Byte, b: Byte)
    requires t in TopTokens(lp) && b !in TopTokens(lp)
    ensures ByteScore(lp)(t) > ByteScore(lp)(b) || (ByteScore(lp)(t) == ByteScore(lp)(b) && t < b)
  {
    assert AllBytes()[t] == t && AllBytes()[b] == b;
    TakeBestFirst(AllBytes(), ByteScore(lp), WIDTH, t, b);
  }

  /** The next beam holds the eight best continuations, all of them when there are fewer. */
  lemma BeamKeepsBest(task: Task, s: Search) returns (rest: seq<Candidate>)
    requires AllFinite(task, s.beam)
    ensures var all, beam := GrownAll(task, s.beam), Deeper(task, s).beam;
            && |beam| == (if |all| < 8 then |all| else 8) && multiset(beam) + multiset(rest) == multiset(all)
            && forall i, j :: 0 <= i < |beam| && 0 <= j < |rest| ==> beam[i].score >= rest[j].score
  {
    rest := TakeBest(GrownAll(task, s.beam), ByScore(), WIDTH);
  }

  lemma TwiceInMultiset(s: seq<Byte>, b: Byte)
    requires |s| >= 2 && s[0] == b && s[1] == b
    ensures multiset(s)[b] >= 2
  {
    assert s == [b, b] + s[2..];
  }

  lemma OnceInBytes()
    ensures multiset(AllBytes())[0] == 1
  {
    var s := AllBytes();
    assert s == [0] + s[1..];
    assert 0 !in s[1..];
  }

  lemma {:induction false} GrownNonEmpty(c: Candidate, lp: seq<real>, tokens: seq<Byte>, i: nat)
    requires i < |tokens| && tokens[i] != 0
    ensures Grown(c, lp, tokens) != []
  {
    if i < |tokens| - 1 {
      GrownNonEmpty(c, lp, tokens[..|tokens| - 1], i);
    }
  }

  lemma DeeperNonEmpty(task: Task, s: Search)
    requires AllFinite(task, s.beam) && s.beam != []
    ensures Deeper(task, s).beam != []
  {
    var n := |s.beam| - 1;
    var lp := Logp(task, s.beam[n]).value;
    TopHasNonzero(lp);
    GrownNonEmpty(s.beam[n], lp, TopTokens(lp), if TopTokens(lp)[0] != 0 then 0 else 1);
    var grown := GrownAll(task, s.beam);
    SortDescSorts(grown, ByScore());
    assert |SortDesc(grown, ByScore())| == |multiset(SortDesc(grown, ByScore()))| == |grown|;
  }

  /** The beam is never empty, and every score is the model's log probability of the bytes it stands for. */
  predicate Honest(task: Task, s: Search) {
    s.beam != [] && AllGrowing(task, s.beam) && AllComplete(task, s.ends)
  }

  lemma DeeperIsHonest(task: Task, s: Search)
    requires AllFinite(task, s.beam) && Honest(task, s)
    ensures Honest(task, Deeper(task, s))
  {
    DeeperNonEmpty(task, s);
    LevelScored(task, s.beam);
    SortedGrowing(task, GrownAll(task, s.beam));
  }

  function HonestTest(task: Task): Search -> bool {
    (s: Search) => Honest(task, s)
  }

  lemma RunIsHonest(task: Task, left: nat)
    requires Run(task, START, left).Some?
    ensures Honest(task, Run(task, START, left).value)
  {
    var next, inv := Step(task), HonestTest(task);
    forall s | inv(s) && next(s).Some?
      ensures inv(next(s).value)
    {
      DeeperIsHonest(task, s);
    }
    InvariantAtEnd(next, Either(SettledTest(task), Exhausted()), inv, START, left);
  }

  lemma {:induction false} KeptMember(task: Task, ends: seq<Candidate>, c: Candidate)
    requires c in Kept(task, ends)
    ensures c in ends && task.accept(c.body)
  {
    var n := |ends| - 1;
    if c in Kept(task, ends[..n]) {
      KeptMember(task, ends[..n], c);
    }
  }

  /**
   * The answer's score is the log probability of its bytes (and of the end byte when it ended), its token count is
   * their number, and when something accepted has ended the answer is accepted.
   */
  lemma WinnerIsScored(task: Task, left: nat)
    requires Run(task, START, left).Some?
    ensures var end := Run(task, START, left).value;
      Answerable(end) &&
      var (c, finish) := Winner(task, end);
      && (if finish == Eos then Complete(task, c) else Growing(task, c))
      && (Kept(task, end.ends) != [] ==> finish == Eos && task.accept(c.body))
  {
    var end := Run(task, START, left).value;
    RunIsHonest(task, left);
    var c := Winner(task, end).0;
    if Kept(task, end.ends) != [] {
      KeptMember(task, end.ends, c);
    } else if end.ends != [] {
      var fallback := FirstMax(end.ends, ByScore());
      var best := FirstMax(end.beam, ByScore());
      FallbackOrBeam(fallback, end.beam);
      assert best in end.beam;
    }
  }

  // ----- What the winner is -----

  /** The first best of the candidates stands at `k`. */
  predicate FirstBest(pool: seq<Candidate>, k: nat) {
    && k < |pool|
    && (forall i :: 0 <= i < |pool| ==> pool[i].score <= pool[k].score)
    && forall i :: 0 <= i < k ==> pool[i].score < pool[k].score
  }

  /** The candidate at `k` is an accepted one, and the first best of these. */
  predicate FirstBestAccepted(task: Task, ends: seq<Candidate>, k: nat) {
    && k < |ends| && task.accept(ends[k].body)
    && (forall i :: 0 <= i < |ends| && task.accept(ends[i].body) ==> ends[i].score <= ends[k].score)
    && forall i :: 0 <= i < k && task.accept(ends[i].body) ==> ends[i].score < ends[k].score
  }

  predicate SomeAccepted(task: Task, ends: seq<Candidate>) {
    exists i :: 0 <= i < |ends| && task.accept(ends[i].body)
  }

  /**
   * The choice between everything that has ended and everything still growing: the first best accepted one if anything
   * accepted has ended; otherwise the first best of all, those that have ended standing first.
   */
  ghost predicate Chosen(task: Task, s: Search, c: Candidate, finish: Finish) {
    if SomeAccepted(task, s.ends) then finish == Eos && exists k: nat :: FirstBestAccepted(task, s.ends, k) && c == s.ends[k]
    else exists k: nat :: FirstBest(s.ends + s.beam, k) && c == (s.ends + s.beam)[k] && (finish == Eos <==> k < |s.ends|)
  }

  lemma FirstMaxIsFirstBest(pool: seq<Candidate>) returns (k: nat)
    requires pool != []
    ensures FirstBest(pool, k) && pool[k] == FirstMax(pool, ByScore())
  {
    k := FirstMaxIsFirst(pool, ByScore());
    forall i | 0 <= i < |pool|
      ensures pool[i].score <= pool[k].score
    {
      assert ByScore()(pool[i]) <= ByScore()(FirstMax(pool, ByScore()));
    }
    forall i | 0 <= i < k
      ensures pool[i].score < pool[k].score
    {
      assert ByScore()(pool[i]) < ByScore()(pool[k]);
    }
  }

  lemma {:induction false} KeptIsEmpty(task: Task, ends: seq<Candidate>)
    ensures Kept(task, ends) == [] <==> !SomeAccepted(task, ends)
  {
    if ends != [] {
      var n := |ends| - 1;
      KeptIsEmpty(task, ends[..n]);
      if i :| 0 <= i < n && task.accept(ends[..n][i].body) {
        assert task.accept(ends[i].body);
      }
      if i :| 0 <= i < |ends| && task.accept(ends[i].body) {
        assert i < n ==> task.accept(ends[..n][i].body);
      }
    }
  }

  lemma OnlyAccepted(task: Task, ends: seq<Candidate>, n: nat)
    requires |ends| == n + 1 && !SomeAccepted(task, ends[..n]) && task.accept(ends[n].body)
    ensures FirstBestAccepted(task, ends, n)
  {
    forall i | 0 <= i < n
      ensures !task.accept(ends[i].body)
    {
      assert ends[..n][i] == ends[i];
    }
  }

  lemma NextAccepted(task: Task, ends: seq<Candidate>, n: nat, m: nat)
    requires |ends| == n + 1 && FirstBestAccepted(task, ends[..n], m)
    ensures FirstBestAccepted(task, ends, if task.accept(ends[n].body) && ends[n].score > ends[m].score then n else m)
  {
    forall i | 0 <= i < n && task.accept(ends[i].body)
      ensures ends[i].score <= ends[m].score && (i < m ==> ends[i].score < ends[m].score)
    {
      assert ends[..n][i] == ends[i] && ends[..n][m] == ends[m];
    }
    assert task.accept(ends[..n][m].body);
  }

  lemma MaxSnoc(front: seq<Candidate>, x: Candidate)
    requires front != []
    ensures FirstMax(front + [x], ByScore()) ==
            if x.score > FirstMax(front, ByScore()).score then x else FirstMax(front, ByScore())
  {
    assert (front + [x])[..|front|] == front;
  }

  /** The first best accepted candidate, found one ended candidate at a time. */
  lemma {:induction false} BestKeptIs(task: Task, ends: seq<Candidate>) returns (k: nat)
    requires Kept(task, ends) != []
    ensures FirstBestAccepted(task, ends, k) && ends[k] == FirstMax(Kept(task, ends), ByScore())
  {
    var n := |ends| - 1;
    var front := Kept(task, ends[..n]);
    if front == [] {
      KeptIsEmpty(task, ends[..n]);
      OnlyAccepted(task, ends, n);
      k := n;
    } else {
      var m := BestKeptIs(task, ends[..n]);
      NextAccepted(task, ends, n, m);
      k := m;
      if task.accept(ends[n].body) {
        MaxSnoc(front, ends[n]);
        if ends[n].score > ends[m].score {
          k := n;
        }
      } else {
        assert front + [] == front;
      }
    }
  }

  /** The first best of two lists: that of the first, unless the second has a better one. */
  lemma FirstBestOfTwo(a: seq<Candidate>, b: seq<Candidate>, i: nat, j: nat)
    requires FirstBest(a, i) && FirstBest(b, j)
    ensures FirstBest(a + b, if b[j].score <= a[i].score then i else |a| + j)
  {
  }

  lemma AtOfTwo(a: seq<Candidate>, b: seq<Candidate>, i: nat, j: nat)
    requires i < |a| && j < |b|
    ensures (a + b)[i] == a[i] && (a + b)[|a| + j] == b[j]
  {
  }

  lemma BestOfAllIs(a: seq<Candidate>, b: seq<Candidate>) returns (k: nat)
    requires a != [] && b != []
    ensures FirstBest(a + b, k) && (k < |a| <==> FirstMax(b, ByScore()).score <= FirstMax(a, ByScore()).score)
    ensures (a + b)[k] == FirstMax([FirstMax(a, ByScore())] + b, ByScore())
  {
    var i := FirstMaxIsFirstBest(a);
    var j := FirstMaxIsFirstBest(b);
    FallbackOrBeam(a[i], b);
    FirstBestOfTwo(a, b, i, j);
    AtOfTwo(a, b, i, j);
    k := if b[j].score <= a[i].score then i else |a| + j;
  }

  /** The winner is chosen so. */
  lemma WinnerIsChosen(task: Task, s: Search)
    requires Answerable(s)
    ensures Chosen(task, s, Winner(task, s).0, Winner(task, s).1)
  {
    KeptIsEmpty(task, s.ends);
    if Kept(task, s.ends) != [] {
      var k := BestKeptIs(task, s.ends);
    } else if s.ends == [] {
      var k := FirstMaxIsFirstBest(s.beam);
      assert s.ends + s.beam == s.beam;
    } else if s.beam == [] {
      var k := FirstMaxIsFirstBest(s.ends);
      assert s.ends + s.beam == s.ends;
    } else {
      var k := BestOfAllIs(s.ends, s.beam);
    }
  }

  /** `max([fallback] + beam)` is the fallback exactly when nothing in the beam scores more. */
  lemma {:induction false} FallbackOrBeam(fallback: Candidate, beam: seq<Candidate>)
    requires beam != []
    ensures FirstMax([fallback] + beam, ByScore()) ==
            if FirstMax(beam, ByScore()).score <= fallback.score then fallback else FirstMax(beam, ByScore())
  {
    var n := |beam| - 1;
    var all := [fallback] + beam;
    assert all[..|all| - 1] == [fallback] + beam[..n];
    if n > 0 {
      FallbackOrBeam(fallback, beam[..n]);
    } else {
      assert [fallback] + beam[..n] == [fallback];
    }
  }

  // ----- What each depth considers, and where the search stops -----

  /** The candidate that continues `c` by the byte `t`. */
  predicate Continues(c: Candidate, lp: seq<real>, t: Byte, x: Candidate) {
    && |lp| == 256 && x.score == c.score + lp[t] && x.count == c.count + 1
    && x.body == if t == 0 then c.body else c.body + [t]
  }

  /** Continuing `c` by this byte gives `x`, `ended` saying whether it is the end byte. */
  function ByteGives(c: Candidate, lp: seq<real>, x: Candidate, ended: bool): Byte -> bool {
    (t: Byte) => (t == 0 <==> ended) && Continues(c, lp, t, x)
  }

  lemma ChildContinues(c: Candidate, lp: seq<real>, t: Byte, x: Candidate)
    requires |lp| == 256
    ensures x == Child(c, lp, t) <==> Continues(c, lp, t, x)
  {
  }

  lemma ContinuationsLast(c: Candidate, lp: seq<real>, tokens: seq<Byte>, n: nat, x: Candidate)
    requires |lp| == 256 && |tokens| == n + 1
    ensures x in Grown(c, lp, tokens) <==> x in Grown(c, lp, tokens[..n]) || ByteGives(c, lp, x, false)(tokens[n])
    ensures x in Ended(c, lp, tokens) <==> x in Ended(c, lp, tokens[..n]) || ByteGives(c, lp, x, true)(tokens[n])
    ensures |Grown(c, lp, tokens)| + |Ended(c, lp, tokens)| == |Grown(c, lp, tokens[..n])| + |Ended(c, lp, tokens[..n])| + 1
  {
    ChildContinues(c, lp, tokens[n], x);
  }

  lemma {:induction false} ContinuationsOfOne(c: Candidate, lp: seq<real>, tokens: seq<Byte>, x: Candidate)
    requires |lp| == 256
    ensures x in Grown(c, lp, tokens) <==> Any(tokens, ByteGives(c, lp, x, false))
    ensures x in Ended(c, lp, tokens) <==> Any(tokens, ByteGives(c, lp, x, true))
    ensures |Grown(c, lp, tokens)| + |Ended(c, lp, tokens)| == |tokens|
  {
    if tokens != [] {
      var n := |tokens| - 1;
      ContinuationsOfOne(c, lp, tokens[..n], x);
      AnyLast(tokens, n, ByteGives(c, lp, x, false));
      AnyLast(tokens, n, ByteGives(c, lp, x, true));
      ContinuationsLast(c, lp, tokens, n, x);
    }
  }

  /** Continuing the candidate by one of its eight best bytes gives `x`. */
  ghost predicate Gives(task: Task, c: Candidate, x: Candidate, ended: bool) {
    Logp(task, c).Some? && Any(TopTokens(Logp(task, c).value), ByteGives(c, Logp(task, c).value, x, ended))
  }

  ghost function ParentOf(task: Task, x: Candidate, ended: bool): Candidate -> bool {
    (c: Candidate) => Gives(task, c, x, ended)
  }

  lemma GrownSnoc(task: Task, beam: seq<Candidate>, n: nat, x: Candidate)
    requires Probabilistic(task) && AllFinite(task, beam) && |beam| == n + 1
    ensures x in GrownAll(task, beam) <==> x in GrownAll(task, beam[..n]) || Gives(task, beam[n], x, false)
    ensures x in EndedAll(task, beam) <==> x in EndedAll(task, beam[..n]) || Gives(task, beam[n], x, true)
    ensures |GrownAll(task, beam)| + |EndedAll(task, beam)|
         == |GrownAll(task, beam[..n])| + |EndedAll(task, beam[..n])| + 8
  {
    var lp := Logp(task, beam[n]).value;
    ContinuationsOfOne(beam[n], lp, TopTokens(lp), x);
    TopHasNonzero(lp);
  }

  /** A depth considers exactly the continuations of the beam by eight best bytes each, eight times as many as it has. */
  lemma {:induction false} ContinuationsOfAll(task: Task, beam: seq<Candidate>, x: Candidate)
    requires Probabilistic(task) && AllFinite(task, beam)
    ensures x in GrownAll(task, beam) <==> Any(beam, ParentOf(task, x, false))
    ensures x in EndedAll(task, beam) <==> Any(beam, ParentOf(task, x, true))
    ensures |GrownAll(task, beam)| + |EndedAll(task, beam)| == 8 * |beam|
  {
    if beam != [] {
      var n := |beam| - 1;
      ContinuationsOfAll(task, beam[..n], x);
      GrownSnoc(task, beam, n, x);
      AnyLast(beam, n, ParentOf(task, x, false));
      AnyLast(beam, n, ParentOf(task, x, true));
    }
  }

  /** Something accepted has ended that no candidate still growing exceeds, or none is growing. */
  predicate Done(task: Task, s: Search) {
    s.beam == [] || exists i :: 0 <= i < |s.ends| && task.accept(s.ends[i].body) && Below(s.beam, s.ends[i].score)
  }

  /** The break's two tests say just that. */
  lemma StopTestIsDone(task: Task, s: Search)
    requires Descending(s.beam, ByScore())
    ensures Either(SettledTest(task), Exhausted())(s) <==> Done(task, s)
  {
    KeptIsEmpty(task, s.ends);
    if Kept(task, s.ends) != [] {
      var k := BestKeptIs(task, s.ends);
      if Settled(task, s) {
        SettledIsLed(task, s);
      }
    }
  }

  lemma StepDescends(task: Task, m: nat)
    requires m > 0 && Steps(Step(task), START, m).Some?
    ensures Descending(Steps(Step(task), START, m).value.beam, ByScore())
  {
    DeeperBeamDescends(task, Steps(Step(task), START, m - 1).value);
  }

  /** The search ends at the first depth at which it is done, or at its budget. */
  lemma RunStopsWhenDone(task: Task, left: nat) returns (n: nat)
    requires Run(task, START, left).Some?
    ensures n <= left && Steps(Step(task), START, n) == Run(task, START, left)
    ensures n < left ==> Done(task, Run(task, START, left).value)
    ensures forall m: nat :: 0 < m < n ==> Steps(Step(task), START, m).Some? && !Done(task, Steps(Step(task), START, m).value)
  {
    var stop := Either(SettledTest(task), Exhausted());
    n := StopsFirst(Step(task), stop, START, left);
    forall m: nat | 0 < m < n
      ensures Steps(Step(task), START, m).Some? && !Done(task, Steps(Step(task), START, m).value)
    {
      assert GoesOn(Step(task), stop, START, n - 1);
      StepDescends(task, m);
      StopTestIsDone(task, Steps(Step(task), START, m).value);
    }
    if n < left {
      StepDescends(task, n);
      StopTestIsDone(task, Run(task, START, left).value);
    }
  }
}
