/** Admission of inference requests: one lock, one pinned checkpoint, and clients that may go away. */
module Admission {
  import opened PyData

  /** What the worker's future holds. */
  datatype Outcome = Answer(modelId: string) | Failure

  /**
   * Where a request is. The lock belongs to the request from `Admitted` to `Finishing`; from `Queued` on, the worker
   * runs on its own. `Fetching` is the return statement of `configured_inference_backend`.
   */
  datatype Phase =
    | Refused
    | Admitted
    | SubmitFailed
    | Queued
    | Loading
    | Fetching
    | Ready(modelId: string)
    | Finishing(outcome: Outcome)
    | Ended(outcome: Outcome)

  datatype Client = Waiting | Cancelled | Got(outcome: Outcome)

  datatype Job = Job(phase: Phase, client: Client)

  datatype State = State(lock: bool, pinned: Option<string>, jobs: map<nat, Job>)

  /** The atomic steps; their parameters are what the environment decides. */
  datatype Action =
    | Arrive(job: nat)
    | Submit(job: nat, ok: bool)
    | Start(job: nat)
    | Load(job: nat, modelId: Option<string>)
    | Fetch(job: nat)
    | Generate(job: nat, ok: bool)
    | Release(job: nat)
    | Cancel(job: nat)
    | Deliver(job: nat)

  const INITIAL := State(false, None, map[])

  predicate Holds(j: Job) {
    j.phase != Refused && j.phase != SubmitFailed && !j.phase.Ended?
  }

  function To(s: State, j: nat, phase: Phase): State
    requires j in s.jobs
  {
    s.(jobs := s.jobs[j := s.jobs[j].(phase := phase)])
  }

  /** The worker's steps for job `j`. */
  function WorkerNext(s: State, a: Action): Option<State>
    requires a.job in s.jobs
  {
    var j, phase := a.job, s.jobs[a.job].phase;
    match a
    case Start(_) => if !phase.Queued? then None else Some(To(s, j, if s.pinned.None? then Loading else Fetching))
    case Load(_, id) =>
      if !phase.Loading? then None
      else if id.None? then Some(To(s, j, Finishing(Failure)))
      else Some(To(s.(pinned := id), j, Fetching))
    case Fetch(_) =>
      if !phase.Fetching? then None
      else Some(To(s, j, if s.pinned.None? then Finishing(Failure) else Ready(s.pinned.value)))
    case Generate(_, ok) =>
      if !phase.Ready? then None else Some(To(s, j, Finishing(if ok then Answer(phase.modelId) else Failure)))
    case Release(_) => if !phase.Finishing? then None else Some(To(s.(lock := false), j, Ended(phase.outcome)))
    case _ => None
  }

  /** The request handler's and the client's steps for job `j`. */
  function HandlerNext(s: State, a: Action): Option<State>
    requires a.job in s.jobs
  {
    var j, job := a.job, s.jobs[a.job];
    match a
    case Submit(_, ok) =>
      if !job.phase.Admitted? then None
      else if ok then Some(To(s, j, Queued))
      else Some(To(s.(lock := false), j, SubmitFailed))
    case Cancel(_) =>
      if job.phase in {Refused, Admitted, SubmitFailed} || job.client != Waiting then None
      else Some(s.(jobs := s.jobs[j := job.(client := Cancelled)]))
    case Deliver(_) =>
      if !job.phase.Ended? || job.client != Waiting then None
      else Some(s.(jobs := s.jobs[j := job.(client := Got(job.phase.outcome))]))
    case _ => None
  }

  /** The state after a step, or `None` when the step is not possible. */
  function Next(s: State, a: Action): Option<State> {
    if a.Arrive? then
      if a.job in s.jobs then None
      else if s.lock then Some(s.(jobs := s.jobs[a.job := Job(Refused, Waiting)]))
      else Some(s.(lock := true, jobs := s.jobs[a.job := Job(Admitted, Waiting)]))
    else if a.job !in s.jobs then None
    else if a.Submit? || a.Cancel? || a.Deliver? then HandlerNext(s, a)
    else WorkerNext(s, a)
  }

  function Run(s: State, actions: seq<Action>): Option<State> {
    if actions == [] then Some(s) else
      var n := |actions| - 1;
      match Run(s, actions[..n])
      case None => None
      case Some(t) => Next(t, actions[n])
  }

  // ----- Safety -----

  predicate HoldsIn(s: State, j: nat) {
    j in s.jobs && Holds(s.jobs[j])
  }

  ghost predicate OneHolder(s: State) {
    && (forall i, j :: HoldsIn(s, i) && HoldsIn(s, j) ==> i == j)
    && (s.lock <==> exists j :: HoldsIn(s, j))
  }

  predicate OutcomeOk(o: Outcome, pinned: Option<string>) {
    o.Answer? ==> pinned == Some(o.modelId)
  }

  predicate JobOk(j: Job, pinned: Option<string>) {
    && (match j.phase
        case Loading => pinned.None?
        case Fetching => pinned.Some?
        case Ready(id) => pinned == Some(id)
        case Finishing(o) => OutcomeOk(o, pinned)
        case Ended(o) => OutcomeOk(o, pinned)
        case _ => true)
    && (j.client.Got? ==> OutcomeOk(j.client.outcome, pinned))
  }

  ghost predicate Invariant(s: State) {
    OneHolder(s) && forall j :: j in s.jobs ==> JobOk(s.jobs[j], s.pinned)
  }

  /** The step acquires the lock for its request. */
  predicate AcquiresAt(s: State, a: Action) {
    a.Arrive? && !s.lock
  }

  /** The step calls `release`. */
  predicate ReleasesAt(a: Action) {
    a.Release? || (a.Submit? && !a.ok)
  }

  /** A step changes the lock exactly by acquiring or releasing, and nobody else's claim to it. */
  lemma StepFrame(s: State, a: Action)
    requires Next(s, a).Some?
    ensures var t := Next(s, a).value;
            && t.lock == ((s.lock || AcquiresAt(s, a)) && !ReleasesAt(a))
            && (forall i :: i != a.job ==> HoldsIn(t, i) == HoldsIn(s, i))
            && (AcquiresAt(s, a) ==> HoldsIn(t, a.job))
            && (ReleasesAt(a) ==> HoldsIn(s, a.job) && !HoldsIn(t, a.job))
            && (!AcquiresAt(s, a) && !ReleasesAt(a) ==> HoldsIn(t, a.job) == HoldsIn(s, a.job))
  {
  }

  lemma HolderKept(s: State, t: State, j: nat, acquires: bool, releases: bool)
    requires OneHolder(s)
    requires t.lock == ((s.lock || acquires) && !releases)
    requires forall i :: i != j ==> HoldsIn(t, i) == HoldsIn(s, i)
    requires acquires ==> !s.lock && !releases && HoldsIn(t, j)
    requires releases ==> HoldsIn(s, j) && !HoldsIn(t, j)
    requires !acquires && !releases ==> HoldsIn(t, j) == HoldsIn(s, j)
    ensures OneHolder(t)
  {
    if t.lock && s.lock {
      var h :| HoldsIn(s, h);
      assert HoldsIn(t, h);
    }
  }

  lemma StepKeepsHolder(s: State, a: Action)
    requires OneHolder(s) && Next(s, a).Some?
    ensures OneHolder(Next(s, a).value)
  {
    StepFrame(s, a);
    HolderKept(s, Next(s, a).value, a.job, AcquiresAt(s, a), ReleasesAt(a));
  }

  /** Only the holder of the lock can be loading, so nobody else's answer is stale when the pin is set. */
  lemma StepKeepsPin(s: State, a: Action)
    requires Invariant(s) && Next(s, a).Some?
    ensures s.pinned.Some? ==> Next(s, a).value.pinned == s.pinned
    ensures forall j :: j in s.jobs && j != a.job ==> JobOk(s.jobs[j], Next(s, a).value.pinned)
  {
    if a.Load? && a.modelId.Some? {
      assert s.jobs[a.job].phase.Loading? && JobOk(s.jobs[a.job], s.pinned);
      forall j | j in s.jobs && j != a.job
        ensures JobOk(s.jobs[j], Next(s, a).value.pinned)
      {
        assert HoldsIn(s, a.job);
        assert !HoldsIn(s, j) && JobOk(s.jobs[j], s.pinned);
      }
    }
  }

  lemma StepKeepsInvariant(s: State, a: Action)
    requires Invariant(s) && Next(s, a).Some?
    ensures Invariant(Next(s, a).value)
  {
    StepKeepsHolder(s, a);
    StepKeepsPin(s, a);
    var t := Next(s, a).value;
    forall j | j in t.jobs
      ensures JobOk(t.jobs[j], t.pinned)
    {
      if j in s.jobs {
        assert JobOk(s.jobs[j], s.pinned);
      }
    }
  }

  /** In every reachable state the lock is held iff exactly one request is between acquire and release, and all answers name the pinned model. */
  lemma {:induction false} RunKeepsInvariant(actions: seq<Action>)
    requires Run(INITIAL, actions).Some?
    ensures Invariant(Run(INITIAL, actions).value)
  {
    if actions != [] {
      var n := |actions| - 1;
      RunKeepsInvariant(actions[..n]);
      StepKeepsInvariant(Run(INITIAL, actions[..n]).value, actions[n]);
    }
  }

  /** The outcome a client was given or is about to be given. */
  predicate Answered(s: State, j: nat, modelId: string) {
    j in s.jobs && (s.jobs[j].client == Got(Answer(modelId)) || s.jobs[j].phase == Ended(Answer(modelId)))
  }

  /** All answers of a run, early and late, carry one model identity. */
  lemma OneModel(actions: seq<Action>, more: seq<Action>, i: nat, j: nat, a: string, b: string)
    requires Run(INITIAL, actions).Some? && Run(Run(INITIAL, actions).value, more).Some?
    requires Answered(Run(INITIAL, actions).value, i, a)
    requires Answered(Run(Run(INITIAL, actions).value, more).value, j, b)
    ensures a == b
  {
    var s := Run(INITIAL, actions).value;
    RunKeepsInvariant(actions);
    PinStays(s, more);
    var t := Run(s, more).value;
    assert JobOk(s.jobs[i], s.pinned) && JobOk(t.jobs[j], t.pinned);
  }

  /** The pin, once set, is never set again. */
  lemma {:induction false} PinStays(s: State, actions: seq<Action>)
    requires Invariant(s) && Run(s, actions).Some?
    ensures Invariant(Run(s, actions).value)
    ensures s.pinned.Some? ==> Run(s, actions).value.pinned == s.pinned
  {
    if actions != [] {
      var n := |actions| - 1;
      PinStays(s, actions[..n]);
      StepKeepsInvariant(Run(s, actions[..n]).value, actions[n]);
      StepKeepsPin(Run(s, actions[..n]).value, actions[n]);
    }
  }

  /** How often a checkpoint was loaded. */
  function Loads(actions: seq<Action>): nat {
    if actions == [] then 0 else
      var n := |actions| - 1;
      Loads(actions[..n]) + if actions[n].Load? && actions[n].modelId.Some? then 1 else 0
  }

  lemma {:induction false} LoadedOnce(actions: seq<Action>)
    requires Run(INITIAL, actions).Some?
    ensures Loads(actions) == if Run(INITIAL, actions).value.pinned.Some? then 1 else 0
  {
    if actions != [] {
      var n := |actions| - 1;
      RunKeepsInvariant(actions[..n]);
      LoadedOnce(actions[..n]);
      var s, a := Run(INITIAL, actions[..n]).value, actions[n];
      if a.Load? {
        assert JobOk(s.jobs[a.job], s.pinned);
      }
    }
  }

  // ----- Acquires and releases -----

  function Acquires(s: State, actions: seq<Action>, j: nat): nat
    requires Run(s, actions).Some?
  {
    if actions == [] then 0 else
      var n := |actions| - 1;
      Acquires(s, actions[..n], j) + if actions[n].job == j && AcquiresAt(Run(s, actions[..n]).value, actions[n]) then 1 else 0
  }

  function Releases(actions: seq<Action>, j: nat): nat {
    if actions == [] then 0 else
      var n := |actions| - 1;
      Releases(actions[..n], j) + if actions[n].job == j && ReleasesAt(actions[n]) then 1 else 0
  }

  /** One step's effect on the balance of acquires and releases of each request. */
  lemma StepBalances(s: State, a: Action, j: nat)
    requires Next(s, a).Some?
    ensures var t := Next(s, a).value;
            (if HoldsIn(t, j) then 1 else 0) ==
            (if HoldsIn(s, j) then 1 else 0) + (if a.job == j && AcquiresAt(s, a) then 1 else 0)
            - (if a.job == j && ReleasesAt(a) then 1 else 0)
    ensures j in s.jobs ==> j in Next(s, a).value.jobs && !(a.job == j && AcquiresAt(s, a))
  {
    StepFrame(s, a);
  }

  /** Each request acquires at most once, and releases exactly once for it as soon as it is no longer a holder. */
  lemma {:induction false} ReleasedExactlyOnce(actions: seq<Action>, j: nat)
    requires Run(INITIAL, actions).Some?
    ensures var s := Run(INITIAL, actions).value;
            && Acquires(INITIAL, actions, j) <= (if j in s.jobs then 1 else 0)
            && Acquires(INITIAL, actions, j) == Releases(actions, j) + (if HoldsIn(s, j) then 1 else 0)
  {
    if actions != [] {
      var n := |actions| - 1;
      ReleasedExactlyOnce(actions[..n], j);
      StepBalances(Run(INITIAL, actions[..n]).value, actions[n], j);
    }
  }

  /** The lock is never released when it is free. */
  lemma NeverReleasedFree(actions: seq<Action>, a: Action)
    requires Run(INITIAL, actions + [a]).Some? && ReleasesAt(a)
    ensures Run(INITIAL, actions).Some? && Run(INITIAL, actions).value.lock
  {
    assert (actions + [a])[..|actions|] == actions;
    RunKeepsInvariant(actions);
    StepFrame(Run(INITIAL, actions).value, a);
  }

  /** A request is refused exactly when another one is between acquire and release. */
  lemma RefusedIffBusy(actions: seq<Action>, j: nat)
    requires Run(INITIAL, actions).Some? && j !in Run(INITIAL, actions).value.jobs
    ensures var s := Run(INITIAL, actions).value;
            var t := Next(s, Arrive(j)).value;
            (t.jobs[j].phase == Refused <==> exists i :: HoldsIn(s, i)) && (t.jobs[j].phase == Admitted <==> !s.lock)
  {
    RunKeepsInvariant(actions);
    var s := Run(INITIAL, actions).value;
  }

  // ----- The lock always comes free -----

  /** How many steps the holder has left at most. */
  function StepsLeft(p: Phase): nat {
    match p
    case Admitted => 6
    case Queued => 5
    case Loading => 4
    case Fetching => 3
    case Ready(_) => 2
    case Finishing(_) => 1
    case _ => 0
  }

  /**
   * A step of the holder that needs no client and no other request: `handed` says whether the hand-over works, `id` is
   * what loading would find, and `ok` says whether generating works.
   */
  function Onward(p: Phase, j: nat, handed: bool, id: Option<string>, ok: bool): Action
    requires p != Refused && p != SubmitFailed && !p.Ended?
  {
    match p
    case Admitted => Submit(j, handed)
    case Queued => Start(j)
    case Loading => Load(j, id)
    case Fetching => Fetch(j)
    case Ready(_) => Generate(j, ok)
    case Finishing(_) => Release(j)
  }

  /** The holder can always move on, whatever handing over, loading and generating come to, and has finitely many moves. */
  lemma HolderMoves(s: State, j: nat, handed: bool, id: Option<string>, ok: bool)
    requires HoldsIn(s, j)
    ensures var a := Onward(s.jobs[j].phase, j, handed, id, ok);
            && Next(s, a).Some?
            && StepsLeft(Next(s, a).value.jobs[j].phase) < StepsLeft(s.jobs[j].phase)
            && (!HoldsIn(Next(s, a).value, j) ==> !Next(s, a).value.lock)
  {
  }

  /** The steps left of the holder alone free the lock, whatever they come to and whether or not the client has gone. */
  lemma {:induction false} LockComesFree(s: State, j: nat, handed: bool, id: Option<string>, ok: bool)
    returns (actions: seq<Action>)
    requires Invariant(s) && HoldsIn(s, j)
    ensures |actions| <= 6 && Run(s, actions).Some? && !Run(s, actions).value.lock
    ensures forall i :: 0 <= i < |actions| ==> actions[i].job == j && !actions[i].Cancel? && !actions[i].Deliver?
    ensures forall i :: 0 <= i < |actions| ==> actions[i].Submit? ==> actions[i].ok == handed
    ensures forall i :: 0 <= i < |actions| ==> actions[i].Load? ==> actions[i].modelId == id
    ensures forall i :: 0 <= i < |actions| ==> actions[i].Generate? ==> actions[i].ok == ok
    ensures |actions| <= StepsLeft(s.jobs[j].phase)
    decreases StepsLeft(s.jobs[j].phase)
  {
    var a := Onward(s.jobs[j].phase, j, handed, id, ok);
    HolderMoves(s, j, handed, id, ok);
    var t := Next(s, a).value;
    StepKeepsInvariant(s, a);
    if HoldsIn(t, j) {
      var rest := LockComesFree(t, j, handed, id, ok);
      RunCons(s, a, rest);
      actions := [a] + rest;
    } else {
      actions := [a];
      RunCons(s, a, []);
      assert [a] + [] == [a];
    }
  }

  /** The request's own steps, on its way to the release. */
  predicate MovesOn(a: Action, j: nat) {
    a.job == j && !a.Cancel? && !a.Deliver?
  }

  function Moves(actions: seq<Action>, j: nat): nat {
    if actions == [] then 0 else
      var n := |actions| - 1;
      Moves(actions[..n], j) + if MovesOn(actions[n], j) then 1 else 0
  }

  /** Every move of a request uses up some of its steps, and no other step of a run touches its phase. */
  lemma StepUses(s: State, a: Action, j: nat)
    requires j in s.jobs && Next(s, a).Some?
    ensures j in Next(s, a).value.jobs
    ensures var p, q := s.jobs[j].phase, Next(s, a).value.jobs[j].phase;
            if MovesOn(a, j) then StepsLeft(q) < StepsLeft(p) else q == p
  {
  }

  lemma HasStepsLeft(s: State, j: nat)
    requires j in s.jobs
    ensures StepsLeft(s.jobs[j].phase) > 0 <==> HoldsIn(s, j)
  {
  }

  /**
   * However the steps of all requests and clients interleave, a request moves at most as often as it has steps left;
   * when it has moved six times it no longer holds the lock.
   */
  lemma {:induction false} MovesAreBounded(s: State, actions: seq<Action>, j: nat)
    requires j in s.jobs && Run(s, actions).Some?
    ensures j in Run(s, actions).value.jobs
    ensures Moves(actions, j) + StepsLeft(Run(s, actions).value.jobs[j].phase) <= StepsLeft(s.jobs[j].phase) <= 6
    ensures Moves(actions, j) == 0 ==> Run(s, actions).value.jobs[j].phase == s.jobs[j].phase
  {
    if actions != [] {
      var n := |actions| - 1;
      MovesAreBounded(s, actions[..n], j);
      StepUses(Run(s, actions[..n]).value, actions[n], j);
    }
  }

  /** A run in which the holder ceases to hold the lock has a point at which the lock is free. */
  lemma {:induction false} FreedOnTheWay(s: State, actions: seq<Action>, j: nat) returns (n: nat)
    requires HoldsIn(s, j) && Run(s, actions).Some? && !HoldsIn(Run(s, actions).value, j)
    ensures n <= |actions| && Run(s, actions[..n]).Some? && !Run(s, actions[..n]).value.lock
    ensures !HoldsIn(Run(s, actions[..n]).value, j)
  {
    var m := |actions| - 1;
    assert actions[..m + 1] == actions;
    var t := Run(s, actions[..m]).value;
    if HoldsIn(t, j) {
      StepFrame(t, actions[m]);
      n := m + 1;
    } else {
      var k := FreedOnTheWay(s, actions[..m], j);
      assert actions[..m][..k] == actions[..k];
      n := k;
    }
  }

  /**
   * In every run, with any interleaving: either the holder still holds the lock, has moved fewer than six times and can
   * move on whatever its next step comes to, or the lock has come free on the way.
   */
  lemma LockComesFreeInEveryRun(s: State, actions: seq<Action>, j: nat) returns (n: nat)
    requires HoldsIn(s, j) && Run(s, actions).Some?
    ensures var t := Run(s, actions).value;
            if HoldsIn(t, j) then
              && Moves(actions, j) < 6
              && forall handed, id, ok :: Next(t, Onward(t.jobs[j].phase, j, handed, id, ok)).Some?
            else n <= |actions| && Run(s, actions[..n]).Some? && !Run(s, actions[..n]).value.lock
  {
    var t := Run(s, actions).value;
    MovesAreBounded(s, actions, j);
    HasStepsLeft(t, j);
    n := 0;
    if HoldsIn(t, j) {
      forall handed, id, ok
        ensures Next(t, Onward(t.jobs[j].phase, j, handed, id, ok)).Some?
      {
        HolderMoves(t, j, handed, id, ok);
      }
    } else {
      n := FreedOnTheWay(s, actions, j);
    }
  }

  lemma {:induction false} RunCons(s: State, a: Action, rest: seq<Action>)
    requires Next(s, a).Some?
    ensures Run(s, [a] + rest) == Run(Next(s, a).value, rest)
  {
    if rest == [] {
      assert [a] + rest == [a] && [a][..0] == [];
    } else {
      var n := |rest| - 1;
      RunCons(s, a, rest[..n]);
      assert ([a] + rest)[..n + 1] == [a] + rest[..n];
    }
  }

  // ----- Cancellation is invisible to the workers -----

  /** The state without what clients see. */
  function Quiet(s: State): State {
    s.(jobs := map j | j in s.jobs :: s.jobs[j].(client := Waiting))
  }

  function WithoutClients(actions: seq<Action>): seq<Action> {
    if actions == [] then [] else
      var n := |actions| - 1;
      WithoutClients(actions[..n]) + if actions[n].Cancel? || actions[n].Deliver? then [] else [actions[n]]
  }

  lemma QuietClientStep(s: State, a: Action)
    requires Next(s, a).Some? && (a.Cancel? || a.Deliver?)
    ensures Quiet(Next(s, a).value) == Quiet(s)
  {
    assert Quiet(Next(s, a).value).jobs == Quiet(s).jobs;
  }

  lemma QuietTo(s: State, j: nat, phase: Phase)
    requires j in s.jobs
    ensures To(Quiet(s), j, phase) == Quiet(To(s, j, phase))
  {
    assert To(Quiet(s), j, phase).jobs == Quiet(To(s, j, phase)).jobs;
  }

  lemma QuietWorkerStep(s: State, a: Action)
    requires Next(s, a).Some? && !a.Cancel? && !a.Deliver?
    ensures Next(Quiet(s), a) == Some(Quiet(Next(s, a).value))
  {
    var t := Next(s, a).value;
    if a.Arrive? {
      assert Next(Quiet(s), a).value.jobs == Quiet(t).jobs;
    } else {
      QuietTo(s, a.job, t.jobs[a.job].phase);
      QuietTo(s.(lock := t.lock, pinned := t.pinned), a.job, t.jobs[a.job].phase);
    }
  }

  /** The lock, the pin and all workers end as if no client had ever cancelled. */
  lemma {:induction false} CancellationIsInvisible(s: State, actions: seq<Action>)
    requires Run(s, actions).Some?
    ensures Run(Quiet(s), WithoutClients(actions)) == Some(Quiet(Run(s, actions).value))
  {
    if actions != [] {
      var n := |actions| - 1;
      var t, a := Run(s, actions[..n]).value, actions[n];
      CancellationIsInvisible(s, actions[..n]);
      var others := WithoutClients(actions[..n]);
      if !a.Cancel? && !a.Deliver? {
        QuietWorkerStep(t, a);
        assert (others + [a])[..|others|] == others;
      } else {
        QuietClientStep(t, a);
        assert others + [] == others;
      }
    }
  }

  // ----- What a client may see, and when -----

  predicate HandedOver(s: State, j: nat) {
    j in s.jobs && s.jobs[j].phase !in {Refused, Admitted, SubmitFailed}
  }

  predicate WorkDone(s: State, j: nat) {
    j in s.jobs && s.jobs[j].phase.Ended?
  }

  predicate ClientGone(s: State, j: nat) {
    j in s.jobs && s.jobs[j].client != Waiting
  }

  lemma StepMarks(s: State, a: Action, j: nat)
    requires Next(s, a).Some?
    ensures HandedOver(Next(s, a).value, j) <==> HandedOver(s, j) || a == Submit(j, true)
    ensures WorkDone(Next(s, a).value, j) <==> WorkDone(s, j) || a == Release(j)
    ensures ClientGone(Next(s, a).value, j) <==> ClientGone(s, j) || a == Cancel(j) || a == Deliver(j)
  {
  }

  lemma {:induction false} HistoryOf(actions: seq<Action>, j: nat)
    requires Run(INITIAL, actions).Some?
    ensures HandedOver(Run(INITIAL, actions).value, j) <==> Submit(j, true) in actions
    ensures WorkDone(Run(INITIAL, actions).value, j) <==> Release(j) in actions
    ensures ClientGone(Run(INITIAL, actions).value, j) <==> Cancel(j) in actions || Deliver(j) in actions
  {
    if actions != [] {
      var n := |actions| - 1;
      HistoryOf(actions[..n], j);
      StepMarks(Run(INITIAL, actions[..n]).value, actions[n], j);
      assert actions == actions[..n] + [actions[n]];
    }
  }

  /**
   * A client may go away at any time after its request was handed over, until it is answered; and it is answered when,
   * and only when, the worker has released the lock and the client is still there.
   */
  lemma ClientMayLeaveIff(actions: seq<Action>, j: nat)
    requires Run(INITIAL, actions).Some?
    ensures var s := Run(INITIAL, actions).value;
            var waiting := Cancel(j) !in actions && Deliver(j) !in actions;
            && (Next(s, Cancel(j)).Some? <==> Submit(j, true) in actions && waiting)
            && (Next(s, Deliver(j)).Some? <==> Release(j) in actions && waiting)
  {
    HistoryOf(actions, j);
  }
}
