/** The server's module-level lock, pinned backend and requests, changed step by step. */
module AdmissionServer {
  import opened PyData
  import opened Admission

  class InferenceServer {
    var lock: bool
    var pinned: Option<string>
    var jobs: map<nat, Job>

    function Snapshot(): State
      reads this
    {
      State(lock, pinned, jobs)
    }

    constructor ()
      ensures Snapshot() == INITIAL
    {
      lock, pinned, jobs := false, None, map[];
    }

    method Move(j: nat, phase: Phase)
      requires j in jobs
      modifies `jobs
      ensures Snapshot() == To(old(Snapshot()), j, phase)
    {
      jobs := jobs[j := jobs[j].(phase := phase)];
    }

    /** `inference_lock.acquire(blocking=False)` on behalf of a new request. */
    method Admit(j: nat)
      requires j !in jobs
      modifies this
      ensures Next(old(Snapshot()), Arrive(j)) == Some(Snapshot())
    {
      if lock {
        jobs := jobs[j := Job(Refused, Waiting)];
      } else {
        lock := true;
        jobs := jobs[j := Job(Admitted, Waiting)];
      }
    }

    /** `run_in_executor`, which hands the request to a worker unless it raises. */
    method SubmitWork(j: nat, ok: bool)
      requires j in jobs && jobs[j].phase.Admitted?
      modifies this
      ensures Next(old(Snapshot()), Submit(j, ok)) == Some(Snapshot())
    {
      if ok {
        Move(j, Queued);
      } else {
        Move(j, SubmitFailed);
        lock := false;
      }
    }

    /** The test and the assignment of `configured_inference_backend`; loading yields `found`. */
    method ConfiguredBackend(j: nat, found: Option<string>) returns (ghost steps: seq<Action>)
      requires j in jobs && jobs[j].phase.Queued?
      modifies this
      ensures Run(old(Snapshot()), steps) == Some(Snapshot())
      ensures j in jobs && (jobs[j].phase.Ready? || jobs[j].phase == Finishing(Failure))
      ensures old(pinned).Some? ==> pinned == old(pinned) && jobs[j].phase == Ready(pinned.value)
      ensures old(pinned).None? ==> pinned == found && jobs[j].phase == if found.Some? then Ready(found.value) else Finishing(Failure)
    {
      ghost var s0 := Snapshot();
      if pinned == None {
        Move(j, Loading);
        ghost var s1 := Snapshot();
        if found.None? {
          Move(j, Finishing(Failure));
          steps := [Start(j), Load(j, found)];
          RunOfTwo(s0, s1, Snapshot(), Start(j), Load(j, found));
          return;
        }
        pinned := found;
        Move(j, Fetching);
        ghost var s2 := Snapshot();
        Move(j, Ready(pinned.value));
        steps := [Start(j), Load(j, found), Fetch(j)];
        RunOfTwo(s1, s2, Snapshot(), Load(j, found), Fetch(j));
        RunCons(s0, Start(j), [Load(j, found), Fetch(j)]);
        assert [Start(j)] + [Load(j, found), Fetch(j)] == steps;
      } else {
        Move(j, Fetching);
        ghost var s1 := Snapshot();
        Move(j, Ready(pinned.value));
        steps := [Start(j), Fetch(j)];
        RunOfTwo(s0, s1, Snapshot(), Start(j), Fetch(j));
      }
    }

    /** A worker's whole call of `generate_with_configured_model`, undisturbed: the lock is free afterwards whatever went wrong. */
    method GenerateWithConfiguredModel(j: nat, found: Option<string>, ok: bool) returns (ghost steps: seq<Action>)
      requires j in jobs && jobs[j].phase.Queued?
      modifies this
      ensures Run(old(Snapshot()), steps) == Some(Snapshot())
      ensures !lock && j in jobs && jobs[j].phase.Ended?
      ensures jobs[j].phase.outcome == if pinned.Some? && ok then Answer(pinned.value) else Failure
      ensures pinned == if old(pinned).Some? then old(pinned) else found
    {
      ghost var s0 := Snapshot();
      ghost var before := ConfiguredBackend(j, found);
      ghost var s1 := Snapshot();
      steps := before;
      if jobs[j].phase.Ready? {
        Move(j, Finishing(if ok then Answer(jobs[j].phase.modelId) else Failure));
        steps := steps + [Generate(j, ok)];
        RunSnoc(s0, before, s1, Generate(j, ok));
      }
      ghost var s2 := Snapshot();
      lock := false;
      Move(j, Ended(jobs[j].phase.outcome));
      RunSnoc(s0, steps, s2, Release(j));
      steps := steps + [Release(j)];
    }

    method CancelClient(j: nat)
      requires j in jobs && Next(Snapshot(), Cancel(j)).Some?
      modifies this
      ensures Next(old(Snapshot()), Cancel(j)) == Some(Snapshot())
      ensures lock == old(lock) && pinned == old(pinned) && jobs[j].phase == old(jobs[j].phase)
    {
      jobs := jobs[j := jobs[j].(client := Cancelled)];
    }

    method Respond(j: nat) returns (outcome: Outcome)
      requires j in jobs && Next(Snapshot(), Deliver(j)).Some?
      modifies this
      ensures Next(old(Snapshot()), Deliver(j)) == Some(Snapshot())
      ensures jobs[j].phase == Ended(outcome)
    {
      outcome := jobs[j].phase.outcome;
      jobs := jobs[j := jobs[j].(client := Got(outcome))];
    }
  }

  lemma RunSnoc(s: State, actions: seq<Action>, t: State, a: Action)
    requires Run(s, actions) == Some(t)
    ensures Run(s, actions + [a]) == Next(t, a)
  {
    assert (actions + [a])[..|actions|] == actions;
  }

  lemma RunOfTwo(s: State, t: State, u: State, a: Action, b: Action)
    requires Next(s, a) == Some(t) && Next(t, b) == Some(u)
    ensures Run(s, [a, b]) == Some(u)
  {
    RunCons(t, b, []);
    RunCons(s, a, [b]);
    assert [b] + [] == [b] && [a] + [b] == [a, b];
  }
}
