/** Bounded iteration with a stop test, and when an earlier stop leaves the answer as it is. */
module EarlyStop {
  import opened PyData

  /** Steps at most `left` times; `None` stands for a step that failed. */
  function Iterate<S>(next: S -> Option<S>, stop: S -> bool, s: S, left: nat): Option<S>
    decreases left
  {
    if left == 0 then Some(s) else
      var n := next(s);
      if n.None? then None
      else if stop(n.value) then n
      else Iterate(next, stop, n.value, left - 1)
  }

  /** Every step from a decided state leads to a decided state with the same answer. */
  ghost predicate KeepsDecision<S(!new), A>(next: S -> Option<S>, decided: S -> bool, answer: S -> A) {
    forall s :: decided(s) && next(s).Some? ==> decided(next(s).value) && answer(next(s).value) == answer(s)
  }

  /** The early test only passes on decided states. */
  ghost predicate StopsDecided<S(!new)>(next: S -> Option<S>, early: S -> bool, decided: S -> bool) {
    forall s :: next(s).Some? && early(next(s).value) ==> decided(next(s).value)
  }

  lemma {:induction false} DecisionStands<S(!new), A>(next: S -> Option<S>, stop: S -> bool,
                                                     decided: S -> bool, answer: S -> A, s: S, left: nat)
    requires KeepsDecision(next, decided, answer) && decided(s)
    requires Iterate(next, stop, s, left).Some?
    ensures answer(Iterate(next, stop, s, left).value) == answer(s)
    decreases left
  {
    if left > 0 && !stop(next(s).value) {
      DecisionStands(next, stop, decided, answer, next(s).value, left - 1);
    }
  }

  function Either<S>(early: S -> bool, stop: S -> bool): S -> bool {
    (s: S) => early(s) || stop(s)
  }

  /** When the full iteration returns, the one that may stop early returns too, with the same answer. */
  lemma {:induction false} EarlyStopKeepsAnswer<S(!new), A>(next: S -> Option<S>, stop: S -> bool, early: S -> bool,
                                                           decided: S -> bool, answer: S -> A, s: S, left: nat)
    requires KeepsDecision(next, decided, answer) && StopsDecided(next, early, decided)
    requires Iterate(next, stop, s, left).Some?
    ensures Iterate(next, Either(early, stop), s, left).Some?
    ensures answer(Iterate(next, Either(early, stop), s, left).value) == answer(Iterate(next, stop, s, left).value)
    decreases left
  {
    if left > 0 {
      var s' := next(s).value;
      if stop(s') {
      } else if early(s') {
        DecisionStands(next, stop, decided, answer, s', left - 1);
      } else {
        EarlyStopKeepsAnswer(next, stop, early, decided, answer, s', left - 1);
      }
    }
  }

  ghost predicate KeepsInvariant<S(!new)>(next: S -> Option<S>, inv: S -> bool) {
    forall s :: inv(s) && next(s).Some? ==> inv(next(s).value)
  }

  lemma {:induction false} InvariantAtEnd<S(!new)>(next: S -> Option<S>, stop: S -> bool, inv: S -> bool, s: S, left: nat)
    requires KeepsInvariant(next, inv) && inv(s) && Iterate(next, stop, s, left).Some?
    ensures inv(Iterate(next, stop, s, left).value)
    decreases left
  {
    if left > 0 && !stop(next(s).value) {
      InvariantAtEnd(next, stop, inv, next(s).value, left - 1);
    }
  }

  // ----- Where an iteration stops -----

  /** Exactly `n` steps; `None` when one of them fails. */
  function Steps<S>(next: S -> Option<S>, s: S, n: nat): Option<S> {
    if n == 0 then Some(s) else
      var before := Steps(next, s, n - 1);
      if before.None? then None else next(before.value)
  }

  lemma {:induction false} StepsCons<S>(next: S -> Option<S>, s: S, n: nat)
    requires next(s).Some?
    ensures Steps(next, s, n + 1) == Steps(next, next(s).value, n)
  {
    if n > 0 {
      StepsCons(next, s, n - 1);
    } else {
      assert Steps(next, s, 1) == next(Steps(next, s, 0).value);
    }
  }

  /** After the first step, no state up to the `n`th passes the test. */
  ghost predicate GoesOn<S>(next: S -> Option<S>, stop: S -> bool, s: S, n: nat) {
    forall m: nat :: 0 < m <= n ==> Steps(next, s, m).Some? && !stop(Steps(next, s, m).value)
  }

  lemma GoesOnCons<S>(next: S -> Option<S>, stop: S -> bool, s: S, n: nat)
    requires next(s).Some? && !stop(next(s).value) && GoesOn(next, stop, next(s).value, n)
    ensures GoesOn(next, stop, s, n + 1)
  {
    forall m: nat | 0 < m <= n + 1
      ensures Steps(next, s, m).Some? && !stop(Steps(next, s, m).value)
    {
      StepsCons(next, s, m - 1);
    }
  }

  /**
   * An iteration stops at the first state after a step that passes the test, or at the end of its budget; it fails
   * where a step fails before that.
   */
  lemma {:induction false} StopsFirst<S>(next: S -> Option<S>, stop: S -> bool, s: S, left: nat) returns (n: nat)
    ensures n <= left
    ensures Iterate(next, stop, s, left).Some? ==>
              && Steps(next, s, n) == Iterate(next, stop, s, left)
              && (n < left ==> n > 0 && stop(Steps(next, s, n).value)) && (n > 0 ==> GoesOn(next, stop, s, n - 1))
    ensures Iterate(next, stop, s, left).None? ==>
              n < left && GoesOn(next, stop, s, n) && Steps(next, s, n + 1).None?
    decreases left
  {
    n := 0;
    if left > 0 {
      if next(s).None? {
        assert Steps(next, s, 1) == next(Steps(next, s, 0).value);
      } else {
        StepsCons(next, s, 0);
        if stop(next(s).value) {
          n := 1;
        } else {
          var m := StopsFirst(next, stop, next(s).value, left - 1);
          StepsCons(next, s, m);
          StepsCons(next, s, m + 1);
          n := m + 1;
          if Iterate(next, stop, s, left).None? {
            GoesOnCons(next, stop, s, m);
          } else if m > 0 {
            GoesOnCons(next, stop, s, m - 1);
          }
        }
      }
    }
  }
}
