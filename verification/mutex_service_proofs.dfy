/**
  The nesting semantics of the pause flag: the last call wins, calls are
  not counted, and an import pause always ends unpaused, even inside
  another import pause.
*/
module MutexServiceProofs {
  import opened MutexService

  /**
    Only a call moves the flag: a new service is not paused, Pause sets the
    flag and UnPause clears it, a failure leaves it as it was, and a run whose
    state differs from its start contains an operation that is not a failure.
  */
  lemma {:induction false} OnlyCallsMoveTheFlag(m: Mutex, ops: seq<Op>, i: nat)
    requires i <= |ops|
    ensures !IsPaused(Initial)
    ensures Step(m, Fail) == Run(m, true)
    ensures IsPaused(Step(m, PauseOp).state) && !IsPaused(Step(m, UnPauseOp).state)
    ensures (forall j :: i <= j < |ops| ==> ops[j].Fail?) ==> RunFrom(m, ops, i).state == m
    ensures RunFrom(m, ops, i).state != m ==> exists j :: i <= j < |ops| && !ops[j].Fail?
  {
    if i < |ops| && !ops[i].Fail? {
      assert i <= i < |ops| && !ops[i].Fail?;
    }
  }

  /** Pausing twice is pausing once; likewise for unpausing. */
  lemma PauseIdempotent(m: Mutex)
    ensures Pause(Pause(m)) == Pause(m)
    ensures UnPause(UnPause(m)) == UnPause(m)
  {
  }

  /** Operations that only pause or unpause. */
  predicate Plain(ops: seq<Op>) {
    forall i :: 0 <= i < |ops| ==> ops[i] == PauseOp || ops[i] == UnPauseOp
  }

  /** Plain operations never fail, and leave the state the last of them sets, or the start state when there are none. */
  lemma {:induction false} LastCallWins(m: Mutex, ops: seq<Op>, i: nat)
    requires Plain(ops) && i <= |ops|
    ensures !RunFrom(m, ops, i).failed
    ensures IsPaused(RunFrom(m, ops, i).state) == if i == |ops| then IsPaused(m) else ops[|ops| - 1] == PauseOp
    decreases |ops| - i
  {
    if i < |ops| {
      LastCallWins(Step(m, ops[i]).state, ops, i + 1);
    }
  }

  /** The flag is not a counter: two pauses are undone by one unpause. */
  lemma NotCounted(m: Mutex)
    ensures !IsPaused(RunAll(m, [PauseOp, PauseOp, UnPauseOp]).state)
  {
    LastCallWins(m, [PauseOp, PauseOp, UnPauseOp], 0);
  }

  /** Operations that never unpause: pauses and failures only. */
  predicate NeverUnpauses(ops: seq<Op>) {
    forall i :: 0 <= i < |ops| ==> ops[i] == PauseOp || ops[i] == Fail
  }

  /** A paused service stays paused while only pauses and failures run. */
  lemma {:induction false} StaysPaused(m: Mutex, ops: seq<Op>, i: nat)
    requires IsPaused(m) && NeverUnpauses(ops) && i <= |ops|
    ensures IsPaused(RunFrom(m, ops, i).state)
    decreases |ops| - i
  {
    if i < |ops| && !Step(m, ops[i]).failed {
      StaysPaused(Step(m, ops[i]).state, ops, i + 1);
    }
  }

  /**
    An import pause keeps the service paused for as long as its body does
    not unpause, and unpauses it on exit whether the body completed or
    failed, passing the failure on.
  */
  lemma ScopedPause(m: Mutex, body: seq<Op>)
    ensures NeverUnpauses(body) ==> IsPaused(RunAll(Pause(m), body).state)
    ensures !IsPaused(ImportPause(m, body).state)
    ensures ImportPause(m, body).failed == RunAll(Pause(m), body).failed
  {
    if NeverUnpauses(body) {
      StaysPaused(Pause(m), body, 0);
    }
  }

  /**
    Import pauses do not nest: when an inner import pause ends, the service
    is no longer paused although the outer one is still open.
  */
  lemma NestedScopeClearsOuter(m: Mutex, inner: seq<Op>)
    ensures !IsPaused(RunAll(Pause(m), [Scoped(inner)]).state)
  {
    var r := Step(Pause(m), Scoped(inner));
    if !r.failed {
      assert RunFrom(r.state, [Scoped(inner)], 1) == Run(r.state, false);
    }
  }
}
