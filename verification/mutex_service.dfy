/**
  The pause flag that stops uSync from reacting to the save events its own
  imports raise. It is a single boolean, not a counter: the last Pause or
  UnPause wins. A scoped pause pauses on entry and unpauses on every exit,
  whether its body completes or fails.
*/
module MutexService {

  /** The service's state: whether uSync is paused. */
  datatype Mutex = Mutex(isPaused: bool)

  /** A freshly constructed service is not paused. */
  const Initial: Mutex := Mutex(false)

  function IsPaused(m: Mutex): bool {
    m.isPaused
  }

  /** `Pause()`: the service is paused afterwards, whatever it was before. */
  function Pause(m: Mutex): (r: Mutex)
    ensures IsPaused(r)
  {
    m.(isPaused := true)
  }

  /** `UnPause()`: the service is not paused afterwards, whatever it was before. */
  function UnPause(m: Mutex): (r: Mutex)
    ensures !IsPaused(r)
  {
    m.(isPaused := false)
  }

  /** What code running against the service does: pause, unpause, fail, or run a body inside an import pause. */
  datatype Op = PauseOp | UnPauseOp | Fail | Scoped(body: seq<Op>)

  /** The state after running some operations, and whether a failure cut the run short. */
  datatype Run = Run(state: Mutex, failed: bool)

  /** Runs `ops` in order from `m`, stopping at the first failure. */
  function RunAll(m: Mutex, ops: seq<Op>): Run
    decreases ops, 1
  {
    RunFrom(m, ops, 0)
  }

  function RunFrom(m: Mutex, ops: seq<Op>, i: nat): Run
    requires i <= |ops|
    decreases ops, 0, |ops| - i
  {
    if i == |ops| then Run(m, false)
    else
      var r := Step(m, ops[i]);
      if r.failed then r else RunFrom(r.state, ops, i + 1)
  }

  /** One operation; an import pause unpauses when its body ends, even by a failure, and passes the failure on. */
  function Step(m: Mutex, op: Op): Run
    decreases op
  {
    match op
    case PauseOp => Run(Pause(m), false)
    case UnPauseOp => Run(UnPause(m), false)
    case Fail => Run(m, true)
    case Scoped(body) =>
      var inner := RunAll(Pause(m), body);
      Run(UnPause(inner.state), inner.failed)
  }

  /** `ImportPause()` around `body`. */
  function ImportPause(m: Mutex, body: seq<Op>): (r: Run)
    ensures !IsPaused(r.state)
  {
    Step(m, Scoped(body))
  }
}
