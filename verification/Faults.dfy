/** Effects on the host that may fail or be cut short by a crash, by a plan given beforehand. */
module Faults {
  datatype Effect = Done | Failed | Crashed

  /** What one effect meets; one that fails, or that the process dies with, may have taken place. */
  datatype Fault = Works | Fails(took: bool) | Dies(took: bool)

  predicate Took(f: Fault) {
    f.Works? || f.took
  }

  function Answer(f: Fault): Effect {
    match f
    case Works => Done
    case Fails(_) => Failed
    case Dies(_) => Crashed
  }

  /** How many of the first `n` effects do not work. */
  ghost function Tally(plan: nat -> Fault, n: nat): nat {
    if n == 0 then 0 else Tally(plan, n - 1) + if plan(n - 1).Works? then 0 else 1
  }
}
