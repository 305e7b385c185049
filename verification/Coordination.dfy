/** The limits of a run, the counters that are held against them and when a restart is due. */
module Coordination {
  /** What has been counted since the run began. A conflict or a decision may make a restart due; `terminated` once a
      limit has been reached. */
  datatype Counters = Counters(
    conflicts: nat, decisions: nat, conflictsAtRestart: nat, restarts: nat, walks: nat, restartDue: bool,
    terminated: bool)

  /** What the caller asked to stop at; zero is no limit. */
  datatype Limits = Limits(conflicts: nat, decisions: nat)

  const NO_LIMITS := Limits(0, 0)

  const NOTHING_COUNTED := Counters(0, 0, 0, 0, 0, false, false)

  predicate LimitHit(limit: nat, count: nat) {
    limit != 0 && count >= limit
  }

  function CountConflict(limits: Limits, c: Counters, due: bool): Counters {
    c.(conflicts := c.conflicts + 1, restartDue := c.restartDue || due,
       terminated := c.terminated || LimitHit(limits.conflicts, c.conflicts + 1))
  }

  function CountDecision(limits: Limits, c: Counters, due: bool): Counters {
    c.(decisions := c.decisions + 1, restartDue := c.restartDue || due,
       terminated := c.terminated || LimitHit(limits.decisions, c.decisions + 1))
  }

  function CountRestart(c: Counters): Counters {
    c.(restarts := c.restarts + 1, conflictsAtRestart := c.conflicts, restartDue := false)
  }

  /** The opening walk puts the restart schedule back as a restart does. */
  function CountWalk(c: Counters): Counters {
    c.(walks := c.walks + 1, conflictsAtRestart := c.conflicts, restartDue := false)
  }

  /** Nothing but decisions has been counted in between. */
  predicate OnlyDecides(c: Counters, d: Counters) {
    && d == c.(decisions := d.decisions, restartDue := d.restartDue, terminated := d.terminated)
    && d.decisions >= c.decisions
  }

  /** A run is told to stop exactly when a limit has been reached, and each restart took a conflict or a decision of its
      own to become due. */
  predicate Warranted(limits: Limits, c: Counters) {
    && (c.terminated <==> LimitHit(limits.conflicts, c.conflicts) || LimitHit(limits.decisions, c.decisions))
    && c.restarts + (if c.restartDue then 1 else 0) <= c.conflicts + c.decisions
    && c.conflictsAtRestart <= c.conflicts
  }
}
