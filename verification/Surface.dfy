/**
 * The bounded surface owner of cadp/product/isolation.ts against an arbitrary control plane. The clock
 * counts whole milliseconds and only waiting takes time; the daemon moves on whenever time passes.
 */
module Surface {
  import opened Wrappers

  datatype Creation = Created | Rejected | CreationUnknown

  datatype Observation = Present | Absent | ObservationUnknown

  datatype SurfaceState = Exited | Terminated | TerminationUnconfirmed | NeverCreated

  datatype Command = Create | Terminate | Observe

  datatype Answer =
    | CreateAnswer(creation: Creation)
    | TerminateAnswer(completed: bool)
    | ObserveAnswer(seen: Observation)

  /** What the attached client said: its exit status, and whether it reached a normal exit. */
  datatype Output = Output(status: Option<int>, completed: bool)

  datatype RunResult = RunResult(status: Option<int>, timedOut: bool, state: SurfaceState, creation: Creation,
                                 commandsReleased: Option<bool>)

  /** The life of the one container with the run's unique name: it appears at most once. */
  datatype Stage = NotYet | Exists | Gone

  function Rank(s: Stage): nat {
    match s case NotYet => 0 case Exists => 1 case Gone => 2
  }

  predicate Reaches(s: Stage, t: Stage) {
    Rank(s) <= Rank(t)
  }

  const SURVIVAL_POLL_MS := 100
  const FINAL_SWEEP_MS := 1_000
  const CANCEL_MS := 250
  const SURFACE_TERMINATION_MS := 10_000

  function Min(a: int, b: int): int {
    if a < b then a else b
  }

  function Max(a: int, b: int): int {
    if a < b then b else a
  }

  /** `observationOf`: only a query that succeeded is evidence. */
  function ObservationOf(status: Option<int>, matches: bool): Observation {
    if status != Some(0) then ObservationUnknown else if matches then Present else Absent
  }

  function CreationOf(status: Option<int>): Creation {
    if status.None? then CreationUnknown else if status.value == 0 then Created else Rejected
  }

  class Owner {
    var now: int
    var outstanding: set<nat>
    /** Commands are numbered in the order they were started. */
    var started: nat

    // The environment: processes that ended, the container's life, and whether the daemon refused its name for good.
    var reaped: set<nat>
    var stage: Stage
    var barred: bool

    /** Every command but those in `held` is confirmed closed or stands in the ledger. */
    ghost predicate Accounted(held: set<nat>)
      reads this
    {
      && (forall id :: 0 <= id < started && id !in held && id !in outstanding ==> id in reaped)
      && (forall id :: id in outstanding ==> id < started)
    }

    predicate Lawful()
      reads this
    {
      barred ==> stage == NotYet
    }

    /** What waiting may change: the clock, the processes, and the container's life, all forward only. */
    twostate predicate Passed(latest: int)
      reads this
    {
      && old(now) <= now <= Max(old(now), latest) && old(started) <= started && old(reaped) <= reaped
      && Reaches(old(stage), stage) && Lawful() && (old(barred) ==> barred)
    }

    constructor (start: int)
      ensures now == start && started == 0 && outstanding == {} && stage == NotYet && Accounted({}) && Lawful()
    {
      now, outstanding, started := start, {}, 0;
      reaped, stage, barred := {}, NotYet, false;
    }

    method Elapse(t: int)
      requires now <= t && Lawful()
      modifies `now, `stage
      ensures Passed(t) && now == t
    {
      now := t;
      var s: Stage := *;
      if !barred && Reaches(stage, s) {
        stage := s;
      }
    }

    /** `within`: something resolves by `at`, or the deadline passes; the port decides which and when. */
    method Within(at: int) returns (resolved: bool)
      requires Lawful()
      modifies `now, `stage
      ensures Passed(at)
    {
      var t: int := *;
      if now <= t <= at {
        Elapse(t);
        return true;
      }
      Elapse(Max(now, at));
      resolved := *;
    }

    /** `stop`: cancel, which establishes nothing, then wait for the closure of this command alone. */
    method Stop(id: nat, at: int) returns (released: bool)
      requires Lawful()
      modifies `now, `stage, `reaped
      ensures Passed(at) && reaped == if released then old(reaped) + {id} else old(reaped)
    {
      released := Within(at);
      if released {
        reaped := reaped + {id};
      }
    }

    /** `record`: only a command's own closure may clear it from the ledger. */
    method Record(id: nat, released: bool)
      modifies `outstanding
      ensures outstanding == if released then old(outstanding) - {id} else old(outstanding) + {id}
    {
      if released { outstanding := outstanding - {id}; } else { outstanding := outstanding + {id}; }
    }

    /** `reported`: a run that still holds a command claims no clean end. */
    function Reported(state: SurfaceState): (r: SurfaceState)
      reads this
      ensures r != TerminationUnconfirmed ==> r == state && outstanding == {}
    {
      if outstanding == {} then state else TerminationUnconfirmed
    }

    /** `reserveFor`: the slice of a window kept back for cancellation fits inside the window. */
    function ReserveFor(at: int): (r: int)
      requires now < at
      reads this
      ensures 1 <= r <= CANCEL_MS && now <= at - r
    {
      Min(CANCEL_MS, Max(1, (at - now) / 2))
    }

    /**
     * The port's answer to a command that began at stage `from`. An observation was true at some moment
     * of its window; a completed create says that the name exists, or that it never will.
     */
    method PortAnswer(command: Command, from: Stage) returns (answer: Answer)
      requires Reaches(from, stage) && Lawful()
      modifies `barred
      ensures Lawful() && (old(barred) ==> barred) && (!command.Create? ==> barred == old(barred))
      ensures answer == ObserveAnswer(Present) ==> stage != NotYet
      ensures answer == ObserveAnswer(Absent) && from != NotYet ==> stage == Gone
      ensures answer == CreateAnswer(Created) ==> stage != NotYet
      ensures answer == CreateAnswer(Rejected) ==> barred
      ensures answer.CreateAnswer? <==> command.Create?
      ensures answer.ObserveAnswer? <==> command.Observe?
    {
      var status: Option<int> := *;
      match command {
        case Terminate => return TerminateAnswer(status == Some(0));
        case Observe =>
          var matches: bool := *;
          var moment: Stage := *;
          var seen := ObservationOf(status, matches);
          if Reaches(from, moment) && Reaches(moment, stage) && (seen == Present <==> moment == Exists) {
            return ObserveAnswer(seen);
          }
          return ObserveAnswer(ObservationUnknown);
        case Create =>
          if CreationOf(status) == Created && stage != NotYet {
            return CreateAnswer(Created);
          }
          if CreationOf(status) == Rejected && stage == NotYet {
            barred := true;
            return CreateAnswer(Rejected);
          }
          return CreateAnswer(CreationUnknown);
      }
    }

    /**
     * One control-plane command under a deadline that ends it. An answer is handed back only when its
     * command was released; otherwise the command stands in the ledger.
     */
    method Settle(command: Command, at: int, ghost held: set<nat>) returns (outcome: Option<Answer>)
      requires Lawful() && Accounted(held) && forall id :: id in held ==> id < started
      modifies this
      ensures Passed(at) && Accounted(held) && held + old(outstanding) <= held + outstanding
      ensures old(now) >= at ==> outcome.None? && now == old(now)
      ensures !command.Create? ==> barred == old(barred)
      ensures outcome == Some(ObserveAnswer(Present)) ==> stage != NotYet
      ensures outcome == Some(ObserveAnswer(Absent)) && old(stage) != NotYet ==> stage == Gone
      ensures outcome == Some(CreateAnswer(Created)) ==> stage != NotYet
      ensures outcome == Some(CreateAnswer(Rejected)) ==> barred
      ensures outcome.Some? ==> outstanding == old(outstanding)
      ensures outcome.Some? ==>
        (outcome.value.CreateAnswer? <==> command.Create?) && (outcome.value.ObserveAnswer? <==> command.Observe?)
    {
      if now >= at {
        return None;
      }
      var id := started;
      started := started + 1;
      var from := stage;
      var answered := Within(at - ReserveFor(at));
      outcome := None;
      if answered {
        var answer := PortAnswer(command, from);
        outcome := Some(answer);
      }
      var released := Stop(id, at);
      Record(id, released);
      if !released {
        outcome := None;
      }
    }

    /** Stop the exact container and keep observing; TERMINATED only on an affirmative absence. */
    method TerminateSurface(at: int, ghost held: set<nat>) returns (state: SurfaceState)
      requires Lawful() && Accounted(held) && (forall id :: id in held ==> id < started) && stage != NotYet
      modifies this
      ensures Passed(at) && Accounted(held)
      ensures state == Terminated || state == TerminationUnconfirmed
      ensures state == Terminated ==> stage == Gone
    {
      while true
        invariant Passed(at) && Accounted(held) && stage != NotYet
        decreases at - now
      {
        var removed := Settle(Terminate, at, held);
        var observed := Settle(Observe, at, held);
        if observed == Some(ObserveAnswer(Absent)) {
          return Terminated;
        }
        if now >= at {
          return TerminationUnconfirmed;
        }
        Elapse(now + Min(SURVIVAL_POLL_MS, at - now));
      }
    }

    /** The launcher settled without reporting the surface's own exit. */
    method SettleOrphanedSurface(at: int, ghost held: set<nat>) returns (state: SurfaceState)
      requires Lawful() && Accounted(held) && (forall id :: id in held ==> id < started) && stage != NotYet
      modifies this
      ensures Passed(at) && Accounted(held)
      ensures state != NeverCreated && (state != TerminationUnconfirmed ==> stage == Gone)
    {
      var observed := Settle(Observe, at, held);
      if observed == Some(ObserveAnswer(Absent)) {
        return Exited;
      }
      state := TerminateSurface(at, held);
    }

    /** Creation was never acknowledged: only a surface that was seen and then seen gone is TERMINATED. */
    method ReconcileUnacknowledgedCreation(at: int) returns (state: SurfaceState)
      requires Lawful() && Accounted({}) && now < at
      modifies this
      ensures Passed(at) && Accounted({})
      ensures state == Terminated || state == TerminationUnconfirmed
      ensures state == Terminated ==> stage == Gone
    {
      var sweep := Min(FINAL_SWEEP_MS, Max(1, (at - now) / 2));
      var watchUntil := at - sweep;
      var appeared := false;
      while true
        invariant Passed(at) && now <= watchUntil && Accounted({}) && (appeared ==> stage != NotYet)
        decreases watchUntil - now
      {
        var observed := Settle(Observe, watchUntil, {});
        if observed == Some(ObserveAnswer(Present)) {
          appeared := true;
          var removed := Settle(Terminate, watchUntil, {});
        } else if observed == Some(ObserveAnswer(Absent)) && appeared {
          return Terminated;
        }
        if now >= watchUntil {
          break;
        }
        Elapse(now + Min(SURVIVAL_POLL_MS, watchUntil - now));
      }
      var swept := Settle(Terminate, at, {});
      return TerminationUnconfirmed;
    }

    /** The attached client answers: a normal exit is only ever seen together with its closure. */
    method LaunchAnswer(id: nat) returns (output: Output)
      modifies `reaped
      ensures output.completed ==> output.status.Some?
      ensures reaped == if output.completed then old(reaped) + {id} else old(reaped)
    {
      var status: Option<int> := *;
      var completed: bool := *;
      output := Output(status, completed && status.Some?);
      if output.completed {
        reaped := reaped + {id};
      }
    }

    /** End the launcher, settle the container by `at`, then give the launcher what is left of the window. */
    method EndLauncher(launcher: nat, at: int, overBudget: bool) returns (state: SurfaceState)
      requires Lawful() && Accounted({launcher}) && launcher < started && stage != NotYet && now < at
      modifies this
      ensures Passed(at) && Accounted({})
      ensures state == Exited ==> !overBudget
      ensures state != NeverCreated && (state != TerminationUnconfirmed ==> stage == Gone)
    {
      var released := Stop(launcher, now + ReserveFor(at));
      Record(launcher, released);
      if overBudget {
        state := TerminateSurface(at, {});
      } else {
        state := SettleOrphanedSurface(at, {});
      }
      if !released {
        released := Stop(launcher, at);
        Record(launcher, released);
      }
    }

    /**
     * Main: one surface under its bound, against any control plane. It ends in time; it claims an end only
     * when every command it started is closed; TERMINATED means the container is gone for good, and a
     * status of 0 means it exited by itself within its bound.
     */
    method RunBoundedSurface(timeout: int, termination: int) returns (r: Result<RunResult, string>)
      requires Lawful() && started == 0 && outstanding == {} && stage == NotYet
      modifies this
      ensures r.Refused? <==> timeout <= 0 || termination <= 0
      ensures old(now) <= now && (r.Done? ==> now <= old(now) + timeout + 2 * termination)
      ensures r.Done? && r.value.state != TerminationUnconfirmed ==> forall id :: 0 <= id < started ==> id in reaped
      ensures r.Done? && r.value.state == Terminated ==> stage == Gone
      ensures r.Done? && r.value.state == NeverCreated ==> stage == NotYet && barred
      ensures r.Done? && r.value.state == Exited && r.value.commandsReleased.Some? ==> stage == Gone
      ensures r.Done? && r.value.state == Exited && r.value.commandsReleased.None? ==> r.value.status == Some(0)
      ensures r.Done? && r.value.status == Some(0) ==> r.value.state == Exited && !r.value.timedOut
      ensures r.Done? && r.value.timedOut ==> r.value.state == Terminated || r.value.state == TerminationUnconfirmed
      ensures r.Done? && r.value.commandsReleased.Some? ==> (r.value.commandsReleased.value <==> outstanding == {})
    {
      if timeout <= 0 || termination <= 0 {
        return Refused("bound must be finite and positive");
      }
      var acknowledged := Settle(Create, now + termination, {});
      var creation := if acknowledged.None? then CreationUnknown else acknowledged.value.creation;
      if creation == Rejected {
        return Done(RunResult(None, false, Reported(NeverCreated), creation, Some(outstanding == {})));
      }
      if creation != Created {
        var state := ReconcileUnacknowledgedCreation(now + termination);
        return Done(RunResult(None, false, Reported(state), creation, Some(outstanding == {})));
      }
      var launcher := started;
      started := started + 1;
      var answered := Within(now + timeout);
      var finished := Output(None, false);
      if answered {
        finished := LaunchAnswer(launcher);
        if finished.completed && finished.status == Some(0) {
          return Done(RunResult(Some(0), false, Exited, creation, None));
        }
      }
      var settled := EndLauncher(launcher, now + termination, !answered);
      var state := Reported(settled);
      if !answered {
        // What the surface still managed to say: the second half of the source's Promise.all.
        var status: Option<int> := *;
        finished := Output(status, false);
      }
      var clean := answered && state == Exited;
      var status := if !clean && finished.status == Some(0) then None else finished.status;
      return Done(RunResult(status, !answered, state, creation, Some(outstanding == {})));
    }
  }

  // ---------------------------------------------------------------- the declared budgets

  datatype Budget = Budget(surface: int, brokerResponse: int, rpc: int, activityAttempt: int)

  const IMPLEMENT_BUDGET := Budget(2_700_000, 2_730_000, 2_760_000, 2_820_000)
  const VERIFY_BUDGET := Budget(300_000, 330_000, 360_000, 420_000)
  const REVIEW_BUDGET := Budget(600_000, 630_000, 660_000, 720_000)
  const PLAN_BUDGET := Budget(300_000, 330_000, 360_000, 420_000)

  /** A run of any declared operation, whatever the control plane does, is over before the broker must answer. */
  method RunUnderBudget(budget: Budget, start: int) returns (r: RunResult, elapsed: int)
    requires budget == IMPLEMENT_BUDGET || budget == VERIFY_BUDGET || budget == REVIEW_BUDGET || budget == PLAN_BUDGET
    ensures 0 <= elapsed < budget.brokerResponse < budget.rpc < budget.activityAttempt
  {
    var owner := new Owner(start);
    var ran := owner.RunBoundedSurface(budget.surface, SURFACE_TERMINATION_MS);
    r, elapsed := ran.value, owner.now - start;
  }
}
