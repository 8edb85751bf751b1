/** The supervisor of devharness/supervisor.ts: lane records updated in place, step by step. */
module SupervisorLoop {
  import opened Wrappers
  import opened Transitions
  import opened LaneSpec

  class Lane {
    var status: LaneStatus
    var worktree: string
    var baseSha: Sha
    var head: Sha
    var pr: Option<nat>
    var candidate: Option<Candidate>
    var reviews: seq<Review>
    var reviewedHead: Option<Sha>
    var provenance: Option<Role>
    var direction: Option<string>
    var attempt: nat
    var retryCount: nat

    ghost function View(): LaneState
      reads this
    {
      LaneState(status, worktree, baseSha, head, pr, candidate, reviews, reviewedHead, provenance, direction, attempt,
        retryCount)
    }

    constructor (baseSha: Sha)
      ensures View() == Admitted(baseSha)
    {
      status, worktree, this.baseSha, head := Pending, "", baseSha, "";
      pr, candidate, reviews, reviewedHead := None, None, [], None;
      provenance, direction, attempt, retryCount := None, None, 0, 0;
    }

    method InvalidateReviews()
      modifies this`reviews, this`reviewedHead
      ensures reviews == Invalidated(old(reviews)) && reviewedHead == None
    {
      var i := 0;
      while i < |reviews|
        invariant 0 <= i <= |reviews| == |old(reviews)|
        invariant forall k :: 0 <= k < i ==> reviews[k] == old(reviews)[k].(invalidated := true)
        invariant forall k :: i <= k < |reviews| ==> reviews[k] == old(reviews)[k]
      {
        if !reviews[i].invalidated {
          reviews := reviews[i := reviews[i].(invalidated := true)];
        }
        i := i + 1;
      }
      reviewedHead := None;
    }

    method Count(d: Decision)
      modifies this`retryCount, this`attempt
      ensures retryCount == (match d.retries case KeepRetries => old(retryCount) case CountRetry => old(retryCount)
        + 1 case ResetRetries => 0)
      ensures attempt == if d.countsRepair then old(attempt) + 1 else old(attempt)
    {
      if d.retries == CountRetry { retryCount := retryCount + 1; }
      if d.retries == ResetRetries { retryCount := 0; }
      if d.countsRepair { attempt := attempt + 1; }
    }

    /** Bookkeeping of one decision, in the source's order; the status is assigned last. */
    method Apply(d: Decision)
      modifies this
      ensures View() == Applied(old(View()), d)
    {
      hide Invalidated;
      if Action.InvalidateReviews in d.actions {
        InvalidateReviews();
      }
      direction := match d.direction {
        case KeepDirection => direction case SetDirection(s) => Some(s) case ClearDirection => None };
      Count(d);
      provenance := if Held(d.status) then (if d.provenance.Some? then d.provenance else provenance) else None;
      status := d.status;
    }
  }

  lemma ReconciledKeepInv(lanes: seq<LaneState>, worlds: seq<World>, policy: Policy)
    requires |worlds| == |lanes| && forall k :: 0 <= k < |lanes| ==> Inv(lanes[k], policy)
    ensures forall k :: 0 <= k < |lanes| ==> Inv(Reconciled(lanes[k], worlds[k], policy), policy)
  {
    forall k | 0 <= k < |lanes| ensures Inv(Reconciled(lanes[k], worlds[k], policy), policy) {
      MoveKeepsInv(lanes[k], Restart(worlds[k]), policy);
    }
  }

  class Supervisor {
    const policy: Policy
    const lanes: seq<Lane>

    constructor (policy: Policy, lanes: seq<Lane>)
      ensures this.policy == policy && this.lanes == lanes
    {
      this.policy, this.lanes := policy, lanes;
    }

    ghost predicate Valid()
      reads lanes
    {
      && (forall i, j :: 0 <= i < j < |lanes| ==> lanes[i] != lanes[j])
      && forall i :: 0 <= i < |lanes| ==> Inv(lanes[i].View(), policy)
    }

    /** `step2`: decide, then apply. */
    method Fire(lane: Lane, event: Event)
      modifies lane
      ensures lane.View() == Fired(old(lane.View()), event, policy)
    {
      var state := LaneState(lane.status, lane.worktree, lane.baseSha, lane.head, lane.pr, lane.candidate, lane.reviews,
                             lane.reviewedHead, lane.provenance, lane.direction, lane.attempt, lane.retryCount);
      lane.Apply(Decide(state, event, policy));
    }

    /** Raises the drift event and answers true when GitHub no longer shows the reviewed identity. */
    method RemoteIdentityDrifted(lane: Lane, expected: Sha, pr: PrView, base: Sha) returns (drifted: bool)
      modifies lane
      ensures var plan := Drift(old(lane.View()), expected, pr, base);
        && drifted == plan.event.Some?
        && lane.View() == (if drifted then Fired(plan.lane, plan.event.value, policy) else old(lane.View()))
    {
      if lane.pr.Some? && pr.open && pr.head != "" && pr.head != expected {
        Fire(lane, RemoteHeadDrift);
        return true;
      }
      if lane.candidate.Some? && base != lane.candidate.value.baseSha {
        lane.baseSha := base;
        Fire(lane, BaseDrift);
        return true;
      }
      return false;
    }

    /** False, with the lane held, when the landed design is not contained in the fresh base. */
    method RefreshBaseAfterDesignMerge(lane: Lane, w: World) returns (ok: bool)
      modifies lane
      ensures ok <==> (old(lane.worktree) != "" || w.mergeContained)
      ensures lane.View() ==
        if !ok then Fired(old(lane.View()), BaseRefreshFailed, policy)
        else if old(lane.worktree) != "" then old(lane.View())
        else old(lane.View()).(baseSha := w.freshBase)
    {
      if lane.worktree != "" {
        return true;
      }
      if !w.mergeContained {
        Fire(lane, BaseRefreshFailed);
        return false;
      }
      if lane.baseSha != w.freshBase {
        lane.baseSha := w.freshBase;
      }
      return true;
    }

    method ConcludeReview(lane: Lane, cand: Candidate, w: World) returns (yielded: bool)
      modifies lane
      ensures lane.View() == Executed(PlanVerdict(old(lane.View()), cand, w), policy)
      ensures yielded == Yielded(lane.status)
    {
      hide Decide, Applied;
      lane.head := w.headAfter;
      if w.reviewer.kind == Complete {
        var drifted := RemoteIdentityDrifted(lane, cand.headSha, w.prAfter, w.baseAfter);
        if drifted {
          return Yielded(lane.status);
        }
      }
      if w.reviewer.kind == Complete && w.verdict.Some? && w.headAfter == cand.headSha {
        lane.reviews := lane.reviews + [Review(cand.baseSha, cand.headSha, w.verdict.value, false)];
        if w.verdict.value == Go {
          lane.reviewedHead := Some(cand.headSha);
        }
      }
      Fire(lane, ReviewResult(w.reviewer, w.verdict, w.headAfter));
      return Yielded(lane.status);
    }

    method StepReview(lane: Lane, w: World) returns (yielded: bool)
      requires InReview(lane.status)
      modifies lane
      ensures lane.View() == Stepped(old(lane.View()), w, policy)
      ensures yielded && lane.status == old(lane.status) ==> Yielded(lane.status)
    {
      hide DecideBeforeWork, DecideInActor, DecideChecks, DecideAtMerge, DecideActor, PlanVerdict;
      if lane.candidate.None? {
        Fire(lane, ReviewResult(InvocationOutcome(Unknown, None), None, ""));
        return true;
      }
      var cand := lane.candidate.value;
      if w.head != cand.headSha {
        lane.head := w.head;
        Fire(lane, CandidateMutated);
        return false;
      }
      var drifted := RemoteIdentityDrifted(lane, cand.headSha, w.prBefore, w.baseBefore);
      if drifted {
        return Yielded(lane.status);
      }
      yielded := ConcludeReview(lane, cand, w);
    }

    method StepMergeWait(lane: Lane, w: World) returns (yielded: bool)
      requires lane.status.HumanMergeWait?
      modifies lane
      ensures lane.View() == Stepped(old(lane.View()), w, policy)
      ensures yielded && lane.status == old(lane.status) ==> Yielded(lane.status)
    {
      if lane.worktree != "" && w.worktreeExists && lane.reviewedHead.Some? && w.head != lane.reviewedHead.value {
        lane.head := w.head;
        Fire(lane, CandidateMutated);
        return false;
      }
      if lane.pr.None? {
        return true;
      }
      if w.pr.merged {
        Fire(lane, ObservedMerged);
        return !lane.status.Merged?;
      }
      if lane.reviewedHead.Some? {
        var drifted := RemoteIdentityDrifted(lane, lane.reviewedHead.value, w.prBefore, w.baseBefore);
        if drifted {
          return Yielded(lane.status);
        }
      }
      Fire(lane, ObservedPrStillOpen);
      return !lane.status.Merged?;
    }

    method StepFreeze(lane: Lane, w: World) returns (yielded: bool)
      requires lane.status.Freezing?
      modifies lane
      ensures lane.View() == Stepped(old(lane.View()), w, policy)
      ensures yielded && lane.status == old(lane.status) ==> Yielded(lane.status)
    {
      if w.head == lane.baseSha || !w.hasWork {
        Fire(lane, CandidateEmpty);
        return Yielded(lane.status);
      }
      if !w.baseIsAncestor {
        Fire(lane, CandidateBaseUnproven);
        return Yielded(lane.status);
      }
      lane.candidate := Some(Candidate(lane.baseSha, w.head));
      lane.head := w.head;
      if lane.pr.None? {
        lane.pr := Some(w.prNumber);
      }
      Fire(lane, CandidateFrozen);
      return false;
    }

    method StepBeforeWork(lane: Lane, w: World) returns (yielded: bool)
      requires lane.status.Pending? || lane.status.BlockedOnDesign?
      modifies lane
      ensures lane.View() == Stepped(old(lane.View()), w, policy)
      ensures yielded && lane.status == old(lane.status) ==> Yielded(lane.status)
    {
      if lane.status.Pending? {
        if w.dependencyMerged == Some(true) {
          var ok := RefreshBaseAfterDesignMerge(lane, w);
          if !ok { return true; }
        }
        Fire(lane, Admit(w.dependencyMerged));
        return lane.status.BlockedOnDesign?;
      }
      if w.dependencyMerged != Some(true) {
        Fire(lane, DesignDepStillUnmerged);
        return true;
      }
      var ok := RefreshBaseAfterDesignMerge(lane, w);
      if !ok { return true; }
      Fire(lane, DesignDepMerged);
      return lane.status.BlockedOnDesign?;
    }

    method StepSetup(lane: Lane, w: World) returns (yielded: bool)
      requires lane.status.WorktreeSetup?
      modifies lane
      ensures lane.View() == Stepped(old(lane.View()), w, policy)
      ensures yielded && lane.status == old(lane.status) ==> Yielded(lane.status)
    {
      if !w.claimed {
        Fire(lane, WorktreeConflict);
        return true;
      }
      lane.worktree := if lane.worktree != "" then lane.worktree else w.worktreePath;
      lane.head := w.head;
      Fire(lane, WorktreeReady);
      return false;
    }

    method StepActor(lane: Lane, w: World) returns (yielded: bool)
      requires lane.status.ActorRunning? || lane.status.ActorInterrupted?
      modifies lane
      ensures lane.View() == Stepped(old(lane.View()), w, policy)
      ensures yielded && lane.status == old(lane.status) ==> Yielded(lane.status)
    {
      lane.head := if w.worktreeExists then w.head else lane.head;
      Fire(lane, ActorResult(w.actor, w.signal, w.summary));
      return Yielded(lane.status);
    }

    /** Advances one lane by one step; answers whether it yielded at a boundary. */
    method Step(lane: Lane, w: World) returns (yielded: bool)
      modifies lane
      ensures lane.View() == Stepped(old(lane.View()), w, policy)
      ensures yielded && lane.status == old(lane.status) ==> Yielded(lane.status)
    {
      match lane.status {
        case Pending => yielded := StepBeforeWork(lane, w);
        case BlockedOnDesign => yielded := StepBeforeWork(lane, w);
        case WorktreeSetup => yielded := StepSetup(lane, w);
        case RepairPending =>
          Fire(lane, WorktreeReady);
          return false;
        case ActorRunning => yielded := StepActor(lane, w);
        case ActorInterrupted => yielded := StepActor(lane, w);
        case Validating =>
          Fire(lane, ValidationResult(w.validationPass));
          return Yielded(lane.status);
        case Freezing => yielded := StepFreeze(lane, w);
        case ReviewRunning => yielded := StepReview(lane, w);
        case ReviewInterrupted => yielded := StepReview(lane, w);
        case HumanMergeWait => yielded := StepMergeWait(lane, w);
        case HumanDirectionWait => return true;
        case HoldCapacity => return true;
        case HoldUnknown => return true;
        case Merged => return true;
      }
    }

    /** Startup: interrupt what was in flight, hold what lost its worktree, notice a human merge. */
    method Reconcile(worlds: seq<World>)
      requires Valid() && |worlds| == |lanes|
      modifies lanes
      ensures Valid()
      ensures forall k :: 0 <= k < |lanes| ==> lanes[k].View() == Reconciled(old(lanes[k].View()), worlds[k], policy)
    {
      hide Reconciled, Inv;
      ghost var before := seq(|lanes|, k requires 0 <= k < |lanes| reads lanes => lanes[k].View());
      for i := 0 to |lanes|
        invariant forall k :: 0 <= k < i ==> lanes[k].View() == Reconciled(before[k], worlds[k], policy)
        invariant forall k :: i <= k < |lanes| ==> lanes[k].View() == before[k]
      {
        ReconcileLane(lanes[i], worlds[i]);
      }
      ReconciledKeepInv(before, worlds, policy);
    }

    method ReconcileLane(lane: Lane, w: World)
      modifies lane
      ensures lane.View() == Reconciled(old(lane.View()), w, policy)
    {
      if lane.status.ActorRunning? || lane.status.ReviewRunning? {
        Fire(lane, RestartObserved);
      } else if NeedsWorktree(lane.status) && lane.worktree != "" && !w.worktreeExists {
        Fire(lane, HumanHold);
      } else if lane.status.HumanMergeWait? && lane.pr.Some? && w.pr.merged {
        Fire(lane, ObservedMerged);
      }
    }

    /** The outermost safety net: a step that throws before or after its writes leaves a durable hold. */
    method StepOrHold(lane: Lane, w: World) returns (yielded: bool)
      requires Inv(lane.View(), policy) && Plausible(w)
      modifies lane
      ensures Inv(lane.View(), policy)
      ensures lane.View() == Stepped(old(lane.View()), w, policy) || Broken(old(lane.View()), w, policy, lane.View())
      ensures yielded && lane.status == old(lane.status) ==> Yielded(lane.status)
    {
      ghost var before := lane.View();
      StepKeepsInv(before, w, policy);
      if * {
        yielded := Step(lane, w);
        if * {
          return;
        }
      }
      lane.status := HoldUnknown;
      BrokenStepBounds(before, w, policy, lane.View());
      return true;
    }

    /**
     * Drives all lanes until every one of them is at a boundary, or the step bound is hit; the ports
     * answer anything plausible, and any step may throw.
     */
    method Run(maxSteps: nat) returns (steps: nat)
      requires Valid()
      modifies lanes
      ensures Valid()
      ensures steps <= maxSteps
      ensures steps == maxSteps || forall i :: 0 <= i < |lanes| ==> Yielded(lanes[i].status)
    {
      hide Inv, Stepped, Broken;
      steps := 0;
      var progress := true;
      while progress && steps < maxSteps
        invariant Valid() && steps <= maxSteps
        invariant !progress && steps < maxSteps ==> forall i :: 0 <= i < |lanes| ==> Yielded(lanes[i].status)
        decreases maxSteps - steps, progress
      {
        progress := false;
        var i := 0;
        ghost var entry := steps;
        while i < |lanes| && steps < maxSteps
          invariant 0 <= i <= |lanes| && Valid() && entry <= steps <= maxSteps
          invariant !progress ==> forall k :: 0 <= k < i ==> Yielded(lanes[k].status)
          invariant progress ==> entry < steps
        {
          var lane := lanes[i];
          i := i + 1;
          if Yielded(lane.status) && !lane.status.BlockedOnDesign? && !lane.status.HumanMergeWait? {
            continue;
          }
          var before := lane.status;
          var w: World := *;
          if w.worktreePath == "" {
            w := w.(worktreePath := "worktrees/lane");
          }
          var yielded := StepOrHold(lane, w);
          steps := steps + 1;
          if !yielded || lane.status != before {
            progress := true;
          }
        }
        if forall k :: 0 <= k < |lanes| ==> Yielded(lanes[k].status) {
          break;
        }
      }
    }
  }
}
