/**
 * The lane bookkeeping of devharness/supervisor.ts and devharness/cli.ts as functions on lane values:
 * what `apply`, `step`, `reconcile` and the two human commands do, given what the ports answered.
 */
module LaneSpec {
  import opened Wrappers
  import opened Transitions

  predicate Held(status: LaneStatus) {
    status.HoldCapacity? || status.HoldUnknown?
  }

  predicate InReview(status: LaneStatus) {
    status.ReviewRunning? || status.ReviewInterrupted?
  }

  /** TERMINALLY_YIELDED. */
  predicate Yielded(status: LaneStatus) {
    Held(status) || status.HumanMergeWait? || status.HumanDirectionWait? || status.Merged? || status.BlockedOnDesign?
  }

  /** The statuses of a lane whose isolated worktree exists. */
  predicate Isolated(status: LaneStatus) {
    !Held(status) && !status.Pending? && !status.BlockedOnDesign? && !status.WorktreeSetup?
  }

  datatype PrView = PrView(open: bool, merged: bool, head: Sha)

  /** Everything the ports may answer during one step; each field is read in the statuses that ask it. */
  datatype World = World(
    dependencyMerged: Option<bool>, mergeContained: bool, freshBase: Sha,
    worktreePath: string, claimed: bool, worktreeExists: bool, head: Sha,
    actor: InvocationOutcome, signal: Option<ActorSignal>, summary: Option<string>,
    validationPass: bool, hasWork: bool, baseIsAncestor: bool, prNumber: nat,
    reviewer: InvocationOutcome, verdict: Option<Verdict>, headAfter: Sha,
    pr: PrView, prBefore: PrView, baseBefore: Sha, prAfter: PrView, baseAfter: Sha)

  function Invalidated(reviews: seq<Review>): (r: seq<Review>)
    ensures |r| == |reviews|
    ensures forall i :: 0 <= i < |r| ==> r[i] == reviews[i].(invalidated := true)
  {
    if reviews == [] then [] else [reviews[0].(invalidated := true)] + Invalidated(reviews[1..])
  }

  /** `apply`: the bookkeeping of one decision. */
  function Applied(lane: LaneState, d: Decision): LaneState {
    LaneState(
      d.status, lane.worktree, lane.baseSha, lane.head, lane.pr, lane.candidate,
      if InvalidateReviews in d.actions then Invalidated(lane.reviews) else lane.reviews,
      if InvalidateReviews in d.actions then None else lane.reviewedHead,
      if Held(d.status) then
        (if d.provenance.Some? then d.provenance else lane.provenance)
      else None,
      match d.direction {
        case KeepDirection => lane.direction case SetDirection(s) => Some(s) case ClearDirection => None },
      if d.countsRepair then lane.attempt + 1 else lane.attempt,
      match d.retries { case KeepRetries => lane.retryCount case CountRetry => lane.retryCount
        + 1 case ResetRetries => 0 })
  }

  function Fired(lane: LaneState, event: Event, policy: Policy): LaneState {
    Applied(lane, Decide(lane, event, policy))
  }

  /** `cli.ts` hold and resume: status, provenance and retries only; reviews are not touched. */
  function HumanCommand(lane: LaneState, event: Event, policy: Policy): LaneState
    requires event.HumanHold? || event.HumanResume?
  {
    var d := Decide(lane, event, policy);
    lane.(
      status := d.status,
      provenance := if Held(d.status) then
                      (if d.provenance.Some? then d.provenance else lane.provenance) else None,
      retryCount := if d.retries == ResetRetries then 0 else lane.retryCount)
  }

  /** What a step writes to the lane before it fires its one event; `None` when it fires none. */
  datatype Plan = Plan(lane: LaneState, event: Option<Event>)

  /** `remoteIdentityDrifted`: the foreign push first, then the advanced base, which is adopted. */
  function Drift(lane: LaneState, expected: Sha, pr: PrView, base: Sha): Plan {
    if lane.pr.Some? && pr.open && pr.head != "" && pr.head != expected then
      Plan(lane, Some(RemoteHeadDrift))
    else if lane.candidate.Some? && base != lane.candidate.value.baseSha then
      Plan(lane.(baseSha := base), Some(BaseDrift))
    else
      Plan(lane, None)
  }

  /** `refreshBaseAfterDesignMerge` followed by `event`, or the failure it raises instead. */
  function Refreshed(lane: LaneState, w: World, event: Event): Plan {
    if lane.worktree != "" then Plan(lane, Some(event))
    else if !w.mergeContained then Plan(lane, Some(BaseRefreshFailed))
    else Plan(lane.(baseSha := w.freshBase), Some(event))
  }

  function PlanFreeze(lane: LaneState, w: World): Plan {
    if w.head == lane.baseSha || !w.hasWork then Plan(lane, Some(CandidateEmpty))
    else if !w.baseIsAncestor then Plan(lane, Some(CandidateBaseUnproven))
    else Plan(
      lane.(candidate := Some(Candidate(lane.baseSha, w.head)), head := w.head,
            pr := if lane.pr.None? then Some(w.prNumber) else lane.pr),
      Some(CandidateFrozen))
  }

  function Recorded(lane: LaneState, cand: Candidate, w: World): LaneState {
    if w.reviewer.kind == Complete && w.verdict.Some? && w.headAfter == cand.headSha then
      lane.(reviews := lane.reviews + [Review(cand.baseSha, cand.headSha, w.verdict.value, false)],
            reviewedHead := if w.verdict.value == Go then Some(cand.headSha) else lane.reviewedHead)
    else lane
  }

  /** After the review: drift first, then the recorded verdict. */
  function PlanVerdict(lane: LaneState, cand: Candidate, w: World): Plan {
    var seen := lane.(head := w.headAfter);
    var after := Drift(seen, cand.headSha, w.prAfter, w.baseAfter);
    if w.reviewer.kind == Complete && after.event.Some? then after
    else Plan(Recorded(seen, cand, w), Some(ReviewResult(w.reviewer, w.verdict, w.headAfter)))
  }

  function PlanReview(lane: LaneState, w: World): Plan {
    if lane.candidate.None? then
      Plan(lane, Some(ReviewResult(InvocationOutcome(Unknown, None), None, "")))
    else
      var cand := lane.candidate.value;
      if w.head != cand.headSha then Plan(lane.(head := w.head), Some(CandidateMutated))
      else
        var before := Drift(lane, cand.headSha, w.prBefore, w.baseBefore);
        if before.event.Some? then before else PlanVerdict(lane, cand, w)
  }

  function PlanMergeWait(lane: LaneState, w: World): Plan {
    if lane.worktree != "" && w.worktreeExists && lane.reviewedHead.Some? && w.head != lane.reviewedHead.value then
      Plan(lane.(head := w.head), Some(CandidateMutated))
    else if lane.pr.None? then Plan(lane, None)
    else if w.pr.merged then Plan(lane, Some(ObservedMerged))
    else if lane.reviewedHead.Some? then
      var drift := Drift(lane, lane.reviewedHead.value, w.prBefore, w.baseBefore);
      if drift.event.Some? then drift else Plan(lane, Some(ObservedPrStillOpen))
    else Plan(lane, Some(ObservedPrStillOpen))
  }

  function PlanStep(lane: LaneState, w: World): Plan {
    match lane.status
    case Pending =>
      if w.dependencyMerged == Some(true) then Refreshed(lane, w, Admit(w.dependencyMerged))
      else Plan(lane, Some(Admit(w.dependencyMerged)))
    case BlockedOnDesign =>
      if w.dependencyMerged != Some(true) then Plan(lane, Some(DesignDepStillUnmerged))
      else Refreshed(lane, w, DesignDepMerged)
    case WorktreeSetup =>
      if !w.claimed then Plan(lane, Some(WorktreeConflict))
      else Plan(lane.(worktree := if lane.worktree != "" then lane.worktree else w.worktreePath, head := w.head),
                Some(WorktreeReady))
    case RepairPending => Plan(lane, Some(WorktreeReady))
    case ActorRunning =>
      Plan(lane.(head := if w.worktreeExists then w.head else lane.head),
        Some(ActorResult(w.actor, w.signal, w.summary)))
    case ActorInterrupted =>
      Plan(lane.(head := if w.worktreeExists then w.head else lane.head),
        Some(ActorResult(w.actor, w.signal, w.summary)))
    case Validating => Plan(lane, Some(ValidationResult(w.validationPass)))
    case Freezing => PlanFreeze(lane, w)
    case ReviewRunning => PlanReview(lane, w)
    case ReviewInterrupted => PlanReview(lane, w)
    case HumanMergeWait => PlanMergeWait(lane, w)
    case HumanDirectionWait => Plan(lane, None)
    case HoldCapacity => Plan(lane, None)
    case HoldUnknown => Plan(lane, None)
    case Merged => Plan(lane, None)
  }

  function Executed(plan: Plan, policy: Policy): LaneState {
    if plan.event.None? then plan.lane else Fired(plan.lane, plan.event.value, policy)
  }

  function Stepped(lane: LaneState, w: World, policy: Policy): LaneState {
    Executed(PlanStep(lane, w), policy)
  }

  predicate NeedsWorktree(status: LaneStatus) {
    status.ActorInterrupted? || status.Validating? || status.Freezing? || status.ReviewInterrupted?
      || status.RepairPending?
  }

  /** `reconcile` for one lane at startup. */
  function Reconciled(lane: LaneState, w: World, policy: Policy): LaneState {
    if lane.status.ActorRunning? || lane.status.ReviewRunning? then Fired(lane, RestartObserved, policy)
    else if NeedsWorktree(lane.status) && lane.worktree != "" && !w.worktreeExists then Fired(lane, HumanHold, policy)
    else if lane.status == HumanMergeWait && lane.pr.Some? && w.pr.merged then Fired(lane, ObservedMerged, policy)
    else lane
  }

  /** `admitWork`: a new lane. */
  function Admitted(baseSha: Sha): LaneState {
    LaneState(Pending, "", baseSha, "", None, None, [], None, None, None, 0, 0)
  }

  /**
   * A step whose ports threw. The safety net overwrites the status only, so whatever the step had
   * already written stays: any mixture of the fields before, between and after its writes.
   */
  ghost predicate Broken(lane: LaneState, w: World, policy: Policy, after: LaneState) {
    && after.status == HoldUnknown
    && after.attempt in {lane.attempt, Stepped(lane, w, policy).attempt}
    && after.retryCount in {lane.retryCount, Stepped(lane, w, policy).retryCount}
    && after.provenance in {lane.provenance, Stepped(lane, w, policy).provenance}
    && (lane.worktree != "" ==> after.worktree != "")
  }

  // ---------------------------------------------------------------- the invariant

  /** The exact-candidate rule: a GO that is still valid names precisely the frozen base and head. */
  predicate MergeReady(lane: LaneState) {
    && lane.candidate.Some?
    && lane.reviewedHead == Some(lane.candidate.value.headSha)
    && Review(lane.candidate.value.baseSha, lane.candidate.value.headSha, Go, false) in lane.reviews
  }

  predicate Inv(lane: LaneState, policy: Policy) {
    && (lane.status == HumanMergeWait ==> MergeReady(lane))
    && (InReview(lane.status) ==> lane.candidate.Some?)
    && (lane.provenance.Some? ==> Held(lane.status))
    && (Isolated(lane.status) ==> lane.worktree != "")
    && lane.attempt <= policy.maxRepairRounds
    && (lane.status == RepairPending ==> lane.attempt < policy.maxRepairRounds)
    && lane.retryCount <= policy.maxProviderRetries
  }

  /** The claimed path is `<stateDir>/worktrees/<laneId>`, never the empty string. */
  predicate Plausible(w: World) {
    w.worktreePath != ""
  }

  lemma PlanKeepsInv(lane: LaneState, w: World, policy: Policy)
    requires Inv(lane, policy) && Plausible(w)
    ensures Inv(PlanStep(lane, w).lane, policy)
    ensures PlanStep(lane, w).lane.status == lane.status
  {}

  /** An event that a lane in this status can be sent, with the facts its sender established. */
  predicate Sendable(lane: LaneState, event: Event) {
    && (event.CandidateFrozen? ==> lane.candidate.Some?)
    && (event.WorktreeReady? ==> lane.worktree != "")
    && (ExactGo(lane, event) ==> MergeReady(lane))
  }

  /** A typed GO for the head the lane froze. */
  predicate ExactGo(lane: LaneState, event: Event) {
    && event.ReviewResult? && event.reviewOutcome.kind == Complete && event.verdict == Some(Go)
    && lane.candidate.Some? && event.headAtEnd == lane.candidate.value.headSha
  }

  /** What the invariant needs to know of a decision, whichever row of the table it came from. */
  predicate Sound(lane: LaneState, d: Decision, policy: Policy) {
    && (d.status.HumanMergeWait? ==> MergeReady(lane) && InvalidateReviews !in d.actions)
    && (InReview(d.status) ==> lane.candidate.Some?)
    && (d.provenance.Some? ==> Held(d.status))
    && (Isolated(d.status) ==> lane.worktree != "")
    && (d.countsRepair ==> lane.attempt < policy.maxRepairRounds && !d.status.RepairPending?)
    && (d.status.RepairPending? ==> lane.attempt < policy.maxRepairRounds)
    && (d.retries == CountRetry ==> lane.retryCount < policy.maxProviderRetries)
  }

  lemma DecisionsAreSound(lane: LaneState, event: Event, policy: Policy)
    requires Inv(lane, policy) && Sendable(lane, event)
    ensures Sound(lane, Decide(lane, event, policy), policy)
  {
    if event.HumanHold? {
    } else if event.HumanResume? {
      ResumeIsSound(lane, policy);
    } else {
      match lane.status
      case Pending => EarlyDecisionsAreSound(lane, event, policy);
      case BlockedOnDesign => EarlyDecisionsAreSound(lane, event, policy);
      case WorktreeSetup => EarlyDecisionsAreSound(lane, event, policy);
      case ActorRunning => ActorDecisionsAreSound(lane, event, policy);
      case ActorInterrupted => ActorDecisionsAreSound(lane, event, policy);
      case Validating => CheckDecisionsAreSound(lane, event, policy);
      case Freezing => CheckDecisionsAreSound(lane, event, policy);
      case RepairPending => CheckDecisionsAreSound(lane, event, policy);
      case ReviewRunning => ReviewDecisionsAreSound(lane, event, policy);
      case ReviewInterrupted => ReviewDecisionsAreSound(lane, event, policy);
      case HumanMergeWait => MergeDecisionsAreSound(lane, event, policy);
      case _ =>
    }
  }

  lemma ResumeIsSound(lane: LaneState, policy: Policy)
    requires Inv(lane, policy)
    ensures Sound(lane, DecideResume(lane), policy)
  {}

  lemma EarlyDecisionsAreSound(lane: LaneState, event: Event, policy: Policy)
    requires Inv(lane, policy) && Sendable(lane, event)
    ensures Sound(lane, DecideBeforeWork(lane, event), policy)
  {}

  lemma CheckDecisionsAreSound(lane: LaneState, event: Event, policy: Policy)
    requires Inv(lane, policy) && Sendable(lane, event) && Isolated(lane.status)
    ensures Sound(lane, DecideChecks(lane, event, policy), policy)
  {}

  lemma MergeDecisionsAreSound(lane: LaneState, event: Event, policy: Policy)
    requires Inv(lane, policy) && lane.status.HumanMergeWait?
    ensures Sound(lane, DecideAtMerge(lane, event, policy), policy)
  {}

  lemma FailuresAreSound(role: Role, lane: LaneState, outcome: InvocationOutcome, policy: Policy)
    requires Inv(lane, policy) && outcome.kind != Complete && Isolated(lane.status) && !lane.status.HumanMergeWait?
    ensures Sound(lane, RouteProviderFailure(role, lane, outcome, policy), policy)
  {}

  lemma ActorDecisionsAreSound(lane: LaneState, event: Event, policy: Policy)
    requires Inv(lane, policy) && (lane.status.ActorRunning? || lane.status.ActorInterrupted?)
    ensures Sound(lane, DecideInActor(lane, event, policy), policy)
  {
    if event.ActorResult? && event.outcome.kind != Complete {
      FailuresAreSound(Actor, lane, event.outcome, policy);
    }
  }

  lemma ReviewDecisionsAreSound(lane: LaneState, event: Event, policy: Policy)
    requires Inv(lane, policy) && Sendable(lane, event) && InReview(lane.status)
    ensures Sound(lane, DecideInReview(lane, event, policy), policy)
  {
    if event.ReviewResult? && event.reviewOutcome.kind != Complete {
      FailuresAreSound(Reviewer, lane, event.reviewOutcome, policy);
    }
  }

  lemma SoundKeepsInv(lane: LaneState, d: Decision, policy: Policy)
    requires Inv(lane, policy) && Sound(lane, d, policy)
    ensures Inv(Applied(lane, d), policy)
  {}

  lemma FiringKeepsInv(lane: LaneState, event: Event, policy: Policy)
    requires Inv(lane, policy) && Sendable(lane, event)
    ensures Inv(Fired(lane, event, policy), policy)
  {
    DecisionsAreSound(lane, event, policy);
    SoundKeepsInv(lane, Decide(lane, event, policy), policy);
  }

  lemma RecordedGoIsReady(lane: LaneState, cand: Candidate, w: World)
    requires lane.candidate == Some(cand)
    requires w.reviewer.kind == Complete && w.verdict == Some(Go) && w.headAfter == cand.headSha
    ensures MergeReady(Recorded(lane, cand, w))
  {
    assert Recorded(lane, cand, w).reviews[|lane.reviews|] == Review(cand.baseSha, cand.headSha, Go, false);
  }

  lemma ReviewPlanIsSendable(lane: LaneState, w: World, policy: Policy)
    requires Inv(lane, policy) && InReview(lane.status)
    ensures var plan := PlanReview(lane, w); plan.event.Some? ==> Sendable(plan.lane, plan.event.value)
  {
    if w.reviewer.kind == Complete && w.verdict == Some(Go) && w.headAfter == lane.candidate.value.headSha {
      RecordedGoIsReady(lane.(head := w.headAfter), lane.candidate.value, w);
    }
  }

  lemma PlanIsSendable(lane: LaneState, w: World, policy: Policy)
    requires Inv(lane, policy) && Plausible(w)
    ensures var plan := PlanStep(lane, w); plan.event.Some? ==> Sendable(plan.lane, plan.event.value)
  {
    hide PlanReview, MergeReady;
    if InReview(lane.status) {
      ReviewPlanIsSendable(lane, w, policy);
    }
  }

  lemma StepKeepsInv(lane: LaneState, w: World, policy: Policy)
    requires Inv(lane, policy) && Plausible(w)
    ensures Inv(Stepped(lane, w, policy), policy)
  {
    PlanKeepsInv(lane, w, policy);
    PlanIsSendable(lane, w, policy);
    var plan := PlanStep(lane, w);
    if plan.event.Some? {
      FiringKeepsInv(plan.lane, plan.event.value, policy);
    }
  }

  // ---------------------------------------------------------------- whole histories

  /** One thing that can happen to a lane; `Cut` is a crash after a step's writes but before its event. */
  datatype Move = Step(w: World) | Cut(w: World) | Throw(w: World,
    after: LaneState) | Restart(w: World) | Human(event: Event)

  ghost predicate Possible(lane: LaneState, m: Move, policy: Policy) {
    match m
    case Step(w) => Plausible(w)
    case Cut(w) => Plausible(w)
    case Throw(w, after) => Plausible(w) && Broken(lane, w, policy, after)
    case Restart(w) => true
    case Human(event) => event.HumanHold? || event.HumanResume?
  }

  ghost function Moved(lane: LaneState, m: Move, policy: Policy): LaneState
    requires Possible(lane, m, policy)
  {
    match m
    case Step(w) => Stepped(lane, w, policy)
    case Cut(w) => PlanStep(lane, w).lane
    case Throw(w, after) => after
    case Restart(w) => Reconciled(lane, w, policy)
    case Human(event) => HumanCommand(lane, event, policy)
  }

  /** `trace` is a history of one lane under `moves`. */
  ghost predicate History(trace: seq<LaneState>, moves: seq<Move>, policy: Policy) {
    && |trace| == |moves| + 1
    && forall k :: 0 <= k < |moves| ==>
         Possible(trace[k], moves[k], policy) && trace[k + 1] == Moved(trace[k], moves[k], policy)
  }

  lemma BrokenStepBounds(lane: LaneState, w: World, policy: Policy, after: LaneState)
    requires Inv(lane, policy) && Plausible(w) && Broken(lane, w, policy, after)
    ensures Inv(after, policy)
  {
    StepKeepsInv(lane, w, policy);
  }

  lemma HumanCommandKeepsInv(lane: LaneState, event: Event, policy: Policy)
    requires Inv(lane, policy) && (event.HumanHold? || event.HumanResume?)
    ensures Inv(HumanCommand(lane, event, policy), policy)
  {}

  lemma MoveKeepsInv(lane: LaneState, m: Move, policy: Policy)
    requires Inv(lane, policy) && Possible(lane, m, policy)
    ensures Inv(Moved(lane, m, policy), policy)
  {
    hide Decide, Applied, Stepped, PlanStep, HumanCommand;
    match m
    case Step(w) => StepKeepsInv(lane, w, policy);
    case Cut(w) => PlanKeepsInv(lane, w, policy);
    case Throw(w, after) => BrokenStepBounds(lane, w, policy, after);
    case Restart(w) => FiringKeepsInv(lane, RestartObserved, policy); FiringKeepsInv(lane, HumanHold, policy);
                       FiringKeepsInv(lane, ObservedMerged, policy);
    case Human(event) => HumanCommandKeepsInv(lane, event, policy);
  }

  /**
   * Main: in every history of a lane, whatever the actor, the reviewer, GitHub, crashes, restarts and
   * humans do, the merge boundary holds only a lane with an unvoided GO on exactly its frozen base and
   * head, and the repair and retry counters stay within the policy.
   */
  lemma {:induction false} MergeReadyIsExact(trace: seq<LaneState>, moves: seq<Move>, policy: Policy,
      baseSha: Sha, k: nat)
    requires History(trace, moves, policy) && trace[0] == Admitted(baseSha) && k < |trace|
    ensures Inv(trace[k], policy)
    ensures trace[k].status == HumanMergeWait ==> MergeReady(trace[k])
    ensures trace[k].attempt <= policy.maxRepairRounds && trace[k].retryCount <= policy.maxProviderRetries
  {
    if k > 0 {
      MergeReadyIsExact(trace, moves, policy, baseSha, k - 1);
      MoveKeepsInv(trace[k - 1], moves[k - 1], policy);
    }
  }

  /**
   * A human hold leaves any status, even the merged one; a resume reaches neither boundary by itself; and
   * neither touches the candidate, its reviews, the recorded heads or the repair rounds.
   */
  lemma HumanCommandsKeepTheReview(lane: LaneState, event: Event, policy: Policy)
    requires event.HumanHold? || event.HumanResume?
    ensures var after := HumanCommand(lane, event, policy);
      && after == lane.(status := after.status, provenance := after.provenance, retryCount := after.retryCount)
      && (event.HumanHold? ==> after.status.HoldCapacity? && after.retryCount == lane.retryCount)
      && (event.HumanResume? && (Held(lane.status) || lane.status.HumanDirectionWait?) ==>
            after.status.Pending? || after.status.Validating? || after.status.ActorInterrupted?)
      && (event.HumanResume? && !Held(lane.status) && !lane.status.HumanDirectionWait? ==> after.status == lane.status)
  {}

  /** A step opens the merge boundary only on a GO with no drift seen before or after the review. */
  lemma OpeningMergeWait(lane: LaneState, w: World, policy: Policy)
    requires Inv(lane, policy) && Plausible(w)
    requires lane.status != HumanMergeWait && Stepped(lane, w, policy).status == HumanMergeWait
    ensures InReview(lane.status)
    ensures var c := lane.candidate.value;
      && w.reviewer.kind == Complete && w.verdict == Some(Go)
      && w.head == c.headSha == w.headAfter
      && w.baseBefore == c.baseSha == w.baseAfter
      && (lane.pr.Some? && w.prBefore.open && w.prBefore.head != "" ==> w.prBefore.head == c.headSha)
      && (lane.pr.Some? && w.prAfter.open && w.prAfter.head != "" ==> w.prAfter.head == c.headSha)
      && Stepped(lane, w, policy).candidate == lane.candidate
  {
    var plan := PlanStep(lane, w);
    OnlyExactGoOpensMergeWait(plan.lane, plan.event.value, policy);
  }

  // ---------------------------------------------------------------- termination

  function Rank(status: LaneStatus): nat {
    match status
    case Pending => 9
    case BlockedOnDesign => 8
    case WorktreeSetup => 7
    case ActorRunning => 6
    case ActorInterrupted => 6
    case Validating => 5
    case Freezing => 4
    case ReviewRunning => 3
    case ReviewInterrupted => 3
    case HumanMergeWait => 2
    case RepairPending => 1
    case _ => 0
  }

  /** Repair rounds left, then phase, then provider retries left, as one number. */
  function Measure(lane: LaneState, policy: Policy): nat
    requires Inv(lane, policy)
  {
    ((policy.maxRepairRounds - lane.attempt) * 10 + Rank(lane.status)) * (policy.maxProviderRetries + 1)
      + (policy.maxProviderRetries - lane.retryCount)
  }

  /** Nobody but the supervisor moved the branch head while this step looked at it. */
  predicate HeadsStill(lane: LaneState, w: World) {
    && (InReview(lane.status) && lane.candidate.Some? ==>
          w.head == lane.candidate.value.headSha == w.headAfter)
    && (lane.status == HumanMergeWait && lane.worktree != "" && w.worktreeExists && lane.reviewedHead.Some? ==>
          w.head == lane.reviewedHead.value)
  }

  /** The step found its lane waiting at a boundary and left it there. */
  predicate Waits(lane: LaneState, after: LaneState) {
    && Yielded(lane.status) && after.status == lane.status
    && after.attempt == lane.attempt && after.retryCount == lane.retryCount
  }

  lemma LexicographicDrop(a: nat, b: nat, rounds: nat, rank: nat, rounds': nat, rank': nat, m: nat)
    requires a <= m && b <= m && rank < 10 && rank' < 10
    requires rounds' < rounds || (rounds' == rounds && (rank' < rank || (rank' == rank && b < a)))
    ensures (rounds' * 10 + rank') * (m + 1) + b < (rounds * 10 + rank) * (m + 1) + a
  {
    var x, y := rounds * 10 + rank, rounds' * 10 + rank';
    if y < x {
      MultiplesAreApart(x, y, m + 1);
    }
  }

  lemma MultiplesAreApart(x: nat, y: nat, n: nat)
    requires y < x
    ensures y * n + n <= x * n
  {
    assert (y + 1) * n <= x * n by {
      assert x * n == (y + 1) * n + (x - y - 1) * n;
    }
  }

  predicate Falls(lane: LaneState, after: LaneState) {
    || after.attempt > lane.attempt
    || (after.attempt == lane.attempt && Rank(after.status) < Rank(lane.status))
    || (after.attempt == lane.attempt && after.status == lane.status && after.retryCount > lane.retryCount)
  }

  predicate Expected(lane: LaneState, event: Event) {
    && !event.RestartObserved? && !event.HumanResume? && !event.CandidateMutated?
    && (event.ReviewResult? && event.reviewOutcome.kind == Complete ==>
          lane.candidate.Some? && event.headAtEnd == lane.candidate.value.headSha)
    && (event.WorktreeReady? ==> lane.status.WorktreeSetup? || lane.status.RepairPending?)
    && (event.DesignDepStillUnmerged? ==> lane.status.BlockedOnDesign?)
    && !Held(lane.status) && !lane.status.HumanDirectionWait? && !lane.status.Merged?
  }

  predicate DecidesDownward(lane: LaneState, d: Decision) {
    || (d.countsRepair)
    || Rank(d.status) < Rank(lane.status)
    || (d.status == lane.status && d.retries == CountRetry)
    || (d.status == lane.status && Yielded(lane.status) && d.retries == KeepRetries)
  }

  lemma EventIsExpected(lane: LaneState, w: World, policy: Policy)
    requires Inv(lane, policy) && Plausible(w) && HeadsStill(lane, w)
    ensures var plan := PlanStep(lane, w); plan.event.Some? ==> Expected(plan.lane, plan.event.value)
    ensures PlanStep(lane, w).event.None? ==> PlanStep(lane, w).lane == lane && Yielded(lane.status)
    ensures var p := PlanStep(lane, w).lane; p.attempt == lane.attempt && p.retryCount == lane.retryCount
  {
    match lane.status
    case ReviewRunning => ReviewEventIsExpected(lane, w, policy);
    case ReviewInterrupted => ReviewEventIsExpected(lane, w, policy);
    case _ =>
  }

  lemma ReviewEventIsExpected(lane: LaneState, w: World, policy: Policy)
    requires Inv(lane, policy) && InReview(lane.status) && HeadsStill(lane, w)
    ensures var plan := PlanReview(lane, w);
      && plan.event.Some? && Expected(plan.lane, plan.event.value)
      && plan.lane.attempt == lane.attempt && plan.lane.retryCount == lane.retryCount
  {}

  lemma DecisionFalls(lane: LaneState, event: Event, policy: Policy)
    requires Inv(lane, policy) && Expected(lane, event)
    ensures DecidesDownward(lane, Decide(lane, event, policy))
  {
    hide DecideInActor, DecideInReview, DecideChecks, DecidesDownward, Rank, Inv;
    ActorDecisionFalls(lane, event, policy);
    ReviewDecisionFalls(lane, event, policy);
    CheckDecisionFalls(lane, event, policy);
    OtherDecisionFalls(lane, event, policy);
  }

  lemma ActorDecisionFalls(lane: LaneState, event: Event, policy: Policy)
    requires Inv(lane, policy) && Expected(lane, event)
    ensures lane.status.ActorRunning? || lane.status.ActorInterrupted? ==>
      event.HumanHold? || DecidesDownward(lane, DecideInActor(lane, event, policy))
  {}

  lemma ReviewDecisionFalls(lane: LaneState, event: Event, policy: Policy)
    requires Inv(lane, policy) && Expected(lane, event)
    ensures InReview(lane.status) ==> event.HumanHold? || DecidesDownward(lane, DecideInReview(lane, event, policy))
  {}

  lemma CheckDecisionFalls(lane: LaneState, event: Event, policy: Policy)
    requires Inv(lane, policy) && Expected(lane, event)
    ensures lane.status.Validating? || lane.status.Freezing? || lane.status.RepairPending? ==>
      event.HumanHold? || DecidesDownward(lane, DecideChecks(lane, event, policy))
  {}

  /** The human hold, and the statuses before the work and at the merge boundary. */
  lemma OtherDecisionFalls(lane: LaneState, event: Event, policy: Policy)
    requires Inv(lane, policy) && Expected(lane, event)
    ensures DecidesDownward(lane, Hold(HoldCapacity, None))
    ensures lane.status.Pending? || lane.status.BlockedOnDesign? || lane.status.WorktreeSetup? ==>
      event.HumanHold? || DecidesDownward(lane, DecideBeforeWork(lane, event))
    ensures lane.status.HumanMergeWait? ==>
      event.HumanHold? || DecidesDownward(lane, DecideAtMerge(lane, event, policy))
  {}

  lemma FallingApplies(lane: LaneState, d: Decision)
    requires DecidesDownward(lane, d)
    ensures Waits(lane, Applied(lane, d)) || Falls(lane, Applied(lane, d))
  {}

  lemma StepFallsOrWaits(lane: LaneState, w: World, policy: Policy)
    requires Inv(lane, policy) && Plausible(w) && HeadsStill(lane, w)
    ensures Waits(lane, Stepped(lane, w, policy)) || Falls(lane, Stepped(lane, w, policy))
  {
    var plan := PlanStep(lane, w);
    PlanKeepsInv(lane, w, policy);
    if plan.event.Some? {
      PlanIsSendable(lane, w, policy);
      EventIsExpected(lane, w, policy);
      DecisionFalls(plan.lane, plan.event.value, policy);
      FallingApplies(plan.lane, Decide(plan.lane, plan.event.value, policy));
    }
  }

  lemma FallingLowersMeasure(lane: LaneState, after: LaneState, policy: Policy)
    requires Inv(lane, policy) && Inv(after, policy) && Falls(lane, after)
    ensures Measure(after, policy) < Measure(lane, policy)
  {
    LexicographicDrop(
      policy.maxProviderRetries - lane.retryCount, policy.maxProviderRetries - after.retryCount,
      policy.maxRepairRounds - lane.attempt, Rank(lane.status),
      policy.maxRepairRounds - after.attempt, Rank(after.status), policy.maxProviderRetries);
  }

  lemma WaitingKeepsMeasure(lane: LaneState, after: LaneState, policy: Policy)
    requires Inv(lane, policy) && Inv(after, policy) && Waits(lane, after)
    ensures Measure(after, policy) == Measure(lane, policy)
  {}

  /** Main: every step that is not a wait at a boundary strictly decreases the measure. */
  lemma StepDecreasesMeasure(lane: LaneState, w: World, policy: Policy)
    requires Inv(lane, policy) && Plausible(w) && HeadsStill(lane, w)
    ensures Inv(Stepped(lane, w, policy), policy)
    ensures var after := Stepped(lane, w, policy);
      if Waits(lane, after) then Measure(after, policy) == Measure(lane, policy)
      else Measure(after, policy) < Measure(lane, policy)
  {
    StepKeepsInv(lane, w, policy);
    StepFallsOrWaits(lane, w, policy);
    if Waits(lane, Stepped(lane, w, policy)) {
      WaitingKeepsMeasure(lane, Stepped(lane, w, policy), policy);
    } else {
      FallingLowersMeasure(lane, Stepped(lane, w, policy), policy);
    }
  }

  /** The number of steps of `worlds` that did more than wait. */
  function Work(lane: LaneState, worlds: seq<World>, policy: Policy): nat
    decreases |worlds|
  {
    if worlds == [] then 0
    else
      var after := Stepped(lane, worlds[0], policy);
      (if Waits(lane, after) then 0 else 1) + Work(after, worlds[1..], policy)
  }

  ghost predicate AllStill(lane: LaneState, worlds: seq<World>, policy: Policy)
    decreases |worlds|
  {
    worlds == [] ||
    (&& Plausible(worlds[0]) && HeadsStill(lane, worlds[0])
     && AllStill(Stepped(lane, worlds[0], policy), worlds[1..], policy))
  }

  /** However long the supervisor runs, it does at most `Measure` units of work before only waiting. */
  lemma {:induction false} WorkIsBounded(lane: LaneState, worlds: seq<World>, policy: Policy)
    requires Inv(lane, policy) && AllStill(lane, worlds, policy)
    ensures Work(lane, worlds, policy) <= Measure(lane, policy)
    decreases |worlds|
  {
    if worlds != [] {
      StepDecreasesMeasure(lane, worlds[0], policy);
      WorkIsBounded(Stepped(lane, worlds[0], policy), worlds[1..], policy);
    }
  }

  /** With the shipped policy (2 retries, 3 rounds) a fresh lane is done after at most 119 working steps. */
  lemma ShippedPolicyBound(worlds: seq<World>, baseSha: Sha)
    requires AllStill(Admitted(baseSha), worlds, Policy(2, 120, 3))
    ensures Work(Admitted(baseSha), worlds, Policy(2, 120, 3)) <= 119
  {
    WorkIsBounded(Admitted(baseSha), worlds, Policy(2, 120, 3));
  }
}
