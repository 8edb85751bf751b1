/** The supervisor's decision table, devharness/transitions.ts: a pure function of lane, event and policy. */
module Transitions {
  import opened Wrappers

  type Sha = string

  datatype LaneStatus =
    | Pending | BlockedOnDesign | WorktreeSetup | ActorRunning | ActorInterrupted | Validating | Freezing
    | ReviewRunning | ReviewInterrupted | RepairPending | HumanMergeWait | HumanDirectionWait
    | HoldCapacity | HoldUnknown | Merged

  datatype OutcomeKind =
    | Complete | FailedWork | ResourceExhausted | RateLimited | AuthRequired | ProviderUnavailable
    | ProcessCrashed | Unknown

  datatype InvocationOutcome = InvocationOutcome(kind: OutcomeKind, retryAfter: Option<int>)
  datatype ActorSignal = WorkComplete | StopDesignRequired
  datatype Verdict = Go | RequestChanges
  datatype Role = Actor | Reviewer

  datatype Candidate = Candidate(baseSha: Sha, headSha: Sha)
  datatype Review = Review(baseSha: Sha, headSha: Sha, verdict: Verdict, invalidated: bool)
  datatype Policy = Policy(maxProviderRetries: nat, retryAfterCap: nat, maxRepairRounds: nat)

  /** The value of one lane record; receipts, notes and timestamps are not part of it. */
  datatype LaneState = LaneState(
    status: LaneStatus, worktree: string, baseSha: Sha, head: Sha, pr: Option<nat>,
    candidate: Option<Candidate>, reviews: seq<Review>, reviewedHead: Option<Sha>,
    provenance: Option<Role>, direction: Option<string>, attempt: nat, retryCount: nat)

  datatype Event =
    | Admit(dependencyMerged: Option<bool>)
    | DesignDepMerged | DesignDepStillUnmerged
    | WorktreeReady | WorktreeConflict
    | ActorResult(outcome: InvocationOutcome, signal: Option<ActorSignal>, summary: Option<string>)
    | ValidationResult(pass: bool)
    | CandidateFrozen | CandidateEmpty | CandidateBaseUnproven
    | ReviewResult(reviewOutcome: InvocationOutcome, verdict: Option<Verdict>, headAtEnd: Sha)
    | CandidateMutated | RemoteHeadDrift | BaseDrift | BaseRefreshFailed
    | ObservedMerged | ObservedPrStillOpen | RestartObserved | HumanResume | HumanHold

  datatype Action =
    | CreateWorktree | InvokeActor | RunValidation | FreezeCandidate | InvokeReviewer | InvalidateReviews
    | PostReceipt | PostHoldReceipt | RetryAfterDelay | StopLaneProcessing

  datatype RetryCount = KeepRetries | CountRetry | ResetRetries
  datatype DirectionChange = KeepDirection | SetDirection(summary: string) | ClearDirection

  datatype Decision = Decision(
    status: LaneStatus, actions: set<Action>, retries: RetryCount, countsRepair: bool,
    provenance: Option<Role>, direction: DirectionChange, delay: Option<int>)

  function To(status: LaneStatus, actions: set<Action>): Decision {
    Decision(status, actions, KeepRetries, false, None, KeepDirection, None)
  }

  function Hold(status: LaneStatus, provenance: Option<Role>): Decision {
    To(status, {PostHoldReceipt, StopLaneProcessing}).(provenance := provenance)
  }

  function RouteIdentityDrift(lane: LaneState, event: Event, policy: Policy): Decision {
    if event.RemoteHeadDrift? then
      To(HoldUnknown, {InvalidateReviews, PostHoldReceipt, StopLaneProcessing})
    else if lane.attempt < policy.maxRepairRounds then
      To(RepairPending, {InvalidateReviews, PostReceipt})
    else
      To(HoldUnknown, {InvalidateReviews, PostHoldReceipt, StopLaneProcessing})
  }

  function BoundedRetry(lane: LaneState, delay: int, policy: Policy, exhausted: Decision): Decision {
    if lane.retryCount < policy.maxProviderRetries then
      To(lane.status, {RetryAfterDelay}).(retries := CountRetry, delay := Some(delay))
    else
      exhausted
  }

  function RouteProviderFailure(role: Role, lane: LaneState, outcome: InvocationOutcome, policy: Policy): Decision
    requires outcome.kind != Complete
  {
    match outcome.kind
    case ResourceExhausted => Hold(HoldCapacity, Some(role))
    case AuthRequired => Hold(HoldCapacity, Some(role))
    case RateLimited =>
      if outcome.retryAfter.None? || outcome.retryAfter.value > policy.retryAfterCap then Hold(HoldCapacity, Some(role))
      else BoundedRetry(lane, outcome.retryAfter.value, policy, Hold(HoldCapacity, Some(role)))
    case ProviderUnavailable => BoundedRetry(lane, 10, policy, Hold(HoldCapacity, Some(role)))
    case ProcessCrashed => BoundedRetry(lane, 5, policy, Hold(HoldUnknown, Some(role)))
    case FailedWork =>
      if role == Actor && lane.attempt < policy.maxRepairRounds then To(RepairPending, {PostReceipt})
      else Hold(HoldUnknown, Some(role))
    case Unknown => Hold(HoldUnknown, Some(role))
  }

  /** A failed check of the worker's output: one more bounded round, or a hold on the actor side. */
  function RepairOrHold(lane: LaneState, policy: Policy, provenance: Option<Role>): Decision {
    if lane.attempt < policy.maxRepairRounds then To(RepairPending, {PostReceipt})
    else Hold(HoldUnknown, provenance)
  }

  const Revalidate := To(Validating, {InvalidateReviews, PostReceipt, RunValidation})

  function DecideResume(lane: LaneState): Decision {
    if lane.status in {HoldCapacity, HoldUnknown, HumanDirectionWait} then
      (if lane.worktree == "" then To(Pending, {})
       else if lane.provenance == Some(Reviewer) then To(Validating, {})
       else To(ActorInterrupted, {InvokeActor})).(retries := ResetRetries)
    else
      To(lane.status, {})
  }

  function DecideActor(lane: LaneState, event: Event, policy: Policy): Decision
    requires event.ActorResult?
  {
    if event.outcome.kind != Complete then RouteProviderFailure(Actor, lane, event.outcome, policy)
    else match event.signal
      case Some(WorkComplete) => To(Validating, {RunValidation}).(retries := ResetRetries, direction := ClearDirection)
      case Some(StopDesignRequired) =>
        To(HumanDirectionWait, {PostReceipt, StopLaneProcessing}).(
          retries := ResetRetries,
          direction := SetDirection(if event.summary.Some? then event.summary.value
                                    else "(worker provided no structured summary)"))
      case None => Hold(HoldUnknown, Some(Actor))
  }

  function DecideReview(lane: LaneState, event: Event, policy: Policy): Decision
    requires event.ReviewResult?
  {
    if event.reviewOutcome.kind != Complete then RouteProviderFailure(Reviewer, lane, event.reviewOutcome, policy)
    else if lane.candidate.None? || event.headAtEnd != lane.candidate.value.headSha then Revalidate
    else match event.verdict
      case Some(Go) => To(HumanMergeWait, {PostReceipt, StopLaneProcessing}).(retries := ResetRetries)
      case Some(RequestChanges) =>
        if lane.attempt < policy.maxRepairRounds then To(RepairPending, {PostReceipt}).(retries := ResetRetries)
        else Hold(HoldUnknown, None)
      case None => Hold(HoldUnknown, Some(Reviewer))
  }

  /** An unmodeled pair of status and event: refuse to guess. */
  const Unmodeled := Hold(HoldUnknown, None)

  function DecideBeforeWork(lane: LaneState, event: Event): Decision {
    match (lane.status, event)
    case (Pending, Admit(merged)) =>
      if merged == Some(false) then To(BlockedOnDesign, {PostReceipt, StopLaneProcessing})
      else To(WorktreeSetup, {CreateWorktree})
    case (BlockedOnDesign, DesignDepMerged) => To(WorktreeSetup, {CreateWorktree})
    case (BlockedOnDesign, DesignDepStillUnmerged) => To(BlockedOnDesign, {StopLaneProcessing})
    case (BlockedOnDesign, BaseRefreshFailed) => Hold(HoldUnknown, None)
    case (WorktreeSetup, WorktreeReady) => To(ActorRunning, {InvokeActor})
    case (WorktreeSetup, WorktreeConflict) => Hold(HoldUnknown, None)
    case _ => Unmodeled
  }

  function DecideInActor(lane: LaneState, event: Event, policy: Policy): Decision {
    if event.RestartObserved? then To(ActorInterrupted, {InvokeActor})
    else if event.ActorResult? then DecideActor(lane, event, policy)
    else Unmodeled
  }

  function DecideInReview(lane: LaneState, event: Event, policy: Policy): Decision {
    match event
    case RestartObserved => To(ReviewInterrupted, {InvokeReviewer})
    case CandidateMutated => Revalidate
    case RemoteHeadDrift => RouteIdentityDrift(lane, event, policy)
    case BaseDrift => RouteIdentityDrift(lane, event, policy)
    case ReviewResult(_, _, _) => DecideReview(lane, event, policy)
    case _ => Unmodeled
  }

  function DecideChecks(lane: LaneState, event: Event, policy: Policy): Decision {
    match (lane.status, event)
    case (Validating, ValidationResult(pass)) =>
      if pass then To(Freezing, {FreezeCandidate}) else RepairOrHold(lane, policy, Some(Actor))
    case (Freezing, CandidateFrozen) => To(ReviewRunning, {PostReceipt, InvokeReviewer})
    case (Freezing, CandidateEmpty) => RepairOrHold(lane, policy, Some(Actor))
    case (Freezing, CandidateBaseUnproven) => RepairOrHold(lane, policy, Some(Actor))
    case (RepairPending, WorktreeReady) =>
      To(ActorRunning, {InvokeActor}).(retries := ResetRetries, countsRepair := true)
    case _ => Unmodeled
  }

  function DecideAtMerge(lane: LaneState, event: Event, policy: Policy): Decision {
    match event
    case ObservedMerged => To(Merged, {PostReceipt})
    case ObservedPrStillOpen => To(HumanMergeWait, {StopLaneProcessing})
    case CandidateMutated => Revalidate
    case RemoteHeadDrift => RouteIdentityDrift(lane, event, policy)
    case BaseDrift => RouteIdentityDrift(lane, event, policy)
    case _ => Unmodeled
  }

  function Decide(lane: LaneState, event: Event, policy: Policy): Decision {
    if event.HumanHold? then Hold(HoldCapacity, None)
    else if event.HumanResume? then DecideResume(lane)
    else match lane.status
      case Pending => DecideBeforeWork(lane, event)
      case BlockedOnDesign => DecideBeforeWork(lane, event)
      case WorktreeSetup => DecideBeforeWork(lane, event)
      case ActorRunning => DecideInActor(lane, event, policy)
      case ActorInterrupted => DecideInActor(lane, event, policy)
      case Validating => DecideChecks(lane, event, policy)
      case Freezing => DecideChecks(lane, event, policy)
      case RepairPending => DecideChecks(lane, event, policy)
      case ReviewRunning => DecideInReview(lane, event, policy)
      case ReviewInterrupted => DecideInReview(lane, event, policy)
      case HumanMergeWait => DecideAtMerge(lane, event, policy)
      case HumanDirectionWait => To(lane.status, {StopLaneProcessing})
      case HoldCapacity => To(lane.status, {StopLaneProcessing})
      case HoldUnknown => To(lane.status, {StopLaneProcessing})
      case Merged => To(Merged, {StopLaneProcessing})
  }

  // ---------------------------------------------------------------- what the table alone promises

  /** Nothing but a typed GO on the unmoved frozen head opens the merge boundary. */
  lemma OnlyExactGoOpensMergeWait(lane: LaneState, event: Event, policy: Policy)
    ensures (Decide(lane, event, policy).status == HumanMergeWait && lane.status != HumanMergeWait) <==>
      (&& (lane.status.ReviewRunning? || lane.status.ReviewInterrupted?)
       && event.ReviewResult? && event.reviewOutcome.kind == Complete && event.verdict == Some(Go)
       && lane.candidate.Some? && event.headAtEnd == lane.candidate.value.headSha)
  {
    hide RouteProviderFailure;
    if event.ReviewResult? && event.reviewOutcome.kind != Complete {
      FailuresNeverOpen(Reviewer, lane, event.reviewOutcome, policy);
    }
    if event.ActorResult? && event.outcome.kind != Complete {
      FailuresNeverOpen(Actor, lane, event.outcome, policy);
    }
  }

  lemma FailuresNeverOpen(role: Role, lane: LaneState, outcome: InvocationOutcome, policy: Policy)
    requires outcome.kind != Complete
    ensures var next := RouteProviderFailure(role, lane, outcome, policy).status;
      next == lane.status || next.HoldCapacity? || next.HoldUnknown? || next.RepairPending?
  {}

  /** Every exit from the merge boundary but the human's own voids the GO it leaves behind. */
  lemma LeavingMergeWaitVoidsReviews(lane: LaneState, event: Event, policy: Policy)
    requires lane.status == HumanMergeWait && event in {CandidateMutated, RemoteHeadDrift, BaseDrift}
    ensures Decide(lane, event, policy).status in {Validating, RepairPending, HoldUnknown}
    ensures InvalidateReviews in Decide(lane, event, policy).actions
  {}

  /** A retry waits exactly the provider's own condition, or the fixed delays, and never beyond the cap. */
  lemma RetriesAreExactAndBounded(role: Role, lane: LaneState, outcome: InvocationOutcome, policy: Policy)
    requires outcome.kind != Complete
    ensures var d := RouteProviderFailure(role, lane, outcome, policy);
      d.retries == CountRetry <==>
        (&& lane.retryCount < policy.maxProviderRetries
         && (outcome.kind in {ProviderUnavailable, ProcessCrashed}
             || (outcome.kind == RateLimited && outcome.retryAfter.Some?
               && outcome.retryAfter.value <= policy.retryAfterCap)))
    ensures var d := RouteProviderFailure(role, lane, outcome, policy);
      d.retries == CountRetry && outcome.kind == RateLimited ==> d.delay == outcome.retryAfter
  {}
}
