/** `admitAndDispatch` of cadp/kernel/pep.ts: the check before the lock and the admission transaction. */
module Admitting {
  import opened Wrappers
  import opened Records

  datatype AdmitRefusal =
    | EffectNotFound | WorkStartDispatchRequesterMismatch | OperationUnknown
    | DecisionNotFound | InputNotFound | DecisionInputMismatch | DecisionNotAllow
    | EvidenceNotFound | HumanDecisionScopeMismatch | HumanDecisionReused | ScopeHold
    | ConstraintViolated | UnsupportedConstraint | MalformedWorkBounds | MaxEffectsExceeded
    | EffectAlreadyCommitted | PriorDispatchUnresolved | AssemblyIncomplete
    | RunMembershipUnproven | OtherRecheck

  /** What a call carries from its checks before the lock into the admission transaction. */
  datatype Attempt = Attempt(effect: Id, decision: Id, stamped: Option<Ref>, config: Config)

  datatype Ruling = Admit(row: Admission) | Refuse(reason: AdmitRefusal) | Abort

  /** The stamped caller of a minting dispatch; nobody else passes, everyone passes when nothing mints. */
  function PreLock(db: Db, e: Id, principal: Option<string>): Result<Option<Ref>, AdmitRefusal> {
    if e !in db.requests then Refused(EffectNotFound)
    else if !Minting(db, db.requests[e]) then Done(None)
    else
      var stamped := if principal.Some? && principal.value in db.config.identities
                     then Some(db.config.identities[principal.value]) else None;
      if stamped != Some(db.requests[e].requester) then Refused(WorkStartDispatchRequesterMismatch) else Done(stamped)
  }

  // ---------------------------------------------------------------- #5

  predicate IsDecisionEvidence(env: Envelope) {
    env.kind.HumanDecision? || env.kind.AgentDecision?
  }

  function RunOf(r: Request): Option<Id> {
    if RunColumn(r).Some? then RunColumn(r) else if r.kind.WorkStart? then Some(r.effect) else None
  }

  predicate ScopeBinds(env: Envelope, r: Request) {
    if env.scopeEffect.Some? then env.scopeEffect.value == r.effect
    else env.scopeRun.Some? && env.scopeRun == RunOf(r)
  }

  predicate Carries(db: Db, a: Admission, key: Id) {
    a.input in db.inputs && key in db.inputs[a.input].evidence
  }

  predicate UsedElsewhere(db: Db, e: Id, key: Id) {
    exists k :: 0 <= k < |db.admissions| && db.admissions[k].effect != e && Carries(db, db.admissions[k], key)
  }

  function HumanLeg(db: Db, r: Request, key: Id): Option<AdmitRefusal>
    requires key in db.envelopes
  {
    var env := db.envelopes[key];
    if !IsDecisionEvidence(env) then None
    else if !ScopeBinds(env, r) then Some(HumanDecisionScopeMismatch)
    else if UsedElsewhere(db, r.effect, key) then Some(HumanDecisionReused)
    else None
  }

  function HumanLegs(db: Db, r: Request, keys: seq<Id>): (o: Option<AdmitRefusal>)
    requires forall k :: k in keys ==> k in db.envelopes
    ensures o.None? <==> forall k :: k in keys ==> HumanLeg(db, r, k).None?
  {
    if keys == [] then None
    else
      var first := HumanLeg(db, r, keys[0]);
      if first.Some? then first else HumanLegs(db, r, keys[1..])
  }

  // ---------------------------------------------------------------- #10

  /** The tighter of the policy's cap and the run's own sealed bound; a cap that is no number caps nothing. */
  function WorkBudget(db: Db, run: Id, cap: Option<int>): Result<Option<int>, AdmitRefusal> {
    if run !in db.requests || db.requests[run].material !in db.blobs then Done(cap)
    else
      match db.blobs[db.requests[run].material].maxEffects
      case Undeclared => Done(cap)
      case NotInteger => Refused(MalformedWorkBounds)
      case Declared(m) =>
        if m < 1 then Refused(MalformedWorkBounds)
        else Done(if cap.Some? && m < cap.value then Some(m) else cap)
  }

  function ConstraintLeg(db: Db, r: Request, c: Constraint): Option<AdmitRefusal> {
    match c
    case MaxDispatchOrdinal(_) => None
    case OperationKindEquals(kind) => if r.kind != kind then Some(ConstraintViolated) else None
    case TargetRefEquals(target) => if r.target != target then Some(ConstraintViolated) else None
    case Unsupported(_) => Some(UnsupportedConstraint)
    case MaxEffectsInWorkRun(cap) =>
      if RunColumn(r).None? then None
      else
        var budget := WorkBudget(db, RunColumn(r).value, cap);
        if budget.Refused? then Some(budget.reason)
        else if budget.value.Some? && |SealedIn(db.requests, RunColumn(r).value)| > budget.value.value
          then Some(MaxEffectsExceeded)
        else None
  }

  /** All constraints in order; the value is the ordinal bound, which the last MAX_DISPATCH_ORDINAL sets. */
  function Constrained(db: Db, r: Request, cs: seq<Constraint>, bound: Option<int>): (o: Result<Option<int>,
      AdmitRefusal>)
    ensures o.Done? ==> forall c :: c in cs ==> ConstraintLeg(db, r, c).None?
  {
    if cs == [] then Done(bound)
    else
      var leg := ConstraintLeg(db, r, cs[0]);
      if leg.Some? then Refused(leg.value)
      else Constrained(db, r, cs[1..], if cs[0].MaxDispatchOrdinal? then cs[0].ordinal else bound)
  }

  // ---------------------------------------------------------------- #12, #18 and #19

  datatype Numbering = Ordinal(n: nat, prior: Option<nat>) | Stop(reason: AdmitRefusal) | Contradiction

  predicate NativeKeyProven(op: OpSpec, prev: Admission, now: int) {
    op.nativeKey && (op.horizon.None? || now - prev.admittedAt < op.horizon.value)
  }

  function NextOrdinal(db: Db, e: Id, op: OpSpec, now: int): Numbering {
    var rows := Of(db.admissions, e);
    if rows == [] then Ordinal(1, None)
    else
      var last := rows[|rows| - 1];
      if Contradictory(db.outcomes, last) then Contradiction
      else if CommittedEffect(db, e) then Stop(EffectAlreadyCommitted)
      else if !HasOutcome(db.outcomes, last, NoEffectConfirmed) && !NativeKeyProven(op, db.admissions[last], now) then
        Stop(PriorDispatchUnresolved)
      else Ordinal(db.admissions[last].ordinal + 1, Some(last))
  }

  /** The bound input carries, of every declared kind and subject, all that is sealed now. */
  predicate AssemblyProven(db: Db, r: Request, keys: seq<Id>, config: Config) {
    CarriesComplete(db.envelopes, keys, DeclaredEntries(config, r.kind), r.bindings)
  }

  predicate MembershipProven(db: Db, r: Request, config: Config) {
    RunProfileEnrolled(config, r.requester) && DeclaredWorkRun(r, config).Some? ==>
      r.effect in db.members && db.members[r.effect] == DeclaredWorkRun(r, config).value
  }

  // ---------------------------------------------------------------- the transaction

  /** #2: the decision allows this very request. */
  function BindingLeg(db: Db, a: Attempt): Option<AdmitRefusal> {
    if a.effect !in db.requests then Some(EffectNotFound)
    else if a.decision !in db.decisions then Some(DecisionNotFound)
    else if db.decisions[a.decision].input !in db.inputs then Some(InputNotFound)
    else if db.inputs[db.decisions[a.decision].input].effect != a.effect then Some(DecisionInputMismatch)
    else if !db.decisions[a.decision].allow then Some(DecisionNotAllow)
    else None
  }

  function EvidenceLeg(db: Db, r: Request, keys: seq<Id>): Option<AdmitRefusal> {
    if exists k :: k in keys && k !in db.envelopes then Some(EvidenceNotFound)
    else if HumanLegs(db, r, keys).Some? then HumanLegs(db, r, keys)
    else if ScopeHeld(db.envelopes, r) then Some(ScopeHold)
    else None
  }

  /**
   * The rechecks in order. `others` is the joint answer of the rechecks that read only clocks,
   * adapters and bytes: they can refuse and nothing else. A contradictory previous dispatch seals its
   * incident inside the open transaction, which throws: nothing is written.
   */
  function Ruled(db: Db, a: Attempt, op: OpSpec, now: int, others: bool): Ruling {
    var binding := BindingLeg(db, a);
    if binding.Some? then Refuse(binding.value)
    else
      var r, decision := db.requests[a.effect], db.decisions[a.decision];
      var evidence := EvidenceLeg(db, r, db.inputs[decision.input].evidence);
      if evidence.Some? then Refuse(evidence.value)
      else
        var bound := Constrained(db, r, decision.constraints, None);
        if bound.Refused? then Refuse(bound.reason)
        else
          match NextOrdinal(db, a.effect, op, now)
          case Contradiction => Abort
          case Stop(reason) => Refuse(reason)
          case Ordinal(n, prior) =>
            if bound.value.Some? && n > bound.value.value then Refuse(ConstraintViolated)
            else if others then Refuse(OtherRecheck)
            else if !AssemblyProven(db, r, db.inputs[decision.input].evidence, a.config) then Refuse(AssemblyIncomplete)
            else if !MembershipProven(db, r, a.config) then Refuse(RunMembershipUnproven)
            else Admit(Admission(a.effect, n, prior, a.decision, decision.input, now))
  }

  /** `mintRunCapability`, evaluated inside the transaction. */
  predicate Mints(db: Db, r: Request, ordinal: nat, stamped: Option<Ref>) {
    ordinal == 1 && Minting(db, r) && stamped == Some(r.requester) && r.effect !in db.capabilities
  }

  function Appended(db: Db, row: Admission, stamped: Option<Ref>, secret: Secret): Db
    requires row.effect in db.requests
  {
    var r := db.requests[row.effect];
    db.(admissions := db.admissions + [row],
        capabilities := if Mints(db, r, row.ordinal, stamped)
          then db.capabilities[r.effect := Capability(r.requester, secret)]
                        else db.capabilities)
  }

  /** The store after the transaction and its epilogue; `incident` is a fresh envelope id. */
  function AfterAdmit(db: Db, a: Attempt, op: OpSpec, now: int, others: bool, secret: Secret, incident: Id): Db {
    match Ruled(db, a, op, now, others)
    case Abort => db
    case Refuse(reason) =>
      if reason == UnsupportedConstraint then db.(envelopes :=
        db.envelopes[incident := IncidentOn(db.requests[a.effect])]) else db
    case Admit(row) => Appended(db, row, a.stamped, secret)
  }

  /** What an admission needed, whatever else the transaction looked at. */
  lemma AdmissionNeeds(db: Db, a: Attempt, op: OpSpec, now: int, others: bool)
    requires Ruled(db, a, op, now, others).Admit?
    ensures var row := Ruled(db, a, op, now, others).row;
      && row.effect == a.effect && a.effect in db.requests && a.decision in db.decisions
      && row.decision == a.decision && row.input == db.decisions[a.decision].input
      && BindingLeg(db, a).None?
      && EvidenceLeg(db, db.requests[a.effect], db.inputs[row.input].evidence).None?
      && (forall c :: c in db.decisions[a.decision].constraints ==> ConstraintLeg(db, db.requests[a.effect], c).None?)
      && NextOrdinal(db, a.effect, op, now) == Ordinal(row.ordinal, row.prior)
      && AssemblyProven(db, db.requests[a.effect], db.inputs[row.input].evidence, a.config)
      && MembershipProven(db, db.requests[a.effect], a.config)
  {
    hide AssemblyProven, MembershipProven, NextOrdinal, ConstraintLeg, HumanLegs;
  }
}
