/**
 * The effect kernel as a state machine: any interleaving of seals, admissions, dispatches, late target
 * actions, reconciler passes, policy activations and crashes. Between two awaits of the source there is
 * one event; a call in flight keeps what its method keeps in local variables.
 */
module KernelRuns {
  import opened Wrappers
  import opened Records
  import opened Sealing
  import opened Admitting

  type Ops = map<Kind, OpSpec>

  /** One `admitAndDispatch` in flight. */
  datatype Call =
    | Begun(effect: Id, decision: Id, stamped: Option<Ref>)
    | Locked(attempt: Attempt)
    | Admitted(row: nat)
    | Dispatched(row: nat)

  /** The log of dispatches handed to targets, which of them acted, and which admissions never will. */
  datatype Target = Target(dispatches: seq<nat>, acted: set<nat>, voided: set<nat>)

  datatype System = System(db: Db, calls: map<nat, Call>, target: Target)

  datatype Answer = Accepted(binds: bool) | RejectedNoEffect | Ambiguous

  datatype Probe = ProbeCommitted(binds: bool) | ProbeNoEffect | ProbeUnknown

  datatype Event =
    | PutBlob(ref: string, material: Material)
    | Allocate(id: Id, allocation: Allocation)
    | Submit(key: Id, envelope: Envelope)
    | Assemble(key: Id, input: Input)
    | Evaluate(key: Id, decision: Decision)
    | Activate(config: Config)
    | Seal(seal: SealCall, incident: Id)
    | Begin(c: nat, effect: Id, decisionRef: Id, principal: Option<string>)
    | Lock(c: nat)
    | Commit(c: nat, now: int, others: bool, secret: Secret, incident: Id)
    | Expire(c: nat)
    | Dispatch(c: nat)
    | Act(dispatch: nat)
    | Report(c: nat, answer: Answer)
    | Reconcile(row: nat, probe: Probe)
    | Crash

  // ---------------------------------------------------------------- grading

  /** `dispatchAndObserve`: what a dispatch answer is written as. */
  function GradeAnswer(answer: Answer, op: OpSpec): Verdict {
    match answer
    case Accepted(binds) => if binds then Committed else Unknown
    case RejectedNoEffect => if op.noEffectProof || op.nativeCas then NoEffectConfirmed else Unknown
    case Ambiguous => Unknown
  }

  function GradeProbe(probe: Probe): Verdict {
    match probe
    case ProbeCommitted(binds) => if binds then Committed else Unknown
    case ProbeNoEffect => NoEffectConfirmed
    case ProbeUnknown => Unknown
  }

  predicate ActedOn(sys: System, row: nat) {
    exists d :: 0 <= d < |sys.target.dispatches| && d in sys.target.acted && sys.target.dispatches[d] == row
  }

  predicate EffectActed(sys: System, e: Id) {
    exists d :: 0 <= d < |sys.target.dispatches| && d in sys.target.acted
      && sys.target.dispatches[d] < |sys.db.admissions| && sys.db.admissions[sys.target.dispatches[d]].effect == e
  }

  /** The adapters' contract: a bound receipt means the effect landed, a no-effect proof that this dispatch did not. */
  predicate Truthful(sys: System, row: nat, v: Verdict)
    requires row < |sys.db.admissions|
  {
    && (v == Committed ==> EffectActed(sys, sys.db.admissions[row].effect))
    && (v == NoEffectConfirmed ==> !ActedOn(sys, row))
  }

  predicate IsNative(db: Db, ops: Ops, e: Id) {
    e in db.requests && db.requests[e].kind in ops && ops[db.requests[e].kind].nativeKey
  }

  // ---------------------------------------------------------------- steps

  predicate KnownOp(sys: System, ops: Ops, e: Id) {
    e in sys.db.requests && sys.db.requests[e].kind in ops
  }

  predicate Enabled(sys: System, ev: Event, ops: Ops) {
    match ev
    case PutBlob(ref, _) => ref !in sys.db.blobs
    case Allocate(id, _) => id !in sys.db.allocations
    case Submit(key, _) => key !in sys.db.envelopes
    case Assemble(key, input) => key !in sys.db.inputs && input.effect in sys.db.requests
    case Evaluate(key, decision) => key !in sys.db.decisions && decision.input in sys.db.inputs
    case Activate(_) => true
    case Seal(_, incident) => incident !in sys.db.envelopes
    case Begin(c, e, _, principal) => c !in sys.calls && PreLock(sys.db, e, principal).Done?
    case Lock(c) => c in sys.calls && sys.calls[c].Begun? && KnownOp(sys, ops, sys.calls[c].effect)
    case Commit(c, _, _, _, incident) =>
      c in sys.calls && sys.calls[c].Locked? && KnownOp(sys, ops, sys.calls[c].attempt.effect)
        && incident !in sys.db.envelopes
    case Expire(c) => c in sys.calls && sys.calls[c].Admitted?
    case Dispatch(c) => c in sys.calls && sys.calls[c].Admitted?
    case Act(d) => d < |sys.target.dispatches| && d !in sys.target.acted
      && sys.target.dispatches[d] !in sys.target.voided
    case Report(c, answer) =>
      && c in sys.calls && sys.calls[c].Dispatched? && sys.calls[c].row < |sys.db.admissions|
      && KnownOp(sys, ops, sys.db.admissions[sys.calls[c].row].effect)
      && Truthful(sys, sys.calls[c].row, GradeAnswer(answer,
        ops[sys.db.requests[sys.db.admissions[sys.calls[c].row].effect].kind]))
    case Reconcile(row, probe) => row < |sys.db.admissions| && Truthful(sys, row, GradeProbe(probe))
    case Crash => true
  }

  /** Events that add rows the invariants do not count, under new keys, or activate a policy. */
  predicate Writes(ev: Event) {
    ev.PutBlob? || ev.Allocate? || ev.Submit? || ev.Assemble? || ev.Evaluate? || ev.Activate?
  }

  /** `writeOutcome`: one more outcome row; a proof of no effect holds from now on. */
  function Observed(sys: System, row: nat, v: Verdict, byReconciler: bool): System {
    sys.(db := sys.db.(outcomes := sys.db.outcomes + [Outcome(row, v, byReconciler)]),
         target := if v == NoEffectConfirmed then sys.target.(voided := sys.target.voided + {row}) else sys.target)
  }

  function Gone(sys: System, c: nat): System {
    sys.(calls := sys.calls - {c})
  }

  function CommitStep(sys: System, c: nat, now: int, others: bool, secret: Secret, incident: Id, ops: Ops): System
    requires Enabled(sys, Commit(c, now, others, secret, incident), ops)
  {
    var a := sys.calls[c].attempt;
    var op := ops[sys.db.requests[a.effect].kind];
    var db := AfterAdmit(sys.db, a, op, now, others, secret, incident);
    if Ruled(sys.db, a, op, now, others).Admit? then
      sys.(db := db, calls := sys.calls[c := Admitted(|sys.db.admissions|)])
    else
      Gone(sys.(db := db), c)
  }

  function Next(sys: System, ev: Event, ops: Ops): System
    requires Enabled(sys, ev, ops)
  {
    var db := sys.db;
    match ev
    case PutBlob(ref, material) => sys.(db := db.(blobs := db.blobs[ref := material]))
    case Allocate(id, row) => sys.(db := db.(allocations := db.allocations[id := row]))
    case Submit(key, envelope) => sys.(db := db.(envelopes := db.envelopes[key := envelope]))
    case Assemble(key, input) => sys.(db := db.(inputs := db.inputs[key := input]))
    case Evaluate(key, decision) => sys.(db := db.(decisions := db.decisions[key := decision]))
    case Activate(config) => sys.(db := db.(config := config))
    case Seal(call, incident) => sys.(db := AfterSeal(db, call, incident))
    case Begin(c, e, decision, principal) => sys.(calls :=
      sys.calls[c := Begun(e, decision, PreLock(db, e, principal).value)])
    case Lock(c) =>
      var b := sys.calls[c];
      sys.(calls := sys.calls[c := Locked(Attempt(b.effect, b.decision, b.stamped, db.config))])
    case Commit(c, now, others, secret, incident) => CommitStep(sys, c, now, others, secret, incident, ops)
    case Expire(c) => Gone(Observed(sys, sys.calls[c].row, Unknown, false), c)
    case Dispatch(c) =>
      var row := sys.calls[c].row;
      sys.(calls := sys.calls[c := Dispatched(row)], target := sys.target.(dispatches := sys.target.dispatches + [row]))
    case Act(d) => sys.(target := sys.target.(acted := sys.target.acted + {d}))
    case Report(c, answer) =>
      var row := sys.calls[c].row;
      Gone(Observed(sys, row, GradeAnswer(answer, ops[db.requests[db.admissions[row].effect].kind]), false), c)
    case Reconcile(row, probe) => Observed(sys, row, GradeProbe(probe), true)
    case Crash => sys.(calls := map[])
  }

  // ---------------------------------------------------------------- invariants of the store

  ghost predicate RowsKeyed(db: Db) {
    && (forall e :: e in db.requests ==> db.requests[e].effect == e)
    && (forall e :: e in db.members ==> e in db.requests)
    && (forall e :: e in db.capabilities ==> e in db.requests)
  }

  /** What a membership row proves. */
  predicate MemberProof(db: Db, e: Id)
    requires e in db.members && e in db.requests
  {
    var w := db.members[e];
    if w == e then db.requests[e].kind.WorkStart?
    else
      && w in db.capabilities && db.capabilities[w].holder == db.requests[e].requester
      && !db.requests[e].kind.WorkStart? && CommittedEffect(db, w)
  }

  ghost predicate Memberships(db: Db)
    requires RowsKeyed(db)
  {
    forall e :: e in db.members ==> MemberProof(db, e)
  }

  ghost predicate Capabilities(db: Db)
    requires RowsKeyed(db)
  {
    && (forall w :: w in db.capabilities <==> w in db.members && db.members[w] == w && Of(db.admissions, w) != [])
    && (forall w :: w in db.capabilities ==> db.capabilities[w].holder == db.requests[w].requester)
  }

  predicate ChainedAt(rows: seq<Admission>, e: Id, k: nat)
    requires k < |Of(rows, e)|
  {
    var row := Of(rows, e)[k];
    rows[row].ordinal == k + 1 && rows[row].prior == (if k == 0 then None else Some(Of(rows, e)[k - 1]))
  }

  ghost predicate Chain(rows: seq<Admission>, e: Id) {
    forall k :: 0 <= k < |Of(rows, e)| ==> ChainedAt(rows, e, k)
  }

  ghost predicate Ordinals(rows: seq<Admission>) {
    forall e :: Chain(rows, e)
  }

  predicate Justified(db: Db, a: Admission) {
    && a.effect in db.requests && a.decision in db.decisions && db.decisions[a.decision].allow
    && db.decisions[a.decision].input == a.input && a.input in db.inputs && db.inputs[a.input].effect == a.effect
    && forall k :: k in db.inputs[a.input].evidence ==> k in db.envelopes
  }

  ghost predicate AdmissionsJustified(db: Db) {
    && (forall i :: 0 <= i < |db.admissions| ==> Justified(db, db.admissions[i]))
    && (forall i :: 0 <= i < |db.outcomes| ==> db.outcomes[i].admission < |db.admissions|)
  }

  /** No Human or agent decision is carried by admissions of two different effects. */
  ghost predicate DecisionsSingleUse(db: Db) {
    forall i, j, key ::
      0 <= i < |db.admissions| && 0 <= j < |db.admissions| && db.admissions[i].effect != db.admissions[j].effect
      && Carries(db, db.admissions[i], key) && Carries(db, db.admissions[j], key) && key in db.envelopes ==>
        !IsDecisionEvidence(db.envelopes[key])
  }

  ghost predicate VoidBeforeLast(rows: seq<Admission>, outcomes: seq<Outcome>, e: Id) {
    forall k :: 0 <= k < |Of(rows, e)| - 1 ==> HasOutcome(outcomes, Of(rows, e)[k], NoEffectConfirmed)
  }

  ghost predicate SupersededVoid(db: Db, ops: Ops) {
    forall e :: IsNative(db, ops, e) || VoidBeforeLast(db.admissions, db.outcomes, e)
  }

  ghost predicate DbInv(db: Db, ops: Ops) {
    && RowsKeyed(db) && Memberships(db) && Capabilities(db) && Ordinals(db.admissions)
    && AdmissionsJustified(db) && DecisionsSingleUse(db) && SupersededVoid(db, ops)
  }

  // ---------------------------------------------------------------- invariants of the run

  ghost predicate Observations(sys: System)
    requires forall i :: 0 <= i < |sys.db.outcomes| ==> sys.db.outcomes[i].admission < |sys.db.admissions|
  {
    forall i :: 0 <= i < |sys.db.outcomes| ==>
      var o := sys.db.outcomes[i];
      && (o.result == NoEffectConfirmed ==> o.admission in sys.target.voided)
      && (o.result == Committed ==> EffectActed(sys, sys.db.admissions[o.admission].effect))
  }

  ghost predicate TargetSound(target: Target, admissions: nat) {
    && (forall d :: 0 <= d < |target.dispatches| ==> target.dispatches[d] < admissions)
    && (forall c, d :: 0 <= c < d < |target.dispatches| ==> target.dispatches[c] != target.dispatches[d])
    && (forall d :: d in target.acted ==> d < |target.dispatches| && target.dispatches[d] !in target.voided)
  }

  predicate CallSound(sys: System, call: Call) {
    match call
    case Begun(e, _, stamped) =>
      e in sys.db.requests && (Minting(sys.db, sys.db.requests[e]) ==> stamped == Some(sys.db.requests[e].requester))
    case Locked(a) =>
      a.effect in sys.db.requests && (Minting(sys.db, sys.db.requests[a.effect]) ==>
        a.stamped == Some(sys.db.requests[a.effect].requester))
    case Admitted(row) => row < |sys.db.admissions| && row !in sys.target.dispatches
    case Dispatched(row) => row < |sys.db.admissions|
  }

  ghost predicate CallsSound(sys: System) {
    && (forall c :: c in sys.calls ==> CallSound(sys, sys.calls[c]))
    && (forall c, d ::
          c in sys.calls && d in sys.calls && c != d && sys.calls[c].Admitted? && sys.calls[d].Admitted? ==>
          sys.calls[c].row != sys.calls[d].row)
  }

  ghost predicate Inv(sys: System, ops: Ops) {
    DbInv(sys.db, ops) && Observations(sys) && TargetSound(sys.target, |sys.db.admissions|) && CallsSound(sys)
  }

  /** Rows are only ever added; witnesses of sealed requests are fixed at their seal. */
  ghost predicate AppendOnly(db: Db, db': Db) {
    && (forall e :: e in db.requests ==> e in db'.requests && db'.requests[e] == db.requests[e])
    && (forall e :: e in db.requests ==> (e in db.members <==> e in db'.members))
    && (forall e :: e in db.members ==> e in db'.members && db'.members[e] == db.members[e])
    && (forall k :: k in db.envelopes ==> k in db'.envelopes && db'.envelopes[k] == db.envelopes[k])
    && (forall k :: k in db.inputs ==> k in db'.inputs && db'.inputs[k] == db.inputs[k])
    && (forall k :: k in db.decisions ==> k in db'.decisions && db'.decisions[k] == db.decisions[k])
    && (forall k :: k in db.allocations ==> k in db'.allocations && db'.allocations[k] == db.allocations[k])
    && (forall k :: k in db.blobs ==> k in db'.blobs && db'.blobs[k] == db.blobs[k])
    && db.admissions <= db'.admissions && db.outcomes <= db'.outcomes
  }

  // ---------------------------------------------------------------- histories

  predicate Genesis(sys: System) {
    var db := sys.db;
    && db.requests == map[] && db.members == map[] && db.capabilities == map[] && db.admissions == []
      && db.outcomes == []
    && sys.calls == map[] && sys.target == Target([], {}, {})
  }

  ghost predicate History(trace: seq<System>, events: seq<Event>, ops: Ops) {
    && |trace| == |events| + 1 && Genesis(trace[0])
    && forall k :: 0 <= k < |events| ==>
      Enabled(trace[k], events[k], ops) && trace[k + 1] == Next(trace[k], events[k], ops)
  }
}
