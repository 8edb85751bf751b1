/** `sealEffectRequest` of cadp/kernel/ingress.ts: every leg in order, and what a seal may write. */
module Sealing {
  import opened Wrappers
  import opened Records

  datatype Presented = NoHeader | Undecodable | Decoded(secret: Secret)

  datatype SealRefusal =
    | ForbiddenForPrincipal | RequesterRefMismatch | MaterialMissing | IdempotencyKeyInvalid | DigestSchemeUnapproved
    | AllocationNotFound | AllocationPrincipalMismatch
    | KernelNamespaceAmbiguous | AllocationTupleRequired | AllocationBindingMismatch | AllocationContractChanged
    | AllocationBindingAmbiguous | AllocationPurposeMismatch
    | RunBindingRequired | NotRunEnrolled
    | RunCapabilityRequired | RunCapabilityInvalid | RunCapabilityHolderMismatch | RunScopeUnresolved | RunScopeRefused
    | RequestDigestConflict

  /** The body's draft (its `requester` is the declared one), the re-presented tuple and the header. */
  datatype SealCall = SealCall(draft: Request, tuple: Option<Tuple>, principal: string, header: Presented)

  // ---------------------------------------------------------------- first-seal binding

  predicate NamespacesUnambiguous(r: Request, namespaces: seq<Declaration>) {
    forall d :: d in namespaces ==> |InNamespace(r.bindings, d.ns)| <= 1
  }

  /** One projection leg: exactly one binding on the pair, carrying the tuple field's text. */
  function ProjectionLeg(r: Request, p: Projection, tuple: Tuple): Option<SealRefusal> {
    var bound := BoundTo(r.bindings, p.authority, p.ns);
    if |bound| > 1 then Some(AllocationBindingAmbiguous)
    else if |bound| == 0 || p.field !in tuple || tuple[p.field] != Text(bound[0].objectId)
      then Some(AllocationBindingMismatch)
    else None
  }

  function ProjectionLegs(r: Request, ps: seq<Projection>, tuple: Tuple): Option<SealRefusal> {
    if ps == [] then None
    else
      var first := ProjectionLeg(r, ps[0], tuple);
      if first.Some? then first else ProjectionLegs(r, ps[1..], tuple)
  }

  function PairedKind(purposes: seq<Pairing>, purpose: string): Option<Kind> {
    if purposes == [] then None
    else if purposes[0].purpose == purpose then Some(purposes[0].kind)
    else PairedKind(purposes[1..], purpose)
  }

  function FirstSealBinding(r: Request, row: Allocation, tuple: Option<Tuple>, config: Config): Option<SealRefusal> {
    if !NamespacesUnambiguous(r, config.namespaces) then Some(KernelNamespaceAmbiguous)
    else if tuple.None? then Some(AllocationTupleRequired)
    else if tuple.value != row.tuple then Some(AllocationBindingMismatch)
    else if row.schema !in config.contracts || config.contracts[row.schema] != row.contract
      then Some(AllocationContractChanged)
    else
      var legs := ProjectionLegs(r, row.contract.projection, tuple.value);
      if legs.Some? then legs
      else if PairedKind(row.contract.purposes, row.purpose) != Some(r.kind) then Some(AllocationPurposeMismatch)
      else None
  }

  // ---------------------------------------------------------------- run profile

  function RunEnrollment(r: Request, config: Config): Option<SealRefusal> {
    if !RunProfileEngaged(config) then None
    else if RunProfileEnrolled(config, r.requester) && DeclaredWorkRun(r, config).None? then Some(RunBindingRequired)
    else if !RunProfileEnrolled(config, r.requester) && DeclaredWorkRun(r, config).Some? then Some(NotRunEnrolled)
    else None
  }

  function RunOrigin(r: Request, config: Config): Result<bool, SealRefusal> {
    if !r.kind.WorkStart? || !RunProfileEnrolled(config, r.requester) then Done(false)
    else if DeclaredWorkRun(r, config) == Some(r.effect) then Done(true)
    else Refused(RunCapabilityInvalid)
  }

  /** `gradeRunScope`: the latest admitted WORK_START dispatch decides, contradictions are unresolved. */
  function RunScope(db: Db, run: Id): Option<SealRefusal> {
    var rows := Of(db.admissions, run);
    if rows == [] then Some(RunScopeUnresolved)
    else
      var latest := rows[|rows| - 1];
      var committed := HasOutcome(db.outcomes, latest, Committed);
      var noEffect := HasOutcome(db.outcomes, latest, NoEffectConfirmed);
      if committed == noEffect then Some(RunScopeUnresolved)
      else if noEffect then Some(RunScopeRefused)
      else None
  }

  /** The run whose membership this seal proves; `None` when the rule does not apply. */
  function RunMembership(db: Db, r: Request, header: Presented): Result<Option<Id>, SealRefusal> {
    if !RunProfileEnrolled(db.config, r.requester) then Done(None)
    else
      var run := DeclaredWorkRun(r, db.config);
      if run.None? then Done(None)
      else if header.NoHeader? then Refused(RunCapabilityRequired)
      else if header.Undecodable? then Refused(RunCapabilityInvalid)
      else if run.value !in db.capabilities || db.capabilities[run.value].secret != header.secret then
        Refused(RunCapabilityInvalid)
      else if db.capabilities[run.value].holder != r.requester then Refused(RunCapabilityHolderMismatch)
      else
        var scope := RunScope(db, run.value);
        if scope.Some? then Refused(scope.value) else Done(run)
  }

  // ---------------------------------------------------------------- the whole seal

  function Stamped(call: SealCall, config: Config): Option<SealRefusal> {
    if call.principal !in config.identities then Some(ForbiddenForPrincipal)
    else if call.draft.requester != config.identities[call.principal] then Some(RequesterRefMismatch)
    else None
  }

  function MaterialLeg(db: Db, r: Request): Option<SealRefusal> {
    if r.material !in db.blobs then Some(MaterialMissing)
    else if db.blobs[r.material].idempotencyKey.Some?
      && db.blobs[r.material].idempotencyKey != Some("cadp-v04:" + r.effect)
    then Some(IdempotencyKeyInvalid)
    else None
  }

  /** `assertSchemesApproved` on the material digest and the request digest, which are both of one scheme. */
  function SchemeLeg(config: Config): Option<SealRefusal> {
    if JCS in config.schemes then None else Some(DigestSchemeUnapproved)
  }

  function AllocationLeg(db: Db, r: Request): Option<SealRefusal> {
    if !db.config.v2 then None
    else if r.effect !in db.allocations then Some(AllocationNotFound)
    else if db.allocations[r.effect].requester != r.requester then Some(AllocationPrincipalMismatch)
    else None
  }

  /** The legs of a first seal; the value is the run it proves membership of, if any. */
  function FirstSeal(db: Db, r: Request, tuple: Option<Tuple>, header: Presented): Result<Option<Id>, SealRefusal>
    requires db.config.v2 ==> r.effect in db.allocations
  {
    var binding := if db.config.v2 then FirstSealBinding(r, db.allocations[r.effect], tuple, db.config) else None;
    if binding.Some? then Refused(binding.value)
    else
      var enrollment := RunEnrollment(r, db.config);
      if enrollment.Some? then Refused(enrollment.value)
      else
        var origin := RunOrigin(r, db.config);
        if origin.Refused? then Refused(origin.reason)
        else if origin.value then Done(Some(r.effect))
        else RunMembership(db, r, header)
  }

  function Inserted(db: Db, r: Request, proven: Option<Id>): Db {
    db.(requests := db.requests[r.effect := r],
        members := if proven.Some? then db.members[r.effect := proven.value] else db.members)
  }

  /** What the seal answers, before its writes. `Done(None)` is an idempotent re-seal. */
  datatype Adjudication = Rejected(reason: SealRefusal) | Existing | Conflict | First(proven: Option<Id>)

  function Adjudicated(db: Db, call: SealCall): Adjudication {
    var r := call.draft;
    var stamp := Stamped(call, db.config);
    var material := MaterialLeg(db, r);
    var allocation := AllocationLeg(db, r);
    if stamp.Some? then Rejected(stamp.value)
    else if material.Some? then Rejected(material.value)
    else if SchemeLeg(db.config).Some? then Rejected(SchemeLeg(db.config).value)
    else if allocation.Some? then Rejected(allocation.value)
    else if r.effect in db.requests then
      if db.config.v2 && call.tuple.Some? && call.tuple.value != db.allocations[r.effect].tuple
        then Rejected(AllocationBindingMismatch)
      else if db.requests[r.effect] == r then Existing
      else Conflict
    else
      var first := FirstSeal(db, r, call.tuple, call.header);
      if first.Refused? then Rejected(first.reason) else First(first.value)
  }

  /** The store after the seal; a conflict leaves one incident, under the fresh id, and nothing else. */
  function AfterSeal(db: Db, call: SealCall, incident: Id): Db {
    match Adjudicated(db, call)
    case Rejected(_) => db
    case Existing => db
    case Conflict => db.(envelopes := db.envelopes[incident := IncidentOn(call.draft)])
    case First(proven) => Inserted(db, call.draft, proven)
  }

  function SealAnswer(db: Db, call: SealCall): Result<Request, SealRefusal> {
    match Adjudicated(db, call)
    case Rejected(reason) => Refused(reason)
    case Existing => Done(db.requests[call.draft.effect])
    case Conflict => Refused(RequestDigestConflict)
    case First(_) => Done(call.draft)
  }
}
