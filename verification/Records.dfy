/**
 * The rows of cadp/kernel/store.ts and the lookups the effect kernel reads them by. A digest is
 * represented by the value it digests, an admission digest by the row number of its admission.
 */
module Records {
  import opened Wrappers

  type Id = string
  type Ref = string
  type Secret = nat

  datatype Namespace = WorkRun | Named(name: string)

  datatype Subject = Subject(authority: string, ns: Namespace, objectId: string)

  datatype Kind = WorkStart | Operation(name: string)

  datatype Request = Request(effect: Id, requester: Ref, bindings: seq<Subject>, target: Subject, kind: Kind,
                             schema: string, material: string, priors: seq<Id>)

  /** `bounds.max_effects` of a sealed material: absent, not an integer, or an integer. */
  datatype MaxEffects = Undeclared | NotInteger | Declared(limit: int)

  datatype Material = Material(idempotencyKey: Option<string>, maxEffects: MaxEffects)

  datatype Field = Text(text: string) | NotText

  type Tuple = map<string, Field>

  datatype Projection = Projection(authority: string, ns: Namespace, field: string)

  datatype Pairing = Pairing(purpose: string, kind: Kind)

  /** A schema's descriptor and mapping; `rest` stands for the members no seal leg reads. */
  datatype Contract = Contract(projection: seq<Projection>, purposes: seq<Pairing>, rest: string)

  datatype Allocation = Allocation(requester: Ref, schema: string, tuple: Tuple, contract: Contract, purpose: string)

  datatype Declaration = Declaration(authority: string, ns: Namespace)

  /** An entry of `subject_complete_assembly`. */
  datatype AssemblyEntry = AssemblyEntry(kind: EnvelopeKind, ns: Namespace, operations: set<Kind>)

  datatype Scheme = Scheme(algorithm: string, canonicalization: string)

  /** The scheme of every digest the kernel computes over a record or a material. */
  const JCS := Scheme("sha256", "cadp-jcs-1")

  datatype Config = Config(v2: bool, schemes: set<Scheme>, identities: map<string, Ref>, enrolled: set<Ref>,
                           namespaces: seq<Declaration>, contracts: map<string, Contract>,
                           assembly: seq<AssemblyEntry>, maxAttempts: nat)

  datatype Capability = Capability(holder: Ref, secret: Secret)

  datatype EnvelopeKind = HumanDecision | AgentDecision | KernelIncident | BreakGlass | OtherEvidence(name: string)

  datatype Envelope = Envelope(kind: EnvelopeKind, subjects: set<Subject>, scopeEffect: Option<Id>,
    scopeRun: Option<Id>,
                               releases: set<Id>)

  datatype Input = Input(effect: Id, evidence: seq<Id>)

  /** Numeric arguments are `None` when the policy's argument is not a number. */
  datatype Constraint =
    | MaxDispatchOrdinal(ordinal: Option<int>)
    | MaxEffectsInWorkRun(cap: Option<int>)
    | OperationKindEquals(kind: Kind)
    | TargetRefEquals(target: Subject)
    | Unsupported(name: string)

  datatype Decision = Decision(input: Id, allow: bool, constraints: seq<Constraint>)

  datatype Admission = Admission(effect: Id, ordinal: nat, prior: Option<nat>, decision: Id, input: Id, admittedAt: int)

  datatype Verdict = Committed | NoEffectConfirmed | Unknown

  datatype Outcome = Outcome(admission: nat, result: Verdict, byReconciler: bool)

  datatype Db = Db(
    config: Config, blobs: map<string, Material>, allocations: map<Id, Allocation>,
    requests: map<Id, Request>, members: map<Id, Id>, capabilities: map<Id, Capability>,
    envelopes: map<Id, Envelope>, inputs: map<Id, Input>, decisions: map<Id, Decision>,
    admissions: seq<Admission>, outcomes: seq<Outcome>)

  /** How a target's operation is dispatched (`horizon` in milliseconds); fixed for the life of the deployment. */
  datatype OpSpec = OpSpec(nativeKey: bool, horizon: Option<int>, noEffectProof: bool, nativeCas: bool)

  // ---------------------------------------------------------------- subjects and runs

  /** `filter` on the exact pair. */
  function BoundTo(bindings: seq<Subject>, authority: string, ns: Namespace): (r: seq<Subject>)
    ensures forall b :: b in r <==> b in bindings && b.authority == authority && b.ns == ns
  {
    if bindings == [] then []
    else
      (if bindings[0].authority == authority && bindings[0].ns == ns then [bindings[0]] else [])
      + BoundTo(bindings[1..], authority, ns)
  }

  function InNamespace(bindings: seq<Subject>, ns: Namespace): (r: seq<Subject>)
    ensures forall b :: b in r <==> b in bindings && b.ns == ns
  {
    if bindings == [] then []
    else (if bindings[0].ns == ns then [bindings[0]] else []) + InNamespace(bindings[1..], ns)
  }

  function WorkRunAuthority(namespaces: seq<Declaration>): (r: Option<string>)
    ensures r.Some? ==> Declaration(r.value, WorkRun) in namespaces
    ensures r.None? ==> forall d :: d in namespaces ==> d.ns != WorkRun
  {
    if namespaces == [] then None
    else if namespaces[0].ns == WorkRun then Some(namespaces[0].authority)
    else WorkRunAuthority(namespaces[1..])
  }

  /** `declaredWorkRunRef`: the run named on the declared exact pair, if exactly one binding names it. */
  function DeclaredWorkRun(r: Request, config: Config): Option<Id> {
    var authority := WorkRunAuthority(config.namespaces);
    if authority.None? then None
    else
      var bound := BoundTo(r.bindings, authority.value, WorkRun);
      if |bound| == 1 then Some(bound[0].objectId) else None
  }

  predicate RunProfileEnrolled(config: Config, requester: Ref) {
    config.v2 && requester in config.enrolled
  }

  predicate RunProfileEngaged(config: Config) {
    config.v2 && config.enrolled != {}
  }

  /** The `work_run_ref` column: the first binding in the work-run namespace, whatever its authority. */
  function RunColumn(r: Request): Option<Id> {
    var bound := InNamespace(r.bindings, WorkRun);
    if bound == [] then None else Some(bound[0].objectId)
  }

  /** `effectIdsByWorkRun`. */
  function SealedIn(requests: map<Id, Request>, run: Id): set<Id> {
    set e | e in requests && RunColumn(requests[e]) == Some(run)
  }

  // ---------------------------------------------------------------- subject-complete assembly

  function EntriesFor(entries: seq<AssemblyEntry>, kind: Kind): (r: seq<AssemblyEntry>)
    ensures forall d :: d in r <==> d in entries && kind in d.operations
  {
    if entries == [] then []
    else (if kind in entries[0].operations then [entries[0]] else []) + EntriesFor(entries[1..], kind)
  }

  /** `declaredAssemblyEntries`. */
  function DeclaredEntries(config: Config, kind: Kind): seq<AssemblyEntry> {
    if config.v2 then EntriesFor(config.assembly, kind) else []
  }

  predicate Bound(d: AssemblyEntry, bindings: seq<Subject>) {
    exists k :: k in bindings && k.ns == d.ns
  }

  /** `assemblySubjectKeys`: the request's own subjects in the namespace, once each. */
  function SubjectKeys(d: AssemblyEntry, bindings: seq<Subject>): (keys: seq<Subject>)
    ensures forall k :: k in keys <==> k in bindings && k.ns == d.ns
  {
    if bindings == [] then []
    else
      var n := |bindings| - 1;
      var before := SubjectKeys(d, bindings[..n]);
      if bindings[n].ns == d.ns && bindings[n] !in before then before + [bindings[n]] else before
  }

  /** Every sealed envelope of the kind bound to the exact subject. */
  function OnSubject(envelopes: map<Id, Envelope>, kind: EnvelopeKind, key: Subject): set<Id> {
    set id | id in envelopes && envelopes[id].kind == kind && key in envelopes[id].subjects
  }

  /** Every declared entry is bound, and all that is sealed for its kind and subjects is among `ids`. */
  predicate CarriesComplete(envelopes: map<Id, Envelope>, ids: seq<Id>, declared: seq<AssemblyEntry>,
      bindings: seq<Subject>)
  {
    && (forall d :: d in declared ==> Bound(d, bindings))
    && forall d, k :: d in declared && k in bindings && k.ns == d.ns ==>
      OnSubject(envelopes, d.kind, k) <= set id | id in ids
  }

  // ---------------------------------------------------------------- admissions and outcomes

  /** `admissionsByEffect`: the effect's rows in insertion order, which is ordinal order (`Ordinals`). */
  function Of(rows: seq<Admission>, e: Id): (r: seq<nat>)
    ensures forall k :: 0 <= k < |r| ==> r[k] < |rows| && rows[r[k]].effect == e
    ensures forall k :: 0 <= k < |rows| && rows[k].effect == e ==> k in r
  {
    if rows == [] then []
    else
      var last := |rows| - 1;
      if rows[last].effect == e then Of(rows[..last], e) + [last] else Of(rows[..last], e)
  }

  lemma OfAppend(rows: seq<Admission>, a: Admission, e: Id)
    ensures Of(rows + [a], e) == if a.effect == e then Of(rows, e) + [|rows|] else Of(rows, e)
  {
    assert (rows + [a])[..|rows|] == rows;
  }

  predicate HasOutcome(outcomes: seq<Outcome>, row: nat, result: Verdict) {
    exists k :: 0 <= k < |outcomes| && outcomes[k].admission == row && outcomes[k].result == result
  }

  /** `latestCommitted` is defined. */
  predicate CommittedEffect(db: Db, e: Id) {
    exists row :: 0 <= row < |db.admissions| && db.admissions[row].effect == e
      && HasOutcome(db.outcomes, row, Committed)
  }

  predicate Contradictory(outcomes: seq<Outcome>, row: nat) {
    HasOutcome(outcomes, row, Committed) && HasOutcome(outcomes, row, NoEffectConfirmed)
  }

  /** `run-capability-minting`: the shape and the witness written at seal. */
  predicate Minting(db: Db, r: Request) {
    r.kind.WorkStart? && r.effect in db.members && db.members[r.effect] == r.effect
  }

  // ---------------------------------------------------------------- incidents

  predicate Released(envelopes: map<Id, Envelope>, incident: Id) {
    exists b :: b in envelopes && envelopes[b].kind.BreakGlass? && incident in envelopes[b].releases
  }

  predicate OpenIncident(envelopes: map<Id, Envelope>, incident: Id) {
    incident in envelopes && envelopes[incident].kind.KernelIncident? && !Released(envelopes, incident)
  }

  function EffectSubject(e: Id): Subject {
    Subject("cadp-store:k04", Named("effect"), e)
  }

  predicate Names(r: Request, s: Subject) {
    s == EffectSubject(r.effect) || s == r.target || s in r.bindings
  }

  /** `scopeHeld`. */
  predicate ScopeHeld(envelopes: map<Id, Envelope>, r: Request) {
    exists i :: i in envelopes && OpenIncident(envelopes, i) && exists s :: s in envelopes[i].subjects && Names(r, s)
  }

  function IncidentOn(r: Request): Envelope {
    Envelope(KernelIncident, {EffectSubject(r.effect), r.target}, None, None, {})
  }
}
