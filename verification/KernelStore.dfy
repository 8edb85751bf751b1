/**
 * The kernel as the source runs it: append-only tables changed in place, loops over bindings, evidence,
 * admissions and constraints. Each method is tied to the function the state machine is built from.
 */
module KernelStore {
  import opened Wrappers
  import opened Records
  import opened Sealing
  import opened Admitting
  import opened KernelRuns
  import opened Reconciling
  import Assembly

  class Kernel {
    var config: Config
    var blobs: map<string, Material>
    var allocations: map<Id, Allocation>
    var requests: map<Id, Request>
    var members: map<Id, Id>
    var capabilities: map<Id, Capability>
    var envelopes: map<Id, Envelope>
    var inputs: map<Id, Input>
    var decisions: map<Id, Decision>
    var admissions: seq<Admission>
    var outcomes: seq<Outcome>

    function View(): Db
      reads this
    {
      Db(config, blobs, allocations, requests, members, capabilities, envelopes, inputs, decisions, admissions,
        outcomes)
    }

    constructor (config: Config)
      ensures Genesis(System(View(), map[], Target([], {}, {}))) && View().config == config
    {
      this.config := config;
      blobs, allocations, requests, members, capabilities := map[], map[], map[], map[], map[];
      envelopes, inputs, decisions, admissions, outcomes := map[], map[], map[], [], [];
    }

    // -------------------------------------------------------------- incidents

    /** `openIncidents`: a `released` set filled from every break-glass envelope. */
    method OpenIncidents() returns (open: set<Id>)
      ensures forall i :: i in open <==> i in envelopes && OpenIncident(envelopes, i)
    {
      var released: set<Id> := {};
      var rest := envelopes.Keys;
      while rest != {}
        invariant rest <= envelopes.Keys
        invariant forall i :: i in released <==>
          exists b :: b in envelopes && b !in rest && envelopes[b].kind.BreakGlass? && i in envelopes[b].releases
        decreases |rest|
      {
        var b :| b in rest;
        rest := rest - {b};
        if envelopes[b].kind.BreakGlass? {
          released := released + envelopes[b].releases;
        }
      }
      assert forall i :: i in released <==> Released(envelopes, i);
      open := set i | i in envelopes && envelopes[i].kind.KernelIncident? && i !in released;
    }

    /** `scopeHeld`: the first open incident that shares a subject key with the request. */
    method HeldBy(r: Request) returns (holding: Option<Id>)
      ensures holding.Some? <==> ScopeHeld(envelopes, r)
      ensures holding.Some? ==> OpenIncident(envelopes, holding.value)
      ensures holding.Some? ==> exists s :: s in envelopes[holding.value].subjects && Names(r, s)
    {
      var open := OpenIncidents();
      var rest := open;
      while rest != {}
        invariant rest <= open
        invariant forall i :: i in open && i !in rest ==> !exists s :: s in envelopes[i].subjects && Names(r, s)
        decreases |rest|
      {
        var i :| i in rest;
        rest := rest - {i};
        if exists s :: s in envelopes[i].subjects && Names(r, s) {
          return Some(i);
        }
      }
      return None;
    }

    method SealIncident(key: Id, r: Request)
      modifies this`envelopes
      ensures View() == old(View()).(envelopes := old(envelopes)[key := IncidentOn(r)])
    {
      envelopes := envelopes[key := IncidentOn(r)];
    }

    // -------------------------------------------------------------- seal

    method AssertFirstSealBinding(r: Request, row: Allocation, tuple: Option<Tuple>)
        returns (refusal: Option<SealRefusal>)
      ensures refusal == FirstSealBinding(r, row, tuple, config)
    {
      for i := 0 to |config.namespaces|
        invariant forall k :: 0 <= k < i ==> |InNamespace(r.bindings, config.namespaces[k].ns)| <= 1
      {
        if |InNamespace(r.bindings, config.namespaces[i].ns)| > 1 {
          return Some(KernelNamespaceAmbiguous);
        }
      }
      assert NamespacesUnambiguous(r, config.namespaces);
      if tuple.None? {
        return Some(AllocationTupleRequired);
      }
      if tuple.value != row.tuple {
        return Some(AllocationBindingMismatch);
      }
      if row.schema !in config.contracts || config.contracts[row.schema] != row.contract {
        return Some(AllocationContractChanged);
      }
      var projection := row.contract.projection;
      var i := 0;
      while i < |projection|
        invariant 0 <= i <= |projection|
        invariant ProjectionLegs(r, projection, tuple.value) == ProjectionLegs(r, projection[i..], tuple.value)
      {
        var bound := BoundTo(r.bindings, projection[i].authority, projection[i].ns);
        if |bound| > 1 {
          return Some(AllocationBindingAmbiguous);
        }
        if |bound| == 0 || projection[i].field !in tuple.value
          || tuple.value[projection[i].field] != Text(bound[0].objectId) {
          return Some(AllocationBindingMismatch);
        }
        i := i + 1;
      }
      if PairedKind(row.contract.purposes, row.purpose) != Some(r.kind) {
        return Some(AllocationPurposeMismatch);
      }
      return None;
    }

    /** The legs of a first seal and, when none refuses, the request row and its membership proof. */
    method FirstSealOf(r: Request, tuple: Option<Tuple>, header: Presented)
        returns (proven: Result<Option<Id>, SealRefusal>)
      requires config.v2 ==> r.effect in allocations
      ensures proven == FirstSeal(View(), r, tuple, header)
    {
      if config.v2 {
        var binding := AssertFirstSealBinding(r, allocations[r.effect], tuple);
        if binding.Some? {
          return Refused(binding.value);
        }
      }
      var enrollment := RunEnrollment(r, config);
      if enrollment.Some? {
        return Refused(enrollment.value);
      }
      var origin := RunOrigin(r, config);
      if origin.Refused? {
        return Refused(origin.reason);
      }
      if origin.value {
        return Done(Some(r.effect));
      }
      return RunMembership(View(), r, header);
    }

    /** `sealEffectRequest`: one transaction, then the incident of a conflict in its own. */
    method SealEffectRequest(call: SealCall, incident: Id) returns (answer: Result<Request, SealRefusal>)
      modifies this
      ensures View() == AfterSeal(old(View()), call, incident)
      ensures answer == SealAnswer(old(View()), call)
    {
      var r := call.draft;
      if call.principal !in config.identities {
        return Refused(ForbiddenForPrincipal);
      }
      if r.requester != config.identities[call.principal] {
        return Refused(RequesterRefMismatch);
      }
      var material := MaterialLeg(View(), r);
      if material.Some? {
        return Refused(material.value);
      }
      if JCS !in config.schemes {
        return Refused(DigestSchemeUnapproved);
      }
      var allocation := AllocationLeg(View(), r);
      if allocation.Some? {
        return Refused(allocation.value);
      }
      if r.effect in requests {
        if config.v2 && call.tuple.Some? && call.tuple.value != allocations[r.effect].tuple {
          return Refused(AllocationBindingMismatch);
        }
        if requests[r.effect] == r {
          return Done(requests[r.effect]);
        }
        SealIncident(incident, r);
        return Refused(RequestDigestConflict);
      }
      var proven := FirstSealOf(r, call.tuple, call.header);
      if proven.Refused? {
        return Refused(proven.reason);
      }
      requests := requests[r.effect := r];
      if proven.value.Some? {
        members := members[r.effect := proven.value.value];
      }
      return Done(r);
    }

    // -------------------------------------------------------------- admission

    method ReusedElsewhere(e: Id, key: Id) returns (reused: bool)
      ensures reused == UsedElsewhere(View(), e, key)
    {
      for i := 0 to |admissions|
        invariant forall k :: 0 <= k < i ==> !(admissions[k].effect != e && Carries(View(), admissions[k], key))
      {
        if admissions[i].effect != e && admissions[i].input in inputs && key in inputs[admissions[i].input].evidence {
          return true;
        }
      }
      return false;
    }

    /** Recheck #5 over the bound evidence, in order. */
    method HumanScope(r: Request, keys: seq<Id>) returns (refusal: Option<AdmitRefusal>)
      requires forall k :: k in keys ==> k in envelopes
      ensures refusal == HumanLegs(View(), r, keys)
    {
      var i := 0;
      while i < |keys|
        invariant 0 <= i <= |keys|
        invariant HumanLegs(View(), r, keys) == HumanLegs(View(), r, keys[i..])
      {
        var env := envelopes[keys[i]];
        if IsDecisionEvidence(env) {
          if !ScopeBinds(env, r) {
            return Some(HumanDecisionScopeMismatch);
          }
          var reused := ReusedElsewhere(r.effect, keys[i]);
          if reused {
            return Some(HumanDecisionReused);
          }
        }
        i := i + 1;
      }
      return None;
    }

    /** Recheck #10: `maxOrdinalBound` is overwritten by each MAX_DISPATCH_ORDINAL. */
    method EnforceConstraints(r: Request, cs: seq<Constraint>) returns (bound: Result<Option<int>, AdmitRefusal>)
      ensures bound == Constrained(View(), r, cs, None)
    {
      var maxOrdinal: Option<int> := None;
      var i := 0;
      while i < |cs|
        invariant 0 <= i <= |cs|
        invariant Constrained(View(), r, cs, None) == Constrained(View(), r, cs[i..], maxOrdinal)
      {
        var leg := ConstraintLeg(View(), r, cs[i]);
        if leg.Some? {
          return Refused(leg.value);
        }
        if cs[i].MaxDispatchOrdinal? {
          maxOrdinal := cs[i].ordinal;
        }
        i := i + 1;
      }
      return Done(maxOrdinal);
    }

    /** Recheck #3 (resolution), #5 and #7. */
    method Evidence(r: Request, keys: seq<Id>) returns (refusal: Option<AdmitRefusal>)
      ensures refusal == EvidenceLeg(View(), r, keys)
    {
      for i := 0 to |keys|
        invariant forall k :: 0 <= k < i ==> keys[k] in envelopes
      {
        if keys[i] !in envelopes {
          return Some(EvidenceNotFound);
        }
      }
      var scope := HumanScope(r, keys);
      if scope.Some? {
        return scope;
      }
      var holding := HeldBy(r);
      return if holding.Some? then Some(ScopeHold) else None;
    }

    method Adjudicate(a: Attempt, op: OpSpec, now: int, others: bool) returns (ruling: Ruling)
      ensures ruling == Ruled(View(), a, op, now, others)
    {
      var binding := BindingLeg(View(), a);
      if binding.Some? {
        return Refuse(binding.value);
      }
      var r, decision := requests[a.effect], decisions[a.decision];
      var evidence := Evidence(r, inputs[decision.input].evidence);
      if evidence.Some? {
        return Refuse(evidence.value);
      }
      var bound := EnforceConstraints(r, decision.constraints);
      if bound.Refused? {
        return Refuse(bound.reason);
      }
      match NextOrdinal(View(), a.effect, op, now) {
        case Contradiction => return Abort;
        case Stop(reason) => return Refuse(reason);
        case Ordinal(n, prior) =>
          if bound.value.Some? && n > bound.value.value {
            return Refuse(ConstraintViolated);
          }
          if others {
            return Refuse(OtherRecheck);
          }
          var complete := Assembly.RecheckAssembly(envelopes, inputs[decision.input].evidence,
            DeclaredEntries(a.config, r.kind), r.bindings);
          if !complete {
            return Refuse(AssemblyIncomplete);
          }
          if !MembershipProven(View(), r, a.config) {
            return Refuse(RunMembershipUnproven);
          }
          return Admit(Admission(a.effect, n, prior, a.decision, decision.input, now));
      }
    }

    /** The admission transaction: the row is the reservation, and the mint follows it. */
    method AdmissionTransaction(a: Attempt, op: OpSpec, now: int, others: bool, secret: Secret, incident: Id)
      returns (ruling: Ruling, delivered: Option<Secret>)
      modifies this
      ensures ruling == Ruled(old(View()), a, op, now, others)
      ensures View() == AfterAdmit(old(View()), a, op, now, others, secret, incident)
      ensures RowsKeyed(old(View())) ==>
        (delivered.Some? <==> ruling.Admit? && a.effect in capabilities && a.effect !in old(capabilities))
      ensures delivered.Some? ==> delivered.value == secret
    {
      ruling := Adjudicate(a, op, now, others);
      delivered := None;
      match ruling {
        case Abort =>
        case Refuse(reason) =>
          if reason == UnsupportedConstraint {
            SealIncident(incident, requests[a.effect]);
          }
        case Admit(row) =>
          var r := requests[a.effect];
          if Mints(View(), r, row.ordinal, a.stamped) {
            capabilities := capabilities[r.effect := Capability(r.requester, secret)];
            delivered := Some(secret);
          }
          admissions := admissions + [row];
      }
    }

    // -------------------------------------------------------------- outcomes

    ghost function Books(): Reconciling.Books
      reads this
    {
      Reconciling.Books(outcomes, envelopes)
    }

    /**
     * `writeOutcome`: a conclusive result seals its receipt, a result against the opposite one an incident on the
     * effect, each under a fresh id, and the outcome row follows them.
     */
    method WriteOutcome(r: Request, row: nat, result: Verdict, byReconciler: bool, receipt: Id, incident: Id)
      requires row < |admissions| && admissions[row].effect == r.effect
      modifies this`outcomes, this`envelopes
      ensures Books() == Written(old(Books()), r, row, result, byReconciler, receipt, incident)
    {
      if result != Unknown {
        envelopes := envelopes[receipt := Receipt(r)];
      }
      if Contradicts(outcomes, row, result) {
        envelopes := envelopes[incident := EffectIncident(r.effect)];
      }
      outcomes := outcomes + [Outcome(row, result, byReconciler)];
    }

    /** `sealExhausted`. */
    method SealExhausted(e: Id, key: Id)
      modifies this`envelopes
      ensures Books() == RoutedOnce(old(Books()), e, key)
    {
      if !Routed(envelopes, e) {
        envelopes := envelopes[key := Exhaustion(e)];
      }
    }

    /** `adapter.reconcile`: while the pass waits, others add outcomes and seal envelopes. */
    method AwaitProbe(w: Wait)
      modifies this`outcomes, this`envelopes
      ensures outcomes == old(outcomes) + w.others && envelopes == old(envelopes) + w.sealed
    {
      outcomes, envelopes := outcomes + w.others, envelopes + w.sealed;
    }

    /**
     * `reconcileEffect`: one probe for each admission that was open at the start, skipping those whose probes
     * are exhausted. `waits` says, for each of them, what the adapter answers and what others do meanwhile.
     */
    method ReconcileEffect(e: Id, hasAdapter: bool, waits: seq<Wait>) returns (last: Option<Outcome>)
      requires e in requests ==> requests[e].effect == e
      requires |waits| == |OpenRows(outcomes, Of(admissions, e))|
      modifies this`outcomes, this`envelopes
      ensures Books() ==
        if e in requests && hasAdapter
        then Pass(old(Books()), requests[e], OpenRows(old(outcomes), Of(admissions, e)), config.maxAttempts, waits)
        else old(Books())
      ensures last ==
        if e in requests && hasAdapter
        then LastWritten(old(Books()), requests[e], OpenRows(old(outcomes), Of(admissions, e)),
          config.maxAttempts, waits)
        else None
    {
      hide Of, OpenRows, RowStep, Attempts;
      if e !in requests || !hasAdapter {
        return None;
      }
      last := None;
      var r, max := requests[e], config.maxAttempts;
      var open := OpenRows(outcomes, Of(admissions, e));
      for i := 0 to |open|
        invariant Books() == Pass(old(Books()), r, open[..i], max, waits[..i])
        invariant last == LastWritten(old(Books()), r, open[..i], max, waits[..i])
      {
        assert open[i] in open;
        assert open[..i + 1][..i] == open[..i] && waits[..i + 1][..i] == waits[..i];
        var written := ReconcileRow(r, open[i], max, waits[i]);
        last := if written.Some? then written else last;
      }
      assert open[..|open|] == open && waits[..|open|] == waits;
    }

    /** The body of its loop. */
    method ReconcileRow(r: Request, row: nat, max: nat, w: Wait) returns (written: Option<Outcome>)
      requires row < |admissions| && admissions[row].effect == r.effect
      modifies this`outcomes, this`envelopes
      ensures Books() == RowStep(old(Books()), r, row, max, w)
      ensures written ==
        if Attempts(old(outcomes), row) < max then Some(Outcome(row, GradeProbe(w.probe), true)) else None
    {
      hide Attempts, Routed, Contradicts;
      var priorUnknowns := Attempts(outcomes, row);
      if priorUnknowns >= max {
        SealExhausted(r.effect, w.exhausted);
        return None;
      }
      AwaitProbe(w);
      written := Some(Outcome(row, GradeProbe(w.probe), true));
      match w.probe {
        case ProbeCommitted(binds) =>
          if !binds {
            envelopes := envelopes[w.mismatch := EffectIncident(r.effect)];
          }
          WriteOutcome(r, row, if binds then Committed else Unknown, true, w.receipt, w.incident);
        case ProbeNoEffect =>
          WriteOutcome(r, row, NoEffectConfirmed, true, w.receipt, w.incident);
        case ProbeUnknown =>
          WriteOutcome(r, row, Unknown, true, w.receipt, w.incident);
          if priorUnknowns + 1 >= max {
            SealExhausted(r.effect, w.exhausted);
          }
      }
    }
  }

  /** A contradiction holds its effect: until a release, every admission of it is refused. */
  lemma ContradictionHoldsEffect(db: Db, row: nat, result: Verdict, byReconciler: bool, receipt: Id, incident: Id,
      r: Request,
                                 a: Attempt, op: OpSpec, now: int, others: bool)
    requires row < |db.admissions| && db.admissions[row].effect == r.effect && Contradicts(db.outcomes, row, result)
    requires a.effect in db.requests && db.requests[a.effect] == r && !Released(db.envelopes, incident)
    requires incident !in db.envelopes && receipt !in db.envelopes
    ensures var b := Written(Books(db.outcomes, db.envelopes), r, row, result, byReconciler, receipt, incident);
      !Ruled(db.(envelopes := b.envelopes, outcomes := b.outcomes), a, op, now, others).Admit?
  {
    hide Constrained, NextOrdinal, HumanLegs, HasOutcome, MembershipProven, AssemblyProven;
    var envelopes := db.envelopes[receipt := Receipt(r)][incident := EffectIncident(r.effect)];
    assert !Released(envelopes, incident) by {
      forall b | b in envelopes && envelopes[b].kind.BreakGlass? ensures incident !in envelopes[b].releases {
        assert b in db.envelopes && envelopes[b] == db.envelopes[b];
      }
    }
    assert OpenIncident(envelopes, incident) && EffectSubject(r.effect) in envelopes[incident].subjects;
    assert ScopeHeld(envelopes, r);
  }
}
