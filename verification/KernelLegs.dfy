/** What the individual legs of a seal and of an admission guarantee, read off the whole decision. */
module KernelLegs {
  import opened Wrappers
  import opened Records
  import opened Sealing
  import opened Admitting
  import opened KernelRuns
  import opened KernelTheorems
  import opened KernelSafety

  // ---------------------------------------------------------------- first seals

  /** Exactly one binding on the projected pair, and it carries the allocated field's text. */
  predicate Projected(r: Request, p: Projection, tuple: Tuple) {
    var bound := BoundTo(r.bindings, p.authority, p.ns);
    |bound| == 1 && p.field in tuple && tuple[p.field] == Text(bound[0].objectId)
  }

  lemma {:induction false} ProjectionLegsAreExact(r: Request, ps: seq<Projection>, tuple: Tuple)
    ensures ProjectionLegs(r, ps, tuple).None? <==> forall p :: p in ps ==> Projected(r, p, tuple)
  {
    if ps != [] {
      ProjectionLegsAreExact(r, ps[1..], tuple);
      assert ProjectionLeg(r, ps[0], tuple).None? <==> Projected(r, ps[0], tuple);
      assert (forall p :: p in ps ==> Projected(r, p, tuple)) <==>
        Projected(r, ps[0], tuple) && forall p :: p in ps[1..] ==> Projected(r, p, tuple) by {
        assert ps == [ps[0]] + ps[1..];
      }
    }
  }

  /**
   * Main: a first seal of an allocated effect passes its binding legs exactly when no kernel namespace is
   * bound twice, the presented tuple is the allocated one, the contract is still the allocated one, every
   * projection is bound once to its field, and the operation is the one paired with the purpose.
   */
  lemma FirstSealIsTheAllocatedRequest(r: Request, row: Allocation, tuple: Option<Tuple>, config: Config)
    ensures FirstSealBinding(r, row, tuple, config).None? <==>
      && (forall d :: d in config.namespaces ==> |InNamespace(r.bindings, d.ns)| <= 1)
      && tuple == Some(row.tuple)
      && row.schema in config.contracts && config.contracts[row.schema] == row.contract
      && (forall p :: p in row.contract.projection ==> Projected(r, p, row.tuple))
      && PairedKind(row.contract.purposes, row.purpose) == Some(r.kind)
  {
    ProjectionLegsAreExact(r, row.contract.projection, row.tuple);
  }

  /** Under v2 nobody but the allocation's own requester gets past the gate, first seal and re-seal alike. */
  lemma OnlyTheAllocatorSeals(db: Db, call: SealCall)
    requires db.config.v2 && (Adjudicated(db, call).First? || Adjudicated(db, call).Existing?
      || Adjudicated(db, call).Conflict?)
    ensures call.draft.effect in db.allocations && db.allocations[call.draft.effect].requester == call.draft.requester
    ensures call.principal in db.config.identities && db.config.identities[call.principal] == call.draft.requester
  {
    hide FirstSeal, MaterialLeg;
  }

  /** Sealing is idempotent: repeating a successful call changes nothing and answers the same row. */
  lemma ResealIsIdempotent(db: Db, call: SealCall, incident: Id, again: Id)
    requires RowsKeyed(db) && SealAnswer(db, call).Done?
    ensures var db' := AfterSeal(db, call, incident);
      AfterSeal(db', call, again) == db' && SealAnswer(db', call) == Done(call.draft)
  {
    hide FirstSeal;
    if Adjudicated(db, call).First? {
      if db.config.v2 {
        FirstSealPresentsTuple(db, call.draft, call.tuple, call.header);
      }
    }
  }

  lemma FirstSealPresentsTuple(db: Db, r: Request, tuple: Option<Tuple>, header: Presented)
    requires db.config.v2 ==> r.effect in db.allocations
    requires FirstSeal(db, r, tuple, header).Done? && db.config.v2
    ensures tuple == Some(db.allocations[r.effect].tuple)
  {}

  /** What can still refuse the repetition of a successful call, in terms of the policy active by then. */
  predicate RepeatPasses(db: Db, call: SealCall) {
    && Stamped(call, db.config).None? && SchemeLeg(db.config).None? && AllocationLeg(db, call.draft).None?
    && (db.config.v2 && call.tuple.Some? ==> call.tuple.value == db.allocations[call.draft.effect].tuple)
  }

  /**
   * Main: whatever happened since a successful seal, the identical call writes nothing, never meets a conflict,
   * and answers the sealed row exactly when the policy active by then lets it through. Under a policy of the
   * same version that is exactly when the caller still is the requester and the digest scheme is still approved.
   */
  lemma LaterResealAnswersTheRow(trace: seq<System>, events: seq<Event>, ops: Ops, i: nat, j: nat, call: SealCall,
      again: Id)
    requires History(trace, events, ops) && i < j < |trace|
    requires events[i].Seal? && events[i].seal == call && SealAnswer(trace[i].db, call).Done?
    ensures var db := trace[j].db;
      && AfterSeal(db, call, again) == db
      && SealAnswer(db, call) != Refused(RequestDigestConflict)
      && (SealAnswer(db, call) == Done(call.draft) <==> RepeatPasses(db, call))
      && (trace[i].db.config.v2 == db.config.v2 ==>
            (SealAnswer(db, call) == Done(call.draft) <==>
              Stamped(call, db.config).None? && SchemeLeg(db.config).None?))
  {
    hide Enabled, Next, Genesis, Adjudicated, RepeatPasses, AllocationLeg, MaterialLeg, Stamped;
    ReachableRows(trace, events, ops, i);
    SealedAsDrafted(trace, events, ops, i, call);
    OnlyAppends(trace, events, ops, i, j);
    OnlyAppends(trace, events, ops, i + 1, j);
    RepeatIsAnswered(trace[i].db, trace[j].db, call);
  }

  lemma SealedAsDrafted(trace: seq<System>, events: seq<Event>, ops: Ops, i: nat, call: SealCall)
    requires History(trace, events, ops) && i < |events| && RowsKeyed(trace[i].db)
    requires events[i].Seal? && events[i].seal == call && SealAnswer(trace[i].db, call).Done?
    ensures call.draft.effect in trace[i + 1].db.requests && trace[i + 1].db.requests[call.draft.effect] == call.draft
    ensures MaterialLeg(trace[i].db, call.draft).None? && AllocationLeg(trace[i].db, call.draft).None?
    ensures trace[i].db.config.v2 && call.tuple.Some? ==>
      call.tuple.value == trace[i].db.allocations[call.draft.effect].tuple
  {
    hide FirstSeal, Genesis, MaterialLeg, Stamped;
    assert trace[i + 1] == Next(trace[i], events[i], ops);
    if Adjudicated(trace[i].db, call).First? && trace[i].db.config.v2 {
      FirstSealPresentsTuple(trace[i].db, call.draft, call.tuple, call.header);
    }
  }

  lemma RepeatIsAnswered(db: Db, db': Db, call: SealCall)
    requires AppendOnly(db, db')
    requires call.draft.effect in db'.requests && db'.requests[call.draft.effect] == call.draft
    requires MaterialLeg(db, call.draft).None? && AllocationLeg(db, call.draft).None?
    requires db.config.v2 && call.tuple.Some? ==> call.tuple.value == db.allocations[call.draft.effect].tuple
    ensures !Adjudicated(db', call).Conflict? && !Adjudicated(db', call).First?
    ensures SealAnswer(db', call) != Refused(RequestDigestConflict)
    ensures Adjudicated(db', call).Existing? <==> RepeatPasses(db', call)
    ensures db.config.v2 == db'.config.v2 ==>
      (RepeatPasses(db', call) <==> Stamped(call, db'.config).None? && SchemeLeg(db'.config).None?)
  {
    hide FirstSeal;
    assert MaterialLeg(db', call.draft).None?;
  }

  /** A conflicting re-seal leaves one open incident on its effect and no other change, so the scope is held. */
  lemma ConflictHoldsScope(db: Db, call: SealCall, incident: Id, r: Request)
    requires Adjudicated(db, call).Conflict? && incident !in db.envelopes && Names(r, EffectSubject(call.draft.effect))
    requires !Released(db.envelopes, incident)
    ensures var db' := AfterSeal(db, call, incident);
      && ScopeHeld(db'.envelopes, r) && db'.requests == db.requests && db'.members == db.members
      && db'.capabilities == db.capabilities && db'.admissions == db.admissions && db'.outcomes == db.outcomes
  {
    hide Adjudicated;
    var envelopes := AfterSeal(db, call, incident).envelopes;
    assert !Released(envelopes, incident) by {
      forall b | b in envelopes && envelopes[b].kind.BreakGlass? ensures incident !in envelopes[b].releases {
        assert b in db.envelopes && envelopes[b] == db.envelopes[b];
      }
    }
    assert OpenIncident(envelopes, incident) && EffectSubject(call.draft.effect) in envelopes[incident].subjects;
  }

  // ---------------------------------------------------------------- admissions

  /**
   * Main: whatever policy an admission was checked under, if that policy enrolls the requester and the
   * request names a run, then the request proved that very run at its seal: it is the run's own origin, or
   * its requester held the run's capability and the run's WORK_START had landed.
   */
  lemma EnrolledAdmissionsAreMembers(trace: seq<System>, events: seq<Event>, ops: Ops, k: nat)
    requires History(trace, events, ops) && k < |events| && events[k].Commit?
    requires var a := trace[k].calls[events[k].c].attempt;
      && Ruled(trace[k].db, a, ops[trace[k].db.requests[a.effect].kind], events[k].now, events[k].others).Admit?
      && RunProfileEnrolled(a.config, trace[k].db.requests[a.effect].requester)
      && DeclaredWorkRun(trace[k].db.requests[a.effect], a.config).Some?
    ensures var db, a := trace[k].db, trace[k].calls[events[k].c].attempt;
      var r, w := db.requests[a.effect], DeclaredWorkRun(db.requests[a.effect], a.config).value;
      && a.effect in db.members && db.members[a.effect] == w
      && (if w == a.effect then r.kind.WorkStart?
          else w in db.capabilities && db.capabilities[w].holder == r.requester && CommittedEffect(db, w))
  {
    hide Ruled, Next, Genesis, DeclaredWorkRun, RunProfileEnrolled, CommittedEffect;
    var a := trace[k].calls[events[k].c].attempt;
    AdmissionNeeds(trace[k].db, a, ops[trace[k].db.requests[a.effect].kind], events[k].now, events[k].others);
    Reachable(trace, events, ops, k);
    assert MemberProof(trace[k].db, a.effect);
  }

  /**
   * Main: every admission in a reachable store was committed on an input that carries, of each declared kind and
   * each subject its request binds there, every envelope sealed by that moment, and at least one such subject is
   * bound for each declared entry of the policy it was checked under.
   */
  lemma AdmittedOnCompleteEvidence(trace: seq<System>, events: seq<Event>, ops: Ops, k: nat, i: nat)
      returns (j: nat, config: Config)
    requires History(trace, events, ops) && k < |trace| && i < |trace[k].db.admissions|
    ensures j < k && events[j].Commit? && RulingOf(trace[j], events[j], ops) == Admit(trace[k].db.admissions[i])
    ensures config == trace[j].calls[events[j].c].attempt.config
    ensures var db, row := trace[k].db, trace[k].db.admissions[i];
      && row.effect in db.requests && row.input in db.inputs
      && forall d :: d in config.assembly && config.v2 && db.requests[row.effect].kind in d.operations ==>
           && Bound(d, db.requests[row.effect].bindings)
           && forall m, s, key ::
                0 <= m <= j && s in db.requests[row.effect].bindings && s.ns == d.ns && key in trace[m].db.envelopes
                && trace[m].db.envelopes[key].kind == d.kind && s in trace[m].db.envelopes[key].subjects ==>
                  key in db.inputs[row.input].evidence
  {
    hide Next, Genesis, Ruled, HumanLegs;
    j := AdmittedRowsStay(trace, events, ops, k, i);
    config := trace[j].calls[events[j].c].attempt.config;
    var db, row := trace[k].db, trace[k].db.admissions[i];
    var bindings := db.requests[row.effect].bindings;
    forall d, m, s, key |
      d in config.assembly && config.v2 && db.requests[row.effect].kind in d.operations && 0 <= m <= j
      && s in bindings && s.ns == d.ns && key in trace[m].db.envelopes
      && trace[m].db.envelopes[key].kind == d.kind && s in trace[m].db.envelopes[key].subjects
      ensures key in db.inputs[row.input].evidence
    {
      OnlyAppends(trace, events, ops, m, j);
      assert key in OnSubject(trace[j].db.envelopes, d.kind, s);
    }
  }
}
