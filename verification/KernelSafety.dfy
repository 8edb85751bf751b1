/** What the target sees: landing at most once, holds, single-use decisions, and the effect budget of a run. */
module KernelSafety {
  import opened Records
  import opened Sealing
  import opened Admitting
  import opened KernelRuns
  import opened KernelProofs
  import opened KernelTheorems

  /** The admissions that event `ev` appends: none, or the one the transaction ruled. */
  lemma OnlyCommitsAdmit(sys: System, ev: Event, ops: Ops)
    requires Enabled(sys, ev, ops)
    requires RowsKeyed(sys.db)
    ensures Next(sys, ev, ops).db.admissions == sys.db.admissions + Appends(sys, ev, ops)
  {
    hide Ruled, AfterAdmit, AfterSeal, Adjudicated, PreLock, GradeAnswer, GradeProbe, Truthful, RowsKeyed, AppendOnly;
    match ev
    case Seal(call, incident) => SealAppendsOnly(sys.db, call, incident);
    case Commit(c, now, others, secret, incident) =>
      var a := sys.calls[c].attempt;
      AdmitAppendsOnly(sys.db, a, ops[sys.db.requests[a.effect].kind], now, others, secret, incident);
    case _ =>
  }

  function RulingOf(sys: System, ev: Event, ops: Ops): Ruling
    requires Enabled(sys, ev, ops) && ev.Commit?
  {
    var a := sys.calls[ev.c].attempt;
    Ruled(sys.db, a, ops[sys.db.requests[a.effect].kind], ev.now, ev.others)
  }

  function Appends(sys: System, ev: Event, ops: Ops): seq<Admission>
    requires Enabled(sys, ev, ops)
  {
    if ev.Commit? && RulingOf(sys, ev, ops).Admit? then [RulingOf(sys, ev, ops).row] else []
  }

  // ---------------------------------------------------------------- nothing after COMMITTED

  lemma CommittedStops(db: Db, a: Attempt, op: OpSpec, now: int, others: bool)
    requires CommittedEffect(db, a.effect)
    ensures !Ruled(db, a, op, now, others).Admit?
  {
    if Ruled(db, a, op, now, others).Admit? {
      AdmissionNeeds(db, a, op, now, others);
      CommittedIsAdmitted(db, a.effect);
    }
  }

  lemma CommittedIsAdmitted(db: Db, e: Id)
    requires CommittedEffect(db, e)
    ensures Of(db.admissions, e) != []
  {
    var row :| 0 <= row < |db.admissions| && db.admissions[row].effect == e && HasOutcome(db.outcomes, row, Committed);
    assert row in Of(db.admissions, e);
  }

  lemma CommittedOneStep(trace: seq<System>, events: seq<Event>, ops: Ops, k: nat, e: Id)
    requires History(trace, events, ops) && k < |events| && CommittedEffect(trace[k].db, e)
    ensures CommittedEffect(trace[k + 1].db, e) && Of(trace[k + 1].db.admissions, e) == Of(trace[k].db.admissions, e)
  {
    hide Enabled, Next, Genesis, CommittedEffect, Of;
    ReachableRows(trace, events, ops, k);
    OnlyAppends(trace, events, ops, k, k + 1);
    CommittedStays(trace[k].db, trace[k + 1].db, e);
    CommittedStepAddsNone(trace[k], events[k], ops, e);
  }

  /** Main: once an effect has a COMMITTED outcome, no admission of it is ever added again. */
  lemma {:induction false} NothingAfterCommitted(trace: seq<System>, events: seq<Event>, ops: Ops, i: nat,
      j: nat, e: Id)
    requires History(trace, events, ops) && i <= j < |trace|
    requires CommittedEffect(trace[i].db, e)
    ensures CommittedEffect(trace[j].db, e) && Of(trace[j].db.admissions, e) == Of(trace[i].db.admissions, e)
    decreases j
  {
    hide Enabled, Next, Genesis, CommittedEffect, Of;
    if i < j {
      NothingAfterCommitted(trace, events, ops, i, j - 1, e);
      CommittedOneStep(trace, events, ops, j - 1, e);
    }
  }

  lemma CommittedStepAddsNone(sys: System, ev: Event, ops: Ops, e: Id)
    requires RowsKeyed(sys.db) && Enabled(sys, ev, ops) && CommittedEffect(sys.db, e)
    ensures Of(Next(sys, ev, ops).db.admissions, e) == Of(sys.db.admissions, e)
  {
    hide Ruled, Next, Constrained, ConstraintLeg;
    OnlyCommitsAdmit(sys, ev, ops);
    if Appends(sys, ev, ops) != [] {
      var a := sys.calls[ev.c].attempt;
      var op := ops[sys.db.requests[a.effect].kind];
      AdmissionNeeds(sys.db, a, op, ev.now, ev.others);
      var row := RulingOf(sys, ev, ops).row;
      assert row.effect != e by {
        if row.effect == e {
          CommittedStops(sys.db, a, op, ev.now, ev.others);
        }
      }
      OfAppend(sys.db.admissions, row, e);
    } else {
      assert sys.db.admissions + [] == sys.db.admissions;
    }
  }

  // ---------------------------------------------------------------- at most one landing

  /** The dispatch `d` acted for effect `e`. */
  predicate Landed(sys: System, d: nat, e: Id) {
    && d in sys.target.acted && d < |sys.target.dispatches| && sys.target.dispatches[d] < |sys.db.admissions|
    && sys.db.admissions[sys.target.dispatches[d]].effect == e
  }

  lemma LandingIsLast(sys: System, ops: Ops, d: nat, e: Id)
    requires Inv(sys, ops) && Landed(sys, d, e) && !IsNative(sys.db, ops, e)
    ensures var of := Of(sys.db.admissions, e); |of| > 0 && sys.target.dispatches[d] == of[|of| - 1]
  {
    var of := Of(sys.db.admissions, e);
    var row := sys.target.dispatches[d];
    var k :| 0 <= k < |of| && of[k] == row;
    assert VoidBeforeLast(sys.db.admissions, sys.db.outcomes, e);
    ProofsVoid(sys, ops);
  }

  lemma ProofsVoid(sys: System, ops: Ops)
    requires Inv(sys, ops)
    ensures forall row: nat :: HasOutcome(sys.db.outcomes, row, NoEffectConfirmed) ==> row in sys.target.voided
  {}

  /**
   * Main: for an operation without a native idempotency key, over every interleaving, at most one of an
   * effect's dispatches ever acts on the target, and a COMMITTED outcome means exactly one did.
   */
  lemma LandsAtMostOnce(trace: seq<System>, events: seq<Event>, ops: Ops, k: nat, e: Id)
    requires History(trace, events, ops) && k < |trace| && !IsNative(trace[k].db, ops, e)
    ensures forall c, d :: Landed(trace[k], c, e) && Landed(trace[k], d, e) ==> c == d
    ensures CommittedEffect(trace[k].db, e) ==> exists d :: Landed(trace[k], d, e)
  {
    hide Enabled, Next, Genesis, DbInv, Observations, CallsSound, CommittedEffect, IsNative;
    Reachable(trace, events, ops, k);
    forall c, d | Landed(trace[k], c, e) && Landed(trace[k], d, e) ensures c == d {
      LandingIsLast(trace[k], ops, c, e);
      LandingIsLast(trace[k], ops, d, e);
    }
    if CommittedEffect(trace[k].db, e) {
      CommittedLanded(trace[k], ops, e);
    }
  }

  lemma CommittedLanded(sys: System, ops: Ops, e: Id)
    requires Inv(sys, ops) && CommittedEffect(sys.db, e)
    ensures exists d :: Landed(sys, d, e)
  {
    var row :| 0 <= row < |sys.db.admissions| && sys.db.admissions[row].effect == e
      && HasOutcome(sys.db.outcomes, row, Committed);
    var i :| 0 <= i < |sys.db.outcomes| && sys.db.outcomes[i].admission == row
      && sys.db.outcomes[i].result == Committed;
    var d :| 0 <= d < |sys.target.dispatches| && d in sys.target.acted
      && sys.target.dispatches[d] < |sys.db.admissions| && sys.db.admissions[sys.target.dispatches[d]].effect == e;
    assert Landed(sys, d, e);
  }

  // ---------------------------------------------------------------- decisions and holds

  /** Every admission in a reachable store was ruled by one commit, over the store of that moment. */
  lemma {:induction false} AdmissionWasRuled(trace: seq<System>, events: seq<Event>, ops: Ops, k: nat, i: nat)
      returns (j: nat)
    requires History(trace, events, ops) && k < |trace| && i < |trace[k].db.admissions|
    ensures j < k && events[j].Commit? && RulingOf(trace[j], events[j], ops) == Admit(trace[k].db.admissions[i])
  {
    hide Enabled, Next, Ruled, RowsKeyed;
    assert trace[0].db.admissions == [];
    ReachableRows(trace, events, ops, k - 1);
    OnlyCommitsAdmit(trace[k - 1], events[k - 1], ops);
    if i < |trace[k - 1].db.admissions| {
      j := AdmissionWasRuled(trace, events, ops, k - 1, i);
    } else {
      j := k - 1;
    }
  }

  /** What the commit of an admission looked at is still there: its request, its input, its evidence. */
  lemma AdmittedRowsStay(trace: seq<System>, events: seq<Event>, ops: Ops, k: nat, i: nat) returns (j: nat)
    requires History(trace, events, ops) && k < |trace| && i < |trace[k].db.admissions|
    ensures j < k && events[j].Commit? && RulingOf(trace[j], events[j], ops) == Admit(trace[k].db.admissions[i])
    ensures var old', db, row := trace[j].db, trace[k].db, trace[k].db.admissions[i];
      && row.effect in old'.requests && row.effect in db.requests
        && db.requests[row.effect] == old'.requests[row.effect]
      && row.input in old'.inputs && row.input in db.inputs && db.inputs[row.input] == old'.inputs[row.input]
      && (forall key :: key in db.inputs[row.input].evidence ==>
            key in old'.envelopes && key in db.envelopes && db.envelopes[key] == old'.envelopes[key])
      && HumanLegs(old', old'.requests[row.effect], old'.inputs[row.input].evidence).None?
      && AssemblyProven(old', old'.requests[row.effect], old'.inputs[row.input].evidence,
        trace[j].calls[events[j].c].attempt.config)
  {
    hide Next, Genesis, Ruled, HumanLegs, AssemblyProven, ConstraintLeg, NextOrdinal, MembershipProven;
    j := AdmissionWasRuled(trace, events, ops, k, i);
    var a := trace[j].calls[events[j].c].attempt;
    AdmissionNeeds(trace[j].db, a, ops[trace[j].db.requests[a.effect].kind], events[j].now, events[j].others);
    OnlyAppends(trace, events, ops, j, k);
  }

  /** Every Human or agent decision an admission carries names, in its scope, that effect or its run. */
  lemma AdmittedInScope(trace: seq<System>, events: seq<Event>, ops: Ops, k: nat, i: nat, key: Id)
    requires History(trace, events, ops) && k < |trace| && i < |trace[k].db.admissions|
    requires var db := trace[k].db;
      key in db.envelopes && IsDecisionEvidence(db.envelopes[key]) && Carries(db, db.admissions[i], key)
    ensures var db := trace[k].db;
      db.admissions[i].effect in db.requests && ScopeBinds(db.envelopes[key], db.requests[db.admissions[i].effect])
  {
    hide Next, Enabled, Genesis, Ruled, ScopeBinds;
    var j := AdmittedRowsStay(trace, events, ops, k, i);
    assert HumanLeg(trace[j].db, trace[k].db.requests[trace[k].db.admissions[i].effect], key).None?;
  }

  /** Main: a Human or agent decision never authorizes two effects, and only one its scope names. */
  lemma DecisionAuthorizesOneEffect(trace: seq<System>, events: seq<Event>, ops: Ops, k: nat, i: nat, j: nat, key: Id)
    requires History(trace, events, ops) && k < |trace|
    requires var db := trace[k].db;
      && i < |db.admissions| && j < |db.admissions| && key in db.envelopes && IsDecisionEvidence(db.envelopes[key])
      && Carries(db, db.admissions[i], key) && Carries(db, db.admissions[j], key)
    ensures var db := trace[k].db;
      && db.admissions[i].effect == db.admissions[j].effect
      && db.admissions[i].effect in db.requests && ScopeBinds(db.envelopes[key], db.requests[db.admissions[i].effect])
  {
    hide Next, Enabled, Genesis, ScopeBinds;
    Reachable(trace, events, ops, k);
    AdmittedInScope(trace, events, ops, k, i, key);
  }

  /** The hold: an open incident on the effect, its target or a subject it binds admits nothing. */
  lemma HeldEffectIsNotAdmitted(db: Db, a: Attempt, op: OpSpec, now: int, others: bool, incident: Id, s: Subject)
    requires a.effect in db.requests && OpenIncident(db.envelopes, incident)
    requires s in db.envelopes[incident].subjects && Names(db.requests[a.effect], s)
    ensures !Ruled(db, a, op, now, others).Admit?
  {
    assert ScopeHeld(db.envelopes, db.requests[a.effect]);
  }

  lemma ReleaseStays(db: Db, db': Db, incident: Id)
    requires AppendOnly(db, db') && Released(db.envelopes, incident)
    ensures Released(db'.envelopes, incident)
  {
    var b :| b in db.envelopes && db.envelopes[b].kind.BreakGlass? && incident in db.envelopes[b].releases;
    assert b in db'.envelopes && db'.envelopes[b] == db.envelopes[b];
  }

  lemma HeldStepAddsNone(sys: System, ev: Event, ops: Ops, e: Id, incident: Id, s: Subject)
    requires RowsKeyed(sys.db) && Enabled(sys, ev, ops) && e in sys.db.requests
      && OpenIncident(sys.db.envelopes, incident)
    requires s in sys.db.envelopes[incident].subjects && Names(sys.db.requests[e], s)
    ensures Of(Next(sys, ev, ops).db.admissions, e) == Of(sys.db.admissions, e)
  {
    hide Ruled, Next, Constrained, ConstraintLeg;
    OnlyCommitsAdmit(sys, ev, ops);
    if Appends(sys, ev, ops) != [] {
      var a := sys.calls[ev.c].attempt;
      var op := ops[sys.db.requests[a.effect].kind];
      AdmissionNeeds(sys.db, a, op, ev.now, ev.others);
      var row := RulingOf(sys, ev, ops).row;
      assert row.effect != e by {
        if row.effect == e {
          HeldEffectIsNotAdmitted(sys.db, a, op, ev.now, ev.others, incident, s);
        }
      }
      OfAppend(sys.db.admissions, row, e);
    } else {
      assert sys.db.admissions + [] == sys.db.admissions;
    }
  }

  /** The incident is open in `db` and names a subject of the sealed effect `e`. */
  predicate Holds(db: Db, e: Id, incident: Id, s: Subject) {
    && e in db.requests && OpenIncident(db.envelopes, incident)
    && s in db.envelopes[incident].subjects && Names(db.requests[e], s)
  }

  lemma HoldWasOpen(db: Db, db': Db, e: Id, incident: Id, s: Subject)
    requires AppendOnly(db, db') && Holds(db', e, incident, s) && e in db.requests && incident in db.envelopes
    ensures Holds(db, e, incident, s)
  {
    if Released(db.envelopes, incident) {
      ReleaseStays(db, db', incident);
    }
  }

  lemma HeldOneStep(trace: seq<System>, events: seq<Event>, ops: Ops, k: nat, e: Id, incident: Id, s: Subject)
    requires History(trace, events, ops) && k < |events| && e in trace[k].db.requests
      && incident in trace[k].db.envelopes
    requires Holds(trace[k + 1].db, e, incident, s)
    ensures Holds(trace[k].db, e, incident, s) && Of(trace[k + 1].db.admissions, e) == Of(trace[k].db.admissions, e)
  {
    hide Enabled, Next, Genesis, Of, Holds;
    OnlyAppends(trace, events, ops, k, k + 1);
    HoldWasOpen(trace[k].db, trace[k + 1].db, e, incident, s);
    ReachableRows(trace, events, ops, k);
    HeldStepAddsNone(trace[k], events[k], ops, e, incident, s);
  }

  lemma HeldStepBack(trace: seq<System>, events: seq<Event>, ops: Ops, i: nat, j: nat, e: Id, incident: Id, s: Subject)
    requires History(trace, events, ops) && i < j < |trace| && e in trace[i].db.requests
      && incident in trace[i].db.envelopes
    requires Holds(trace[j].db, e, incident, s)
    ensures Holds(trace[j - 1].db, e, incident, s) && Of(trace[j].db.admissions, e) == Of(trace[j - 1].db.admissions, e)
  {
    hide Enabled, Next, Genesis;
    OnlyAppends(trace, events, ops, i, j - 1);
    HeldOneStep(trace, events, ops, j - 1, e, incident, s);
  }

  /** Main: from the seal of an incident to its break-glass release, no effect in its scope is admitted. */
  lemma {:induction false} OpenIncidentHolds(trace: seq<System>, events: seq<Event>, ops: Ops, i: nat, j: nat, e: Id,
      incident: Id, s: Subject)
    requires History(trace, events, ops) && i <= j < |trace| && e in trace[i].db.requests
      && incident in trace[i].db.envelopes
    requires Holds(trace[j].db, e, incident, s)
    ensures Of(trace[j].db.admissions, e) == Of(trace[i].db.admissions, e)
    decreases j
  {
    hide Enabled, Next, Genesis;
    if i < j {
      HeldStepBack(trace, events, ops, i, j, e, incident, s);
      OpenIncidentHolds(trace, events, ops, i, j - 1, e, incident, s);
    }
  }
}
