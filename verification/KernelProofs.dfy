/** Every event keeps the invariants of the store: one lemma per way a row is written. */
module KernelProofs {
  import opened Wrappers
  import opened Records
  import opened Sealing
  import opened Admitting
  import opened KernelRuns

  // ---------------------------------------------------------------- store growth

  /** Everything the invariants read stays, or gains rows under new keys. */
  ghost predicate Grows(db: Db, db': Db) {
    && db'.requests == db.requests && db'.members == db.members && db'.capabilities == db.capabilities
    && db'.admissions == db.admissions && db'.outcomes == db.outcomes
    && (forall k :: k in db.envelopes ==> k in db'.envelopes && db'.envelopes[k] == db.envelopes[k])
    && (forall k :: k in db.inputs ==> k in db'.inputs && db'.inputs[k] == db.inputs[k])
    && (forall k :: k in db.decisions ==> k in db'.decisions && db'.decisions[k] == db.decisions[k])
  }

  lemma GrowthKeepsInv(db: Db, db': Db, ops: Ops)
    requires DbInv(db, ops) && Grows(db, db')
    ensures DbInv(db', ops)
  {
    assert forall w :: CommittedEffect(db, w) == CommittedEffect(db', w);
    assert Memberships(db') by {
      forall e | e in db'.members ensures MemberProof(db', e) {
        assert MemberProof(db, e);
      }
    }
    assert AdmissionsJustified(db') by {
      forall i | 0 <= i < |db'.admissions| ensures Justified(db', db'.admissions[i]) {
        assert Justified(db, db.admissions[i]);
      }
    }
    assert DecisionsSingleUse(db') by {
      forall i, j, key |
        0 <= i < |db'.admissions| && 0 <= j < |db'.admissions| && db'.admissions[i].effect != db'.admissions[j].effect
        && Carries(db', db'.admissions[i], key) && Carries(db', db'.admissions[j], key) && key in db'.envelopes
        ensures !IsDecisionEvidence(db'.envelopes[key])
      {
        assert Justified(db, db.admissions[i]) && Justified(db, db.admissions[j]);
        assert Carries(db, db.admissions[i], key) && Carries(db, db.admissions[j], key);
      }
    }
    assert forall e :: IsNative(db, ops, e) == IsNative(db', ops, e);
  }

  // ---------------------------------------------------------------- seals

  lemma {:induction false} OfNone(rows: seq<Admission>, e: Id)
    requires forall i :: 0 <= i < |rows| ==> rows[i].effect != e
    ensures Of(rows, e) == []
  {
    if rows != [] {
      OfNone(rows[..|rows| - 1], e);
    }
  }

  lemma UnadmittedEffect(db: Db, ops: Ops, e: Id)
    requires DbInv(db, ops) && e !in db.requests
    ensures Of(db.admissions, e) == [] && e !in db.members && e !in db.capabilities
  {
    forall i | 0 <= i < |db.admissions| ensures db.admissions[i].effect != e {
      assert Justified(db, db.admissions[i]);
    }
    OfNone(db.admissions, e);
  }

  /** What a first seal proves about the run it becomes a member of. */
  lemma FirstSealProves(db: Db, r: Request, tuple: Option<Tuple>, header: Presented)
    requires db.config.v2 ==> r.effect in db.allocations
    requires FirstSeal(db, r, tuple, header).Done? && FirstSeal(db, r, tuple, header).value.Some?
    requires forall k :: k in Of(db.admissions, r.effect) ==> false
    requires r.effect !in db.capabilities
    ensures var w := FirstSeal(db, r, tuple, header).value.value;
      if w == r.effect then r.kind.WorkStart?
      else
        && w in db.capabilities && db.capabilities[w].holder == r.requester && !r.kind.WorkStart?
        && CommittedEffect(db, w) && header == Decoded(db.capabilities[w].secret)
  {
    var origin := RunOrigin(r, db.config);
    if !origin.value {
      var w := RunMembership(db, r, header).value.value;
      var rows := Of(db.admissions, w);
      assert HasOutcome(db.outcomes, rows[|rows| - 1], Committed);
    }
  }

  lemma FirstSealIs(db: Db, call: SealCall)
    requires Adjudicated(db, call).First?
    ensures call.draft.effect !in db.requests && (db.config.v2 ==> call.draft.effect in db.allocations)
    ensures FirstSeal(db, call.draft, call.tuple, call.header) == Done(Adjudicated(db, call).proven)
  {
    hide FirstSeal;
  }

  lemma SealKeepsInv(db: Db, call: SealCall, incident: Id, ops: Ops)
    requires DbInv(db, ops) && incident !in db.envelopes
    ensures DbInv(AfterSeal(db, call, incident), ops)
  {
    hide Adjudicated, FirstSeal, Memberships, Capabilities, Ordinals, SupersededVoid, DecisionsSingleUse;
    match Adjudicated(db, call)
    case Rejected(_) =>
    case Existing =>
    case Conflict => GrowthKeepsInv(db, AfterSeal(db, call, incident), ops);
    case First(proven) =>
      FirstSealIs(db, call);
      UnadmittedEffect(db, ops, call.draft.effect);
      if proven.Some? {
        FirstSealProves(db, call.draft, call.tuple, call.header);
      }
      InsertKeepsInv(db, call.draft, proven, ops);
  }

  predicate Insertable(db: Db, r: Request, proven: Option<Id>) {
    && r.effect !in db.requests && r.effect !in db.members && r.effect !in db.capabilities
    && Of(db.admissions, r.effect) == []
    && (proven.Some? && proven.value == r.effect ==> r.kind.WorkStart?)
    && (proven.Some? && proven.value != r.effect ==>
          proven.value in db.capabilities && db.capabilities[proven.value].holder == r.requester
          && !r.kind.WorkStart? && CommittedEffect(db, proven.value))
  }

  lemma InsertKeepsMemberships(db: Db, r: Request, proven: Option<Id>)
    requires RowsKeyed(db) && Memberships(db) && Insertable(db, r, proven)
    ensures RowsKeyed(Inserted(db, r, proven)) && Memberships(Inserted(db, r, proven))
  {
    var db' := Inserted(db, r, proven);
    assert RowsKeyed(db');
    forall e | e in db'.members ensures MemberProof(db', e) {
      if e != r.effect {
        assert MemberProof(db, e);
        assert CommittedEffect(db, db.members[e]) == CommittedEffect(db', db.members[e]);
      } else {
        assert CommittedEffect(db, proven.value) == CommittedEffect(db', proven.value);
      }
    }
  }

  lemma InsertKeepsAdmissions(db: Db, r: Request, proven: Option<Id>, ops: Ops)
    requires AdmissionsJustified(db) && DecisionsSingleUse(db) && SupersededVoid(db, ops) && Insertable(db, r, proven)
    ensures AdmissionsJustified(Inserted(db, r, proven)) && DecisionsSingleUse(Inserted(db, r, proven))
    ensures SupersededVoid(Inserted(db, r, proven), ops)
  {
    var db' := Inserted(db, r, proven);
    forall i | 0 <= i < |db'.admissions| ensures Justified(db', db'.admissions[i]) {
      assert Justified(db, db.admissions[i]);
    }
    assert forall a, key :: Carries(db', a, key) == Carries(db, a, key);
    forall e ensures IsNative(db', ops, e) || VoidBeforeLast(db'.admissions, db'.outcomes, e) {
      assert IsNative(db, ops, e) || VoidBeforeLast(db.admissions, db.outcomes, e);
    }
  }

  lemma InsertKeepsCapabilities(db: Db, r: Request, proven: Option<Id>)
    requires RowsKeyed(db) && Capabilities(db) && Insertable(db, r, proven)
    requires RowsKeyed(Inserted(db, r, proven))
    ensures Capabilities(Inserted(db, r, proven))
  {}

  lemma InsertKeepsInv(db: Db, r: Request, proven: Option<Id>, ops: Ops)
    requires DbInv(db, ops) && Insertable(db, r, proven)
    ensures DbInv(Inserted(db, r, proven), ops)
  {
    InsertKeepsMemberships(db, r, proven);
    InsertKeepsCapabilities(db, r, proven);
    InsertKeepsAdmissions(db, r, proven, ops);
  }

  // ---------------------------------------------------------------- admissions

  predicate Extends(rows: seq<Admission>, a: Admission) {
    var of := Of(rows, a.effect);
    if of == [] then a.ordinal == 1 && a.prior == None
    else a.prior == Some(of[|of| - 1]) && a.ordinal == rows[of[|of| - 1]].ordinal + 1
  }

  lemma AppendKeepsChain(rows: seq<Admission>, a: Admission, e: Id)
    requires Chain(rows, e) && Extends(rows, a)
    ensures Chain(rows + [a], e)
  {
    hide Of;
    var of, rows' := Of(rows, e), rows + [a];
    OfAppend(rows, a, e);
    forall k | 0 <= k < |Of(rows', e)| ensures ChainedAt(rows', e, k) {
      if k < |of| {
        assert ChainedAt(rows, e, k) && rows'[of[k]] == rows[of[k]];
      } else {
        assert rows'[Of(rows', e)[k]] == a;
        assert k > 0 ==> ChainedAt(rows, e, k - 1);
      }
    }
  }

  lemma CommittedStays(db: Db, db': Db, w: Id)
    requires CommittedEffect(db, w) && db.admissions <= db'.admissions && db.outcomes <= db'.outcomes
    ensures CommittedEffect(db', w)
  {
    var row :| 0 <= row < |db.admissions| && db.admissions[row].effect == w && HasOutcome(db.outcomes, row, Committed);
    OutcomeStays(db.outcomes, db'.outcomes, row, Committed);
    assert db'.admissions[row].effect == w;
  }

  lemma OutcomeStays(outcomes: seq<Outcome>, more: seq<Outcome>, row: nat, v: Verdict)
    requires HasOutcome(outcomes, row, v) && outcomes <= more
    ensures HasOutcome(more, row, v)
  {
    var k :| 0 <= k < |outcomes| && outcomes[k].admission == row && outcomes[k].result == v;
    assert more[k].admission == row && more[k].result == v;
  }

  /** An admission the transaction could append: the facts of `AdmissionNeeds` the invariants use. */
  ghost predicate Admissible(db: Db, a: Admission, stamped: Option<Ref>, ops: Ops) {
    && a.effect in db.requests && Justified(db, a) && Extends(db.admissions, a)
    && (Minting(db, db.requests[a.effect]) ==> stamped == Some(db.requests[a.effect].requester))
    && (var of := Of(db.admissions, a.effect);
        of != [] && !IsNative(db, ops, a.effect) ==> HasOutcome(db.outcomes, of[|of| - 1], NoEffectConfirmed))
    && forall key :: key in db.inputs[a.input].evidence && IsDecisionEvidence(db.envelopes[key]) ==>
      !UsedElsewhere(db, a.effect, key)
  }

  lemma RuledIsAdmissible(db: Db, a: Attempt, op: OpSpec, now: int, others: bool, ops: Ops)
    requires DbInv(db, ops) && Ruled(db, a, op, now, others).Admit?
    requires db.requests[a.effect].kind in ops && ops[db.requests[a.effect].kind] == op
    requires Minting(db, db.requests[a.effect]) ==> a.stamped == Some(db.requests[a.effect].requester)
    ensures Admissible(db, Ruled(db, a, op, now, others).row, a.stamped, ops)
  {
    hide Ruled, Constrained, ConstraintLeg, WorkBudget, MembershipProven, HumanLegs;
    AdmissionNeeds(db, a, op, now, others);
    var row := Ruled(db, a, op, now, others).row;
    var keys := db.inputs[row.input].evidence;
    forall key | key in keys && IsDecisionEvidence(db.envelopes[key]) ensures !UsedElsewhere(db, a.effect, key) {
      assert HumanLeg(db, db.requests[a.effect], key).None?;
    }
  }

  lemma AppendKeepsMemberships(db: Db, a: Admission, stamped: Option<Ref>, secret: Secret, ops: Ops)
    requires RowsKeyed(db) && Memberships(db) && Capabilities(db) && Admissible(db, a, stamped, ops)
    ensures RowsKeyed(Appended(db, a, stamped, secret)) && Memberships(Appended(db, a, stamped, secret))
  {
    hide Of, Extends, Justified, UsedElsewhere, CommittedEffect;
    var db' := Appended(db, a, stamped, secret);
    assert RowsKeyed(db');
    forall e | e in db'.members ensures MemberProof(db', e) {
      assert MemberProof(db, e);
      if db.members[e] != e {
        CommittedStays(db, db', db.members[e]);
      }
    }
  }

  lemma AppendKeepsCapabilities(db: Db, a: Admission, stamped: Option<Ref>, secret: Secret, ops: Ops)
    requires RowsKeyed(db) && Memberships(db) && Capabilities(db) && Ordinals(db.admissions)
      && Admissible(db, a, stamped, ops)
    requires RowsKeyed(Appended(db, a, stamped, secret))
    ensures Capabilities(Appended(db, a, stamped, secret))
  {
    hide Of, Justified, UsedElsewhere, CommittedEffect, IsNative;
    var db' := Appended(db, a, stamped, secret);
    assert db.requests[a.effect].effect == a.effect;
    forall w ensures w in db'.capabilities <==> w in db'.members && db'.members[w] == w && Of(db'.admissions, w) != [] {
      OfAppend(db.admissions, a, w);
      if w in db.members && db.members[w] == w {
        assert MemberProof(db, w);
      }
      if w == a.effect && Of(db.admissions, w) != [] {
        assert Chain(db.admissions, w) && ChainedAt(db.admissions, w, |Of(db.admissions, w)| - 1);
      }
    }
  }

  lemma AppendKeepsJustified(db: Db, a: Admission, stamped: Option<Ref>, secret: Secret, ops: Ops)
    requires AdmissionsJustified(db) && Admissible(db, a, stamped, ops)
    ensures AdmissionsJustified(Appended(db, a, stamped, secret))
  {
    var db' := Appended(db, a, stamped, secret);
    forall i | 0 <= i < |db'.admissions| ensures Justified(db', db'.admissions[i]) {
      assert db'.admissions[i] == if i < |db.admissions| then db.admissions[i] else a;
      assert Justified(db, db'.admissions[i]);
    }
  }

  lemma AppendKeepsVoid(rows: seq<Admission>, outcomes: seq<Outcome>, a: Admission, e: Id)
    requires VoidBeforeLast(rows, outcomes, e)
    requires var of := Of(rows, e); e == a.effect && of != [] ==> HasOutcome(outcomes, of[|of| - 1], NoEffectConfirmed)
    ensures VoidBeforeLast(rows + [a], outcomes, e)
  {
    hide Of, HasOutcome;
    OfAppend(rows, a, e);
  }

  lemma AppendKeepsSingleUse(db: Db, a: Admission, stamped: Option<Ref>, secret: Secret, ops: Ops)
    requires DbInv(db, ops) && Admissible(db, a, stamped, ops)
    ensures DecisionsSingleUse(Appended(db, a, stamped, secret))
  {
    var db' := Appended(db, a, stamped, secret);
    forall i, j, key |
      0 <= i < |db'.admissions| && 0 <= j < |db'.admissions| && db'.admissions[i].effect != db'.admissions[j].effect
      && Carries(db', db'.admissions[i], key) && Carries(db', db'.admissions[j], key) && key in db'.envelopes
      ensures !IsDecisionEvidence(db'.envelopes[key])
    {
      assert Carries(db, db'.admissions[i], key) && Carries(db, db'.admissions[j], key);
      var n := |db.admissions|;
      if i < n && j < n {
        assert db'.admissions[i] == db.admissions[i] && db'.admissions[j] == db.admissions[j];
      } else if i == n {
        assert db'.admissions[j] == db.admissions[j];
      } else {
        assert db'.admissions[i] == db.admissions[i];
      }
    }
  }

  lemma AppendKeepsInv(db: Db, a: Admission, stamped: Option<Ref>, secret: Secret, ops: Ops)
    requires DbInv(db, ops) && Admissible(db, a, stamped, ops)
    ensures DbInv(Appended(db, a, stamped, secret), ops)
  {
    forall e ensures Chain(db.admissions + [a], e) {
      assert Chain(db.admissions, e);
      AppendKeepsChain(db.admissions, a, e);
    }
    AppendKeepsMemberships(db, a, stamped, secret, ops);
    AppendKeepsCapabilities(db, a, stamped, secret, ops);
    AppendKeepsJustified(db, a, stamped, secret, ops);
    forall e | !IsNative(db, ops, e) ensures VoidBeforeLast(db.admissions + [a], db.outcomes, e) {
      AppendKeepsVoid(db.admissions, db.outcomes, a, e);
    }
    assert forall e :: IsNative(db, ops, e) == IsNative(Appended(db, a, stamped, secret), ops, e);
    AppendKeepsSingleUse(db, a, stamped, secret, ops);
  }

  // ---------------------------------------------------------------- outcomes

  function WithOutcome(db: Db, o: Outcome): Db {
    db.(outcomes := db.outcomes + [o])
  }

  lemma OutcomeKeepsMemberships(db: Db, o: Outcome)
    requires RowsKeyed(db) && Memberships(db)
    ensures Memberships(WithOutcome(db, o))
  {
    var db' := WithOutcome(db, o);
    forall e | e in db'.members ensures MemberProof(db', e) {
      assert MemberProof(db, e);
      if db.members[e] != e {
        CommittedStays(db, db', db.members[e]);
      }
    }
  }

  lemma OutcomeKeepsVoid(db: Db, o: Outcome, ops: Ops)
    requires SupersededVoid(db, ops)
    ensures SupersededVoid(WithOutcome(db, o), ops)
  {
    var db' := WithOutcome(db, o);
    forall e ensures IsNative(db', ops, e) || VoidBeforeLast(db'.admissions, db'.outcomes, e) {
      if !IsNative(db', ops, e) {
        assert !IsNative(db, ops, e);
        forall k | 0 <= k < |Of(db.admissions, e)| - 1
          ensures HasOutcome(db'.outcomes, Of(db.admissions, e)[k], NoEffectConfirmed)
        {
          OutcomeStays(db.outcomes, db'.outcomes, Of(db.admissions, e)[k], NoEffectConfirmed);
        }
      }
    }
  }

  lemma OutcomeKeepsInv(db: Db, o: Outcome, ops: Ops)
    requires DbInv(db, ops) && o.admission < |db.admissions|
    ensures DbInv(WithOutcome(db, o), ops)
  {
    OutcomeKeepsMemberships(db, o);
    OutcomeKeepsVoid(db, o, ops);
    var db' := WithOutcome(db, o);
    forall i | 0 <= i < |db'.admissions| ensures Justified(db', db'.admissions[i]) {
      assert Justified(db, db.admissions[i]);
    }
    assert forall a, key :: Carries(db', a, key) == Carries(db, a, key);
  }

  lemma WriteGrows(sys: System, ev: Event, ops: Ops)
    requires Enabled(sys, ev, ops) && Writes(ev)
    ensures Grows(sys.db, Next(sys, ev, ops).db)
  {
    hide Ruled, AfterAdmit, AfterSeal, PreLock, Truthful;
  }

  lemma DbStepKeepsInv(sys: System, ev: Event, ops: Ops)
    requires Inv(sys, ops) && Enabled(sys, ev, ops)
    ensures DbInv(Next(sys, ev, ops).db, ops)
  {
    hide Ruled, AfterAdmit, AfterSeal, Adjudicated, RowsKeyed, Memberships, Capabilities, Ordinals,
         SupersededVoid, DecisionsSingleUse, PreLock, GradeAnswer, GradeProbe, Truthful, Observations,
         TargetSound;
    match ev
    case Seal(call, incident) => SealKeepsInv(sys.db, call, incident, ops);
    case Commit(c, now, others, secret, incident) => CommitKeepsInv(sys, c, now, others, secret, incident, ops);
    case Expire(c) =>
      assert CallSound(sys, sys.calls[c]);
      OutcomeKeepsInv(sys.db, Outcome(sys.calls[c].row, Unknown, false), ops);
    case Report(c, answer) =>
      var row := sys.calls[c].row;
      OutcomeKeepsInv(sys.db, Outcome(row,
        GradeAnswer(answer, ops[sys.db.requests[sys.db.admissions[row].effect].kind]), false), ops);
    case Reconcile(row, probe) => OutcomeKeepsInv(sys.db, Outcome(row, GradeProbe(probe), true), ops);
    case _ =>
      if Writes(ev) { WriteGrows(sys, ev, ops); GrowthKeepsInv(sys.db, Next(sys, ev, ops).db, ops); }
  }

  lemma AdmitKeepsDbInv(db: Db, a: Attempt, op: OpSpec, now: int, others: bool, secret: Secret, incident: Id, ops: Ops)
    requires DbInv(db, ops) && incident !in db.envelopes && a.effect in db.requests
    requires db.requests[a.effect].kind in ops && ops[db.requests[a.effect].kind] == op
    requires Minting(db, db.requests[a.effect]) ==> a.stamped == Some(db.requests[a.effect].requester)
    ensures DbInv(AfterAdmit(db, a, op, now, others, secret, incident), ops)
  {
    hide Ruled, DbInv, Minting;
    match Ruled(db, a, op, now, others)
    case Admit(row) =>
      RuledIsAdmissible(db, a, op, now, others, ops);
      AppendKeepsInv(db, row, a.stamped, secret, ops);
    case Refuse(reason) =>
      if reason == UnsupportedConstraint {
        GrowthKeepsInv(db, db.(envelopes := db.envelopes[incident := IncidentOn(db.requests[a.effect])]), ops);
      }
    case Abort =>
  }

  lemma CommitKeepsInv(sys: System, c: nat, now: int, others: bool, secret: Secret, incident: Id, ops: Ops)
    requires DbInv(sys.db, ops) && CallsSound(sys) && Enabled(sys, Commit(c, now, others, secret, incident), ops)
    ensures DbInv(CommitStep(sys, c, now, others, secret, incident, ops).db, ops)
  {
    assert CallSound(sys, sys.calls[c]);
    var a := sys.calls[c].attempt;
    AdmitKeepsDbInv(sys.db, a, ops[sys.db.requests[a.effect].kind], now, others, secret, incident, ops);
  }
}
