/** The guarantees of the effect kernel, over every history of the state machine. */
module KernelTheorems {
  import opened Wrappers
  import opened Records
  import opened Sealing
  import opened Admitting
  import opened KernelRuns
  import opened KernelProofs

  lemma SealAppendsOnly(db: Db, call: SealCall, incident: Id)
    requires RowsKeyed(db) && incident !in db.envelopes
    ensures AppendOnly(db, AfterSeal(db, call, incident))
    ensures AfterSeal(db, call, incident).outcomes == db.outcomes
      && AfterSeal(db, call, incident).admissions == db.admissions
  {
    hide Adjudicated, AppendOnly, RowsKeyed;
    match Adjudicated(db, call)
    case Rejected(_) => NothingAppended(db);
    case Existing => NothingAppended(db);
    case Conflict => SubmitAppendsOnly(db, incident, IncidentOn(call.draft));
    case First(proven) =>
      FirstSealIsNew(db, call);
      InsertAppendsOnly(db, call.draft, proven);
  }

  lemma SubmitAppendsOnly(db: Db, key: Id, envelope: Envelope)
    requires key !in db.envelopes
    ensures AppendOnly(db, db.(envelopes := db.envelopes[key := envelope]))
  {}

  lemma FirstSealIsNew(db: Db, call: SealCall)
    requires Adjudicated(db, call).First?
    ensures call.draft.effect !in db.requests
  {}

  lemma InsertAppendsOnly(db: Db, r: Request, proven: Option<Id>)
    requires RowsKeyed(db) && r.effect !in db.requests
    ensures AppendOnly(db, Inserted(db, r, proven))
  {}

  lemma AppendedAppendsOnly(db: Db, row: Admission, stamped: Option<Ref>, secret: Secret)
    requires row.effect in db.requests
    ensures AppendOnly(db, Appended(db, row, stamped, secret))
  {
    hide Mints;
  }

  lemma RuledOnSealedRequest(db: Db, a: Attempt, op: OpSpec, now: int, others: bool)
    ensures var ruling := Ruled(db, a, op, now, others);
      && (ruling.Admit? ==> ruling.row.effect == a.effect && a.effect in db.requests)
      && (ruling == Refuse(UnsupportedConstraint) ==> a.effect in db.requests)
  {
    hide EvidenceLeg, Constrained, NextOrdinal, MembershipProven;
  }

  lemma AdmitAppendsOnly(db: Db, a: Attempt, op: OpSpec, now: int, others: bool, secret: Secret, incident: Id)
    requires incident !in db.envelopes
    ensures var db' := AfterAdmit(db, a, op, now, others, secret, incident);
      && AppendOnly(db, db') && db'.outcomes == db.outcomes && db'.requests == db.requests && db'.members == db.members
      && db'.admissions == db.admissions + (if Ruled(db, a, op, now, others).Admit?
        then [Ruled(db, a, op, now, others).row] else [])
  {
    hide Ruled, AppendOnly, Mints, IncidentOn;
    RuledOnSealedRequest(db, a, op, now, others);
    match Ruled(db, a, op, now, others)
    case Abort => NothingAppended(db);
    case Refuse(reason) =>
      NothingAppended(db);
      if reason == UnsupportedConstraint {
        SubmitAppendsOnly(db, incident, IncidentOn(db.requests[a.effect]));
      }
    case Admit(row) => AppendedAppendsOnly(db, row, a.stamped, secret);
  }

  lemma WriteAppendsOnly(sys: System, ev: Event, ops: Ops)
    requires Enabled(sys, ev, ops) && Writes(ev)
    ensures AppendOnly(sys.db, Next(sys, ev, ops).db)
  {
    hide Ruled, AfterAdmit, AfterSeal, PreLock, Truthful;
  }

  lemma OutcomeAppendsOnly(db: Db, o: Outcome)
    ensures AppendOnly(db, db.(outcomes := db.outcomes + [o]))
  {}

  lemma StepAppendsOnly(sys: System, ev: Event, ops: Ops)
    requires RowsKeyed(sys.db) && Enabled(sys, ev, ops)
    ensures AppendOnly(sys.db, Next(sys, ev, ops).db)
  {
    hide Ruled, AfterAdmit, AfterSeal, PreLock, GradeAnswer, GradeProbe, Truthful, RowsKeyed, AppendOnly;
    if Writes(ev) {
      WriteAppendsOnly(sys, ev, ops);
    } else {
      match ev
      case Seal(call, incident) => SealAppendsOnly(sys.db, call, incident);
      case Commit(c, now, others, secret, incident) =>
        var a := sys.calls[c].attempt;
        AdmitAppendsOnly(sys.db, a, ops[sys.db.requests[a.effect].kind], now, others, secret, incident);
      case Expire(c) => OutcomeAppendsOnly(sys.db, Outcome(sys.calls[c].row, Unknown, false));
      case Report(c, answer) =>
        var row := sys.calls[c].row;
        OutcomeAppendsOnly(sys.db, Outcome(row,
          GradeAnswer(answer, ops[sys.db.requests[sys.db.admissions[row].effect].kind]), false));
      case Reconcile(row, probe) => OutcomeAppendsOnly(sys.db, Outcome(row, GradeProbe(probe), true));
      case _ => NothingAppended(sys.db);
    }
  }

  // ---------------------------------------------------------------- the target and the calls

  lemma ActedStays(sys: System, sys': System, e: Id)
    requires EffectActed(sys, e)
    requires sys.db.admissions <= sys'.db.admissions && sys.target.dispatches <= sys'.target.dispatches
    requires sys.target.acted <= sys'.target.acted
    ensures EffectActed(sys', e)
  {
    var d :| 0 <= d < |sys.target.dispatches| && d in sys.target.acted
      && sys.target.dispatches[d] < |sys.db.admissions| && sys.db.admissions[sys.target.dispatches[d]].effect == e;
    assert sys'.target.dispatches[d] == sys.target.dispatches[d];
    assert sys'.db.admissions[sys.target.dispatches[d]] == sys.db.admissions[sys.target.dispatches[d]];
  }

  /** Anything but a new outcome row leaves every observation as good as it was. */
  lemma QuietKeepsObservations(sys: System, sys': System)
    requires AdmissionsJustified(sys.db) && Observations(sys)
    requires sys'.db.outcomes == sys.db.outcomes && sys.db.admissions <= sys'.db.admissions
    requires sys.target.dispatches <= sys'.target.dispatches && sys.target.acted <= sys'.target.acted
    requires sys.target.voided <= sys'.target.voided
    ensures Observations(sys')
  {
    forall i | 0 <= i < |sys'.db.outcomes| && sys.db.outcomes[i].result == Committed
      ensures EffectActed(sys', sys'.db.admissions[sys.db.outcomes[i].admission].effect)
    {
      ActedStays(sys, sys', sys.db.admissions[sys.db.outcomes[i].admission].effect);
    }
  }

  lemma ObservedKeepsTruth(sys: System, row: nat, v: Verdict, byReconciler: bool)
    requires AdmissionsJustified(sys.db) && Observations(sys) && TargetSound(sys.target, |sys.db.admissions|)
    requires row < |sys.db.admissions| && Truthful(sys, row, v)
    ensures var sys' := Observed(sys, row, v, byReconciler);
      && (forall i :: 0 <= i < |sys'.db.outcomes| ==> sys'.db.outcomes[i].admission < |sys'.db.admissions|)
      && Observations(sys') && TargetSound(sys'.target, |sys'.db.admissions|)
  {
    var sys' := Observed(sys, row, v, byReconciler);
    forall i | 0 <= i < |sys'.db.outcomes| && sys'.db.outcomes[i].result == Committed
      ensures EffectActed(sys', sys'.db.admissions[sys'.db.outcomes[i].admission].effect)
    {
      var e := sys.db.admissions[sys'.db.outcomes[i].admission].effect;
      assert i < |sys.db.outcomes| ==> sys'.db.outcomes[i] == sys.db.outcomes[i];
      ActedStays(sys, sys', e);
    }
  }

  predicate Observes(ev: Event) {
    ev.Expire? || ev.Report? || ev.Reconcile?
  }

  lemma ObservationKeepsTarget(sys: System, ev: Event, ops: Ops)
    requires Inv(sys, ops) && Enabled(sys, ev, ops) && Observes(ev)
    ensures AdmissionsJustified(Next(sys, ev, ops).db) ==> Observations(Next(sys, ev, ops))
    ensures TargetSound(Next(sys, ev, ops).target, |Next(sys, ev, ops).db.admissions|)
  {
    hide Ruled, AfterAdmit, AfterSeal, Adjudicated, Memberships, Capabilities, Ordinals, SupersededVoid,
         DecisionsSingleUse;
    if ev.Expire? {
      assert CallSound(sys, sys.calls[ev.c]);
      ObservedKeepsTruth(sys, sys.calls[ev.c].row, Unknown, false);
    } else if ev.Report? {
      var row := sys.calls[ev.c].row;
      ObservedKeepsTruth(sys, row, GradeAnswer(ev.answer,
        ops[sys.db.requests[sys.db.admissions[row].effect].kind]), false);
    } else {
      ObservedKeepsTruth(sys, ev.row, GradeProbe(ev.probe), true);
    }
  }

  lemma QuietStep(sys: System, ev: Event, ops: Ops)
    requires Inv(sys, ops) && Enabled(sys, ev, ops) && !Observes(ev)
    ensures var sys' := Next(sys, ev, ops);
      && sys'.db.outcomes == sys.db.outcomes && sys'.target.voided == sys.target.voided
      && sys.target.dispatches <= sys'.target.dispatches && sys.target.acted <= sys'.target.acted
      && TargetSound(sys'.target, |sys.db.admissions|)
  {
    hide Ruled, AfterAdmit, AfterSeal, Adjudicated, Observations, Memberships, Capabilities, Ordinals,
         SupersededVoid, DecisionsSingleUse;
    match ev
    case Dispatch(c) => assert CallSound(sys, sys.calls[c]);
    case Seal(call, incident) => SealAppendsOnly(sys.db, call, incident);
    case Commit(c, now, others, secret, incident) =>
      var a := sys.calls[c].attempt;
      AdmitAppendsOnly(sys.db, a, ops[sys.db.requests[a.effect].kind], now, others, secret, incident);
    case _ =>
  }

  lemma StepKeepsTarget(sys: System, ev: Event, ops: Ops)
    requires Inv(sys, ops) && Enabled(sys, ev, ops)
    requires AdmissionsJustified(Next(sys, ev, ops).db)
    ensures Observations(Next(sys, ev, ops))
      && TargetSound(Next(sys, ev, ops).target, |Next(sys, ev, ops).db.admissions|)
  {
    hide Next, Enabled, Memberships, Capabilities, Ordinals, SupersededVoid, DecisionsSingleUse;
    if Observes(ev) {
      ObservationKeepsTarget(sys, ev, ops);
    } else {
      QuietStep(sys, ev, ops);
      StepAppendsOnly(sys, ev, ops);
      QuietKeepsObservations(sys, Next(sys, ev, ops));
    }
  }

  lemma CallStaysSound(sys: System, sys': System, call: Call)
    requires CallSound(sys, call) && AppendOnly(sys.db, sys'.db) && RowsKeyed(sys.db)
    requires call.Admitted? ==> call.row !in sys'.target.dispatches
    ensures CallSound(sys', call)
  {}

  /** A row waiting to be dispatched is handed to the target only by the call that waits for it. */
  lemma WaitingRowsStay(sys: System, ev: Event, ops: Ops, c: nat)
    requires CallsSound(sys) && Enabled(sys, ev, ops)
    requires c in sys.calls && c in Next(sys, ev, ops).calls && Next(sys, ev, ops).calls[c] == sys.calls[c]
      && sys.calls[c].Admitted?
    ensures sys.calls[c].row !in Next(sys, ev, ops).target.dispatches
  {
    hide Ruled, AfterAdmit, AfterSeal, Adjudicated, PreLock;
    assert CallSound(sys, sys.calls[c]);
  }

  lemma WaitingRowsDiffer(sys: System, ev: Event, ops: Ops, c: nat, d: nat)
    requires CallsSound(sys) && Enabled(sys, ev, ops)
    requires c in Next(sys, ev, ops).calls && d in Next(sys, ev, ops).calls && c != d
    requires Next(sys, ev, ops).calls[c].Admitted? && Next(sys, ev, ops).calls[d].Admitted?
    ensures Next(sys, ev, ops).calls[c].row != Next(sys, ev, ops).calls[d].row
  {
    hide Ruled, AfterAdmit, AfterSeal, Adjudicated, PreLock;
    assert c in sys.calls ==> CallSound(sys, sys.calls[c]);
    assert d in sys.calls ==> CallSound(sys, sys.calls[d]);
  }

  lemma StepKeepsCalls(sys: System, ev: Event, ops: Ops)
    requires Inv(sys, ops) && Enabled(sys, ev, ops)
    ensures CallsSound(Next(sys, ev, ops))
  {
    hide Next, Enabled, CallSound, Observations, RowsKeyed, AppendOnly, Memberships, Capabilities, Ordinals,
         SupersededVoid, DecisionsSingleUse;
    var sys' := Next(sys, ev, ops);
    StepAppendsOnly(sys, ev, ops);
    forall c | c in sys'.calls ensures CallSound(sys', sys'.calls[c]) {
      if c in sys.calls && sys'.calls[c] == sys.calls[c] {
        assert CallSound(sys, sys.calls[c]);
        if sys.calls[c].Admitted? {
          WaitingRowsStay(sys, ev, ops, c);
        }
        CallStaysSound(sys, sys', sys.calls[c]);
      } else {
        NewCallIsSound(sys, ev, ops, c);
      }
    }
    forall c, d | c in sys'.calls && d in sys'.calls && c != d && sys'.calls[c].Admitted? && sys'.calls[d].Admitted?
      ensures sys'.calls[c].row != sys'.calls[d].row
    {
      WaitingRowsDiffer(sys, ev, ops, c, d);
    }
  }

  lemma NewCallIsSound(sys: System, ev: Event, ops: Ops, c: nat)
    requires Inv(sys, ops) && Enabled(sys, ev, ops)
    requires c in Next(sys, ev, ops).calls && !(c in sys.calls && Next(sys, ev, ops).calls[c] == sys.calls[c])
    ensures CallSound(Next(sys, ev, ops), Next(sys, ev, ops).calls[c])
  {
    hide Ruled, AfterAdmit, AfterSeal, Adjudicated;
    match ev
    case Lock(d) => assert CallSound(sys, sys.calls[d]);
    case Dispatch(d) => assert CallSound(sys, sys.calls[d]);
    case Commit(d, now, others, secret, incident) =>
      var a := sys.calls[d].attempt;
      AdmitAppendsOnly(sys.db, a, ops[sys.db.requests[a.effect].kind], now, others, secret, incident);
    case _ =>
  }

  lemma StepKeepsInv(sys: System, ev: Event, ops: Ops)
    requires Inv(sys, ops) && Enabled(sys, ev, ops)
    ensures Inv(Next(sys, ev, ops), ops)
  {
    DbStepKeepsInv(sys, ev, ops);
    StepKeepsTarget(sys, ev, ops);
    StepKeepsCalls(sys, ev, ops);
  }

  // ---------------------------------------------------------------- histories

  lemma GenesisIsSound(sys: System, ops: Ops)
    requires Genesis(sys)
    ensures Inv(sys, ops)
  {
    assert forall e :: Of(sys.db.admissions, e) == [];
  }

  lemma {:induction false} Reachable(trace: seq<System>, events: seq<Event>, ops: Ops, k: nat)
    requires History(trace, events, ops) && k < |trace|
    ensures Inv(trace[k], ops)
  {
    hide Enabled, Next, Genesis, Inv;
    if k > 0 {
      Reachable(trace, events, ops, k - 1);
      StepKeepsInv(trace[k - 1], events[k - 1], ops);
    } else {
      GenesisIsSound(trace[0], ops);
    }
  }

  lemma ReachableRows(trace: seq<System>, events: seq<Event>, ops: Ops, k: nat)
    requires History(trace, events, ops) && k < |trace|
    ensures RowsKeyed(trace[k].db)
  {
    hide Enabled, Next, Genesis, RowsKeyed, Observations, TargetSound, CallsSound;
    Reachable(trace, events, ops, k);
  }

  lemma {:induction false} OnlyAppends(trace: seq<System>, events: seq<Event>, ops: Ops, i: nat, j: nat)
    requires History(trace, events, ops) && i <= j < |trace|
    ensures AppendOnly(trace[i].db, trace[j].db)
    decreases j
  {
    hide Enabled, Next, Genesis, AppendOnly, RowsKeyed;
    if i < j {
      OnlyAppends(trace, events, ops, i, j - 1);
      ReachableRows(trace, events, ops, j - 1);
      StepAppendsOnly(trace[j - 1], events[j - 1], ops);
      AppendOnlyComposes(trace[i].db, trace[j - 1].db, trace[j].db);
    } else {
      NothingAppended(trace[i].db);
    }
  }

  lemma NothingAppended(db: Db)
    ensures AppendOnly(db, db)
  {}

  lemma AppendOnlyComposes(a: Db, b: Db, c: Db)
    requires AppendOnly(a, b) && AppendOnly(b, c)
    ensures AppendOnly(a, c)
  {}

  // ---------------------------------------------------------------- the run capability

  /**
   * Main: a capability row exists exactly for the adjudicated origins whose first dispatch was admitted,
   * held by their sealed requester; every other membership was proved against such a row, by its holder,
   * after the run's WORK_START had landed.
   */
  lemma RunCapabilityProtocol(trace: seq<System>, events: seq<Event>, ops: Ops, k: nat)
    requires History(trace, events, ops) && k < |trace|
    ensures var db := trace[k].db;
      && (forall w :: w in db.capabilities <==>
            && w in db.members && db.members[w] == w
            && exists row ::
                 0 <= row < |db.admissions| && db.admissions[row].effect == w && db.admissions[row].ordinal == 1)
      && (forall w :: w in db.capabilities ==>
            w in db.requests && db.requests[w].kind.WorkStart? && db.capabilities[w].holder == db.requests[w].requester)
      && (forall e :: e in db.members && db.members[e] != e ==>
            && e in db.requests && !db.requests[e].kind.WorkStart?
            && db.members[e] in db.capabilities && db.capabilities[db.members[e]].holder == db.requests[e].requester
            && CommittedEffect(db, db.members[e]))
  {
    Reachable(trace, events, ops, k);
    var db := trace[k].db;
    forall e | e in db.members ensures MemberProof(db, e) {}
    forall w | Of(db.admissions, w) != []
      ensures exists row ::
        0 <= row < |db.admissions| && db.admissions[row].effect == w && db.admissions[row].ordinal == 1
    {
      assert Chain(db.admissions, w) && ChainedAt(db.admissions, w, 0);
    }
    assert forall w, row :: 0 <= row < |db.admissions| && db.admissions[row].effect == w ==>
      row in Of(db.admissions, w);
  }

  /** A WORK_START sealed without a witness never mints, whatever is activated later. */
  lemma UnwitnessedNeverMints(trace: seq<System>, events: seq<Event>, ops: Ops, i: nat, j: nat, w: Id)
    requires History(trace, events, ops) && i <= j < |trace|
    requires w in trace[i].db.requests && !(w in trace[i].db.members && trace[i].db.members[w] == w)
    ensures w !in trace[j].db.capabilities
    ensures forall e :: e in trace[j].db.members && e != w ==> trace[j].db.members[e] != w
  {
    Reachable(trace, events, ops, j);
    OnlyAppends(trace, events, ops, i, j);
    var db := trace[j].db;
    assert w in trace[i].db.members ==> db.members[w] == trace[i].db.members[w];
    forall e | e in db.members && e != w ensures db.members[e] != w {
      assert MemberProof(db, e);
    }
  }

  // ---------------------------------------------------------------- ordinals

  predicate HasOrdinal(rows: seq<Admission>, e: Id, n: nat) {
    exists row :: 0 <= row < |rows| && rows[row].effect == e && rows[row].ordinal == n
  }

  /** The first admission names none before it, every other one the row with the preceding ordinal. */
  predicate PriorExact(rows: seq<Admission>, i: nat)
    requires i < |rows|
  {
    if rows[i].ordinal == 1 then rows[i].prior == None
    else
      && rows[i].prior.Some? && rows[i].prior.value < |rows| && rows[rows[i].prior.value].effect == rows[i].effect
      && rows[rows[i].prior.value].ordinal == rows[i].ordinal - 1
  }

  predicate NumberAt(of: seq<nat>, rows: seq<Admission>, e: Id, k: nat)
    requires k < |of|
  {
    && of[k] < |rows| && rows[of[k]].effect == e && rows[of[k]].ordinal == k + 1
    && (k == 0 ==> rows[of[k]].prior == None)
    && (k > 0 ==> rows[of[k]].prior == Some(of[k - 1]))
  }

  /** `of` lists the rows of `e`, in ordinal order, each naming the previous one. */
  ghost predicate Numbers(of: seq<nat>, rows: seq<Admission>, e: Id) {
    && (forall k :: 0 <= k < |of| ==> NumberAt(of, rows, e, k))
    && (forall i :: 0 <= i < |rows| && rows[i].effect == e ==> i in of)
  }

  lemma ChainNumbers(rows: seq<Admission>, e: Id)
    requires Ordinals(rows)
    ensures Numbers(Of(rows, e), rows, e)
  {
    var of := Of(rows, e);
    assert Chain(rows, e);
    forall k | 0 <= k < |of| ensures NumberAt(of, rows, e, k) {
      assert ChainedAt(rows, e, k);
    }
  }

  lemma RowIsNumbered(of: seq<nat>, rows: seq<Admission>, e: Id, i: nat)
    requires Numbers(of, rows, e) && i < |rows| && rows[i].effect == e
    ensures 1 <= rows[i].ordinal <= |of| && of[rows[i].ordinal - 1] == i && PriorExact(rows, i)
  {
    var k :| 0 <= k < |of| && of[k] == i;
    assert NumberAt(of, rows, e, k);
    if k > 0 {
      assert NumberAt(of, rows, e, k - 1);
    }
  }

  /** Main: the ordinals of an effect are exactly 1..n, once each, each admission naming the one before it. */
  lemma OrdinalsAreConsecutive(trace: seq<System>, events: seq<Event>, ops: Ops, k: nat, e: Id)
    requires History(trace, events, ops) && k < |trace|
    ensures var rows := trace[k].db.admissions;
      && (forall n: nat :: HasOrdinal(rows, e, n) <==> 1 <= n <= |Of(rows, e)|)
      && (forall i, j ::
            && 0 <= i < |rows| && 0 <= j < |rows|
            && rows[i].effect == rows[j].effect && rows[i].ordinal == rows[j].ordinal ==>
              i == j)
      && (forall i :: 0 <= i < |rows| ==> PriorExact(rows, i))
  {
    Reachable(trace, events, ops, k);
    var rows := trace[k].db.admissions;
    forall i | 0 <= i < |rows| ensures PriorExact(rows, i) {
      ChainNumbers(rows, rows[i].effect);
      RowIsNumbered(Of(rows, rows[i].effect), rows, rows[i].effect, i);
    }
    forall i, j | 0 <= i < |rows| && 0 <= j < |rows| && rows[i].effect == rows[j].effect
      && rows[i].ordinal == rows[j].ordinal
      ensures i == j
    {
      ChainNumbers(rows, rows[i].effect);
      RowIsNumbered(Of(rows, rows[i].effect), rows, rows[i].effect, i);
      RowIsNumbered(Of(rows, rows[i].effect), rows, rows[i].effect, j);
    }
    ChainNumbers(rows, e);
    NumbersAreExact(Of(rows, e), rows, e);
  }

  lemma NumbersAreExact(of: seq<nat>, rows: seq<Admission>, e: Id)
    requires Numbers(of, rows, e)
    ensures forall n: nat :: HasOrdinal(rows, e, n) <==> 1 <= n <= |of|
  {
    forall n: nat | 1 <= n <= |of| ensures HasOrdinal(rows, e, n) {
      assert NumberAt(of, rows, e, n - 1);
    }
    forall i | 0 <= i < |rows| && rows[i].effect == e ensures 1 <= rows[i].ordinal <= |of| {
      RowIsNumbered(of, rows, e, i);
    }
  }
}
