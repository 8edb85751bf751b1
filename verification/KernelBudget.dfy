/** The effect budget of a work run: a counting argument over the sealed requests of the run. */
module KernelBudget {
  import opened Wrappers
  import opened Records
  import opened Admitting
  import opened KernelRuns
  import opened KernelTheorems
  import opened KernelSafety

  predicate InRun(db: Db, e: Id, run: Id) {
    e in db.requests && RunColumn(db.requests[e]) == Some(run)
  }

  /** The distinct effects of the run that have been admitted at least once. */
  function AdmittedIn(db: Db, run: Id): set<Id> {
    set i | 0 <= i < |db.admissions| && InRun(db, db.admissions[i].effect, run) :: db.admissions[i].effect
  }

  /** The run's own sealed WORK_START material declares `max_effects = m`. */
  predicate DeclaresBudget(db: Db, run: Id, m: int) {
    && run in db.requests && db.requests[run].material in db.blobs
    && db.blobs[db.requests[run].material].maxEffects == Declared(m)
  }

  /** The decision carries MAX_EFFECTS_IN_WORK_RUN with a number. */
  predicate Capped(d: Decision) {
    exists c :: c in d.constraints && c.MaxEffectsInWorkRun? && c.cap.Some?
  }

  lemma SubsetIsSmaller<T>(a: set<T>, b: set<T>)
    requires a <= b
    ensures |a| <= |b|
  {
    if a != {} {
      var x :| x in a;
      SubsetIsSmaller(a - {x}, b - {x});
    }
  }

  lemma AdmittedAreSealed(db: Db, run: Id)
    ensures AdmittedIn(db, run) <= SealedIn(db.requests, run) && |AdmittedIn(db, run)| <= |SealedIn(db.requests, run)|
  {
    SubsetIsSmaller(AdmittedIn(db, run), SealedIn(db.requests, run));
  }

  /** The capped transaction admits only while the whole sealed run fits both bounds. */
  lemma AdmissionFitsBudget(db: Db, a: Attempt, op: OpSpec, now: int, others: bool, run: Id, m: int, c: Constraint)
    requires Ruled(db, a, op, now, others).Admit? && InRun(db, a.effect, run) && DeclaresBudget(db, run, m)
    requires c in db.decisions[a.decision].constraints && c.MaxEffectsInWorkRun? && c.cap.Some?
    ensures 1 <= m && |SealedIn(db.requests, run)| <= m && |SealedIn(db.requests, run)| <= c.cap.value
  {
    hide Ruled, Constrained;
    AdmissionNeeds(db, a, op, now, others);
    assert ConstraintLeg(db, db.requests[a.effect], c).None?;
  }

  predicate AdmitsIn(sys: System, ev: Event, ops: Ops, run: Id)
    requires Enabled(sys, ev, ops)
  {
    Appends(sys, ev, ops) != [] && InRun(sys.db, Appends(sys, ev, ops)[0].effect, run)
  }

  predicate CappedIn(sys: System, ev: Event, ops: Ops, run: Id)
    requires Enabled(sys, ev, ops)
  {
    AdmitsIn(sys, ev, ops, run) ==>
      Appends(sys, ev, ops)[0].decision in sys.db.decisions
        && Capped(sys.db.decisions[Appends(sys, ev, ops)[0].decision])
  }

  lemma AdmittingStepFits(sys: System, ev: Event, ops: Ops, run: Id, m: int)
    requires RowsKeyed(sys.db) && Enabled(sys, ev, ops) && DeclaresBudget(sys.db, run, m)
    requires AdmitsIn(sys, ev, ops, run) && CappedIn(sys, ev, ops, run)
    ensures |AdmittedIn(Next(sys, ev, ops).db, run)| <= m
  {
    hide Ruled, Next, AfterAdmit;
    var a := sys.calls[ev.c].attempt;
    var op := ops[sys.db.requests[a.effect].kind];
    AdmissionNeeds(sys.db, a, op, ev.now, ev.others);
    var c :| c in sys.db.decisions[a.decision].constraints && c.MaxEffectsInWorkRun? && c.cap.Some?;
    AdmissionFitsBudget(sys.db, a, op, ev.now, ev.others, run, m, c);
    CommitKeepsRequests(sys, ev, ops);
    AdmittedAreSealed(Next(sys, ev, ops).db, run);
  }

  lemma CommitKeepsRequests(sys: System, ev: Event, ops: Ops)
    requires Enabled(sys, ev, ops) && ev.Commit?
    ensures Next(sys, ev, ops).db.requests == sys.db.requests
  {
    hide Ruled, AfterAdmit;
    var a := sys.calls[ev.c].attempt;
    AdmitAppendsOnly(sys.db, a, ops[sys.db.requests[a.effect].kind], ev.now, ev.others, ev.secret, ev.incident);
  }

  lemma OtherStepsKeepAdmitted(sys: System, ev: Event, ops: Ops, run: Id)
    requires RowsKeyed(sys.db) && AdmissionsJustified(sys.db) && Enabled(sys, ev, ops) && !AdmitsIn(sys, ev, ops, run)
    ensures AdmittedIn(Next(sys, ev, ops).db, run) == AdmittedIn(sys.db, run)
  {
    hide Ruled, Next, Enabled, RunColumn, RowsKeyed;
    var db, db' := sys.db, Next(sys, ev, ops).db;
    OnlyCommitsAdmit(sys, ev, ops);
    StepAppendsOnly(sys, ev, ops);
    var added := Appends(sys, ev, ops);
    if added != [] {
      AppendedRow(sys, ev, ops);
    }
    forall i | 0 <= i < |db.admissions|
      ensures InRun(db', db.admissions[i].effect, run) == InRun(db, db.admissions[i].effect, run)
    {
      assert Justified(db, db.admissions[i]);
    }
    assert forall i :: 0 <= i < |db.admissions| ==> db'.admissions[i] == db.admissions[i];
    assert forall i :: |db.admissions| <= i < |db'.admissions| ==> db'.admissions[i] == added[0];
    forall e ensures e in AdmittedIn(db', run) <==> e in AdmittedIn(db, run) {}
  }

  lemma AppendedRow(sys: System, ev: Event, ops: Ops)
    requires Enabled(sys, ev, ops) && Appends(sys, ev, ops) != []
    ensures |Appends(sys, ev, ops)| == 1 && Appends(sys, ev, ops)[0].effect in sys.db.requests
  {
    hide Ruled;
    var a := sys.calls[ev.c].attempt;
    AdmissionNeeds(sys.db, a, ops[sys.db.requests[a.effect].kind], ev.now, ev.others);
  }

  /** Between states `i` and `j`, every decision that admitted into the run was capped. */
  ghost predicate RunCapped(trace: seq<System>, events: seq<Event>, ops: Ops, run: Id, i: nat, j: nat)
    requires History(trace, events, ops) && i <= j < |trace|
  {
    forall k :: i <= k < j ==> CappedIn(trace[k], events[k], ops, run)
  }

  lemma BudgetKept(trace: seq<System>, events: seq<Event>, ops: Ops, run: Id, m: int, i: nat)
    requires History(trace, events, ops) && i < |events| && DeclaresBudget(trace[i].db, run, m)
    requires CappedIn(trace[i], events[i], ops, run)
    ensures DeclaresBudget(trace[i + 1].db, run, m)
    ensures AdmitsIn(trace[i], events[i], ops, run) || |AdmittedIn(trace[i].db, run)| <= m ==>
      |AdmittedIn(trace[i + 1].db, run)| <= m
  {
    hide Enabled, Next, Genesis, AdmittedIn, CappedIn, AdmitsIn;
    Reachable(trace, events, ops, i);
    OnlyAppends(trace, events, ops, i, i + 1);
    if AdmitsIn(trace[i], events[i], ops, run) {
      AdmittingStepFits(trace[i], events[i], ops, run, m);
    } else {
      OtherStepsKeepAdmitted(trace[i], events[i], ops, run);
    }
  }

  /**
   * Main: if the run's sealed WORK_START declares `max_effects = m` and every decision for the run is
   * capped, then from the first admission into the run on, at most `m` of its effects are ever admitted.
   */
  lemma {:induction false} BudgetHolds(trace: seq<System>, events: seq<Event>, ops: Ops, run: Id, m: int,
      i: nat, j: nat)
    requires History(trace, events, ops) && i < j < |trace| && DeclaresBudget(trace[i].db, run, m)
    requires AdmitsIn(trace[i], events[i], ops, run) && RunCapped(trace, events, ops, run, i, j)
    ensures DeclaresBudget(trace[j].db, run, m) && |AdmittedIn(trace[j].db, run)| <= m
    decreases j
  {
    hide Enabled, Next, Genesis, AdmittedIn, CappedIn, AdmitsIn, DeclaresBudget;
    if i + 1 < j {
      BudgetHolds(trace, events, ops, run, m, i, j - 1);
    }
    BudgetKept(trace, events, ops, run, m, j - 1);
  }

  /**
   * What "a number" is worth: a cap whose argument is no number bounds nothing, not even the run's own
   * declared budget, because the tighter of the two is then no number either.
   */
  lemma NonNumericCapBoundsNothing(db: Db, r: Request, run: Id, m: int)
    requires RunColumn(r) == Some(run) && DeclaresBudget(db, run, m)
    ensures ConstraintLeg(db, r, MaxEffectsInWorkRun(None)).None? <==> 1 <= m
    ensures forall cap :: ConstraintLeg(db, r, MaxEffectsInWorkRun(Some(cap))).None? <==>
      1 <= m && |SealedIn(db.requests, run)| <= cap && |SealedIn(db.requests, run)| <= m
  {}
}
