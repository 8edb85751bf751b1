/** MAX_DISPATCH_ORDINAL: what a decision that carries several of them keeps, and exactly when it keeps all. */
module KernelOrdinals {
  import opened Wrappers
  import opened Records
  import opened Sealing
  import opened Admitting
  import opened KernelRuns
  import opened KernelSafety

  /** The argument of the last MAX_DISPATCH_ORDINAL, which overwrites every earlier one. */
  function LastBound(cs: seq<Constraint>, before: Option<int>): Option<int> {
    if cs == [] then before
    else
      var last := cs[|cs| - 1];
      if last.MaxDispatchOrdinal? then last.ordinal else LastBound(cs[..|cs| - 1], before)
  }

  lemma {:induction false} LastBoundFromFront(cs: seq<Constraint>, before: Option<int>)
    requires cs != []
    ensures LastBound(cs, before) == LastBound(cs[1..], if cs[0].MaxDispatchOrdinal? then cs[0].ordinal else before)
  {
    var n := |cs| - 1;
    if n > 0 {
      LastBoundFromFront(cs[..n], before);
      assert cs[..n][1..] == cs[1..][..n - 1] && cs[1..][n - 1] == cs[n];
    } else {
      assert cs[..0] == [] && cs[1..] == [];
    }
  }

  lemma {:induction false} ConstrainedIsLast(db: Db, r: Request, cs: seq<Constraint>, before: Option<int>)
    requires Constrained(db, r, cs, before).Done?
    ensures Constrained(db, r, cs, before).value == LastBound(cs, before)
    decreases |cs|
  {
    if cs != [] {
      LastBoundFromFront(cs, before);
      ConstrainedIsLast(db, r, cs[1..], if cs[0].MaxDispatchOrdinal? then cs[0].ordinal else before);
    }
  }

  /** An admission stays within the last MAX_DISPATCH_ORDINAL of its decision. */
  lemma OrdinalWithinBound(db: Db, a: Attempt, op: OpSpec, now: int, others: bool)
    requires Ruled(db, a, op, now, others).Admit?
    ensures var bound := LastBound(db.decisions[a.decision].constraints, None);
      bound.Some? ==> Ruled(db, a, op, now, others).row.ordinal <= bound.value
  {
    hide EvidenceLeg, MembershipProven, ConstraintLeg;
    ConstrainedIsLast(db, db.requests[a.effect], db.decisions[a.decision].constraints, None);
  }

  // ---------------------------------------------------------------- all the bounds

  predicate Within(n: int, bound: Option<int>) {
    bound.Some? ==> n <= bound.value
  }

  /** The ordinal is within every declared bound, as the design asks; an argument that is no number bounds nothing. */
  predicate WithinAll(n: int, cs: seq<Constraint>) {
    forall c :: c in cs && c.MaxDispatchOrdinal? ==> Within(n, c.ordinal)
  }

  /** If any bound is a number then so is the last one, and it is the least or admits no ordinal at all. */
  predicate LastIsLeast(cs: seq<Constraint>) {
    var last := LastBound(cs, None);
    forall c :: c in cs && c.MaxDispatchOrdinal? && c.ordinal.Some? ==>
      last.Some? && (last.value <= c.ordinal.value || last.value < 1)
  }

  /** Some request could meet the other constraints: they are supported and name one kind and one target. */
  predicate Meetable(cs: seq<Constraint>) {
    && (forall c :: c in cs ==> !c.Unsupported?)
    && (forall c, d :: c in cs && d in cs && c.OperationKindEquals? && d.OperationKindEquals? ==> c.kind == d.kind)
    && (forall c, d :: c in cs && d in cs && c.TargetRefEquals? && d.TargetRefEquals? ==> c.target == d.target)
  }

  /** Event `k` of the history is an admission under a decision with these constraints. */
  ghost predicate AdmitsUnder(trace: seq<System>, events: seq<Event>, ops: Ops, k: nat, cs: seq<Constraint>) {
    && History(trace, events, ops) && k < |events| && events[k].Commit?
    && RulingOf(trace[k], events[k], ops).Admit?
    && var d := RulingOf(trace[k], events[k], ops).row.decision;
       d in trace[k].db.decisions && trace[k].db.decisions[d].constraints == cs
  }

  /** In every history, every admission under such a decision is within all of its bounds. */
  ghost predicate BoundsKept(cs: seq<Constraint>) {
    forall trace: seq<System>, events: seq<Event>, ops: Ops, k: nat ::
      AdmitsUnder(trace, events, ops, k, cs) ==> WithinAll(RulingOf(trace[k], events[k], ops).row.ordinal, cs)
  }

  /** Main: all declared bounds are kept exactly when the last one is the least, or nothing is admitted at all. */
  lemma BoundsAreKeptExactly(cs: seq<Constraint>)
    ensures BoundsKept(cs) <==> LastIsLeast(cs) || !Meetable(cs)
  {
    hide Enabled, Next, Genesis, Ruled, LastIsLeast, Meetable, WithinAll;
    forall trace: seq<System>, events: seq<Event>, ops: Ops, k: nat
      | AdmitsUnder(trace, events, ops, k, cs) && (LastIsLeast(cs) || !Meetable(cs))
      ensures WithinAll(RulingOf(trace[k], events[k], ops).row.ordinal, cs)
    {
      AdmittedWithinLast(trace, events, ops, k, cs);
      LeastBoundsAll(RulingOf(trace[k], events[k], ops).row.ordinal, cs);
    }
    if Meetable(cs) && !LastIsLeast(cs) {
      var n := OverrunBy(cs);
      var trace, events, k := AdmitOrdinal(cs, n);
      assert AdmitsUnder(trace, events, OpsFor(cs), k, cs);
    }
  }

  lemma AdmittedWithinLast(trace: seq<System>, events: seq<Event>, ops: Ops, k: nat, cs: seq<Constraint>)
    requires AdmitsUnder(trace, events, ops, k, cs)
    ensures Meetable(cs)
    ensures RulingOf(trace[k], events[k], ops).row.ordinal >= 1
    ensures Within(RulingOf(trace[k], events[k], ops).row.ordinal, LastBound(cs, None))
  {
    hide Next, Genesis, Ruled, Meetable;
    var db, a := trace[k].db, trace[k].calls[events[k].c].attempt;
    var op := ops[db.requests[a.effect].kind];
    AdmissionNeeds(db, a, op, events[k].now, events[k].others);
    OrdinalWithinBound(db, a, op, events[k].now, events[k].others);
    LegsAreMeetable(db, db.requests[a.effect], cs);
  }

  lemma LegsAreMeetable(db: Db, r: Request, cs: seq<Constraint>)
    requires forall c :: c in cs ==> ConstraintLeg(db, r, c).None?
    ensures Meetable(cs)
  {
    forall c | c in cs ensures ConstraintLeg(db, r, c).None? {}
  }

  lemma LeastBoundsAll(n: int, cs: seq<Constraint>)
    requires n >= 1 && Within(n, LastBound(cs, None)) && LastIsLeast(cs)
    ensures WithinAll(n, cs)
  {}

  /** An ordinal the last bound lets through and another declared bound does not. */
  lemma OverrunBy(cs: seq<Constraint>) returns (n: nat)
    requires !LastIsLeast(cs)
    ensures n >= 1 && Within(n, LastBound(cs, None)) && !WithinAll(n, cs)
  {
    var last := LastBound(cs, None);
    var c :| c in cs && c.MaxDispatchOrdinal? && c.ordinal.Some?
      && !(last.Some? && (last.value <= c.ordinal.value || last.value < 1));
    n := if last.Some? then last.value else if c.ordinal.value < 0 then 1 else c.ordinal.value + 1;
    assert !Within(n, c.ordinal);
  }

  // ---------------------------------------------------------------- a history that reaches any ordinal

  function KindFor(cs: seq<Constraint>): Kind {
    if cs == [] then WorkStart else if cs[0].OperationKindEquals? then cs[0].kind else KindFor(cs[1..])
  }

  function TargetFor(cs: seq<Constraint>): Subject {
    if cs == [] then Subject("target", WorkRun, "t") else if cs[0].TargetRefEquals? then cs[0].target
      else TargetFor(cs[1..])
  }

  function RequestFor(cs: seq<Constraint>): Request {
    Request("e", "requester", [], TargetFor(cs), KindFor(cs), "schema", "m", [])
  }

  /** Its rejections prove no effect. */
  function OpsFor(cs: seq<Constraint>): Ops {
    map[KindFor(cs) := OpSpec(false, None, true, false)]
  }

  const PLAIN := Config(false, {JCS}, map["p" := "requester"], {}, [], map[], [], 0)

  function RowAt(i: nat): Admission {
    Admission("e", i + 1, if i == 0 then None else Some(i - 1), "d", "i", 0)
  }

  function FirstRows(m: nat): (rows: seq<Admission>)
    ensures |rows| == m && forall i :: 0 <= i < m ==> rows[i] == RowAt(i)
  {
    if m == 0 then [] else FirstRows(m - 1) + [RowAt(m - 1)]
  }

  function Proofs(m: nat): (outcomes: seq<Outcome>)
    ensures |outcomes| == m && forall i :: 0 <= i < m ==> outcomes[i] == Outcome(i, NoEffectConfirmed, true)
  {
    if m == 0 then [] else Proofs(m - 1) + [Outcome(m - 1, NoEffectConfirmed, true)]
  }

  const EMPTY := Db(PLAIN, map[], map[], map[], map[], map[], map[], map[], map[], [], [])

  const WITH_MATERIAL := EMPTY.(blobs := map["m" := Material(None, Undeclared)])

  function Sealed(cs: seq<Constraint>): Db {
    WITH_MATERIAL.(requests := map["e" := RequestFor(cs)])
  }

  function Assembled(cs: seq<Constraint>): Db {
    Sealed(cs).(inputs := map["i" := Input("e", [])])
  }

  /** The store of one request after `m` admissions that were each proved to have had no effect. */
  function After(cs: seq<Constraint>, m: nat): Db {
    Assembled(cs).(decisions := map["d" := Decision("i", true, cs)], admissions := FirstRows(m), outcomes := Proofs(m))
  }

  function Idle(cs: seq<Constraint>, m: nat): System {
    System(After(cs, m), map[], Target([], {}, RowsUpTo(m)))
  }

  function RowsUpTo(m: nat): set<nat> {
    if m == 0 then {} else RowsUpTo(m - 1) + {m - 1}
  }

  const ATTEMPT := Attempt("e", "d", None, PLAIN)

  lemma {:induction false} KindIs(cs: seq<Constraint>)
    ensures (forall c :: c in cs ==> !c.OperationKindEquals?)
      || exists c :: c in cs && c.OperationKindEquals? && c.kind == KindFor(cs)
  {
    if cs != [] && !cs[0].OperationKindEquals? {
      KindIs(cs[1..]);
      assert forall c :: c in cs <==> c == cs[0] || c in cs[1..];
    }
  }

  lemma {:induction false} TargetIs(cs: seq<Constraint>)
    ensures (forall c :: c in cs ==> !c.TargetRefEquals?)
      || exists c :: c in cs && c.TargetRefEquals? && c.target == TargetFor(cs)
  {
    if cs != [] && !cs[0].TargetRefEquals? {
      TargetIs(cs[1..]);
      assert forall c :: c in cs <==> c == cs[0] || c in cs[1..];
    }
  }

  lemma LegsPass(cs: seq<Constraint>, m: nat)
    requires Meetable(cs)
    ensures forall c :: c in cs ==> ConstraintLeg(After(cs, m), RequestFor(cs), c).None?
  {
    KindIs(cs);
    TargetIs(cs);
  }

  lemma {:induction false} ConstrainedPasses(db: Db, r: Request, cs: seq<Constraint>, bound: Option<int>)
    requires forall c :: c in cs ==> ConstraintLeg(db, r, c).None?
    ensures Constrained(db, r, cs, bound).Done?
    decreases |cs|
  {
    hide ConstraintLeg;
    if cs != [] {
      ConstrainedPasses(db, r, cs[1..], if cs[0].MaxDispatchOrdinal? then cs[0].ordinal else bound);
    }
  }

  lemma {:induction false} RowsInOrder(m: nat)
    ensures |Of(FirstRows(m), "e")| == m && (m > 0 ==> Of(FirstRows(m), "e")[m - 1] == m - 1)
  {
    hide Of;
    if m > 0 {
      RowsInOrder(m - 1);
      OfAppend(FirstRows(m - 1), RowAt(m - 1), "e");
    } else {
      NoRows("e");
    }
  }

  lemma NoRows(e: Id)
    ensures Of([], e) == []
  {}

  lemma NumberedNext(cs: seq<Constraint>, m: nat)
    ensures NextOrdinal(After(cs, m), "e", OpsFor(cs)[KindFor(cs)], 0) == Ordinal(m + 1, RowAt(m).prior)
  {
    hide Of;
    RowsInOrder(m);
    var outcomes := After(cs, m).outcomes;
    if m > 0 {
      assert outcomes[m - 1] == Outcome(m - 1, NoEffectConfirmed, true);
      assert HasOutcome(outcomes, m - 1, NoEffectConfirmed);
    }
  }

  /** The next admission is ruled, as long as the last bound lets its ordinal through. */
  lemma NextIsAdmitted(cs: seq<Constraint>, m: nat)
    requires Meetable(cs) && Within(m + 1, LastBound(cs, None))
    ensures Ruled(After(cs, m), ATTEMPT, OpsFor(cs)[KindFor(cs)], 0, false) == Admit(RowAt(m))
  {
    hide NextOrdinal, Constrained, ConstraintLeg, Meetable, LastBound;
    var db := After(cs, m);
    LegsPass(cs, m);
    ConstrainedPasses(db, RequestFor(cs), cs, None);
    ConstrainedIsLast(db, RequestFor(cs), cs, None);
    NumberedNext(cs, m);
    assert EvidenceLeg(db, RequestFor(cs), []).None?;
  }

  lemma Extend(trace: seq<System>, events: seq<Event>, ops: Ops, ev: Event)
    requires History(trace, events, ops) && Enabled(trace[|trace| - 1], ev, ops)
    ensures History(trace + [Next(trace[|trace| - 1], ev, ops)], events + [ev], ops)
  {
    hide Enabled, Next, Genesis;
    var trace', events' := trace + [Next(trace[|trace| - 1], ev, ops)], events + [ev];
    forall k | 0 <= k < |events'| ensures Enabled(trace'[k], events'[k], ops)
      && trace'[k + 1] == Next(trace'[k], events'[k], ops)
    {
      if k < |events| {
        assert events'[k] == events[k] && trace'[k] == trace[k] && trace'[k + 1] == trace[k + 1];
      }
    }
  }

  // One round, event by event.

  function Quiet(db: Db): System {
    System(db, map[], Target([], {}, {}))
  }

  function SealOf(cs: seq<Constraint>): Event {
    Seal(SealCall(RequestFor(cs), None, "p", NoHeader), "incident")
  }

  function LockedAt(cs: seq<Constraint>, m: nat): System {
    Idle(cs, m).(calls := map[0 := Locked(ATTEMPT)])
  }

  const COMMIT := Commit(0, 0, false, 0, "incident")

  lemma SealStep(cs: seq<Constraint>)
    ensures Enabled(Quiet(WITH_MATERIAL), SealOf(cs), OpsFor(cs))
    ensures Next(Quiet(WITH_MATERIAL), SealOf(cs), OpsFor(cs)) == Quiet(Sealed(cs))
  {
    var db := WITH_MATERIAL;
    assert FirstSeal(db, RequestFor(cs), None, NoHeader) == Done(None);
    assert AfterSeal(db, SealOf(cs).seal, "incident") == Sealed(cs);
  }

  lemma OtherSteps(cs: seq<Constraint>, ops: Ops)
    ensures var ev := PutBlob("m", Material(None, Undeclared));
      Enabled(Quiet(EMPTY), ev, ops) && Next(Quiet(EMPTY), ev, ops) == Quiet(WITH_MATERIAL)
    ensures var ev := Assemble("i", Input("e", []));
      Enabled(Quiet(Sealed(cs)), ev, ops) && Next(Quiet(Sealed(cs)), ev, ops) == Quiet(Assembled(cs))
    ensures var ev := Evaluate("d", Decision("i", true, cs));
      Enabled(Quiet(Assembled(cs)), ev, ops) && Next(Quiet(Assembled(cs)), ev, ops) == Idle(cs, 0)
  {
    assert FirstRows(0) == [] && Proofs(0) == [];
  }

  /** Material, request, input and decision, from an empty store. */
  lemma DecisionReached(cs: seq<Constraint>) returns (trace: seq<System>, events: seq<Event>)
    ensures History(trace, events, OpsFor(cs)) && trace[|trace| - 1] == Idle(cs, 0)
  {
    hide Enabled, Next;
    var ops := OpsFor(cs);
    trace, events := [Quiet(EMPTY)], [];
    assert Genesis(trace[0]);
    OtherSteps(cs, ops);
    SealStep(cs);
    Extend(trace, events, ops, PutBlob("m", Material(None, Undeclared)));
    trace, events := trace + [Quiet(WITH_MATERIAL)], events + [PutBlob("m", Material(None, Undeclared))];
    Extend(trace, events, ops, SealOf(cs));
    trace, events := trace + [Quiet(Sealed(cs))], events + [SealOf(cs)];
    Extend(trace, events, ops, Assemble("i", Input("e", [])));
    trace, events := trace + [Quiet(Assembled(cs))], events + [Assemble("i", Input("e", []))];
    Extend(trace, events, ops, Evaluate("d", Decision("i", true, cs)));
    trace, events := trace + [Idle(cs, 0)], events + [Evaluate("d", Decision("i", true, cs))];
  }

  lemma BeginStep(cs: seq<Constraint>, m: nat)
    ensures var ev := Begin(0, "e", "d", None);
      && Enabled(Idle(cs, m), ev, OpsFor(cs))
      && Next(Idle(cs, m), ev, OpsFor(cs)) == Idle(cs, m).(calls := map[0 := Begun("e", "d", None)])
  {}

  lemma LockStep(cs: seq<Constraint>, m: nat)
    ensures var sys := Idle(cs, m).(calls := map[0 := Begun("e", "d", None)]);
      Enabled(sys, Lock(0), OpsFor(cs)) && Next(sys, Lock(0), OpsFor(cs)) == LockedAt(cs, m)
  {}

  lemma CommitStepIs(cs: seq<Constraint>, m: nat)
    requires Meetable(cs) && Within(m + 1, LastBound(cs, None))
    ensures var db := After(cs, m);
      && Enabled(LockedAt(cs, m), COMMIT, OpsFor(cs))
      && Next(LockedAt(cs, m), COMMIT, OpsFor(cs))
         == LockedAt(cs, m).(db := db.(admissions := db.admissions + [RowAt(m)]), calls := map[0 := Admitted(m)])
  {
    hide Ruled, Meetable, LastBound;
    NextIsAdmitted(cs, m);
  }

  lemma ReconcileStep(cs: seq<Constraint>, m: nat)
    ensures var sys := Idle(cs, m).(db := After(cs, m).(admissions := After(cs, m).admissions + [RowAt(m)]));
      && Enabled(sys, Reconcile(m, ProbeNoEffect), OpsFor(cs))
      && Next(sys, Reconcile(m, ProbeNoEffect), OpsFor(cs)) == Idle(cs, m + 1)
  {
    assert FirstRows(m + 1) == FirstRows(m) + [RowAt(m)];
    assert Proofs(m + 1) == Proofs(m) + [Outcome(m, NoEffectConfirmed, true)];
  }

  lemma {:induction false} IdleReached(cs: seq<Constraint>, m: nat) returns (trace: seq<System>, events: seq<Event>)
    requires Meetable(cs) && Within(m, LastBound(cs, None))
    ensures History(trace, events, OpsFor(cs)) && trace[|trace| - 1] == Idle(cs, m)
    decreases m, 0
  {
    hide Enabled, Next, Genesis, LastBound, Meetable, After, OpsFor;
    var ops := OpsFor(cs);
    if m == 0 {
      trace, events := DecisionReached(cs);
    } else {
      trace, events := LockedReached(cs, m - 1);
      CommitStepIs(cs, m - 1);
      Extend(trace, events, ops, COMMIT);
      var sys := Next(LockedAt(cs, m - 1), COMMIT, ops);
      trace, events := trace + [sys], events + [COMMIT];
      CrashStep(sys, ops);
      Extend(trace, events, ops, Crash);
      trace, events := trace + [sys.(calls := map[])], events + [Crash];
      ReconcileStep(cs, m - 1);
      Extend(trace, events, ops, Reconcile(m - 1, ProbeNoEffect));
      trace, events := trace + [Idle(cs, m)], events + [Reconcile(m - 1, ProbeNoEffect)];
    }
  }

  lemma CrashStep(sys: System, ops: Ops)
    ensures Enabled(sys, Crash, ops) && Next(sys, Crash, ops) == sys.(calls := map[])
  {}

  lemma {:induction false} LockedReached(cs: seq<Constraint>, m: nat) returns (trace: seq<System>, events: seq<Event>)
    requires Meetable(cs) && Within(m, LastBound(cs, None))
    ensures History(trace, events, OpsFor(cs)) && trace[|trace| - 1] == LockedAt(cs, m)
    decreases m, 1
  {
    hide Enabled, Next, Genesis, LastBound, Meetable;
    var ops := OpsFor(cs);
    trace, events := IdleReached(cs, m);
    BeginStep(cs, m);
    Extend(trace, events, ops, Begin(0, "e", "d", None));
    var sys := Idle(cs, m).(calls := map[0 := Begun("e", "d", None)]);
    trace, events := trace + [sys], events + [Begin(0, "e", "d", None)];
    LockStep(cs, m);
    Extend(trace, events, ops, Lock(0));
    trace, events := trace + [LockedAt(cs, m)], events + [Lock(0)];
  }

  lemma LockedRuling(cs: seq<Constraint>, m: nat)
    requires Meetable(cs) && Within(m + 1, LastBound(cs, None))
    ensures Enabled(LockedAt(cs, m), COMMIT, OpsFor(cs))
    ensures RulingOf(LockedAt(cs, m), COMMIT, OpsFor(cs)) == Admit(RowAt(m))
    ensures RowAt(m).decision in LockedAt(cs, m).db.decisions
      && LockedAt(cs, m).db.decisions[RowAt(m).decision].constraints == cs
  {
    hide Ruled, LastBound, Meetable;
    NextIsAdmitted(cs, m);
  }

  /** Some history admits any ordinal the last bound lets through. */
  lemma AdmitOrdinal(cs: seq<Constraint>, n: nat) returns (trace: seq<System>, events: seq<Event>, k: nat)
    requires n >= 1 && Meetable(cs) && Within(n, LastBound(cs, None))
    ensures AdmitsUnder(trace, events, OpsFor(cs), k, cs) && RulingOf(trace[k], events[k], OpsFor(cs)).row.ordinal == n
  {
    hide Enabled, Next, Genesis, RulingOf, LastBound, Meetable, LockedAt, OpsFor;
    var before, earlier := LockedReached(cs, n - 1);
    LockedRuling(cs, n - 1);
    Extend(before, earlier, OpsFor(cs), COMMIT);
    k := |earlier|;
    trace, events := before + [Next(LockedAt(cs, n - 1), COMMIT, OpsFor(cs))], earlier + [COMMIT];
    assert trace[k] == LockedAt(cs, n - 1) && events[k] == COMMIT;
  }

  /** The failing input: under the bounds 1 and then 9, a second admission of the effect is ruled. */
  lemma EarlierBoundIsOverwritten() returns (trace: seq<System>, events: seq<Event>, ops: Ops, k: nat)
    ensures var cs := [MaxDispatchOrdinal(Some(1)), MaxDispatchOrdinal(Some(9))];
      && AdmitsUnder(trace, events, ops, k, cs) && RulingOf(trace[k], events[k], ops).row.ordinal == 2
      && !WithinAll(2, cs) && !BoundsKept(cs)
  {
    hide Enabled, Next, Genesis, Ruled;
    var cs := [MaxDispatchOrdinal(Some(1)), MaxDispatchOrdinal(Some(9))];
    trace, events, k := AdmitOrdinal(cs, 2);
    ops := OpsFor(cs);
    assert !Within(2, cs[0].ordinal);
  }
}
