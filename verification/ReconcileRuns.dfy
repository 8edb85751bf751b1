/**
 * Reconciler passes side by side, and the outcomes the PEP reports meanwhile. Passes run outside the locks:
 * each counts a row's probes, awaits its adapter, and only then writes.
 */
module ReconcileRuns {
  import opened Wrappers
  import opened Records
  import opened KernelRuns
  import opened Reconciling

  /** A pass in flight; `seen` outcomes were there when it listed its open rows. */
  datatype InFlight = InFlight(todo: seq<nat>, probing: Option<nat>, max: nat, seen: nat)

  /** `writers` tells, outcome by outcome, which pass wrote it; the PEP's are nobody's. */
  datatype Run = Run(outcomes: seq<Outcome>, writers: seq<Option<nat>>, passes: map<nat, InFlight>)

  datatype Step =
    | Start(c: nat, rows: seq<nat>, max: nat)
    | Count(c: nat)
    | Write(c: nat, probe: Probe)
    | Stop(c: nat)
    | Observe(outcome: Outcome)

  predicate Can(run: Run, st: Step) {
    match st
    case Start(c, rows, _) => c !in run.passes && Some(c) !in run.writers && Ascends(rows)
    case Count(c) => c in run.passes && run.passes[c].probing.None? && run.passes[c].todo != []
    case Write(c, _) => c in run.passes && run.passes[c].probing.Some?
    case Stop(c) => c in run.passes
    case Observe(o) => !o.byReconciler
  }

  function After(run: Run, st: Step): Run
    requires Can(run, st)
  {
    match st
    case Start(c, rows, max) =>
      run.(passes := run.passes[c := InFlight(OpenRows(run.outcomes, rows), None, max, |run.outcomes|)])
    case Count(c) =>
      var p := run.passes[c];
      var row := p.todo[0];
      run.(passes := run.passes[c := p.(todo := p.todo[1..],
                                        probing := if Attempts(run.outcomes, row) >= p.max then None else Some(row))])
    case Write(c, probe) =>
      var p := run.passes[c];
      Run(run.outcomes + [Outcome(p.probing.value, GradeProbe(probe), true)], run.writers + [Some(c)],
          run.passes[c := p.(probing := None)])
    case Stop(c) => run.(passes := run.passes - {c})
    case Observe(o) => run.(outcomes := run.outcomes + [o], writers := run.writers + [None])
  }

  ghost predicate History(trace: seq<Run>, steps: seq<Step>) {
    && |trace| == |steps| + 1 && trace[0] == Run([], [], map[])
    && forall k :: 0 <= k < |steps| ==> Can(trace[k], steps[k]) && trace[k + 1] == After(trace[k], steps[k])
  }

  /** One row of `Reconciling.Pass` is a count, what others do meanwhile, and a write of this machine. */
  lemma RowStepIsTwoSteps(run: Run, later: Run, c: nat, b: Books, r: Request, w: Wait)
    requires c in run.passes && run.passes[c].probing.None? && run.passes[c].todo != [] && b.outcomes == run.outcomes
    requires later.outcomes == run.outcomes + w.others
    requires c in later.passes && later.passes[c] == After(run, Count(c)).passes[c]
    ensures var p := run.passes[c];
      RowStep(b, r, p.todo[0], p.max, w).outcomes
      == if Can(later, Write(c, w.probe)) then After(later, Write(c, w.probe)).outcomes else run.outcomes
  {
    hide Attempts, Routed, Contradicts;
  }

  // ---------------------------------------------------------------- the bound

  /** The passes that have counted the row and not yet written it. */
  function Probing(run: Run, row: nat): set<nat> {
    set c | c in run.passes && run.passes[c].probing == Some(row)
  }

  /** At most `p` passes are ever at the row together, under policies that allow at most `max` probes. */
  ghost predicate Crowd(trace: seq<Run>, steps: seq<Step>, row: nat, max: nat, p: nat) {
    && (forall k :: 0 <= k < |trace| ==> |Probing(trace[k], row)| <= p)
    && (forall k :: 0 <= k < |steps| && steps[k].Start? ==> steps[k].max <= max)
  }

  /** A policy that allows no probe is never overrun; any other by one for each further pass. */
  function MostProbes(max: nat, p: nat): nat
    requires p >= 1
  {
    if max == 0 then 0 else max + p - 1
  }

  ghost predicate Counted(run: Run, row: nat, max: nat, p: nat)
    requires p >= 1
  {
    && (forall c :: c in run.passes ==> run.passes[c].max <= max)
    && Attempts(run.outcomes, row) + |Probing(run, row)| <= MostProbes(max, p)
  }

  lemma StepKeepsCount(run: Run, st: Step, row: nat, max: nat, p: nat)
    requires p >= 1 && Can(run, st) && Counted(run, row, max, p) && (st.Start? ==> st.max <= max)
    requires |Probing(After(run, st), row)| <= p
    ensures Counted(After(run, st), row, max, p)
  {
    hide Attempts, OpenRows;
    var run' := After(run, st);
    match st
    case Start(c, _, _) => assert Probing(run', row) == Probing(run, row);
    case Count(c) =>
      if run'.passes[c].probing != Some(row) {
        assert Probing(run', row) == Probing(run, row);
      }
    case Write(c, probe) =>
      AttemptsAppend(run.outcomes, Outcome(run.passes[c].probing.value, GradeProbe(probe), true), row);
      assert Probing(run', row) == Probing(run, row) - {c};
    case Stop(c) => assert Probing(run', row) == Probing(run, row) - {c};
    case Observe(o) =>
      AttemptsAppend(run.outcomes, o, row);
      assert Probing(run', row) == Probing(run, row);
  }

  /** Main: with at most `p` passes at a row together, its probes never exceed `max + p - 1`, nor 0 if `max` is 0. */
  lemma {:induction false} AttemptsAreBounded(trace: seq<Run>, steps: seq<Step>, row: nat, max: nat, p: nat, k: nat)
    requires History(trace, steps) && k < |trace| && p >= 1 && Crowd(trace, steps, row, max, p)
    ensures Attempts(trace[k].outcomes, row) <= MostProbes(max, p)
    ensures Counted(trace[k], row, max, p)
  {
    hide Attempts, Probing;
    if k > 0 {
      AttemptsAreBounded(trace, steps, row, max, p, k - 1);
      StepKeepsCount(trace[k - 1], steps[k - 1], row, max, p);
    } else {
      NothingCounted(row);
    }
  }

  lemma NothingCounted(row: nat)
    ensures Attempts([], row) == 0 && Probing(Run([], [], map[]), row) == {}
  {}

  // ---------------------------------------------------------------- a pass inside a history

  /** The step is one of pass `c`. */
  predicate By(st: Step, c: nat) {
    !st.Observe? && st.c == c
  }

  /**
   * Between states `i` and `j` pass `c` handles its next row as its loop body does: it counts, and unless the row
   * is exhausted others act until it writes; what they recorded is `w.others`, the adapter's answer is `w.probe`.
   */
  ghost predicate RowIn(trace: seq<Run>, steps: seq<Step>, c: nat, w: Wait, i: nat, j: nat) {
    && |trace| == |steps| + 1 && i < j < |trace| && steps[i] == Count(c) && c in trace[i + 1].passes
    && if trace[i + 1].passes[c].probing.None? then j == i + 1
       else
         && i + 1 < j && steps[j - 1] == Write(c, w.probe)
         && (forall t :: i < t < j - 1 ==> !By(steps[t], c))
         && trace[j - 1].outcomes == trace[i].outcomes + w.others
  }

  /** From state `cuts[0]` on, pass `c` handles the rows `open`, the m-th between `cuts[m]` and `cuts[m + 1]`. */
  ghost predicate PassIn(trace: seq<Run>, steps: seq<Step>, c: nat, open: seq<nat>, max: nat, waits: seq<Wait>,
      cuts: seq<nat>)
  {
    && |waits| == |open| && |cuts| == |open| + 1 && cuts[0] < |trace|
    && c in trace[cuts[0]].passes && trace[cuts[0]].passes[c].todo == open
    && trace[cuts[0]].passes[c].probing.None? && trace[cuts[0]].passes[c].max == max
    && forall m :: 0 <= m < |open| ==> RowIn(trace, steps, c, waits[m], cuts[m], cuts[m + 1])
  }

  lemma OtherStepKeepsPass(run: Run, st: Step, c: nat)
    requires Can(run, st) && c in run.passes && !By(st, c)
    ensures c in After(run, st).passes && After(run, st).passes[c] == run.passes[c]
  {}

  lemma {:induction false} OthersKeepPass(trace: seq<Run>, steps: seq<Step>, c: nat, i: nat, j: nat)
    requires History(trace, steps) && i <= j < |trace| && c in trace[i].passes
    requires forall t :: i <= t < j ==> !By(steps[t], c)
    ensures c in trace[j].passes && trace[j].passes[c] == trace[i].passes[c]
    decreases j
  {
    hide Can, After;
    if i < j {
      OthersKeepPass(trace, steps, c, i, j - 1);
      OtherStepKeepsPass(trace[j - 1], steps[j - 1], c);
    }
  }

  lemma RowInIsRowStep(trace: seq<Run>, steps: seq<Step>, c: nat, w: Wait, i: nat, j: nat, b: Books, r: Request)
    requires History(trace, steps) && RowIn(trace, steps, c, w, i, j) && b.outcomes == trace[i].outcomes
    requires c in trace[i].passes && trace[i].passes[c].probing.None? && trace[i].passes[c].todo != []
    ensures var p := trace[i].passes[c];
      && trace[j].outcomes == RowStep(b, r, p.todo[0], p.max, w).outcomes
      && c in trace[j].passes && trace[j].passes[c] == p.(todo := p.todo[1..])
  {
    hide RowStep, Attempts;
    assert Can(trace[i], Count(c)) && trace[i + 1] == After(trace[i], Count(c));
    if trace[i + 1].passes[c].probing.None? {
      RowStepIsTwoSteps(trace[i], trace[i + 1].(outcomes := trace[i].outcomes + w.others), c, b, r, w);
    } else {
      OthersKeepPass(trace, steps, c, i + 1, j - 1);
      RowStepIsTwoSteps(trace[i], trace[j - 1], c, b, r, w);
      assert trace[j] == After(trace[j - 1], Write(c, w.probe));
    }
  }

  lemma {:induction false} PrefixIsRun(trace: seq<Run>, steps: seq<Step>, c: nat, open: seq<nat>, max: nat,
      waits: seq<Wait>,
                                       cuts: seq<nat>, b: Books, r: Request, k: nat)
    requires History(trace, steps) && PassIn(trace, steps, c, open, max, waits, cuts)
    requires b.outcomes == trace[cuts[0]].outcomes && k <= |open|
    ensures cuts[k] < |trace| && c in trace[cuts[k]].passes
    ensures trace[cuts[k]].passes[c] == trace[cuts[0]].passes[c].(todo := open[k..])
    ensures trace[cuts[k]].outcomes == Pass(b, r, open[..k], max, waits[..k]).outcomes
  {
    hide RowStep, RowIn, History;
    if k > 0 {
      PrefixIsRun(trace, steps, c, open, max, waits, cuts, b, r, k - 1);
      assert RowIn(trace, steps, c, waits[k - 1], cuts[k - 1], cuts[k - 1 + 1]);
      assert open[..k][..k - 1] == open[..k - 1] && waits[..k][..k - 1] == waits[..k - 1];
      var before := Pass(b, r, open[..k - 1], max, waits[..k - 1]);
      RowInIsRowStep(trace, steps, c, waits[k - 1], cuts[k - 1], cuts[k], before, r);
      RowInEnds(trace, steps, c, waits[k - 1], cuts[k - 1], cuts[k]);
      assert open[k - 1..][1..] == open[k..];
    }
  }

  lemma RowInEnds(trace: seq<Run>, steps: seq<Step>, c: nat, w: Wait, i: nat, j: nat)
    requires RowIn(trace, steps, c, w, i, j)
    ensures j < |trace|
  {}

  /**
   * Main: wherever a pass runs inside a history, whatever the other passes and the PEP do at its awaits, the outcomes
   * at its end are those of `Reconciling.Pass`, and the bound of the history holds of them.
   */
  lemma PassIsBoundedInHistory(trace: seq<Run>, steps: seq<Step>, c: nat, open: seq<nat>, max: nat, waits: seq<Wait>,
                               cuts: seq<nat>, b: Books, r: Request)
    requires History(trace, steps) && PassIn(trace, steps, c, open, max, waits, cuts)
      && b.outcomes == trace[cuts[0]].outcomes
    ensures cuts[|open|] < |trace| && trace[cuts[|open|]].outcomes == Pass(b, r, open, max, waits).outcomes
    ensures forall row: nat, most: nat, p: nat :: p >= 1 && Crowd(trace, steps, row, most, p) ==>
      Attempts(Pass(b, r, open, max, waits).outcomes, row) <= MostProbes(most, p)
  {
    hide Can, After, RowIn, Attempts, Crowd, MostProbes;
    PrefixIsRun(trace, steps, c, open, max, waits, cuts, b, r, |open|);
    assert open[..|open|] == open && waits[..|open|] == waits;
    forall row: nat, most: nat, p: nat | p >= 1 && Crowd(trace, steps, row, most, p)
      ensures Attempts(Pass(b, r, open, max, waits).outcomes, row) <= MostProbes(most, p)
    {
      AttemptsAreBounded(trace, steps, row, most, p, cuts[|open|]);
    }
  }

  // ---------------------------------------------------------------- what a write can meet

  /** What pass `c` still has before it: rows it lists as open and has not written, in order. */
  predicate Ahead(run: Run, c: nat, row: nat)
    requires c in run.passes
  {
    row in run.passes[c].todo || run.passes[c].probing == Some(row)
  }

  ghost predicate PassSound(run: Run, c: nat)
    requires c in run.passes && |run.writers| == |run.outcomes|
  {
    var p := run.passes[c];
    && p.seen <= |run.outcomes| && Ascends(p.todo)
    && (p.probing.Some? ==> forall i :: 0 <= i < |p.todo| ==> p.probing.value < p.todo[i])
    && (forall row :: Ahead(run, c, row) ==> !Conclusive(run.outcomes[..p.seen], row))
    && (forall k, row :: 0 <= k < |run.outcomes| && run.writers[k] == Some(c) && Ahead(run, c, row) ==>
      run.outcomes[k].admission != row)
  }

  ghost predicate PassesSound(run: Run) {
    |run.writers| == |run.outcomes| && forall c :: c in run.passes ==> PassSound(run, c)
  }

  lemma StepKeepsPass(run: Run, st: Step, c: nat)
    requires Can(run, st) && PassesSound(run) && c in After(run, st).passes
    ensures |After(run, st).writers| == |After(run, st).outcomes|
    ensures PassSound(After(run, st), c)
  {
    hide Attempts, OpenRows, Conclusive;
    var run' := After(run, st);
    if st.Start? && st.c == c {
      OpenRowsAreOpen(run.outcomes, st.rows);
      assert run'.outcomes[..|run.outcomes|] == run.outcomes;
      forall row | Ahead(run', c, row) ensures !Conclusive(run.outcomes, row) {
        var i :| 0 <= i < |run'.passes[c].todo| && run'.passes[c].todo[i] == row;
      }
    } else {
      assert PassSound(run, c);
      assert run'.outcomes[..run.passes[c].seen] == run.outcomes[..run.passes[c].seen];
      forall row | Ahead(run', c, row) ensures Ahead(run, c, row) {}
    }
  }

  lemma {:induction false} PassesStaySound(trace: seq<Run>, steps: seq<Step>, k: nat)
    requires History(trace, steps) && k < |trace|
    ensures PassesSound(trace[k])
  {
    hide Can, After, PassSound;
    if k > 0 {
      PassesStaySound(trace, steps, k - 1);
      forall c | c in trace[k].passes ensures |trace[k].writers| == |trace[k].outcomes| && PassSound(trace[k], c) {
        StepKeepsPass(trace[k - 1], steps[k - 1], c);
      }
      LogsAlign(trace[k - 1], steps[k - 1]);
    }
  }

  lemma LogsAlign(run: Run, st: Step)
    requires Can(run, st) && |run.writers| == |run.outcomes|
    ensures |After(run, st).writers| == |After(run, st).outcomes|
  {}

  /** Since it listed its rows, somebody else recorded this result for the row. */
  predicate Overtaken(run: Run, c: nat, row: nat, result: Verdict)
    requires c in run.passes && |run.writers| == |run.outcomes|
  {
    exists i :: run.passes[c].seen <= i < |run.outcomes| && run.writers[i] != Some(c)
      && run.outcomes[i].admission == row && run.outcomes[i].result == result
  }

  /**
   * Main: a pass writes to a row that already has a conclusive outcome exactly when somebody else recorded one
   * since the pass listed its open rows, and its write contradicts exactly when that one was the opposite.
   */
  lemma WriteMeetsOnlyOvertaken(trace: seq<Run>, steps: seq<Step>, k: nat)
    requires History(trace, steps) && k < |steps| && steps[k].Write?
    ensures steps[k].c in trace[k].passes && trace[k].passes[steps[k].c].probing.Some?
      && |trace[k].writers| == |trace[k].outcomes|
    ensures var run, c := trace[k], steps[k].c;
      var row, result := run.passes[c].probing.value, GradeProbe(steps[k].probe);
      && (Conclusive(run.outcomes, row) <==>
        Overtaken(run, c, row, Committed) || Overtaken(run, c, row, NoEffectConfirmed))
      && (Contradicts(run.outcomes, row, result) <==>
            || (result == Committed && Overtaken(run, c, row, NoEffectConfirmed))
            || (result == NoEffectConfirmed && Overtaken(run, c, row, Committed)))
  {
    hide After;
    PassesStaySound(trace, steps, k);
    var run, c := trace[k], steps[k].c;
    assert PassSound(run, c) && Can(run, steps[k]);
    var row := run.passes[c].probing.value;
    assert Ahead(run, c, row);
    RecordedIsOvertaken(run, c, row, Committed);
    RecordedIsOvertaken(run, c, row, NoEffectConfirmed);
  }

  lemma RecordedIsOvertaken(run: Run, c: nat, row: nat, v: Verdict)
    requires |run.writers| == |run.outcomes| && c in run.passes && PassSound(run, c) && Ahead(run, c, row)
      && v != Unknown
    ensures HasOutcome(run.outcomes, row, v) <==> Overtaken(run, c, row, v)
  {
    var seen := run.passes[c].seen;
    assert !HasOutcome(run.outcomes[..seen], row, v);
    forall i | 0 <= i < seen ensures !(run.outcomes[i].admission == row && run.outcomes[i].result == v) {
      assert run.outcomes[..seen][i] == run.outcomes[i];
    }
  }

  // ---------------------------------------------------------------- the bound is reached

  function Unknowns(m: nat): seq<Outcome> {
    if m == 0 then [] else Unknowns(m - 1) + [Outcome(0, Unknown, true)]
  }

  function Writers(m: nat): (w: seq<Option<nat>>)
    ensures |w| == m && forall c :: Some(c) in w ==> c < m
  {
    if m == 0 then [] else Writers(m - 1) + [Some(m - 1)]
  }

  lemma {:induction false} UnknownsCount(m: nat)
    ensures |Unknowns(m)| == m && Attempts(Unknowns(m), 0) == m && OpenRows(Unknowns(m), [0]) == [0]
  {
    if m > 0 {
      UnknownsCount(m - 1);
      AttemptsAppend(Unknowns(m - 1), Outcome(0, Unknown, true), 0);
    }
    UnknownsAreOpen(m);
  }

  lemma {:induction false} UnknownsAreOpen(m: nat)
    ensures !Conclusive(Unknowns(m), 0) && forall o :: o in Unknowns(m) ==> o == Outcome(0, Unknown, true)
  {
    if m > 0 {
      UnknownsAreOpen(m - 1);
    }
  }

  function Numbers(m: nat, q: nat): (s: set<nat>)
    ensures forall c :: c in s <==> m <= c < m + q
  {
    if q == 0 then {} else Numbers(m, q - 1) + {m + q - 1}
  }

  /** After `m` passes one by one, `q` more have counted and `w` of those have written. */
  function Together(m: nat, max: nat, q: nat, w: nat): Run
    requires w <= q
  {
    Run(Unknowns(m + w), Writers(m + w),
        map c | c in Numbers(m, q) :: InFlight([], if c < m + w then None else Some(0), max, m))
  }

  lemma Extend(trace: seq<Run>, steps: seq<Step>, st: Step, next: Run, max: nat, p: nat)
    requires History(trace, steps) && Crowd(trace, steps, 0, max, p)
    requires Can(trace[|trace| - 1], st) && After(trace[|trace| - 1], st) == next
    requires |Probing(next, 0)| <= p && (st.Start? ==> st.max <= max)
    ensures History(trace + [next], steps + [st]) && Crowd(trace + [next], steps + [st], 0, max, p)
  {
    hide Can, After, Probing;
    var trace', steps' := trace + [next], steps + [st];
    forall k | 0 <= k < |steps'| ensures Can(trace'[k], steps'[k]) && trace'[k + 1] == After(trace'[k], steps'[k]) {
      if k < |steps| {
        assert steps'[k] == steps[k] && trace'[k] == trace[k] && trace'[k + 1] == trace[k + 1];
      }
    }
  }

  /** One more pass starts and counts. */
  lemma JoinSteps(m: nat, max: nat, q: nat)
    requires m < max
    ensures var run, c := Together(m, max, q, 0), m + q;
      var started := run.(passes := run.passes[c := InFlight([0], None, max, m)]);
      && Can(run, Start(c, [0], max)) && After(run, Start(c, [0], max)) == started
      && Can(started, Count(c)) && After(started, Count(c)) == Together(m, max, q + 1, 0)
      && Probing(started, 0) == Probing(run, 0)
  {
    hide Attempts, OpenRows, Conclusive;
    UnknownsCount(m);
    var run, c := Together(m, max, q, 0), m + q;
    var started := run.(passes := run.passes[c := InFlight([0], None, max, m)]);
    assert [0][1..] == [];
    assert After(started, Count(c)).passes == Together(m, max, q + 1, 0).passes;
  }

  /** One of them writes. */
  lemma WriteStep(m: nat, max: nat, q: nat, w: nat)
    requires w < q
    ensures var run, st := Together(m, max, q, w), Write(m + w, ProbeUnknown);
      Can(run, st) && After(run, st) == Together(m, max, q, w + 1)
  {
    assert After(Together(m, max, q, w), Write(m + w, ProbeUnknown)).passes == Together(m, max, q, w + 1).passes;
  }

  lemma {:induction false} TogetherProbe(m: nat, max: nat, q: nat, w: nat)
    requires w <= q
    ensures |Probing(Together(m, max, q, w), 0)| == q - w
    decreases q - w
  {
    if w == q {
      assert Probing(Together(m, max, q, w), 0) == {};
    } else {
      TogetherProbe(m, max, q, w + 1);
      assert Probing(Together(m, max, q, w), 0) == Probing(Together(m, max, q, w + 1), 0) + {m + w};
    }
  }

  lemma {:induction false} OneByOne(m: nat, max: nat, p: nat) returns (trace: seq<Run>, steps: seq<Step>)
    requires m < max && p >= 1
    ensures History(trace, steps) && Crowd(trace, steps, 0, max, p) && trace[|trace| - 1] == Together(m, max, 0, 0)
    decreases m, 1, 0
  {
    hide Can, After, Probing;
    if m == 0 {
      trace, steps := [Together(0, max, 0, 0)], [];
      TogetherProbe(0, max, 0, 0);
    } else {
      trace, steps := AllCount(m - 1, max, p, 1);
      TogetherProbe(m - 1, max, 1, 1);
      WriteStep(m - 1, max, 1, 0);
      Extend(trace, steps, Write(m - 1, ProbeUnknown), Together(m - 1, max, 1, 1), max, p);
      trace, steps := trace + [Together(m - 1, max, 1, 1)], steps + [Write(m - 1, ProbeUnknown)];
      LeaveStep(m - 1, max);
      TogetherProbe(m, max, 0, 0);
      Extend(trace, steps, Stop(m - 1), Together(m, max, 0, 0), max, p);
      trace, steps := trace + [Together(m, max, 0, 0)], steps + [Stop(m - 1)];
    }
  }

  lemma LeaveStep(m: nat, max: nat)
    ensures var run := Together(m, max, 1, 1); Can(run, Stop(m)) && After(run, Stop(m)) == Together(m + 1, max, 0, 0)
  {
    assert After(Together(m, max, 1, 1), Stop(m)).passes == Together(m + 1, max, 0, 0).passes;
  }

  lemma {:induction false} AllCount(m: nat, max: nat, p: nat, q: nat) returns (trace: seq<Run>, steps: seq<Step>)
    requires m < max && q <= p && p >= 1
    ensures History(trace, steps) && Crowd(trace, steps, 0, max, p) && trace[|trace| - 1] == Together(m, max, q, 0)
    decreases m, 2, q
  {
    hide Can, After, Probing;
    if q == 0 {
      trace, steps := OneByOne(m, max, p);
    } else {
      trace, steps := AllCount(m, max, p, q - 1);
      var run, c := Together(m, max, q - 1, 0), m + q - 1;
      var started := run.(passes := run.passes[c := InFlight([0], None, max, m)]);
      JoinSteps(m, max, q - 1);
      TogetherProbe(m, max, q - 1, 0);
      TogetherProbe(m, max, q, 0);
      Extend(trace, steps, Start(c, [0], max), started, max, p);
      trace, steps := trace + [started], steps + [Start(c, [0], max)];
      Extend(trace, steps, Count(c), Together(m, max, q, 0), max, p);
      trace, steps := trace + [Together(m, max, q, 0)], steps + [Count(c)];
    }
  }

  lemma {:induction false} SomeWrite(m: nat, max: nat, p: nat, w: nat) returns (trace: seq<Run>, steps: seq<Step>)
    requires m < max && w <= p && p >= 1
    ensures History(trace, steps) && Crowd(trace, steps, 0, max, p) && trace[|trace| - 1] == Together(m, max, p, w)
  {
    hide Can, After, Probing;
    if w == 0 {
      trace, steps := AllCount(m, max, p, p);
    } else {
      trace, steps := SomeWrite(m, max, p, w - 1);
      WriteStep(m, max, p, w - 1);
      TogetherProbe(m, max, p, w);
      Extend(trace, steps, Write(m + w - 1, ProbeUnknown), Together(m, max, p, w), max, p);
      trace, steps := trace + [Together(m, max, p, w)], steps + [Write(m + w - 1, ProbeUnknown)];
    }
  }

  /** The bound is exact: `p` passes side by side do take a row to `max + p - 1`, so two overrun any policy by one. */
  lemma BoundIsReached(max: nat, p: nat) returns (trace: seq<Run>, steps: seq<Step>)
    requires max >= 1 && p >= 1
    ensures History(trace, steps) && Crowd(trace, steps, 0, max, p)
    ensures Attempts(trace[|trace| - 1].outcomes, 0) == MostProbes(max, p)
  {
    hide Can, After, Probing;
    trace, steps := SomeWrite(max - 1, max, p, p);
    UnknownsCount(max - 1 + p);
  }
}
