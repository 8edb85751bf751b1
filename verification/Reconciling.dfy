/**
 * Outcomes and reconciliation: `writeOutcome` of cadp/kernel/pep.ts and one `reconcileEffect` of
 * cadp/kernel/reconciler.ts, with whatever others record while it awaits its adapter.
 */
module Reconciling {
  import opened Wrappers
  import opened Records
  import opened KernelRuns

  /** The rows an outcome touches. */
  datatype Books = Books(outcomes: seq<Outcome>, envelopes: map<Id, Envelope>)

  predicate Conclusive(outcomes: seq<Outcome>, row: nat) {
    HasOutcome(outcomes, row, Committed) || HasOutcome(outcomes, row, NoEffectConfirmed)
  }

  /** The other conclusive result is already recorded for the admission. */
  predicate Contradicts(outcomes: seq<Outcome>, row: nat, result: Verdict) {
    || (result == Committed && HasOutcome(outcomes, row, NoEffectConfirmed))
    || (result == NoEffectConfirmed && HasOutcome(outcomes, row, Committed))
  }

  function EffectIncident(e: Id): Envelope {
    Envelope(KernelIncident, {EffectSubject(e)}, None, None, {})
  }

  function Receipt(r: Request): Envelope {
    Envelope(OtherEvidence("TARGET_RECONCILIATION"), {EffectSubject(r.effect), r.target}, None, None, {})
  }

  const EXHAUSTED := OtherEvidence("RECONCILE_EXHAUSTED")

  function Exhaustion(e: Id): Envelope {
    Envelope(EXHAUSTED, {EffectSubject(e)}, None, None, {})
  }

  /** The effect has been routed to the Human exception branch. */
  predicate Routed(envelopes: map<Id, Envelope>, e: Id) {
    exists key :: key in envelopes && envelopes[key].kind == EXHAUSTED && EffectSubject(e) in envelopes[key].subjects
  }

  /** `writeOutcome`: the receipt of a conclusive result, an incident on a contradiction, and the outcome row. */
  function Written(b: Books, r: Request, row: nat, result: Verdict, byReconciler: bool, receipt: Id,
      incident: Id): Books
  {
    var received := if result == Unknown then b.envelopes else b.envelopes[receipt := Receipt(r)];
    Books(b.outcomes + [Outcome(row, result, byReconciler)],
          if Contradicts(b.outcomes, row, result) then received[incident := EffectIncident(r.effect)] else received)
  }

  /** `sealExhausted`: once for each effect. */
  function RoutedOnce(b: Books, e: Id, key: Id): Books {
    if Routed(b.envelopes, e) then b else b.(envelopes := b.envelopes[key := Exhaustion(e)])
  }

  /** The reconciler's own UNKNOWN outcomes of one admission. */
  function Attempts(outcomes: seq<Outcome>, row: nat): nat {
    if outcomes == [] then 0
    else
      var last := outcomes[|outcomes| - 1];
      Attempts(outcomes[..|outcomes| - 1], row) + (if last == Outcome(row, Unknown, true) then 1 else 0)
  }

  /** Rows with no conclusive outcome. */
  function OpenRows(outcomes: seq<Outcome>, rows: seq<nat>): (r: seq<nat>)
    ensures |r| <= |rows| && forall k :: 0 <= k < |r| ==> r[k] in rows
  {
    if rows == [] then []
    else (if Conclusive(outcomes, rows[0]) then [] else [rows[0]]) + OpenRows(outcomes, rows[1..])
  }

  predicate Ascends(rows: seq<nat>) {
    forall i, j :: 0 <= i < j < |rows| ==> rows[i] < rows[j]
  }

  lemma {:induction false} OpenRowsAreOpen(outcomes: seq<Outcome>, rows: seq<nat>)
    requires Ascends(rows)
    ensures Ascends(OpenRows(outcomes, rows))
    ensures forall k :: 0 <= k < |OpenRows(outcomes, rows)| ==> !Conclusive(outcomes, OpenRows(outcomes, rows)[k])
  {
    hide Conclusive;
    if rows != [] {
      OpenRowsAreOpen(outcomes, rows[1..]);
      var rest := OpenRows(outcomes, rows[1..]);
      forall k | 0 <= k < |rest| ensures rows[0] < rest[k] {
        assert rest[k] in rows[1..];
      }
    }
  }

  lemma {:induction false} OfAscends(rows: seq<Admission>, e: Id)
    ensures Ascends(Of(rows, e))
  {
    if rows != [] {
      OfAscends(rows[..|rows| - 1], e);
    }
  }

  // ---------------------------------------------------------------- one pass

  /** One await: the adapter's answer, what others recorded meanwhile, and the fresh ids of what the pass may seal. */
  datatype Wait = Wait(probe: Probe, others: seq<Outcome>, sealed: map<Id, Envelope>, receipt: Id, incident: Id,
                       mismatch: Id, exhausted: Id)

  /** One row of the pass. The probes of the row are counted before the await, the outcome is written after it. */
  function RowStep(b: Books, r: Request, row: nat, max: nat, w: Wait): Books {
    var counted := Attempts(b.outcomes, row);
    if counted >= max then RoutedOnce(b, r.effect, w.exhausted)
    else
      var late := Books(b.outcomes + w.others, b.envelopes + w.sealed);
      var checked := if w.probe == ProbeCommitted(false)
                     then late.(envelopes := late.envelopes[w.mismatch := EffectIncident(r.effect)]) else late;
      var written := Written(checked, r, row, GradeProbe(w.probe), true, w.receipt, w.incident);
      if w.probe.ProbeUnknown? && counted + 1 >= max then RoutedOnce(written, r.effect, w.exhausted) else written
  }

  function Pass(b: Books, r: Request, open: seq<nat>, max: nat, waits: seq<Wait>): Books
    requires |waits| == |open|
  {
    if open == [] then b
    else
      var n := |open| - 1;
      RowStep(Pass(b, r, open[..n], max, waits[..n]), r, open[n], max, waits[n])
  }

  /** What `reconcileEffect` answers: the last outcome the pass wrote, if any. */
  function LastWritten(b: Books, r: Request, open: seq<nat>, max: nat, waits: seq<Wait>): Option<Outcome>
    requires |waits| == |open|
  {
    if open == [] then None
    else
      var n := |open| - 1;
      if Attempts(Pass(b, r, open[..n], max, waits[..n]).outcomes, open[n]) < max
      then Some(Outcome(open[n], GradeProbe(waits[n].probe), true))
      else LastWritten(b, r, open[..n], max, waits[..n])
  }

  lemma AttemptsAppend(outcomes: seq<Outcome>, o: Outcome, row: nat)
    ensures Attempts(outcomes + [o], row) == Attempts(outcomes, row)
      + (if o == Outcome(row, Unknown, true) then 1 else 0)
  {
    assert (outcomes + [o])[..|outcomes|] == outcomes;
  }

  lemma {:induction false} AttemptsJoin(outcomes: seq<Outcome>, more: seq<Outcome>, row: nat)
    ensures Attempts(outcomes + more, row) == Attempts(outcomes, row) + Attempts(more, row)
  {
    if more == [] {
      assert outcomes + more == outcomes;
    } else {
      var n := |more| - 1;
      AttemptsJoin(outcomes, more[..n], row);
      assert more == more[..n] + [more[n]];
      assert outcomes + more == (outcomes + more[..n]) + [more[n]];
      AttemptsAppend(outcomes + more[..n], more[n], row);
    }
  }

  /** The probes of a row that others completed while this pass was at its awaits. */
  function OtherAttempts(waits: seq<Wait>, row: nat): nat {
    if waits == [] then 0 else OtherAttempts(waits[..|waits| - 1], row) + Attempts(waits[|waits| - 1].others, row)
  }

  /**
   * Main: one pass, alone or not, adds to a row's probes at most what brings them to the policy's bound, beyond
   * what others completed at its awaits. A pass that runs alone never takes them past the bound.
   */
  lemma {:induction false} PassIsBounded(b: Books, r: Request, open: seq<nat>, max: nat, waits: seq<Wait>, row: nat)
    requires |waits| == |open|
    ensures b.outcomes <= Pass(b, r, open, max, waits).outcomes
    ensures var before := Attempts(b.outcomes, row);
      Attempts(Pass(b, r, open, max, waits).outcomes, row) <= (if before > max then before else max)
        + OtherAttempts(waits, row)
  {
    if open != [] {
      var n := |open| - 1;
      PassIsBounded(b, r, open[..n], max, waits[..n], row);
      RowStepIsBounded(Pass(b, r, open[..n], max, waits[..n]), r, open[n], max, waits[n], row);
    }
  }

  /** What the pass itself adds goes to rows it listed as open, in its own name. */
  lemma {:induction false} PassWritesOpenRows(b: Books, r: Request, open: seq<nat>, max: nat, waits: seq<Wait>,
      o: Outcome)
    requires |waits| == |open| && o in Pass(b, r, open, max, waits).outcomes && o !in b.outcomes
    requires forall w :: w in waits ==> o !in w.others
    ensures o.byReconciler && o.admission in open
  {
    if open != [] {
      var n := |open| - 1;
      var before := Pass(b, r, open[..n], max, waits[..n]);
      assert waits[n] in waits;
      RowStepWrites(before, r, open[n], max, waits[n], o);
      if o in before.outcomes {
        PassWritesOpenRows(b, r, open[..n], max, waits[..n], o);
      }
    }
  }

  lemma RowStepWrites(b: Books, r: Request, row: nat, max: nat, w: Wait, o: Outcome)
    requires o in RowStep(b, r, row, max, w).outcomes
    ensures o in b.outcomes || o in w.others || (o.byReconciler && o.admission == row)
  {
    hide Attempts, Routed, Contradicts;
  }

  lemma RowStepIsBounded(b: Books, r: Request, next: nat, max: nat, w: Wait, row: nat)
    ensures var after := RowStep(b, r, next, max, w).outcomes;
      && b.outcomes <= after
      && Attempts(after, row) <= Attempts(b.outcomes, row) + Attempts(w.others, row)
           + (if row == next && Attempts(b.outcomes, row) < max then 1 else 0)
  {
    hide Routed, Contradicts, Attempts, Receipt;
    AttemptsJoin(b.outcomes, w.others, row);
    AttemptsAppend(b.outcomes + w.others, Outcome(next, GradeProbe(w.probe), true), row);
  }
}
