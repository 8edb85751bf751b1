/**
 * The governed-writer ingress rules of cadp/kernel/ingress.ts and the two partial unique indexes of
 * cadp/kernel/store.ts behind them: replay idempotency and one governed edge per predecessor.
 */
module Governed {
  import opened Wrappers
  import opened Intake

  /** A sealed envelope row: the finding, its source and the rest of its semantic payload, its edge key. */
  datatype Row = Row(finding: Finding, source: string, rest: string, edge: Option<Ref>)

  /** The two registry opt-ins of a producer. */
  datatype Adapter = Adapter(replayUnique: bool, edgeSingleton: bool)

  datatype Rule = Replay | Edge

  /** GOVERNED_SEAL_CONFLICT: the refused source, the envelope that holds the key, the predecessor. */
  datatype Incident = Incident(rule: Rule, refused: string, holder: Id, predecessor: Option<Ref>)

  datatype Outcome =
    | Sealed(row: Row)
    | ShapeInvalid
    | Conflict(rule: Rule)
    | UniqueViolation

  /** `governedEdgeKeyOf`: exactly one exact reference, or no key at all. */
  function EdgeKeyOf(f: Finding): Option<Ref> {
    if |f.supersedes| == 1 && f.supersedes[0].digest != "" then Some(f.supersedes[0]) else None
  }

  /** The payload compared on a collision: everything but identity, producer and source. */
  predicate SamePayload(a: Row, b: Row) {
    && a.finding.subject == b.finding.subject && a.finding.classification == b.finding.classification
    && a.finding.supersedes == b.finding.supersedes && a.finding.derivation == b.finding.derivation
    && a.rest == b.rest
  }

  /** First row of `producer` with this source, in insertion order. */
  function BySource(rows: seq<Row>, producer: string, source: string): (r: Option<Row>)
    ensures r.Some? ==> r.value in rows && r.value.finding.producer == producer && r.value.source == source
    ensures r.None? ==> forall x :: x in rows ==> !(x.finding.producer == producer && x.source == source)
  {
    if rows == [] then None
    else if rows[0].finding.producer == producer && rows[0].source == source then Some(rows[0])
    else BySource(rows[1..], producer, source)
  }

  function ByEdge(rows: seq<Row>, producer: string, edge: Ref): (r: Option<Row>)
    ensures r.Some? ==> r.value in rows && r.value.finding.producer == producer && r.value.edge == Some(edge)
    ensures r.None? ==> forall x :: x in rows ==> !(x.finding.producer == producer && x.edge == Some(edge))
  {
    if rows == [] then None
    else if rows[0].finding.producer == producer && rows[0].edge == Some(edge) then Some(rows[0])
    else ByEdge(rows[1..], producer, edge)
  }

  /** `governed_replay_unique` and `governed_edge_unique`: both scoped to the governed producer. */
  predicate Collides(a: Row, b: Row) {
    && a.finding.producer == GOVERNED_PRODUCER == b.finding.producer
    && (a.source == b.source || (a.edge.Some? && a.edge == b.edge))
  }

  ghost predicate Indexed(rows: seq<Row>) {
    forall i, j :: 0 <= i < j < |rows| ==> !Collides(rows[i], rows[j]) && rows[i].finding.id != rows[j].finding.id
  }

  // ---------------------------------------------------------------- one submission, as a function of the rows

  /** An envelope about to be written, with what the registry says of its producer at that moment. */
  datatype Submission = Submission(finding: Finding, source: string, rest: string, adapter: Adapter)

  /** Without the edge opt-in the row carries no edge key, whatever it supersedes. */
  function DraftOf(s: Submission): Row {
    Row(s.finding, s.source, s.rest, if s.adapter.edgeSingleton then EdgeKeyOf(s.finding) else None)
  }

  /** The row a lookup finds first, under the replay key and then under the edge key. */
  function Held(rows: seq<Row>, s: Submission): Option<(Rule, Row)> {
    var d := DraftOf(s);
    var replayed := if s.adapter.replayUnique then BySource(rows, s.finding.producer, s.source) else None;
    var held := if d.edge.Some? then ByEdge(rows, s.finding.producer, d.edge.value) else None;
    if replayed.Some? then Some((Replay, replayed.value)) else if held.Some? then Some((Edge, held.value)) else None
  }

  /** The answer; a producer without opt-ins meets only the unique indexes. */
  function Answer(rows: seq<Row>, s: Submission): Outcome {
    var d, held := DraftOf(s), Held(rows, s);
    if s.adapter.edgeSingleton && d.edge.None? then ShapeInvalid
    else if held.Some? then if SamePayload(held.value.1, d) then Sealed(held.value.1) else Conflict(held.value.0)
    else if exists r :: r in rows && (Collides(r, d) || r.finding.id == d.finding.id) then UniqueViolation
    else Sealed(d)
  }

  function After(rows: seq<Row>, s: Submission): seq<Row> {
    var answer := Answer(rows, s);
    if answer.Sealed? && answer.row !in rows then rows + [DraftOf(s)] else rows
  }

  /** The evidence table after any submissions, from the empty store. */
  function StoreAfter(subs: seq<Submission>): seq<Row> {
    if subs == [] then [] else After(StoreAfter(subs[..|subs| - 1]), subs[|subs| - 1])
  }

  /** Every governed row was written by the singleton rule, so it carries the key of its own list. */
  ghost predicate GovernedRowsKeyed(rows: seq<Row>) {
    forall r :: r in rows && r.finding.producer == GOVERNED_PRODUCER ==>
      r.edge.Some? && r.edge == EdgeKeyOf(r.finding)
  }

  class GovernedStore {
    var rows: seq<Row>
    var incidents: seq<Incident>

    ghost predicate Valid()
      reads this
    {
      Indexed(rows)
    }

    constructor ()
      ensures Valid() && GovernedRowsKeyed(rows) && rows == [] && incidents == []
    {
      rows, incidents := [], [];
    }

    /**
     * `submitEvidence` from the sealed draft on. Lookup before insert under both keys, in one transaction. A replay
     * or a restatement returns the row already held; a different payload under a held key writes no row and seals
     * one incident.
     */
    method InsertGovernedEvidence(finding: Finding, source: string, rest: string, adapter: Adapter)
      returns (outcome: Outcome)
      requires Valid()
      modifies this
      ensures Valid()
      ensures outcome == Answer(old(rows), Submission(finding, source, rest, adapter))
      ensures rows == After(old(rows), Submission(finding, source, rest, adapter))
      ensures (finding.producer == GOVERNED_PRODUCER ==> adapter.edgeSingleton) && old(GovernedRowsKeyed(rows)) ==>
                GovernedRowsKeyed(rows)
      ensures old(rows) <= rows && |rows| <= |old(rows)| + 1
      ensures outcome == ShapeInvalid <==> adapter.edgeSingleton && EdgeKeyOf(finding).None?
      ensures outcome.Sealed? ==>
        var draft := Row(finding, source, rest, if adapter.edgeSingleton then EdgeKeyOf(finding) else None);
        && outcome.row in rows && SamePayload(outcome.row, draft)
        && (outcome.row in old(rows) ==> rows == old(rows))
        && (outcome.row !in old(rows) ==> outcome.row == draft && rows == old(rows) + [draft])
        && (adapter.replayUnique ==>
              forall r :: r in old(rows) && r.finding.producer == finding.producer && r.source == source ==>
                outcome.row in old(rows) && outcome.row.source == source)
      ensures !outcome.Sealed? ==> rows == old(rows)
      ensures outcome.Conflict? ==>
        && |incidents| == |old(incidents)| + 1 && incidents[..|old(incidents)|] == old(incidents)
        && var i := incidents[|old(incidents)|];
           i.rule == outcome.rule && i.refused == source
           && i.predecessor == (if adapter.edgeSingleton then EdgeKeyOf(finding) else None)
           && exists r ::
                && r in old(rows) && r.finding.id == i.holder && !SamePayload(r, Row(finding, source, rest, None))
                && r.finding.producer == finding.producer
                && (if outcome.rule == Replay then r.source == source else r.edge.Some? && r.edge == i.predecessor)
      ensures !outcome.Conflict? ==> incidents == old(incidents)
    {
      var edge := None;
      if adapter.edgeSingleton {
        edge := EdgeKeyOf(finding);
        if edge.None? {
          return ShapeInvalid;
        }
      }
      var draft := Row(finding, source, rest, edge);
      if adapter.replayUnique {
        var existing := BySource(rows, finding.producer, source);
        if existing.Some? {
          if SamePayload(existing.value, draft) {
            return Sealed(existing.value);
          }
          incidents := incidents + [Incident(Replay, source, existing.value.finding.id, edge)];
          return Conflict(Replay);
        }
      }
      if edge.Some? {
        var held := ByEdge(rows, finding.producer, edge.value);
        if held.Some? {
          if SamePayload(held.value, draft) {
            return Sealed(held.value);
          }
          incidents := incidents + [Incident(Edge, source, held.value.finding.id, edge)];
          return Conflict(Edge);
        }
      }
      if exists r :: r in rows && (Collides(r, draft) || r.finding.id == finding.id) {
        return UniqueViolation;
      }
      rows := rows + [draft];
      return Sealed(draft);
    }
  }

  /** An admission's findings are envelopes of the store. */
  ghost predicate DrawnFrom(e: Evidence, rows: seq<Row>) {
    forall i :: i in e.findings ==> e.findings[i].id == i && exists r :: r in rows && r.finding == e.findings[i]
  }

  /** The store's index is what makes governed edges unique in everything an admission can present. */
  lemma StoreUniquenessReachesEvidence(e: Evidence, rows: seq<Row>)
    requires Indexed(rows) && GovernedRowsKeyed(rows) && DrawnFrom(e, rows)
    ensures OneGovernedEdge(e)
  {
    forall i, j | i in e.findings && j in e.findings && SameGovernedKey(e.findings[i], e.findings[j])
      ensures i == j
    {
      var r :| r in rows && r.finding == e.findings[i];
      var s :| s in rows && s.finding == e.findings[j];
      assert r.edge == EdgeKeyOf(r.finding) && s.edge == EdgeKeyOf(s.finding) && r.edge == s.edge;
      CollidingRowsAreOne(rows, r, s);
    }
  }

  lemma CollidingRowsAreOne(rows: seq<Row>, r: Row, s: Row)
    requires Indexed(rows) && r in rows && s in rows && Collides(r, s)
    ensures r == s
  {
    var x :| 0 <= x < |rows| && rows[x] == r;
    var y :| 0 <= y < |rows| && rows[y] == s;
    assert Collides(s, r);
    assert x == y;
  }

  // ---------------------------------------------------------------- every store

  lemma AfterKeepsIndex(rows: seq<Row>, s: Submission)
    requires Indexed(rows)
    ensures Indexed(After(rows, s))
  {
    hide SamePayload, EdgeKeyOf;
  }

  lemma {:induction false} StoreIsIndexed(subs: seq<Submission>)
    ensures Indexed(StoreAfter(subs))
  {
    if subs != [] {
      StoreIsIndexed(subs[..|subs| - 1]);
      AfterKeepsIndex(StoreAfter(subs[..|subs| - 1]), subs[|subs| - 1]);
    }
  }

  /** Whenever the governed producer wrote, the registry then active gave it the edge opt-in. */
  predicate OptedIn(subs: seq<Submission>) {
    forall s :: s in subs && s.finding.producer == GOVERNED_PRODUCER ==> s.adapter.edgeSingleton
  }

  lemma {:induction false} OptedInStoreIsKeyed(subs: seq<Submission>)
    requires OptedIn(subs)
    ensures GovernedRowsKeyed(StoreAfter(subs))
  {
    if subs != [] {
      OptedInStoreIsKeyed(subs[..|subs| - 1]);
      assert subs[|subs| - 1] in subs;
    }
  }

  /**
   * Main: over any submissions, governed or not, in which the governed producer always wrote under the edge
   * opt-in, no choice of an admission's evidence from the store can hide what blocks a presented tip.
   */
  lemma NoEvidenceListClears(subs: seq<Submission>, small: Evidence, big: Evidence, landed: set<Landed>, tip: Id)
    requires OptedIn(subs) && DrawnFrom(big, StoreAfter(subs))
    requires Omits(small, big) && ImplementationClear(small, landed, tip)
    ensures ImplementationClear(big, landed, tip)
  {
    hide StoreAfter, Indexed, GovernedRowsKeyed, ContractBarrier;
    StoreIsIndexed(subs);
    OptedInStoreIsKeyed(subs);
    StoreUniquenessReachesEvidence(big, StoreAfter(subs));
    if ContractBarrier(big, landed, tip) {
      OmissionNeverClears(small, big, landed, tip);
    }
  }

  // ---------------------------------------------------------------- the opt-in is what it rests on

  predicate RunsUnder(subs: seq<Submission>, x: Adapter) {
    forall s :: s in subs && s.finding.producer == GOVERNED_PRODUCER ==> s.adapter == x
  }

  /** With the registry entry `x` of the governed producer, omitting evidence never clears. */
  ghost predicate NeverClears(x: Adapter) {
    forall subs, small, big, landed, tip ::
      RunsUnder(subs, x) && DrawnFrom(big, StoreAfter(subs)) && Omits(small, big)
        && ImplementationClear(small, landed, tip) ==>
        ImplementationClear(big, landed, tip)
  }

  const PLAIN := Adapter(false, false)

  /** A contract-class finding and two governed rows that supersede it, for two effects. */
  function Rivals(x: Adapter): seq<Submission> {
    [Submission(Origin, "s1", "", PLAIN), Submission(Sibling, "s2", "", x), Submission(Rival, "s3", "", x)]
  }

  lemma RivalsAreStored(x: Adapter)
    requires !x.edgeSingleton
    ensures StoreAfter(Rivals(x)) == [Row(Origin, "s1", "", None), Row(Sibling, "s2", "", None),
      Row(Rival, "s3", "", None)]
  {
    hide SamePayload, EdgeKeyOf;
    var subs := Rivals(x);
    assert subs[..2][..1][..0] == [] && subs[..2][..1] == [subs[0]] && subs[..2] == [subs[0], subs[1]];
    assert StoreAfter([]) == [];
    var one := StoreAfter(subs[..2][..1]);
    assert one == [Row(Origin, "s1", "", None)];
    var two := StoreAfter(subs[..2]);
    assert two == one + [Row(Sibling, "s2", "", None)];
    assert BySource(one, GOVERNED_PRODUCER, "s2").None?;
    assert BySource(two, GOVERNED_PRODUCER, "s3").None?;
  }

  lemma RivalsAreDrawn(x: Adapter)
    requires !x.edgeSingleton
    ensures DrawnFrom(WithRival, StoreAfter(Rivals(x)))
  {
    RivalsAreStored(x);
    var rows := StoreAfter(Rivals(x));
    assert rows[0].finding == Origin && rows[1].finding == Sibling && rows[2].finding == Rival;
  }

  /**
   * Main: the registry entry of the governed producer protects every admission exactly when it carries the edge
   * opt-in. The configuration check only reserves that opt-in for this producer, it does not require it; the
   * replay opt-in does not help, since two effects write under two sources.
   */
  lemma OptInIsExact(x: Adapter)
    ensures NeverClears(x) <==> x.edgeSingleton
  {
    hide StoreAfter, DrawnFrom, ImplementationClear;
    if x.edgeSingleton {
      forall subs, small, big, landed, tip
        | RunsUnder(subs, x) && DrawnFrom(big, StoreAfter(subs)) && Omits(small, big)
          && ImplementationClear(small, landed, tip)
        ensures ImplementationClear(big, landed, tip)
      {
        NoEvidenceListClears(subs, small, big, landed, tip);
      }
    } else {
      RivalsAreDrawn(x);
      OmissionClearsWithoutUniqueness();
      BarrierIsNotClear(WithRival, {}, 2);
      assert RunsUnder(Rivals(x), x);
    }
  }

  lemma BarrierIsNotClear(e: Evidence, landed: set<Landed>, tip: Id)
    requires ContractBarrier(e, landed, tip)
    ensures !ImplementationClear(e, landed, tip)
  {}
}
