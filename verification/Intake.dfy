/**
 * The intake barrier over the supersession graph: the Rego rules of
 * cadp/deployment/referencePolicy.ts as predicates over the presented evidence.
 */
module Intake {
  import opened Wrappers

  /** Evidence ids; the source compares them with `<` only to order two distinct ones. */
  type Id = nat

  /** One `supersedes[]` entry: the predecessor's id and the digest the author claims for it. */
  datatype Ref = Ref(id: Id, digest: string)

  /**
   * A PRESENT `IMPROVEMENT_FINDING`. `subject` is the normalized primary subject tuple, absent when
   * `binding_index` names no binding; an absent classification is the empty string.
   */
  datatype Finding = Finding(
    id: Id, digest: string, producer: string, authenticated: bool, derivation: string,
    classification: string, subject: Option<string>, supersedes: seq<Ref>)

  /** A PRESENT `IMPROVEMENT_FINDING_RESOLUTION`. */
  datatype Resolution = Resolution(producer: string, kind: string, tip: Ref, authority: string)

  /** One entry of the active policy's `landed_authority_resolutions`. */
  datatype Landed = Landed(finding: Id, digest: string, authority: string)

  /** The presented envelopes; evidence ids are primary keys of the store, so an id names one of them. */
  datatype Evidence = Evidence(findings: map<Id, Finding>, resolutions: set<Resolution>)

  const GOVERNED_PRODUCER := "governed:reclassification"
  const INTAKE_PRODUCER := "intake:cadp-improvement"
  const CONTRACT_CLASSES: set<string> := {"CONTRACT_GAP", "CONTRACT_AMBIGUITY", "CONTRACT_CONTRADICTION"}

  // ---------------------------------------------------------------- the graph and its closure

  type Graph = map<Id, set<Id>>

  function Predecessors(f: Finding): (ids: set<Id>)
    ensures forall s :: s in f.supersedes ==> s.id in ids
    ensures forall i :: i in ids ==> exists s :: s in f.supersedes && s.id == i
  {
    set s | s in f.supersedes :: s.id
  }

  function Referenced(e: Evidence): set<Id> {
    set i, p | i in e.findings && p in Predecessors(e.findings[i]) :: p
  }

  /** `finding_graph`: referenced but unpresented predecessors are materialized as empty nodes. */
  function FindingGraph(e: Evidence): Graph {
    map i | i in e.findings.Keys + Referenced(e) ::
      if i in e.findings then Predecessors(e.findings[i]) else {}
  }

  function Successors(g: Graph, nodes: set<Id>): set<Id>
    requires nodes <= g.Keys
  {
    set n, m | n in nodes && m in g[n] :: m
  }

  /** The OPA built-in `graph.reachable`: a breadth-first closure that drops nodes that are not keys. */
  function Closure(g: Graph, frontier: set<Id>, reached: set<Id>): set<Id>
    requires reached <= g.Keys
    decreases g.Keys - reached
  {
    var next := (frontier * g.Keys) - reached;
    if next == {} then reached else Closure(g, Successors(g, next), reached + next)
  }

  function Ancestry(e: Evidence, tip: Id): set<Id> {
    Closure(FindingGraph(e), {tip}, {})
  }

  /** `p` walks the supersession edges from a descendant `p[0]` to an ancestor. */
  ghost predicate Walk(g: Graph, p: seq<Id>) {
    && p != []
    && (forall k :: 0 <= k < |p| ==> p[k] in g)
    && forall k :: 0 <= k < |p| - 1 ==> p[k + 1] in g[p[k]]
  }

  ghost predicate Joins(g: Graph, from: Id, to: Id, p: seq<Id>) {
    Walk(g, p) && p[0] == from && p[|p| - 1] == to
  }

  lemma {:induction false} ClosureContains(g: Graph, frontier: set<Id>, reached: set<Id>)
    requires reached <= g.Keys
    requires forall n, m :: n in reached && m in g[n] && m in g ==> m in reached + frontier
    ensures var c := Closure(g, frontier, reached);
      && reached <= c <= g.Keys
      && frontier * g.Keys <= c
      && forall n, m :: n in c && m in g[n] && m in g ==> m in c
    decreases g.Keys - reached
  {
    var next := (frontier * g.Keys) - reached;
    assert frontier * g.Keys <= reached + next;
    if next != {} {
      ClosureContains(g, Successors(g, next), reached + next);
    }
  }

  lemma {:induction false} ClosureIsWalked(g: Graph, from: Id, frontier: set<Id>, reached: set<Id>)
    requires reached <= g.Keys
    requires forall n :: n in reached ==> exists p :: Joins(g, from, n, p)
    requires forall n :: n in frontier && n in g ==> exists p :: Joins(g, from, n, p)
    ensures forall n :: n in Closure(g, frontier, reached) ==> exists p :: Joins(g, from, n, p)
    decreases g.Keys - reached
  {
    var next := (frontier * g.Keys) - reached;
    if next != {} {
      forall m | m in Successors(g, next) && m in g
        ensures exists p :: Joins(g, from, m, p)
      {
        var n :| n in next && m in g[n];
        var p :| Joins(g, from, n, p);
        assert Joins(g, from, m, p + [m]);
      }
      ClosureIsWalked(g, from, Successors(g, next), reached + next);
    }
  }

  lemma {:induction false} WalkStaysInClosedSet(g: Graph, p: seq<Id>, c: set<Id>)
    requires Walk(g, p) && p[0] in c
    requires forall n, m :: n in c && n in g && m in g[n] && m in g ==> m in c
    ensures p[|p| - 1] in c
    decreases |p|
  {
    if |p| > 1 {
      assert p[1] in g[p[0]];
      WalkStaysInClosedSet(g, p[1..], c);
    }
  }

  /** The breadth-first closure is exactly path reachability, and only from a node of the graph. */
  lemma AncestryIsReachability(e: Evidence, tip: Id, n: Id)
    ensures n in Ancestry(e, tip) <==> exists p :: Joins(FindingGraph(e), tip, n, p)
  {
    var g := FindingGraph(e);
    ClosureContains(g, {tip}, {});
    if tip in g {
      assert Joins(g, tip, tip, [tip]);
    }
    ClosureIsWalked(g, tip, {tip}, {});
    if p :| Joins(g, tip, n, p) {
      WalkStaysInClosedSet(g, p, Ancestry(e, tip));
    }
  }

  /** Materialization: every edge leads to a node, so the closure never drops a predecessor. */
  lemma NoPredecessorVanishes(e: Evidence, i: Id, p: Id)
    requires i in FindingGraph(e) && p in FindingGraph(e)[i]
    ensures p in FindingGraph(e)
  {
    assert i in e.findings;
    assert p in Referenced(e);
  }

  lemma AncestryStep(e: Evidence, tip: Id, i: Id, s: Ref)
    requires i in Ancestry(e, tip) && i in e.findings && s in e.findings[i].supersedes
    ensures s.id in Ancestry(e, tip)
  {
    var g := FindingGraph(e);
    ClosureContains(g, {tip}, {});
    assert s.id in g[i];
    NoPredecessorVanishes(e, i, s.id);
  }

  lemma TipIsItsOwnAncestor(e: Evidence, tip: Id)
    requires tip in e.findings
    ensures tip in Ancestry(e, tip)
  {
    assert Joins(FindingGraph(e), tip, tip, [tip]);
    AncestryIsReachability(e, tip, tip);
  }

  // ---------------------------------------------------------------- the edge predicates

  predicate IsContract(f: Finding) {
    f.classification in CONTRACT_CLASSES
  }

  predicate Resolved(e: Evidence, s: Ref) {
    s.id in e.findings && e.findings[s.id].digest == s.digest
  }

  predicate SolePredecessor(e: Evidence, cid: Id, d: Finding) {
    |d.supersedes| == 1 && d.supersedes[0].id == cid && Resolved(e, d.supersedes[0])
  }

  predicate GovernedTransition(d: Finding) {
    && d.producer == GOVERNED_PRODUCER
    && d.authenticated
    && d.derivation in {"HUMAN_JUDGMENT", "DETERMINISTIC_DERIVATION"}
  }

  /** Rego's `==` and `!=` are both undefined when either side is. */
  predicate SameSubject(a: Finding, b: Finding) {
    a.subject.Some? && b.subject.Some? && a.subject == b.subject
  }

  predicate DifferentSubject(a: Finding, b: Finding) {
    a.subject.Some? && b.subject.Some? && a.subject != b.subject
  }

  predicate ClearingEdge(e: Evidence, cid: Id, d: Finding) {
    && cid in e.findings && SolePredecessor(e, cid, d)
    && IsContract(e.findings[cid]) && !IsContract(d)
    && SameSubject(d, e.findings[cid])
    && GovernedTransition(d)
  }

  predicate ContextTransferEdge(e: Evidence, cid: Id, d: Finding) {
    && cid in e.findings && SolePredecessor(e, cid, d)
    && IsContract(e.findings[cid]) && IsContract(d)
    && DifferentSubject(d, e.findings[cid])
    && GovernedTransition(d)
  }

  predicate DelegationEdge(e: Evidence, cid: Id, d: Finding) {
    || (&& cid in e.findings && SolePredecessor(e, cid, d)
        && IsContract(e.findings[cid]) && IsContract(d)
        && SameSubject(d, e.findings[cid]))
    || ContextTransferEdge(e, cid, d)
  }

  predicate ResolvedEntry(e: Evidence, cid: Id, d: Finding) {
    ClearingEdge(e, cid, d) || DelegationEdge(e, cid, d)
  }

  predicate GovernedResolver(e: Evidence, cid: Id, d: Finding) {
    ClearingEdge(e, cid, d) || ContextTransferEdge(e, cid, d)
  }

  ghost predicate Ambiguous(e: Evidence, cid: Id) {
    exists i, j :: i in e.findings && j in e.findings && i < j
      && GovernedResolver(e, cid, e.findings[i]) && GovernedResolver(e, cid, e.findings[j])
  }

  ghost predicate EntryResolved(e: Evidence, cid: Id, d: Finding) {
    ResolvedEntry(e, cid, d) && !Ambiguous(e, cid)
  }

  predicate Authorizes(l: Landed, r: Resolution, cid: Id, digest: string) {
    && l.digest != "" && l.authority != ""
    && l.finding == cid && l.digest == digest
    && r.producer == INTAKE_PRODUCER && r.kind == "AUTHORITY_RESOLUTION"
    && r.tip == Ref(cid, digest) && r.authority == l.authority
  }

  ghost predicate ValidResolution(e: Evidence, landed: set<Landed>, cid: Id) {
    cid in e.findings
    && exists l, r :: l in landed && r in e.resolutions && Authorizes(l, r, cid, e.findings[cid].digest)
  }

  // ---------------------------------------------------------------- the barrier

  /** A supersession entry of `d` into a presented contract-class finding that nothing discharges. */
  ghost predicate OpenEntry(e: Evidence, landed: set<Landed>, d: Finding, s: Ref) {
    && s in d.supersedes && s.id in e.findings && IsContract(e.findings[s.id])
    && !EntryResolved(e, s.id, d) && !ValidResolution(e, landed, s.id)
  }

  ghost predicate OpenEntryInChain(e: Evidence, landed: set<Landed>, tip: Id) {
    exists i, s :: i in Ancestry(e, tip) && i in e.findings && OpenEntry(e, landed, e.findings[i], s)
  }

  ghost predicate OpenTip(e: Evidence, landed: set<Landed>, tip: Id) {
    tip in e.findings && IsContract(e.findings[tip]) && !ValidResolution(e, landed, tip)
  }

  ghost predicate MissingAncestor(e: Evidence, tip: Id) {
    exists i :: i in Ancestry(e, tip) && i !in e.findings
  }

  ghost predicate UnresolvedReference(e: Evidence, tip: Id) {
    exists i, s :: i in Ancestry(e, tip) && i in e.findings && s in e.findings[i].supersedes && !Resolved(e, s)
  }

  ghost predicate ContractBarrier(e: Evidence, landed: set<Landed>, tip: Id) {
    || OpenEntryInChain(e, landed, tip)
    || OpenTip(e, landed, tip)
    || MissingAncestor(e, tip)
    || UnresolvedReference(e, tip)
  }

  ghost predicate ImplementationClear(e: Evidence, landed: set<Landed>, tip: Id) {
    tip in e.findings && !IsContract(e.findings[tip]) && !ContractBarrier(e, landed, tip)
  }

  // ---------------------------------------------------------------- omission never clears

  predicate SameGovernedKey(a: Finding, b: Finding) {
    GovernedTransition(a) && GovernedTransition(b) && |a.supersedes| == 1 && a.supersedes == b.supersedes
  }

  /** The store's partial unique index: one governed singleton edge per exact predecessor. */
  ghost predicate OneGovernedEdge(e: Evidence) {
    forall i, j | i in e.findings && j in e.findings :: SameGovernedKey(e.findings[i], e.findings[j]) ==> i == j
  }

  ghost predicate Omits(small: Evidence, big: Evidence) {
    && (forall i :: i in small.findings ==> i in big.findings && small.findings[i] == big.findings[i])
    && small.resolutions <= big.resolutions
  }

  lemma UniquenessForbidsAmbiguity(e: Evidence, cid: Id)
    requires OneGovernedEdge(e)
    ensures !Ambiguous(e, cid)
  {
    forall i, j | i in e.findings && j in e.findings
      && GovernedResolver(e, cid, e.findings[i]) && GovernedResolver(e, cid, e.findings[j])
      ensures i == j
    {
      assert e.findings[i].supersedes == [Ref(cid, e.findings[cid].digest)] == e.findings[j].supersedes;
      assert SameGovernedKey(e.findings[i], e.findings[j]);
    }
  }

  /** A walk of the full graph either survives the omission or meets an ancestor that was omitted. */
  lemma {:induction false} WalkSurvivesOrBreaks(small: Evidence, big: Evidence, tip: Id, p: seq<Id>)
    requires Omits(small, big) && Walk(FindingGraph(big), p)
    requires p[0] in Ancestry(small, tip)
    ensures MissingAncestor(small, tip) || p[|p| - 1] in Ancestry(small, tip)
    decreases |p|
  {
    if p[0] in small.findings && |p| > 1 {
      assert p[1] in FindingGraph(big)[p[0]];
      var s :| s in small.findings[p[0]].supersedes && s.id == p[1];
      AncestryStep(small, tip, p[0], s);
      assert Walk(FindingGraph(big), p[1..]);
      WalkSurvivesOrBreaks(small, big, tip, p[1..]);
    }
  }

  lemma AncestorSurvivesOrBreaks(small: Evidence, big: Evidence, tip: Id, n: Id)
    requires Omits(small, big) && tip in small.findings && n in Ancestry(big, tip)
    ensures MissingAncestor(small, tip) || n in Ancestry(small, tip)
  {
    AncestryIsReachability(big, tip, n);
    var p :| Joins(FindingGraph(big), tip, n, p);
    TipIsItsOwnAncestor(small, tip);
    WalkSurvivesOrBreaks(small, big, tip, p);
  }

  lemma OpenEntrySurvives(small: Evidence, big: Evidence, landed: set<Landed>, tip: Id, i: Id, s: Ref)
    requires Omits(small, big) && OneGovernedEdge(big)
    requires i in Ancestry(small, tip) && i in small.findings && OpenEntry(big, landed, big.findings[i], s)
    ensures ContractBarrier(small, landed, tip)
  {
    AncestryStep(small, tip, i, s);
    if s.id in small.findings {
      UniquenessForbidsAmbiguity(big, s.id);
      assert OpenEntry(small, landed, small.findings[i], s);
    }
  }

  /** Main: leaving evidence out of an admission can never lift the barrier on a presented tip. */
  lemma OmissionNeverClears(small: Evidence, big: Evidence, landed: set<Landed>, tip: Id)
    requires Omits(small, big) && OneGovernedEdge(big) && tip in small.findings
    requires ContractBarrier(big, landed, tip)
    ensures ContractBarrier(small, landed, tip)
  {
    if OpenEntryInChain(big, landed, tip) {
      var i, s :| i in Ancestry(big, tip) && i in big.findings && OpenEntry(big, landed, big.findings[i], s);
      AncestorSurvivesOrBreaks(small, big, tip, i);
      if i in Ancestry(small, tip) && i in small.findings {
        OpenEntrySurvives(small, big, landed, tip, i, s);
      }
    } else if OpenTip(big, landed, tip) {
      assert OpenTip(small, landed, tip);
    } else if MissingAncestor(big, tip) {
      var i :| i in Ancestry(big, tip) && i !in big.findings;
      AncestorSurvivesOrBreaks(small, big, tip, i);
    } else {
      var i, s :| i in Ancestry(big, tip) && i in big.findings && s in big.findings[i].supersedes && !Resolved(big, s);
      AncestorSurvivesOrBreaks(small, big, tip, i);
      if i in Ancestry(small, tip) && i in small.findings {
        assert s in small.findings[i].supersedes && !Resolved(small, s);
      }
    }
  }

  // Two governed siblings of one contract-class finding, and the input that omits the second.
  const Origin := Finding(1, "a", INTAKE_PRODUCER, true, "", "CONTRACT_GAP", Some("s"), [])
  const Sibling := Finding(2, "b", GOVERNED_PRODUCER, true, "HUMAN_JUDGMENT", "BUG", Some("s"), [Ref(1, "a")])
  const Rival := Finding(3, "c", GOVERNED_PRODUCER, true, "HUMAN_JUDGMENT", "BUG", Some("s"), [Ref(1, "a")])
  const WithRival := Evidence(map[1 := Origin, 2 := Sibling, 3 := Rival], {})
  const WithoutRival := Evidence(map[1 := Origin, 2 := Sibling], {})

  lemma SiblingGraph(e: Evidence)
    requires e == WithoutRival || e == WithRival
    ensures 1 in FindingGraph(e) && 2 in FindingGraph(e) && FindingGraph(e)[1] == {} && FindingGraph(e)[2] == {1}
  {
    assert Predecessors(Origin) == {};
    assert Predecessors(Sibling) == {1} by { assert Ref(1, "a") in Sibling.supersedes; }
  }

  lemma SiblingAncestry(e: Evidence)
    requires e == WithoutRival || e == WithRival
    ensures Ancestry(e, 2) == {1, 2}
  {
    hide FindingGraph;
    var g := FindingGraph(e);
    SiblingGraph(e);
    assert ({2} * g.Keys) - {} == {2};
    assert Successors(g, {2}) == {1};
    assert ({1} * g.Keys) - {2} == {1};
    assert Successors(g, {1}) == {};
    assert ({} * g.Keys) - {1, 2} == {};
    calc {
      Ancestry(e, 2);
      Closure(g, {1}, {} + {2});
      { assert {} + {2} == {2}; }
      Closure(g, {1}, {2});
      Closure(g, {}, {2} + {1});
      { assert {2} + {1} == {1, 2}; }
      Closure(g, {}, {1, 2});
      ({1, 2});
    }
  }

  lemma RivalRaisesBarrier()
    ensures ContractBarrier(WithRival, {}, 2) && !OneGovernedEdge(WithRival)
  {
    SiblingAncestry(WithRival);
    var e := WithRival;
    assert e.findings[1] == Origin && e.findings[2] == Sibling && e.findings[3] == Rival;
    assert SameGovernedKey(e.findings[2], e.findings[3]);
    assert ClearingEdge(e, 1, Sibling) && ClearingEdge(e, 1, Rival);
    assert Ambiguous(e, 1);
    assert Ref(1, "a") in Sibling.supersedes;
    assert OpenEntry(e, {}, Sibling, Ref(1, "a"));
  }

  lemma SiblingAloneIsClear()
    ensures ImplementationClear(WithoutRival, {}, 2)
  {
    hide Ancestry;
    SiblingAncestry(WithoutRival);
    var e := WithoutRival;
    assert e.findings[1] == Origin && e.findings[2] == Sibling;
    assert ClearingEdge(e, 1, Sibling);
    assert Origin.supersedes == [];
    assert EntryResolved(e, 1, Sibling);
  }

  /** Uniqueness is needed: with two governed edges, omitting one of them lifts the barrier. */
  lemma OmissionClearsWithoutUniqueness()
    ensures Omits(WithoutRival, WithRival) && 2 in WithoutRival.findings
    ensures ContractBarrier(WithRival, {}, 2) && ImplementationClear(WithoutRival, {}, 2)
    ensures !OneGovernedEdge(WithRival)
  {
    RivalRaisesBarrier();
    SiblingAloneIsClear();
  }

  // ---------------------------------------------------------------- barrier soundness and completeness

  /** `p` runs from an ancestor `p[0]` up to the tip: each element supersedes the one before it. */
  ghost predicate Chain(e: Evidence, p: seq<Id>) {
    && p != []
    && (forall k :: 0 <= k < |p| ==> p[k] in e.findings)
    && forall k :: 0 <= k < |p| - 1 ==> p[k] in Predecessors(e.findings[p[k + 1]])
  }

  /** The obligation of `p[0]` is handed on, unambiguously and between contract classes, up to `p[k]`. */
  ghost predicate DelegatedTo(e: Evidence, p: seq<Id>, k: nat)
    requires Chain(e, p) && k < |p|
  {
    forall j :: 0 <= j < k ==>
      DelegationEdge(e, p[j], e.findings[p[j + 1]]) && !Ambiguous(e, p[j])
  }

  /** It ends there: by a landed authority resolution, or by an unambiguous governed same-subject edge. */
  ghost predicate EndsAt(e: Evidence, landed: set<Landed>, p: seq<Id>, k: nat)
    requires Chain(e, p) && k < |p|
  {
    || ValidResolution(e, landed, p[k])
    || (k + 1 < |p| && ClearingEdge(e, p[k], e.findings[p[k + 1]]) && !Ambiguous(e, p[k]))
  }

  ghost predicate Discharged(e: Evidence, landed: set<Landed>, p: seq<Id>)
    requires Chain(e, p)
  {
    exists k: nat :: k < |p| && DelegatedTo(e, p, k) && EndsAt(e, landed, p, k)
  }

  lemma {:induction false} ChainIsAncestry(e: Evidence, p: seq<Id>, k: nat)
    requires Chain(e, p) && k < |p|
    ensures p[k] in Ancestry(e, p[|p| - 1])
    decreases |p| - k
  {
    if k == |p| - 1 {
      TipIsItsOwnAncestor(e, p[k]);
    } else {
      ChainIsAncestry(e, p, k + 1);
      assert p[k] in Predecessors(e.findings[p[k + 1]]);
      var s :| s in e.findings[p[k + 1]].supersedes && s.id == p[k];
      AncestryStep(e, p[|p| - 1], p[k + 1], s);
    }
  }

  lemma {:induction false} DischargeFrom(e: Evidence, landed: set<Landed>, p: seq<Id>, k: nat)
    requires Chain(e, p) && k < |p| && ImplementationClear(e, landed, p[|p| - 1])
    requires IsContract(e.findings[p[k]]) && DelegatedTo(e, p, k)
    ensures Discharged(e, landed, p)
    decreases |p| - k
  {
    if !EndsAt(e, landed, p, k) {
      var d := e.findings[p[k + 1]];
      ChainIsAncestry(e, p, k + 1);
      assert p[k] in Predecessors(d);
      var s :| s in d.supersedes && s.id == p[k];
      assert !OpenEntry(e, landed, d, s);
      DischargeFrom(e, landed, p, k + 1);
    }
  }

  /** Reverses a walk from the tip down to a presented ancestor into a chain. */
  lemma ChainOf(e: Evidence, tip: Id, n: Id) returns (p: seq<Id>)
    requires n in Ancestry(e, tip) && !MissingAncestor(e, tip)
    ensures Chain(e, p) && p[0] == n && p[|p| - 1] == tip
  {
    AncestryIsReachability(e, tip, n);
    var w :| Joins(FindingGraph(e), tip, n, w);
    p := seq(|w|, k requires 0 <= k < |w| => w[|w| - 1 - k]);
    forall k | 0 <= k < |w|
      ensures w[k] in e.findings
    {
      assert Joins(FindingGraph(e), tip, w[k], w[..k + 1]);
      AncestryIsReachability(e, tip, w[k]);
    }
    forall k | 0 <= k < |p| - 1
      ensures p[k] in Predecessors(e.findings[p[k + 1]])
    {
      var j := |w| - 2 - k;
      assert w[j + 1] in FindingGraph(e)[w[j]];
    }
  }

  /** Every chain into `tip` that starts at a contract-class finding is discharged on the way. */
  ghost predicate EveryChainDischarged(e: Evidence, landed: set<Landed>, tip: Id) {
    forall p :: Chain(e, p) && p[|p| - 1] == tip && IsContract(e.findings[p[0]]) ==> Discharged(e, landed, p)
  }

  /** Behind every open entry there is a chain from a contract-class finding that nothing discharges. */
  lemma BarrierLeavesAChain(e: Evidence, landed: set<Landed>, tip: Id)
    requires tip in e.findings && ContractBarrier(e, landed, tip) && !MissingAncestor(e, tip)
      && !UnresolvedReference(e, tip)
    requires !IsContract(e.findings[tip])
    ensures !EveryChainDischarged(e, landed, tip)
  {
    var i, s :| i in Ancestry(e, tip) && i in e.findings && OpenEntry(e, landed, e.findings[i], s);
    var q := ChainOf(e, tip, i);
    var p := [s.id] + q;
    assert Chain(e, p) by {
      assert forall k :: 0 < k < |p| - 1 ==> p[k] == q[k - 1] && p[k + 1] == q[k];
    }
    assert p[1] == i;
    forall k: nat | k < |p| ensures !(DelegatedTo(e, p, k) && EndsAt(e, landed, p, k)) {
      if k > 0 {
        assert !(DelegationEdge(e, p[0], e.findings[p[1]]) && !Ambiguous(e, p[0]));
      }
    }
  }

  /**
   * Main: the barrier is exactly the path obligation. A presented, non-contract tip whose history is
   * completely presented is clear if and only if every chain from a contract-class ancestor is discharged.
   */
  lemma BarrierIsPathObligation(e: Evidence, landed: set<Landed>, tip: Id)
    requires tip in e.findings
    ensures ImplementationClear(e, landed, tip) <==>
      (&& !IsContract(e.findings[tip]) && !MissingAncestor(e, tip) && !UnresolvedReference(e, tip)
       && EveryChainDischarged(e, landed, tip))
  {
    if ImplementationClear(e, landed, tip) {
      forall p | Chain(e, p) && p[|p| - 1] == tip && IsContract(e.findings[p[0]])
        ensures Discharged(e, landed, p)
      {
        DischargeFrom(e, landed, p, 0);
      }
    } else if !IsContract(e.findings[tip]) && !MissingAncestor(e, tip) && !UnresolvedReference(e, tip) {
      BarrierLeavesAChain(e, landed, tip);
    }
  }

  /** On a delegated stretch the subject moves only across a governed, authority-named transfer. */
  lemma SubjectMovesOnlyAtTransfers(e: Evidence, p: seq<Id>, k: nat, j: nat)
    requires Chain(e, p) && k < |p| && DelegatedTo(e, p, k) && j < k
    ensures var a, b := e.findings[p[j]], e.findings[p[j + 1]];
      && IsContract(a) && IsContract(b)
      && (SameSubject(a, b) || (DifferentSubject(a, b) && GovernedTransition(b)))
      && b.supersedes == [Ref(p[j], a.digest)]
  {
    assert DelegationEdge(e, p[j], e.findings[p[j + 1]]);
  }

  /** Between `p[0]` and `p[k]` a governed finding took the obligation over to another subject. */
  predicate Transferred(e: Evidence, p: seq<Id>, k: nat)
    requires Chain(e, p) && k < |p|
  {
    exists j :: 0 <= j < k && GovernedTransition(e.findings[p[j + 1]])
      && DifferentSubject(e.findings[p[j]], e.findings[p[j + 1]])
  }

  lemma {:induction false} SubjectStaysOrTransfers(e: Evidence, p: seq<Id>, k: nat)
    requires Chain(e, p) && k < |p| && DelegatedTo(e, p, k)
    ensures e.findings[p[k]].subject == e.findings[p[0]].subject || Transferred(e, p, k)
  {
    if k > 0 {
      SubjectStaysOrTransfers(e, p, k - 1);
      SubjectMovesOnlyAtTransfers(e, p, k, k - 1);
      if Transferred(e, p, k - 1) {
        var j :| 0 <= j < k - 1 && GovernedTransition(e.findings[p[j + 1]])
          && DifferentSubject(e.findings[p[j]], e.findings[p[j + 1]]);
        assert j < k;
      }
    }
  }

  /** `p[j + 1]` takes over from `p[j]`: a contract-class finding that supersedes exactly it, and no rival does. */
  ghost predicate TakesOver(e: Evidence, p: seq<Id>, j: nat)
    requires Chain(e, p) && j + 1 < |p|
  {
    && IsContract(e.findings[p[j]]) && IsContract(e.findings[p[j + 1]]) && !Ambiguous(e, p[j])
    && e.findings[p[j + 1]].supersedes == [Ref(p[j], e.findings[p[j]].digest)]
  }

  /** The obligation ends: a landed resolution, or a governed finding of another class on the same subject. */
  ghost predicate EndsProperly(e: Evidence, landed: set<Landed>, p: seq<Id>, k: nat)
    requires Chain(e, p) && k < |p|
  {
    || ValidResolution(e, landed, p[k])
    || (k + 1 < |p| && !Ambiguous(e, p[k]) && GovernedTransition(e.findings[p[k + 1]])
        && SameSubject(e.findings[p[k]], e.findings[p[k + 1]]) && !IsContract(e.findings[p[k + 1]]))
  }

  lemma DischargeIs(e: Evidence, landed: set<Landed>, p: seq<Id>) returns (k: nat)
    requires Chain(e, p) && Discharged(e, landed, p)
    ensures k < |p| && DelegatedTo(e, p, k) && EndsProperly(e, landed, p, k)
  {
    hide ValidResolution, Chain, Ambiguous, GovernedTransition;
    k :| k < |p| && DelegatedTo(e, p, k) && EndsAt(e, landed, p, k);
  }

  lemma DelegationTakesOver(e: Evidence, p: seq<Id>, k: nat, j: nat)
    requires Chain(e, p) && k < |p| && DelegatedTo(e, p, k) && j < k
    ensures TakesOver(e, p, j)
  {
    hide Ambiguous;
    SubjectMovesOnlyAtTransfers(e, p, k, j);
  }

  /**
   * What became of a contract-class ancestor of a clear tip, whatever the chain between them: it was handed on,
   * each time to the one finding that supersedes exactly it, to a finding where a landed resolution or a governed
   * clearing ends it, and that finding is about its own subject unless a governed transfer moved it.
   */
  lemma ClearTipAnswersForSubject(e: Evidence, landed: set<Landed>, p: seq<Id>) returns (k: nat)
    requires Chain(e, p) && IsContract(e.findings[p[0]]) && ImplementationClear(e, landed, p[|p| - 1])
    ensures k < |p| && EndsProperly(e, landed, p, k)
    ensures forall j: nat :: j < k ==> TakesOver(e, p, j)
    ensures e.findings[p[k]].subject == e.findings[p[0]].subject || Transferred(e, p, k)
  {
    hide EndsProperly, TakesOver, ImplementationClear, DelegatedTo, Transferred;
    BarrierIsPathObligation(e, landed, p[|p| - 1]);
    k := DischargeIs(e, landed, p);
    SubjectStaysOrTransfers(e, p, k);
    forall j: nat | j < k ensures TakesOver(e, p, j) {
      DelegationTakesOver(e, p, k, j);
    }
  }
}
