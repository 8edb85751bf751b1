/**
 * Allocation identity across policy activations: `activatedAllocationContracts` of
 * cadp/kernel/policyPublication.ts, `assertContractImmutability` of cadp/kernel/policyBundle.ts and
 * `allocateEffectId` of cadp/kernel/ingress.ts.
 */
module Allocation {
  import opened Wrappers

  type Id = string
  type Ref = string

  /** A registry entry: its schema id and the canonical text of the whole entry. */
  datatype Entry = Entry(schema: Schema, text: string)

  datatype Schema = RunOrigin | Other(name: string)

  /** What an activated bundle's `data.cadp` carries in the two allocation registries. */
  datatype Config = Config(v2: bool, descriptors: seq<Entry>, mappings: seq<Entry>)

  function Find(entries: seq<Entry>, schema: Schema): (r: Option<Entry>)
    ensures r.Some? ==> r.value in entries && r.value.schema == schema
    ensures r.None? ==> forall e :: e in entries ==> e.schema != schema
  {
    if entries == [] then None
    else if entries[0].schema == schema then Some(entries[0])
    else Find(entries[1..], schema)
  }

  // ---------------------------------------------------------------- sealed history

  /** `into.set(schema, entry)` unless already present. */
  function Kept(into: map<Schema, Entry>, entries: seq<Entry>): map<Schema, Entry>
    decreases |entries|
  {
    if entries == [] then into
    else Kept(if entries[0].schema in into then into else into[entries[0].schema := entries[0]], entries[1..])
  }

  /** What was there stays; a schema that was not gets its first entry of the list. */
  lemma {:induction false} KeptIs(into: map<Schema, Entry>, entries: seq<Entry>, s: Schema)
    ensures var r := Kept(into, entries);
      if s in into then s in r && r[s] == into[s]
      else (s in r <==> Find(entries, s).Some?) && (s in r ==> r[s] == Find(entries, s).value)
    decreases |entries|
  {
    if entries != [] {
      KeptIs(if entries[0].schema in into then into else into[entries[0].schema := entries[0]], entries[1..], s);
    }
  }

  /** For every schema, the entry of the first activation that carried it. */
  function FirstDescriptors(history: seq<Config>): map<Schema, Entry> {
    if history == [] then map[]
    else Kept(FirstDescriptors(history[..|history| - 1]), history[|history| - 1].descriptors)
  }

  function FirstMappings(history: seq<Config>): map<Schema, Entry> {
    if history == [] then map[]
    else Kept(FirstMappings(history[..|history| - 1]), history[|history| - 1].mappings)
  }

  method KeepEntries(into: map<Schema, Entry>, entries: seq<Entry>) returns (r: map<Schema, Entry>)
    ensures r == Kept(into, entries)
  {
    r := into;
    for i := 0 to |entries|
      invariant Kept(r, entries[i..]) == Kept(into, entries)
    {
      assert entries[i..][0] == entries[i] && entries[i..][1..] == entries[i + 1..];
      if entries[i].schema !in r {
        r := r[entries[i].schema := entries[i]];
      }
    }
  }

  /** `activatedAllocationContracts`: every activation from the first to the active one. */
  method ActivatedContracts(history: seq<Config>)
      returns (descriptors: map<Schema, Entry>, mappings: map<Schema, Entry>)
    ensures descriptors == FirstDescriptors(history) && mappings == FirstMappings(history)
  {
    descriptors, mappings := map[], map[];
    for seqNo := 0 to |history|
      invariant descriptors == FirstDescriptors(history[..seqNo]) && mappings == FirstMappings(history[..seqNo])
    {
      assert history[..seqNo + 1][..seqNo] == history[..seqNo];
      descriptors := KeepEntries(descriptors, history[seqNo].descriptors);
      mappings := KeepEntries(mappings, history[seqNo].mappings);
    }
    assert history[..|history|] == history;
  }

  // ---------------------------------------------------------------- validation

  predicate Unique(entries: seq<Entry>) {
    forall i, j :: 0 <= i < j < |entries| ==> entries[i].schema != entries[j].schema
  }

  predicate DescriptorsKept(cfg: Config, prior: map<Schema, Entry>) {
    forall s :: s in prior ==>
      var present := Find(cfg.descriptors, s);
      if present.None? then s != RunOrigin else present.value == prior[s]
  }

  predicate MappingKept(cfg: Config, prior: map<Schema, Entry>) {
    RunOrigin in prior ==> Find(cfg.mappings, RunOrigin) == Some(prior[RunOrigin])
  }

  /** A v1 configuration has no place for the registries; a v2 one is held to what was ever sealed. */
  predicate Valid(cfg: Config, history: seq<Config>) {
    if !cfg.v2 then cfg.descriptors == [] && cfg.mappings == []
    else
      && Unique(cfg.descriptors) && Unique(cfg.mappings)
      && DescriptorsKept(cfg, FirstDescriptors(history)) && MappingKept(cfg, FirstMappings(history))
  }

  method AssertContractImmutability(cfg: Config, history: seq<Config>) returns (ok: bool)
    ensures ok <==> DescriptorsKept(cfg, FirstDescriptors(history)) && MappingKept(cfg, FirstMappings(history))
  {
    var descriptors, mappings := ActivatedContracts(history);
    var rest := descriptors.Keys;
    while rest != {}
      invariant rest <= descriptors.Keys
      invariant forall s :: s in descriptors && s !in rest ==>
        var present := Find(cfg.descriptors, s);
        if present.None? then s != RunOrigin else present.value == descriptors[s]
      decreases |rest|
    {
      var s :| s in rest;
      rest := rest - {s};
      var present := Find(cfg.descriptors, s);
      if present.None? {
        if s == RunOrigin {
          return false;
        }
      } else if present.value != descriptors[s] {
        return false;
      }
    }
    return MappingKept(cfg, mappings);
  }

  // ---------------------------------------------------------------- allocation

  datatype Tuple = Tuple(schema: Schema, purpose: string, fields: map<string, string>)

  /** The digests of a key are injective, so a key is the values it digests. */
  datatype Key =
    | Unscoped(workRun: string, step: nat, purpose: string)
    | Scoped(requester: Ref, tuple: Tuple, descriptor: Entry, mapping: Entry)

  /** One answered allocation request. */
  datatype Answer = Answer(requester: Ref, tuple: Tuple, id: Id)

  /** A verified proposal: the base it names and the length of the history it was verified against. */
  datatype Proposal = Proposal(config: Config, base: nat, verified: nat)

  datatype State = State(history: seq<Config>, table: map<Key, Id>, pending: map<nat, Proposal>, answers: seq<Answer>)

  datatype Event =
    | Verify(p: nat, config: Config, base: nat)
    | Commit(c: nat)
    | Allocate(requester: Ref, tuple: Tuple, valid: bool, newId: Id)
    | AllocateV1(workRun: string, step: nat, purpose: string, newId: Id)

  function KeyOf(cfg: Config, requester: Ref, tuple: Tuple): Option<Key> {
    var descriptor, mapping := Find(cfg.descriptors, tuple.schema), Find(cfg.mappings, tuple.schema);
    if !cfg.v2 || descriptor.None? || mapping.None? then None
    else Some(Scoped(requester, tuple, descriptor.value, mapping.value))
  }

  /** `effect_id` is unique in the allocation table, so a new id is in no row. */
  predicate Enabled(s: State, ev: Event) {
    match ev
    case Verify(p, cfg, base) => p !in s.pending && base <= |s.history| && Valid(cfg, s.history)
    case Commit(c) => c in s.pending
    case Allocate(_, _, _, newId) => s.history != [] && newId !in s.table.Values
    case AllocateV1(_, _, _, newId) => s.history != [] && newId !in s.table.Values
  }

  /** Lookup before insert, in one transaction. */
  function Inserted(table: map<Key, Id>, key: Key, newId: Id): map<Key, Id> {
    if key in table then table else table[key := newId]
  }

  /** The activation commits only if the active row is still the one it was based on. */
  function Next(s: State, ev: Event): State
    requires Enabled(s, ev)
  {
    match ev
    case Verify(p, cfg, base) => s.(pending := s.pending[p := Proposal(cfg, base, |s.history|)])
    case Commit(c) =>
      if s.pending[c].base == |s.history|
        then s.(history := s.history + [s.pending[c].config], pending := s.pending - {c})
      else s.(pending := s.pending - {c})
    case Allocate(requester, tuple, valid, newId) =>
      var key := KeyOf(s.history[|s.history| - 1], requester, tuple);
      if key.None? || !valid then s
      else
        var table := Inserted(s.table, key.value, newId);
        s.(table := table, answers := s.answers + [Answer(requester, tuple, table[key.value])])
    case AllocateV1(workRun, step, purpose, newId) =>
      if s.history[|s.history| - 1].v2 then s
      else s.(table := Inserted(s.table, Unscoped(workRun, step, purpose), newId))
  }

  // ---------------------------------------------------------------- invariants

  /** What was ever sealed for `schema` has one value. */
  ghost predicate OneDescriptor(history: seq<Config>, schema: Schema) {
    forall i, j :: (
      0 <= i < |history| && 0 <= j < |history|
      && Find(history[i].descriptors, schema).Some? && Find(history[j].descriptors, schema).Some?) ==>
      Find(history[i].descriptors, schema) == Find(history[j].descriptors, schema)
  }

  ghost predicate OneMapping(history: seq<Config>, schema: Schema) {
    forall i, j :: (
      0 <= i < |history| && 0 <= j < |history|
      && Find(history[i].mappings, schema).Some? && Find(history[j].mappings, schema).Some?) ==>
      Find(history[i].mappings, schema) == Find(history[j].mappings, schema)
  }

  /** Activation `i` is the first to carry an entry for the schema. */
  predicate FirstDescriptorAt(history: seq<Config>, schema: Schema, i: nat)
    requires i < |history|
  {
    Find(history[i].descriptors, schema).Some? && forall j :: 0 <= j < i ==> Find(history[j].descriptors, schema).None?
  }

  /** What the fold keeps for a schema is the entry of the first activation that carried one. */
  lemma {:induction false} DescriptorIsCarried(history: seq<Config>, schema: Schema)
    ensures schema in FirstDescriptors(history) ==> exists i: nat ::
      i < |history| && FirstDescriptorAt(history, schema, i)
        && Find(history[i].descriptors, schema) == Some(FirstDescriptors(history)[schema])
    ensures schema !in FirstDescriptors(history) ==> forall i :: 0 <= i < |history| ==>
      Find(history[i].descriptors, schema).None?
  {
    if history != [] {
      var n := |history| - 1;
      DescriptorIsCarried(history[..n], schema);
      KeptIs(FirstDescriptors(history[..n]), history[n].descriptors, schema);
      assert forall i :: 0 <= i < n ==> history[i] == history[..n][i];
      if schema in FirstDescriptors(history[..n]) {
        var i: nat :| i < n && FirstDescriptorAt(history[..n], schema, i)
          && Find(history[..n][i].descriptors, schema) == Some(FirstDescriptors(history[..n])[schema]);
        assert FirstDescriptorAt(history, schema, i);
      } else if schema in FirstDescriptors(history) {
        assert FirstDescriptorAt(history, schema, n);
      }
    }
  }

  /** Activation `i` is the first to carry an entry for the schema. */
  predicate FirstMappingAt(history: seq<Config>, schema: Schema, i: nat)
    requires i < |history|
  {
    Find(history[i].mappings, schema).Some? && forall j :: 0 <= j < i ==> Find(history[j].mappings, schema).None?
  }

  /** What the fold keeps for a schema is the entry of the first activation that carried one. */
  lemma {:induction false} MappingIsCarried(history: seq<Config>, schema: Schema)
    ensures schema in FirstMappings(history) ==> exists i: nat ::
      i < |history| && FirstMappingAt(history, schema, i)
        && Find(history[i].mappings, schema) == Some(FirstMappings(history)[schema])
    ensures schema !in FirstMappings(history) ==> forall i :: 0 <= i < |history| ==>
      Find(history[i].mappings, schema).None?
  {
    if history != [] {
      var n := |history| - 1;
      MappingIsCarried(history[..n], schema);
      KeptIs(FirstMappings(history[..n]), history[n].mappings, schema);
      assert forall i :: 0 <= i < n ==> history[i] == history[..n][i];
      if schema in FirstMappings(history[..n]) {
        var i: nat :| i < n && FirstMappingAt(history[..n], schema, i)
          && Find(history[..n][i].mappings, schema) == Some(FirstMappings(history[..n])[schema]);
        assert FirstMappingAt(history, schema, i);
      } else if schema in FirstMappings(history) {
        assert FirstMappingAt(history, schema, n);
      }
    }
  }

  lemma AppendKeepsDescriptor(history: seq<Config>, cfg: Config, schema: Schema)
    requires Valid(cfg, history) && OneDescriptor(history, schema)
    ensures OneDescriptor(history + [cfg], schema)
  {
    DescriptorIsCarried(history, schema);
    var all := history + [cfg];
    forall i | 0 <= i < |history| && Find(history[i].descriptors, schema).Some? && Find(cfg.descriptors, schema).Some?
      ensures Find(history[i].descriptors, schema) == Find(cfg.descriptors, schema)
    {
      assert Find(cfg.descriptors, schema) == Some(FirstDescriptors(history)[schema]);
    }
    assert forall i :: 0 <= i < |all| ==> all[i] == if i < |history| then history[i] else cfg;
  }

  lemma AppendKeepsMapping(history: seq<Config>, cfg: Config)
    requires Valid(cfg, history) && OneMapping(history, RunOrigin)
    ensures OneMapping(history + [cfg], RunOrigin)
  {
    MappingIsCarried(history, RunOrigin);
    var all := history + [cfg];
    forall i | 0 <= i < |history| && Find(history[i].mappings, RunOrigin).Some? && Find(cfg.mappings, RunOrigin).Some?
      ensures Find(history[i].mappings, RunOrigin) == Find(cfg.mappings, RunOrigin)
    {
      assert Find(cfg.mappings, RunOrigin) == Some(FirstMappings(history)[RunOrigin]);
    }
    assert forall i :: 0 <= i < |all| ==> all[i] == if i < |history| then history[i] else cfg;
  }

  ghost predicate HistorySound(history: seq<Config>) {
    (forall schema :: OneDescriptor(history, schema)) && OneMapping(history, RunOrigin)
  }

  ghost predicate PendingSound(s: State) {
    forall p :: p in s.pending ==>
      var v := s.pending[p].verified;
      s.pending[p].base <= v <= |s.history| && Valid(s.pending[p].config, s.history[..v])
  }

  ghost predicate TableSound(table: map<Key, Id>) {
    forall k, l :: k in table && l in table && table[k] == table[l] ==> k == l
  }

  ghost predicate Activated(history: seq<Config>, descriptor: Entry, mapping: Entry, schema: Schema) {
    exists i :: 0 <= i < |history|
      && Find(history[i].descriptors, schema) == Some(descriptor) && Find(history[i].mappings, schema) == Some(mapping)
  }

  /** Every answer is a row of the table, under a contract some activation carried. */
  ghost predicate AnswerSound(s: State, a: Answer) {
    exists d, m :: Activated(s.history, d, m, a.tuple.schema)
      && Scoped(a.requester, a.tuple, d, m) in s.table && s.table[Scoped(a.requester, a.tuple, d, m)] == a.id
  }

  ghost predicate Inv(s: State) {
    && HistorySound(s.history) && PendingSound(s) && TableSound(s.table)
    && forall i :: 0 <= i < |s.answers| ==> AnswerSound(s, s.answers[i])
  }

  lemma AnswersStay(s: State, s': State, a: Answer)
    requires AnswerSound(s, a) && s.history <= s'.history
    requires forall k :: k in s.table ==> k in s'.table && s'.table[k] == s.table[k]
    ensures AnswerSound(s', a)
  {
    var d, m :| Activated(s.history, d, m, a.tuple.schema)
      && Scoped(a.requester, a.tuple, d, m) in s.table && s.table[Scoped(a.requester, a.tuple, d, m)] == a.id;
    var i :| 0 <= i < |s.history|
      && Find(s.history[i].descriptors, a.tuple.schema) == Some(d)
        && Find(s.history[i].mappings, a.tuple.schema) == Some(m);
    assert s'.history[i] == s.history[i];
    assert Activated(s'.history, d, m, a.tuple.schema);
  }

  lemma CommitKeepsInv(s: State, c: nat)
    requires Inv(s) && c in s.pending
    ensures Inv(Next(s, Commit(c)))
  {
    hide Find, Valid, OneDescriptor, OneMapping, AnswerSound, Activated, TableSound;
    var s', cfg := Next(s, Commit(c)), s.pending[c].config;
    if s.pending[c].base == |s.history| {
      assert s.history[..|s.history|] == s.history;
      forall schema ensures OneDescriptor(s'.history, schema) {
        AppendKeepsDescriptor(s.history, cfg, schema);
      }
      AppendKeepsMapping(s.history, cfg);
      forall p | p in s'.pending ensures s'.history[..s'.pending[p].verified] == s.history[..s.pending[p].verified] {}
    }
    forall i | 0 <= i < |s'.answers| ensures AnswerSound(s', s'.answers[i]) {
      AnswersStay(s, s', s.answers[i]);
    }
  }

  lemma AllocateKeepsInv(s: State, requester: Ref, tuple: Tuple, valid: bool, newId: Id)
    requires Inv(s) && Enabled(s, Allocate(requester, tuple, valid, newId))
    ensures Inv(Next(s, Allocate(requester, tuple, valid, newId)))
  {
    hide Valid, OneDescriptor, OneMapping;
    var s' := Next(s, Allocate(requester, tuple, valid, newId));
    var cfg := s.history[|s.history| - 1];
    var key := KeyOf(cfg, requester, tuple);
    if key.Some? && valid {
      InsertKeepsTable(s.table, key.value, newId);
      forall i | 0 <= i < |s'.answers| ensures AnswerSound(s', s'.answers[i]) {
        if i < |s.answers| {
          AnswersStay(s, s', s.answers[i]);
        } else {
          assert Activated(s'.history, key.value.descriptor, key.value.mapping, tuple.schema);
        }
      }
    }
  }

  lemma InsertKeepsTable(table: map<Key, Id>, key: Key, newId: Id)
    requires TableSound(table) && newId !in table.Values
    ensures TableSound(Inserted(table, key, newId))
  {
    forall k | k in table ensures table[k] != newId {
      assert table[k] in table.Values;
    }
  }

  lemma StepKeepsInv(s: State, ev: Event)
    requires Inv(s) && Enabled(s, ev)
    ensures Inv(Next(s, ev))
  {
    var s' := Next(s, ev);
    match ev
    case Verify(p, cfg, base) =>
      assert s.history[..|s.history|] == s.history;
      forall i | 0 <= i < |s'.answers| ensures AnswerSound(s', s'.answers[i]) { AnswersStay(s, s', s.answers[i]); }
    case Commit(c) => CommitKeepsInv(s, c);
    case Allocate(requester, tuple, valid, newId) => AllocateKeepsInv(s, requester, tuple, valid, newId);
    case AllocateV1(workRun, step, purpose, newId) =>
      InsertKeepsTable(s.table, Unscoped(workRun, step, purpose), newId);
      forall i | 0 <= i < |s'.answers| ensures AnswerSound(s', s'.answers[i]) { AnswersStay(s, s', s.answers[i]); }
  }

  // ---------------------------------------------------------------- main results

  /** From the genesis activation on, any interleaving of proposals, commits and allocations. */
  ghost predicate History(trace: seq<State>, events: seq<Event>) {
    && |trace| == |events| + 1
    && |trace[0].history| == 1 && Valid(trace[0].history[0], []) && trace[0].table == map[] && trace[0].pending == map[]
    && trace[0].answers == []
    && forall k :: 0 <= k < |events| ==> Enabled(trace[k], events[k]) && trace[k + 1] == Next(trace[k], events[k])
  }

  lemma GenesisIsSound(s: State)
    requires |s.history| == 1 && Valid(s.history[0], []) && s.table == map[] && s.pending == map[] && s.answers == []
    ensures Inv(s)
  {}

  lemma {:induction false} Reachable(trace: seq<State>, events: seq<Event>, k: nat)
    requires History(trace, events) && k < |trace|
    ensures Inv(trace[k])
  {
    hide Inv, Enabled, Next, Valid;
    if k > 0 {
      Reachable(trace, events, k - 1);
      StepKeepsInv(trace[k - 1], events[k - 1]);
    } else {
      GenesisIsSound(trace[0]);
    }
  }

  /**
   * Main: whatever was activated, withdrawn and activated again, all activations that ever carried the
   * run-origin registries carried the same descriptor and the same mapping.
   */
  lemma RunOriginContractIsOne(trace: seq<State>, events: seq<Event>, k: nat, i: nat, j: nat, requester: Ref,
      tuple: Tuple)
    requires History(trace, events) && k < |trace| && i < |trace[k].history| && j < |trace[k].history|
    requires tuple.schema == RunOrigin
    requires KeyOf(trace[k].history[i], requester, tuple).Some? && KeyOf(trace[k].history[j], requester, tuple).Some?
    ensures KeyOf(trace[k].history[i], requester, tuple) == KeyOf(trace[k].history[j], requester, tuple)
  {
    Reachable(trace, events, k);
    assert OneDescriptor(trace[k].history, RunOrigin);
  }

  /** Main: one requester and origin tuple always get the same effect id, and no other pair gets it. */
  lemma OneOriginOneIdentity(trace: seq<State>, events: seq<Event>, k: nat, i: nat, j: nat)
    requires History(trace, events) && k < |trace| && i < |trace[k].answers| && j < |trace[k].answers|
    requires trace[k].answers[i].tuple.schema == RunOrigin
    ensures var a, b := trace[k].answers[i], trace[k].answers[j];
      a.id == b.id <==> a.requester == b.requester && a.tuple == b.tuple
  {
    Reachable(trace, events, k);
    var s := trace[k];
    var a, b := s.answers[i], s.answers[j];
    assert AnswerSound(s, a) && AnswerSound(s, b);
    assert OneDescriptor(s.history, RunOrigin);
    var d, m :| Activated(s.history, d, m, a.tuple.schema)
      && Scoped(a.requester, a.tuple, d, m) in s.table && s.table[Scoped(a.requester, a.tuple, d, m)] == a.id;
    var d', m' :| Activated(s.history, d', m', b.tuple.schema)
      && Scoped(b.requester, b.tuple, d', m') in s.table && s.table[Scoped(b.requester, b.tuple, d', m')] == b.id;
  }

  /** The commit check carries the weight: two proposals valid against one history need not be so after each other. */
  lemma StaleCommitWouldFork()
    ensures exists one: Config, two: Config ::
      Valid(one, []) && Valid(two, []) && !Valid(two, [one]) && !OneDescriptor([one, two], RunOrigin)
  {
    var d1, d2, m := Entry(RunOrigin, "a"), Entry(RunOrigin, "b"), Entry(RunOrigin, "m");
    var one, two := Config(true, [d1], [m]), Config(true, [d2], [m]);
    var none: seq<Config> := [];
    assert FirstDescriptors(none) == map[] && FirstMappings(none) == map[];
    DescriptorIsCarried([one], RunOrigin);
    assert [one][0] == one && Find(one.descriptors, RunOrigin) == Some(d1)
      && Find(two.descriptors, RunOrigin) == Some(d2);
    assert FirstDescriptors([one])[RunOrigin] == d1;
    assert [one, two][0] == one && [one, two][1] == two;
  }
}
