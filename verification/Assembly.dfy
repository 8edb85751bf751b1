/**
 * Subject-complete assembly: `assembleAdmissionInput` of cadp/kernel/ingress.ts and the loops of
 * recheck #18 of cadp/kernel/pep.ts. A digest is represented by the value it digests.
 */
module Assembly {
  import opened Wrappers
  import opened Records
  import JsonText

  /** The envelopes sealed so far, by id. */
  type Rows = map<Id, Envelope>

  datatype EvidenceRef = EvidenceRef(id: Id, digest: Envelope)

  datatype Refusal = EvidenceNotFound(missing: Id) | SubjectUnbound | Corrupt(bad: Id)

  predicate MatchesEntry(env: Envelope, d: AssemblyEntry, bindings: seq<Subject>) {
    env.kind == d.kind && exists k :: k in bindings && k.ns == d.ns && k in env.subjects
  }

  /** The envelope answers some declared entry for this request. */
  predicate Matches(env: Envelope, declared: seq<AssemblyEntry>, bindings: seq<Subject>) {
    exists d :: d in declared && MatchesEntry(env, d, bindings)
  }

  function Matching(rows: Rows, declared: seq<AssemblyEntry>, bindings: seq<Subject>): set<Id> {
    set id | id in rows && Matches(rows[id], declared, bindings)
  }

  predicate AllBound(declared: seq<AssemblyEntry>, bindings: seq<Subject>) {
    forall d :: d in declared ==> Bound(d, bindings)
  }

  predicate StrictlySorted(refs: seq<EvidenceRef>) {
    forall i, j :: 0 <= i < j < |refs| ==> Before(refs[i].id, refs[j].id)
  }

  /** The sealed list: caller refs and every matching envelope, each once, by id, with the stored digest. */
  ghost predicate IsComplete(refs: seq<EvidenceRef>, rows: Rows, declared: seq<AssemblyEntry>, bindings: seq<Subject>,
      ids: seq<Id>)
  {
    && StrictlySorted(refs)
    && forall r: EvidenceRef :: r in refs <==>
         r.id in rows && r.digest == rows[r.id] && (r.id in ids || Matches(rows[r.id], declared, bindings))
  }

  // ---------------------------------------------------------------- order of ids

  /** The code units of a character: itself, or a surrogate pair. */
  function UnitsOf(c: char): JsonText.Text {
    var n := c as int;
    if n < 0x1_0000 then [n] else [0xD800 + (n - 0x1_0000) / 0x400, 0xDC00 + (n - 0x1_0000) % 0x400]
  }

  function Units(id: Id): JsonText.Text {
    if id == [] then [] else UnitsOf(id[0]) + Units(id[1..])
  }

  /** The `<` of strings. */
  predicate Before(a: Id, b: Id) {
    JsonText.Less(Units(a), Units(b))
  }

  lemma UnitsOfDiffer(c: char, d: char, s: JsonText.Text, t: JsonText.Text)
    requires UnitsOf(c) + s == UnitsOf(d) + t
    ensures c == d && s == t
  {
    var left, right := UnitsOf(c) + s, UnitsOf(d) + t;
    assert left[0] == UnitsOf(c)[0] && right[0] == UnitsOf(d)[0];
    assert (c as int < 0x1_0000) == (d as int < 0x1_0000);
    if c as int >= 0x1_0000 {
      assert left[1] == UnitsOf(c)[1] && right[1] == UnitsOf(d)[1];
    }
    assert s == left[|UnitsOf(c)|..] && t == right[|UnitsOf(d)|..];
  }

  lemma {:induction false} UnitsAreExact(a: Id, b: Id)
    requires Units(a) == Units(b)
    ensures a == b
  {
    if a != [] && b != [] {
      UnitsOfDiffer(a[0], b[0], Units(a[1..]), Units(b[1..]));
      UnitsAreExact(a[1..], b[1..]);
      assert a == [a[0]] + a[1..] && b == [b[0]] + b[1..];
    }
  }

  lemma BeforeIsTotal(a: Id, b: Id)
    ensures Before(a, b) || a == b || Before(b, a)
    ensures !(Before(a, b) && Before(b, a)) && !(Before(a, b) && a == b)
  {
    JsonText.LessIsTotal(Units(a), Units(b));
    if Units(a) == Units(b) {
      UnitsAreExact(a, b);
    }
  }

  // ---------------------------------------------------------------- sorting

  function Insert(r: EvidenceRef, refs: seq<EvidenceRef>): (s: seq<EvidenceRef>)
    ensures forall x :: x in s <==> x == r || x in refs
  {
    if refs == [] || Before(r.id, refs[0].id) then [r] + refs else [refs[0]] + Insert(r, refs[1..])
  }

  function Sort(refs: seq<EvidenceRef>): (s: seq<EvidenceRef>)
    ensures forall x :: x in s <==> x in refs
  {
    if refs == [] then [] else Insert(refs[0], Sort(refs[1..]))
  }

  predicate DistinctIds(refs: seq<EvidenceRef>) {
    forall i, j :: 0 <= i < |refs| && 0 <= j < |refs| && refs[i].id == refs[j].id ==> i == j
  }

  lemma {:induction false} InsertSorts(r: EvidenceRef, refs: seq<EvidenceRef>)
    requires StrictlySorted(refs) && forall x :: x in refs ==> x.id != r.id
    ensures StrictlySorted(Insert(r, refs))
  {
    hide Before;
    if refs != [] {
      assert refs[0] in refs;
      BeforeIsTotal(r.id, refs[0].id);
      if Before(r.id, refs[0].id) {
        forall j | 0 < j < |refs| ensures Before(r.id, refs[j].id) {
          BeforeComposes(r.id, refs[0].id, refs[j].id);
        }
      } else {
        assert forall x :: x in refs[1..] ==> x in refs;
        InsertSorts(r, refs[1..]);
        var tail := Insert(r, refs[1..]);
        forall j | 0 <= j < |tail| ensures Before(refs[0].id, tail[j].id) {
          assert tail[j] in tail;
        }
      }
    }
  }

  lemma BeforeComposes(a: Id, b: Id, c: Id)
    requires Before(a, b) && Before(b, c)
    ensures Before(a, c)
  {
    JsonText.LessIsTransitive(Units(a), Units(b), Units(c));
  }

  lemma {:induction false} SortSorts(refs: seq<EvidenceRef>)
    requires DistinctIds(refs)
    ensures StrictlySorted(Sort(refs))
  {
    hide Before;
    if refs != [] {
      var tail := refs[1..];
      forall i, j | 0 <= i < |tail| && 0 <= j < |tail| && tail[i].id == tail[j].id ensures i == j {
        assert refs[i + 1].id == refs[j + 1].id;
      }
      SortSorts(tail);
      forall x | x in Sort(tail) ensures x.id != refs[0].id {
        var i :| 0 <= i < |tail| && tail[i] == x;
        assert refs[i + 1] == x;
      }
      InsertSorts(refs[0], Sort(tail));
    }
  }

  /** Two strictly sorted lists with the same elements are the same list. */
  lemma {:induction false} SortedIsDetermined(a: seq<EvidenceRef>, b: seq<EvidenceRef>)
    requires StrictlySorted(a) && StrictlySorted(b) && forall x :: x in a <==> x in b
    ensures a == b
  {
    hide Before;
    assert a != [] ==> a[0] in a;
    assert b != [] ==> b[0] in b;
    if a != [] && b != [] {
      HeadIsLeast(a, b);
      HeadIsLeast(b, a);
      BeforeIsTotal(a[0].id, b[0].id);
      TailElements(a);
      TailElements(b);
      SortedIsDetermined(a[1..], b[1..]);
      assert a == [a[0]] + a[1..] && b == [b[0]] + b[1..];
    }
  }

  lemma HeadIsLeast(a: seq<EvidenceRef>, b: seq<EvidenceRef>)
    requires a != [] && b != [] && StrictlySorted(a) && forall x :: x in a <==> x in b
    ensures a[0] == b[0] || Before(a[0].id, b[0].id)
  {
    hide Before;
    assert b[0] in a;
    var i :| 0 <= i < |a| && a[i] == b[0];
  }

  lemma TailElements(a: seq<EvidenceRef>)
    requires a != [] && StrictlySorted(a)
    ensures forall x :: x in a[1..] <==> x in a && x != a[0]
  {
    hide Before;
    forall x | x in a[1..] ensures x != a[0] {
      var i :| 0 <= i < |a[1..]| && a[1..][i] == x;
      assert a[i + 1] == x;
      BeforeIsTotal(a[0].id, a[i + 1].id);
    }
    assert a == [a[0]] + a[1..];
  }

  // ---------------------------------------------------------------- assembling

  /** The union holds stored digests only. */
  predicate Stored(union: Rows, rows: Rows) {
    forall id :: id in union ==> id in rows && union[id] == rows[id]
  }

  function EntryIds(rows: Rows, d: AssemblyEntry, bindings: seq<Subject>): set<Id> {
    set id | id in rows && MatchesEntry(rows[id], d, bindings)
  }

  /** Rows one query matched, in some order: each verified, then set under its id. */
  method AddRows(start: Rows, rows: Rows, intact: set<Id>, found: set<Id>) returns (union: Rows, bad: Option<Id>)
    requires Stored(start, rows) && found <= rows.Keys
    ensures bad.None? ==> Stored(union, rows) && union.Keys == start.Keys + found && found <= intact
    ensures bad.Some? ==> bad.value in found && bad.value !in intact
  {
    hide Stored;
    union, bad := start, None;
    var rest := found;
    while rest != {}
      invariant rest <= found && bad.None? && Stored(union, rows)
      invariant forall id :: id in found && id !in rest ==> id in intact
      invariant forall id :: id in union <==> id in start || (id in found && id !in rest)
      decreases |rest|
    {
      var id :| id in rest;
      if id !in intact {
        return union, Some(id);
      }
      StoreOne(union, rows, id);
      union, rest := union[id := rows[id]], rest - {id};
    }
  }

  lemma StoreOne(union: Rows, rows: Rows, id: Id)
    requires Stored(union, rows) && id in rows
    ensures Stored(union[id := rows[id]], rows) && union[id := rows[id]].Keys == union.Keys + {id}
  {}

  method AddEntry(start: Rows, rows: Rows, intact: set<Id>, d: AssemblyEntry, bindings: seq<Subject>)
    returns (union: Rows, bad: Option<Id>)
    requires Stored(start, rows)
    ensures bad.None? ==> Stored(union, rows) && union.Keys == start.Keys + EntryIds(rows, d, bindings)
    ensures bad.None? ==> EntryIds(rows, d, bindings) <= intact
    ensures bad.Some? ==> bad.value in EntryIds(rows, d, bindings) && bad.value !in intact
  {
    hide MatchesEntry, Stored;
    var keys := SubjectKeys(d, bindings);
    union, bad := start, None;
    for i := 0 to |keys|
      invariant bad.None? && Stored(union, rows) && union.Keys == start.Keys + KeyIds(rows, d.kind, keys[..i])
      invariant KeyIds(rows, d.kind, keys[..i]) <= intact
    {
      assert keys[..i + 1] == keys[..i] + [keys[i]];
      KeysGrow(rows, d.kind, keys[..i], keys[i]);
      KeyIsEntry(rows, d, bindings, i);
      union, bad := AddRows(union, rows, intact, OnSubject(rows, d.kind, keys[i]));
      if bad.Some? {
        return;
      }
    }
    assert keys[..|keys|] == keys;
    KeysAreEntry(rows, d, bindings);
  }

  function KeyIds(rows: Rows, kind: EnvelopeKind, keys: seq<Subject>): set<Id> {
    set id | id in rows && rows[id].kind == kind && exists k :: k in keys && k in rows[id].subjects
  }

  lemma KeysGrow(rows: Rows, kind: EnvelopeKind, keys: seq<Subject>, k: Subject)
    ensures KeyIds(rows, kind, keys + [k]) == KeyIds(rows, kind, keys) + OnSubject(rows, kind, k)
  {
    assert forall x :: x in keys + [k] <==> x in keys || x == k;
  }

  lemma KeyIsEntry(rows: Rows, d: AssemblyEntry, bindings: seq<Subject>, i: nat)
    requires i < |SubjectKeys(d, bindings)|
    ensures OnSubject(rows, d.kind, SubjectKeys(d, bindings)[i]) <= EntryIds(rows, d, bindings)
  {
    assert SubjectKeys(d, bindings)[i] in SubjectKeys(d, bindings);
  }

  lemma KeysAreEntry(rows: Rows, d: AssemblyEntry, bindings: seq<Subject>)
    ensures KeyIds(rows, d.kind, SubjectKeys(d, bindings)) == EntryIds(rows, d, bindings)
  {}

  /** The entries of a map in some order. */
  method Listed(union: Rows) returns (refs: seq<EvidenceRef>)
    ensures DistinctIds(refs)
    ensures forall r: EvidenceRef :: r in refs <==> r.id in union && union[r.id] == r.digest
  {
    refs := [];
    var rest := union.Keys;
    while rest != {}
      invariant rest <= union.Keys && DistinctIds(refs)
      invariant forall r: EvidenceRef :: r in refs <==> r.id in union && r.id !in rest && union[r.id] == r.digest
      decreases |rest|
    {
      var id :| id in rest;
      rest := rest - {id};
      forall i | 0 <= i < |refs| ensures refs[i].id != id {
        assert refs[i] in refs;
      }
      refs := refs + [EvidenceRef(id, union[id])];
    }
  }

  /** The caller's refs, resolved in order. */
  method Resolve(rows: Rows, ids: seq<Id>) returns (refs: Result<seq<EvidenceRef>, Refusal>)
    ensures refs.Done? <==> forall id :: id in ids ==> id in rows
    ensures refs.Done? ==>
      refs.value == seq(|ids|, i requires 0 <= i < |ids| && ids[i] in rows => EvidenceRef(ids[i], rows[ids[i]]))
    ensures refs.Refused? ==>
      refs.reason.EvidenceNotFound? && refs.reason.missing in ids && refs.reason.missing !in rows
  {
    var out: seq<EvidenceRef> := [];
    for i := 0 to |ids|
      invariant |out| == i && forall k :: 0 <= k < i ==> ids[k] in rows && out[k] == EvidenceRef(ids[k], rows[ids[k]])
    {
      if ids[i] !in rows {
        return Refused(EvidenceNotFound(ids[i]));
      }
      out := out + [EvidenceRef(ids[i], rows[ids[i]])];
    }
    return Done(out);
  }

  /** A map from the resolved refs. */
  method UnionOf(refs: seq<EvidenceRef>) returns (union: Rows)
    ensures forall id :: id in union <==> exists r :: r in refs && r.id == id
    ensures forall id :: id in union ==> EvidenceRef(id, union[id]) in refs
  {
    union := map[];
    for i := 0 to |refs|
      invariant forall id :: id in union <==> exists r :: r in refs[..i] && r.id == id
      invariant forall id :: id in union ==> EvidenceRef(id, union[id]) in refs[..i]
    {
      assert refs[..i + 1] == refs[..i] + [refs[i]];
      union := union[refs[i].id := refs[i].digest];
    }
    assert refs[..|refs|] == refs;
  }

  /** Every declared entry in order; refuses an unbound entry or a matched row that does not recompute. */
  method AddDeclared(start: Rows, rows: Rows, intact: set<Id>, declared: seq<AssemblyEntry>, bindings: seq<Subject>)
    returns (union: Result<Rows, Refusal>)
    requires Stored(start, rows)
    ensures union.Done? <==> AllBound(declared, bindings) && Matching(rows, declared, bindings) <= intact
    ensures union.Done? ==>
      Stored(union.value, rows) && union.value.Keys == start.Keys + Matching(rows, declared, bindings)
    ensures union.Refused? ==>
      if union.reason.Corrupt? then union.reason.bad in Matching(rows, declared, bindings)
        && union.reason.bad !in intact
      else union.reason.SubjectUnbound? && !AllBound(declared, bindings)
  {
    hide Stored, MatchesEntry, EntryIds;
    var all := start;
    for i := 0 to |declared|
      invariant Stored(all, rows) && AllBound(declared[..i], bindings)
        && Matching(rows, declared[..i], bindings) <= intact
      invariant all.Keys == start.Keys + Matching(rows, declared[..i], bindings)
    {
      assert declared[i] in declared && declared[..i + 1] == declared[..i] + [declared[i]];
      MatchesGrow(rows, declared[..i], declared[i], bindings);
      MatchesStay(rows, declared, i, bindings);
      if |SubjectKeys(declared[i], bindings)| == 0 {
        UnboundHasNoKeys(declared[i], bindings);
        return Refused(SubjectUnbound);
      }
      UnboundHasNoKeys(declared[i], bindings);
      var next, bad := AddEntry(all, rows, intact, declared[i], bindings);
      if bad.Some? {
        return Refused(Corrupt(bad.value));
      }
      all := next;
    }
    assert declared[..|declared|] == declared;
    return Done(all);
  }

  lemma UnboundHasNoKeys(d: AssemblyEntry, bindings: seq<Subject>)
    ensures Bound(d, bindings) <==> |SubjectKeys(d, bindings)| > 0
  {
    assert |SubjectKeys(d, bindings)| > 0 ==> SubjectKeys(d, bindings)[0] in SubjectKeys(d, bindings);
  }

  lemma MatchesGrow(rows: Rows, declared: seq<AssemblyEntry>, d: AssemblyEntry, bindings: seq<Subject>)
    ensures Matching(rows, declared + [d], bindings) == Matching(rows, declared, bindings) + EntryIds(rows, d, bindings)
  {
    forall env ensures Matches(env, declared + [d], bindings) <==>
      Matches(env, declared, bindings) || MatchesEntry(env, d, bindings)
    {
      assert forall e :: e in declared + [d] <==> e in declared || e == d;
    }
  }

  lemma MatchesStay(rows: Rows, declared: seq<AssemblyEntry>, i: nat, bindings: seq<Subject>)
    requires i < |declared|
    ensures EntryIds(rows, declared[i], bindings) <= Matching(rows, declared, bindings)
  {}

  /** `assembleAdmissionInput`, from the resolved request to the sealed refs; `intact` are the rows that recompute. */
  method Assemble(rows: Rows, intact: set<Id>, declared: seq<AssemblyEntry>, bindings: seq<Subject>, ids: seq<Id>)
    returns (sealed: Result<seq<EvidenceRef>, Refusal>)
    ensures sealed.Done? <==>
      && (forall id :: id in ids ==> id in rows)
      && (declared == [] || (AllBound(declared, bindings) && Matching(rows, declared, bindings) <= intact))
    ensures sealed.Done? && declared != [] ==> IsComplete(sealed.value, rows, declared, bindings, ids)
    ensures sealed.Done? && declared == [] ==>
      sealed.value == seq(|ids|, i requires 0 <= i < |ids| && ids[i] in rows => EvidenceRef(ids[i], rows[ids[i]]))
    ensures sealed.Refused? && sealed.reason.Corrupt? ==>
      sealed.reason.bad in Matching(rows, declared, bindings) && sealed.reason.bad !in intact
    ensures sealed.Refused? && sealed.reason.SubjectUnbound? ==> !AllBound(declared, bindings)
    ensures sealed.Refused? && sealed.reason.EvidenceNotFound? ==>
      sealed.reason.missing in ids && sealed.reason.missing !in rows
  {
    hide Matching, Before, AllBound;
    var refs := Resolve(rows, ids);
    if refs.Refused? || |declared| == 0 {
      return refs;
    }
    var callers := UnionOf(refs.value);
    CallersAreStored(rows, ids, refs.value, callers);
    var union := AddDeclared(callers, rows, intact, declared, bindings);
    if union.Refused? {
      return Refused(union.reason);
    }
    var listed := Listed(union.value);
    SortSorts(listed);
    ListedIsComplete(rows, declared, bindings, ids, union.value, Sort(listed));
    return Done(Sort(listed));
  }

  lemma CallersAreStored(rows: Rows, ids: seq<Id>, refs: seq<EvidenceRef>, callers: Rows)
    requires forall id :: id in ids ==> id in rows
    requires |refs| == |ids| && forall i :: 0 <= i < |ids| ==> refs[i] == EvidenceRef(ids[i], rows[ids[i]])
    requires forall id :: id in callers <==> exists r :: r in refs && r.id == id
    requires forall id :: id in callers ==> EvidenceRef(id, callers[id]) in refs
    ensures Stored(callers, rows) && forall id :: id in callers <==> id in ids
  {
    forall id ensures id in callers <==> id in ids {
      if id in ids {
        var i :| 0 <= i < |ids| && ids[i] == id;
        assert refs[i] in refs;
      }
    }
  }

  lemma ListedIsComplete(rows: Rows, declared: seq<AssemblyEntry>, bindings: seq<Subject>, ids: seq<Id>, union: Rows,
      refs: seq<EvidenceRef>)
    requires Stored(union, rows) && StrictlySorted(refs)
    requires forall id :: id in union <==> id in ids || id in Matching(rows, declared, bindings)
    requires forall r: EvidenceRef :: r in refs <==> r.id in union && union[r.id] == r.digest
    ensures IsComplete(refs, rows, declared, bindings, ids)
  {}

  // ---------------------------------------------------------------- main results

  /** Main: what is sealed depends on the set of caller refs only, not on their order or repetition. */
  lemma SealedSetIsDetermined(rows: Rows, declared: seq<AssemblyEntry>, bindings: seq<Subject>, ids: seq<Id>,
      others: seq<Id>,
                              a: seq<EvidenceRef>, b: seq<EvidenceRef>)
    requires IsComplete(a, rows, declared, bindings, ids) && IsComplete(b, rows, declared, bindings, others)
    requires forall id :: id in ids <==> id in others
    ensures a == b
  {
    SortedIsDetermined(a, b);
  }

  /** The caller can add evidence and never take any away. */
  lemma CallerOnlyAdds(rows: Rows, declared: seq<AssemblyEntry>, bindings: seq<Subject>, ids: seq<Id>,
                       a: seq<EvidenceRef>, none: seq<EvidenceRef>)
    requires IsComplete(a, rows, declared, bindings, ids) && IsComplete(none, rows, declared, bindings, [])
    ensures forall r :: r in none ==> r in a
  {}

  lemma SmallerIsDifferent(a: set<Id>, b: set<Id>)
    requires a <= b
    ensures b - a == {} && |a| == |b| <==> a == b
  {
    assert forall x :: x in b && x !in a ==> x in b - a;
  }

  /** Recheck #18, inside the admission transaction: `ids` are the refs of the bound input, all resolved. */
  method RecheckAssembly(rows: Rows, ids: seq<Id>, declared: seq<AssemblyEntry>, bindings: seq<Subject>)
      returns (ok: bool)
    ensures ok <==> CarriesComplete(rows, ids, declared, bindings)
  {
    for i := 0 to |declared|
      invariant CarriesComplete(rows, ids, declared[..i], bindings)
    {
      var d := declared[i];
      assert d in declared && declared[..i + 1] == declared[..i] + [d];
      var keys := SubjectKeys(d, bindings);
      UnboundHasNoKeys(d, bindings);
      if |keys| == 0 {
        return false;
      }
      for j := 0 to |keys|
        invariant forall k :: k in keys[..j] ==> OnSubject(rows, d.kind, k) <= set id | id in ids
      {
        assert keys[j] in keys && keys[..j + 1] == keys[..j] + [keys[j]];
        var complete := OnSubject(rows, d.kind, keys[j]);
        var carried := set id | id in ids && id in complete;
        SmallerIsDifferent(carried, complete);
        if |complete - carried| > 0 || |carried| != |complete| {
          return false;
        }
      }
      assert keys[..|keys|] == keys;
    }
    assert declared[..|declared|] == declared;
    return true;
  }

  /** The refs of a sealed list, as an input keeps them. */
  function IdsOf(refs: seq<EvidenceRef>): seq<Id> {
    seq(|refs|, i requires 0 <= i < |refs| => refs[i].id)
  }

  /**
   * Main: an input assembled over `rows` passes recheck #18 over any later store exactly when no envelope
   * sealed in between answers a declared entry for its request.
   */
  lemma AdmissionIsCurrent(rows: Rows, later: Rows, declared: seq<AssemblyEntry>, bindings: seq<Subject>, ids: seq<Id>,
                           refs: seq<EvidenceRef>)
    requires Stored(rows, later) && AllBound(declared, bindings)
    requires IsComplete(refs, rows, declared, bindings, ids)
    requires forall id :: id in ids ==> id in rows
    ensures CarriesComplete(later, IdsOf(refs), declared, bindings) <==>
      Matching(later, declared, bindings) <= rows.Keys
  {
    IdsAre(refs);
    if Matching(later, declared, bindings) <= rows.Keys {
      forall d, k, id | d in declared && k in bindings && k.ns == d.ns && id in OnSubject(later, d.kind, k)
        ensures id in IdsOf(refs)
      {
        assert MatchesEntry(later[id], d, bindings);
        assert id in Matching(later, declared, bindings);
        assert EvidenceRef(id, rows[id]) in refs;
      }
    }
    if CarriesComplete(later, IdsOf(refs), declared, bindings) {
      forall id | id in Matching(later, declared, bindings) ensures id in rows {
        var d :| d in declared && MatchesEntry(later[id], d, bindings);
        var k :| k in bindings && k.ns == d.ns && k in later[id].subjects;
        assert id in OnSubject(later, d.kind, k);
      }
    }
  }

  lemma IdsAre(refs: seq<EvidenceRef>)
    ensures forall id :: id in IdsOf(refs) <==> exists r :: r in refs && r.id == id
  {
    forall r | r in refs ensures r.id in IdsOf(refs) {
      var i :| 0 <= i < |refs| && refs[i] == r;
      assert IdsOf(refs)[i] == r.id;
    }
  }
}
