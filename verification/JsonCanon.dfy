/** Two values have one canonical text exactly when they mean the same; a stored record keeps its digest. */
module JsonCanon {
  import opened Wrappers
  import opened JsonText
  import opened Json
  import opened JsonParse

  /** Sorted and free of undefined at every depth. */
  predicate Canonical(v: Value)
    decreases v, 0
  {
    match v
    case Undefined => false
    case Arr(items) => forall i :: 0 <= i < |items| ==> Canonical(items[i])
    case Obj(ms) => SortedBy(ms) && forall i :: 0 <= i < |ms| ==> Canonical(ms[i].value)
    case _ => true
  }

  predicate CanonicalMembers(ms: seq<Member>) {
    SortedBy(ms) && forall i :: 0 <= i < |ms| ==> Canonical(ms[i].value)
  }

  // ---------------------------------------------------------------- canonical values are unique

  lemma {:induction false} InsertKeepsOrder(m: Member, ms: seq<Member>)
    requires SortedBy(ms) && m.key !in Keys(ms)
    ensures SortedBy(Insert(m, ms))
  {
    if ms != [] {
      LessIsTotal(m.key, ms[0].key);
      assert ms[0].key in Keys(ms);
      if Less(m.key, ms[0].key) {
        forall j | 0 <= j < |ms| ensures Less(m.key, ms[j].key) {
          if j > 0 { LessIsTransitive(m.key, ms[0].key, ms[j].key); }
        }
      } else {
        assert forall k :: k in Keys(ms[1..]) ==> k in Keys(ms);
        InsertKeepsOrder(m, ms[1..]);
        var tail := Insert(m, ms[1..]);
        forall j | 0 <= j < |tail| ensures Less(ms[0].key, tail[j].key) {
          assert tail[j] in tail;
        }
      }
    }
  }

  lemma {:induction false} CanonIsCanonical(v: Value)
    requires Wf(v)
    ensures Canonical(Canon(v))
    decreases v, 0
  {
    match v
    case Arr(items) =>
      forall i | 0 <= i < |items| ensures Canonical(Canon(items[i])) {
        CanonIsCanonical(items[i]);
      }
    case Obj(ms) => CanonMembersAreCanonical(ms);
    case _ =>
  }

  lemma {:induction false} CanonMembersAreCanonical(ms: seq<Member>)
    requires WfMembers(ms)
    ensures CanonicalMembers(CanonMembers(ms))
    decreases ms, 1
  {
    if ms != [] {
      CanonMembersAreCanonical(ms[1..]);
      if !ms[0].value.Undefined? {
        CanonIsCanonical(ms[0].value);
        var rest := CanonMembers(ms[1..]);
        InsertKeepsOrder(Member(ms[0].key, Canon(ms[0].value)), rest);
        var all := CanonMembers(ms);
        forall i | 0 <= i < |all| ensures Canonical(all[i].value) {
          assert all[i] in all;
        }
      }
    }
  }

  lemma DenotedKeys(ms: seq<Member>)
    requires forall i :: 0 <= i < |ms| ==> !ms[i].value.Undefined?
    ensures DenoteMembers(ms).Keys == Keys(ms)
  {
    if ms != [] {
      DenotedKeys(ms[1..]);
      assert Keys(ms) == Keys(ms[1..]) + {ms[0].key};
    }
  }

  /** The first member of a sorted list carries the least key, once. */
  lemma SortedHead(ms: seq<Member>)
    requires ms != [] && CanonicalMembers(ms)
    ensures CanonicalMembers(ms[1..]) && ms[0].key !in Keys(ms[1..])
    ensures Keys(ms) == Keys(ms[1..]) + {ms[0].key}
    ensures forall k :: k in Keys(ms[1..]) ==> Less(ms[0].key, k)
    ensures DenoteMembers(ms)[ms[0].key] == Denote(ms[0].value)
      && DenoteMembers(ms[1..]) == DenoteMembers(ms) - {ms[0].key}
  {
    hide Denote, DenoteMembers;
    assert !ms[0].value.Undefined?;
    DenoteSplit(ms);
    forall k | k in Keys(ms[1..]) ensures Less(ms[0].key, k) && k != ms[0].key {
      LessIsTotal(ms[0].key, k);
    }
    DenotedKeys(ms[1..]);
  }

  lemma {:induction false} CanonicalIsUnique(v: Value, w: Value)
    requires Canonical(v) && Canonical(w) && Denote(v) == Denote(w)
    ensures v == w
    decreases v, 0
  {
    match v
    case Arr(items) =>
      forall i | 0 <= i < |items| ensures items[i] == w.items[i] {
        assert DenoteItems(items)[i] == DenoteItems(w.items)[i];
        CanonicalIsUnique(items[i], w.items[i]);
      }
    case Obj(ms) => CanonicalMembersAreUnique(ms, w.members);
    case _ =>
  }

  lemma {:induction false} CanonicalMembersAreUnique(ms: seq<Member>, ns: seq<Member>)
    requires CanonicalMembers(ms) && CanonicalMembers(ns) && DenoteMembers(ms) == DenoteMembers(ns)
    ensures ms == ns
    decreases ms, 1
  {
    DenotedKeys(ms);
    DenotedKeys(ns);
    assert ms != [] ==> ms[0].key in Keys(ms);
    assert ns != [] ==> ns[0].key in Keys(ns);
    if ms != [] && ns != [] {
      SortedHead(ms);
      SortedHead(ns);
      assert ms[0].key in Keys(ms) && ns[0].key in Keys(ns);
      LessIsTotal(ms[0].key, ns[0].key);
      CanonicalIsUnique(ms[0].value, ns[0].value);
      CanonicalMembersAreUnique(ms[1..], ns[1..]);
      assert ms == [ms[0]] + ms[1..] && ns == [ns[0]] + ns[1..];
    }
  }

  // ---------------------------------------------------------------- canonical form keeps the meaning

  lemma DenoteCons(m: Member, ms: seq<Member>)
    ensures DenoteMembers([m] + ms) == if m.value.Undefined? then DenoteMembers(ms)
      else DenoteMembers(ms)[m.key := Denote(m.value)]
  {
    assert ([m] + ms)[1..] == ms;
  }

  lemma DenoteSplit(ms: seq<Member>)
    requires ms != []
    ensures DenoteMembers(ms) == if ms[0].value.Undefined? then DenoteMembers(ms[1..])
      else DenoteMembers(ms[1..])[ms[0].key := Denote(ms[0].value)]
    ensures Keys(ms) == Keys(ms[1..]) + {ms[0].key}
  {
    DenoteCons(ms[0], ms[1..]);
    assert [ms[0]] + ms[1..] == ms;
  }

  lemma {:induction false} DenoteInsert(m: Member, ms: seq<Member>)
    requires m.key !in Keys(ms) && !m.value.Undefined?
    ensures DenoteMembers(Insert(m, ms)) == DenoteMembers(ms)[m.key := Denote(m.value)]
  {
    hide Denote, DenoteMembers;
    if ms == [] || Less(m.key, ms[0].key) {
      DenoteCons(m, ms);
    } else {
      DenoteSplit(ms);
      DenoteInsert(m, ms[1..]);
      DenoteCons(ms[0], Insert(m, ms[1..]));
      assert m.key != ms[0].key;
    }
  }

  lemma {:induction false} CanonKeepsMeaning(v: Value)
    requires Wf(v)
    ensures Denote(Canon(v)) == Denote(v)
    decreases v, 0
  {
    match v
    case Arr(items) =>
      forall i | 0 <= i < |items| ensures Denote(Canon(items[i])) == Denote(items[i]) {
        CanonKeepsMeaning(items[i]);
      }
      assert DenoteItems(CanonItems(items)) == DenoteItems(items);
    case Obj(ms) => CanonMembersKeepMeaning(ms);
    case _ =>
  }

  lemma {:induction false} CanonMembersKeepMeaning(ms: seq<Member>)
    requires WfMembers(ms)
    ensures DenoteMembers(CanonMembers(ms)) == DenoteMembers(ms)
    decreases ms, 1
  {
    if ms != [] {
      CanonMembersKeepMeaning(ms[1..]);
      if !ms[0].value.Undefined? {
        CanonKeepsMeaning(ms[0].value);
        CanonIsCanonical(ms[0].value);
        DenoteInsert(Member(ms[0].key, Canon(ms[0].value)), CanonMembers(ms[1..]));
      }
    }
  }

  lemma {:induction false} CanonicalIsPlain(v: Value)
    requires Canonical(v)
    ensures Plain(v)
    decreases v
  {
    match v
    case Arr(items) => forall i | 0 <= i < |items| ensures Plain(items[i]) { CanonicalIsPlain(items[i]); }
    case Obj(ms) => forall i | 0 <= i < |ms| ensures Plain(ms[i].value) { CanonicalIsPlain(ms[i].value); }
    case _ =>
  }

  // ---------------------------------------------------------------- main results

  /** Main: what `jcs` writes, JSON.parse reads back to a value with the same meaning, whatever follows it. */
  lemma JcsReadsBack(v: Value, rest: Text)
    requires Wf(v) && Ends(rest)
    ensures ParseValue(Jcs(v) + rest) == Some(Read(Canon(v), rest)) && Denote(Canon(v)) == Denote(v)
  {
    CanonIsCanonical(v);
    CanonicalIsPlain(Canon(v));
    ValueRoundTrip(Canon(v), rest);
    CanonKeepsMeaning(v);
  }

  /** Main: equal text exactly for values equal up to member order and undefined members. */
  lemma JcsIsExact(v: Value, w: Value)
    requires Wf(v) && Wf(w)
    ensures Jcs(v) == Jcs(w) <==> Denote(v) == Denote(w)
  {
    JcsReadsBack(v, []);
    JcsReadsBack(w, []);
    assert Jcs(v) + [] == Jcs(v) && Jcs(w) + [] == Jcs(w);
    if Denote(v) == Denote(w) {
      CanonIsCanonical(v);
      CanonIsCanonical(w);
      CanonicalIsUnique(Canon(v), Canon(w));
    }
  }

  // ---------------------------------------------------------------- records

  /** The copy with its own digest field deleted. */
  function Without(ms: seq<Member>, field: Text): (r: seq<Member>)
    ensures forall k :: k in Keys(r) ==> k in Keys(ms) && k != field
  {
    if ms == [] then []
    else
      assert Keys(ms) == Keys(ms[1..]) + {ms[0].key};
      if ms[0].key == field then Without(ms[1..], field)
      else
        var rest := Without(ms[1..], field);
        assert forall k :: k in Keys([ms[0]] + rest) ==> k == ms[0].key || k in Keys(rest);
        [ms[0]] + rest
  }

  /** The text a record's digest is taken over. */
  function DigestText(record: seq<Member>, field: Text): Text {
    Jcs(Obj(Without(record, field)))
  }

  lemma {:induction false} WithoutIsWf(ms: seq<Member>, field: Text)
    requires WfMembers(ms)
    ensures WfMembers(Without(ms, field))
  {
    if ms != [] {
      WithoutIsWf(ms[1..], field);
      if ms[0].key != field {
        assert Without(ms, field)[1..] == Without(ms[1..], field);
      }
    }
  }

  lemma {:induction false} DenoteWithout(ms: seq<Member>, field: Text)
    requires WfMembers(ms)
    ensures DenoteMembers(Without(ms, field)) == DenoteMembers(ms) - {field}
  {
    hide Denote, DenoteMembers, Keys, WfMembers, Wf;
    if ms == [] {
      NoMembers();
    } else {
      WfTail(ms);
      DenoteWithout(ms[1..], field);
      DenoteSplit(ms);
      MinusUpdated(DenoteMembers(ms[1..]), ms[0].key, Denote(ms[0].value), field);
      if ms[0].key != field {
        DenoteCons(ms[0], Without(ms[1..], field));
      }
    }
  }

  lemma MinusUpdated<K, V>(m: map<K, V>, k: K, v: V, f: K)
    ensures m[k := v] - {f} == if k == f then m - {f} else (m - {f})[k := v]
  {}

  lemma WfTail(ms: seq<Member>)
    requires WfMembers(ms) && ms != []
    ensures WfMembers(ms[1..])
  {}

  lemma NoMembers()
    ensures DenoteMembers([]) == map[]
  {}

  lemma {:induction false} CanonicalIsWf(v: Value)
    requires Canonical(v)
    ensures Wf(v)
    decreases v, 0
  {
    match v
    case Arr(items) => forall i | 0 <= i < |items| ensures Wf(items[i]) { CanonicalIsWf(items[i]); }
    case Obj(ms) => CanonicalMembersAreWf(ms);
    case _ =>
  }

  lemma {:induction false} CanonicalMembersAreWf(ms: seq<Member>)
    requires CanonicalMembers(ms)
    ensures WfMembers(ms)
    decreases ms, 1
  {
    if ms != [] {
      SortedHead(ms);
      CanonicalIsWf(ms[0].value);
      CanonicalMembersAreWf(ms[1..]);
    }
  }

  /** Digest texts agree exactly when the records agree on every field but the digest itself. */
  lemma DigestTextIsExact(a: seq<Member>, b: seq<Member>, field: Text)
    requires WfMembers(a) && WfMembers(b)
    ensures DigestText(a, field) == DigestText(b, field) <==> DenoteMembers(a) - {field} == DenoteMembers(b) - {field}
  {
    DenoteWithout(a, field);
    DenoteWithout(b, field);
    WithoutIsWf(a, field);
    WithoutIsWf(b, field);
    JcsIsExact(Obj(Without(a, field)), Obj(Without(b, field)));
  }

  /** Main: a record stored as its `jcs` text and parsed back recomputes the digest it was sealed with. */
  lemma StoredRecordKeepsDigest(record: seq<Member>, field: Text)
    requires WfMembers(record)
    ensures var stored := ParseValue(Jcs(Obj(record)));
      && stored.Some? && stored.value.rest == [] && stored.value.value.Obj?
      && DigestText(stored.value.value.members, field) == DigestText(record, field)
  {
    hide ParseValue, Jcs, DigestText, Denote, DenoteMembers, WfMembers, CanonicalMembers;
    RecordWf(record);
    JcsReadsBack(Obj(record), []);
    assert Jcs(Obj(record)) + [] == Jcs(Obj(record));
    CanonMembersAreCanonical(record);
    CanonicalMembersAreWf(CanonMembers(record));
    CanonMembersKeepMeaning(record);
    DigestTextIsExact(CanonMembers(record), record, field);
  }

  lemma RecordWf(record: seq<Member>)
    requires WfMembers(record)
    ensures Wf(Obj(record)) && Canon(Obj(record)) == Obj(CanonMembers(record))
  {}
}
