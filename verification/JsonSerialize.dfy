/** `jcs` as the source runs it: recursion over values, a loop that fills `parts` over the sorted keys. */
module JsonSerialize {
  import opened Wrappers
  import opened JsonText
  import opened Json
  import opened JsonCanon

  /** `Object.keys(value).sort(compareUtf16)`, each key with its value. */
  function Sorted(ms: seq<Member>): (r: seq<Member>)
    ensures forall x :: x in r <==> x in ms
  {
    if ms == [] then [] else Insert(ms[0], Sorted(ms[1..]))
  }

  /** What the loop pushes for one member. */
  function KeptOne(m: Member): seq<Member> {
    if m.value.Undefined? then [] else [Member(m.key, Canon(m.value))]
  }

  function Kept(ms: seq<Member>): (r: seq<Member>)
    ensures forall x :: x in r ==> x.key in Keys(ms)
  {
    if ms == [] then []
    else
      assert Keys(ms) == Keys(ms[1..]) + {ms[0].key};
      KeptOne(ms[0]) + Kept(ms[1..])
  }

  function Texts(ms: seq<Member>): (r: seq<Text>)
    ensures |r| == |ms|
  {
    seq(|ms|, i requires 0 <= i < |ms| => PrintMember(ms[i]))
  }

  /** `parts.join(",")`. */
  function Join(parts: seq<Text>): Text {
    if parts == [] then [] else if |parts| == 1 then parts[0] else parts[0] + [COMMA] + Join(parts[1..])
  }

  lemma KeptCons(m: Member, ms: seq<Member>)
    ensures Kept([m] + ms) == KeptOne(m) + Kept(ms)
  {
    assert ([m] + ms)[1..] == ms;
  }

  /** Where a member goes in a list it precedes, and in one whose head precedes it. */
  lemma InsertAtHead(m: Member, ms: seq<Member>)
    requires forall x :: x in ms ==> Less(m.key, x.key)
    ensures Insert(m, ms) == [m] + ms
  {
    assert ms != [] ==> ms[0] in ms;
  }

  lemma InsertPastHead(m: Member, a: Member, ms: seq<Member>)
    requires !Less(m.key, a.key)
    ensures Insert(m, [a] + ms) == [a] + Insert(m, ms)
  {
    assert ([a] + ms)[1..] == ms;
  }

  lemma KeptAfter(key: Text, ms: seq<Member>)
    requires SortedBy(ms) && (ms != [] ==> Less(key, ms[0].key))
    ensures forall x :: x in Kept(ms) ==> Less(key, x.key)
  {
    forall x | x in Kept(ms) ensures Less(key, x.key) {
      var i :| 0 <= i < |ms| && ms[i].key == x.key;
      if i > 0 { LessIsTransitive(key, ms[0].key, ms[i].key); }
    }
  }

  lemma {:induction false} KeptInsert(m: Member, ms: seq<Member>)
    requires SortedBy(ms)
    ensures Kept(Insert(m, ms)) == if m.value.Undefined? then Kept(ms)
      else Insert(Member(m.key, Canon(m.value)), Kept(ms))
  {
    hide Kept, Canon, Less;
    var kept := Member(m.key, Canon(m.value));
    if ms == [] || Less(m.key, ms[0].key) {
      KeptCons(m, ms);
      KeptAfter(m.key, ms);
      InsertAtHead(kept, Kept(ms));
    } else {
      var tail := ms[1..];
      assert ms == [ms[0]] + tail;
      KeptInsert(m, tail);
      KeptCons(ms[0], tail);
      KeptCons(ms[0], Insert(m, tail));
      assert Insert(m, ms) == [ms[0]] + Insert(m, tail);
      if ms[0].value.Undefined? {
        assert KeptOne(ms[0]) + Kept(tail) == Kept(tail);
        assert KeptOne(ms[0]) + Kept(Insert(m, tail)) == Kept(Insert(m, tail));
      } else {
        InsertPastHead(kept, Member(ms[0].key, Canon(ms[0].value)), Kept(tail));
      }
    }
  }

  lemma {:induction false} SortedIsSorted(ms: seq<Member>)
    requires WfMembers(ms)
    ensures SortedBy(Sorted(ms)) && Keys(Sorted(ms)) == Keys(ms)
    ensures Kept(Sorted(ms)) == CanonMembers(ms)
  {
    if ms != [] {
      SortedIsSorted(ms[1..]);
      InsertKeepsOrder(ms[0], Sorted(ms[1..]));
      KeptInsert(ms[0], Sorted(ms[1..]));
    }
    SameElementsSameKeys(Sorted(ms), ms);
  }

  lemma SameElementsSameKeys(a: seq<Member>, b: seq<Member>)
    requires forall x :: x in a <==> x in b
    ensures Keys(a) == Keys(b)
  {
    forall k ensures k in Keys(a) <==> k in Keys(b) {
      if k in Keys(a) { var i :| 0 <= i < |a| && a[i].key == k; assert a[i] in b; }
      if k in Keys(b) { var i :| 0 <= i < |b| && b[i].key == k; assert b[i] in a; }
    }
  }

  lemma {:induction false} KeptAppend(ms: seq<Member>, m: Member)
    ensures Kept(ms + [m]) == Kept(ms) + KeptOne(m)
  {
    hide Kept, KeptOne, Keys;
    if ms == [] {
      KeptNone();
      KeptCons(m, []);
      assert [] + [m] == [m] + [];
    } else {
      KeptAppend(ms[1..], m);
      KeptCons(ms[0], ms[1..] + [m]);
      KeptCons(ms[0], ms[1..]);
      assert ms + [m] == [ms[0]] + (ms[1..] + [m]) && ms == [ms[0]] + ms[1..];
    }
  }

  lemma {:induction false} JoinPrints(ms: seq<Member>)
    ensures Join(Texts(ms)) == PrintMembers(ms)
  {
    if |ms| > 1 {
      JoinPrints(ms[1..]);
      assert Texts(ms)[1..] == Texts(ms[1..]);
    }
  }

  lemma {:induction false} JoinPrintsItems(items: seq<Value>, parts: seq<Text>)
    requires |parts| == |items| && forall i :: 0 <= i < |items| ==> parts[i] == Print(items[i])
    ensures Join(parts) == PrintItems(items)
  {
    if |items| > 1 {
      JoinPrintsItems(items[1..], parts[1..]);
    }
  }

  /** `jcs`: refuses only undefined itself, and otherwise writes the canonical text. */
  method Serialize(v: Value) returns (t: Option<Text>)
    requires Wf(v)
    ensures t == if v.Undefined? then None else Some(Jcs(v))
    decreases v, 0
  {
    match v {
      case Undefined => return None;
      case Null => return Some(NULL_TEXT);
      case Bool(b) => return Some(if b then TRUE_TEXT else FALSE_TEXT);
      case Int(n) => return Some(PrintInt(n));
      case Str(s) => return Some(PrintString(s));
      case Arr(items) => t := SerializeArray(items);
      case Obj(ms) => t := SerializeObject(ms);
    }
  }

  method SerializeArray(items: seq<Value>) returns (t: Option<Text>)
    requires forall i :: 0 <= i < |items| ==> Wf(items[i])
    ensures t == Some(Jcs(Arr(items)))
    decreases items, 1
  {
    var parts: seq<Text> := [];
    for i := 0 to |items|
      invariant |parts| == i && forall k :: 0 <= k < i ==> parts[k] == Print(Canon(items[k]))
    {
      var part := Some(NULL_TEXT);
      if !items[i].Undefined? {
        part := Serialize(items[i]);
      }
      parts := parts + [part.value];
    }
    JoinPrintsItems(CanonItems(items), parts);
    return Some([OPEN_ARRAY] + Join(parts) + [CLOSE_ARRAY]);
  }

  method SerializeObject(ms: seq<Member>) returns (t: Option<Text>)
    requires WfMembers(ms)
    ensures t == Some(Jcs(Obj(ms)))
    decreases ms, 1
  {
    hide Kept, Sorted, Canon, Print, Wf;
    SortedIsSorted(ms);
    var sorted := Sorted(ms);
    KeptNone();
    var parts: seq<Text> := [];
    for i := 0 to |sorted|
      invariant parts == Texts(Kept(sorted[..i]))
    {
      KeptAppend(sorted[..i], sorted[i]);
      assert sorted[..i + 1] == sorted[..i] + [sorted[i]];
      if !sorted[i].value.Undefined? {
        assert sorted[i] in ms;
        MembersAreWf(ms, sorted[i]);
        var part := Serialize(sorted[i].value);
        parts := parts + [PrintString(sorted[i].key) + [COLON] + part.value];
        TextsAppend(Kept(sorted[..i]), Member(sorted[i].key, Canon(sorted[i].value)));
      }
    }
    assert sorted[..|sorted|] == sorted;
    JoinPrints(CanonMembers(ms));
    ObjectText(ms);
    return Some([OPEN_OBJECT] + Join(parts) + [CLOSE_OBJECT]);
  }

  lemma ObjectText(ms: seq<Member>)
    ensures Jcs(Obj(ms)) == [OPEN_OBJECT] + PrintMembers(CanonMembers(ms)) + [CLOSE_OBJECT]
  {}

  lemma KeptNone()
    ensures Kept([]) == [] && Texts([]) == []
  {}

  lemma TextsAppend(ms: seq<Member>, m: Member)
    ensures Texts(ms + [m]) == Texts(ms) + [PrintMember(m)]
  {}

  lemma {:induction false} MembersAreWf(ms: seq<Member>, m: Member)
    requires WfMembers(ms) && m in ms
    ensures Wf(m.value)
  {
    if m != ms[0] {
      MembersAreWf(ms[1..], m);
    }
  }
}
