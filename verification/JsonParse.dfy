/** JSON.parse on the texts `jcs` writes, and the round trip through it. */
module JsonParse {
  import opened Wrappers
  import opened JsonText
  import opened Json

  // ---------------------------------------------------------------- numbers

  function ReadNat(t: Text, acc: nat): (r: Read<nat>)
    ensures |r.rest| <= |t|
  {
    if t == [] || !Digit(t[0]) then Read(acc, t) else ReadNat(t[1..], acc * 10 + (t[0] - 0x30))
  }

  lemma {:induction false} NatRoundTrip(n: nat, tail: Text)
    ensures ReadNat(PrintNat(n) + tail, 0) == ReadNat(tail, n)
    decreases n
  {
    if n < 10 {
      assert ([0x30 + n] + tail)[1..] == tail;
    } else {
      var last := [0x30 + n % 10] + tail;
      assert PrintNat(n) + tail == PrintNat(n / 10) + last;
      NatRoundTrip(n / 10, last);
      assert last[1..] == tail;
    }
  }

  function Signed(negative: bool, n: nat): int {
    var magnitude: int := n;
    if negative then -magnitude else magnitude
  }

  function ReadInt(t: Text): (r: Option<Read<int>>)
    ensures r.Some? ==> |r.value.rest| < |t|
  {
    var negative := t != [] && t[0] == MINUS;
    var digits := if negative then t[1..] else t;
    if digits == [] || !Digit(digits[0]) then None
    else
      var n := ReadNat(digits[1..], digits[0] - 0x30);
      Some(Read(Signed(negative, n.value), n.rest))
  }

  lemma IntRoundTrip(n: int, rest: Text)
    requires rest != [] ==> !Digit(rest[0])
    ensures ReadInt(PrintInt(n) + rest) == Some(Read(n, rest))
  {
    var digits := PrintNat(if n < 0 then -n else n) + rest;
    NatRoundTrip(if n < 0 then -n else n, rest);
    if n < 0 {
      assert PrintInt(n) + rest == [MINUS] + digits;
      assert ([MINUS] + digits)[1..] == digits;
    }
    assert ReadNat(digits, 0) == ReadNat(digits[1..], digits[0] - 0x30);
  }

  // ---------------------------------------------------------------- values

  function After<T>(word: Text, value: T, t: Text): Option<Read<T>> {
    if |word| <= |t| && t[..|word|] == word then Some(Read(value, t[|word|..])) else None
  }

  function ParseValue(t: Text): (r: Option<Read<Value>>)
    ensures r.Some? ==> |r.value.rest| < |t|
    decreases |t|, 0
  {
    if t == [] then None
    else if t[0] == QUOTE then
      var s := ReadBody(t[1..]);
      if s.None? then None else Some(Read(Str(s.value.value), s.value.rest))
    else if t[0] == OPEN_ARRAY then
      if |t| > 1 && t[1] == CLOSE_ARRAY then Some(Read(Arr([]), t[2..]))
      else
        var items := ParseItems(t[1..]);
        if items.None? then None else Some(Read(Arr(items.value.value), items.value.rest))
    else if t[0] == OPEN_OBJECT then
      if |t| > 1 && t[1] == CLOSE_OBJECT then Some(Read(Obj([]), t[2..]))
      else
        var ms := ParseMembers(t[1..]);
        if ms.None? then None else Some(Read(Obj(ms.value.value), ms.value.rest))
    else if t[0] == 0x6E then After(NULL_TEXT, Null, t)
    else if t[0] == 0x74 then After(TRUE_TEXT, Bool(true), t)
    else if t[0] == 0x66 then After(FALSE_TEXT, Bool(false), t)
    else
      var n := ReadInt(t);
      if n.None? || !(-MAX_SAFE <= n.value.value <= MAX_SAFE) then None
        else Some(Read(Int(n.value.value), n.value.rest))
  }

  /** One or more items up to and including the closing bracket. */
  function ParseItems(t: Text): (r: Option<Read<seq<Value>>>)
    ensures r.Some? ==> |r.value.rest| < |t|
    decreases |t|, 1
  {
    var first := ParseValue(t);
    if first.None? || first.value.rest == [] then None
    else if first.value.rest[0] == CLOSE_ARRAY then Some(Read([first.value.value], first.value.rest[1..]))
    else if first.value.rest[0] != COMMA then None
    else
      var more := ParseItems(first.value.rest[1..]);
      if more.None? then None else Some(Read([first.value.value] + more.value.value, more.value.rest))
  }

  function ParseMember(t: Text): (r: Option<Read<Member>>)
    ensures r.Some? ==> |r.value.rest| < |t|
    decreases |t|, 1
  {
    if t == [] || t[0] != QUOTE then None
    else
      var key := ReadBody(t[1..]);
      if key.None? || key.value.rest == [] || key.value.rest[0] != COLON then None
      else
        var v := ParseValue(key.value.rest[1..]);
        if v.None? then None else Some(Read(Member(key.value.value, v.value.value), v.value.rest))
  }

  function ParseMembers(t: Text): (r: Option<Read<seq<Member>>>)
    ensures r.Some? ==> |r.value.rest| < |t|
    decreases |t|, 2
  {
    var first := ParseMember(t);
    if first.None? || first.value.rest == [] then None
    else if first.value.rest[0] == CLOSE_OBJECT then Some(Read([first.value.value], first.value.rest[1..]))
    else if first.value.rest[0] != COMMA then None
    else
      var more := ParseMembers(first.value.rest[1..]);
      if more.None? then None else Some(Read([first.value.value] + more.value.value, more.value.rest))
  }

  // ---------------------------------------------------------------- round trip

  /** No undefined anywhere: what a text can denote. */
  predicate Plain(v: Value)
    decreases v, 0
  {
    match v
    case Undefined => false
    case Arr(items) => forall i :: 0 <= i < |items| ==> Plain(items[i])
    case Obj(ms) => forall i :: 0 <= i < |ms| ==> Plain(ms[i].value)
    case _ => true
  }

  predicate Ends(rest: Text) {
    rest != [] ==> !Digit(rest[0])
  }

  lemma PrintStarts(v: Value)
    ensures Print(v) != [] && Print(v)[0] != CLOSE_ARRAY && Print(v)[0] != CLOSE_OBJECT
  {}

  lemma IntStarts(n: int)
    ensures PrintInt(n) != [] && (PrintInt(n)[0] == MINUS || Digit(PrintInt(n)[0]))
  {}

  lemma WordReads<T>(word: Text, value: T, rest: Text)
    ensures After(word, value, word + rest) == Some(Read(value, rest))
  {
    assert (word + rest)[..|word|] == word && (word + rest)[|word|..] == rest;
  }

  lemma ScalarRoundTrip(v: Value, rest: Text)
    requires v.Null? || v.Bool? || v.Int? || v.Str?
    requires Ends(rest)
    ensures ParseValue(Print(v) + rest) == Some(Read(v, rest))
  {
    hide ReadInt, PrintInt, PrintString;
    var t := Print(v) + rest;
    match v
    case Null => WordReads(NULL_TEXT, Null, rest);
    case Bool(b) => WordReads(if b then TRUE_TEXT else FALSE_TEXT, Bool(b), rest);
    case Int(n) =>
      IntRoundTrip(n, rest);
      IntStarts(n);
      assert t[0] == MINUS || Digit(t[0]);
    case Str(s) => StringReads(s, rest);
  }

  lemma StringReads(s: Text, rest: Text)
    ensures ParseValue(Print(Str(s)) + rest) == Some(Read(Str(s), rest))
  {
    hide ReadBody, Escape;
    var t := Print(Str(s)) + rest;
    StringRoundTrip(s, rest);
    assert t[0] == QUOTE && t[1..] == Escape(s) + [QUOTE] + rest;
  }

  lemma ArrayReads(items: seq<Value>, rest: Text)
    requires items != [] ==> ParseItems(PrintItems(items) + [CLOSE_ARRAY] + rest) == Some(Read(items, rest))
    ensures ParseValue(Print(Arr(items)) + rest) == Some(Read(Arr(items), rest))
  {
    var body := PrintItems(items) + [CLOSE_ARRAY] + rest;
    var t := [OPEN_ARRAY] + body;
    assert Print(Arr(items)) + rest == t && t[1..] == body;
    if items == [] {
      assert t == [OPEN_ARRAY, CLOSE_ARRAY] + rest && t[2..] == rest;
    } else {
      PrintStarts(items[0]);
      assert t[1] == Print(items[0])[0];
    }
  }

  lemma ObjectReads(ms: seq<Member>, rest: Text)
    requires ms != [] ==> ParseMembers(PrintMembers(ms) + [CLOSE_OBJECT] + rest) == Some(Read(ms, rest))
    ensures ParseValue(Print(Obj(ms)) + rest) == Some(Read(Obj(ms), rest))
  {
    var body := PrintMembers(ms) + [CLOSE_OBJECT] + rest;
    var t := [OPEN_OBJECT] + body;
    assert Print(Obj(ms)) + rest == t && t[1..] == body;
    if ms == [] {
      assert t == [OPEN_OBJECT, CLOSE_OBJECT] + rest && t[2..] == rest;
    } else {
      assert t[1] == QUOTE;
    }
  }

  lemma {:induction false} ValueRoundTrip(v: Value, rest: Text)
    requires Plain(v) && Ends(rest)
    ensures ParseValue(Print(v) + rest) == Some(Read(v, rest))
    decreases v, 0
  {
    hide ParseValue, Print, Ends;
    match v
    case Arr(items) =>
      if items != [] { ItemsRoundTrip(items, rest); }
      ArrayReads(items, rest);
    case Obj(ms) =>
      if ms != [] { MembersRoundTrip(ms, rest); }
      ObjectReads(ms, rest);
    case _ => ScalarRoundTrip(v, rest);
  }

  lemma {:induction false} ItemsRoundTrip(items: seq<Value>, rest: Text)
    requires items != [] && forall i :: 0 <= i < |items| ==> Plain(items[i])
    ensures ParseItems(PrintItems(items) + [CLOSE_ARRAY] + rest) == Some(Read(items, rest))
    decreases items, 1
  {
    hide ParseValue, Print, Plain;
    var t := PrintItems(items) + [CLOSE_ARRAY] + rest;
    if |items| == 1 {
      var tail := [CLOSE_ARRAY] + rest;
      assert t == Print(items[0]) + tail;
      ValueRoundTrip(items[0], tail);
      assert tail[1..] == rest && items == [items[0]];
    } else {
      var tail := [COMMA] + (PrintItems(items[1..]) + [CLOSE_ARRAY] + rest);
      assert t == Print(items[0]) + tail;
      ValueRoundTrip(items[0], tail);
      ItemsRoundTrip(items[1..], rest);
      assert tail[1..] == PrintItems(items[1..]) + [CLOSE_ARRAY] + rest;
      assert items == [items[0]] + items[1..];
    }
  }

  lemma {:induction false} MemberRoundTrip(m: Member, rest: Text)
    requires Plain(m.value) && Ends(rest)
    ensures ParseMember(PrintMember(m) + rest) == Some(Read(m, rest))
    decreases m, 1
  {
    hide ReadBody, Escape, ParseValue, Print, Ends, Plain;
    var t := PrintMember(m) + rest;
    var tail := [COLON] + (Print(m.value) + rest);
    StringRoundTrip(m.key, tail);
    assert t[1..] == Escape(m.key) + [QUOTE] + tail;
    assert tail[1..] == Print(m.value) + rest;
    ValueRoundTrip(m.value, rest);
  }

  lemma {:induction false} MembersRoundTrip(ms: seq<Member>, rest: Text)
    requires ms != [] && forall i :: 0 <= i < |ms| ==> Plain(ms[i].value)
    ensures ParseMembers(PrintMembers(ms) + [CLOSE_OBJECT] + rest) == Some(Read(ms, rest))
    decreases ms, 2
  {
    hide ParseValue, ParseMember, Print, PrintMember, Plain;
    var t := PrintMembers(ms) + [CLOSE_OBJECT] + rest;
    if |ms| == 1 {
      var tail := [CLOSE_OBJECT] + rest;
      assert t == PrintMember(ms[0]) + tail;
      MemberRoundTrip(ms[0], tail);
      assert tail[1..] == rest && ms == [ms[0]];
    } else {
      var tail := [COMMA] + (PrintMembers(ms[1..]) + [CLOSE_OBJECT] + rest);
      assert t == PrintMember(ms[0]) + tail;
      MemberRoundTrip(ms[0], tail);
      MembersRoundTrip(ms[1..], rest);
      assert tail[1..] == PrintMembers(ms[1..]) + [CLOSE_OBJECT] + rest;
      assert ms == [ms[0]] + ms[1..];
    }
  }
}
