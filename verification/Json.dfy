/** `jcs` and `recordDigest` of cadp/kernel/canonical.ts: canonical text against the value it denotes. */
module Json {
  import opened JsonText

  const MAX_SAFE := 0x1F_FFFF_FFFF_FFFF

  type Safe = n: int | -MAX_SAFE <= n <= MAX_SAFE

  /** A JavaScript value: object members in insertion order; `Undefined` may occur inside. */
  datatype Value =
    | Undefined
    | Null
    | Bool(b: bool)
    | Int(n: Safe)
    | Str(s: Text)
    | Arr(items: seq<Value>)
    | Obj(members: seq<Member>)

  datatype Member = Member(key: Text, value: Value)

  /** What a value means once order and undefined members are forgotten. */
  datatype Meaning =
    | MNull
    | MBool(b: bool)
    | MInt(n: int)
    | MStr(s: Text)
    | MArr(items: seq<Meaning>)
    | MObj(members: map<Text, Meaning>)

  function Keys(ms: seq<Member>): set<Text> {
    set i | 0 <= i < |ms| :: ms[i].key
  }

  /** Every object has distinct keys, at every depth. */
  predicate Wf(v: Value)
    decreases v, 0
  {
    match v
    case Arr(items) => forall i :: 0 <= i < |items| ==> Wf(items[i])
    case Obj(ms) => WfMembers(ms)
    case _ => true
  }

  predicate WfMembers(ms: seq<Member>)
    decreases ms, 1
  {
    ms == [] || (ms[0].key !in Keys(ms[1..]) && Wf(ms[0].value) && WfMembers(ms[1..]))
  }

  function Denote(v: Value): Meaning
    decreases v, 0
  {
    match v
    case Undefined => MNull
    case Null => MNull
    case Bool(b) => MBool(b)
    case Int(n) => MInt(n)
    case Str(s) => MStr(s)
    case Arr(items) => MArr(DenoteItems(items))
    case Obj(ms) => MObj(DenoteMembers(ms))
  }

  function DenoteItems(items: seq<Value>): (r: seq<Meaning>)
    ensures |r| == |items| && forall i :: 0 <= i < |r| ==> r[i] == Denote(items[i])
    decreases items, 1
  {
    if items == [] then [] else [Denote(items[0])] + DenoteItems(items[1..])
  }

  function DenoteMembers(ms: seq<Member>): (r: map<Text, Meaning>)
    ensures r.Keys <= Keys(ms)
    decreases ms, 1
  {
    if ms == [] then map[]
    else
      var rest := DenoteMembers(ms[1..]);
      assert Keys(ms) == Keys(ms[1..]) + {ms[0].key};
      if ms[0].value.Undefined? then rest else rest[ms[0].key := Denote(ms[0].value)]
  }

  // ---------------------------------------------------------------- canonical form

  predicate SortedBy(ms: seq<Member>) {
    forall i, j :: 0 <= i < j < |ms| ==> Less(ms[i].key, ms[j].key)
  }

  function Insert(m: Member, ms: seq<Member>): (r: seq<Member>)
    ensures forall x :: x in r <==> x == m || x in ms
  {
    if ms == [] || Less(m.key, ms[0].key) then [m] + ms else [ms[0]] + Insert(m, ms[1..])
  }

  /** The value `jcs` writes: members sorted, undefined members dropped, undefined items null. */
  function Canon(v: Value): Value
    decreases v, 0
  {
    match v
    case Undefined => Null
    case Arr(items) => Arr(CanonItems(items))
    case Obj(ms) => Obj(CanonMembers(ms))
    case _ => v
  }

  function CanonItems(items: seq<Value>): (r: seq<Value>)
    ensures |r| == |items| && forall i :: 0 <= i < |r| ==> r[i] == Canon(items[i])
    decreases items, 1
  {
    if items == [] then [] else [Canon(items[0])] + CanonItems(items[1..])
  }

  function CanonMembers(ms: seq<Member>): (r: seq<Member>)
    ensures forall x :: x in r ==> x.key in Keys(ms)
    decreases ms, 1
  {
    if ms == [] then []
    else
      var rest := CanonMembers(ms[1..]);
      assert Keys(ms) == Keys(ms[1..]) + {ms[0].key};
      if ms[0].value.Undefined? then rest else Insert(Member(ms[0].key, Canon(ms[0].value)), rest)
  }

  // ---------------------------------------------------------------- text

  const NULL_TEXT: Text := [0x6E, 0x75, 0x6C, 0x6C]
  const TRUE_TEXT: Text := [0x74, 0x72, 0x75, 0x65]
  const FALSE_TEXT: Text := [0x66, 0x61, 0x6C, 0x73, 0x65]
  const COMMA: Unit := 0x2C
  const COLON: Unit := 0x3A
  const OPEN_ARRAY: Unit := 0x5B
  const CLOSE_ARRAY: Unit := 0x5D
  const OPEN_OBJECT: Unit := 0x7B
  const CLOSE_OBJECT: Unit := 0x7D
  const MINUS: Unit := 0x2D

  function PrintNat(n: nat): (t: Text)
    ensures t != [] && forall i :: 0 <= i < |t| ==> Digit(t[i])
  {
    if n < 10 then [0x30 + n] else PrintNat(n / 10) + [0x30 + n % 10]
  }

  predicate Digit(u: Unit) {
    0x30 <= u <= 0x39
  }

  function PrintInt(n: int): Text {
    if n < 0 then [MINUS] + PrintNat(-n) else PrintNat(n)
  }

  /** Plain printing in the order given; `Undefined` prints as null. */
  function Print(v: Value): Text
    decreases v, 0
  {
    match v
    case Undefined => NULL_TEXT
    case Null => NULL_TEXT
    case Bool(b) => if b then TRUE_TEXT else FALSE_TEXT
    case Int(n) => PrintInt(n)
    case Str(s) => PrintString(s)
    case Arr(items) => [OPEN_ARRAY] + PrintItems(items) + [CLOSE_ARRAY]
    case Obj(ms) => [OPEN_OBJECT] + PrintMembers(ms) + [CLOSE_OBJECT]
  }

  function PrintItems(items: seq<Value>): Text
    decreases items, 1
  {
    if items == [] then []
    else if |items| == 1 then Print(items[0])
    else Print(items[0]) + [COMMA] + PrintItems(items[1..])
  }

  function PrintMember(m: Member): Text
    decreases m, 1
  {
    PrintString(m.key) + [COLON] + Print(m.value)
  }

  function PrintMembers(ms: seq<Member>): Text
    decreases ms, 1
  {
    if ms == [] then []
    else if |ms| == 1 then PrintMember(ms[0])
    else PrintMember(ms[0]) + [COMMA] + PrintMembers(ms[1..])
  }

  /** `jcs`. */
  function Jcs(v: Value): Text {
    Print(Canon(v))
  }
}
