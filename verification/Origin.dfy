/**
 * The v0.5 origin record of cadp/live/ops.ts: what one start seals, the first-writer-wins record file, and
 * when racing, crashing and retried starts of one origin seal the same request.
 */
module Origin {
  import opened Wrappers

  datatype Vertical = Development | RecordVertical

  /** Provider selections, already resolved and validated by `startSelection`. */
  datatype Selection = Selection(worker: string, review: string, external: bool)

  /** One invocation: `extra[0]`, the two bounds, `extra[3]`, and the selections. */
  datatype Start = Start(vertical: Vertical, item: Option<string>, steps: Option<string>, effects: Option<string>,
                         proposal: Option<string>, selection: Selection)

  /** The argument identity that the record file pins (`startArgumentDigest`, over its own value). */
  datatype Arguments =
    | DevelopmentArguments(workItem: string, maxSteps: nat, maxEffects: nat, proposal: string, selection: Selection)
    | RecordArguments(payloads: nat, maxSteps: nat, maxEffects: nat)

  /** Member order of the surface image object; the material's bytes depend on it. */
  datatype Order = Canonical | Permuted(n: nat)

  datatype Image = Image(order: Order, image: string, digest: string, versions: seq<(string, string)>)

  datatype Inputs = Inputs(repo: Option<(string, string)>, baseSha: Option<string>, image: Image, namespaceId: string)

  datatype Record = Record(originKey: string, vertical: Vertical, arguments: Arguments, inputs: Inputs)

  /** `Number(raw)` when it is a safe integer; a foreign function of the text. */
  type Number = string -> Option<int>

  /** `Number("undefined")` is NaN. */
  predicate Numeric(number: Number) {
    number("undefined").None?
  }

  /** `boundArg`; `None` is the refusal of a malformed bound. */
  function BoundArg(raw: Option<string>, fallback: nat, number: Number): Option<nat> {
    if raw.None? then Some(fallback)
    else
      var n := number(raw.value);
      if n.None? || n.value < 1 then None else Some(n.value)
  }

  function OrEmpty(raw: Option<string>): string {
    if raw.None? then "" else raw.value
  }

  function ArgumentsOf(s: Start, number: Number): Option<Arguments> {
    match s.vertical
    case Development =>
      var steps, effects := BoundArg(s.steps, 8, number), BoundArg(s.effects, 6, number);
      if steps.None? || effects.None? then None
      else Some(DevelopmentArguments(OrEmpty(s.item), steps.value, effects.value, OrEmpty(s.proposal), s.selection))
    case RecordVertical =>
      var payloads := BoundArg(s.item, 2, number);
      var steps, effects := BoundArg(s.steps, 6, number), BoundArg(s.effects, 4, number);
      if payloads.None? || steps.None? || effects.None? then None
      else Some(RecordArguments(payloads.value, steps.value, effects.value))
  }

  // ---------------------------------------------------------------- what is sealed

  /** The parts of the sealed request and its material that a start, its origin key and its record decide. */
  datatype Content = Content(
    itemBinding: string, proposalBinding: Option<string>, workItem: Option<string>, payloads: Option<nat>,
    maxSteps: nat, maxEffects: nat, selection: Option<Selection>, originKey: string, inputs: Inputs)

  /** A template literal prints an absent element as `undefined`. */
  function Spelled(raw: Option<string>): string {
    if raw.None? then "undefined" else raw.value
  }

  function SealedBy(s: Start, r: Record, number: Number): Content
    requires ArgumentsOf(s, number).Some?
  {
    var args := ArgumentsOf(s, number).value;
    match s.vertical
    case Development =>
      Content("dev:" + Spelled(s.item), if OrEmpty(s.proposal) == "" then None else s.proposal, s.item, None,
              args.maxSteps, args.maxEffects, Some(s.selection), r.originKey, r.inputs)
    case RecordVertical =>
      Content("record:" + Spelled(s.item), None, None, Some(args.payloads),
              args.maxSteps, args.maxEffects, None, r.originKey, r.inputs)
  }

  // ---------------------------------------------------------------- the record file

  /** The key order a reader gives the image, whatever order the writer's object had. */
  function Normalized(r: Record): Record {
    r.(inputs := r.inputs.(image := r.inputs.image.(order := Canonical)))
  }

  /** `parseOriginRecord`: every pinned field present and nonempty for the vertical. */
  predicate Readable(r: Record) {
    && r.originKey != "" && r.inputs.namespaceId != "" && r.inputs.image.image != "" && r.inputs.image.digest != ""
    && (r.vertical.Development? ==>
          r.inputs.repo.Some? && r.inputs.repo.value.0 != "" && r.inputs.repo.value.1 != ""
            && OrEmpty(r.inputs.baseSha) != "")
  }

  datatype Refusal = RecordInvalid | OtherKey | DifferentArguments

  /** `parseOriginRecord` then `assertOriginArguments`. */
  function Adopt(file: Record, key: string, s: Start, args: Arguments): Result<Record, Refusal> {
    if !Readable(file) then Refused(RecordInvalid)
    else if file.originKey != key then Refused(OtherKey)
    else if file.vertical != s.vertical || file.arguments != args then Refused(DifferentArguments)
    else Done(Normalized(file))
  }

  /** The file of one origin: created by `linkSync`, which fails when it exists, and never overwritten. */
  class OriginFile {
    var content: Option<Record>

    constructor ()
      ensures content == None
    {
      content := None;
    }

    method Link(r: Record) returns (created: bool)
      modifies this
      ensures created <==> old(content).None?
      ensures content == if created then Some(r) else old(content)
    {
      created := content.None?;
      if created { content := Some(r); }
    }

    /** Another process of any kind may link its own record at this point. */
    method Interfere(rival: Option<Record>)
      modifies this
      ensures content == if old(content).None? then rival else old(content)
    {
      if rival.Some? {
        var created := Link(rival.value);
      }
    }

    /**
     * `openOriginRecord` and `commitOriginRecord`, with a rival that may win the race between the look and
     * the link: the file never changes once written, and the caller leaves with its contents or not at all.
     */
    method Open(key: string, s: Start, args: Arguments, resolved: Inputs, rival: Option<Record>)
        returns (r: Result<Record, Refusal>)
      modifies this
      ensures content.Some? && (old(content).Some? ==> content == old(content))
      ensures old(content).None? ==>
        content == Some(if rival.Some? then rival.value else Record(key, s.vertical, args, resolved))
      ensures r == if old(content).None? && rival.None? then Done(content.value) else Adopt(content.value, key, s, args)
    {
      if content.Some? {
        return Adopt(content.value, key, s, args);
      }
      var record := Record(key, s.vertical, args, resolved);
      Interfere(rival);
      var created := Link(record);
      if created {
        return Done(record);
      }
      return Adopt(content.value, key, s, args);
    }
  }

  // ---------------------------------------------------------------- exactly when two starts agree

  /** One logical start, spelled the same way where the spelling reaches the request. */
  predicate SpelledAlike(s: Start, t: Start) {
    s.item == t.item
  }

  /**
   * Main: a writer and a reader of one record, or two readers of it, whose arguments the record accepts as
   * the same, seal the same content exactly when `extra[0]` is spelled alike and the writer's image object
   * already had the reader's member order.
   */
  lemma SameSealIffSpelledAlike(s: Start, t: Start, file: Record, number: Number)
    requires Numeric(number) && s.vertical == t.vertical == file.vertical
    requires ArgumentsOf(s, number) == ArgumentsOf(t, number) == Some(file.arguments)
    ensures SealedBy(s, Normalized(file), number) == SealedBy(t, Normalized(file), number) <==> SpelledAlike(s, t)
    ensures SealedBy(s, file, number) == SealedBy(t, Normalized(file), number) <==>
      SpelledAlike(s, t) && file.inputs.image.order == Canonical
  {
    if s.vertical.RecordVertical? {
      SamePrefix("record:", Spelled(s.item), Spelled(t.item));
    }
  }

  lemma SamePrefix(prefix: string, a: string, b: string)
    ensures prefix + a == prefix + b <==> a == b
  {
    assert (prefix + a)[|prefix|..] == a && (prefix + b)[|prefix|..] == b;
  }

  /**
   * The retry the digest was meant to forgive: an absent payload count, "2" and "2.0" are one argument
   * identity, and each seals another work-item binding; so do an absent and an empty work item.
   */
  lemma ForgivenSpellingsConflict(file: Record, number: Number)
    requires Numeric(number) && number("2") == number("2.0") == Some(2)
    requires file.vertical.RecordVertical? && file.arguments == RecordArguments(2, 6, 4)
    ensures var absent := Start(RecordVertical, None, None, None, None, Selection("", "", false));
      var two, twoPointZero := absent.(item := Some("2")), absent.(item := Some("2.0"));
      && ArgumentsOf(absent, number) == ArgumentsOf(two, number) == ArgumentsOf(twoPointZero, number)
        == Some(file.arguments)
      && SealedBy(absent, Normalized(file), number) != SealedBy(two, Normalized(file), number)
      && SealedBy(two, Normalized(file), number) != SealedBy(twoPointZero, Normalized(file), number)
  {
    var absent := Start(RecordVertical, None, None, None, None, Selection("", "", false));
    var two, twoPointZero := absent.(item := Some("2")), absent.(item := Some("2.0"));
    SameSealIffSpelledAlike(absent, two, file, number);
    assert "2" != "2.0" by { assert |"2"| != |"2.0"|; }
    SameSealIffSpelledAlike(two, twoPointZero, file, number);
  }

  // ---------------------------------------------------------------- racing and crashing starts

  /** One attempt: it found no record and resolved the environment, or it left `openOriginRecord` with one. */
  datatype Proc = Looked(start: Start, record: Record) | Adopted(via: Start, adopted: Record)

  /** The file, the attempts in flight, the request row of the origin's effect id, and the conflict incident. */
  datatype World = World(file: Option<Record>, procs: map<nat, Proc>, row: Option<Content>, conflict: bool)

  datatype Event =
    | Look(p: nat, start: Start, resolved: Inputs)
    | Commit(p: nat)
    | Seal(p: nat)
    | Crash(p: nat)

  predicate Enabled(w: World, ev: Event, number: Number) {
    match ev
    case Look(p, s, _) => p !in w.procs && ArgumentsOf(s, number).Some?
    case Commit(p) => p in w.procs && w.procs[p].Looked?
    case Seal(p) => p in w.procs && w.procs[p].Adopted? && ArgumentsOf(w.procs[p].via, number).Some?
    case Crash(p) => p in w.procs
  }

  function Leave(w: World, p: nat): World {
    w.(procs := w.procs - {p})
  }

  function Enter(w: World, p: nat, s: Start, adopted: Result<Record, Refusal>): World {
    if adopted.Done? then w.(procs := w.procs[p := Adopted(s, adopted.value)]) else Leave(w, p)
  }

  function Next(w: World, ev: Event, key: string, number: Number): World
    requires Enabled(w, ev, number)
  {
    match ev
    case Look(p, s, resolved) =>
      var args := ArgumentsOf(s, number).value;
      if w.file.Some? then Enter(w, p, s, Adopt(w.file.value, key, s, args))
      else w.(procs := w.procs[p := Looked(s, Record(key, s.vertical, args, resolved))])
    case Commit(p) =>
      var s, r := w.procs[p].start, w.procs[p].record;
      if w.file.None? then w.(file := Some(r), procs := w.procs[p := Adopted(s, r)])
      else Enter(w, p, s, Adopt(w.file.value, key, s, r.arguments))
    case Seal(p) =>
      var content := SealedBy(w.procs[p].via, w.procs[p].adopted, number);
      if w.row.None? then Leave(w.(row := Some(content)), p)
      else if w.row.value == content then Leave(w, p)
      else Leave(w.(conflict := true), p)
    case Crash(p) => Leave(w, p)
  }

  /** The attempt works from the record in the file: its writer with its own object, others normalized. */
  predicate Faithful(file: Option<Record>, s: Start, r: Record, key: string, number: Number) {
    && file.Some? && file.value.originKey == key && (r == file.value || r == Normalized(file.value))
    && s.vertical == file.value.vertical && ArgumentsOf(s, number) == Some(file.value.arguments)
  }

  predicate ProcSound(w: World, proc: Proc, key: string, number: Number) {
    match proc
    case Looked(s, r) => r.originKey == key && r.vertical == s.vertical && ArgumentsOf(s, number) == Some(r.arguments)
    case Adopted(s, r) => Faithful(w.file, s, r, key, number)
  }

  ghost predicate RowSound(w: World, key: string, number: Number) {
    w.row.Some? ==> exists s, r :: Faithful(w.file, s, r, key, number) && w.row.value == SealedBy(s, r, number)
  }

  ghost predicate Inv(w: World, key: string, number: Number) {
    (forall p :: p in w.procs ==> ProcSound(w, w.procs[p], key, number)) && RowSound(w, key, number)
  }

  lemma StepKeepsInv(w: World, ev: Event, key: string, number: Number)
    requires Inv(w, key, number) && Enabled(w, ev, number)
    ensures Inv(Next(w, ev, key, number), key, number)
    ensures w.file.Some? ==> Next(w, ev, key, number).file == w.file
  {
    var w' := Next(w, ev, key, number);
    forall p | p in w'.procs ensures ProcSound(w', w'.procs[p], key, number) {
      if p in w.procs { assert ProcSound(w, w.procs[p], key, number); }
    }
    if w.row.Some? {
      var s, r :| Faithful(w.file, s, r, key, number) && w.row.value == SealedBy(s, r, number);
      assert Faithful(w'.file, s, r, key, number);
    } else if w'.row.Some? {
      assert Faithful(w'.file, w.procs[ev.p].via, w.procs[ev.p].adopted, key, number);
    }
  }

  ghost predicate History(trace: seq<World>, events: seq<Event>, key: string, number: Number) {
    && |trace| == |events| + 1 && trace[0] == World(None, map[], None, false)
    && forall k :: 0 <= k < |events| ==>
      Enabled(trace[k], events[k], number) && trace[k + 1] == Next(trace[k], events[k], key, number)
  }

  lemma {:induction false} Reachable(trace: seq<World>, events: seq<Event>, key: string, number: Number, k: nat)
    requires History(trace, events, key, number) && k < |trace|
    ensures Inv(trace[k], key, number)
  {
    if k > 0 {
      Reachable(trace, events, key, number, k - 1);
      StepKeepsInv(trace[k - 1], events[k - 1], key, number);
    }
  }

  /** The record file is written once: whatever the environment does later, every later attempt finds it unchanged. */
  lemma {:induction false} RecordIsPinned(trace: seq<World>, events: seq<Event>, key: string, number: Number,
      i: nat, j: nat)
    requires History(trace, events, key, number) && i <= j < |trace| && trace[i].file.Some?
    ensures trace[j].file == trace[i].file
    decreases j
  {
    if i < j {
      RecordIsPinned(trace, events, key, number, i, j - 1);
      Reachable(trace, events, key, number, j - 1);
      StepKeepsInv(trace[j - 1], events[j - 1], key, number);
    }
  }

  /** Main: every attempt that reaches the kernel works from one and the same record. */
  lemma AllAdoptOneRecord(trace: seq<World>, events: seq<Event>, key: string, number: Number, k: nat, p: nat)
    requires History(trace, events, key, number) && k < |trace| && p in trace[k].procs && trace[k].procs[p].Adopted?
    ensures trace[k].file.Some? && Normalized(trace[k].procs[p].adopted) == Normalized(trace[k].file.value)
    ensures ArgumentsOf(trace[k].procs[p].via, number) == Some(trace[k].file.value.arguments)
  {
    Reachable(trace, events, key, number, k);
    assert ProcSound(trace[k], trace[k].procs[p], key, number);
  }

  /** Every start of the history spells `extra[0]` alike and every resolver yields the reader's member order. */
  ghost predicate Uniform(events: seq<Event>, item: Option<string>) {
    forall k :: 0 <= k < |events| && events[k].Look? ==>
      events[k].start.item == item && events[k].resolved.image.order == Canonical
  }

  ghost predicate UniformWorld(w: World, item: Option<string>) {
    && (w.file.Some? ==> w.file.value.inputs.image.order == Canonical)
    && (forall p :: p in w.procs && w.procs[p].Looked? ==>
      w.procs[p].start.item == item && w.procs[p].record.inputs.image.order == Canonical)
    && (forall p :: p in w.procs && w.procs[p].Adopted? ==> w.procs[p].via.item == item)
  }

  /** What the row of a uniform history holds. */
  ghost predicate RowUniform(w: World, item: Option<string>, key: string, number: Number) {
    w.row.Some? ==> exists s, r ::
      Faithful(w.file, s, r, key, number) && s.item == item && w.row.value == SealedBy(s, r, number)
  }

  /** Two faithful starts of one spelling, with the image in the reader's order, seal the same content. */
  lemma UniformSealsAgree(file: Option<Record>, s: Start, r: Record, t: Start, q: Record, key: string, number: Number)
    requires Faithful(file, s, r, key, number) && Faithful(file, t, q, key, number)
    requires s.item == t.item && file.value.inputs.image.order == Canonical
    ensures SealedBy(s, r, number) == SealedBy(t, q, number)
  {}

  lemma {:induction false} UniformReachable(trace: seq<World>, events: seq<Event>, key: string, number: Number,
      item: Option<string>, k: nat)
    requires History(trace, events, key, number) && Uniform(events, item) && k < |trace|
    ensures Inv(trace[k], key, number) && UniformWorld(trace[k], item) && RowUniform(trace[k], item, key, number)
      && !trace[k].conflict
  {
    if k > 0 {
      UniformReachable(trace, events, key, number, item, k - 1);
      UniformStep(trace[k - 1], events[k - 1], key, number, item);
    }
  }

  lemma UniformStep(w: World, ev: Event, key: string, number: Number, item: Option<string>)
    requires Inv(w, key, number) && UniformWorld(w, item) && RowUniform(w, item, key, number) && !w.conflict
    requires Enabled(w, ev, number) && (ev.Look? ==> ev.start.item == item && ev.resolved.image.order == Canonical)
    ensures var w' := Next(w, ev, key, number);
      Inv(w', key, number) && UniformWorld(w', item) && RowUniform(w', item, key, number) && !w'.conflict
  {
    var w' := Next(w, ev, key, number);
    StepKeepsInv(w, ev, key, number);
    if w.row.Some? {
      var s, r :| Faithful(w.file, s, r, key, number) && s.item == item && w.row.value == SealedBy(s, r, number);
      assert Faithful(w'.file, s, r, key, number);
      if ev.Seal? {
        assert ProcSound(w, w.procs[ev.p], key, number);
        UniformSealsAgree(w.file, s, r, w.procs[ev.p].via, w.procs[ev.p].adopted, key, number);
      }
    } else if w'.row.Some? {
      assert ProcSound(w, w.procs[ev.p], key, number);
      assert Faithful(w'.file, w.procs[ev.p].via, w.procs[ev.p].adopted, key, number);
    }
  }

  /**
   * Main: any number of racing, crashing and retried starts of one origin key that spell `extra[0]` alike,
   * while the environment changes arbitrarily, never raise REQUEST_DIGEST_CONFLICT.
   */
  lemma UniformRetriesConverge(trace: seq<World>, events: seq<Event>, key: string, number: Number,
      item: Option<string>, k: nat)
    requires History(trace, events, key, number) && Uniform(events, item) && k < |trace|
    ensures !trace[k].conflict
    ensures forall p, q :: Enabled(trace[k], Seal(p), number) && Enabled(trace[k], Seal(q), number) ==>
      SealedBy(trace[k].procs[p].via, trace[k].procs[p].adopted, number)
      == SealedBy(trace[k].procs[q].via, trace[k].procs[q].adopted, number)
  {
    UniformReachable(trace, events, key, number, item, k);
    var w := trace[k];
    forall p, q | Enabled(w, Seal(p), number) && Enabled(w, Seal(q), number)
      ensures SealedBy(w.procs[p].via, w.procs[p].adopted, number)
        == SealedBy(w.procs[q].via, w.procs[q].adopted, number)
    {
      assert ProcSound(w, w.procs[p], key, number) && ProcSound(w, w.procs[q], key, number);
      UniformSealsAgree(w.file, w.procs[p].via, w.procs[p].adopted, w.procs[q].via, w.procs[q].adopted, key, number);
    }
  }
}
