/**
 * Bundle identity of cadp/kernel/policyBundle.ts: the manifest revision, and the bundle whose manifest carries the
 * digest of its own payload.
 */
module Bundle {
  import opened Wrappers
  import opened JsonText
  import opened Json
  import opened JsonParse
  import opened BundlePayload
  import Tar
  import TarRoundTrip
  import Utf8

  // ---------------------------------------------------------------- manifest revision

  const AT: Unit := 0x40
  const HASH: Unit := 0x23

  /** "cadp-v04:policy:" */
  const POLICY_PREFIX: Text := [0x63, 0x61, 0x64, 0x70, 0x2D, 0x76, 0x30, 0x34, 0x3A, 0x70, 0x6F, 0x6C, 0x69, 0x63,
      0x79, 0x3A]

  predicate IdUnit(u: Unit) {
    0x61 <= u <= 0x7A || Digit(u) || u == 0x2D
  }

  predicate HexUnit(u: Unit) {
    Digit(u) || 0x61 <= u <= 0x66
  }

  predicate PolicyId(id: Text) {
    |id| > |POLICY_PREFIX| && id[..|POLICY_PREFIX|] == POLICY_PREFIX
    && forall i :: |POLICY_PREFIX| <= i < |id| ==> IdUnit(id[i])
  }

  predicate HexDigest(h: Text) {
    |h| == 64 && forall i :: 0 <= i < 64 ==> HexUnit(h[i])
  }

  datatype Revision = Revision(policyId: Text, revision: nat, payloadHex: Text)

  /** `manifestRevisionString`. */
  function PrintRevision(r: Revision): Text {
    r.policyId + [AT] + PrintNat(r.revision) + [HASH] + r.payloadHex
  }

  function IdLength(t: Text): (n: nat)
    ensures n <= |t| && (forall i :: 0 <= i < n ==> IdUnit(t[i])) && (n < |t| ==> !IdUnit(t[n]))
  {
    if t == [] || !IdUnit(t[0]) then 0 else 1 + IdLength(t[1..])
  }

  /** `parseManifestRevision`: the anchored pattern; neither separator belongs to the part before it. */
  function ParseRevision(t: Text): Option<Revision> {
    var p := |POLICY_PREFIX|;
    if |t| < p || t[..p] != POLICY_PREFIX then None
    else
      var n := p + IdLength(t[p..]);
      if n == p || n + 1 >= |t| || t[n] != AT || !Digit(t[n + 1]) then None
      else
        var number := ReadNat(t[n + 1..], 0);
        if number.rest == [] || number.rest[0] != HASH || !HexDigest(number.rest[1..]) then None
        else Some(Revision(t[..n], number.value, number.rest[1..]))
  }

  lemma IdLengthOf(t: Text, n: nat)
    requires n < |t| && (forall i :: 0 <= i < n ==> IdUnit(t[i])) && !IdUnit(t[n])
    ensures IdLength(t) == n
  {}

  /** What is printed for a policy, a revision and a digest is read back as just those. */
  lemma RevisionRoundTrip(r: Revision)
    requires PolicyId(r.policyId) && HexDigest(r.payloadHex)
    ensures ParseRevision(PrintRevision(r)) == Some(r)
  {
    var t := PrintRevision(r);
    var p, n := |POLICY_PREFIX|, |r.policyId|;
    var tail := [HASH] + r.payloadHex;
    assert t == r.policyId + ([AT] + (PrintNat(r.revision) + tail));
    assert t[..n] == r.policyId && t[n] == AT && t[n + 1..] == PrintNat(r.revision) + tail;
    assert t[..p] == r.policyId[..p];
    forall i | 0 <= i < n - p ensures IdUnit(t[p..][i]) {
      assert t[p..][i] == r.policyId[p + i];
    }
    IdLengthOf(t[p..], n - p);
    NatRoundTrip(r.revision, tail);
    assert t[n + 1] == PrintNat(r.revision)[0];
    assert ReadNat(tail, r.revision) == Read(r.revision, tail);
    assert tail[1..] == r.payloadHex;
  }

  // ---------------------------------------------------------------- the built bundle

  /** "revision" and "roots" */
  const REVISION_KEY: Text := [0x72, 0x65, 0x76, 0x69, 0x73, 0x69, 0x6F, 0x6E]
  const ROOTS_KEY: Text := [0x72, 0x6F, 0x6F, 0x74, 0x73]

  function ManifestValue(revision: Text): Value {
    Obj([Member(REVISION_KEY, Str(revision)), Member(ROOTS_KEY, Arr([Str([])]))])
  }

  /** `find(path)` over the parsed entries. */
  function FindEntry(entries: seq<Entry>, path: Text): Option<Entry> {
    if entries == [] then None
    else if NormalizePath(entries[0].path) == path then Some(entries[0])
    else FindEntry(entries[1..], path)
  }

  function FindMember(ms: seq<Member>, key: Text): Option<Value> {
    if ms == [] then None else if ms[0].key == key then Some(ms[0].value) else FindMember(ms[1..], key)
  }

  /** `parseManifestRevision(manifestOf(bundle).revision)`. */
  function ManifestRevision(archive: Bytes): Option<Revision> {
    var entry := FindEntry(Tar.Parse(archive), MANIFEST);
    if entry.None? then None
    else
      var parsed := ParseValue(Utf8.Decode(entry.value.bytes));
      if parsed.None? || parsed.value.rest != [] || !parsed.value.value.Obj? then None
      else
        var revision := FindMember(parsed.value.value.members, REVISION_KEY);
        if revision.None? || !revision.value.Str? then None else ParseRevision(revision.value.s)
  }

  datatype Input = Input(policyId: Text, revision: nat, rego: Bytes, data: Bytes)

  function Payload(input: Input): Bytes {
    Encode([Tar.Entry(DATA_JSON, input.data), Tar.Entry(POLICY_REGO, input.rego)])
  }

  function ManifestText(input: Input, hash: Bytes -> Text): Text {
    Print(ManifestValue(PrintRevision(Revision(input.policyId, input.revision, hash(Payload(input))))))
  }

  predicate HashYieldsHex(input: Input, hash: Bytes -> Text) {
    HexDigest(hash(Payload(input)))
  }

  lemma {:induction false} AsciiEscapes(t: Text)
    requires forall i :: 0 <= i < |t| ==> 0x20 <= t[i] < 128 && t[i] != QUOTE && t[i] != BACKSLASH
    ensures Escape(t) == t
  {
    if t != [] {
      AsciiEscapes(t[1..]);
      assert t == [t[0]] + t[1..];
    }
  }

  lemma RevisionIsPlain(r: Revision)
    requires PolicyId(r.policyId) && HexDigest(r.payloadHex)
    ensures forall i :: 0 <= i < |PrintRevision(r)| ==>
      0x20 <= PrintRevision(r)[i] < 128 && PrintRevision(r)[i] != QUOTE && PrintRevision(r)[i] != BACKSLASH
  {
    var t, n := PrintRevision(r), |r.policyId|;
    forall i | 0 <= i < |t| ensures 0x20 <= t[i] < 128 && t[i] != QUOTE && t[i] != BACKSLASH {
      if i < |POLICY_PREFIX| {
        assert t[i] == r.policyId[..|POLICY_PREFIX|][i];
      } else if i < n {
        assert IdUnit(r.policyId[i]);
      } else if n < i <= n + |PrintNat(r.revision)| {
        assert Digit(PrintNat(r.revision)[i - n - 1]);
      } else if i > n + 1 + |PrintNat(r.revision)| {
        assert HexUnit(r.payloadHex[i - (n + 2 + |PrintNat(r.revision)|)]);
      }
    }
  }

  lemma ManifestTextIsAscii(input: Input, hash: Bytes -> Text)
    requires PolicyId(input.policyId) && HashYieldsHex(input, hash)
    ensures Utf8.Ascii(ManifestText(input, hash))
  {
    hide Print, PrintString, PrintRevision, Payload, PolicyId, HexDigest, Utf8.Ascii;
    var r := Revision(input.policyId, input.revision, hash(Payload(input)));
    var revision := PrintRevision(r);
    RevisionIsPlain(r);
    PlainStringIsAscii(revision);
    PlainStringIsAscii(REVISION_KEY);
    PlainStringIsAscii(ROOTS_KEY);
    PrintedManifest(revision);
    AsciiParts(PrintString(REVISION_KEY), PrintString(revision), PrintString(ROOTS_KEY));
  }

  lemma AsciiParts(a: Text, b: Text, c: Text)
    requires Utf8.Ascii(a) && Utf8.Ascii(b) && Utf8.Ascii(c)
    ensures Utf8.Ascii([OPEN_OBJECT] + (a + [COLON] + b + [COMMA]
      + (c + [COLON] + [OPEN_ARRAY, QUOTE, QUOTE, CLOSE_ARRAY])) + [CLOSE_OBJECT])
  {}

  lemma PlainStringIsAscii(t: Text)
    requires forall i :: 0 <= i < |t| ==> 0x20 <= t[i] < 128 && t[i] != QUOTE && t[i] != BACKSLASH
    ensures Utf8.Ascii(PrintString(t))
  {
    AsciiEscapes(t);
  }

  lemma PrintedManifest(revision: Text)
    ensures Print(ManifestValue(revision)) ==
      [OPEN_OBJECT] + (PrintString(REVISION_KEY) + [COLON] + PrintString(revision) + [COMMA]
        + (PrintString(ROOTS_KEY) + [COLON] + [OPEN_ARRAY, QUOTE, QUOTE, CLOSE_ARRAY])) + [CLOSE_OBJECT]
  {
    hide Escape;
    var roots := Arr([Str([])]);
    var ms := [Member(REVISION_KEY, Str(revision)), Member(ROOTS_KEY, roots)];
    assert ms[1..] == [ms[1]];
    assert Print(roots) == [OPEN_ARRAY, QUOTE, QUOTE, CLOSE_ARRAY] by {
      EmptyString();
      assert PrintItems([Str([])]) == PrintString([]);
    }
    assert PrintMembers([ms[1]]) == PrintString(ROOTS_KEY) + [COLON] + [OPEN_ARRAY, QUOTE, QUOTE, CLOSE_ARRAY];
    assert PrintMembers(ms) == PrintMember(ms[0]) + [COMMA] + PrintMembers([ms[1]]);
    assert PrintMember(ms[0]) == PrintString(REVISION_KEY) + [COLON] + PrintString(revision);
  }

  lemma EmptyString()
    ensures PrintString([]) == [QUOTE, QUOTE]
  {}

  function Files(input: Input, hash: Bytes -> Text): seq<Entry> {
    [Tar.Entry(MANIFEST, Utf8.Encode(ManifestText(input, hash))), Tar.Entry(POLICY_REGO, input.rego),
      Tar.Entry(DATA_JSON, input.data)]
  }

  function Built(input: Input, hash: Bytes -> Text): Bytes {
    Tar.Archive(Files(input, hash))
  }

  lemma SortedFiles(input: Input)
    ensures SortByPath([Tar.Entry(POLICY_REGO, input.rego), Tar.Entry(DATA_JSON, input.data)])
      == [Tar.Entry(DATA_JSON, input.data), Tar.Entry(POLICY_REGO, input.rego)]
  {
    var rego, data := Tar.Entry(POLICY_REGO, input.rego), Tar.Entry(DATA_JSON, input.data);
    assert [rego, data][1..] == [data] && [data][1..] == [];
    assert Placed(data, []) == [data] && SortByPath([data]) == Placed(data, SortByPath([]));
    assert DATA_JSON[0] < POLICY_REGO[0] && Less(DATA_JSON, POLICY_REGO);
    assert Placed(rego, [data]) == [data] + Placed(rego, []) && Placed(rego, []) == [rego];
  }

  /** `buildPolicyBundle`, inside gzip, for any policy id and any hash. */
  method BuildPolicyBundle(input: Input, hash: Bytes -> Text) returns (archive: Bytes)
    ensures archive == Built(input, hash)
  {
    hide Encode, Utf8.Encode, Print, PrintRevision, Tar.Archive, SortByPath;
    var entries := [Tar.Entry(POLICY_REGO, input.rego), Tar.Entry(DATA_JSON, input.data)];
    SortedFiles(input);
    var hashed := HashInput(SortByPath(entries));
    var manifest := Print(ManifestValue(PrintRevision(Revision(input.policyId, input.revision, hash(hashed)))));
    archive := TarRoundTrip.BuildTar([Tar.Entry(MANIFEST, Utf8.Encode(manifest))] + entries);
    assert [Tar.Entry(MANIFEST, Utf8.Encode(manifest))] + entries == Files(input, hash);
  }

  predicate Archivable(input: Input, hash: Bytes -> Text) {
    forall f :: f in Files(input, hash) ==> |f.bytes| < Tar.SIZE_LIMIT
  }

  lemma BuiltParses(input: Input, hash: Bytes -> Text)
    requires Archivable(input, hash)
    ensures Tar.Parse(Built(input, hash)) == Files(input, hash)
  {
    hide Tar.Parse, Tar.Archive, ManifestText, Utf8.Encode;
    TarRoundTrip.PlainArchivesSurvive(Files(input, hash));
  }

  lemma FilesArePayload(input: Input, hash: Bytes -> Text)
    ensures Encode(SortByPath(PayloadEntries(Files(input, hash)))) == Payload(input)
    ensures FindEntry(Files(input, hash), MANIFEST) == Some(Files(input, hash)[0])
  {
    hide ManifestText;
    var files := Files(input, hash);
    SortedFiles(input);
    assert files[1..][1..] == [files[2]] && files[1..][1..][1..] == [];
    assert PayloadEntries([files[2]]) == [files[2]];
    assert PayloadEntries(files[1..]) == [files[1], files[2]];
    assert PayloadEntries(files) == [files[1], files[2]];
  }

  /** A reader of any built bundle hashes exactly what the builder hashed. */
  lemma BuiltPayloadIsRead(input: Input, hash: Bytes -> Text)
    requires Archivable(input, hash)
    ensures PayloadOf(Built(input, hash)) == Payload(input)
  {
    hide Tar.Parse, Tar.Archive, SortByPath, Encode;
    BuiltParses(input, hash);
    FilesArePayload(input, hash);
  }

  lemma ManifestReads(revision: Text)
    ensures ParseValue(Print(ManifestValue(revision))) == Some(Read(ManifestValue(revision), []))
    ensures FindMember(ManifestValue(revision).members, REVISION_KEY) == Some(Str(revision))
  {
    ValueRoundTrip(ManifestValue(revision), []);
    assert Print(ManifestValue(revision)) + [] == Print(ManifestValue(revision));
  }

  lemma ParsedIdIsPolicyId(t: Text)
    ensures ParseRevision(t).Some? ==> PolicyId(ParseRevision(t).value.policyId)
  {
    var p := |POLICY_PREFIX|;
    if ParseRevision(t).Some? {
      var n := p + IdLength(t[p..]);
      assert t[..n][..p] == t[..p];
      forall i | p <= i < n ensures IdUnit(t[..n][i]) {
        assert t[i] == t[p..][i - p];
      }
    }
  }

  /** What a reader finds in the manifest of a built bundle is what the revision string parses to. */
  lemma ManifestIsRead(input: Input, hash: Bytes -> Text)
    requires Archivable(input, hash) && PolicyId(input.policyId) && HashYieldsHex(input, hash)
    ensures ManifestRevision(Built(input, hash)) == Some(Revision(input.policyId, input.revision, hash(Payload(input))))
  {
    hide Tar.Parse, Tar.Archive, ParseValue, Print, PrintRevision, ParseRevision, Utf8.Encode, Utf8.Decode;
    ManifestTextIsAscii(input, hash);
    BuiltParses(input, hash);
    FilesArePayload(input, hash);
    var r := Revision(input.policyId, input.revision, hash(Payload(input)));
    ManifestReads(PrintRevision(r));
    RevisionRoundTrip(r);
    Utf8.AsciiIsPaired(ManifestText(input, hash));
    Utf8.Utf8RoundTrip(ManifestText(input, hash));
  }

  /**
   * Main: the manifest of a built bundle names the digest that a reader computes from that bundle's own bytes, with
   * its policy and revision, exactly when the policy id is one the revision pattern admits; the builder takes any.
   */
  lemma BuiltManifestIsHonest(input: Input, hash: Bytes -> Text)
    requires Archivable(input, hash) && HashYieldsHex(input, hash)
    ensures ManifestRevision(Built(input, hash))
      == Some(Revision(input.policyId, input.revision, hash(PayloadOf(Built(input, hash)))))
      <==> PolicyId(input.policyId)
  {
    hide ManifestRevision, Built, PayloadOf, Payload, PolicyId;
    BuiltPayloadIsRead(input, hash);
    if PolicyId(input.policyId) {
      ManifestIsRead(input, hash);
    }
    FoundRevisionIsPolicy(Built(input, hash));
  }

  lemma FoundRevisionIsPolicy(archive: Bytes)
    ensures ManifestRevision(archive).Some? ==> PolicyId(ManifestRevision(archive).value.policyId)
  {
    hide Tar.Parse, ParseValue, ParseRevision, PolicyId, Utf8.Decode;
    forall t ensures ParseRevision(t).Some? ==> PolicyId(ParseRevision(t).value.policyId) {
      ParsedIdIsPolicyId(t);
    }
  }

  /**
   * Of all archives with the payload of a built bundle, exactly those that keep no NUL in a path hold the policy
   * and data it was built from.
   */
  lemma PublishedPayloadIsTheFiles(input: Input, archive: Bytes)
    requires |input.rego| < Pow256(8) && |input.data| < Pow256(8) && PayloadOf(archive) == Payload(input)
    ensures Hashed(archive) == [Tar.Entry(DATA_JSON, input.data), Tar.Entry(POLICY_REGO, input.rego)] <==>
      Digestible(archive)
  {
    hide Encode, Pow256, PairedSurrogates, Digestible, Tar.Parse, PayloadEntries, SortByPath;
    HashedAreEncodable(archive);
    Utf8.AsciiIsPaired(DATA_JSON);
    Utf8.AsciiIsPaired(POLICY_REGO);
    PayloadIsUniquelyDecodable([Tar.Entry(DATA_JSON, input.data), Tar.Entry(POLICY_REGO, input.rego)], Hashed(archive));
  }

  /** Two bundles that publish one digest under an injective hash have the same policy and data. */
  lemma SameDigestSameContent(a: Input, b: Input, hash: Bytes -> Text)
    requires |a.rego| < Pow256(8) && |a.data| < Pow256(8) && |b.rego| < Pow256(8) && |b.data| < Pow256(8)
    requires hash(Payload(a)) == hash(Payload(b)) ==> Payload(a) == Payload(b)
    ensures hash(Payload(a)) == hash(Payload(b)) <==> a.rego == b.rego && a.data == b.data
  {
    var es := [Tar.Entry(DATA_JSON, a.data), Tar.Entry(POLICY_REGO, a.rego)];
    var fs := [Tar.Entry(DATA_JSON, b.data), Tar.Entry(POLICY_REGO, b.rego)];
    hide Encode, Pow256, PairedSurrogates;
    if hash(Payload(a)) == hash(Payload(b)) {
      Utf8.AsciiIsPaired(DATA_JSON);
      Utf8.AsciiIsPaired(POLICY_REGO);
      PayloadIsUniquelyDecodable(es, fs);
      assert es[0] == fs[0] && es[1] == fs[1];
    }
  }
}
