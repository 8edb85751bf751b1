/**
 * The `cadp-bundle-payload-1` encoding of cadp/kernel/policyBundle.ts, and the payload of an archive. Gzip is a
 * pair of inverse functions and is not part of this model: bundles are the archives inside it.
 */
module BundlePayload {
  import opened JsonText
  import Tar
  import TarRoundTrip
  import Utf8

  type Byte = Tar.Byte
  type Bytes = Tar.Bytes
  type Entry = Tar.Entry

  // ---------------------------------------------------------------- payload encoding

  /** `writeBigUInt64BE`, for k bytes. */
  function BigEndian(n: nat, k: nat): (r: Bytes)
    ensures |r| == k
  {
    if k == 0 then [] else BigEndian(n / 256, k - 1) + [n % 256]
  }

  function Pow256(k: nat): (r: nat)
    ensures r >= 1
  {
    if k == 0 then 1 else 256 * Pow256(k - 1)
  }

  lemma {:induction false} BigEndianIsInjective(m: nat, n: nat, k: nat)
    requires m < Pow256(k) && n < Pow256(k) && BigEndian(m, k) == BigEndian(n, k)
    ensures m == n
  {
    if k > 0 {
      var a, b := BigEndian(m / 256, k - 1), BigEndian(n / 256, k - 1);
      assert (a + [m % 256])[..k - 1] == a && (b + [n % 256])[..k - 1] == b;
      assert (a + [m % 256])[k - 1] == m % 256 && (b + [n % 256])[k - 1] == n % 256;
      BigEndianIsInjective(m / 256, n / 256, k - 1);
    }
  }

  /** path, NUL, eight length bytes, content. */
  function EncodeEntry(e: Entry): (r: Bytes)
    ensures r != []
  {
    Utf8.Encode(e.path) + [0] + BigEndian(|e.bytes|, 8) + e.bytes
  }

  function Encode(entries: seq<Entry>): (r: Bytes)
    ensures r == [] <==> entries == []
  {
    if entries == [] then [] else EncodeEntry(entries[0]) + Encode(entries[1..])
  }

  predicate Encodable(e: Entry) {
    PairedSurrogates(e.path) && 0 !in e.path && |e.bytes| < Pow256(8)
  }

  lemma {:induction false} NoNulWritten(t: Text)
    ensures 0 in Utf8.Encode(t) <==> 0 in t
    decreases |t|
  {
    if t != [] {
      var n := Utf8.First(t);
      NoNulWritten(t[n..]);
      assert t == t[..n] + t[n..];
      FirstHasNul(t);
    }
  }

  lemma FirstHasNul(t: Text)
    requires t != []
    ensures 0 in Utf8.EncodeFirst(t) <==> 0 in t[..Utf8.First(t)]
  {
    var b := Utf8.EncodeFirst(t);
    if JsonText.Pair(t) {
      assert t[..2] == [t[0], t[1]];
      assert b == Utf8.EncodePair(t[0], t[1]) && b == [b[0], b[1], b[2], b[3]];
    } else {
      assert t[..1] == [t[0]];
    }
  }

  lemma SplitAtNul(p: Bytes, x: Bytes, q: Bytes, y: Bytes)
    requires 0 !in p && 0 !in q && p + [0] + x == q + [0] + y
    ensures p == q && x == y
  {
    var s := p + [0] + x;
    assert s[|p|] == 0 && s[|q|] == 0;
    assert forall i :: 0 <= i < |p| ==> s[i] == p[i] && s[i] != 0;
    assert forall i :: 0 <= i < |q| ==> s[i] == q[i] && s[i] != 0;
    assert p == s[..|p|] && q == s[..|p|] && x == s[|p| + 1..] && y == s[|p| + 1..];
  }

  lemma ContentSplits(c: Bytes, x: Bytes, d: Bytes, y: Bytes)
    requires |c| < Pow256(8) && |d| < Pow256(8) && BigEndian(|c|, 8) + c + x == BigEndian(|d|, 8) + d + y
    ensures c == d && x == y
  {
    hide BigEndian, Pow256;
    var s := BigEndian(|c|, 8) + c + x;
    assert s[..8] == BigEndian(|c|, 8) && s[..8] == BigEndian(|d|, 8);
    BigEndianIsInjective(|c|, |d|, 8);
    assert c == s[8..8 + |c|] && d == s[8..8 + |c|] && x == s[8 + |c|..] && y == s[8 + |c|..];
  }

  lemma EntrySplits(e: Entry, f: Entry, x: Bytes, y: Bytes)
    requires Encodable(e) && Encodable(f) && EncodeEntry(e) + x == EncodeEntry(f) + y
    ensures e == f && x == y
  {
    hide BigEndian, Pow256, Utf8.Encode, PairedSurrogates;
    var after := BigEndian(|e.bytes|, 8) + e.bytes + x;
    var after' := BigEndian(|f.bytes|, 8) + f.bytes + y;
    var p, q := Utf8.Encode(e.path), Utf8.Encode(f.path);
    assert EncodeEntry(e) + x == p + [0] + after && EncodeEntry(f) + y == q + [0] + after';
    NoNulWritten(e.path);
    NoNulWritten(f.path);
    SplitAtNul(p, after, q, after');
    Utf8.EncodeIsExact(e.path, f.path);
    ContentSplits(e.bytes, x, f.bytes, y);
  }

  lemma {:induction false} EncodableListsAreOne(es: seq<Entry>, fs: seq<Entry>)
    requires (forall e :: e in es ==> Encodable(e)) && (forall f :: f in fs ==> Encodable(f))
    requires Encode(es) == Encode(fs)
    ensures es == fs
    decreases |es|
  {
    if es != [] && fs != [] {
      EntrySplits(es[0], fs[0], Encode(es[1..]), Encode(fs[1..]));
      EncodableListsAreOne(es[1..], fs[1..]);
      assert es == [es[0]] + es[1..] && fs == [fs[0]] + fs[1..];
    }
  }

  /**
   * Main: among the lists with one encoding at most one has only well-formed paths without NUL and lengths that
   * eight bytes hold. Against such a list, another with the same encoding is the same exactly when it is one too.
   */
  lemma PayloadIsUniquelyDecodable(es: seq<Entry>, fs: seq<Entry>)
    requires (forall e :: e in es ==> Encodable(e)) && Encode(es) == Encode(fs)
    ensures es == fs <==> forall f :: f in fs ==> Encodable(f)
  {
    hide Encode, Encodable;
    if forall f :: f in fs ==> Encodable(f) {
      EncodableListsAreOne(es, fs);
    }
  }

  // ---------------------------------------------------------------- payload of an archive

  const MANIFEST: Text := [0x2E, 0x6D, 0x61, 0x6E, 0x69, 0x66, 0x65, 0x73, 0x74]
  const POLICY_REGO: Text := [0x70, 0x6F, 0x6C, 0x69, 0x63, 0x79, 0x2E, 0x72, 0x65, 0x67, 0x6F]
  const DATA_JSON: Text := [0x64, 0x61, 0x74, 0x61, 0x2E, 0x6A, 0x73, 0x6F, 0x6E]

  function NormalizePath(path: Text): Text {
    if path != [] && path[0] == 0x2F then NormalizePath(path[1..]) else path
  }

  /** `map(normalize).filter(path !== ".manifest")`. */
  function PayloadEntries(entries: seq<Entry>): seq<Entry> {
    if entries == [] then []
    else
      var e := Tar.Entry(NormalizePath(entries[0].path), entries[0].bytes);
      (if e.path == MANIFEST then [] else [e]) + PayloadEntries(entries[1..])
  }

  /** A stable insertion by path. */
  function Placed(e: Entry, sorted: seq<Entry>): seq<Entry> {
    if sorted == [] || !Less(sorted[0].path, e.path) then [e] + sorted else [sorted[0]] + Placed(e, sorted[1..])
  }

  function SortByPath(entries: seq<Entry>): seq<Entry> {
    if entries == [] then [] else Placed(entries[0], SortByPath(entries[1..]))
  }

  /** The bytes `payloadDigestOf` hashes. */
  function PayloadOf(archive: Bytes): Bytes {
    Encode(SortByPath(PayloadEntries(Tar.Parse(archive))))
  }

  // What is hashed has well-formed paths, whatever the archive.

  lemma {:induction false} StrippedIsPaired(t: Text)
    requires PairedSurrogates(t)
    ensures PairedSurrogates(Tar.StripNul(t))
    decreases |t|
  {
    if t != [] && Tar.StripNul(t) != [] {
      var n := Utf8.First(t);
      StrippedIsPaired(t[n..]);
      if n == 2 {
        assert t[1] != 0 && t[1..][1..] == t[2..];
        assert Tar.StripNul(t) == [t[0], t[1]] + Tar.StripNul(t[2..]);
      } else {
        var r := Tar.StripNul(t);
        assert r == [t[0]] + Tar.StripNul(t[1..]) && r[1..] == Tar.StripNul(t[1..]) && !Pair(r);
      }
    }
  }

  lemma {:induction false} NormalizedIsPaired(t: Text)
    requires PairedSurrogates(t)
    ensures PairedSurrogates(NormalizePath(t))
  {
    if t != [] && t[0] == 0x2F {
      NormalizedIsPaired(t[1..]);
    }
  }

  lemma {:induction false} ParsedPathIsPaired(buf: Bytes, e: Entry)
    requires e in Tar.Parse(buf)
    ensures PairedSurrogates(e.path)
    decreases |buf|
  {
    hide Tar.StripNul, Utf8.Decode, Tar.ReadSize, PairedSurrogates;
    var header, rest := buf[..Tar.BLOCK], buf[Tar.BLOCK..];
    var name, size := Tar.StripNul(Utf8.Decode(header[..100])), Tar.ReadSize(header[124..136]);
    Utf8.ReadIsPaired(header[..100]);
    StrippedIsPaired(Utf8.Decode(header[..100]));
    if e.path != name {
      ParsedPathIsPaired(Tar.Drop(rest, Tar.Blocks(size.value)), e);
    }
  }

  lemma {:induction false} PayloadPathIsPaired(entries: seq<Entry>, e: Entry)
    requires e in PayloadEntries(entries) && forall x :: x in entries ==> PairedSurrogates(x.path)
    ensures PairedSurrogates(e.path)
  {
    hide PairedSurrogates;
    assert entries[0] in entries;
    NormalizedIsPaired(entries[0].path);
    if e.path != NormalizePath(entries[0].path) {
      PayloadPathIsPaired(entries[1..], e);
    }
  }

  lemma PayloadIsPaired(archive: Bytes)
    ensures forall e :: e in PayloadEntries(Tar.Parse(archive)) ==> PairedSurrogates(e.path)
  {
    hide PairedSurrogates, Tar.Parse, PayloadEntries;
    forall x | x in Tar.Parse(archive) ensures PairedSurrogates(x.path) {
      ParsedPathIsPaired(archive, x);
    }
    forall e | e in PayloadEntries(Tar.Parse(archive)) ensures PairedSurrogates(e.path) {
      PayloadPathIsPaired(Tar.Parse(archive), e);
    }
  }

  lemma {:induction false} PlacedIs(e: Entry, sorted: seq<Entry>)
    ensures forall x :: x in Placed(e, sorted) <==> x == e || x in sorted
  {
    if sorted != [] && Less(sorted[0].path, e.path) {
      PlacedIs(e, sorted[1..]);
      assert sorted == [sorted[0]] + sorted[1..];
    }
  }

  lemma {:induction false} SortKeepsEntries(entries: seq<Entry>)
    ensures forall x :: x in SortByPath(entries) <==> x in entries
  {
    if entries != [] {
      SortKeepsEntries(entries[1..]);
      PlacedIs(entries[0], SortByPath(entries[1..]));
      assert entries == [entries[0]] + entries[1..];
    }
  }

  /** The entries a payload digest covers have no NUL in their path and a length that eight bytes hold. */
  predicate Digestible(archive: Bytes) {
    forall e :: e in PayloadEntries(Tar.Parse(archive)) ==> 0 !in e.path && |e.bytes| < Pow256(8)
  }

  /** The files of an archive as they are hashed: the manifest left out, paths normalized, in order. */
  function Hashed(archive: Bytes): seq<Entry> {
    SortByPath(PayloadEntries(Tar.Parse(archive)))
  }

  /**
   * Main: the payload depends on the hashed files alone, and identifies them as far as it can: an archive with the
   * payload of a digestible one has the same files exactly when it is digestible itself, that is, when no path
   * of its own keeps a NUL.
   */
  lemma OnePayloadIsOneContent(a: Bytes, b: Bytes)
    ensures Hashed(a) == Hashed(b) ==> PayloadOf(a) == PayloadOf(b)
    ensures Digestible(a) && PayloadOf(a) == PayloadOf(b) ==> (Hashed(a) == Hashed(b) <==> Digestible(b))
  {
    hide Tar.Parse, PayloadEntries, SortByPath, Encode, PairedSurrogates, Pow256;
    if Digestible(a) && PayloadOf(a) == PayloadOf(b) {
      HashedAreEncodable(a);
      HashedAreEncodable(b);
      PayloadIsUniquelyDecodable(Hashed(a), Hashed(b));
    }
  }

  lemma HashedAreEncodable(archive: Bytes)
    ensures Digestible(archive) <==> forall e :: e in Hashed(archive) ==> Encodable(e)
  {
    hide Tar.Parse, PayloadEntries, SortByPath, PairedSurrogates, Pow256;
    var files := PayloadEntries(Tar.Parse(archive));
    PayloadIsPaired(archive);
    SortKeepsEntries(files);
    assert forall e :: e in files <==> e in Hashed(archive);
  }

  // Two files of one payload: the first hides its NULs before a line end, the second spells them as a length.
  const NUL_PATH: Entry := Tar.Entry([0x61, 0, 0, 0, 0, 0, 0, 0, 0, 0x0A], [7])
  const PLAIN_PATH: Entry := Tar.Entry([0x61], [0, 0, 0, 0, 0, 0, 0, 0, 1, 7])

  lemma {:induction false} OneByteNumber(n: nat, k: nat)
    requires n < 256 && k > 0
    ensures BigEndian(n, k) == Tar.Zeros(k - 1) + [n]
  {
    if k > 1 {
      OneByteNumber(0, k - 1);
      assert Tar.Zeros(k - 1) == Tar.Zeros(k - 2) + [0];
    } else {
      assert BigEndian(n, 0) == [];
    }
  }

  lemma OneFileEncodes(e: Entry)
    requires Utf8.Ascii(e.path) && |e.bytes| < 256
    ensures Encode([e]) == e.path + [0] + Tar.Zeros(7) + [|e.bytes|] + e.bytes
  {
    hide BigEndian, Utf8.Encode;
    Utf8.AsciiIsItself(e.path);
    OneByteNumber(|e.bytes|, 8);
    assert [e][1..] == [] && Encode([]) == [];
  }

  lemma TwinsEncodeAlike()
    ensures Encode([NUL_PATH]) == Encode([PLAIN_PATH])
  {
    hide Encode;
    OneFileEncodes(NUL_PATH);
    OneFileEncodes(PLAIN_PATH);
    assert Tar.Zeros(7) == [0, 0, 0, 0, 0, 0, 0];
  }

  lemma OneFileIsHashed(e: Entry)
    requires TarRoundTrip.Good(e) && e.path != [] && e.path[0] == 0x61
    ensures Hashed(Tar.Archive([e])) == [e] && PayloadOf(Tar.Archive([e])) == Encode([e])
  {
    hide Tar.Parse, Tar.Archive, TarRoundTrip.Good, Encode;
    TarRoundTrip.TarRoundTrip([e]);
    assert NormalizePath(e.path) == e.path && e.path != MANIFEST;
    assert PayloadEntries([e]) == [e] + PayloadEntries([]);
    assert SortByPath([e]) == Placed(e, SortByPath([]));
  }

  /** The failing input: two archives the reader parses to different files and hashes alike. */
  lemma NulPathSharesAPayload()
    ensures var a, b := Tar.Archive([NUL_PATH]), Tar.Archive([PLAIN_PATH]);
      && Tar.Parse(a) == [NUL_PATH] && Tar.Parse(b) == [PLAIN_PATH] && NUL_PATH != PLAIN_PATH
      && PayloadOf(a) == PayloadOf(b) && Digestible(b) && !Digestible(a)
  {
    hide Tar.Parse, Tar.Archive, PayloadOf, Hashed, Encode, Encodable, Digestible, TarRoundTrip.Good;
    TwinsAreGood();
    TarRoundTrip.TarRoundTrip([NUL_PATH]);
    TarRoundTrip.TarRoundTrip([PLAIN_PATH]);
    OneFileIsHashed(NUL_PATH);
    OneFileIsHashed(PLAIN_PATH);
    TwinsEncodeAlike();
    TwinsDiffer();
    HashedAreEncodable(Tar.Archive([NUL_PATH]));
    HashedAreEncodable(Tar.Archive([PLAIN_PATH]));
  }

  lemma TwinsDiffer()
    ensures NUL_PATH != PLAIN_PATH && !Encodable(NUL_PATH) && Encodable(PLAIN_PATH)
  {
    hide PairedSurrogates;
    Utf8.AsciiIsPaired(PLAIN_PATH.path);
    assert NUL_PATH.path[1] == 0;
    assert Pow256(8) >= 256;
  }

  lemma TwinsAreGood()
    ensures TarRoundTrip.Good(NUL_PATH) && TarRoundTrip.Good(PLAIN_PATH)
  {
    hide PairedSurrogates, Utf8.Encode;
    Utf8.AsciiIsItself(NUL_PATH.path);
    Utf8.AsciiIsItself(PLAIN_PATH.path);
    Utf8.AsciiIsPaired(NUL_PATH.path);
    Utf8.AsciiIsPaired(PLAIN_PATH.path);
    assert Tar.LineEnd(NUL_PATH.path[9]);
  }

  // ---------------------------------------------------------------- the hashing loop

  /** The bytes fed to the hash, entry by entry. */
  method HashInput(entries: seq<Entry>) returns (hashed: Bytes)
    ensures hashed == Encode(entries)
  {
    hide Encode, BigEndian;
    assert entries[0..] == entries;
    hashed := [];
    for i := 0 to |entries|
      invariant hashed + Encode(entries[i..]) == Encode(entries)
    {
      EncodeSplits(entries, i);
      hashed := hashed + Utf8.Encode(entries[i].path) + [0] + BigEndian(|entries[i].bytes|, 8) + entries[i].bytes;
    }
    assert Encode(entries[|entries|..]) == [];
  }

  lemma EncodeSplits(entries: seq<Entry>, i: nat)
    requires i < |entries|
    ensures Encode(entries[i..]) == EncodeEntry(entries[i]) + Encode(entries[i + 1..])
  {
    assert entries[i..][1..] == entries[i + 1..];
  }
}
