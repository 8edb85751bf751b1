/** Reading back what was written: exactly which archives survive, and the loops of both directions. */
module TarRoundTrip {
  import opened Wrappers
  import opened JsonText
  import opened Tar
  import Utf8

  // ---------------------------------------------------------------- names

  /** Every NUL of the name is followed by the end of a line, so the reader does not take it for padding. */
  predicate NulsHidden(t: Text) {
    forall i :: 0 <= i < |t| && t[i] == 0 ==> exists j :: i < j < |t| && LineEnd(t[j])
  }

  /** Well-formed text that fits its field and hides its NULs. */
  predicate GoodName(name: Text) {
    PairedSurrogates(name) && |Utf8.Encode(name)| <= 100 && NulsHidden(name)
  }

  /** The padding as text. */
  function Nuls(n: nat): Text {
    Zeros(n)
  }

  lemma HiddenTail(t: Text)
    requires t != []
    ensures NulsHidden(t) <==> NulsHidden(t[1..]) && (t[0] == 0 ==> exists j :: 0 < j < |t| && LineEnd(t[j]))
  {
    var tail := t[1..];
    if NulsHidden(t) {
      forall i | 0 <= i < |tail| && tail[i] == 0 ensures exists j :: i < j < |tail| && LineEnd(tail[j]) {
        assert t[i + 1] == 0;
        var j :| i + 1 < j < |t| && LineEnd(t[j]);
        assert LineEnd(tail[j - 1]);
      }
    }
    if NulsHidden(tail) && (t[0] == 0 ==> exists j :: 0 < j < |t| && LineEnd(t[j])) {
      forall i | 0 <= i < |t| && t[i] == 0 ensures exists j :: i < j < |t| && LineEnd(t[j]) {
        if i > 0 {
          assert tail[i - 1] == 0;
          var j :| i - 1 < j < |tail| && LineEnd(tail[j]);
          assert LineEnd(t[j + 1]);
        }
      }
    }
  }

  lemma {:induction false} StripPadded(t: Text, n: nat)
    ensures NulsHidden(t) ==> StripNul(t + Nuls(n)) == t
    ensures !NulsHidden(t) ==> |StripNul(t + Nuls(n))| < |t|
  {
    hide NulsHidden;
    var padded := t + Nuls(n);
    if t == [] {
      NothingHidden();
      assert padded == Nuls(n);
    } else {
      assert padded[1..] == t[1..] + Nuls(n);
      HiddenTail(t);
      StripPadded(t[1..], n);
      if t[0] == 0 {
        PaddingHasNoLines(t, n);
      }
    }
  }

  lemma NothingHidden()
    ensures NulsHidden([])
  {}

  lemma PaddingHasNoLines(t: Text, n: nat)
    requires t != [] && !LineEnd(t[0])
    ensures (forall i :: 0 <= i < |t + Nuls(n)| ==> !LineEnd((t + Nuls(n))[i])) <==>
      !exists j :: 0 < j < |t| && LineEnd(t[j])
  {
    var padded := t + Nuls(n);
    forall i | 0 <= i < |padded| ensures padded[i] == if i < |t| then t[i] else 0 {}
    if exists j :: 0 < j < |t| && LineEnd(t[j]) {
      var j :| 0 < j < |t| && LineEnd(t[j]);
      assert LineEnd(padded[j]);
    }
  }

  lemma {:induction false} NulsDecode(n: nat)
    ensures Utf8.Decode(Zeros(n)) == Nuls(n)
  {
    if n > 0 {
      NulsDecode(n - 1);
      assert Zeros(n)[1..] == Zeros(n - 1) && Nuls(n) == [0] + Nuls(n - 1);
      assert Utf8.DecodeFirst(Zeros(n)) == Utf8.Character([0], 1);
    }
  }

  /** The name field is the written name and padding, and is read as the repaired name and as many NULs. */
  lemma NameFieldReads(name: Text, size: nat)
    ensures var kept := Utf8.FittingText(name, 100);
      Utf8.Decode(Header(name, size)[..100]) == Utf8.Repaired(kept) + Nuls(100 - |Utf8.Fitting(name, 100)|)
  {
    hide Header, Utf8.Decode, Utf8.Encode, Utf8.Fitting, Utf8.FittingText, Utf8.Repaired;
    var written := Utf8.Fitting(name, 100);
    HeaderFields(name, size);
    assert Header(name, size)[..100] == written + Zeros(100 - |written|);
    Utf8.FittingIsText(name, 100);
    Utf8.WrittenReads(Utf8.FittingText(name, 100), Zeros(100 - |written|));
    NulsDecode(100 - |written|);
  }

  /** A name is read back exactly when it is good; what is cut off or replaced never is. */
  lemma NameReads(name: Text, size: nat)
    ensures StripNul(Utf8.Decode(Header(name, size)[..100])) == name <==> GoodName(name)
  {
    hide Header, Utf8.Decode, Utf8.Encode, Utf8.Fitting, Utf8.FittingText, Utf8.Repaired, StripNul, NulsHidden;
    var kept := Utf8.FittingText(name, 100);
    NameFieldReads(name, size);
    Utf8.FittingIsText(name, 100);
    StripPadded(Utf8.Repaired(kept), 100 - |Utf8.Fitting(name, 100)|);
    Utf8.RepairsNothing(name);
    assert kept <= name && (|kept| == |name| ==> kept == name);
  }

  // ---------------------------------------------------------------- sizes

  lemma {:induction false} PrefixOfDigits(t: Bytes)
    requires Octals(t)
    ensures DigitPrefix(AsciiOf(t)) == t
  {
    if t != [] {
      assert OctalDigit(t[0]);
      PrefixOfDigits(t[1..]);
      assert AsciiOf(t)[1..] == AsciiOf(t[1..]);
    } else {
      assert AsciiOf(t) == [];
    }
  }

  lemma DigitsRead(t: Bytes, n: nat)
    requires Octals(t) && t != []
    ensures ReadSize(t + Zeros(n)) == Some(OctalValue(t))
  {
    var text := AsciiOf(t);
    forall i | 0 <= i < |t| ensures text[i] != 0 {
      assert OctalDigit(t[i]);
    }
    assert AsciiOf(t + Zeros(n)) == text + Nuls(n);
    StripPadded(text, n);
    PrefixOfDigits(t);
    assert OctalDigit(t[0]);
  }

  /** Twelve octal digits are kept, the twelfth in the place of the NUL; what is larger reads as less. */
  lemma SizeReads(size: nat)
    ensures var field := SizeField(size)[..12];
      && ReadSize(field).Some?
      && (size < SIZE_LIMIT ==> ReadSize(field).value == size)
      && (size >= SIZE_LIMIT ==> ReadSize(field).value < size)
  {
    var digits, field := Octal(size), SizeField(size)[..12];
    OctalReads(size);
    OctalLength(size);
    PadKeepsValue(digits, 11);
    assert Pow8(12) == SIZE_LIMIT;
    if |digits| <= 11 {
      assert field == PadStart(digits, 11) + Zeros(1);
      DigitsRead(PadStart(digits, 11), 1);
      Pow8Grows(|digits|, 12);
    } else {
      assert field == digits[..12] + Zeros(0);
      DigitsRead(digits[..12], 0);
      ValueBound(digits[..12]);
      if |digits| > 12 {
        Pow8Grows(12, |digits| - 1);
      } else {
        assert digits[..12] == digits;
      }
    }
  }

  lemma SizeFieldReads(name: Text, size: nat)
    ensures Header(name, size)[124..136] == SizeField(size)[..12]
  {
    HeaderFields(name, size);
    assert |SizeField(size)| >= 12;
  }

  // ---------------------------------------------------------------- archives

  predicate Good(e: Entry) {
    GoodName(e.path) && |e.bytes| < SIZE_LIMIT
  }

  lemma PaddingFills(size: nat)
    ensures Blocks(size) == size + Padding(size)
  {}

  /** How the reader sees one written entry in front of anything. */
  lemma EntryReads(e: Entry, tail: Bytes)
    ensures var parsed := Parse(Member(e) + tail);
      if Good(e) then parsed == [e] + Parse(tail) else parsed != [] && parsed[0] != e
  {
    hide Parse, ReadSize, SizeField, Header, StripNul, GoodName, Blocks, Padding, Utf8.Decode;
    var size := |e.bytes|;
    var h, rest := Header(e.path, size), e.bytes + Zeros(Padding(size)) + tail;
    var buf := Member(e) + tail;
    assert buf == h + rest;
    assert buf[..BLOCK] == h && buf[BLOCK..] == rest;
    HeaderFields(e.path, size);
    assert h != Zeros(BLOCK) by { assert h[100] != Zeros(BLOCK)[100]; }
    NameReads(e.path, size);
    SizeFieldReads(e.path, size);
    SizeReads(size);
    ParseUnfolds(buf);
    if size < SIZE_LIMIT {
      PaddingFills(size);
      assert Take(rest, size) == e.bytes;
      assert Drop(rest, Blocks(size)) == tail;
    }
  }

  lemma NothingReads()
    ensures Parse(Zeros(1024)) == []
  {
    assert Zeros(1024)[..BLOCK] == Zeros(BLOCK);
  }

  /**
   * Main: an archive of any named files reads back exactly when every name is well-formed text of at most 100
   * bytes that hides its NULs, and every size is below 8^12.
   */
  lemma {:induction false} TarRoundTrip(entries: seq<Entry>)
    ensures Parse(Archive(entries)) == entries <==> forall i :: 0 <= i < |entries| ==> Good(entries[i])
    decreases |entries|
  {
    hide Parse, Member, GoodName;
    if entries == [] {
      NothingReads();
    } else {
      var e, tail := entries[0], entries[1..];
      TarRoundTrip(tail);
      EntryReads(e, Archive(tail));
      assert entries == [e] + tail;
      assert (forall i :: 0 <= i < |entries| ==> Good(entries[i])) <==>
        Good(e) && forall i :: 0 <= i < |tail| ==> Good(tail[i]) by {
        forall i | 0 <= i < |tail| ensures tail[i] == entries[i + 1] {}
      }
      if Good(e) {
        assert ([e] + Parse(Archive(tail)))[1..] == Parse(Archive(tail));
      }
    }
  }

  /** ASCII names without NUL of at most 100 characters, contents below 8^12 bytes: always read back. */
  lemma PlainArchivesSurvive(entries: seq<Entry>)
    requires forall i :: 0 <= i < |entries| ==>
      |entries[i].path| <= 100 && Utf8.Ascii(entries[i].path) && 0 !in entries[i].path
        && |entries[i].bytes| < SIZE_LIMIT
    ensures Parse(Archive(entries)) == entries
  {
    hide Parse, Archive;
    forall i | 0 <= i < |entries| ensures Good(entries[i]) {
      Utf8.AsciiIsPaired(entries[i].path);
      Utf8.AsciiIsItself(entries[i].path);
    }
    TarRoundTrip(entries);
  }

  // ---------------------------------------------------------------- the loops

  method WriteAt(header: array<Byte>, offset: nat, width: nat, text: Bytes)
    requires offset + width <= header.Length
    modifies header
    ensures header[..] == Written(old(header[..]), offset, width, text)
  {
    var n := if |text| < width then |text| else width;
    for i := 0 to n
      invariant forall k :: 0 <= k < header.Length ==>
        header[k] == if offset <= k < offset + i then text[k - offset] else old(header[k])
    {
      header[offset + i] := text[i];
    }
  }

  method TarHeader(name: Text, size: nat) returns (header: array<Byte>)
    ensures fresh(header) && header[..] == Header(name, size)
  {
    header := new Byte[BLOCK](i => 0);
    assert header[..] == Zeros(BLOCK);
    WriteAt(header, 0, 100, Utf8.Fitting(name, 100));
    WriteAt(header, 100, 8, MODE);
    WriteAt(header, 108, 8, ID);
    WriteAt(header, 116, 8, ID);
    WriteAt(header, 124, 12, SizeField(size));
    WriteAt(header, 136, 12, MTIME);
    WriteAt(header, 148, 8, SPACES);
    WriteAt(header, 156, 1, [ZERO]);
    WriteAt(header, 257, 6, USTAR);
    WriteAt(header, 263, 2, VERSION);
    ghost var blank := header[..];
    assert blank == Blank(name, size);
    var sum: nat := 0;
    for i := 0 to header.Length
      invariant header[..] == blank && sum == Sum(header[..i])
    {
      assert header[..i + 1] == header[..i] + [header[i]];
      sum := sum + header[i];
    }
    assert header[..header.Length] == header[..];
    WriteAt(header, 148, 8, PadStart(Octal(sum), 6) + [0, 0x20]);
  }

  /** `Buffer.concat`. */
  function Concat(parts: seq<Bytes>): Bytes {
    if parts == [] then [] else parts[0] + Concat(parts[1..])
  }

  lemma {:induction false} ConcatAppend(parts: seq<Bytes>, part: Bytes)
    ensures Concat(parts + [part]) == Concat(parts) + part
  {
    if parts != [] {
      ConcatAppend(parts[1..], part);
      assert (parts + [part])[1..] == parts[1..] + [part];
    }
  }

  method PushEntry(before: seq<Bytes>, e: Entry) returns (parts: seq<Bytes>)
    ensures Concat(parts) == Concat(before) + Member(e)
  {
    hide Header, Padding;
    var header := TarHeader(e.path, |e.bytes|);
    ConcatAppend(before, header[..]);
    parts := before + [header[..]];
    ConcatAppend(parts, e.bytes);
    parts := parts + [e.bytes];
    var pad := Padding(|e.bytes|);
    if pad > 0 {
      ConcatAppend(parts, Zeros(pad));
      parts := parts + [Zeros(pad)];
    } else {
      assert Member(e) == Header(e.path, |e.bytes|) + e.bytes;
    }
    assert Concat(parts) == Concat(before) + Member(e);
  }

  method BuildTar(entries: seq<Entry>) returns (tar: Bytes)
    ensures tar == Archive(entries)
  {
    hide Member;
    var parts: seq<Bytes> := [];
    for i := 0 to |entries|
      invariant Concat(parts) + Archive(entries[i..]) == Archive(entries)
    {
      assert entries[i..][1..] == entries[i + 1..];
      parts := PushEntry(parts, entries[i]);
    }
    assert entries[|entries|..] == [];
    ConcatAppend(parts, Zeros(1024));
    parts := parts + [Zeros(1024)];
    tar := Concat(parts);
  }

  lemma ParseUnfolds(t: Bytes)
    requires |t| >= BLOCK
    ensures t[..BLOCK] == Zeros(BLOCK) ==> Parse(t) == []
    ensures t[..BLOCK] != Zeros(BLOCK) ==>
      var size := ReadSize(t[..BLOCK][124..136]);
      Parse(t) ==
        (if IsFile(t[..BLOCK][156]) then [Entry(StripNul(Utf8.Decode(t[..BLOCK][..100])), if size.Some?
          then Take(t[BLOCK..], size.value) else [])] else [])
        + (if size.Some? then Parse(Drop(t[BLOCK..], Blocks(size.value))) else [])
  {}

  lemma ParseNothing()
    ensures forall t: Bytes :: |t| < BLOCK ==> Parse(t) == []
  {}

  /** One pass of the reader's loop: what it pushes, and the next offset unless the loop ends. */
  method ReadEntry(buf: Bytes, at: nat) returns (found: seq<Entry>, next: Option<nat>)
    requires at + BLOCK <= |buf|
    ensures Parse(buf[at..]) == found + (if next.Some? then Parse(Drop(buf, next.value)) else [])
    ensures next.Some? ==> at < next.value
  {
    hide Parse, ReadSize, StripNul, IsFile;
    var header, rest := buf[at..at + BLOCK], buf[at + BLOCK..];
    ParseUnfolds(buf[at..]);
    assert buf[at..][..BLOCK] == header && buf[at..][BLOCK..] == rest;
    if header == Zeros(BLOCK) {
      return [], None;
    }
    var name := StripNul(Utf8.Decode(header[..100]));
    var size := ReadSize(header[124..136]);
    found := [];
    if IsFile(header[156]) {
      found := [Entry(name, if size.Some? then Take(rest, size.value) else [])];
    }
    if size.None? {
      return found, None;
    }
    var skipped := at + BLOCK + Blocks(size.value);
    assert Drop(rest, Blocks(size.value)) == Drop(buf, skipped);
    return found, Some(skipped);
  }

  method ParseTar(buf: Bytes) returns (entries: seq<Entry>)
    ensures entries == Parse(buf)
  {
    hide Parse;
    ParseNothing();
    entries := [];
    var offset := 0;
    assert Drop(buf, 0) == buf;
    while offset + BLOCK <= |buf|
      invariant 0 <= offset && entries + Parse(Drop(buf, offset)) == Parse(buf)
      decreases |buf| - offset
    {
      var found, next := ReadEntry(buf, offset);
      entries := entries + found;
      if next.None? {
        return;
      }
      offset := next.value;
    }
  }
}
