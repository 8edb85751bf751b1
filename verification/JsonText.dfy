/**
 * JSON strings over UTF-16 code units, as JSON.stringify writes them (section 3.2.2.2 of RFC 8785; a
 * surrogate without its partner is escaped) and JSON.parse reads them back.
 */
module JsonText {
  import opened Wrappers

  type Unit = u: int | 0 <= u < 0x1_0000

  type Text = seq<Unit>

  const QUOTE: Unit := 0x22
  const BACKSLASH: Unit := 0x5C

  predicate High(u: Unit) {
    0xD800 <= u < 0xDC00
  }

  predicate Low(u: Unit) {
    0xDC00 <= u < 0xE000
  }

  predicate Pair(s: Text) {
    |s| >= 2 && High(s[0]) && Low(s[1])
  }

  /** Every surrogate stands in a pair. */
  predicate PairedSurrogates(s: Text) {
    if s == [] then true
    else if Pair(s) then PairedSurrogates(s[2..])
    else !High(s[0]) && !Low(s[0]) && PairedSurrogates(s[1..])
  }

  function HexDigit(d: int): Unit
    requires 0 <= d < 16
  {
    if d < 10 then 0x30 + d else 0x61 + (d - 10)
  }

  function HexValue(u: Unit): (r: Option<int>)
    ensures r.Some? ==> 0 <= r.value < 16
  {
    if 0x30 <= u <= 0x39 then Some(u - 0x30)
    else if 0x61 <= u <= 0x66 then Some(u - 0x61 + 10)
    else if 0x41 <= u <= 0x46 then Some(u - 0x41 + 10)
    else None
  }

  function UnicodeEscape(u: Unit): Text {
    [BACKSLASH, 0x75, HexDigit(u / 0x1000), HexDigit(u / 0x100 % 16), HexDigit(u / 16 % 16), HexDigit(u % 16)]
  }

  /** The letter of a two-unit escape, if the unit has one. */
  function ShortEscape(u: Unit): Option<Unit> {
    if u == QUOTE then Some(QUOTE)
    else if u == BACKSLASH then Some(BACKSLASH)
    else if u == 8 then Some(0x62)
    else if u == 9 then Some(0x74)
    else if u == 10 then Some(0x6E)
    else if u == 12 then Some(0x66)
    else if u == 13 then Some(0x72)
    else None
  }

  function UnshortEscape(letter: Unit): Option<Unit> {
    if letter == QUOTE || letter == BACKSLASH || letter == 0x2F then Some(letter)
    else if letter == 0x62 then Some(8)
    else if letter == 0x74 then Some(9)
    else if letter == 0x6E then Some(10)
    else if letter == 0x66 then Some(12)
    else if letter == 0x72 then Some(13)
    else None
  }

  /** How one unit that is not half of a surrogate pair is written. */
  function EscapeUnit(u: Unit): Text {
    if ShortEscape(u).Some? then [BACKSLASH, ShortEscape(u).value]
    else if u < 0x20 || High(u) || Low(u) then UnicodeEscape(u)
    else [u]
  }

  function Escape(s: Text): Text {
    if s == [] then []
    else if Pair(s) then s[..2] + Escape(s[2..])
    else EscapeUnit(s[0]) + Escape(s[1..])
  }

  function PrintString(s: Text): Text {
    [QUOTE] + Escape(s) + [QUOTE]
  }

  // ---------------------------------------------------------------- reading

  datatype Read<+T> = Read(value: T, rest: Text)

  function FromHex(a: Unit, b: Unit, c: Unit, d: Unit): Option<Unit> {
    if HexValue(a).None? || HexValue(b).None? || HexValue(c).None? || HexValue(d).None? then None
    else Some(((HexValue(a).value * 16 + HexValue(b).value) * 16 + HexValue(c).value) * 16 + HexValue(d).value)
  }

  /** One unit of a string body: raw, or a complete escape. */
  function ReadUnit(t: Text): (r: Option<Read<Unit>>)
    ensures r.Some? ==> |r.value.rest| < |t|
  {
    if t == [] || t[0] == QUOTE || t[0] < 0x20 then None
    else if t[0] != BACKSLASH then Some(Read(t[0], t[1..]))
    else if |t| < 2 then None
    else if UnshortEscape(t[1]).Some? then Some(Read(UnshortEscape(t[1]).value, t[2..]))
    else if t[1] != 0x75 || |t| < 6 then None
    else
      var u := FromHex(t[2], t[3], t[4], t[5]);
      if u.None? then None else Some(Read(u.value, t[6..]))
  }

  /** A string body up to and including its closing quote. */
  function ReadBody(t: Text): (r: Option<Read<Text>>)
    ensures r.Some? ==> |r.value.rest| < |t|
    decreases |t|
  {
    if t == [] then None
    else if t[0] == QUOTE then Some(Read([], t[1..]))
    else
      var first := ReadUnit(t);
      if first.None? then None
      else
        var tail := ReadBody(first.value.rest);
        if tail.None? then None else Some(Read([first.value.value] + tail.value.value, tail.value.rest))
  }

  lemma Nibbles(u: Unit)
    ensures u / 0x1000 < 16 && u / 0x100 == u / 0x1000 * 16 + u / 0x100 % 16
    ensures u / 16 == u / 0x100 * 16 + u / 16 % 16 && u == u / 16 * 16 + u % 16
  {}

  lemma HexDigitReads(d: int)
    requires 0 <= d < 16
    ensures HexValue(HexDigit(d)) == Some(d)
  {}

  lemma HexRoundTrip(u: Unit)
    ensures var e := UnicodeEscape(u); FromHex(e[2], e[3], e[4], e[5]) == Some(u)
  {
    hide HexValue, HexDigit;
    Nibbles(u);
    HexDigitReads(u / 0x1000);
    HexDigitReads(u / 0x100 % 16);
    HexDigitReads(u / 16 % 16);
    HexDigitReads(u % 16);
  }

  lemma EscapedUnitReads(u: Unit, rest: Text)
    ensures ReadUnit(EscapeUnit(u) + rest) == Some(Read(u, rest))
  {
    var t := EscapeUnit(u) + rest;
    if ShortEscape(u).Some? {
      assert t[..2] == [BACKSLASH, ShortEscape(u).value] && t[2..] == rest;
    } else if u < 0x20 || High(u) || Low(u) {
      HexRoundTrip(u);
      assert t[..6] == UnicodeEscape(u) && t[6..] == rest;
      assert forall i :: 0 <= i < 6 ==> t[i] == UnicodeEscape(u)[i];
    } else {
      assert t[1..] == rest;
    }
  }

  /** A unit read in front of a body that reads. */
  lemma BodyExtends(t: Text, u: Unit, tail: Text, s: Text, rest: Text)
    requires ReadUnit(t) == Some(Read(u, tail)) && t != [] && t[0] != QUOTE
    requires ReadBody(tail) == Some(Read(s, rest))
    ensures ReadBody(t) == Some(Read([u] + s, rest))
  {}

  lemma RawReads(u: Unit, tail: Text)
    requires u != QUOTE && u != BACKSLASH && 0x20 <= u
    ensures ReadUnit([u] + tail) == Some(Read(u, tail))
  {
    assert ([u] + tail)[1..] == tail;
  }

  /** Every string, lone surrogates included, is read back from what it was written as. */
  lemma {:induction false} StringRoundTrip(s: Text, rest: Text)
    ensures ReadBody(Escape(s) + [QUOTE] + rest) == Some(Read(s, rest))
    decreases |s|
  {
    hide ReadUnit, EscapeUnit;
    var t := Escape(s) + [QUOTE] + rest;
    if s == [] {
      assert t[1..] == rest;
    } else if Pair(s) {
      StringRoundTrip(s[2..], rest);
      var tail := Escape(s[2..]) + [QUOTE] + rest;
      RawReads(s[1], tail);
      RawReads(s[0], [s[1]] + tail);
      BodyExtends([s[1]] + tail, s[1], tail, s[2..], rest);
      BodyExtends([s[0]] + ([s[1]] + tail), s[0], [s[1]] + tail, [s[1]] + s[2..], rest);
      assert t == [s[0]] + ([s[1]] + tail) && s == [s[0]] + ([s[1]] + s[2..]);
    } else {
      StringRoundTrip(s[1..], rest);
      var tail := Escape(s[1..]) + [QUOTE] + rest;
      EscapedUnitReads(s[0], tail);
      EscapedUnitStarts(s[0]);
      BodyExtends(EscapeUnit(s[0]) + tail, s[0], tail, s[1..], rest);
      assert t == EscapeUnit(s[0]) + tail && s == [s[0]] + s[1..];
    }
  }

  lemma EscapedUnitStarts(u: Unit)
    ensures EscapeUnit(u) != [] && EscapeUnit(u)[0] != QUOTE
  {}

  // ---------------------------------------------------------------- order

  /** `compareUtf16`: lexicographic by code unit (section 3.2.3 of RFC 8785). */
  predicate Less(a: Text, b: Text) {
    if a == [] then b != []
    else b != [] && (a[0] < b[0] || (a[0] == b[0] && Less(a[1..], b[1..])))
  }

  lemma {:induction false} LessIsTotal(a: Text, b: Text)
    ensures Less(a, b) || a == b || Less(b, a)
    ensures !(Less(a, b) && Less(b, a)) && !(Less(a, b) && a == b)
  {
    if a != [] && b != [] && a[0] == b[0] {
      LessIsTotal(a[1..], b[1..]);
      assert a == [a[0]] + a[1..] && b == [b[0]] + b[1..];
    }
    if a == b && a != [] {
      LessIsTotal(a[1..], b[1..]);
    }
  }

  lemma {:induction false} LessIsTransitive(a: Text, b: Text, c: Text)
    requires Less(a, b) && Less(b, c)
    ensures Less(a, c)
  {
    if a != [] && a[0] == b[0] == c[0] {
      LessIsTransitive(a[1..], b[1..], c[1..]);
    }
  }
}
