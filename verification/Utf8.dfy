/**
 * UTF-8 as Buffer writes and reads it: a surrogate without its partner is written as U+FFFD, and each maximal
 * part of an ill-formed sequence is read as one U+FFFD (section 4.1 of the WHATWG Encoding Standard).
 */
module Utf8 {
  import opened JsonText

  type Byte = b: int | 0 <= b < 256

  type Bytes = seq<Byte>

  const REPLACEMENT: Unit := 0xFFFD

  // ---------------------------------------------------------------- writing

  /** The units of the first character. */
  function First(t: Text): (n: nat)
    requires t != []
    ensures 1 <= n <= |t|
  {
    if Pair(t) then 2 else 1
  }

  function EncodeUnit(u: Unit): (r: Bytes)
    ensures 1 <= |r| <= 3
  {
    if u < 0x80 then [u]
    else if u < 0x800 then [0xC0 + u / 64, 0x80 + u % 64]
    else [0xE0 + u / 4096, 0x80 + u / 64 % 64, 0x80 + u % 64]
  }

  function EncodePair(high: Unit, low: Unit): (r: Bytes)
    requires High(high) && Low(low)
    ensures |r| == 4
  {
    var h, l := high - 0xD800 + 64, low - 0xDC00;
    [0xF0 + h / 256, 0x80 + h / 4 % 64, 0x80 + h % 4 * 16 + l / 64, 0x80 + l % 64]
  }

  function EncodeFirst(t: Text): (r: Bytes)
    requires t != []
    ensures r != []
  {
    if Pair(t) then EncodePair(t[0], t[1])
    else if High(t[0]) || Low(t[0]) then EncodeUnit(REPLACEMENT)
    else EncodeUnit(t[0])
  }

  function Encode(t: Text): Bytes {
    if t == [] then [] else EncodeFirst(t) + Encode(t[First(t)..])
  }

  /** `write(text, offset, width, "utf8")`: whole characters only, up to the first that does not fit. */
  function Fitting(t: Text, width: nat): (r: Bytes)
    ensures |r| <= width
  {
    if t == [] || |EncodeFirst(t)| > width then []
    else EncodeFirst(t) + Fitting(t[First(t)..], width - |EncodeFirst(t)|)
  }

  /** The characters it keeps. */
  function FittingText(t: Text, width: nat): (r: Text)
    ensures r <= t
  {
    if t == [] || |EncodeFirst(t)| > width then []
    else t[..First(t)] + FittingText(t[First(t)..], width - |EncodeFirst(t)|)
  }

  // ---------------------------------------------------------------- reading

  predicate Continues(b: Byte) {
    0x80 <= b < 0xC0
  }

  /** The length a first byte announces; 0 for one that starts nothing. */
  function Announced(b: Byte): nat {
    if b < 0x80 then 1 else if 0xC2 <= b < 0xE0 then 2 else if 0xE0 <= b < 0xF0 then 3 else if 0xF0 <= b < 0xF5
      then 4 else 0
  }

  /** The second byte is narrowed after E0, ED, F0 and F4. */
  predicate SecondFits(b: Byte, c: Byte) {
    && Continues(c)
    && (b == 0xE0 ==> c >= 0xA0) && (b == 0xED ==> c < 0xA0) && (b == 0xF0 ==> c >= 0x90) && (b == 0xF4 ==> c < 0x90)
  }

  function Bits(b: Byte, marker: int): int {
    b as int - marker
  }

  datatype Character = Character(units: Text, used: nat)

  function DecodeFirst(b: Bytes): (c: Character)
    requires b != []
    ensures 1 <= c.used <= |b| && c.units != []
  {
    var n := Announced(b[0]);
    if n == 0 then Character([REPLACEMENT], 1)
    else if n == 1 then Character([b[0]], 1)
    else if |b| < 2 || !SecondFits(b[0], b[1]) then Character([REPLACEMENT], 1)
    else if n == 2 then Character([Bits(b[0], 0xC0) * 64 + Bits(b[1], 0x80)], 2)
    else if |b| < 3 || !Continues(b[2]) then Character([REPLACEMENT], 2)
    else if n == 3 then Character([Bits(b[0], 0xE0) * 4096 + Bits(b[1], 0x80) * 64 + Bits(b[2], 0x80)], 3)
    else if |b| < 4 || !Continues(b[3]) then Character([REPLACEMENT], 3)
    else
      var h := Bits(b[0], 0xF0) * 256 + Bits(b[1], 0x80) * 4 + Bits(b[2], 0x80) / 16;
      Character([0xD800 + h - 64, 0xDC00 + Bits(b[2], 0x80) % 16 * 64 + Bits(b[3], 0x80)], 4)
  }

  function Decode(b: Bytes): Text {
    if b == [] then [] else DecodeFirst(b).units + Decode(b[DecodeFirst(b).used..])
  }

  // ---------------------------------------------------------------- the round trip

  function RepairedFirst(t: Text): (r: Text)
    requires t != []
    ensures |r| == First(t)
  {
    if Pair(t) then [t[0], t[1]] else [if High(t[0]) || Low(t[0]) then REPLACEMENT else t[0]]
  }

  /** What a written text is read back as. */
  function Repaired(t: Text): (r: Text)
    ensures |r| == |t|
  {
    if t == [] then [] else RepairedFirst(t) + Repaired(t[First(t)..])
  }

  lemma UnitReads(u: Unit, rest: Bytes)
    requires !High(u) && !Low(u)
    ensures DecodeFirst(EncodeUnit(u) + rest) == Character([u], |EncodeUnit(u)|)
  {
    var b := EncodeUnit(u) + rest;
    assert forall i :: 0 <= i < |EncodeUnit(u)| ==> b[i] == EncodeUnit(u)[i];
  }

  lemma PairReads(high: Unit, low: Unit, rest: Bytes)
    requires High(high) && Low(low)
    ensures DecodeFirst(EncodePair(high, low) + rest) == Character([high, low], 4)
  {
    var b, e := EncodePair(high, low) + rest, EncodePair(high, low);
    assert b[0] == e[0] && b[1] == e[1] && b[2] == e[2] && b[3] == e[3];
    var h, l := high - 0xD800 + 64, low - 0xDC00;
    assert h == h / 256 * 256 + h / 4 % 64 * 4 + h % 4;
    assert l == l / 64 * 64 + l % 64;
  }

  lemma FirstReads(t: Text, rest: Bytes)
    requires t != []
    ensures DecodeFirst(EncodeFirst(t) + rest) == Character(RepairedFirst(t), |EncodeFirst(t)|)
  {
    hide EncodeUnit, EncodePair, DecodeFirst;
    if Pair(t) {
      PairReads(t[0], t[1], rest);
    } else {
      UnitReads(if High(t[0]) || Low(t[0]) then REPLACEMENT else t[0], rest);
    }
  }

  lemma {:induction false} WrittenReads(t: Text, rest: Bytes)
    ensures Decode(Encode(t) + rest) == Repaired(t) + Decode(rest)
    decreases |t|
  {
    hide EncodeFirst, DecodeFirst, RepairedFirst, First;
    if t == [] {
      assert Encode(t) + rest == rest;
    } else {
      var more := Encode(t[First(t)..]) + rest;
      assert Encode(t) + rest == EncodeFirst(t) + more;
      FirstReads(t, more);
      assert (EncodeFirst(t) + more)[|EncodeFirst(t)|..] == more;
      WrittenReads(t[First(t)..], rest);
    }
  }

  lemma {:induction false} RepairsNothing(t: Text)
    ensures Repaired(t) == t <==> PairedSurrogates(t)
    decreases |t|
  {
    if t != [] {
      var n := First(t);
      RepairsNothing(t[n..]);
      assert t == t[..n] + t[n..];
      assert Repaired(t)[n..] == Repaired(t[n..]);
      assert Repaired(t)[0] == if !Pair(t) && (High(t[0]) || Low(t[0])) then REPLACEMENT else t[0];
    }
  }

  /** Main: text is read back as written exactly when no surrogate stands alone. */
  lemma Utf8RoundTrip(t: Text)
    ensures Decode(Encode(t)) == t <==> PairedSurrogates(t)
  {
    WrittenReads(t, []);
    RepairsNothing(t);
    assert Encode(t) + [] == Encode(t);
  }

  /** So distinct texts without lone surrogates are written differently. */
  lemma EncodeIsExact(a: Text, b: Text)
    requires PairedSurrogates(a) && PairedSurrogates(b) && Encode(a) == Encode(b)
    ensures a == b
  {
    Utf8RoundTrip(a);
    Utf8RoundTrip(b);
  }

  lemma FirstIsPaired(b: Bytes, rest: Text)
    requires b != []
    ensures PairedSurrogates(DecodeFirst(b).units + rest) <==> PairedSurrogates(rest)
  {
    var units := DecodeFirst(b).units;
    var t := units + rest;
    if |units| == 1 {
      assert t[0] == units[0] && t[1..] == rest;
      assert !High(units[0]) && !Low(units[0]);
    } else {
      assert t[0] == units[0] && t[1] == units[1] && t[2..] == rest;
    }
  }

  /** What is read never has a lone surrogate, whatever the bytes. */
  lemma {:induction false} ReadIsPaired(b: Bytes)
    ensures PairedSurrogates(Decode(b))
    decreases |b|
  {
    hide DecodeFirst;
    if b != [] {
      ReadIsPaired(b[DecodeFirst(b).used..]);
      FirstIsPaired(b, Decode(b[DecodeFirst(b).used..]));
    }
  }

  // ---------------------------------------------------------------- a field of fixed width

  lemma {:induction false} FittingIsText(t: Text, width: nat)
    ensures Fitting(t, width) == Encode(FittingText(t, width))
    ensures FittingText(t, width) == t <==> |Encode(t)| <= width
    decreases |t|
  {
    hide EncodeFirst;
    if t != [] && |EncodeFirst(t)| <= width {
      var n := First(t);
      var rest := width - |EncodeFirst(t)|;
      FittingIsText(t[n..], rest);
      var kept := FittingText(t[n..], rest);
      KeptStartsAlike(t, kept);
      assert t == t[..n] + t[n..];
      assert (t[..n] + kept)[n..] == kept;
    }
  }

  lemma KeptStartsAlike(t: Text, kept: Text)
    requires t != [] && kept <= t[First(t)..]
    ensures var r := t[..First(t)] + kept; First(r) == First(t) && EncodeFirst(r) == EncodeFirst(t)
  {
    var r := t[..First(t)] + kept;
    assert r[0] == t[0];
    if !Pair(t) && kept != [] {
      assert r[1] == kept[0] && kept[0] == t[1..][0];
    }
  }

  // ---------------------------------------------------------------- ASCII

  predicate Ascii(t: Text) {
    forall i :: 0 <= i < |t| ==> t[i] < 128
  }

  lemma {:induction false} AsciiIsPaired(t: Text)
    requires Ascii(t)
    ensures PairedSurrogates(t)
  {
    if t != [] {
      assert t[0] < 128;
      AsciiIsPaired(t[1..]);
    }
  }

  lemma {:induction false} AsciiIsItself(t: Text)
    requires Ascii(t)
    ensures Encode(t) == t
  {
    if t != [] {
      assert t[0] < 128;
      AsciiIsItself(t[1..]);
      assert t == [t[0]] + t[1..];
    }
  }
}
