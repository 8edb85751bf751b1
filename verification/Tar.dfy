/**
 * The ustar writer and reader of cadp/kernel/policyBundle.ts ('ustar Interchange Format' of the pax
 * utility, IEEE Std 1003.1). Names are strings: written as UTF-8 into 100 bytes, read back as UTF-8.
 */
module Tar {
  import opened Wrappers
  import opened JsonText
  import Utf8

  type Byte = Utf8.Byte

  type Bytes = Utf8.Bytes

  datatype Entry = Entry(path: Text, bytes: Bytes)

  const BLOCK := 512
  const ZERO: Byte := 0x30
  /** 8^12: what twelve octal digits can hold. */
  const SIZE_LIMIT := 68_719_476_736

  function Zeros(n: nat): (z: Bytes)
    ensures |z| == n && forall i :: 0 <= i < n ==> z[i] == 0
  {
    seq(n, i => 0)
  }

  // ---------------------------------------------------------------- octal numbers

  predicate OctalDigit(b: Byte) {
    ZERO <= b < ZERO + 8
  }

  /** `toString(8)`. */
  function Octal(n: nat): (t: Bytes)
    ensures t != [] && Octals(t)
  {
    if n < 8 then [ZERO + n] else Octal(n / 8) + [ZERO + n % 8]
  }

  function PadStart(t: Bytes, width: nat): (r: Bytes)
    ensures |r| == if |t| < width then width else |t|
    ensures Octals(t) ==> Octals(r)
  {
    if |t| < width then seq(width - |t|, i => ZERO) + t else t
  }

  predicate Octals(t: Bytes) {
    forall i :: 0 <= i < |t| ==> OctalDigit(t[i])
  }

  function DigitValue(b: Byte): nat
    requires OctalDigit(b)
  {
    b - ZERO
  }

  /** The value of a digit text, the last digit counting one. */
  function OctalValue(t: Bytes): nat
    requires Octals(t)
  {
    if t == [] then 0
    else
      var last := |t| - 1;
      OctalValue(t[..last]) * 8 + DigitValue(t[last])
  }

  function Pow8(k: nat): (r: nat)
    ensures r >= 1
  {
    if k == 0 then 1 else 8 * Pow8(k - 1)
  }

  lemma {:induction false} OctalReads(n: nat)
    ensures OctalValue(Octal(n)) == n
  {
    if n >= 8 {
      OctalReads(n / 8);
      assert Octal(n)[..|Octal(n)| - 1] == Octal(n / 8);
    } else {
      assert Octal(n)[..0] == [];
    }
  }

  lemma {:induction false} OctalLength(n: nat)
    ensures Pow8(|Octal(n)|) > n && (|Octal(n)| > 1 ==> n >= Pow8(|Octal(n)| - 1))
  {
    if n >= 8 {
      OctalLength(n / 8);
    }
  }

  lemma {:induction false} ValueBound(t: Bytes)
    requires Octals(t)
    ensures OctalValue(t) < Pow8(|t|)
  {
    if t != [] {
      ValueBound(t[..|t| - 1]);
    }
  }

  lemma {:induction false} PadKeepsValue(t: Bytes, width: nat)
    requires Octals(t)
    ensures OctalValue(PadStart(t, width)) == OctalValue(t)
    decreases |t|
  {
    if |t| < width {
      if t == [] {
        ZerosHaveNoValue(width);
        assert PadStart(t, width) == seq(width, i => ZERO);
      } else {
        PadKeepsValue(t[..|t| - 1], width - 1);
        var r := PadStart(t, width);
        assert r[..|r| - 1] == PadStart(t[..|t| - 1], width - 1);
      }
    }
  }

  lemma {:induction false} ZerosHaveNoValue(width: nat)
    ensures OctalValue(seq(width, i => ZERO)) == 0
  {
    if width > 0 {
      ZerosHaveNoValue(width - 1);
      assert seq(width, i => ZERO)[..width - 1] == seq(width - 1, i => ZERO);
    }
  }

  lemma {:induction false} Pow8Grows(i: nat, j: nat)
    requires i <= j
    ensures Pow8(i) <= Pow8(j)
  {
    if i < j {
      Pow8Grows(i, j - 1);
    }
  }

  // ---------------------------------------------------------------- header

  /** `write(text, offset, width)`: what does not fit is cut off. */
  function Written(h: Bytes, offset: nat, width: nat, text: Bytes): (r: Bytes)
    requires offset + width <= |h|
    ensures |r| == |h|
    ensures forall i :: 0 <= i < |h| ==>
      r[i] == if offset <= i < offset + width && i - offset < |text| then text[i - offset] else h[i]
  {
    seq(|h|, i requires 0 <= i < |h| => if offset <= i < offset + width && i - offset < |text| then text[i - offset]
      else h[i])
  }

  const MODE: Bytes := [ZERO, ZERO, ZERO, ZERO, 0x36, 0x34, 0x34, 0]
  const ID: Bytes := [ZERO, ZERO, ZERO, ZERO, ZERO, ZERO, ZERO, 0]
  const MTIME: Bytes := [ZERO, ZERO, ZERO, ZERO, ZERO, ZERO, ZERO, ZERO, ZERO, ZERO, ZERO, 0]
  const SPACES: Bytes := [0x20, 0x20, 0x20, 0x20, 0x20, 0x20, 0x20, 0x20]
  const USTAR: Bytes := [0x75, 0x73, 0x74, 0x61, 0x72, 0]
  const VERSION: Bytes := [ZERO, ZERO]

  function SizeField(size: nat): Bytes {
    PadStart(Octal(size), 11) + [0]
  }

  function Sum(t: Bytes): (s: nat)
    ensures s <= 255 * |t|
  {
    if t == [] then 0 else Sum(t[..|t| - 1]) + t[|t| - 1]
  }

  /** The header with its checksum field still blank. */
  function Blank(name: Text, size: nat): (h: Bytes)
    ensures |h| == BLOCK
  {
    var named := Written(Zeros(BLOCK), 0, 100, Utf8.Fitting(name, 100));
    var owned := Written(Written(Written(named, 100, 8, MODE), 108, 8, ID), 116, 8, ID);
    var sized := Written(Written(owned, 124, 12, SizeField(size)), 136, 12, MTIME);
    var typed := Written(Written(sized, 148, 8, SPACES), 156, 1, [ZERO]);
    Written(Written(typed, 257, 6, USTAR), 263, 2, VERSION)
  }

  function Checksum(h: Bytes): Bytes {
    PadStart(Octal(Sum(h)), 6) + [0, 0x20]
  }

  function Header(name: Text, size: nat): (h: Bytes)
    ensures |h| == BLOCK
  {
    Written(Blank(name, size), 148, 8, Checksum(Blank(name, size)))
  }

  /** The fields a reader looks at. */
  lemma HeaderFields(name: Text, size: nat)
    ensures var h, written := Header(name, size), Utf8.Fitting(name, 100);
      && (forall i :: 0 <= i < 100 ==> h[i] == if i < |written| then written[i] else 0)
      && (forall i :: 0 <= i < 12 ==> h[124 + i] == SizeField(size)[i])
      && h[156] == ZERO && h[100] == ZERO
  {
    hide Utf8.Fitting, Octal, Sum;
  }

  /** The stored checksum is the sum of the header with its checksum field blank, in six octal digits. */
  lemma ChecksumIsStored(name: Text, size: nat)
    ensures Octals(Header(name, size)[148..154]) && OctalValue(Header(name, size)[148..154]) == Sum(Blank(name, size))
  {
    hide Blank;
    var blank := Blank(name, size);
    var digits := PadStart(Octal(Sum(blank)), 6);
    SixDigits(Sum(blank));
    PadKeepsValue(Octal(Sum(blank)), 6);
    OctalReads(Sum(blank));
    assert Header(name, size)[148..154] == digits;
  }

  lemma SixDigits(n: nat)
    requires n <= 255 * BLOCK
    ensures |Octal(n)| <= 6
  {
    assert Pow8(6) == 262144;
    OctalLength(n);
    if |Octal(n)| > 6 {
      Pow8Grows(6, |Octal(n)| - 1);
    }
  }

  // ---------------------------------------------------------------- writing

  function Padding(size: nat): nat {
    (BLOCK - size % BLOCK) % BLOCK
  }

  function Member(e: Entry): Bytes {
    Header(e.path, |e.bytes|) + e.bytes + Zeros(Padding(|e.bytes|))
  }

  function Archive(entries: seq<Entry>): Bytes {
    if entries == [] then Zeros(1024) else Member(entries[0]) + Archive(entries[1..])
  }

  // ---------------------------------------------------------------- reading

  /** What `.` does not match. */
  predicate LineEnd(u: Unit) {
    u == 10 || u == 13 || u == 0x2028 || u == 0x2029
  }

  /** `replace(/\0.*$/u, "")`: from the first NUL after which no line ends. */
  function StripNul(t: Text): (r: Text)
    ensures |r| <= |t|
  {
    if t == [] then []
    else if t[0] == 0 && (forall i :: 0 <= i < |t| ==> !LineEnd(t[i])) then []
    else [t[0]] + StripNul(t[1..])
  }

  /** `toString("ascii")` unsets the highest bit. */
  function AsciiOf(b: Bytes): (t: Text)
    ensures |t| == |b| && forall i :: 0 <= i < |b| ==> t[i] == b[i] % 128
  {
    seq(|b|, i requires 0 <= i < |b| => b[i] % 128)
  }

  predicate Space(u: Unit) {
    u == 0x20 || 9 <= u <= 13
  }

  function TrimStart(t: Text): Text {
    if t != [] && Space(t[0]) then TrimStart(t[1..]) else t
  }

  /** The octal digits `parseInt(_, 8)` takes from the front. */
  function DigitPrefix(t: Text): (r: Bytes)
    ensures Octals(r)
  {
    if t != [] && ZERO <= t[0] < ZERO + 8 then [t[0]] + DigitPrefix(t[1..]) else []
  }

  const PLUS: Unit := 0x2B
  const MINUS: Unit := 0x2D

  /** The size field; `None` stands for NaN. */
  function ReadSize(field: Bytes): Option<int> {
    var t := TrimStart(StripNul(AsciiOf(field)));
    var signed := t != [] && (t[0] == PLUS || t[0] == MINUS);
    var digits := DigitPrefix(if signed then t[1..] else t);
    var value: int := OctalValue(digits);
    if digits == [] then None else Some(if signed && t[0] == MINUS then -value else value)
  }

  function Drop(t: Bytes, n: nat): (r: Bytes)
    ensures |r| <= |t| && (n > 0 && t != [] ==> |r| < |t|)
  {
    if n <= |t| then t[n..] else []
  }

  /** `subarray(offset, offset + n)`: nothing when the end comes before the start. */
  function Take(t: Bytes, n: int): Bytes {
    if n < 0 then [] else if n <= |t| then t[..n] else t
  }

  /** How far the reader moves on; a size from -511 to 0 moves it nowhere. */
  function Blocks(size: int): nat {
    if size <= 0 then 0 else (size + BLOCK - 1) / BLOCK * BLOCK
  }

  predicate IsFile(flag: Byte) {
    flag == ZERO || flag == 0
  }

  function Parse(buf: Bytes): seq<Entry>
    decreases |buf|
  {
    if |buf| < BLOCK || buf[..BLOCK] == Zeros(BLOCK) then []
    else
      var header, rest := buf[..BLOCK], buf[BLOCK..];
      var size := ReadSize(header[124..136]);
      var name := StripNul(Utf8.Decode(header[..100]));
      (if IsFile(header[156]) then [Entry(name, if size.Some? then Take(rest, size.value) else [])] else [])
      + if size.Some? then Parse(Drop(rest, Blocks(size.value))) else []
  }
}
