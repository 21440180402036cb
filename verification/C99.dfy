/** The C99 converter of libiconv (Resources/libiconv-1.11/lib/c99.h): ASCII with the universal character
    names of section 6.4.3 of ISO/IEC 9899:1999. */
module C99 {
  type byte = bv8
  type ucs4 = bv32

  const BACKSLASH: byte := 0x5c

  /** Result of decoding: a character and the number of bytes used, or the two error returns. */
  datatype Decoded = Char(wc: ucs4, used: nat) | IllegalSequence | TooFew

  // ---------- digits ----------

  /** Any ASCII letter is taken for a digit, not only A to F. */
  predicate IsDigit(c: byte) {
    0x30 <= c <= 0x39 || 0x41 <= c <= 0x5a || 0x61 <= c <= 0x7a
  }

  function DigitValue(c: byte): byte {
    if 0x30 <= c <= 0x39 then c - 0x30
    else if 0x41 <= c <= 0x5a then c - (0x41 - 10)
    else c - (0x61 - 10)
  }

  /** The digit written for the low four bits of `i`. */
  function HexDigit(i: ucs4): byte {
    var d := (i & 0xf) as byte;
    if d < 10 then 0x30 + d else 0x61 - 10 + d
  }

  lemma HexDigitIsRead(i: ucs4)
    ensures IsDigit(HexDigit(i)) && DigitValue(HexDigit(i)) as ucs4 == i & 0xf
  {
  }

  /** One more digit.  The source puts digit after digit at its place with `wc |= c << (4 * places)`;
      shifting what is there and putting the digit in at the end gives the same number. */
  function Push(wc: ucs4, d: byte): ucs4 {
    (wc << 4) | d as ucs4
  }

  // ---------- decoding ----------

  predicate Nameable(wc: ucs4) {
    (wc >= 0xa0 && !(0xd800 <= wc < 0xe000)) || wc == 0x24 || wc == 0x40 || wc == 0x60
  }

  /** The digit loop, at position `i` of an escape that ends before position `end`. */
  function Digits(s: seq<byte>, i: nat, end: nat, wc: ucs4): Decoded
    requires i <= end
    decreases end - i
  {
    if i == end then if Nameable(wc) then Char(wc, end) else IllegalSequence
    else if |s| <= i then TooFew
    else if !IsDigit(s[i]) then Char(BACKSLASH as ucs4, 1)
    else Digits(s, i + 1, end, Push(wc, DigitValue(s[i])))
  }

  /** `c99_mbtowc` on the available bytes */
  function Decode(s: seq<byte>): Decoded
    requires s != []
  {
    if s[0] >= 0xa0 then IllegalSequence
    else if s[0] != BACKSLASH then Char(s[0] as ucs4, 1)
    else if |s| < 2 then TooFew
    else if s[1] == 0x75 then Digits(s, 2, 6, 0)
    else if s[1] == 0x55 then Digits(s, 2, 10, 0)
    else Char(BACKSLASH as ucs4, 1)
  }

  // ---------- encoding ----------

  /** `wc >> (4 * count)`, four places at a time */
  function ShiftedDown(wc: ucs4, count: nat): ucs4 {
    if count == 0 then wc else ShiftedDown(wc, count - 1) >> 4
  }

  /** The last `n` hexadecimal digits */
  function Hex(wc: ucs4, n: nat): (s: seq<byte>)
    requires n <= 8
    ensures |s| == n
  {
    if n == 0 then [] else [HexDigit(ShiftedDown(wc, n - 1))] + Hex(wc, n - 1)
  }

  /** `c99_wctomb` with enough room */
  function Encode(wc: ucs4): (s: seq<byte>)
    ensures |s| == if wc < 0xa0 then 1 else if wc < 0x10000 then 6 else 10
  {
    if wc < 0xa0 then [wc as byte]
    else if wc < 0x10000 then [BACKSLASH, 0x75] + Hex(wc, 4)
    else [BACKSLASH, 0x55] + Hex(wc, 8)
  }

  // ---------- written escapes are read back ----------

  lemma PushHexDigit(acc: ucs4, i: ucs4)
    requires acc == i >> 4
    ensures IsDigit(HexDigit(i)) && Push(acc, DigitValue(HexDigit(i))) == i
  {
    HexDigitIsRead(i);
  }

  lemma ShiftStep(wc: ucs4, n: nat)
    ensures ShiftedDown(wc, 0) == wc
    ensures ShiftedDown(wc, n + 1) == ShiftedDown(wc, n) >> 4
  {
  }

  lemma DigitIsReadBack(wc: ucs4, n: nat)
    ensures var c := HexDigit(ShiftedDown(wc, n));
            IsDigit(c) && Push(ShiftedDown(wc, n + 1), DigitValue(c)) == ShiftedDown(wc, n)
  {
    ShiftStep(wc, n);
    hide ShiftedDown;
    PushHexDigit(ShiftedDown(wc, n + 1), ShiftedDown(wc, n));
  }

  lemma AllShiftedOut(wc: ucs4)
    ensures ShiftedDown(wc, 8) == 0
    ensures wc < 0x10000 ==> ShiftedDown(wc, 4) == 0
  {
    hide ShiftedDown;
    ShiftStep(wc, 0);
    ShiftStep(wc, 1);
    ShiftStep(wc, 2);
    ShiftStep(wc, 3);
    ShiftStep(wc, 4);
    ShiftStep(wc, 5);
    ShiftStep(wc, 6);
    ShiftStep(wc, 7);
  }

  lemma {:induction false} HexIsReadBack(s: seq<byte>, i: nat, end: nat, wc: ucs4)
    requires i <= end <= |s| && end - i <= 8 && s[i..end] == Hex(wc, end - i)
    ensures Digits(s, i, end, ShiftedDown(wc, end - i)) == if Nameable(wc) then Char(wc, end) else IllegalSequence
    decreases end - i
  {
    hide IsDigit, HexDigit, DigitValue, Push, Nameable, ShiftedDown;
    if i == end {
      ShiftStep(wc, 0);
    } else {
      assert s[i] == s[i..end][0] && s[i + 1..end] == s[i..end][1..];
      DigitIsReadBack(wc, end - i - 1);
      HexIsReadBack(s, i + 1, end, wc);
    }
  }

  /** A written escape is read back as the character it stands for, unless that is a surrogate, whatever
      follows it. */
  lemma NameIsReadBack(wc: ucs4, rest: seq<byte>)
    requires 0xa0 <= wc
    ensures Decode(Encode(wc) + rest) == if Nameable(wc) then Char(wc, |Encode(wc)|) else IllegalSequence
  {
    var s := Encode(wc) + rest;
    var end := |Encode(wc)|;
    assert s[2..end] == Hex(wc, end - 2);
    HexIsReadBack(s, 2, end, wc);
    AllShiftedOut(wc);
    hide Hex, HexDigit, Digits, ShiftedDown;
  }

  // ---------- what digits mean ----------

  /** `c` is the hexadecimal digit `d`, "0" to "9", "A" to "F" or "a" to "f". */
  predicate Spells(c: byte, d: ucs4) {
    || (d == 0 && c == 0x30) || (d == 1 && c == 0x31) || (d == 2 && c == 0x32) || (d == 3 && c == 0x33)
    || (d == 4 && c == 0x34) || (d == 5 && c == 0x35) || (d == 6 && c == 0x36) || (d == 7 && c == 0x37)
    || (d == 8 && c == 0x38) || (d == 9 && c == 0x39) || (d == 10 && (c == 0x41 || c == 0x61)) || (d == 11 && (c == 0x42 || c == 0x62))
    || (d == 12 && (c == 0x43 || c == 0x63)) || (d == 13 && (c == 0x44 || c == 0x64)) || (d == 14 && (c == 0x45 || c == 0x65)) || (d == 15 && (c == 0x46 || c == 0x66))
  }

  /** Digits are the figures and letters; the letters go on from "A" and "a", which is 10, one by one. */
  lemma LettersGoOn(c: byte)
    ensures IsDigit(c) <==> 0x30 <= c <= 0x39 || 0x41 <= c <= 0x5a || 0x61 <= c <= 0x7a
    ensures 0x41 <= c < 0x5a || 0x61 <= c < 0x7a ==> DigitValue(c + 1) == DigitValue(c) + 1
    ensures DigitValue(0x41) == 10 && DigitValue(0x61) == 10
  {
  }

  /** One more hexadecimal digit */
  function Times16(n: ucs4, x: ucs4): ucs4 {
    16 * n + x
  }

  /** The number with these hexadecimal digits */
  function Number(d: seq<ucs4>): ucs4 {
    if d == [] then 0 else Times16(Number(d[..|d| - 1]), d[|d| - 1])
  }

  lemma OneMoreDigit(d: seq<ucs4>, x: ucs4)
    ensures Number(d + [x]) == Times16(Number(d), x)
  {
    hide Times16;
    assert (d + [x])[..|d|] == d;
  }

  lemma PushIs(wc: ucs4, c: byte, x: ucs4)
    requires Spells(c, x)
    ensures IsDigit(c) && Push(wc, DigitValue(c)) == Times16(wc, x)
  {
  }

  /** The characters a name may stand for: no surrogates, and below U+00A0 only three. */
  function Named(wc: ucs4, used: nat): Decoded {
    if (wc >= 0xa0 && !(0xd800 <= wc <= 0xdfff)) || wc == 0x24 || wc == 0x40 || wc == 0x60 then Char(wc, used)
    else IllegalSequence
  }

  lemma NamedIs(wc: ucs4, used: nat)
    ensures Named(wc, used) == if Nameable(wc) then Char(wc, used) else IllegalSequence
  {
  }

  lemma {:induction false} DigitsAreRead(d: seq<ucs4>, s: seq<byte>, i: nat)
    requires 2 <= i <= 2 + |d| <= |s| && forall k :: 0 <= k < |d| ==> Spells(s[2 + k], d[k])
    ensures Digits(s, i, 2 + |d|, Number(d[..i - 2])) == Named(Number(d), 2 + |d|)
    decreases 2 + |d| - i
  {
    hide IsDigit, DigitValue, Push, Spells, Number, Times16, Named, Nameable;
    if i == 2 + |d| {
      assert d[..i - 2] == d;
      NamedIs(Number(d), 2 + |d|);
    } else {
      var k := i - 2;
      PushIs(Number(d[..k]), s[2 + k], d[k]);
      OneMoreDigit(d[..k], d[k]);
      assert d[..k] + [d[k]] == d[..i + 1 - 2];
      DigitsAreRead(d, s, i + 1);
    }
  }

  /** Four digits behind backslash and "u", or eight behind backslash and "U", in either case and whatever
      follows: the character with the number they write, if it may be named so. */
  lemma NameIsRead(d: seq<ucs4>, s: seq<byte>)
    requires 2 + |d| <= |s| && s[0] == 0x5c && ((s[1] == 0x75 && |d| == 4) || (s[1] == 0x55 && |d| == 8))
    requires forall k :: 0 <= k < |d| ==> Spells(s[2 + k], d[k])
    ensures Decode(s) == Named(Number(d), 2 + |d|)
  {
    hide Digits, Spells, Named;
    DigitsAreRead(d, s, 2);
    assert d[..0] == [];
  }

  /** The digit as the encoder writes it: "a" to "f" in lower case */
  predicate Written(c: byte, d: ucs4) {
    Spells(c, d) && !(0x41 <= c <= 0x5a)
  }

  lemma DigitSpelled(v: ucs4)
    ensures Written(HexDigit(v), v & 0xf) && Times16(v >> 4, v & 0xf) == v
  {
  }

  lemma {:induction false} HexIsSpelled(wc: ucs4, n: nat, before: seq<ucs4>) returns (d: seq<ucs4>)
    requires n <= 8 && Number(before) == ShiftedDown(wc, n)
    ensures |d| == n && Number(before + d) == wc
    ensures forall k :: 0 <= k < n ==> Written(Hex(wc, n)[k], d[k])
    decreases n
  {
    hide Written, HexDigit, Number, ShiftedDown, Times16;
    if n == 0 {
      d := [];
      ShiftStep(wc, 0);
      assert before + d == before;
    } else {
      var v := ShiftedDown(wc, n - 1);
      ShiftStep(wc, n - 1);
      DigitSpelled(v);
      OneMoreDigit(before, v & 0xf);
      var rest := HexIsSpelled(wc, n - 1, before + [v & 0xf]);
      d := [v & 0xf] + rest;
      assert before + [v & 0xf] + rest == before + d;
    }
  }

  lemma NoDigits()
    ensures Number([]) == 0
  {
  }

  /** What the encoder writes: backslash, "u" or "U", and the digits `h` of the number. */
  lemma NameIsSpelled(wc: ucs4) returns (h: seq<byte>, d: seq<ucs4>)
    requires 0xa0 <= wc
    ensures Encode(wc) == [0x5c, if wc < 0x10000 then 0x75 else 0x55] + h
    ensures |h| == |d| == (if wc < 0x10000 then 4 else 8) && Number(d) == wc
    ensures forall k :: 0 <= k < |d| ==> Written(h[k], d[k])
  {
    hide Written, Hex, ShiftedDown, Number, Encode;
    AllShiftedOut(wc);
    NoDigits();
    EncodeIs(wc);
    h := Hex(wc, if wc < 0x10000 then 4 else 8);
    d := HexIsSpelled(wc, |h|, []);
    assert [] + d == d;
  }

  lemma EncodeIs(wc: ucs4)
    requires 0xa0 <= wc
    ensures Encode(wc) == if wc < 0x10000 then [0x5c, 0x75] + Hex(wc, 4) else [0x5c, 0x55] + Hex(wc, 8)
  {
    hide Hex;
  }

  /** Any other byte stands for itself up to 0x9f and is illegal from there on; below U+00A0 the encoder writes
      the one byte. */
  lemma PlainBytes(s: seq<byte>, wc: ucs4)
    requires s != [] && s[0] != 0x5c
    ensures Decode(s) == if s[0] <= 0x9f then Char(s[0] as ucs4, 1) else IllegalSequence
    ensures wc <= 0x9f ==> Encode(wc) == [wc as byte]
  {
  }

  lemma {:induction false} DigitsBreakOff(s: seq<byte>, i: nat, end: nat, j: nat, wc: ucs4)
    requires i <= j < end && j <= |s| && (forall k :: i <= k < j ==> IsDigit(s[k])) && (j < |s| ==> !IsDigit(s[j]))
    ensures Digits(s, i, end, wc) == if j < |s| then Char(0x5c, 1) else TooFew
    decreases j - i
  {
    hide IsDigit, DigitValue, Push, Nameable;
    if i < j {
      DigitsBreakOff(s, i + 1, end, j, Push(wc, DigitValue(s[i])));
    }
  }

  /** Everything else behind a backslash: it stands for itself if no "u" or "U" follows or if the digits break
      off at something that is none, and more input is needed if it is the input that breaks off. */
  lemma NoName(s: seq<byte>, j: nat)
    requires s != [] && s[0] == 0x5c
    ensures |s| == 1 ==> Decode(s) == TooFew
    ensures |s| > 1 && s[1] != 0x75 && s[1] != 0x55 ==> Decode(s) == Char(0x5c, 1)
    ensures |s| > 1 && (s[1] == 0x75 || s[1] == 0x55) && 2 <= j <= |s| && j < (if s[1] == 0x75 then 6 else 10)
            && (forall k :: 2 <= k < j ==> IsDigit(s[k])) && (j < |s| ==> !IsDigit(s[j])) ==>
              Decode(s) == if j < |s| then Char(0x5c, 1) else TooFew
  {
    hide IsDigit, Digits;
    if |s| > 1 && 2 <= j <= |s| && (forall k :: 2 <= k < j ==> IsDigit(s[k])) && (j < |s| ==> !IsDigit(s[j])) {
      if j < 6 { DigitsBreakOff(s, 2, 6, j, 0); }
      if j < 10 { DigitsBreakOff(s, 2, 10, j, 0); }
    }
  }

  /** A letter in lower case */
  function LowerCase(c: byte): byte {
    if 0x41 <= c <= 0x5a then c + 0x20 else c
  }

  lemma CaseOfDigit(c: byte)
    ensures IsDigit(LowerCase(c)) == IsDigit(c) && (IsDigit(c) ==> DigitValue(LowerCase(c)) == DigitValue(c))
  {
  }

  lemma {:induction false} CaseOfDigits(s: seq<byte>, t: seq<byte>, i: nat, end: nat, wc: ucs4)
    requires i <= end && |t| == |s| && forall k :: i <= k < |s| ==> t[k] == s[k] || t[k] == LowerCase(s[k])
    ensures Digits(t, i, end, wc) == Digits(s, i, end, wc)
    decreases end - i
  {
    hide IsDigit, DigitValue, Push, Nameable, LowerCase;
    if i < end && i < |s| {
      CaseOfDigit(s[i]);
      CaseOfDigits(s, t, i + 1, end, Push(wc, DigitValue(s[i])));
    }
  }

  /** Letters in an escape may be in either case. */
  lemma CaseDoesNotMatter(s: seq<byte>, t: seq<byte>)
    requires s != [] && |t| == |s| && t[0] == s[0] && (|s| > 1 ==> t[1] == s[1])
    requires forall k :: 2 <= k < |s| ==> t[k] == s[k] || t[k] == LowerCase(s[k])
    ensures Decode(t) == Decode(s)
  {
    hide LowerCase;
    if |s| >= 2 {
      CaseOfDigits(s, t, 2, 6, 0);
      CaseOfDigits(s, t, 2, 10, 0);
    }
    hide Digits;
  }

  // ---------- incomplete input ----------

  lemma {:induction false} CutHexRunsOut(s: seq<byte>, i: nat, end: nat, wc: ucs4, acc: ucs4)
    requires i <= |s| < end && end - i <= 8 && s[i..] == Hex(wc, end - i)[..|s| - i]
    ensures Digits(s, i, end, acc) == TooFew
    decreases |s| - i
  {
    hide IsDigit, HexDigit, DigitValue, Push, Nameable, ShiftedDown;
    if i < |s| {
      assert s[i] == s[i..][0] && s[i + 1..] == s[i..][1..];
      DigitIsReadBack(wc, end - i - 1);
      CutHexRunsOut(s, i + 1, end, wc, Push(acc, DigitValue(s[i])));
    }
  }

  /** Input that ends inside an escape is reported as such, never read as some other character. */
  lemma CutNameIsTooFew(wc: ucs4, k: nat)
    requires 0xa0 <= wc && 1 <= k < |Encode(wc)|
    ensures Decode(Encode(wc)[..k]) == TooFew
  {
    var s := Encode(wc)[..k];
    if k >= 2 {
      var n := |Encode(wc)| - 2;
      assert s[2..] == Hex(wc, n)[..k - 2];
      CutHexRunsOut(s, 2, n + 2, wc, 0);
    }
  }

  lemma {:induction false} DigitsStable(s: seq<byte>, t: seq<byte>, i: nat, end: nat, wc: ucs4)
    requires 2 <= i <= end && i <= |s|
    ensures var d := Digits(s, i, end, wc);
            && (d != TooFew ==> Digits(s + t, i, end, wc) == d)
            && (d.Char? ==> 1 <= d.used <= |s|)
    decreases end - i
  {
    hide IsDigit, DigitValue, Push, Nameable;
    if i < end && i < |s| {
      assert (s + t)[i] == s[i];
      DigitsStable(s, t, i + 1, end, Push(wc, DigitValue(s[i])));
    }
  }

  /** Any answer but "too few" stands, whatever bytes arrive later, and no more bytes are used than there
      are. */
  lemma DecodeStable(s: seq<byte>, t: seq<byte>)
    requires s != []
    ensures Decode(s) != TooFew ==> Decode(s + t) == Decode(s)
    ensures Decode(s).Char? ==> 1 <= Decode(s).used <= |s|
  {
    if |s| >= 2 {
      DigitsStable(s, t, 2, 6, 0);
      DigitsStable(s, t, 2, 10, 0);
    }
    hide Digits;
  }

  // ---------- whole texts ----------

  /** The outcome of reading a whole text character by character. */
  datatype Text = Text(cs: seq<ucs4>) | Broken

  function EncodeAll(cs: seq<ucs4>): seq<byte> {
    if cs == [] then [] else Encode(cs[0]) + EncodeAll(cs[1..])
  }

  function DecodeAll(s: seq<byte>): Text
    decreases |s|
  {
    if s == [] then Text([])
    else
      DecodeStable(s, []);
      match Decode(s)
      case Char(wc, used) =>
        (match DecodeAll(s[used..])
         case Text(cs) => Text([wc] + cs)
         case Broken => Broken)
      case _ => Broken
  }

  /** One of the first `n` characters is no letter or digit. */
  predicate NonDigitWithin(cs: seq<ucs4>, n: nat) {
    n > 0 && cs != [] && (!(cs[0] < 0xa0 && IsDigit(cs[0] as byte)) || NonDigitWithin(cs[1..], n - 1))
  }

  /** A backslash before these characters is not taken for the beginning of an escape. */
  predicate PlainBefore(cs: seq<ucs4>) {
    cs != [] && (cs[0] == 0x75 ==> NonDigitWithin(cs[1..], 4)) && (cs[0] == 0x55 ==> NonDigitWithin(cs[1..], 8))
  }

  /** No surrogates, and no backslash that begins, or might begin, an escape. */
  predicate Safe(cs: seq<ucs4>) {
    cs != [] ==>
      && (cs[0] >= 0xa0 ==> Nameable(cs[0]))
      && (cs[0] == 0x5c ==> PlainBefore(cs[1..]))
      && Safe(cs[1..])
  }

  lemma FirstByte(wc: ucs4)
    ensures Encode(wc) != []
    ensures wc < 0xa0 ==> Encode(wc) == [wc as byte]
    ensures wc >= 0xa0 ==> Encode(wc)[0] == BACKSLASH
    ensures !IsDigit(BACKSLASH)
  {
  }

  lemma {:induction false} DigitsOfText(s: seq<byte>, i: nat, end: nat, acc: ucs4, cs: seq<ucs4>)
    requires 2 <= i <= end && i <= |s| && s[i..] == EncodeAll(cs)
    ensures Digits(s, i, end, acc) == Char(BACKSLASH as ucs4, 1) <==> NonDigitWithin(cs, end - i)
    decreases end - i
  {
    hide IsDigit, DigitValue, Push, Nameable, Encode;
    if i < end && cs != [] {
      FirstByte(cs[0]);
      assert s[i] == s[i..][0] == Encode(cs[0])[0];
      if IsDigit(s[i]) {
        assert s[i + 1..] == s[i..][1..] == EncodeAll(cs[1..]);
        DigitsOfText(s, i + 1, end, Push(acc, DigitValue(s[i])), cs[1..]);
      }
    }
  }

  lemma AsciiIsOneByte(wc: ucs4, b: byte)
    requires wc < 0xa0 && b == wc as byte
    ensures b as ucs4 == wc && b < 0xa0
    ensures (b == 0x75 <==> wc == 0x75) && (b == 0x55 <==> wc == 0x55) && (b == BACKSLASH <==> wc == 0x5c)
  {
  }

  lemma BackslashBeforeText(cs: seq<ucs4>)
    ensures Decode([BACKSLASH] + EncodeAll(cs)) == Char(0x5c, 1) <==> PlainBefore(cs)
  {
    var s := [BACKSLASH] + EncodeAll(cs);
    if cs != [] {
      FirstByte(cs[0]);
      if cs[0] < 0xa0 {
        AsciiIsOneByte(cs[0], s[1]);
        assert s[2..] == EncodeAll(cs[1..]);
        DigitsOfText(s, 2, 6, 0, cs[1..]);
        DigitsOfText(s, 2, 10, 0, cs[1..]);
      }
    }
    hide Digits, NonDigitWithin, Encode;
  }

  lemma {:induction false} NamesAreNameable(s: seq<byte>, i: nat, end: nat, acc: ucs4)
    requires 2 <= i <= end
    ensures var d := Digits(s, i, end, acc); d.Char? ==> d == Char(0x5c, 1) || Nameable(d.wc)
    decreases end - i
  {
    hide IsDigit, DigitValue, Push, Nameable;
    if i < end && i < |s| {
      NamesAreNameable(s, i + 1, end, Push(acc, DigitValue(s[i])));
    }
  }

  lemma BackslashOrName(s: seq<byte>)
    requires s != [] && s[0] == BACKSLASH
    ensures var d := Decode(s); d.Char? ==> d == Char(0x5c, 1) || d.wc != 0x5c
  {
    if |s| >= 2 {
      NamesAreNameable(s, 2, 6, 0);
      NamesAreNameable(s, 2, 10, 0);
    }
    hide Digits;
  }

  /** The first character of an encoded text is read back as it was written. */
  lemma FirstIsReadBack(c: ucs4, rest: seq<ucs4>)
    ensures var d := Decode(Encode(c) + EncodeAll(rest));
            if c == 0x5c then
              (if PlainBefore(rest) then d == Char(c, 1) else d.Char? ==> d.wc != c)
            else if c >= 0xa0 && !Nameable(c) then !d.Char?
            else d == Char(c, |Encode(c)|)
  {
    var s := Encode(c) + EncodeAll(rest);
    if c >= 0xa0 {
      NameIsReadBack(c, EncodeAll(rest));
    } else {
      FirstByte(c);
      AsciiIsOneByte(c, s[0]);
      if c == 0x5c {
        BackslashBeforeText(rest);
        BackslashOrName(s);
      }
    }
    hide Digits, Encode, PlainBefore;
  }

  lemma TextStep(s: seq<byte>, cs: seq<ucs4>)
    requires s != [] && cs != []
    ensures var d := Decode(s);
            && (d.Char? ==> 1 <= d.used <= |s|)
            && (DecodeAll(s) == Text(cs) <==>
                  d.Char? && d.wc == cs[0] && DecodeAll(s[d.used..]) == Text(cs[1..]))
  {
    DecodeStable(s, []);
    hide Decode;
    var d := Decode(s);
    if d.Char? && DecodeAll(s[d.used..]).Text? {
      var more := DecodeAll(s[d.used..]).cs;
      assert ([d.wc] + more)[0] == d.wc && ([d.wc] + more)[1..] == more;
      assert cs == [cs[0]] + cs[1..];
    }
  }

  lemma SafeStep(cs: seq<ucs4>)
    requires cs != []
    ensures Safe(cs) <==>
            (cs[0] >= 0xa0 ==> Nameable(cs[0])) && (cs[0] == 0x5c ==> PlainBefore(cs[1..])) && Safe(cs[1..])
  {
  }

  /** The round trip: a text is read back exactly if it is safe. */
  lemma {:induction false} RoundTrip(cs: seq<ucs4>)
    ensures DecodeAll(EncodeAll(cs)) == Text(cs) <==> Safe(cs)
    decreases |cs|
  {
    if cs != [] {
      RoundTrip(cs[1..]);
      hide Decode, Encode, PlainBefore, Nameable, DecodeAll, Safe;
      var s := EncodeAll(cs);
      FirstByte(cs[0]);
      FirstIsReadBack(cs[0], cs[1..]);
      TextStep(s, cs);
      SafeStep(cs);
      assert s[|Encode(cs[0])|..] == EncodeAll(cs[1..]);
    }
  }

  // ---------- the converter functions ----------

  const RET_TOOSMALL := -2

  /** The digit loops of `c99_mbtowc` */
  method ReadDigits(s: seq<byte>, end: nat) returns (r: Decoded)
    requires 2 <= end
    ensures r == Digits(s, 2, end, 0)
  {
    hide IsDigit, DigitValue, Push, Nameable;
    var wc: ucs4 := 0;
    var i := 2;
    while i < end
      invariant 2 <= i <= end
      invariant Digits(s, i, end, wc) == Digits(s, 2, end, 0)
    {
      if |s| <= i {
        return TooFew;
      }
      if !IsDigit(s[i]) {
        return Char(BACKSLASH as ucs4, 1);
      }
      wc := Push(wc, DigitValue(s[i]));
      i := i + 1;
    }
    if Nameable(wc) {
      return Char(wc, end);
    }
    return IllegalSequence;
  }

  /** `c99_mbtowc` */
  method Mbtowc(s: seq<byte>) returns (r: Decoded)
    requires s != []
    ensures r == Decode(s)
  {
    var c := s[0];
    if c < 0xa0 {
      if c != BACKSLASH {
        return Char(c as ucs4, 1);
      }
      if |s| < 2 {
        return TooFew;
      }
      c := s[1];
      if c == 0x75 {
        r := ReadDigits(s, 6);
      } else if c == 0x55 {
        r := ReadDigits(s, 10);
      } else {
        return Char(BACKSLASH as ucs4, 1);
      }
      return;
    }
    return IllegalSequence;
  }

  /** The digit loop of `c99_wctomb` */
  method WriteHex(r: array<byte>, wc: ucs4, n: nat)
    requires n <= 8 && 2 + n <= r.Length
    modifies r
    ensures r[..2 + n] == old(r[..2]) + Hex(wc, n)
    ensures r[2 + n..] == old(r[2 + n..])
  {
    hide HexDigit, ShiftedDown;
    var at := 2;
    var count := n - 1;
    while count >= 0
      invariant -1 <= count < n && at == 1 + n - count
      invariant r[..at] + Hex(wc, count + 1) == old(r[..2]) + Hex(wc, n)
      invariant r[2 + n..] == old(r[2 + n..])
    {
      r[at] := HexDigit(ShiftedDown(wc, count));
      assert r[..at + 1] == r[..at] + [r[at]];
      at := at + 1;
      count := count - 1;
    }
    assert r[..at] + [] == r[..at];
  }

  /** `c99_wctomb`: the encoded character, or nothing and an error if the room does not suffice. */
  method Wctomb(r: array<byte>, wc: ucs4, n: nat) returns (result: int)
    requires 1 <= n <= r.Length
    modifies r
    ensures if |Encode(wc)| <= n then
              result == |Encode(wc)| && r[..result] == Encode(wc) && r[result..] == old(r[result..])
            else result == RET_TOOSMALL && r[..] == old(r[..])
  {
    hide Hex;
    if wc < 0xa0 {
      r[0] := wc as byte;
      return 1;
    }
    var u: byte := 0x55;
    result := 10;
    if wc < 0x10000 {
      result := 6;
      u := 0x75;
    }
    if n < result {
      return RET_TOOSMALL;
    }
    r[0] := BACKSLASH;
    r[1] := u;
    assert r[..2] == [BACKSLASH, u];
    WriteHex(r, wc, result - 2);
  }
}
