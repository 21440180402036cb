/** The BIG5-HKSCS:1999 converter of libiconv (Resources/libiconv-1.11/lib/big5hkscs1999.h): a transducer
    with one character of look-ahead in either direction.  The two character tables are parameters. */
module Big5Hkscs {
  newtype byte = x: int | 0 <= x < 256
  type ucs4 = nat
  type Code = (byte, byte)

  datatype Option<T> = None | Some(value: T)

  /** The tables of big5.h and hkscs1999.h, in both directions. */
  datatype Tables = Tables(big5: map<Code, ucs4>, hkscs: map<Code, ucs4>,
                           big5Codes: map<ucs4, Code>, hkscsCodes: map<ucs4, Code>)

  // ---------- codes ----------

  predicate TrailByte(c2: byte) {
    0x40 <= c2 < 0x7f || 0xa1 <= c2 < 0xff
  }

  /** Codes that the BIG5 table has but this character set leaves to HKSCS. */
  predicate LeftOut(c: Code) {
    (c.0 == 0xc6 && c.1 >= 0xa1) || c.0 == 0xc7
  }

  predicate HkscsLead(c: byte) {
    0x88 <= c <= 0x8b || 0x8d <= c <= 0xa0 || 0xc6 <= c <= 0xc8 || 0xf9 <= c <= 0xfe
  }

  predicate IsComposed(c: Code) {
    c.0 == 0x88 && (c.1 == 0x62 || c.1 == 0x64 || c.1 == 0xa3 || c.1 == 0xa5)
  }

  /** What the code takes for granted about the tables: each direction inverts the other, the two tables
      share no code, E with circumflex has its two codes, and the composed codes are in no table. */
  ghost predicate Consistent(t: Tables) {
    && (forall wc :: wc in t.big5Codes ==>
          var c := t.big5Codes[wc];
          0x80 <= wc && c in t.big5 && t.big5[c] == wc && 0xa1 <= c.0 < 0xff && TrailByte(c.1))
    && (forall wc :: wc in t.hkscsCodes ==>
          var c := t.hkscsCodes[wc];
          0x80 <= wc && c in t.hkscs && t.hkscs[c] == wc && HkscsLead(c.0) && TrailByte(c.1))
    && (forall c :: c in t.hkscs && c in t.big5 ==> LeftOut(c))
    && 0xca !in t.big5Codes && 0xea !in t.big5Codes
    && 0xca in t.hkscsCodes && t.hkscsCodes[0xca] == (0x88, 0x66)
    && 0xea in t.hkscsCodes && t.hkscsCodes[0xea] == (0x88, 0xa7)
    && (forall c :: IsComposed(c) ==> c !in t.hkscs)
  }

  // ---------- decoding ----------

  /** `istate` is the character to be output next, or 0. */
  datatype MbResult = Got(wc: ucs4, used: nat, istate: ucs4) | IllegalSequence | TooFew

  /** `((c2 >> 3) << 2) + 0x009a` and `((c2 & 6) << 2) + 0x02fc` */
  function BaseOf(c2: byte): ucs4 {
    (c2 as nat / 8) * 4 + 0x9a
  }

  function AccentOf(c2: byte): ucs4 {
    (c2 as nat / 2 % 4) * 8 + 0x2fc
  }

  /** `big5hkscs1999_mbtowc` */
  function Mbtowc(t: Tables, istate: ucs4, s: seq<byte>): (r: MbResult)
    requires s != []
    ensures r.Got? ==> r.used <= |s| && (r.used > 0 || (istate != 0 && r.istate == 0))
  {
    if istate != 0 then Got(istate, 0, 0)
    else
      var c := s[0];
      if c < 0x80 then Got(c as ucs4, 1, 0)
      else if 0xa1 <= c < 0xff && |s| < 2 then TooFew
      else if 0xa1 <= c < 0xff && TrailByte(s[1]) && !LeftOut((c, s[1])) && (c, s[1]) in t.big5 then
        Got(t.big5[(c, s[1])], 2, 0)
      else if HkscsLead(c) && |s| < 2 then TooFew
      else if HkscsLead(c) && TrailByte(s[1]) && (c, s[1]) in t.hkscs then Got(t.hkscs[(c, s[1])], 2, 0)
      else if c == 0x88 && IsComposed((c, s[1])) then Got(BaseOf(s[1]), 2, AccentOf(s[1]))
      else IllegalSequence
  }

  /** A whole input, with the pending character flushed at the end. */
  function DecodeAll(t: Tables, istate: ucs4, s: seq<byte>): Option<seq<ucs4>>
    decreases |s|, if istate != 0 then 1 else 0
  {
    if s == [] then Some(if istate != 0 then [istate] else [])
    else
      match Mbtowc(t, istate, s)
      case Got(wc, used, istate1) =>
        (match DecodeAll(t, istate1, s[used..])
         case Some(cs) => Some([wc] + cs)
         case None => None)
      case _ => None
  }

  // ---------- encoding ----------

  /** `ostate` is the second byte of the code held back, 0x66 or 0xa7, or 0. */
  datatype WcResult = Wrote(bytes: seq<byte>, ostate: byte) | IllegalChar | TooSmall

  predicate OutputState(ostate: byte) {
    ostate == 0 || ostate == 0x66 || ostate == 0xa7
  }

  predicate IsAccent(wc: ucs4) {
    wc == 0x304 || wc == 0x30c
  }

  predicate TakenBack(wc: ucs4) {
    wc == 0xca || wc == 0xea
  }

  /** `last + ((wc & 24) >> 2) - 4` */
  function Combine(last: byte, wc: ucs4): byte
    requires (last == 0x66 || last == 0xa7) && IsAccent(wc)
  {
    (last as int + (wc / 8 % 4) * 2 - 4) as byte
  }

  /** `big5hkscs1999_wctomb` with room for `n` bytes */
  function Wctomb(t: Tables, ostate: byte, wc: ucs4, n: nat): (r: WcResult)
    requires OutputState(ostate)
    ensures r.Wrote? ==> OutputState(r.ostate)
  {
    if ostate != 0 && IsAccent(wc) then
      if n >= 2 then Wrote([0x88, Combine(ostate, wc)], 0) else TooSmall
    else if ostate != 0 && n < 2 then TooSmall
    else
      var first: seq<byte> := if ostate != 0 then [0x88, ostate] else [];
      var count := |first|;
      if wc < 0x80 then
        if n > count then Wrote(first + [wc as byte], 0) else TooSmall
      else if wc in t.big5Codes && !LeftOut(t.big5Codes[wc]) then
        if n >= count + 2 then Wrote(first + [t.big5Codes[wc].0, t.big5Codes[wc].1], 0) else TooSmall
      else if wc in t.hkscsCodes then
        if TakenBack(wc) then Wrote(first, if wc == 0xca then 0x66 else 0xa7)
        else if n >= count + 2 then Wrote(first + [t.hkscsCodes[wc].0, t.hkscsCodes[wc].1], 0)
        else TooSmall
      else IllegalChar
  }

  /** `big5hkscs1999_reset` with enough room */
  function Reset(ostate: byte): seq<byte> {
    if ostate != 0 then [0x88, ostate] else []
  }

  /** The most one character can need. */
  const ROOM := 4

  /** A whole text followed by a reset; none if some character has no code. */
  function EncodeAll(t: Tables, ostate: byte, cs: seq<ucs4>): Option<seq<byte>>
    requires OutputState(ostate)
    decreases |cs|
  {
    if cs == [] then Some(Reset(ostate))
    else
      match Wctomb(t, ostate, cs[0], ROOM)
      case Wrote(bytes, ostate1) =>
        (match EncodeAll(t, ostate1, cs[1..])
         case Some(rest) => Some(bytes + rest)
         case None => None)
      case _ => None
  }

  // ---------- the round trip ----------

  /** The character that a held back code stands for. */
  function Held(ostate: byte): seq<ucs4> {
    if ostate == 0x66 then [0xca] else if ostate == 0xa7 then [0xea] else []
  }

  lemma DecodeCode(t: Tables, c: Code, wc: ucs4, rest: seq<byte>)
    requires Consistent(t)
    requires || (wc in t.big5Codes && c == t.big5Codes[wc] && !LeftOut(c))
             || (wc in t.hkscsCodes && c == t.hkscsCodes[wc])
    ensures Mbtowc(t, 0, [c.0, c.1] + rest) == Got(wc, 2, 0)
  {
    var s := [c.0, c.1] + rest;
    assert s[0] == c.0 && s[1] == c.1;
    assert (s[0], s[1]) == c;
  }

  lemma DecodeCombined(t: Tables, last: byte, wc: ucs4, rest: seq<byte>)
    requires Consistent(t) && (last == 0x66 || last == 0xa7) && IsAccent(wc)
    ensures var s := [0x88, Combine(last, wc)] + rest;
            Mbtowc(t, 0, s) == Got(Held(last)[0], 2, wc)
  {
    hide Mbtowc;
    ComposedCodes(t, rest);
  }

  // ---------- which bytes mean what ----------

  /** The four composed codes, whatever bytes follow. */
  lemma ComposedCodes(t: Tables, rest: seq<byte>)
    requires Consistent(t)
    ensures Mbtowc(t, 0, [0x88, 0x62] + rest) == Got(0xca, 2, 0x304)
    ensures Mbtowc(t, 0, [0x88, 0x64] + rest) == Got(0xca, 2, 0x30c)
    ensures Mbtowc(t, 0, [0x88, 0xa3] + rest) == Got(0xea, 2, 0x304)
    ensures Mbtowc(t, 0, [0x88, 0xa5] + rest) == Got(0xea, 2, 0x30c)
  {
    ComposedCode(t, 0x62, rest);
    ComposedCode(t, 0x64, rest);
    ComposedCode(t, 0xa3, rest);
    ComposedCode(t, 0xa5, rest);
    hide Mbtowc;
  }

  lemma ComposedCode(t: Tables, c2: byte, rest: seq<byte>)
    requires Consistent(t) && IsComposed((0x88, c2))
    ensures Mbtowc(t, 0, [0x88, c2] + rest) == Got(BaseOf(c2), 2, AccentOf(c2))
  {
    var s := [0x88, c2] + rest;
    assert s[0] == 0x88 && s[1] == c2;
    assert IsComposed((s[0], s[1]));
  }

  /** What the encoder writes for them: nothing for the letter, and for the accent the composed code. */
  lemma ComposedWritten(t: Tables, n: nat)
    requires Consistent(t)
    ensures Wctomb(t, 0, 0xca, n) == Wrote([], 0x66) && Wctomb(t, 0, 0xea, n) == Wrote([], 0xa7)
    ensures Wctomb(t, 0x66, 0x304, n) == if n >= 2 then Wrote([0x88, 0x62], 0) else TooSmall
    ensures Wctomb(t, 0x66, 0x30c, n) == if n >= 2 then Wrote([0x88, 0x64], 0) else TooSmall
    ensures Wctomb(t, 0xa7, 0x304, n) == if n >= 2 then Wrote([0x88, 0xa3], 0) else TooSmall
    ensures Wctomb(t, 0xa7, 0x30c, n) == if n >= 2 then Wrote([0x88, 0xa5], 0) else TooSmall
  {
  }

  /** The character of a two-byte code: from the first table unless that row is left to the second one. */
  predicate Has(t: Tables, c: byte, c2: byte) {
    && (0x40 <= c2 <= 0x7e || 0xa1 <= c2 <= 0xfe)
    && (|| (0xa1 <= c <= 0xfe && !(c == 0xc6 && c2 >= 0xa1) && c != 0xc7 && (c, c2) in t.big5)
        || ((0x88 <= c <= 0x8b || 0x8d <= c <= 0xa0 || 0xc6 <= c <= 0xc8 || 0xf9 <= c <= 0xfe) && (c, c2) in t.hkscs)
        || (c == 0x88 && c2 in {0x62, 0x64, 0xa3, 0xa5}))
  }

  /** Exactly what is refused: a byte that begins no code, and a code in neither table that is not composed. */
  lemma RefusedBytes(t: Tables, s: seq<byte>)
    requires s != []
    ensures Mbtowc(t, 0, s) == TooFew <==> |s| == 1 && 0x88 <= s[0] <= 0xfe && s[0] != 0x8c
    ensures Mbtowc(t, 0, s) == IllegalSequence <==>
            s[0] >= 0x80 && (if |s| == 1 then !(0x88 <= s[0] <= 0xfe && s[0] != 0x8c) else !Has(t, s[0], s[1]))
    ensures s[0] < 0x80 ==> Mbtowc(t, 0, s) == Got(s[0] as nat, 1, 0)
  {
  }

  /** Where a code has a character in a table, that is what is read. */
  lemma TableCodes(t: Tables, c: byte, c2: byte, rest: seq<byte>)
    requires 0x40 <= c2 <= 0x7e || 0xa1 <= c2 <= 0xfe
    ensures 0xa1 <= c <= 0xfe && !(c == 0xc6 && c2 >= 0xa1) && c != 0xc7 && (c, c2) in t.big5 ==>
              Mbtowc(t, 0, [c, c2] + rest) == Got(t.big5[(c, c2)], 2, 0)
    ensures (c == 0xc7 || (c == 0xc6 && c2 >= 0xa1) || (c, c2) !in t.big5) && HkscsLead(c) && (c, c2) in t.hkscs ==>
              Mbtowc(t, 0, [c, c2] + rest) == Got(t.hkscs[(c, c2)], 2, 0)
  {
    var s := [c, c2] + rest;
    assert s[0] == c && s[1] == c2;
  }

  /** Exactly what has no code. */
  lemma RefusedCharacters(t: Tables, ostate: byte, wc: ucs4)
    requires OutputState(ostate)
    ensures Wctomb(t, ostate, wc, ROOM) == IllegalChar <==>
            && wc >= 0x80 && !(ostate != 0 && (wc == 0x304 || wc == 0x30c)) && wc !in t.hkscsCodes
            && (wc in t.big5Codes ==>
                  var c := t.big5Codes[wc]; (c.0 == 0xc6 && 0xa1 <= c.1) || c.0 == 0xc7)
  {
  }

  /** The room a call needs: two bytes for a code held back that now has to be written, and the new code. */
  function Needed(t: Tables, ostate: byte, wc: ucs4): nat {
    if ostate != 0 && (wc == 0x304 || wc == 0x30c) then 2
    else
      (if ostate != 0 then 2 else 0)
      + if wc < 0x80 then 1
        else if wc in t.big5Codes && !LeftOut(t.big5Codes[wc]) then 2
        else if wc in t.hkscsCodes && wc != 0xca && wc != 0xea then 2
        else 0
  }

  /** It is refused exactly when there is less. */
  lemma RoomNeeded(t: Tables, ostate: byte, wc: ucs4, n: nat)
    requires OutputState(ostate)
    ensures Wctomb(t, ostate, wc, n) == TooSmall <==> n < Needed(t, ostate, wc)
    ensures var r := Wctomb(t, ostate, wc, n); r.Wrote? ==> |r.bytes| == Needed(t, ostate, wc)
  {
  }

  lemma DecodeOne(t: Tables, s: seq<byte>, istate: ucs4, wc: ucs4, used: nat, istate1: ucs4, cs: seq<ucs4>)
    requires s != [] && Mbtowc(t, istate, s) == Got(wc, used, istate1)
    requires DecodeAll(t, istate1, s[used..]) == Some(cs)
    ensures DecodeAll(t, istate, s) == Some([wc] + cs)
  {
  }

  lemma DecodePending(t: Tables, istate: ucs4, s: seq<byte>, cs: seq<ucs4>)
    requires istate != 0 && DecodeAll(t, 0, s) == Some(cs)
    ensures DecodeAll(t, istate, s) == Some([istate] + cs)
  {
    if s == [] {
      assert cs == [];
      assert [istate] + cs == [istate];
    } else {
      assert s[0..] == s;
      DecodeOne(t, s, istate, istate, 0, 0, cs);
    }
  }

  lemma DecodeAscii(t: Tables, wc: ucs4, rest: seq<byte>, cs: seq<ucs4>)
    requires wc < 0x80 && DecodeAll(t, 0, rest) == Some(cs)
    ensures DecodeAll(t, 0, [wc as byte] + rest) == Some([wc] + cs)
  {
    var s := [wc as byte] + rest;
    assert s[1..] == rest;
    DecodeOne(t, s, 0, wc, 1, 0, cs);
  }

  /** Bytes of one code, then the rest. */
  lemma DecodeCodeThen(t: Tables, c: Code, wc: ucs4, rest: seq<byte>, cs: seq<ucs4>)
    requires Consistent(t)
    requires || (wc in t.big5Codes && c == t.big5Codes[wc] && !LeftOut(c))
             || (wc in t.hkscsCodes && c == t.hkscsCodes[wc])
    requires DecodeAll(t, 0, rest) == Some(cs)
    ensures DecodeAll(t, 0, [c.0, c.1] + rest) == Some([wc] + cs)
  {
    var s := [c.0, c.1] + rest;
    DecodeCode(t, c, wc, rest);
    assert s[2..] == rest;
    DecodeOne(t, s, 0, wc, 2, 0, cs);
  }

  lemma DecodeHeld(t: Tables, ostate: byte, rest: seq<byte>, cs: seq<ucs4>)
    requires Consistent(t) && OutputState(ostate) && DecodeAll(t, 0, rest) == Some(cs)
    ensures DecodeAll(t, 0, Reset(ostate) + rest) == Some(Held(ostate) + cs)
  {
    if ostate == 0 {
      assert Reset(ostate) + rest == rest && Held(ostate) + cs == cs;
    } else {
      DecodeCodeThen(t, (0x88, ostate), Held(ostate)[0], rest, cs);
    }
  }

  lemma HeldIsWrittenFirst(t: Tables, ostate: byte, wc: ucs4)
    requires OutputState(ostate) && !(ostate != 0 && IsAccent(wc))
    ensures var plain, full := Wctomb(t, 0, wc, ROOM), Wctomb(t, ostate, wc, ROOM);
            && (plain.Wrote? <==> full.Wrote?)
            && (plain.Wrote? ==> full == Wrote(Reset(ostate) + plain.bytes, plain.ostate))
  {
    assert forall b: seq<byte> :: [] + b == b;
  }

  /** A character that is no accent after a held back code: the held back code comes first. */
  lemma HeldComesFirst(t: Tables, ostate: byte, cs: seq<ucs4>)
    requires OutputState(ostate) && cs != [] && !(ostate != 0 && IsAccent(cs[0]))
    ensures EncodeAll(t, ostate, cs) ==
            if EncodeAll(t, 0, cs).Some? then Some(Reset(ostate) + EncodeAll(t, 0, cs).value) else None
  {
    HeldIsWrittenFirst(t, ostate, cs[0]);
    hide Wctomb, Reset;
    var plain, full := Wctomb(t, 0, cs[0], ROOM), Wctomb(t, ostate, cs[0], ROOM);
    if plain.Wrote? {
      var rest := EncodeAll(t, plain.ostate, cs[1..]);
      if rest.Some? {
        HeldConcat(Reset(ostate), plain.bytes, rest.value);
      }
    }
  }

  lemma HeldConcat(a: seq<byte>, b: seq<byte>, c: seq<byte>)
    ensures (a + b) + c == a + (b + c)
  {
  }

  lemma AccentIsCombined(t: Tables, ostate: byte, cs: seq<ucs4>)
    requires OutputState(ostate) && ostate != 0 && cs != [] && IsAccent(cs[0])
    ensures EncodeAll(t, ostate, cs).Some? <==> EncodeAll(t, 0, cs[1..]).Some?
    ensures EncodeAll(t, 0, cs[1..]).Some? ==>
              EncodeAll(t, ostate, cs).value == [0x88, Combine(ostate, cs[0])] + EncodeAll(t, 0, cs[1..]).value
  {
  }

  lemma PairIsWritten(t: Tables, wc: ucs4, last: byte, accent: ucs4, c2: byte)
    requires Consistent(t) && IsAccent(accent) && (last == 0x66 || last == 0xa7)
    requires Wctomb(t, 0, wc, ROOM) == Wrote([], last) && Wctomb(t, last, accent, ROOM) == Wrote([0x88, c2], 0)
    ensures EncodeAll(t, 0, [wc, accent]) == Some([0x88, c2])
  {
    hide Wctomb;
    assert [wc, accent][1..] == [accent] && [accent][1..] == [];
    assert EncodeAll(t, 0, []) == Some([]);
    assert EncodeAll(t, last, [accent]) == Some([0x88, c2] + []);
    assert [] + [0x88, c2] == [0x88, c2] + [] == [0x88, c2];
  }

  /** As whole texts: each of the four pairs is written as its composed code. */
  lemma PairsAreWritten(t: Tables)
    requires Consistent(t)
    ensures EncodeAll(t, 0, [0xca, 0x304]) == Some([0x88, 0x62]) && EncodeAll(t, 0, [0xca, 0x30c]) == Some([0x88, 0x64])
    ensures EncodeAll(t, 0, [0xea, 0x304]) == Some([0x88, 0xa3]) && EncodeAll(t, 0, [0xea, 0x30c]) == Some([0x88, 0xa5])
  {
    hide Wctomb, EncodeAll;
    ComposedWritten(t, ROOM);
    PairIsWritten(t, 0xca, 0x66, 0x304, 0x62);
    PairIsWritten(t, 0xca, 0x66, 0x30c, 0x64);
    PairIsWritten(t, 0xea, 0xa7, 0x304, 0xa3);
    PairIsWritten(t, 0xea, 0xa7, 0x30c, 0xa5);
  }

  lemma CombinedDecodes(t: Tables, last: byte, wc: ucs4, rest: seq<byte>, cs: seq<ucs4>)
    requires Consistent(t) && (last == 0x66 || last == 0xa7) && IsAccent(wc) && DecodeAll(t, 0, rest) == Some(cs)
    ensures DecodeAll(t, 0, [0x88, Combine(last, wc)] + rest) == Some(Held(last) + ([wc] + cs))
  {
    var s := [0x88, Combine(last, wc)] + rest;
    DecodeCombined(t, last, wc, rest);
    DecodePending(t, wc, rest, cs);
    hide Consistent, Mbtowc, DecodeAll;
    assert s[2..] == rest;
    DecodeOne(t, s, 0, Held(last)[0], 2, wc, [wc] + cs);
  }

  /** The invariant of the encoder: what it writes from some state on decodes to the character held back
      in that state followed by the characters it is given. */
  lemma {:induction false} EncodedDecodes(t: Tables, ostate: byte, cs: seq<ucs4>)
    requires Consistent(t) && OutputState(ostate) && EncodeAll(t, ostate, cs).Some?
    ensures DecodeAll(t, 0, EncodeAll(t, ostate, cs).value) == Some(Held(ostate) + cs)
    decreases |cs|, ostate
  {
    hide Consistent, Wctomb, DecodeAll, Combine;
    if cs == [] {
      assert DecodeAll(t, 0, []) == Some([]) by { NothingDecodes(t); }
      DecodeHeld(t, ostate, [], []);
      assert Reset(ostate) + [] == Reset(ostate);
    } else if ostate != 0 && IsAccent(cs[0]) {
      AccentIsCombined(t, ostate, cs);
      EncodedDecodes(t, 0, cs[1..]);
      assert Held(0) + cs[1..] == cs[1..] && [cs[0]] + cs[1..] == cs;
      CombinedDecodes(t, ostate, cs[0], EncodeAll(t, 0, cs[1..]).value, cs[1..]);
    } else if ostate != 0 {
      HeldComesFirst(t, ostate, cs);
      EncodedDecodes(t, 0, cs);
      assert Held(0) + cs == cs;
      DecodeHeld(t, ostate, EncodeAll(t, 0, cs).value, cs);
    } else {
      FirstDecodes(t, cs);
    }
  }

  lemma NothingDecodes(t: Tables)
    ensures DecodeAll(t, 0, []) == Some([])
  {
  }

  lemma {:induction false} FirstDecodes(t: Tables, cs: seq<ucs4>)
    requires Consistent(t) && cs != [] && EncodeAll(t, 0, cs).Some?
    ensures DecodeAll(t, 0, EncodeAll(t, 0, cs).value) == Some(Held(0) + cs)
    decreases |cs|, 0, 0
  {
    hide Mbtowc, DecodeAll;
    var wc := cs[0];
    var r := Wctomb(t, 0, wc, ROOM);
    EncodedDecodes(t, r.ostate, cs[1..]);
    var rest := EncodeAll(t, r.ostate, cs[1..]).value;
    var s := r.bytes + rest;
    assert cs == [wc] + cs[1..] && Held(0) + cs == cs;
    if wc < 0x80 {
      assert Held(0) + cs[1..] == cs[1..] && r.bytes == [wc as byte];
      DecodeAscii(t, wc, rest, cs[1..]);
    } else if r.ostate != 0 {
      assert s == rest;
    } else {
      assert Held(0) + cs[1..] == cs[1..];
      var c := if wc in t.big5Codes && !LeftOut(t.big5Codes[wc]) then t.big5Codes[wc] else t.hkscsCodes[wc];
      DecodeCodeThen(t, c, wc, rest, cs[1..]);
      assert r.bytes == [c.0, c.1];
    }
  }

  /** The round trip: every text whose characters all have codes is read back, whatever accents follow
      which letters. */
  lemma RoundTrip(t: Tables, cs: seq<ucs4>)
    requires Consistent(t) && EncodeAll(t, 0, cs).Some?
    ensures DecodeAll(t, 0, EncodeAll(t, 0, cs).value) == Some(cs)
  {
    EncodedDecodes(t, 0, cs);
    assert Held(0) + cs == cs;
  }

  // ---------- split buffers ----------

  /** How much room there is decides only whether a character is written now or later: a call that finds
      its room too small changes nothing, and any other call does the same as with room to spare. */
  lemma RoomDoesNotMatter(t: Tables, ostate: byte, wc: ucs4, n: nat)
    requires OutputState(ostate)
    ensures var r := Wctomb(t, ostate, wc, n);
            r != TooSmall ==> r == Wctomb(t, ostate, wc, ROOM) && (r.Wrote? ==> |r.bytes| <= n)
    ensures ROOM <= n ==> Wctomb(t, ostate, wc, n) != TooSmall
  {
  }

  /** Bytes written so far, the code held back, and the characters still to be converted. */
  datatype Progress = Progress(out: seq<byte>, ostate: byte, left: seq<ucs4>)

  /** The conversion loop on one output buffer with room for `room` bytes. */
  function Fill(t: Tables, ostate: byte, cs: seq<ucs4>, room: nat): (p: Progress)
    requires OutputState(ostate)
    ensures OutputState(p.ostate) && |p.out| <= room
    decreases |cs|
  {
    if cs == [] || room == 0 then Progress([], ostate, cs)
    else
      match Wctomb(t, ostate, cs[0], room)
      case Wrote(bytes, ostate1) =>
        RoomDoesNotMatter(t, ostate, cs[0], room);
        var p := Fill(t, ostate1, cs[1..], room - |bytes|);
        Progress(bytes + p.out, p.ostate, p.left)
      case _ => Progress([], ostate, cs)
  }

  /** One output buffer after the other. */
  function FillAll(t: Tables, ostate: byte, cs: seq<ucs4>, rooms: seq<nat>): (p: Progress)
    requires OutputState(ostate)
    ensures OutputState(p.ostate)
    decreases |rooms|
  {
    if rooms == [] then Progress([], ostate, cs)
    else
      var p := Fill(t, ostate, cs, rooms[0]);
      var q := FillAll(t, p.ostate, p.left, rooms[1..]);
      Progress(p.out + q.out, q.ostate, q.left)
  }

  lemma {:induction false} FillIsPrefix(t: Tables, ostate: byte, cs: seq<ucs4>, room: nat)
    requires OutputState(ostate) && EncodeAll(t, ostate, cs).Some?
    ensures var p := Fill(t, ostate, cs, room);
            && EncodeAll(t, p.ostate, p.left).Some?
            && EncodeAll(t, ostate, cs).value == p.out + EncodeAll(t, p.ostate, p.left).value
    decreases |cs|
  {
    hide Wctomb;
    if cs != [] && room > 0 {
      RoomDoesNotMatter(t, ostate, cs[0], room);
      var r := Wctomb(t, ostate, cs[0], room);
      if r.Wrote? {
        FillIsPrefix(t, r.ostate, cs[1..], room - |r.bytes|);
        var p := Fill(t, r.ostate, cs[1..], room - |r.bytes|);
        HeldConcat(r.bytes, p.out, EncodeAll(t, p.ostate, p.left).value);
      }
    }
  }

  /** However the output is split over buffers, the bytes written so far and those still to come are the
      bytes of the whole text. */
  lemma {:induction false} SplittingDoesNotMatter(t: Tables, ostate: byte, cs: seq<ucs4>, rooms: seq<nat>)
    requires OutputState(ostate) && EncodeAll(t, ostate, cs).Some?
    ensures var p := FillAll(t, ostate, cs, rooms);
            && EncodeAll(t, p.ostate, p.left).Some?
            && EncodeAll(t, ostate, cs).value == p.out + EncodeAll(t, p.ostate, p.left).value
    decreases |rooms|
  {
    if rooms != [] {
      FillIsPrefix(t, ostate, cs, rooms[0]);
      hide Fill, EncodeAll;
      var p := Fill(t, ostate, cs, rooms[0]);
      SplittingDoesNotMatter(t, p.ostate, p.left, rooms[1..]);
      var q := FillAll(t, p.ostate, p.left, rooms[1..]);
      HeldConcat(p.out, q.out, EncodeAll(t, q.ostate, q.left).value);
    }
  }

  /** Likewise for the input: any answer but "too few" stands when more bytes arrive. */
  lemma DecodeStable(t: Tables, istate: ucs4, s: seq<byte>, more: seq<byte>)
    requires s != []
    ensures Mbtowc(t, istate, s) != TooFew ==> Mbtowc(t, istate, s + more) == Mbtowc(t, istate, s)
  {
  }
}
