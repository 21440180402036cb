/** Building, decoding and building again, and what the checksum notices. */
module EepromFixpoint {
  import opened Eeprom
  import opened EepromRoundTrip

  // ---------- one byte after the other ----------

  lemma JoinParts(l: bv8, h: bv8)
    ensures Low(Join(l, h)) == l && High(Join(l, h)) == h
  {
  }

  lemma PowerAgain(b: bv8)
    ensures Low(Half(2 * Int(b))) == b
  {
  }

  lemma Byte08Again(c: Common, d: Common)
    requires d.selfPowered == Bits(Byte08(c), 0x40) && d.remoteWakeup == Bits(Byte08(c), 0x20)
    ensures Byte08(d) == Byte08(c)
  {
  }

  lemma Byte0AAgain(t: ChipType, c: Common, d: Common)
    requires d.inIsochronous == Bits(Byte0A(t, c), 1) && d.outIsochronous == Bits(Byte0A(t, c), 2)
    requires d.suspendPullDowns == Bits(Byte0A(t, c), 4)
    requires d.useSerial == (if Byte0A(t, c) & 8 != 0 then 1 else 0) && d.useUsbVersion == Bits(Byte0A(t, c), 0x10)
    ensures Byte0A(t, d) == Byte0A(t, c)
  {
  }

  lemma DecodedB(t: ChipType, b: seq<bv8>, x: Special)
    requires |b| == BUFFER && |x.cbus| == CBUS
    ensures var y := DecodeChip(t, b, x);
            match t
            case C2232 => y.b.mode == Bits(b[1], 7) && y.b.driver == Bits(b[1], 8) && y.b.highCurrent == Bits(b[1], 0x10)
            case H2232 => y.b.mode == Mode(b[1]) && y.b.driver == Bits(b[1], 8) && y.suspendDbus7 == Bits(b[1], 0x80)
            case H4232 => y.b.driver == Bits(b[1], 8) && y.d.driver == Bits(Upper(b[1]), 8)
            case H232 => y.ft1284 == Ft1284(Bits(b[1], 1), Bits(b[1], 2), Bits(b[1], 4), Bits(b[1], 0x80))
            case _ => true
  {
    hide PinsOf, CbusOf, FiveCbus, FourGroups, Bits, Mode, Upper, Int;
  }

  lemma BitIs(v: bv8)
    ensures Bits(v, 8) == 8 <==> v & 8 != 0
    ensures Bits(v, 0x10) == 0x10 <==> v & 0x10 != 0
    ensures Bits(v, 0x80) == 0x80 <==> v & 0x80 != 0
  {
  }

  predicate IsMode(m: bv8) {
    m == 0 || m == 1 || m == 2 || m == 4
  }

  lemma ModeOfType(m: bv8, t: ChipType)
    ensures t == C2232 || t == H2232 ==> IsMode(Type2Bit(m, t))
  {
  }

  lemma ModeAgain(m: bv8, v: bv8, t: ChipType)
    requires (t == C2232 || t == H2232) && v & 7 == Type2Bit(m, t)
    ensures Type2Bit(Low(Mode(v)), t) == Type2Bit(m, t) && Type2Bit(Low(Bits(v, 7)), t) == Type2Bit(m, t)
  {
  }

  lemma PartsOfByte(m: bv8, p: bool, q: bool, bit: bv8)
    requires IsMode(m) && (bit == 0x10 || bit == 0x80)
    ensures var v := m | Flag(p, 8) | Flag(q, bit); v & 7 == m && (v & 8 != 0 <==> p) && (v & bit != 0 <==> q)
  {
  }

  lemma Byte01OfC2232(x: Special, y: Special, v: bv8)
    requires v == Byte01(C2232, x)
    requires y.b.mode == Bits(v, 7) && y.b.driver == Bits(v, 8) && y.b.highCurrent == Bits(v, 0x10)
    ensures Byte01(C2232, y) == v
  {
    hide Low, Type2Bit, Bits, Mode, Flag;
    var m := Type2Bit(Low(x.b.mode), C2232);
    BitIs(v);
    ModeOfType(Low(x.b.mode), C2232);
    PartsOfByte(m, x.b.driver == 8, x.b.highCurrent == 0x10, 0x10);
    ModeAgain(Low(x.b.mode), v, C2232);
  }

  lemma Byte01OfH2232(x: Special, y: Special, v: bv8)
    requires v == Byte01(H2232, x)
    requires y.b.mode == Mode(v) && y.b.driver == Bits(v, 8) && y.suspendDbus7 == Bits(v, 0x80)
    ensures Byte01(H2232, y) == v
  {
    hide Low, Type2Bit, Bits, Mode, Flag;
    var m := Type2Bit(Low(x.b.mode), H2232);
    BitIs(v);
    ModeOfType(Low(x.b.mode), H2232);
    PartsOfByte(m, x.b.driver == 8, x.suspendDbus7 == 0x80, 0x80);
    ModeAgain(Low(x.b.mode), v, H2232);
  }

  lemma DecodedA(t: ChipType, b: seq<bv8>, x: Special)
    requires |b| == BUFFER && |x.cbus| == CBUS
    ensures var y := DecodeChip(t, b, x);
            match t
            case C2232 => y.a.mode == Mode(b[0]) && y.a.driver == Bits(b[0], 8) && y.a.highCurrent == Bits(b[0], 0x10)
            case R => y.highCurrent == Bits(b[0], 4)
            case H2232 => y.a.mode == Mode(b[0]) && y.a.driver == Bits(b[0], 8)
            case H4232 => y.a.driver == Bits(b[0], 8) && y.c.driver == Bits(Upper(b[0]), 8)
            case H232 => y.a.mode == Bits(b[0], 0xf) && y.a.driver == if Bits(b[0], 0x10) != 0 then 8 else 0
            case _ => true
  {
    hide PinsOf, CbusOf, FiveCbus, FourGroups, Bits, Mode, Upper, Int;
  }

  lemma Byte00OfC2232(x: Special, y: Special, v: bv8)
    requires v == Byte00(C2232, x)
    requires y.a.mode == Mode(v) && y.a.driver == Bits(v, 8) && y.a.highCurrent == Bits(v, 0x10)
    ensures Byte00(C2232, y) == v
  {
    hide Low, Type2Bit, Bits, Mode, Flag;
    var m := Type2Bit(Low(x.a.mode), C2232);
    BitIs(v);
    ModeOfType(Low(x.a.mode), C2232);
    PartsOfByte(m, x.a.driver == 8, x.a.highCurrent == 0x10, 0x10);
    ModeAgain(Low(x.a.mode), v, C2232);
  }

  lemma Byte00OfH2232(x: Special, y: Special, v: bv8)
    requires v == Byte00(H2232, x)
    requires y.a.mode == Mode(v) && y.a.driver == Bits(v, 8)
    ensures Byte00(H2232, y) == v
  {
  }

  lemma H232Mode(mode: bv32, v: bv8)
    requires v & 0xf == Type2Bit(Low(mode), H232)
    ensures Type2Bit(Low(Bits(v, 0xf)), H232) == Type2Bit(Low(mode), H232)
  {
  }

  lemma H232Parts(m: bv8, p: bool)
    requires m <= 15
    ensures var v := m | Flag(p, 0x10); v & 0xf == m && (Bits(v, 0x10) != 0 <==> p)
  {
  }

  lemma H232ModeFits(mode: bv32)
    ensures Type2Bit(Low(mode), H232) <= 15
  {
  }

  lemma Byte00OfH232(x: Special, y: Special, v: bv8)
    requires v == Byte00(H232, x)
    requires y.a.mode == Bits(v, 0xf) && y.a.driver == if Bits(v, 0x10) != 0 then 8 else 0
    ensures Byte00(H232, y) == v
  {
    hide Low, Type2Bit, Bits, Flag;
    H232ModeFits(x.a.mode);
    H232Parts(Type2Bit(Low(x.a.mode), H232), x.a.driver == 8);
    H232Mode(x.a.mode, v);
  }

  lemma Byte00Again(t: ChipType, x: Special, b: seq<bv8>)
    requires |b| == BUFFER && |x.cbus| == CBUS && b[0] == Byte00(t, x)
    ensures Byte00(t, DecodeChip(t, b, x)) == b[0]
  {
    hide DecodeChip, Type2Bit, Mode, Low;
    DecodedA(t, b, x);
    var y := DecodeChip(t, b, x);
    match t
    case C2232 => Byte00OfC2232(x, y, b[0]);
    case H2232 => Byte00OfH2232(x, y, b[0]);
    case H232 => Byte00OfH232(x, y, b[0]);
    case _ =>
  }

  lemma Byte01Again(t: ChipType, x: Special, b: seq<bv8>)
    requires |b| == BUFFER && |x.cbus| == CBUS && b[1] == Byte01(t, x)
    ensures Byte01(t, DecodeChip(t, b, x)) == b[1]
  {
    DecodedB(t, b, x);
    hide DecodeChip;
    match t
    case C2232 =>
      hide Byte01;
      Byte01OfC2232(x, DecodeChip(t, b, x), b[1]);
    case H2232 =>
      hide Byte01;
      Byte01OfH2232(x, DecodeChip(t, b, x), b[1]);
    case _ =>
  }

  lemma Byte0BAgain(t: ChipType, x: Special, b: seq<bv8>)
    requires |b| == BUFFER && |x.cbus| == CBUS && b[0x0B] == Byte0B(t, x)
    ensures Byte0B(t, DecodeChip(t, b, x)) == b[0x0B]
  {
    hide PinsOf, CbusOf, FiveCbus;
  }

  lemma PinsAgain(b: bv8)
    ensures PinBits(PinsOf(b)) == b <==> b < 16
  {
  }

  function TwoGroups(b: bv8): bv8 {
    GroupByte(PinsOf(b), PinsOf(Upper(b)))
  }

  lemma TwoGroupsAgain(b: bv8)
    ensures TwoGroups(b) == b
  {
  }

  predicate NibblesAtMost(b: bv8, limit: bv8) {
    b & 0xf <= limit && (b >> 4) & 0xf <= limit
  }

  function Pair(b: bv8, limit: bv32, lo: bv8, hi: bv8): bv8 {
    CbusPair(Bits(b, 0xf), Bits(Upper(b), 0xf), limit, lo, hi)
  }

  lemma PairAgain(b: bv8, limit: bv8, lo: bv8, hi: bv8)
    requires lo <= limit && hi <= limit && limit < 16
    ensures Pair(b, Int(limit), lo, hi) == b <==> NibblesAtMost(b, limit)
  {
  }

  lemma SleepAgain(b: bv8)
    ensures Clamped(Bits(b, 0xf), 9, 5) == b <==> b <= 9
  {
  }

  lemma ChipAgain(b: bv8)
    ensures Low(Int(b)) == b && Int(b) != NO_CHIP
  {
  }

  // ---------- when a second build gives the same image ----------

  predicate PinsSettled(t: ChipType, x: Special) {
    t == H232 ==> PinBits(x.pins.group0) < 16 && PinBits(x.pins.group1) < 16
  }

  predicate CbusSettled(t: ChipType, x: Special)
    requires |x.cbus| == CBUS
  {
    && (t == R ==> NibblesAtMost(Tail(t, x)[0], 13) && NibblesAtMost(Tail(t, x)[1], 13) && Tail(t, x)[2] <= 9)
    && (t == H232 ==>
          && NibblesAtMost(CbusByte(x.cbus, 0), 12) && NibblesAtMost(CbusByte(x.cbus, 1), 12)
          && NibblesAtMost(CbusByte(x.cbus, 2), 12) && NibblesAtMost(CbusByte(x.cbus, 3), 12)
          && NibblesAtMost(CbusByte(x.cbus, 4), 12))
  }

  /** No value spilled over its place in the first build. */
  predicate Settled(t: ChipType, x: Special)
    requires |x.cbus| == CBUS
  {
    PinsSettled(t, x) && CbusSettled(t, x)
  }

  predicate NonNegative(v: bv32) {
    v < 0x8000_0000
  }

  lemma NonNegativePins(g: Pins)
    requires NonNegative(g.drive)
    ensures PinBits(g) < 16
  {
  }

  lemma NonNegativePair(u: bv32, v: bv32, limit: bv8, lo: bv8, hi: bv8)
    requires NonNegative(u) && NonNegative(v) && lo <= limit && hi <= limit && limit < 16
    ensures NibblesAtMost(CbusPair(u, v, Int(limit), lo, hi), limit)
  {
  }

  /** It never happens when drive strengths and CBUS functions are not negative. */
  lemma NonNegativeIsSettled(t: ChipType, x: Special)
    requires |x.cbus| == CBUS && NonNegative(x.pins.group0.drive) && NonNegative(x.pins.group1.drive)
    requires forall k :: 0 <= k < CBUS ==> NonNegative(x.cbus[k])
    ensures Settled(t, x)
  {
    NonNegativePins(x.pins.group0);
    NonNegativePins(x.pins.group1);
    hide NonNegative, NibblesAtMost, PinBits, CbusPair;
    if t == R {
      NonNegativePair(x.cbus[0], x.cbus[1], 13, 3, 2);
      NonNegativePair(x.cbus[2], x.cbus[3], 13, 0, 1);
    } else {
      NonNegativePair(x.cbus[0], x.cbus[1], 12, 0, 0);
      NonNegativePair(x.cbus[2], x.cbus[3], 12, 0, 0);
      NonNegativePair(x.cbus[4], x.cbus[5], 12, 0, 0);
      NonNegativePair(x.cbus[6], x.cbus[7], 12, 0, 0);
      NonNegativePair(x.cbus[8], x.cbus[9], 12, 0, 0);
    }
  }

  /** With a negative CBUS function it can: -1 fills the byte of both pins. */
  lemma NegativeCbusSpills(x: Special)
    requires |x.cbus| == CBUS && x.cbus[0] == 0xffff_ffff
    ensures !Settled(R, x)
  {
    hide Clamped;
    AllOnes(Clamped(x.cbus[1], 13, 2) << 4);
  }

  lemma AllOnes(b: bv8)
    ensures Clamped(0xffff_ffff, 13, 3) | b == 0xff && !NibblesAtMost(0xff, 13)
  {
  }

  lemma DecodedPins(t: ChipType, b: seq<bv8>, x: Special)
    requires |b| == BUFFER && |x.cbus| == CBUS
    ensures var y := DecodeChip(t, b, x);
            && (t == H232 ==> y.pins.group0 == PinsOf(b[0x0C]) && y.pins.group1 == PinsOf(b[0x0D]))
            && (t == H2232 || t == H4232 ==> y.pins == FourGroups(b))
  {
    hide PinsOf, CbusOf, Bits, Mode, FourGroups, FiveCbus;
  }

  lemma PinBytesAre(t: ChipType, b: seq<bv8>, x: Special, d: Common)
    requires |b| == BUFFER && |x.cbus| == CBUS
    ensures var y := DecodeChip(t, b, x);
            match t
            case AM => Byte0C(t, d, y) == 0 && Byte0D(t, d, y) == 0
            case BM | C2232 | R => Byte0C(t, d, y) == Low(d.usbVersion) && Byte0D(t, d, y) == High(d.usbVersion)
            case H2232 | H4232 =>
              && Byte0C(t, d, y) == TwoGroups(b[0x0C])
              && Byte0D(t, d, y) == TwoGroups(b[0x0D])
            case H232 => Byte0C(t, d, y) == PinBits(PinsOf(b[0x0C])) && Byte0D(t, d, y) == PinBits(PinsOf(b[0x0D]))
  {
    DecodedPins(t, b, x);
    hide DecodeChip, GroupByte, PinBits, PinsOf, Low, High, Upper;
  }

  lemma PinBytesAgain(t: ChipType, c: Common, x: Special, b: seq<bv8>, d: Common)
    requires |b| == BUFFER && |x.cbus| == CBUS && b[0x0C] == Byte0C(t, c, x) && b[0x0D] == Byte0D(t, c, x)
    requires d.usbVersion == Join(b[0x0C], b[0x0D])
    ensures var y := DecodeChip(t, b, x);
            Byte0C(t, d, y) == b[0x0C] && Byte0D(t, d, y) == b[0x0D] <==> PinsSettled(t, x)
  {
    PinBytesAre(t, b, x, d);
    JoinParts(b[0x0C], b[0x0D]);
    PinsAgain(b[0x0C]);
    PinsAgain(b[0x0D]);
    TwoGroupsAgain(b[0x0C]);
    TwoGroupsAgain(b[0x0D]);
    assert t == AM ==> b[0x0C] == 0 && b[0x0D] == 0;
    assert t == H232 ==> b[0x0C] == PinBits(x.pins.group0) && b[0x0D] == PinBits(x.pins.group1);
    hide DecodeChip, PinBits, PinsOf, Join, Low, High, Upper, TwoGroups, Byte0C, Byte0D;
  }

  lemma ChipInTail(t: ChipType, x: Special, b: seq<bv8>)
    requires |b| == BUFFER && |x.cbus| == CBUS && (t == C2232 || t == H2232 || t == H4232)
    ensures Low(DecodeChip(t, b, x).chip) == if t == C2232 then b[0x14] else b[0x18]
  {
    ChipAgain(b[0x14]);
    ChipAgain(b[0x18]);
    hide PinsOf, CbusOf, Bits, Mode, Low;
  }

  lemma TailAgain(t: ChipType, x: Special, b: seq<bv8>)
    requires |b| == BUFFER && |x.cbus| == CBUS && b[0x14..Start(t)] == Tail(t, x)
    ensures |DecodeChip(t, b, x).cbus| == CBUS
    ensures Tail(t, DecodeChip(t, b, x)) == Tail(t, x) <==> CbusSettled(t, x)
  {
    CbusKeepsLength(t, b, x);
    if t == R {
      RTailAgain(x, b);
    } else if t == H232 {
      H232TailAgain(x, b);
    } else if t == C2232 || t == H2232 || t == H4232 {
      ChipInTail(t, x, b);
      hide DecodeChip, Low;
      var tail := b[0x14..Start(t)];
      if t == C2232 {
        assert tail[0] == b[0x14];
      } else {
        assert tail[4] == b[0x18];
      }
    }
  }

  lemma RTailIs(x: Special, b: seq<bv8>)
    requires |b| == BUFFER && |x.cbus| == CBUS
    ensures |DecodeChip(R, b, x).cbus| == CBUS
    ensures Tail(R, DecodeChip(R, b, x)) == [Pair(b[0x14], 13, 3, 2), Pair(b[0x15], 13, 0, 1), Clamped(Bits(b[0x16], 0xf), 9, 5), 0]
  {
    hide Bits, Upper, Clamped, CbusPair;
  }

  lemma RTailAgain(x: Special, b: seq<bv8>)
    requires |b| == BUFFER && |x.cbus| == CBUS && b[0x14..0x18] == Tail(R, x)
    ensures |DecodeChip(R, b, x).cbus| == CBUS
    ensures Tail(R, DecodeChip(R, b, x)) == Tail(R, x) <==> CbusSettled(R, x)
  {
    RTailIs(x, b);
    PairAgain(b[0x14], 13, 3, 2);
    PairAgain(b[0x15], 13, 0, 1);
    SleepAgain(b[0x16]);
    FourBytes(b, Tail(R, x));
    assert Int(13) == 13;
    hide DecodeChip, Clamped, CbusPair, NibblesAtMost, Int, Pair;
  }

  lemma FourBytes(b: seq<bv8>, tail: seq<bv8>)
    requires |b| == BUFFER && b[0x14..0x18] == tail
    ensures tail == [b[0x14], b[0x15], b[0x16], b[0x17]]
  {
    assert tail[0] == b[0x14] && tail[1] == b[0x15] && tail[2] == b[0x16] && tail[3] == b[0x17];
  }

  lemma TwelveBytes(b: seq<bv8>, tail: seq<bv8>)
    requires |b| == BUFFER && b[0x14..0x20] == tail
    ensures tail == [b[0x14], b[0x15], b[0x16], b[0x17], b[0x18], b[0x19], b[0x1a], b[0x1b], b[0x1c], b[0x1d], b[0x1e], b[0x1f]]
  {
    var n := |tail|;
    assert n == 12;
    forall k | 0 <= k < n ensures tail[k] == b[0x14 + k] {
    }
  }

  lemma CbusBytesAgain(b: seq<bv8>)
    requires |b| == 5
    ensures var r := CbusOf(b);
            && CbusByte(r, 0) == Pair(b[0], 12, 0, 0) && CbusByte(r, 1) == Pair(b[1], 12, 0, 0)
            && CbusByte(r, 2) == Pair(b[2], 12, 0, 0) && CbusByte(r, 3) == Pair(b[3], 12, 0, 0)
            && CbusByte(r, 4) == Pair(b[4], 12, 0, 0)
  {
    hide CbusPair, Bits, Upper;
  }

  lemma H232TailIs(x: Special, b: seq<bv8>)
    requires |b| == BUFFER && |x.cbus| == CBUS
    ensures |DecodeChip(H232, b, x).cbus| == CBUS
    ensures Tail(H232, DecodeChip(H232, b, x)) ==
      [0, 0, 0, 0, Pair(b[0x18], 12, 0, 0), Pair(b[0x19], 12, 0, 0), Pair(b[0x1a], 12, 0, 0), Pair(b[0x1b], 12, 0, 0),
       Pair(b[0x1c], 12, 0, 0), 0, Low(Int(b[0x1e])), 0]
  {
    var five := b[0x18..0x1d];
    CbusBytesAgain(five);
    hide Bits, Upper, Pair, Low, Int, PinsOf, CbusOf, CbusByte;
    assert five[0] == b[0x18] && five[1] == b[0x19] && five[2] == b[0x1a] && five[3] == b[0x1b] && five[4] == b[0x1c];
  }

  lemma H232TailAgain(x: Special, b: seq<bv8>)
    requires |b| == BUFFER && |x.cbus| == CBUS && b[0x14..0x20] == Tail(H232, x)
    ensures |DecodeChip(H232, b, x).cbus| == CBUS
    ensures Tail(H232, DecodeChip(H232, b, x)) == Tail(H232, x) <==> CbusSettled(H232, x)
  {
    H232TailIs(x, b);
    PairAgain(b[0x18], 12, 0, 0);
    PairAgain(b[0x19], 12, 0, 0);
    PairAgain(b[0x1a], 12, 0, 0);
    PairAgain(b[0x1b], 12, 0, 0);
    PairAgain(b[0x1c], 12, 0, 0);
    ChipAgain(b[0x1e]);
    TwelveBytes(b, Tail(H232, x));
    assert Int(12) == 12;
    hide DecodeChip, Clamped, CbusPair, NibblesAtMost, Int, Pair, Low, CbusByte;
  }

  // ---------- the whole image ----------

  lemma FlagFields(b: seq<bv8>, size: int, isNotPnp: bv32)
    requires Readable(b, size)
    ensures var d := DecodeCommon(b, size, isNotPnp);
            && d.selfPowered == Bits(b[8], 0x40) && d.remoteWakeup == Bits(b[8], 0x20)
            && d.inIsochronous == Bits(b[0x0A], 1) && d.outIsochronous == Bits(b[0x0A], 2)
            && d.suspendPullDowns == Bits(b[0x0A], 4) && d.useSerial == (if b[0x0A] & 8 != 0 then 1 else 0)
            && d.useUsbVersion == Bits(b[0x0A], 0x10)
  {
    hide Bits, StringAt, Join, Readable;
  }

  lemma NumberFields(b: seq<bv8>, size: int, isNotPnp: bv32)
    requires Readable(b, size)
    ensures var d := DecodeCommon(b, size, isNotPnp);
            && d.vendorId == Join(b[2], b[3]) && d.productId == Join(b[4], b[5]) && d.releaseNumber == Join(b[6], b[7])
            && d.maxPower == 2 * Int(b[9]) && d.usbVersion == Join(b[0x0C], b[0x0D]) && d.isNotPnp == isNotPnp
  {
    hide Bits, StringAt, Join, Readable, Int;
  }

  lemma NumbersAgain(b: seq<bv8>, size: int, isNotPnp: bv32)
    requires Readable(b, size)
    ensures var d := DecodeCommon(b, size, isNotPnp);
            && Low(d.vendorId) == b[2] && High(d.vendorId) == b[3] && Low(d.productId) == b[4] && High(d.productId) == b[5]
            && Low(d.releaseNumber) == b[6] && High(d.releaseNumber) == b[7] && Low(Half(d.maxPower)) == b[9]
  {
    NumberFields(b, size, isNotPnp);
    JoinParts(b[2], b[3]);
    JoinParts(b[4], b[5]);
    JoinParts(b[6], b[7]);
    PowerAgain(b[9]);
    hide DecodeCommon, Low, High, Half, Join, Int, Readable;
  }

  lemma HeaderAgain(t: ChipType, c: Common, x: Special, b: seq<bv8>, size: int)
    requires Readable(b, size) && |x.cbus| == CBUS && b[..0x0E] == Header(t, c, x)
    ensures var d, y := DecodeCommon(b, size, c.isNotPnp), DecodeChip(t, b, x);
            Header(t, d, y) == Header(t, c, x) <==> PinsSettled(t, x)
  {
    var d, y := DecodeCommon(b, size, c.isNotPnp), DecodeChip(t, b, x);
    HeaderBytes(t, c, x, b);
    assert |b| == BUFFER;
    hide *;
    Byte00Again(t, x, b);
    Byte01Again(t, x, b);
    Byte0BAgain(t, x, b);
    FlagFields(b, size, c.isNotPnp);
    Byte08Again(c, d);
    Byte0AAgain(t, c, d);
    NumberFields(b, size, c.isNotPnp);
    NumbersAgain(b, size, c.isNotPnp);
    PinBytesAgain(t, c, x, b, d);
    SameHeader(t, d, y, b);
  }

  lemma SameHeader(t: ChipType, d: Common, y: Special, b: seq<bv8>)
    requires |b| == BUFFER
    requires Byte00(t, y) == b[0] && Byte01(t, y) == b[1] && Low(d.vendorId) == b[2] && High(d.vendorId) == b[3]
    requires Low(d.productId) == b[4] && High(d.productId) == b[5] && Low(d.releaseNumber) == b[6]
    requires High(d.releaseNumber) == b[7] && Byte08(d) == b[8] && Low(Half(d.maxPower)) == b[9]
    requires Byte0A(t, d) == b[0x0A] && Byte0B(t, y) == b[0x0B]
    ensures Header(t, d, y) == b[..0x0E] <==> Byte0C(t, d, y) == b[0x0C] && Byte0D(t, d, y) == b[0x0D]
  {
    hide Byte00, Byte01, Byte08, Byte0A, Byte0B, Byte0C, Byte0D, Low, High, Half;
    var h, g := Header(t, d, y), b[..0x0E];
    assert h[0x0C] == Byte0C(t, d, y) && h[0x0D] == Byte0D(t, d, y) && g[0x0C] == b[0x0C] && g[0x0D] == b[0x0D];
  }

  lemma TextAgain(s: Option<seq<bv8>>)
    ensures Text(Some(Text(s))) == Text(s)
  {
    StoredText(s);
  }

  lemma SameTexts(t: ChipType, c: Common, d: Common)
    requires Text(d.manufacturer) == Text(c.manufacturer) && Text(d.product) == Text(c.product)
    requires Text(d.serial) == Text(c.serial) && d.isNotPnp == c.isNotPnp
    ensures StringArea(t, d) == StringArea(t, c) && Directory(t, d) == Directory(t, c) && UserArea(t, d) == UserArea(t, c)
  {
    hide Text, Descriptor, ToByte, Start;
  }

  /** The settings that decoding a built image leaves on the context it was built from */
  function Reread(t: ChipType, e: Settings, size: int): Settings
    requires WellFormed(e) && IsSize(size) && BuildCode(t, e) >= 0
  {
    StringsComeBack(t, e, size);
    Decode(t, Image(t, e, size), size, e).e
  }

  lemma RereadIs(t: ChipType, e: Settings, size: int)
    requires WellFormed(e) && IsSize(size) && BuildCode(t, e) >= 0
    ensures Readable(Image(t, e, size), size)
    ensures Reread(t, e, size) == Settings(DecodeCommon(Image(t, e, size), size, e.common.isNotPnp), DecodeChip(t, Image(t, e, size), e.special))
  {
    StringsComeBack(t, e, size);
    ImageChecks(t, e, size);
    hide Image, ChecksumHolds, Readable, DecodeCommon, DecodeChip;
  }

  lemma RereadTexts(t: ChipType, e: Settings, size: int)
    requires WellFormed(e) && IsSize(size) && BuildCode(t, e) >= 0
    ensures var d, c := Reread(t, e, size).common, e.common;
            StringArea(t, d) == StringArea(t, c) && Directory(t, d) == Directory(t, c) && UserArea(t, d) == UserArea(t, c)
  {
    var d, c := Reread(t, e, size).common, e.common;
    RereadIs(t, e, size);
    StringsComeBack(t, e, size);
    TextAgain(c.manufacturer);
    TextAgain(c.product);
    TextAgain(c.serial);
    assert d.manufacturer == Some(Text(c.manufacturer)) && d.product == Some(Text(c.product))
      && d.serial == Some(Text(c.serial)) && d.isNotPnp == c.isNotPnp by {
      hide StringAt, Image, Text, Readable, DecodeChip, Join, Bits, Int, Reread;
    }
    hide *;
    SameTexts(t, c, d);
  }

  lemma SameConfig(t: ChipType, e: Settings, f: Settings)
    requires |e.special.cbus| == CBUS && |f.special.cbus| == CBUS && Directory(t, e.common) == Directory(t, f.common)
    ensures Config(t, e) == Config(t, f) <==>
            Header(t, e.common, e.special) == Header(t, f.common, f.special) && Tail(t, e.special) == Tail(t, f.special)
  {
    var h, d, k := Header(t, e.common, e.special), Directory(t, e.common), Tail(t, e.special);
    var h', k' := Header(t, f.common, f.special), Tail(t, f.special);
    assert |h| == 14 && |h'| == 14 && |d| == 6 && |k| == |k'|;
    assert Config(t, e) == h + d + k && Config(t, f) == h' + d + k';
    hide *;
    Split(h, d, k);
    Split(h', d, k');
  }

  lemma Split<T>(a: seq<T>, b: seq<T>, c: seq<T>)
    ensures (a + b + c)[..|a|] == a && (a + b + c)[|a| + |b|..] == c
  {
  }

  lemma TailInImage(t: ChipType, e: Settings, b: seq<bv8>)
    requires |e.special.cbus| == CBUS && |b| == BUFFER && |Config(t, e)| == Start(t) && b[..Start(t)] == Config(t, e)
    ensures b[0x14..Start(t)] == Tail(t, e.special)
  {
    var h, d, k := Header(t, e.common, e.special), Directory(t, e.common), Tail(t, e.special);
    assert |h| == 14 && |d| == 6 && Config(t, e) == h + d + k;
    hide *;
    Split(h, d, k);
    SliceOfSlice(b, 0, Start(t), 0x14, Start(t));
  }

  lemma ConfigAgain(t: ChipType, e: Settings, size: int)
    requires WellFormed(e) && IsSize(size) && BuildCode(t, e) >= 0
    ensures var f := Reread(t, e, size);
            |f.special.cbus| == CBUS && (Config(t, f) == Config(t, e) <==> Settled(t, e.special))
  {
    var f, im := Reread(t, e, size), Image(t, e, size);
    RereadIs(t, e, size);
    RereadTexts(t, e, size);
    ImageParts(t, e, size);
    assert Settled(t, e.special) <==> PinsSettled(t, e.special) && CbusSettled(t, e.special);
    hide *;
    HeaderAndDirectory(t, e, im);
    TailInImage(t, e, im);
    HeaderAgain(t, e.common, e.special, im, size);
    TailAgain(t, e.special, im);
    SameConfig(t, e, f);
  }

  lemma SameImage(t: ChipType, e: Settings, f: Settings, size: int)
    requires |e.special.cbus| == CBUS && |f.special.cbus| == CBUS && IsSize(size)
    requires UserArea(t, e.common) >= 0 && UserArea(t, f.common) >= 0
    requires StringArea(t, e.common) == StringArea(t, f.common)
    ensures Image(t, e, size) == Image(t, f, size) <==> Config(t, e) == Config(t, f)
  {
    ImageParts(t, e, size);
    ImageParts(t, f, size);
    ImageIs(t, e, size);
    ImageIs(t, f, size);
    hide *;
  }

  lemma ChipIsKnown(t: ChipType, b: seq<bv8>, x: Special)
    requires |b| == BUFFER && |x.cbus| == CBUS
    ensures DecodeChip(t, b, x).chip == NO_CHIP <==> t == AM || t == BM
  {
    ChipAgain(b[0x14]);
    ChipAgain(b[0x16]);
    ChipAgain(b[0x18]);
    ChipAgain(b[0x1e]);
    hide Bits, Mode, PinsOf, Int, FourGroups, FiveCbus, CbusOf;
  }

  /** Build, decode, build: the second build succeeds with the same size for every chip later than BM,
      and its image is the same, byte for byte, exactly when the settings were settled. */
  lemma BuildAgain(t: ChipType, e: Settings, size: int)
    requires WellFormed(e) && IsSize(size) && BuildCode(t, e) >= 0 && t != AM && t != BM
    ensures var f := Reread(t, e, size);
            && |f.special.cbus| == CBUS && BuildCode(t, f) == BuildCode(t, e) && SizeFor(f, size) == size
            && UserArea(t, f.common) >= 0
            && (Image(t, f, size) == Image(t, e, size) <==> Settled(t, e.special))
  {
    var f, im := Reread(t, e, size), Image(t, e, size);
    RereadIs(t, e, size);
    RereadTexts(t, e, size);
    ConfigAgain(t, e, size);
    ImageParts(t, e, size);
    ChipIsKnown(t, im, e.special);
    hide Image, Config, Reread, Readable, DecodeCommon, DecodeChip, StringArea, Directory, UserArea, Settled, Start;
    SameImage(t, e, f, size);
  }

  /** On AM and BM chips decoding forgets the kind of EEPROM, and the next build refuses. */
  lemma NoSecondBuildOnOldChips(t: ChipType, e: Settings, size: int)
    requires WellFormed(e) && IsSize(size) && BuildCode(t, e) >= 0 && (t == AM || t == BM)
    ensures BuildCode(t, Reread(t, e, size)) == -6
  {
    RereadIs(t, e, size);
    hide Image, Reread, DecodeCommon;
  }

  // ---------- what the checksum notices ----------

  lemma RotateIsInjective(x: bv16, y: bv16)
    ensures Rotate(x) == Rotate(y) <==> x == y
  {
  }

  lemma XorIsInjective(x: bv16, y: bv16, v: bv16, w: bv16)
    requires x == y || v == w
    ensures x ^ v == y ^ w <==> x == y && v == w
  {
  }

  lemma {:induction false} OneWordChangesTheSum(b: seq<bv8>, c: seq<bv8>, n: nat, k: nat)
    requires 2 * n <= |b| && |b| == |c| && 2 * k + 1 < |b| && Word(b, k) != Word(c, k)
    requires forall i :: 0 <= i < n && i != k ==> Word(b, i) == Word(c, i)
    ensures Checksum(b, n) == Checksum(c, n) <==> n <= k
  {
    if n > 0 {
      OneWordChangesTheSum(b, c, n - 1, k);
      hide Word, Rotate;
      var x, y := Checksum(b, n - 1), Checksum(c, n - 1);
      XorIsInjective(x, y, Word(b, n - 1), Word(c, n - 1));
      RotateIsInjective(x ^ Word(b, n - 1), y ^ Word(c, n - 1));
    }
  }

  /** A change within one 16-bit word, be it that of the checksum, never goes unnoticed. */
  lemma OneWordIsNoticed(b: seq<bv8>, c: seq<bv8>, size: int, k: nat)
    requires |b| == BUFFER && |c| == BUFFER && IsSize(size) && ChecksumHolds(b, size)
    requires k < size / 2 && Word(b, k) != Word(c, k)
    requires forall i :: 0 <= i < size / 2 && i != k ==> Word(b, i) == Word(c, i)
    ensures !ChecksumHolds(c, size)
  {
    OneWordChangesTheSum(b, c, size / 2 - 1, k);
    hide Word, Checksum;
  }

  /** What decoding says of any readable buffer: it refuses exactly if the stored word is not the checksum of
      the words before it, and then leaves the fields of the particular chip as they were. */
  lemma DecodeVerdict(t: ChipType, b: seq<bv8>, size: int, e: Settings)
    requires Readable(b, size) && |e.special.cbus| == CBUS
    ensures var r := Decode(t, b, size, e);
            && r.code == (if Word(b, size / 2 - 1) == Checksum(b, size / 2 - 1) then 0 else -1)
            && (r.code == -1 ==> r.e.special == e.special)
  {
    hide Word, Checksum, DecodeChip, DecodeCommon, Readable;
  }

  /** A built image in which one word was changed, be it the checksum, is refused. */
  lemma ChangedWordIsRefused(t: ChipType, e: Settings, size: int, c: seq<bv8>, k: nat, other: Settings)
    requires WellFormed(e) && WellFormed(other) && IsSize(size) && BuildCode(t, e) >= 0 && Readable(c, size)
    requires k < size / 2 && Word(c, k) != Word(Image(t, e, size), k)
    requires forall i :: 0 <= i < size / 2 && i != k ==> Word(c, i) == Word(Image(t, e, size), i)
    ensures Decode(t, c, size, other).code == -1 && Decode(t, c, size, other).e.special == other.special
  {
    hide Image, Word, Checksum, Readable, Decode, ChecksumHolds;
    ImageChecks(t, e, size);
    ReadableLength(c, size);
    OneWordIsNoticed(Image(t, e, size), c, size, k);
    NotHeld(c, size);
    DecodeVerdict(t, c, size, other);
  }

  lemma ReadableLength(b: seq<bv8>, size: int)
    requires Readable(b, size)
    ensures |b| == BUFFER
  {
  }

  lemma NotHeld(b: seq<bv8>, size: int)
    requires |b| == BUFFER && IsSize(size)
    ensures ChecksumHolds(b, size) <==> Word(b, size / 2 - 1) == Checksum(b, size / 2 - 1)
  {
    hide Word, Checksum;
  }

  // ---------- the checksum in closed form ----------

  /** Doubled, with the bit that falls out at the top put in at the bottom */
  function Doubled(x: bv16): bv16 {
    if x < 0x8000 then x + x else x + x + 1
  }

  /** Rotated left by `k` */
  function Turned(x: bv16, k: nat): bv16 {
    if k == 0 then x else Doubled(Turned(x, k - 1))
  }

  /** The number with this lower and this upper byte */
  function TwoBytes(low: bv8, high: bv8): bv16 {
    low as bv16 + 0x100 * (high as bv16)
  }

  function Xor(x: bv16, y: bv16): bv16 {
    x ^ y
  }

  /** All words together, each rotated once for itself and once for every word after it. */
  function Folded(b: seq<bv8>, n: nat, total: nat): bv16
    requires 2 * n <= |b| && n <= total
  {
    if n == 0 then Turned(0xAAAA, total)
    else Xor(Folded(b, n - 1, total), Turned(TwoBytes(b[2 * n - 2], b[2 * n - 1]), total - (n - 1)))
  }

  lemma RotateIs(x: bv16)
    ensures Rotate(x) == Doubled(x)
  {
    if x < 0x8000 {
      assert x >> 15 == 0;
    } else {
      assert x >> 15 == 1;
    }
  }

  lemma DoubledXor(x: bv16, y: bv16)
    ensures Doubled(Xor(x, y)) == Xor(Doubled(x), Doubled(y))
  {
    hide Doubled;
    RotateIs(x);
    RotateIs(y);
    RotateIs(x ^ y);
    RotateXor(x, y);
  }

  lemma RotateXor(x: bv16, y: bv16)
    ensures Rotate(x ^ y) == Rotate(x) ^ Rotate(y)
  {
  }

  lemma WordIs(b: seq<bv8>, i: nat)
    requires 2 * i + 1 < |b|
    ensures Word(b, i) == TwoBytes(b[2 * i], b[2 * i + 1])
  {
  }

  lemma TurnedOnce(x: bv16, k: nat)
    ensures Turned(x, k + 1) == Doubled(Turned(x, k)) && Turned(x, 0) == x
  {
    hide Doubled;
  }

  lemma {:induction false} FoldedOnceMore(b: seq<bv8>, n: nat, total: nat)
    requires 2 * n <= |b| && n <= total
    ensures Folded(b, n, total + 1) == Doubled(Folded(b, n, total))
  {
    hide Doubled, TwoBytes, Turned, Xor;
    if n == 0 {
      TurnedOnce(0xAAAA, total);
    } else {
      var w, k := TwoBytes(b[2 * n - 2], b[2 * n - 1]), total - (n - 1);
      FoldedOnceMore(b, n - 1, total);
      TurnedOnce(w, k);
      DoubledXor(Folded(b, n - 1, total), Turned(w, k));
    }
  }

  lemma ChecksumStart(b: seq<bv8>)
    ensures Checksum(b, 0) == 0xAAAA
  {
  }

  lemma ChecksumStep(b: seq<bv8>, n: nat)
    requires 0 < n && 2 * n <= |b|
    ensures Checksum(b, n) == Rotate(Xor(Checksum(b, n - 1), Word(b, n - 1)))
  {
    hide Word, Rotate;
  }

  /** The checksum, word by word with the lower byte first: 0xAAAA and all words, rotated by their distance
      from the end, taken together bit by bit. */
  lemma {:induction false} ChecksumIs(b: seq<bv8>, n: nat)
    requires 2 * n <= |b|
    ensures Checksum(b, n) == Folded(b, n, n)
  {
    hide Rotate, Doubled, TwoBytes, Word, Turned, Xor, Checksum;
    TurnedOnce(0xAAAA, 0);
    if n == 0 {
      ChecksumStart(b);
    } else {
      var w := TwoBytes(b[2 * n - 2], b[2 * n - 1]);
      ChecksumIs(b, n - 1);
      WordIs(b, n - 1);
      FoldedOnceMore(b, n - 1, n - 1);
      ChecksumStep(b, n);
      RotateIs(Xor(Checksum(b, n - 1), w));
      DoubledXor(Checksum(b, n - 1), w);
      TurnedOnce(w, 0);
    }
  }
}
