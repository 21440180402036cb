/** The layout of the EEPROM image bit by bit, as the data sheets give it: which bit of which byte says what
    about the settings. */
module EepromSheet {
  import opened Eeprom
  import opened EepromRoundTrip
  import opened EepromFixpoint

  predicate Bit(v: bv8, mask: bv8, on: bool) {
    v & mask != 0 <==> on
  }

  /** The bits of a channel mode: FIFO, opto-isolated, CPU and, on a 232H only, FT1284; none for UART. */
  predicate ModeIn(v: bv8, mode: bv32, t: ChipType) {
    var m, bits := mode & 0xff, (v & (if t == H232 then 0xf else 7)) as bv32;
    bits == if m == 1 || m == 2 || m == 4 || (m == 8 && t == H232) then m else 0
  }

  /** The low byte of a number */
  predicate ByteSheet(v: bv8, x: bv32) {
    v as bv32 == x & 0xff
  }

  predicate Sheet00(t: ChipType, x: Special, v: bv8) {
    match t
    case AM | BM => v == 0
    case C2232 => ModeIn(v, x.a.mode, t) && Bit(v, 8, x.a.driver == 8) && Bit(v, 0x10, x.a.highCurrent == 0x10) && v & 0xe0 == 0
    case R => Bit(v, 4, x.highCurrent == 4) && v & 0xfb == 0
    case H2232 => ModeIn(v, x.a.mode, t) && Bit(v, 8, x.a.driver == 8) && v & 0xf0 == 0
    case H4232 => Bit(v, 8, x.a.driver == 8) && Bit(v, 0x80, x.c.driver == 8) && v & 0x77 == 0
    case H232 => ModeIn(v, x.a.mode, t) && Bit(v, 0x10, x.a.driver == 8) && v & 0xe0 == 0
  }

  predicate Sheet01(t: ChipType, x: Special, v: bv8) {
    match t
    case AM | BM => v == 0
    case C2232 => ModeIn(v, x.b.mode, t) && Bit(v, 8, x.b.driver == 8) && Bit(v, 0x10, x.b.highCurrent == 0x10) && v & 0xe0 == 0
    case R => v == 0x40
    case H2232 => ModeIn(v, x.b.mode, t) && Bit(v, 8, x.b.driver == 8) && Bit(v, 0x80, x.suspendDbus7 == 0x80) && v & 0x70 == 0
    case H4232 => Bit(v, 8, x.b.driver == 8) && Bit(v, 0x80, x.d.driver == 8) && v & 0x77 == 0
    case H232 =>
      && Bit(v, 1, x.ft1284.clockPolarity != 0) && Bit(v, 2, x.ft1284.dataOrder != 0)
      && Bit(v, 4, x.ft1284.flowControl != 0) && Bit(v, 0x80, x.ft1284.powersave != 0) && v & 0x78 == 0
  }

  predicate Sheet08(c: Common, v: bv8) {
    Bit(v, 0x80, true) && Bit(v, 0x40, c.selfPowered != 0) && Bit(v, 0x20, c.remoteWakeup != 0) && v & 0x1f == 0
  }

  predicate Sheet0A(t: ChipType, c: Common, v: bv8) {
    && Bit(v, 1, t != AM && c.inIsochronous != 0) && Bit(v, 2, t != AM && c.outIsochronous != 0)
    && Bit(v, 4, t != AM && t != BM && c.suspendPullDowns != 0) && Bit(v, 8, t != AM && c.useSerial != 0)
    && Bit(v, 0x10, (t == BM || t == C2232) && c.useUsbVersion == 0x10) && v & 0xe0 == 0
  }

  predicate Sheet0B(t: ChipType, x: Special, v: bv8) {
    match t
    case R => ByteSheet(v, x.invert)
    case H4232 =>
      && Bit(v, 0x10, x.a.rs485 != 0) && Bit(v, 0x20, x.b.rs485 != 0) && Bit(v, 0x40, x.c.rs485 != 0)
      && Bit(v, 0x80, x.d.rs485 != 0) && v & 0xf == 0
    case _ => v == 0
  }

  /** Four bits for a group of pins: the drive strength, at most 3, slow slew and Schmitt trigger */
  predicate PinSheet(v: bv8, g: Pins) {
    g.drive < 0x8000_0000 ==>
      && (v & 3) as bv32 == (if g.drive > 3 then 3 else g.drive)
      && Bit(v, 4, g.slew == 4) && Bit(v, 8, g.schmitt == 8)
  }

  /** Two groups in one byte; a negative drive strength would spill over. */
  predicate GroupSheet(v: bv8, g: Pins, h: Pins) {
    g.drive < 0x8000_0000 && h.drive < 0x8000_0000 ==> PinSheet(v, g) && PinSheet(v >> 4, h)
  }

  /** A 16-bit number, lower byte first */
  predicate WordSheet(v: bv8, w: bv8, x: bv32) {
    v as bv32 + 0x100 * (w as bv32) == x & 0xffff
  }

  predicate PinsSheet(t: ChipType, c: Common, x: Special, v: bv8, w: bv8) {
    match t
    case AM => v == 0 && w == 0
    case BM | C2232 | R => WordSheet(v, w, c.usbVersion)
    case H2232 | H4232 => GroupSheet(v, x.pins.group0, x.pins.group1) && GroupSheet(w, x.pins.group2, x.pins.group3)
    case H232 => PinSheet(v, x.pins.group0) && PinSheet(w, x.pins.group1)
  }

  // ---------- the bytes follow the sheet ----------

  lemma ModeFollows(mode: bv32, t: ChipType)
    ensures t == C2232 || t == H2232 || t == H232 ==> ModeIn(Type2Bit(Low(mode), t), mode, t)
    ensures t == C2232 || t == H2232 ==> Type2Bit(Low(mode), t) <= 7
    ensures Type2Bit(Low(mode), t) <= 15
  {
  }

  lemma ModeAndBits(m: bv8, mode: bv32, t: ChipType, p: bool, q: bool)
    requires ModeIn(m, mode, t) && (t == C2232 || t == H2232) && m <= 7
    ensures ModeIn(m | Flag(p, 8) | Flag(q, 0x10), mode, t) && ModeIn(m | Flag(p, 8) | Flag(q, 0x80), mode, t)
    ensures ModeIn(m | Flag(p, 8), mode, t)
  {
  }

  lemma TwoBitsSet(m: bv8, p: bool, q: bool)
    requires m <= 7
    ensures var v := m | Flag(p, 8) | Flag(q, 0x10); Bit(v, 8, p) && Bit(v, 0x10, q) && v & 0xe0 == 0
    ensures var v := m | Flag(p, 8) | Flag(q, 0x80); Bit(v, 8, p) && Bit(v, 0x80, q) && v & 0x70 == 0
    ensures var v := m | Flag(p, 8); Bit(v, 8, p) && v & 0xf0 == 0
  {
  }

  lemma ModeAndHighBit(m: bv8, mode: bv32, p: bool)
    requires ModeIn(m, mode, H232) && m <= 15
    ensures var v := m | Flag(p, 0x10); ModeIn(v, mode, H232) && Bit(v, 0x10, p) && v & 0xe0 == 0
  {
  }

  lemma TwoFlagsSet(p: bool, q: bool, r: bool)
    ensures var v := Flag(p, 8) | Flag(q, 0x80); Bit(v, 8, p) && Bit(v, 0x80, q) && v & 0x77 == 0
    ensures Bit(Flag(r, 4), 4, r) && Flag(r, 4) & 0xfb == 0
  {
  }

  lemma Follows00(t: ChipType, x: Special)
    ensures Sheet00(t, x, Byte00(t, x))
  {
    hide Type2Bit, Low, ModeIn, Bit;
    var m := Type2Bit(Low(x.a.mode), t);
    ModeFollows(x.a.mode, t);
    TwoFlagsSet(x.a.driver == 8, x.c.driver == 8, x.highCurrent == 4);
    match t
    case C2232 =>
      ModeAndBits(m, x.a.mode, t, x.a.driver == 8, x.a.highCurrent == 0x10);
      TwoBitsSet(m, x.a.driver == 8, x.a.highCurrent == 0x10);
    case H2232 =>
      ModeAndBits(m, x.a.mode, t, x.a.driver == 8, false);
      TwoBitsSet(m, x.a.driver == 8, false);
    case H232 => ModeAndHighBit(m, x.a.mode, x.a.driver == 8);
    case _ =>
  }

  lemma FollowsTwo(t: ChipType, x: Special)
    requires t == C2232 || t == H2232
    ensures Sheet01(t, x, Byte01(t, x))
  {
    hide Type2Bit, Low, ModeIn, Flag, Bit;
    var m := Type2Bit(Low(x.b.mode), t);
    ModeFollows(x.b.mode, t);
    ModeAndBits(m, x.b.mode, t, x.b.driver == 8, if t == C2232 then x.b.highCurrent == 0x10 else x.suspendDbus7 == 0x80);
    TwoBitsSet(m, x.b.driver == 8, if t == C2232 then x.b.highCurrent == 0x10 else x.suspendDbus7 == 0x80);
  }

  lemma FollowsOther(t: ChipType, x: Special)
    requires t != C2232 && t != H2232
    ensures Sheet01(t, x, Byte01(t, x))
  {
    hide Type2Bit, Low, ModeIn;
  }

  lemma Follows01(t: ChipType, x: Special)
    ensures Sheet01(t, x, Byte01(t, x))
  {
    hide Sheet01, Byte01;
    if t == C2232 || t == H2232 {
      FollowsTwo(t, x);
    } else {
      FollowsOther(t, x);
    }
  }

  lemma Follows08(c: Common)
    ensures Sheet08(c, Byte08(c))
  {
  }

  lemma Follows0A(t: ChipType, c: Common)
    ensures Sheet0A(t, c, Byte0A(t, c))
  {
  }

  lemma Follows0B(t: ChipType, x: Special)
    ensures Sheet0B(t, x, Byte0B(t, x))
  {
  }

  lemma PinFollows(g: Pins)
    ensures PinSheet(PinBits(g), g) && (g.drive < 0x8000_0000 ==> PinBits(g) <= 15)
  {
  }

  lemma TwoPinsFollow(v: bv8, w: bv8, g: Pins, h: Pins)
    requires v <= 15 && w <= 15 && PinSheet(v, g) && PinSheet(w, h)
    ensures PinSheet(v | (w << 4), g) && PinSheet((v | (w << 4)) >> 4, h)
  {
    assert (v | (w << 4)) & 0xf == v && (v | (w << 4)) >> 4 == w;
    Nibble(v | (w << 4), v, g);
  }

  lemma Nibble(v: bv8, w: bv8, g: Pins)
    requires v & 0xf == w && PinSheet(w, g)
    ensures PinSheet(v, g)
  {
    assert v & 3 == w & 3 && v & 4 == w & 4 && v & 8 == w & 8;
  }

  lemma WordFollows(x: bv32)
    ensures WordSheet(Low(x), High(x), x)
  {
  }

  lemma GroupFollows(g: Pins, h: Pins)
    ensures GroupSheet(GroupByte(g, h), g, h)
  {
    hide PinBits, PinSheet;
    PinFollows(g);
    PinFollows(h);
    if g.drive < 0x8000_0000 && h.drive < 0x8000_0000 {
      TwoPinsFollow(PinBits(g), PinBits(h), g, h);
    }
  }

  lemma FollowsPins(t: ChipType, c: Common, x: Special)
    ensures PinsSheet(t, c, x, Byte0C(t, c, x), Byte0D(t, c, x))
  {
    hide PinBits, PinSheet, GroupSheet, WordSheet, Low, High, GroupByte;
    WordFollows(c.usbVersion);
    GroupFollows(x.pins.group0, x.pins.group1);
    GroupFollows(x.pins.group2, x.pins.group3);
    PinFollows(x.pins.group0);
    PinFollows(x.pins.group1);
  }

  // ---------- the tail ----------

  /** A pin function in four bits, or a default when the chip has no such function. */
  predicate CbusSheet(bits: bv8, x: bv32, limit: bv32, otherwise: bv8) {
    x < 0x8000_0000 ==> bits as bv32 == if x > limit then otherwise as bv32 else x
  }

  predicate CbusPairSheet(v: bv8, x: bv32, y: bv32, limit: bv32, lo: bv8, hi: bv8) {
    x < 0x8000_0000 && y < 0x8000_0000 ==> CbusSheet(v & 0xf, x, limit, lo) && CbusSheet(v >> 4, y, limit, hi)
  }

  predicate TailSheet(t: ChipType, x: Special, im: seq<bv8>)
    requires |im| == BUFFER && |x.cbus| == CBUS
  {
    match t
    case AM | BM => true
    case C2232 => ByteSheet(im[0x14], x.chip)
    case R =>
      && CbusPairSheet(im[0x14], x.cbus[0], x.cbus[1], 13, 3, 2) && CbusPairSheet(im[0x15], x.cbus[2], x.cbus[3], 13, 0, 1)
      && CbusSheet(im[0x16], x.cbus[4], 9, 5)
    case H2232 | H4232 => ByteSheet(im[0x18], x.chip)
    case H232 =>
      && CbusPairSheet(im[0x18], x.cbus[0], x.cbus[1], 12, 0, 0) && CbusPairSheet(im[0x19], x.cbus[2], x.cbus[3], 12, 0, 0)
      && CbusPairSheet(im[0x1a], x.cbus[4], x.cbus[5], 12, 0, 0) && CbusPairSheet(im[0x1b], x.cbus[6], x.cbus[7], 12, 0, 0)
      && CbusPairSheet(im[0x1c], x.cbus[8], x.cbus[9], 12, 0, 0) && ByteSheet(im[0x1e], x.chip)
  }

  lemma PairFollows(x: bv32, y: bv32, limit: bv32, lo: bv8, hi: bv8)
    requires lo < 16 && hi < 16 && limit < 16
    ensures CbusPairSheet(CbusPair(x, y, limit, lo, hi), x, y, limit, lo, hi)
  {
  }

  lemma SleepFollows(x: bv32)
    ensures CbusSheet(Clamped(x, 9, 5), x, 9, 5)
  {
  }

  lemma LowFollows(x: bv32)
    ensures ByteSheet(Low(x), x)
  {
  }

  lemma TailFollowsR(x: Special, im: seq<bv8>)
    requires |im| == BUFFER && |x.cbus| == CBUS && im[0x14..0x18] == Tail(R, x)
    ensures TailSheet(R, x, im)
  {
    hide CbusPairSheet, CbusSheet, CbusPair, Clamped;
    FourBytes(im, Tail(R, x));
    PairFollows(x.cbus[0], x.cbus[1], 13, 3, 2);
    PairFollows(x.cbus[2], x.cbus[3], 13, 0, 1);
    SleepFollows(x.cbus[4]);
  }

  lemma TailFollowsH232(x: Special, im: seq<bv8>)
    requires |im| == BUFFER && |x.cbus| == CBUS && im[0x14..0x20] == Tail(H232, x)
    ensures TailSheet(H232, x, im)
  {
    hide CbusPairSheet, CbusPair, Low, ByteSheet;
    TwelveBytes(im, Tail(H232, x));
    LowFollows(x.chip);
    PairFollows(x.cbus[0], x.cbus[1], 12, 0, 0);
    PairFollows(x.cbus[2], x.cbus[3], 12, 0, 0);
    PairFollows(x.cbus[4], x.cbus[5], 12, 0, 0);
    PairFollows(x.cbus[6], x.cbus[7], 12, 0, 0);
    PairFollows(x.cbus[8], x.cbus[9], 12, 0, 0);
  }

  lemma TailFollows(t: ChipType, x: Special, im: seq<bv8>)
    requires |im| == BUFFER && |x.cbus| == CBUS && im[0x14..Start(t)] == Tail(t, x)
    ensures TailSheet(t, x, im)
  {
    hide CbusPairSheet, CbusSheet, CbusPair, Clamped, CbusByte, Low, ByteSheet;
    match t
    case AM | BM =>
    case C2232 =>
      LowFollows(x.chip);
      assert im[0x14..Start(t)][0] == im[0x14];
    case H2232 | H4232 =>
      LowFollows(x.chip);
      assert im[0x14..Start(t)][4] == im[0x18];
    case R => TailFollowsR(x, im);
    case H232 => TailFollowsH232(x, im);
  }

  // ---------- the strings ----------

  /** A string of 16-bit characters at `place`: its length in bytes and the type 3 come first. */
  predicate StringSheet(im: seq<bv8>, place: nat, s: seq<bv8>)
    requires |im| == BUFFER
  {
    && place + 2 + 2 * |s| <= BUFFER && FromByte(im[place]) == 2 * |s| + 2 && im[place + 1] == 3
    && forall j :: 0 <= j < |s| ==> im[place + 2 + 2 * j] == s[j] && im[place + 3 + 2 * j] == 0
  }

  /** An entry of the directory: the address as in a 256-byte image, and the length in bytes */
  predicate EntrySheet(im: seq<bv8>, at: nat, address: nat, s: seq<bv8>)
    requires |im| == BUFFER && at + 1 < BUFFER
  {
    FromByte(im[at]) == address && FromByte(im[at + 1]) == 2 * |s| + 2
  }

  /** Where the strings begin in a 256-byte image; in a 128-byte image they are 0x80 further down. */
  function StringsAt(t: ChipType): nat {
    match t
    case AM | BM => 0x94
    case C2232 => 0x96
    case R => 0x98
    case H2232 | H4232 => 0x9a
    case H232 => 0xa0
  }

  /** Three more bytes behind the strings, except on AM and BM */
  predicate PnpSheet(t: ChipType, c: Common, im: seq<bv8>, place: nat)
    requires |im| == BUFFER
  {
    t != AM && t != BM ==>
      place + 3 <= BUFFER && im[place] == 2 && im[place + 1] == 3 && ByteSheet(im[place + 2], c.isNotPnp)
  }

  predicate StringsSheet(t: ChipType, c: Common, size: int, im: seq<bv8>)
    requires |im| == BUFFER && IsSize(size)
  {
    var m, p, s, down := Text(c.manufacturer), Text(c.product), Text(c.serial), 0x100 - size;
    var first := StringsAt(t);
    var second := first + 2 + 2 * |m|;
    var third := second + 2 + 2 * |p|;
    var fourth := third + 2 + 2 * |s|;
    && EntrySheet(im, 0x0E, first, m) && EntrySheet(im, 0x10, second, p) && EntrySheet(im, 0x12, third, s)
    && StringSheet(im, first - down, m) && StringSheet(im, second - down, p) && StringSheet(im, third - down, s)
    && PnpSheet(t, c, im, fourth - down)
  }

  lemma DescriptorFollows(im: seq<bv8>, place: nat, s: seq<bv8>)
    requires |im| == BUFFER && place + 2 + 2 * |s| <= BUFFER && 2 * |s| + 2 < 256
    requires im[place..place + 2 + 2 * |s|] == Descriptor(s)
    ensures StringSheet(im, place, s)
  {
    hide FromByte, ToByte;
    ByteBack(2 * |s| + 2);
    var d := im[place..place + 2 + 2 * |s|];
    assert d[0] == im[place] && d[1] == im[place + 1];
    forall j | 0 <= j < |s| ensures im[place + 2 + 2 * j] == s[j] && im[place + 3 + 2 * j] == 0 {
      assert d[2 + 2 * j] == im[place + 2 + 2 * j] && d[3 + 2 * j] == im[place + 3 + 2 * j];
      assert Wide(s)[2 * j] == s[j] && Wide(s)[2 * j + 1] == 0;
    }
  }

  lemma EntriesFollow(t: ChipType, c: Common, im: seq<bv8>)
    requires |im| == BUFFER && im[0x0E..0x14] == Directory(t, c) && UserArea(t, c) >= 0
    ensures var m, p, s := Text(c.manufacturer), Text(c.product), Text(c.serial);
            var second := StringsAt(t) + 2 + 2 * |m|;
            && EntrySheet(im, 0x0E, StringsAt(t), m) && EntrySheet(im, 0x10, second, p)
            && EntrySheet(im, 0x12, second + 2 + 2 * |p|, s)
  {
    hide Text, ToByte, FromByte;
    var m, p, s := |Text(c.manufacturer)|, |Text(c.product)|, |Text(c.serial)|;
    DirectoryEntries(t, c, im);
    ByteBack(0x80 + Start(t));
    ByteBack(0x82 + Start(t) + 2 * m);
    ByteBack(0x84 + Start(t) + 2 * m + 2 * p);
    ByteBack(2 * m + 2);
    ByteBack(2 * p + 2);
    ByteBack(2 * s + 2);
  }

  lemma PnpFollows(t: ChipType, c: Common, im: seq<bv8>, place: nat)
    requires |im| == BUFFER && place + |PnpBytes(t, c)| <= BUFFER && im[place..place + |PnpBytes(t, c)|] == PnpBytes(t, c)
    ensures PnpSheet(t, c, im, place)
  {
    hide ByteSheet, Low;
    LowFollows(c.isNotPnp);
    if t != AM && t != BM {
      var d := im[place..place + 3];
      assert d[0] == im[place] && d[1] == im[place + 1] && d[2] == im[place + 2];
    }
  }

  lemma LastPiece<T>(b: seq<T>, at: nat, x: seq<T>, y: seq<T>, z: seq<T>, rest: seq<T>)
    requires var all := x + y + z + rest; at + |all| <= |b| && b[at..at + |all|] == all
    ensures var from := at + |x| + |y| + |z|; b[from..from + |rest|] == rest
  {
    var all := x + y + z + rest;
    assert all[|x| + |y| + |z|..|all|] == rest;
    SliceOfSlice(b, at, at + |all|, |x| + |y| + |z|, |all|);
  }

  lemma Places(t: ChipType, size: int)
    requires IsSize(size)
    ensures StringsAt(t) - (0x100 - size) == Start(t) + size - 0x80 >= 0x14 && StringsAt(t) == 0x80 + Start(t)
  {
  }

  lemma StringsFollow(t: ChipType, c: Common, im: seq<bv8>, size: int)
    requires |im| == BUFFER && IsSize(size) && UserArea(t, c) >= 0 && im[0x0E..0x14] == Directory(t, c)
    requires Start(t) + |StringArea(t, c)| <= 0x7e
    requires var base := Start(t) + size - 0x80; im[base..base + |StringArea(t, c)|] == StringArea(t, c)
    ensures StringsSheet(t, c, size, im)
  {
    hide Descriptor, StringSheet, EntrySheet, PnpSheet, PnpBytes, Directory, UserArea, Text, StringsAt, Start, StringArea;
    var m, p, s, pnp := Text(c.manufacturer), Text(c.product), Text(c.serial), PnpBytes(t, c);
    var base := Start(t) + size - 0x80;
    EntriesFollow(t, c, im);
    AreaSplits(t, c);
    Places(t, size);
    DescriptorLength(m);
    DescriptorLength(p);
    DescriptorLength(s);
    PiecesInside(im, base, Descriptor(m), Descriptor(p), Descriptor(s), pnp);
    LastPiece(im, base, Descriptor(m), Descriptor(p), Descriptor(s), pnp);
    DescriptorFollows(im, base, m);
    DescriptorFollows(im, base + 2 + 2 * |m|, p);
    DescriptorFollows(im, base + 4 + 2 * |m| + 2 * |p|, s);
    PnpFollows(t, c, im, base + 6 + 2 * |m| + 2 * |p| + 2 * |s|);
  }

  // ---------- the whole image ----------

  predicate NumbersSheet(c: Common, im: seq<bv8>)
    requires |im| == BUFFER
  {
    && WordSheet(im[2], im[3], c.vendorId) && WordSheet(im[4], im[5], c.productId) && WordSheet(im[6], im[7], c.releaseNumber)
    && (c.maxPower < 512 ==> im[9] as bv32 == c.maxPower / 2)
  }

  lemma PowerFollows(x: bv32)
    ensures x < 512 ==> Low(Half(x)) as bv32 == x / 2
  {
  }

  lemma NumbersFollow(t: ChipType, c: Common, x: Special, im: seq<bv8>)
    requires |im| == BUFFER && im[..0x0E] == Header(t, c, x)
    ensures NumbersSheet(c, im)
  {
    hide WordSheet, Low, High, Half, Header;
    HeaderBytes(t, c, x, im);
    WordFollows(c.vendorId);
    WordFollows(c.productId);
    WordFollows(c.releaseNumber);
    PowerFollows(c.maxPower);
  }

  /** Every byte of a built image, for every chip type but 230X and both sizes. */
  lemma ImageFollowsSheet(t: ChipType, e: Settings, size: int)
    requires WellFormed(e) && IsSize(size) && BuildCode(t, e) >= 0
    ensures var im, c, x := Image(t, e, size), e.common, e.special;
            && |x.cbus| == CBUS
            && Sheet00(t, x, im[0]) && Sheet01(t, x, im[1]) && NumbersSheet(c, im) && Sheet08(c, im[8])
            && Sheet0A(t, c, im[0x0A]) && Sheet0B(t, x, im[0x0B]) && PinsSheet(t, c, x, im[0x0C], im[0x0D])
            && TailSheet(t, x, im) && StringsSheet(t, c, size, im)
  {
    hide Image, Config, Sheet00, Sheet01, NumbersSheet, Sheet08, Sheet0A, Sheet0B, PinsSheet, TailSheet, StringsSheet,
      Header, Directory, StringArea, UserArea, Start, Tail;
    var im, c, x := Image(t, e, size), e.common, e.special;
    ImageParts(t, e, size);
    HeaderAndDirectory(t, e, im);
    HeaderBytes(t, c, x, im);
    TailInImage(t, e, im);
    Follows00(t, x);
    Follows01(t, x);
    NumbersFollow(t, c, x, im);
    Follows08(c);
    Follows0A(t, c);
    Follows0B(t, x);
    FollowsPins(t, c, x);
    TailFollows(t, x, im);
    StringsFollow(t, c, im, size);
  }

  /** How many characters there is room for, when a build fails, and which size it settles. */
  lemma RoomForStrings(t: ChipType, e: Settings, size: int)
    requires size == -1 || IsSize(size)
    ensures var n := |Text(e.common.manufacturer)| + |Text(e.common.product)| + |Text(e.common.serial)|;
            var room := match t { case AM | BM => 48 case C2232 => 45 case R => 44 case H2232 | H4232 => 43 case H232 => 40 };
            BuildCode(t, e) == if e.special.chip == 0xffff_ffff then -6 else if n > room then -1 else 2 * (room - n)
    ensures SizeFor(e, size) ==
            if size != -1 || e.special.chip == 0xffff_ffff then size
            else if e.special.chip == 0x56 || e.special.chip == 0x66 then 256 else 128
  {
    hide Text;
  }

  // ---------- reading strings from any image ----------

  lemma {:induction false} CutIs(s: seq<bv8>)
    ensures var r := CutAtNul(s);
            r <= s && 0 !in r && (|r| < |s| ==> s[|r|] == 0)
  {
    if s != [] && s[0] != 0 {
      CutIs(s[1..]);
      assert CutAtNul(s)[1..] == CutAtNul(s[1..]);
    }
  }

  /** In any readable buffer: no string for a length below two bytes, otherwise every other byte from behind
      the descriptor's first two on, up to the length or the first NUL. */
  lemma StringRead(b: seq<bv8>, at: nat, size: int)
    requires |b| == BUFFER && at + 1 < BUFFER && IsSize(size) && StringInside(b, at, size)
    ensures var n, i, r := FromByte(b[at + 1]) / 2, FromByte(b[at]) % size, StringAt(b, at, size);
            && (r.None? <==> n == 0)
            && (r.Some? ==>
                  && |r.value| <= n - 1
                  && (forall j :: 0 <= j < |r.value| ==> r.value[j] == b[2 * j + i + 2] && r.value[j] != 0)
                  && (|r.value| < n - 1 ==> b[2 * |r.value| + i + 2] == 0))
  {
    hide FromByte, CutAtNul;
    var n, i := FromByte(b[at + 1]) / 2, FromByte(b[at]) % size;
    if n > 0 {
      CutIs(Characters(b, i + 2, n - 1));
    }
  }
}
