/** What the stages of `ftdi_eeprom_build` (Resources/libftdi1-1.2/src/ftdi.c) make of the buffer: that one
    assignment after the other leads to the image. */
module EepromLayout {
  import opened Eeprom
  import opened EepromRoundTrip

  // ---------- writing into the buffer ----------

  function WithBit(b: bv8, mask: bv8, on: bool): bv8 {
    if on then b | mask else b & !mask
  }

  function SetIn(b: seq<bv8>, at: nat, mask: bv8, on: bool): (r: seq<bv8>)
    requires at < |b|
    ensures |r| == |b|
  {
    b[at := WithBit(b[at], mask, on)]
  }

  /** `s` written over `b` from `at` on */
  function Overlay(b: seq<bv8>, at: nat, s: seq<bv8>): seq<bv8>
    requires at + |s| <= |b|
  {
    b[..at] + s + b[at + |s|..]
  }

  function Put(b: seq<bv8>, at: nat, v: bv8): (r: seq<bv8>)
    requires at < |b|
    ensures |r| == |b|
  {
    b[at := v]
  }

  function Written(b: seq<bv8>, at: nat, v: bv8, w: bv8): (r: seq<bv8>)
    requires at + 1 < |b|
    ensures |r| == |b|
  {
    b[at := v][at + 1 := w]
  }

  /** The first `j` characters of a descriptor written over `b` */
  function Partly(b: seq<bv8>, at: nat, s: seq<bv8>, j: nat): (r: seq<bv8>)
    requires at + 2 + 2 * |s| <= |b| && j <= |s|
    ensures |r| == |b|
  {
    DescriptorLength(s);
    Overlay(b, at, Descriptor(s)[..2 + 2 * j])
  }

  /** The directory and, from `base` on, the strings written over `b`. */
  function Laid(b: seq<bv8>, dir: seq<bv8>, base: nat, area: seq<bv8>): (r: seq<bv8>)
    requires |b| == BUFFER && |dir| == 6 && 0x14 <= base && base + |area| <= BUFFER
    ensures |r| == BUFFER
  {
    b[..0x0E] + dir + b[0x14..base] + area + b[base + |area|..]
  }

  lemma LaidEntry(b: seq<bv8>, dir: seq<bv8>, base: nat, area: seq<bv8>, k: nat, v: bv8)
    requires |b| == BUFFER && |dir| == 6 && 0x14 <= base && base + |area| <= BUFFER && k < 6
    ensures Put(Laid(b, dir, base, area), 0x0E + k, v) == Laid(b, dir[k := v], base, area)
  {
  }

  lemma LaidMore(b: seq<bv8>, dir: seq<bv8>, base: nat, area: seq<bv8>, s: seq<bv8>)
    requires |b| == BUFFER && |dir| == 6 && 0x14 <= base && base + |area| + |s| <= BUFFER
    ensures Overlay(Laid(b, dir, base, area), base + |area|, s) == Laid(b, dir, base, area + s)
  {
  }

  /** `i & (size - 1)` for the addresses in use */
  lemma Masked(i: nat, size: int)
    requires 0x80 <= i < 0x100 && IsSize(size)
    ensures i % size == i + size - 0x100
  {
  }

  lemma AddressBit(i: nat)
    requires 0x80 <= i < 0x100
    ensures ToByte(i) | 0x80 == ToByte(i)
  {
  }

  lemma OverlayTwo(b: seq<bv8>, at: nat, s: seq<bv8>, v: bv8, w: bv8)
    requires at + |s| + 1 < |b|
    ensures Written(Overlay(b, at, s), at + |s|, v, w) == Overlay(b, at, s + [v, w])
  {
  }

  lemma PartlyStarts(b: seq<bv8>, at: nat, s: seq<bv8>)
    requires at + 2 + 2 * |s| <= |b|
    ensures Written(b, at, ToByte(2 * |s| + 2), 3) == Partly(b, at, s, 0)
  {
    OverlayTwo(b, at, [], ToByte(2 * |s| + 2), 3);
    assert Descriptor(s)[..2] == [] + [ToByte(2 * |s| + 2), 3];
    assert Overlay(b, at, []) == b;
  }

  lemma PartlyGrows(b: seq<bv8>, at: nat, s: seq<bv8>, j: nat)
    requires at + 2 + 2 * |s| <= |b| && j < |s|
    ensures Written(Partly(b, at, s, j), at + 2 + 2 * j, s[j], 0) == Partly(b, at, s, j + 1)
  {
    DescriptorLength(s);
    var d := Descriptor(s);
    OverlayTwo(b, at, d[..2 + 2 * j], s[j], 0);
    assert d[2 + 2 * j] == s[j] && d[3 + 2 * j] == 0;
    hide Descriptor, Overlay;
    assert d[..2 + 2 * (j + 1)] == d[..2 + 2 * j] + [s[j], 0];
  }

  // ---------- the stages of a build ----------

  function IsochronousBits(c: Common): bv8 {
    Flag(c.inIsochronous != 0, 1) | Flag(c.outIsochronous != 0, 2)
  }

  /** The bytes that are set first */
  function Opening(t: ChipType, c: Common): (r: seq<bv8>)
    ensures |r| == 11
  {
    [0, 0] + Numbers(c) + [if t == AM then 0 else IsochronousBits(c)]
  }

  function Opened(t: ChipType, c: Common): (r: seq<bv8>)
    ensures |r| == BUFFER
  {
    Padded(Opening(t, c))
  }

  lemma LaidFirst(b: seq<bv8>, base: nat)
    requires |b| == BUFFER && 0x14 <= base <= BUFFER
    ensures Laid(b, b[0x0E..0x14], base, []) == b
  {
  }

  function Padded(p: seq<bv8>): (r: seq<bv8>)
    requires |p| <= BUFFER
    ensures |r| == BUFFER
  {
    p + Zeros(BUFFER - |p|)
  }

  lemma PutNext(o: seq<bv8>, k: nat)
    requires k < |o| <= BUFFER
    ensures Put(Padded(o[..k]), k, o[k]) == Padded(o[..k + 1])
  {
  }

  lemma PutNine(o: seq<bv8>)
    requires |o| == 11 && o[0] == 0 && o[1] == 0
    ensures var b := Put(Put(Put(Zeros(BUFFER), 2, o[2]), 3, o[3]), 4, o[4]);
            var b := Put(Put(Put(Put(Put(b, 5, o[5]), 6, o[6]), 7, o[7]), 8, o[8]), 9, o[9]);
            Put(b, 10, o[10]) == Padded(o) && (o[10] == 0 ==> b == Padded(o))
  {
    assert Padded(o[..2]) == Zeros(BUFFER);
    assert o[..11] == o && (o[10] == 0 ==> Padded(o[..10]) == Padded(o));
    hide Put, Padded, Zeros;
    PutNext(o, 2);
    PutNext(o, 3);
    PutNext(o, 4);
    PutNext(o, 5);
    PutNext(o, 6);
    PutNext(o, 7);
    PutNext(o, 8);
    PutNext(o, 9);
    PutNext(o, 10);
  }

  /** The assignments with which a build begins leave exactly these bytes. */
  lemma OpenedIs(t: ChipType, c: Common)
    ensures var b := Put(Put(Put(Zeros(BUFFER), 2, Low(c.vendorId)), 3, High(c.vendorId)), 4, Low(c.productId));
            var b := Put(Put(Put(b, 5, High(c.productId)), 6, Low(c.releaseNumber)), 7, High(c.releaseNumber));
            var b := Put(Put(b, 8, Byte08(c)), 9, Low(Half(c.maxPower)));
            Opened(t, c) == if t == AM then b else Put(b, 10, IsochronousBits(c))
  {
    hide Put, Zeros, Padded, Low, High, Byte08, Half, IsochronousBits;
    PutNine(Opening(t, c));
  }

  /** An address and a length in the directory */
  function Entry(dir: seq<bv8>, k: nat, address: bv8, length: bv8): (r: seq<bv8>)
    requires |dir| == 6 && k < 3
    ensures |r| == 6
  {
    dir[2 * k := address][2 * k + 1 := length]
  }

  lemma SixEntries(dir: seq<bv8>, u: bv8, v: bv8, w: bv8, x: bv8, y: bv8, z: bv8)
    requires |dir| == 6
    ensures Entry(Entry(Entry(dir, 0, u, v), 1, w, x), 2, y, z) == [u, v, w, x, y, z]
  {
  }

  function FirstAt(t: ChipType): nat {
    0x80 + Start(t)
  }

  /** Addresses of the second and third string */
  function SecondAt(t: ChipType, c: Common): nat {
    0x82 + Start(t) + 2 * |Text(c.manufacturer)|
  }

  function ThirdAt(t: ChipType, c: Common): nat {
    0x84 + Start(t) + 2 * |Text(c.manufacturer)| + 2 * |Text(c.product)|
  }

  lemma DirectoryHas(t: ChipType, c: Common)
    ensures Directory(t, c) == [ToByte(FirstAt(t)), ToByte(2 * |Text(c.manufacturer)| + 2), ToByte(SecondAt(t, c)),
                                ToByte(2 * |Text(c.product)| + 2), ToByte(ThirdAt(t, c)), ToByte(2 * |Text(c.serial)| + 2)]
  {
    hide Text, ToByte, Start;
  }

  lemma DirectoryIs(t: ChipType, c: Common, dir: seq<bv8>)
    requires |dir| == 6
    ensures var d := Entry(dir, 0, ToByte(FirstAt(t)), ToByte(2 * |Text(c.manufacturer)| + 2));
            var d := Entry(d, 1, ToByte(SecondAt(t, c)), ToByte(2 * |Text(c.product)| + 2));
            Entry(d, 2, ToByte(ThirdAt(t, c)), ToByte(2 * |Text(c.serial)| + 2)) == Directory(t, c)
  {
    hide *;
    DirectoryHas(t, c);
    SixEntries(dir, ToByte(FirstAt(t)), ToByte(2 * |Text(c.manufacturer)| + 2), ToByte(SecondAt(t, c)),
      ToByte(2 * |Text(c.product)| + 2), ToByte(ThirdAt(t, c)), ToByte(2 * |Text(c.serial)| + 2));
  }

  function Extend(area: seq<bv8>, s: seq<bv8>): (r: seq<bv8>)
    ensures |r| == |area| + 2 + 2 * |s|
  {
    area + Descriptor(s)
  }

  function Descriptors(c: Common): (r: seq<bv8>)
    ensures |r| == 6 + 2 * (|Text(c.manufacturer)| + |Text(c.product)| + |Text(c.serial)|)
  {
    Extend(Extend(Extend([], Text(c.manufacturer)), Text(c.product)), Text(c.serial))
  }

  lemma DescriptorsFit(t: ChipType, c: Common)
    requires UserArea(t, c) >= 0
    ensures 0x94 <= FirstAt(t) && FirstAt(t) + |Descriptors(c)| <= 0xfb
    ensures SecondAt(t, c) == FirstAt(t) + 2 + 2 * |Text(c.manufacturer)|
    ensures ThirdAt(t, c) == SecondAt(t, c) + 2 + 2 * |Text(c.product)|
  {
    hide Text, Extend;
  }

  /** A string written at `at`, with its address `i` (which has its upper bit set anyway) and its length */
  function Entered(b: seq<bv8>, k: nat, i: nat, at: nat, s: seq<bv8>): (r: seq<bv8>)
    requires |b| == BUFFER && k < 3 && at + 2 + 2 * |s| <= BUFFER
    ensures |r| == BUFFER
  {
    DescriptorLength(s);
    Put(Overlay(Put(b, 0x0E + 2 * k, ToByte(i) | 0x80), at, Descriptor(s)), 0x0F + 2 * k, ToByte(2 * |s| + 2))
  }

  lemma EnteredIs(b: seq<bv8>, dir: seq<bv8>, base: nat, area: seq<bv8>, k: nat, i: nat, s: seq<bv8>)
    requires |b| == BUFFER && |dir| == 6 && 0x14 <= base && base + |area| + 2 + 2 * |s| <= BUFFER && k < 3
    requires 0x80 <= i < 0x100
    ensures Entered(Laid(b, dir, base, area), k, i, base + |area|, s) ==
            Laid(b, Entry(dir, k, ToByte(i), ToByte(2 * |s| + 2)), base, Extend(area, s))
  {
    AddressBit(i);
    DescriptorLength(s);
    LaidEntry(b, dir, base, area, 2 * k, ToByte(i));
    var dir' := dir[2 * k := ToByte(i)];
    LaidMore(b, dir', base, area, Descriptor(s));
    LaidEntry(b, dir', base, area + Descriptor(s), 2 * k + 1, ToByte(2 * |s| + 2));
    hide Laid, Put, Overlay, Descriptor, ToByte;
  }

  lemma EntriesAddUp(b: seq<bv8>, d: seq<bv8>, at: int, i: nat, j: nat, k: nat, m: seq<bv8>, p: seq<bv8>, s: seq<bv8>)
    requires |b| == BUFFER && |d| == 6 && 0x14 <= i + at && at <= 0 && 0x80 <= i
    requires j == i + 2 + 2 * |m| && k == j + 2 + 2 * |p| && k + 2 + 2 * |s| <= 0x100
    ensures Entered(Entered(Entered(Laid(b, d, i + at, []), 0, i, i + at, m), 1, j, j + at, p), 2, k, k + at, s)
            == Laid(b, Entry(Entry(Entry(d, 0, ToByte(i), ToByte(2 * |m| + 2)), 1, ToByte(j), ToByte(2 * |p| + 2)),
                             2, ToByte(k), ToByte(2 * |s| + 2)),
                    i + at, Extend(Extend(Extend([], m), p), s))
  {
    hide Laid, Entered, Entry, Extend, ToByte;
    var d1 := Entry(d, 0, ToByte(i), ToByte(2 * |m| + 2));
    var d2 := Entry(d1, 1, ToByte(j), ToByte(2 * |p| + 2));
    EnteredIs(b, d, i + at, [], 0, i, m);
    EnteredIs(b, d1, i + at, Extend([], m), 1, j, p);
    EnteredIs(b, d2, i + at, Extend(Extend([], m), p), 2, k, s);
  }

  function ThreeWritten(t: ChipType, c: Common, at: int, b: seq<bv8>): seq<bv8>
    requires |b| == BUFFER && (at == 0 || at == -0x80) && UserArea(t, c) >= 0
  {
    DescriptorsFit(t, c);
    var b1 := Entered(b, 0, FirstAt(t), FirstAt(t) + at, Text(c.manufacturer));
    var b2 := Entered(b1, 1, SecondAt(t, c), SecondAt(t, c) + at, Text(c.product));
    Entered(b2, 2, ThirdAt(t, c), ThirdAt(t, c) + at, Text(c.serial))
  }

  lemma LaidEmpty(t: ChipType, b: seq<bv8>, at: int)
    requires |b| == BUFFER && (at == 0 || at == -0x80)
    ensures |b[0x0E..0x14]| == 6 && 0x14 <= FirstAt(t) + at <= BUFFER && Laid(b, b[0x0E..0x14], FirstAt(t) + at, []) == b
  {
    LaidFirst(b, FirstAt(t) + at);
    hide Laid;
  }

  lemma ThreeWrittenIs(t: ChipType, c: Common, at: int, b: seq<bv8>)
    requires |b| == BUFFER && (at == 0 || at == -0x80) && UserArea(t, c) >= 0
    ensures 0x14 <= FirstAt(t) + at && FirstAt(t) + at + |Descriptors(c)| <= BUFFER
    ensures ThreeWritten(t, c, at, b) == Laid(b, Directory(t, c), FirstAt(t) + at, Descriptors(c))
  {
    hide Laid, Entered, Entry, Text, Directory, UserArea, Extend, ToByte, SecondAt, ThirdAt, FirstAt;
    DescriptorsFit(t, c);
    LaidEmpty(t, b, at);
    var d := b[0x0E..0x14];
    DirectoryIs(t, c, d);
    EntriesAddUp(b, d, at, FirstAt(t), SecondAt(t, c), ThirdAt(t, c), Text(c.manufacturer), Text(c.product), Text(c.serial));
  }

  lemma AreaIs(t: ChipType, c: Common)
    ensures StringArea(t, c) == Descriptors(c) + PnpBytes(t, c)
    ensures t == AM || t == BM ==> StringArea(t, c) == Descriptors(c)
    ensures t != AM && t != BM ==> |PnpBytes(t, c)| == 3
  {
    hide Text, Descriptor;
    assert [] + Descriptor(Text(c.manufacturer)) == Descriptor(Text(c.manufacturer));
  }

  // ---------- the bytes of the particular chip ----------

  /** The byte at 0x0A before the chip is looked at */
  function SerialByte(t: ChipType, c: Common): bv8 {
    if t == AM then 0 else WithBit(IsochronousBits(c), 8, c.useSerial != 0)
  }

  /** What the chip's part of a build finds */
  predicate Prepared(t: ChipType, c: Common, b: seq<bv8>) {
    && |b| == BUFFER && b[0] == 0 && b[1] == 0 && b[0x0A] == SerialByte(t, c) && b[0x0B] == 0 && b[0x0C] == 0
    && b[0x0D] == 0 && b[0x14..Start(t)] == Zeros(Start(t) - 0x14)
  }

  /** And what it leaves */
  function Configure(t: ChipType, c: Common, x: Special, b: seq<bv8>): (r: seq<bv8>)
    requires |b| == BUFFER && |x.cbus| == CBUS
    ensures |r| == BUFFER
  {
    WithHeader(b, Byte00(t, x), Byte01(t, x), Byte0A(t, c), Byte0B(t, x), Byte0C(t, c, x), Byte0D(t, c, x))[..0x14]
    + Tail(t, x) + b[Start(t)..]
  }

  function WithHeader(b: seq<bv8>, v0: bv8, v1: bv8, vA: bv8, vB: bv8, vC: bv8, vD: bv8): (r: seq<bv8>)
    requires |b| == BUFFER
    ensures |r| == BUFFER
  {
    Put(Put(Put(Put(Put(Put(b, 0, v0), 1, v1), 0x0A, vA), 0x0B, vB), 0x0C, vC), 0x0D, vD)
  }

  lemma PutReads(b: seq<bv8>, at: nat, v: bv8)
    requires at < |b|
    ensures Put(b, at, v)[at] == v && forall k :: 0 <= k < |b| && k != at ==> Put(b, at, v)[k] == b[k]
    ensures b[at] == v ==> Put(b, at, v) == b
  {
  }

  lemma SetPut(b: seq<bv8>, at: nat, v: bv8, mask: bv8, on: bool)
    requires at < |b|
    ensures SetIn(Put(b, at, v), at, mask, on) == Put(b, at, WithBit(v, mask, on))
    ensures SetIn(b, at, mask, on) == Put(b, at, WithBit(b[at], mask, on))
  {
    hide WithBit;
  }

  lemma ModeBits(m: bv8, t: ChipType)
    ensures t == C2232 || t == H2232 ==> Type2Bit(m, t) <= 7
    ensures t == H232 ==> Type2Bit(m, t) <= 15
  {
  }

  lemma TwoBits(v: bv8, p: bool, q: bool)
    requires v <= 7
    ensures WithBit(WithBit(v, 8, p), 0x10, q) == v | Flag(p, 8) | Flag(q, 0x10)
    ensures WithBit(WithBit(v, 8, p), 0x80, q) == v | Flag(p, 8) | Flag(q, 0x80)
    ensures WithBit(v, 8, p) == v | Flag(p, 8)
  {
  }

  lemma HighBit(v: bv8, p: bool)
    requires v <= 15
    ensures WithBit(v, 0x10, p) == v | Flag(p, 0x10)
  {
  }

  lemma Rs485Bits(p: bool, q: bool, r: bool, s: bool)
    ensures WithBit(WithBit(WithBit(WithBit(0, 0x10, p), 0x20, q), 0x40, r), 0x80, s) ==
            Flag(p, 0x10) | Flag(q, 0x20) | Flag(r, 0x40) | Flag(s, 0x80)
  {
  }

  lemma DriverBits(p: bool, q: bool)
    ensures WithBit(WithBit(0, 8, p), 0x80, q) == Flag(p, 8) | Flag(q, 0x80)
  {
  }

  lemma Ft1284Bits(p: bool, q: bool, r: bool, s: bool)
    ensures WithBit(WithBit(WithBit(WithBit(0, 0x80, s), 1, p), 2, q), 4, r) ==
            Flag(p, 1) | Flag(q, 2) | Flag(r, 4) | Flag(s, 0x80)
  {
  }

  /** The byte at 0x0A in the end */
  lemma Byte0AIs(t: ChipType, c: Common)
    ensures t == AM ==> Byte0A(t, c) == SerialByte(t, c)
    ensures t == BM ==> Byte0A(t, c) == WithBit(SerialByte(t, c), 0x10, c.useUsbVersion == 0x10)
    ensures t == R || t == H2232 || t == H4232 || t == H232 ==>
              Byte0A(t, c) == WithBit(SerialByte(t, c), 4, c.suspendPullDowns != 0)
    ensures t == C2232 ==>
              Byte0A(t, c) == WithBit(WithBit(WithBit(WithBit(SerialByte(t, c), 1, c.inIsochronous != 0),
                2, c.outIsochronous != 0), 4, c.suspendPullDowns != 0), 0x10, c.useUsbVersion == 0x10)
  {
  }

  lemma HeaderKeepsRest(b: seq<bv8>, v0: bv8, v1: bv8, vA: bv8, vB: bv8, vC: bv8, vD: bv8)
    requires |b| == BUFFER
    ensures WithHeader(b, v0, v1, vA, vB, vC, vD)[0x0E..] == b[0x0E..]
  {
  }

  /** `h` is followed by what `b` has from `at` on, zeros at first. */
  predicate ZerosThenRest(b: seq<bv8>, h: seq<bv8>, start: nat) {
    |b| == |h| == BUFFER && 0x14 <= start <= 0x20 && h[0x0E..] == b[0x0E..] && b[0x14..start] == Zeros(start - 0x14)
  }

  lemma ReadZeros(b: seq<bv8>, h: seq<bv8>, start: nat)
    requires ZerosThenRest(b, h, start)
    ensures forall k :: 0x14 <= k < start ==> h[k] == 0
    ensures h[start..] == b[start..]
  {
    forall k | 0x14 <= k < start ensures h[k] == 0 {
      assert h[0x0E..][k - 0x0E] == b[0x0E..][k - 0x0E];
      assert b[0x14..start][k - 0x14] == 0;
    }
    assert h[start..] == h[0x0E..][start - 0x0E..];
    assert b[start..] == b[0x0E..][start - 0x0E..];
  }

  lemma TailOf2232C(b: seq<bv8>, h: seq<bv8>, v: bv8)
    requires ZerosThenRest(b, h, 0x16)
    ensures Put(h, 0x14, v) == h[..0x14] + [v, 0] + b[0x16..]
  {
    ReadZeros(b, h, 0x16);
    hide ZerosThenRest;
  }

  lemma TailOfH(b: seq<bv8>, h: seq<bv8>, v: bv8)
    requires ZerosThenRest(b, h, 0x1a)
    ensures Put(h, 0x18, v) == h[..0x14] + [0, 0, 0, 0, v, 0] + b[0x1a..]
  {
    ReadZeros(b, h, 0x1a);
    hide ZerosThenRest;
    assert h[0x14] == 0 && h[0x15] == 0 && h[0x16] == 0 && h[0x17] == 0 && h[0x19] == 0;
  }

  lemma TailOfR(b: seq<bv8>, h: seq<bv8>, u: bv8, v: bv8, w: bv8)
    requires ZerosThenRest(b, h, 0x18)
    ensures Put(Put(Put(h, 0x14, u), 0x15, v), 0x16, w) == h[..0x14] + [u, v, w, 0] + b[0x18..]
  {
    ReadZeros(b, h, 0x18);
    hide ZerosThenRest;
    assert h[0x17] == 0;
  }

  function FiveBytes(b: seq<bv8>, v: seq<bv8>): (r: seq<bv8>)
    requires |b| == BUFFER && |v| == 5
    ensures |r| == BUFFER
  {
    Put(Put(Put(Put(Put(b, 0x18, v[0]), 0x19, v[1]), 0x1a, v[2]), 0x1b, v[3]), 0x1c, v[4])
  }

  lemma TailOf232H(b: seq<bv8>, h: seq<bv8>, v: seq<bv8>, w: bv8)
    requires ZerosThenRest(b, h, 0x20) && |v| == 5
    ensures Put(FiveBytes(h, v), 0x1e, w) == h[..0x14] + [0, 0, 0, 0, v[0], v[1], v[2], v[3], v[4], 0, w, 0] + b[0x20..]
  {
    ReadZeros(b, h, 0x20);
    hide ZerosThenRest;
    var z := h[..0x14] + [0, 0, 0, 0];
    assert z == h[..0x18];
    assert FiveBytes(h, v) == h[..0x18] + v + h[0x1d..];
    assert h[0x1d..] == [0] + h[0x1e..] && h[0x1e..] == [h[0x1e], 0] + h[0x20..];
  }

  function HeaderOf(t: ChipType, c: Common, x: Special, b: seq<bv8>): (r: seq<bv8>)
    requires |b| == BUFFER
    ensures |r| == BUFFER
  {
    WithHeader(b, Byte00(t, x), Byte01(t, x), Byte0A(t, c), Byte0B(t, x), Byte0C(t, c, x), Byte0D(t, c, x))
  }

  lemma HeaderThenZeros(t: ChipType, c: Common, x: Special, b: seq<bv8>)
    requires |x.cbus| == CBUS && Prepared(t, c, b)
    ensures ZerosThenRest(b, HeaderOf(t, c, x, b), Start(t))
    ensures Configure(t, c, x, b) == HeaderOf(t, c, x, b)[..0x14] + Tail(t, x) + b[Start(t)..]
  {
    hide WithHeader, Byte00, Byte01, Byte0A, Byte0B, Byte0C, Byte0D, Tail, Zeros;
    HeaderKeepsRest(b, Byte00(t, x), Byte01(t, x), Byte0A(t, c), Byte0B(t, x), Byte0C(t, c, x), Byte0D(t, c, x));
  }

  /** The bytes of the tail, written one by one */
  lemma TailWritten(t: ChipType, c: Common, x: Special, b: seq<bv8>)
    requires |x.cbus| == CBUS && Prepared(t, c, b)
    ensures TailIn(t, x, HeaderOf(t, c, x, b)) == Configure(t, c, x, b)
  {
    hide HeaderOf, Configure, ZerosThenRest, Put, FiveBytes, Low, CbusPair, CbusByte, Clamped, Zeros, SerialByte;
    HeaderThenZeros(t, c, x, b);
    var h := HeaderOf(t, c, x, b);
    match t
    case AM | BM => NoTail(b, h);
    case C2232 => TailOf2232C(b, h, Low(x.chip));
    case R => TailOfR(b, h, CbusPair(x.cbus[0], x.cbus[1], 13, 3, 2), CbusPair(x.cbus[2], x.cbus[3], 13, 0, 1), Clamped(x.cbus[4], 9, 5));
    case H2232 | H4232 => TailOfH(b, h, Low(x.chip));
    case H232 => TailOf232H(b, h, CbusBytes(x.cbus), Low(x.chip));
  }

  lemma NoTail(b: seq<bv8>, h: seq<bv8>)
    requires ZerosThenRest(b, h, 0x14)
    ensures h == h[..0x14] + [] + b[0x14..]
  {
    ReadZeros(b, h, 0x14);
    hide ZerosThenRest;
  }

  lemma PutPut(b: seq<bv8>, at: nat, v: bv8, w: bv8)
    requires at < |b|
    ensures Put(Put(b, at, v), at, w) == Put(b, at, w)
  {
  }

  /** The header bytes find what was there before, whichever were written already. */
  lemma HeaderSteps(t: ChipType, c: Common, x: Special, b: seq<bv8>)
    requires Prepared(t, c, b)
    ensures var b1 := Put(b, 0, Byte00(t, x));
            var b2 := Put(b1, 1, Byte01(t, x));
            var b3 := Put(b2, 0x0A, Byte0A(t, c));
            var b4 := Put(b3, 0x0B, Byte0B(t, x));
            var b5 := Put(b4, 0x0C, Byte0C(t, c, x));
            && b[0] == 0 && b1[1] == 0 && b2[0x0A] == SerialByte(t, c) && b3[0x0B] == 0 && b4[0x0C] == 0 && b5[0x0D] == 0
            && HeaderOf(t, c, x, b) == Put(b5, 0x0D, Byte0D(t, c, x))
  {
    hide Put, Byte00, Byte01, Byte0A, Byte0B, Byte0C, Byte0D, SerialByte, Zeros, Start;
    var b1 := Put(b, 0, Byte00(t, x));
    var b2 := Put(b1, 1, Byte01(t, x));
    var b3 := Put(b2, 0x0A, Byte0A(t, c));
    var b4 := Put(b3, 0x0B, Byte0B(t, x));
    PutReads(b, 0, Byte00(t, x));
    PutReads(b1, 1, Byte01(t, x));
    PutReads(b2, 0x0A, Byte0A(t, c));
    PutReads(b3, 0x0B, Byte0B(t, x));
    PutReads(b4, 0x0C, Byte0C(t, c, x));
  }

  function ModeByte(t: ChipType, channel: Channel, vcp: bv8): bv8 {
    WithBit(Type2Bit(Low(channel.mode), t), vcp, channel.driver == 8)
  }

  lemma RBit(on: bool)
    ensures Flag(on, 4) == if on then 4 else 0
  {
  }

  lemma Byte00OfChannel(t: ChipType, x: Special)
    requires t == C2232 || t == H2232 || t == H232
    ensures t == C2232 ==> Byte00(t, x) == WithBit(ModeByte(t, x.a, 8), 0x10, x.a.highCurrent == 0x10)
    ensures t == H2232 ==> Byte00(t, x) == ModeByte(t, x.a, 8)
    ensures t == H232 ==> Byte00(t, x) == ModeByte(t, x.a, 0x10)
  {
    hide Type2Bit, Low, WithBit, Flag;
    var m := Type2Bit(Low(x.a.mode), t);
    ModeBits(Low(x.a.mode), t);
    if t == H232 {
      HighBit(m, x.a.driver == 8);
    } else {
      TwoBits(m, x.a.driver == 8, x.a.highCurrent == 0x10);
    }
  }

  lemma Byte00Is(t: ChipType, x: Special)
    ensures t == AM || t == BM ==> Byte00(t, x) == 0
    ensures t == C2232 ==> Byte00(t, x) == WithBit(ModeByte(t, x.a, 8), 0x10, x.a.highCurrent == 0x10)
    ensures t == R ==> Byte00(t, x) == if x.highCurrent == 4 then 4 else 0
    ensures t == H2232 ==> Byte00(t, x) == ModeByte(t, x.a, 8)
    ensures t == H4232 ==> Byte00(t, x) == WithBit(WithBit(0, 8, x.a.driver == 8), 0x80, x.c.driver == 8)
    ensures t == H232 ==> Byte00(t, x) == ModeByte(t, x.a, 0x10)
  {
    hide Byte00, ModeByte, WithBit;
    match t
    case C2232 | H2232 | H232 => Byte00OfChannel(t, x);
    case _ => Byte00OfOther(t, x);
  }

  lemma Byte00OfOther(t: ChipType, x: Special)
    ensures t == AM || t == BM ==> Byte00(t, x) == 0
    ensures t == R ==> Byte00(t, x) == if x.highCurrent == 4 then 4 else 0
    ensures t == H4232 ==> Byte00(t, x) == WithBit(WithBit(0, 8, x.a.driver == 8), 0x80, x.c.driver == 8)
  {
    hide Type2Bit, Low, WithBit, Flag;
    RBit(x.highCurrent == 4);
    DriverBits(x.a.driver == 8, x.c.driver == 8);
  }

  lemma Byte01Is(t: ChipType, x: Special)
    ensures t == AM || t == BM ==> Byte01(t, x) == 0
    ensures t == C2232 ==> Byte01(t, x) == WithBit(ModeByte(t, x.b, 8), 0x10, x.b.highCurrent == 0x10)
    ensures t == R ==> Byte01(t, x) == 0x40
    ensures t == H2232 ==> Byte01(t, x) == WithBit(ModeByte(t, x.b, 8), 0x80, x.suspendDbus7 == 0x80)
    ensures t == H4232 ==> Byte01(t, x) == WithBit(WithBit(0, 8, x.b.driver == 8), 0x80, x.d.driver == 8)
    ensures var v := WithBit(WithBit(0, 0x80, x.ft1284.powersave != 0), 1, x.ft1284.clockPolarity != 0);
            t == H232 ==> Byte01(t, x) == WithBit(WithBit(v, 2, x.ft1284.dataOrder != 0), 4, x.ft1284.flowControl != 0)
  {
    hide Type2Bit, Low, WithBit, Flag;
    var m := Type2Bit(Low(x.b.mode), t);
    ModeBits(Low(x.b.mode), t);
    match t
    case C2232 => TwoBits(m, x.b.driver == 8, x.b.highCurrent == 0x10);
    case H2232 => TwoBits(m, x.b.driver == 8, x.suspendDbus7 == 0x80);
    case H4232 => DriverBits(x.b.driver == 8, x.d.driver == 8);
    case H232 => Ft1284Bits(x.ft1284.clockPolarity != 0, x.ft1284.dataOrder != 0, x.ft1284.flowControl != 0, x.ft1284.powersave != 0);
    case _ =>
  }

  lemma Byte0BIs(t: ChipType, x: Special)
    ensures t == R ==> Byte0B(t, x) == Low(x.invert)
    ensures var v := WithBit(WithBit(0, 0x10, x.a.rs485 != 0), 0x20, x.b.rs485 != 0);
            t == H4232 ==> Byte0B(t, x) == WithBit(WithBit(v, 0x40, x.c.rs485 != 0), 0x80, x.d.rs485 != 0)
    ensures t != R && t != H4232 ==> Byte0B(t, x) == 0
  {
    hide Low, WithBit;
    Rs485Bits(x.a.rs485 != 0, x.b.rs485 != 0, x.c.rs485 != 0, x.d.rs485 != 0);
  }

  function CbusBytes(cbus: seq<bv32>): (r: seq<bv8>)
    requires |cbus| == CBUS
    ensures |r| == 5
  {
    [CbusByte(cbus, 0), CbusByte(cbus, 1), CbusByte(cbus, 2), CbusByte(cbus, 3), CbusByte(cbus, 4)]
  }

  /** The first `n` of five bytes, from 0x18 on */
  function SomeBytes(b: seq<bv8>, v: seq<bv8>, n: nat): (r: seq<bv8>)
    requires |b| == BUFFER && |v| == 5 && n <= 5
    ensures |r| == BUFFER
  {
    if n == 0 then b else Put(SomeBytes(b, v, n - 1), 0x18 + n - 1, v[n - 1])
  }

  lemma SomeIsNone(b: seq<bv8>, v: seq<bv8>)
    requires |b| == BUFFER && |v| == 5
    ensures SomeBytes(b, v, 0) == b
  {
  }

  lemma SomeMore(b: seq<bv8>, cbus: seq<bv32>, n: nat)
    requires |b| == BUFFER && |cbus| == CBUS && n < 5
    ensures SomeBytes(b, CbusBytes(cbus), n + 1) ==
            Put(SomeBytes(b, CbusBytes(cbus), n), 0x18 + n, (Clamped(cbus[2 * n + 1], 12, 0) << 4) | Clamped(cbus[2 * n], 12, 0))
  {
    hide Put, Clamped, CbusBytes;
    CbusBytesAt(cbus, n);
  }

  lemma CbusBytesAt(cbus: seq<bv32>, n: nat)
    requires |cbus| == CBUS && n < 5
    ensures CbusBytes(cbus)[n] == (Clamped(cbus[2 * n + 1], 12, 0) << 4) | Clamped(cbus[2 * n], 12, 0)
  {
    hide Clamped, CbusPair;
    assert CbusBytes(cbus)[n] == CbusByte(cbus, n);
    PairTurned(cbus[2 * n], cbus[2 * n + 1]);
  }

  lemma PairTurned(u: bv32, v: bv32)
    ensures CbusPair(u, v, 12, 0, 0) == (Clamped(v, 12, 0) << 4) | Clamped(u, 12, 0)
  {
    hide Clamped;
    OrSwap(Clamped(u, 12, 0), Clamped(v, 12, 0) << 4);
  }

  lemma SomeIsFive(b: seq<bv8>, v: seq<bv8>)
    requires |b| == BUFFER && |v| == 5
    ensures SomeBytes(b, v, 5) == FiveBytes(b, v)
  {
    hide Put;
    assert SomeBytes(b, v, 1) == Put(b, 0x18, v[0]);
    assert SomeBytes(b, v, 3) == Put(Put(SomeBytes(b, v, 1), 0x19, v[1]), 0x1a, v[2]);
  }

  lemma OrSwap(v: bv8, w: bv8)
    ensures v | w == w | v
  {
  }

  /** The tail, written byte by byte after the header */
  function TailIn(t: ChipType, x: Special, h: seq<bv8>): (r: seq<bv8>)
    requires |h| == BUFFER && |x.cbus| == CBUS
    ensures |r| == BUFFER
  {
    match t
    case AM | BM => h
    case C2232 => Put(h, 0x14, Low(x.chip))
    case R => Put(Put(Put(h, 0x14, CbusPair(x.cbus[0], x.cbus[1], 13, 3, 2)), 0x15, CbusPair(x.cbus[2], x.cbus[3], 13, 0, 1)),
                  0x16, Clamped(x.cbus[4], 9, 5))
    case H2232 | H4232 => Put(h, 0x18, Low(x.chip))
    case H232 => Put(FiveBytes(h, CbusBytes(x.cbus)), 0x1e, Low(x.chip))
  }

  // ---------- all of a build together ----------

  /** The buffer when the chip's part begins */
  function BeforeChip(t: ChipType, c: Common, size: int): (r: seq<bv8>)
    requires IsSize(size) && FirstAt(t) + |StringArea(t, c)| <= 0x100
    ensures |r| == BUFFER
  {
    var b := Laid(Opened(t, c), Directory(t, c), FirstAt(t) + size - 0x100, StringArea(t, c));
    if t == AM then b else SetIn(b, 0x0A, 8, c.useSerial != 0)
  }

  lemma LaidIs(o: seq<bv8>, dir: seq<bv8>, base: nat, area: seq<bv8>)
    requires |o| == 11 && |dir| == 6 && 0x14 <= base && base + |area| <= BUFFER
    ensures Laid(Padded(o), dir, base, area) ==
            o + (Zeros(3) + dir + (Zeros(base - 0x14) + area + Zeros(BUFFER - base - |area|)))
  {
    var b := Padded(o);
    assert b[..0x0E] == o + Zeros(3);
    assert b[0x14..base] == Zeros(base - 0x14) && b[base + |area|..] == Zeros(BUFFER - base - |area|);
  }

  lemma SetInFront(o: seq<bv8>, rest: seq<bv8>, mask: bv8, on: bool)
    requires |o| == 11
    ensures SetIn(o + rest, 0x0A, mask, on) == o[0x0A := WithBit(o[0x0A], mask, on)] + rest
  {
    hide WithBit;
  }

  lemma HeaderInFront(m: seq<bv8>, s: bv8, dir: seq<bv8>, rest: seq<bv8>, u: seq<bv8>)
    requires |m| == 8 && |dir| == 6 && |rest| == BUFFER - 0x14 && |u| == 6
    ensures var b := [0, 0] + m + [s] + (Zeros(3) + dir + rest);
            WithHeader(b, u[0], u[1], u[2], u[3], u[4], u[5]) == [u[0], u[1]] + m + u[2..6] + dir + rest
  {
    var b := [0, 0] + m + [s] + (Zeros(3) + dir + rest);
    var r := [u[0], u[1]] + m + u[2..6] + dir + rest;
    assert |b| == |r| == BUFFER;
  }

  /** From 0x14 on */
  function Rest(t: ChipType, c: Common, size: int): (r: seq<bv8>)
    requires IsSize(size) && FirstAt(t) + |StringArea(t, c)| <= 0x100
    ensures |r| == BUFFER - 0x14
  {
    var base, area := FirstAt(t) + size - 0x100, StringArea(t, c);
    Zeros(base - 0x14) + area + Zeros(BUFFER - base - |area|)
  }

  lemma OpeningIs(t: ChipType, c: Common)
    ensures t != AM ==> Opening(t, c)[0x0A := SerialByte(t, c)] == [0, 0] + Numbers(c) + [SerialByte(t, c)]
    ensures t == AM ==> Opening(t, c) == [0, 0] + Numbers(c) + [SerialByte(t, c)]
    ensures Opening(t, c)[0x0A] == if t == AM then 0 else IsochronousBits(c)
  {
    hide Numbers, IsochronousBits, WithBit;
  }

  lemma BeforeChipIs(t: ChipType, c: Common, size: int)
    requires IsSize(size) && FirstAt(t) + |StringArea(t, c)| <= 0x100
    ensures BeforeChip(t, c, size) == [0, 0] + Numbers(c) + [SerialByte(t, c)] + (Zeros(3) + Directory(t, c) + Rest(t, c, size))
  {
    hide Numbers, Directory, StringArea, Laid, Padded, SetIn, WithBit, IsochronousBits, Zeros, Opening;
    OpeningIs(t, c);
    LaidIs(Opening(t, c), Directory(t, c), FirstAt(t) + size - 0x100, StringArea(t, c));
    SetInFront(Opening(t, c), Zeros(3) + Directory(t, c) + Rest(t, c, size), 8, c.useSerial != 0);
  }

  lemma PreparedShape(m: seq<bv8>, s: bv8, dir: seq<bv8>, rest: seq<bv8>)
    requires |m| == 8 && |dir| == 6 && |rest| == BUFFER - 0x14
    ensures var b := [0, 0] + m + [s] + (Zeros(3) + dir + rest);
            && |b| == BUFFER && b[0] == 0 && b[1] == 0 && b[0x0A] == s && b[0x0B] == 0 && b[0x0C] == 0 && b[0x0D] == 0
            && b[0x14..] == rest
  {
  }

  lemma StartFits(t: ChipType)
    ensures 0x14 <= Start(t) <= 0x20
  {
  }

  lemma ZerosAdd(m: nat, n: nat)
    ensures |Zeros(m)| == m && |Zeros(n)| == n && Zeros(m) + Zeros(n) == Zeros(m + n)
  {
  }

  lemma FrontOff<T>(a: seq<T>, b: seq<T>, c: seq<T>, d: seq<T>)
    ensures (a + b + c + d)[..|a|] == a && (a + b + c + d)[|a|..] == b + c + d
  {
  }

  lemma RestStarts(t: ChipType, c: Common, size: int)
    requires IsSize(size) && Start(t) + |StringArea(t, c)| <= 0x7e
    ensures var n, area := Start(t) - 0x14, StringArea(t, c);
            && Rest(t, c, size)[..n] == Zeros(n)
            && Rest(t, c, size)[n..] == Zeros(size - 0x80) + area + Zeros(0x7e - Start(t) - |area|) + Zeros(BUFFER + 2 - size)
  {
    hide StringArea, Zeros, Start;
    StartFits(t);
    var base, area, z := Start(t) + size - 0x80, StringArea(t, c), 0x7e - Start(t) - |StringArea(t, c)|;
    ZerosAdd(Start(t) - 0x14, size - 0x80);
    ZerosAdd(z, BUFFER + 2 - size);
    FrontOff(Zeros(Start(t) - 0x14), Zeros(size - 0x80), area, Zeros(BUFFER - base - |area|));
  }

  lemma ChipPrepared(t: ChipType, c: Common, size: int)
    requires IsSize(size) && Start(t) + |StringArea(t, c)| <= 0x7e
    ensures Prepared(t, c, BeforeChip(t, c, size))
  {
    hide Numbers, Directory, StringArea, BeforeChip, SerialByte, Rest, Zeros;
    BeforeChipIs(t, c, size);
    PreparedShape(Numbers(c), SerialByte(t, c), Directory(t, c), Rest(t, c, size));
    RestStarts(t, c, size);
    var b := BeforeChip(t, c, size);
    SliceOfSlice(b, 0x14, BUFFER, 0, Start(t) - 0x14);
  }

  lemma ConfigureShape(t: ChipType, c: Common, x: Special, size: int)
    requires |x.cbus| == CBUS && IsSize(size) && Start(t) + |StringArea(t, c)| <= 0x7e
    ensures Configure(t, c, x, BeforeChip(t, c, size)) ==
            Header(t, c, x) + Directory(t, c) + Tail(t, x) + Rest(t, c, size)[Start(t) - 0x14..]
  {
    hide Numbers, Directory, StringArea, BeforeChip, SerialByte, Rest, Zeros, Byte00, Byte01, Byte0A, Byte0B, Byte0C, Byte0D,
      WithHeader, Tail;
    var b, m, dir, rest := BeforeChip(t, c, size), Numbers(c), Directory(t, c), Rest(t, c, size);
    var u := [Byte00(t, x), Byte01(t, x), Byte0A(t, c), Byte0B(t, x), Byte0C(t, c, x), Byte0D(t, c, x)];
    BeforeChipIs(t, c, size);
    PreparedShape(m, SerialByte(t, c), dir, rest);
    HeaderInFront(m, SerialByte(t, c), dir, rest, u);
    var h := WithHeader(b, u[0], u[1], u[2], u[3], u[4], u[5]);
    assert u[2..6] == [u[2], u[3], u[4], u[5]];
    assert h[..0x14] == Header(t, c, x) + dir;
    SliceOfSlice(b, 0x14, BUFFER, Start(t) - 0x14, BUFFER - 0x14);
  }

  /** When the chip's part is done, all but the checksum is in place. */
  lemma BodyInPlace(t: ChipType, e: Settings, size: int)
    requires |e.special.cbus| == CBUS && IsSize(size) && UserArea(t, e.common) >= 0
    ensures FirstAt(t) + |StringArea(t, e.common)| <= 0x100
    ensures Configure(t, e.common, e.special, BeforeChip(t, e.common, size)) == Body(t, e, size) + Zeros(BUFFER + 2 - size)
  {
    hide Header, Directory, Tail, StringArea, Configure, BeforeChip, Rest, Zeros, UserArea;
    PartsFit(t, e);
    ConfigureShape(t, e.common, e.special, size);
    RestStarts(t, e.common, size);
  }

  lemma SealInPlace(body: seq<bv8>, size: int)
    requires IsSize(size) && |body| == size - 2
    ensures var sum := Checksum(body, size / 2 - 1);
            Put(Put(body + Zeros(BUFFER + 2 - size), size - 2, LowHalf(sum)), size - 1, HighHalf(sum)) == Sealed(body, size)
  {
    hide Checksum, LowHalf, HighHalf;
  }

  lemma XorSwap(v: bv16, w: bv16)
    ensures v ^ w == w ^ v
  {
  }

  lemma SumOfBody(body: seq<bv8>, size: int)
    requires IsSize(size) && |body| == size - 2
    ensures Checksum(body + Zeros(BUFFER + 2 - size), size / 2 - 1) == Checksum(body, size / 2 - 1)
  {
    hide Checksum;
    ChecksumOfPrefix(body + Zeros(BUFFER + 2 - size), body, size / 2 - 1);
  }

  lemma Prepare(t: ChipType, e: Settings, size: int)
    requires WellFormed(e) && IsSize(size) && UserArea(t, e.common) >= 0
    ensures |e.special.cbus| == CBUS && FirstAt(t) + |StringArea(t, e.common)| <= 0x100
    ensures Prepared(t, e.common, BeforeChip(t, e.common, size))
    ensures Configure(t, e.common, e.special, BeforeChip(t, e.common, size)) == Body(t, e, size) + Zeros(BUFFER + 2 - size)
  {
    hide Prepared, Configure, BeforeChip, StringArea, UserArea, Zeros;
    PartsFit(t, e);
    BodyInPlace(t, e, size);
    ChipPrepared(t, e.common, size);
  }

  lemma {:induction false} CutHasNoNul(s: seq<bv8>)
    ensures 0 !in CutAtNul(s)
  {
    if s != [] && s[0] != 0 {
      CutHasNoNul(s[1..]);
    }
  }

  lemma StringIsText(b: seq<bv8>, at: nat, size: int)
    requires |b| == BUFFER && at + 1 < BUFFER && IsSize(size) && StringInside(b, at, size)
    ensures IsText(StringAt(b, at, size))
  {
    hide FromByte;
    var n, i := FromByte(b[at + 1]) / 2, FromByte(b[at]) % size;
    if n > 0 {
      CutHasNoNul(Characters(b, i + 2, n - 1));
    }
  }

  /** Decoding keeps settings well formed, whether the checksum is right or wrong. */
  lemma WellFormedAfter(t: ChipType, b: seq<bv8>, size: int, e: Settings)
    requires WellFormed(e) && Readable(b, size)
    ensures WellFormed(Decode(t, b, size, e).e)
    ensures WellFormed(e.(common := DecodeCommon(b, size, e.common.isNotPnp)))
    ensures |e.special.cbus| == CBUS
  {
    hide StringAt, StringInside, IsText, ChecksumHolds, DecodeChip, Join, Bits, Int;
    StringIsText(b, 0x0E, size);
    StringIsText(b, 0x10, size);
    StringIsText(b, 0x12, size);
    CbusKeepsLength(t, b, e.special);
  }
}
