/** The EEPROM image of Resources/libftdi1-1.2/src/ftdi.c: what `ftdi_eeprom_build` writes for each chip
    type and what `ftdi_eeprom_decode` makes of an image.  A C `int` is its 32 bits, an `unsigned char`
    its 8. */
module Eeprom {
  datatype Option<T> = None | Some(value: T)

  datatype ChipType = AM | BM | C2232 | R | H2232 | H4232 | H232

  /** Drive strength, Schmitt trigger and slew rate of one group of pins */
  datatype Pins = Pins(drive: bv32, schmitt: bv32, slew: bv32)

  /** Fields that mean the same for every chip; a string is its characters before the closing NUL. */
  datatype Common = Common(
    vendorId: bv32, productId: bv32, releaseNumber: bv32,
    selfPowered: bv32, remoteWakeup: bv32, maxPower: bv32, isNotPnp: bv32,
    inIsochronous: bv32, outIsochronous: bv32, suspendPullDowns: bv32, useSerial: bv32,
    useUsbVersion: bv32, usbVersion: bv32,
    manufacturer: Option<seq<bv8>>, product: Option<seq<bv8>>, serial: Option<seq<bv8>>)

  /** The `channel_a_…` fields and `high_current_a`, and so on; not all exist for every channel. */
  datatype Channel = Channel(mode: bv32, driver: bv32, rs485: bv32, highCurrent: bv32)

  datatype Groups = Groups(group0: Pins, group1: Pins, group2: Pins, group3: Pins)

  /** Fields of the 232H alone */
  datatype Ft1284 = Ft1284(clockPolarity: bv32, dataOrder: bv32, flowControl: bv32, powersave: bv32)

  /** Fields that only some chips have; `chip` is the kind of EEPROM. */
  datatype Special = Special(
    a: Channel, b: Channel, c: Channel, d: Channel, cbus: seq<bv32>, highCurrent: bv32, invert: bv32, suspendDbus7: bv32,
    pins: Groups, ft1284: Ft1284, chip: bv32)

  /** `struct ftdi_eeprom` apart from the image and its size */
  datatype Settings = Settings(common: Common, special: Special)

  const NO_CHIP: bv32 := 0xffff_ffff // -1
  const BUFFER := 256
  const CBUS := 10

  predicate IsText(s: Option<seq<bv8>>) {
    s.Some? ==> 0 !in s.value
  }

  predicate WellFormed(e: Settings) {
    |e.special.cbus| == CBUS && IsText(e.common.manufacturer) && IsText(e.common.product) && IsText(e.common.serial)
  }

  predicate IsSize(size: int) {
    size == 0x80 || size == 0x100
  }

  // ---------- bytes ----------

  function Low(x: bv32): bv8 {
    (x & 0xff) as bv8
  }

  function High(x: bv32): bv8 {
    ((x >> 8) & 0xff) as bv8
  }

  function Join(low: bv8, high: bv8): bv32 {
    (low as bv32) | ((high as bv32) << 8)
  }

  function Int(b: bv8): bv32 {
    b as bv32
  }

  function ToByte(n: nat): bv8 {
    (n % 256) as bv8
  }

  function FromByte(b: bv8): (n: nat)
    ensures n < 256
  {
    b as nat
  }

  function Flag(on: bool, bit: bv8): bv8 {
    if on then bit else 0
  }

  /** `x > limit` on signed integers */
  predicate Exceeds(x: bv32, limit: bv32) {
    x < 0x8000_0000 && x > limit
  }

  /** `x / 2`, which rounds toward zero */
  function Half(x: bv32): bv32 {
    if x < 0x8000_0000 then x >> 1 else 0 - ((0 - x) >> 1)
  }

  // ---------- configuration bytes ----------

  /** `type2bit` */
  function Type2Bit(mode: bv8, t: ChipType): bv8 {
    if mode == 1 || mode == 2 || mode == 4 then
      if t == H2232 || t == C2232 || t == H232 then mode else 0
    else if mode == 8 && t == H232 then 8 else 0
  }

  /** `bit2type` */
  function Bit2Type(bits: bv8): bv8 {
    if bits == 1 || bits == 2 || bits == 4 || bits == 8 then bits else 0
  }

  function Byte00(t: ChipType, x: Special): bv8 {
    match t
    case AM | BM => 0
    case C2232 => Type2Bit(Low(x.a.mode), t) | Flag(x.a.driver == 8, 8) | Flag(x.a.highCurrent == 0x10, 0x10)
    case R => Flag(x.highCurrent == 4, 4)
    case H2232 => Type2Bit(Low(x.a.mode), t) | Flag(x.a.driver == 8, 8)
    case H4232 => Flag(x.a.driver == 8, 8) | Flag(x.c.driver == 8, 0x80)
    case H232 => Type2Bit(Low(x.a.mode), t) | Flag(x.a.driver == 8, 0x10)
  }

  function Byte01(t: ChipType, x: Special): bv8 {
    match t
    case AM | BM => 0
    case C2232 => Type2Bit(Low(x.b.mode), t) | Flag(x.b.driver == 8, 8) | Flag(x.b.highCurrent == 0x10, 0x10)
    case R => 0x40
    case H2232 => Type2Bit(Low(x.b.mode), t) | Flag(x.b.driver == 8, 8) | Flag(x.suspendDbus7 == 0x80, 0x80)
    case H4232 => Flag(x.b.driver == 8, 8) | Flag(x.d.driver == 8, 0x80)
    case H232 => Flag(x.ft1284.clockPolarity != 0, 1) | Flag(x.ft1284.dataOrder != 0, 2) | Flag(x.ft1284.flowControl != 0, 4) | Flag(x.ft1284.powersave != 0, 0x80)
  }

  function Byte08(c: Common): bv8 {
    0x80 | Flag(c.selfPowered != 0, 0x40) | Flag(c.remoteWakeup != 0, 0x20)
  }

  function Byte0A(t: ChipType, c: Common): bv8 {
    if t == AM then 0
    else
      Flag(c.inIsochronous != 0, 1) | Flag(c.outIsochronous != 0, 2) | Flag(c.suspendPullDowns != 0 && t != BM, 4)
      | Flag(c.useSerial != 0, 8) | Flag(c.useUsbVersion == 0x10 && (t == BM || t == C2232), 0x10)
  }

  function Byte0B(t: ChipType, x: Special): bv8 {
    if t == R then Low(x.invert)
    else if t == H4232 then
      Flag(x.a.rs485 != 0, 0x10) | Flag(x.b.rs485 != 0, 0x20)
      | Flag(x.c.rs485 != 0, 0x40) | Flag(x.d.rs485 != 0, 0x80)
    else 0
  }

  /** The four bits of a group of pins.  A negative drive strength spills over. */
  function PinBits(g: Pins): bv8 {
    (if Exceeds(g.drive, 3) then 3 else Low(g.drive)) | Flag(g.schmitt == 8, 8) | Flag(g.slew == 4, 4)
  }

  function GroupByte(g: Pins, h: Pins): bv8 {
    PinBits(g) | (PinBits(h) << 4)
  }

  function Byte0C(t: ChipType, c: Common, x: Special): bv8 {
    match t
    case AM => 0
    case BM | C2232 | R => Low(c.usbVersion)
    case H2232 | H4232 => GroupByte(x.pins.group0, x.pins.group1)
    case H232 => PinBits(x.pins.group0)
  }

  function Byte0D(t: ChipType, c: Common, x: Special): bv8 {
    match t
    case AM => 0
    case BM | C2232 | R => High(c.usbVersion)
    case H2232 | H4232 => GroupByte(x.pins.group2, x.pins.group3)
    case H232 => PinBits(x.pins.group1)
  }

  /** The function of a CBUS pin, or a default when there is no such function. */
  function Clamped(x: bv32, limit: bv32, otherwise: bv8): bv8 {
    if Exceeds(x, limit) then otherwise else Low(x)
  }

  /** Two pins in one byte */
  function CbusPair(u: bv32, v: bv32, limit: bv32, lo: bv8, hi: bv8): bv8 {
    Clamped(u, limit, lo) | (Clamped(v, limit, hi) << 4)
  }

  /** Bytes 0x18 to 0x1c of a 232H: two pins each */
  function CbusByte(cbus: seq<bv32>, k: nat): bv8
    requires 2 * k + 1 < |cbus|
  {
    CbusPair(cbus[2 * k], cbus[2 * k + 1], 12, 0, 0)
  }

  /** The bytes from 0x14 up to the strings of a 128-byte image */
  function Tail(t: ChipType, x: Special): seq<bv8>
    requires |x.cbus| == CBUS
  {
    match t
    case AM | BM => []
    case C2232 => [Low(x.chip), 0]
    case R => [CbusPair(x.cbus[0], x.cbus[1], 13, 3, 2),
               CbusPair(x.cbus[2], x.cbus[3], 13, 0, 1),
               Clamped(x.cbus[4], 9, 5), 0]
    case H2232 | H4232 => [0, 0, 0, 0, Low(x.chip), 0]
    case H232 => [0, 0, 0, 0, CbusByte(x.cbus, 0), CbusByte(x.cbus, 1), CbusByte(x.cbus, 2), CbusByte(x.cbus, 3),
                  CbusByte(x.cbus, 4), 0, Low(x.chip), 0]
  }

  // ---------- strings ----------

  /** What is stored of a string: its length is counted in a byte. */
  function Text(s: Option<seq<bv8>>): seq<bv8> {
    if s.None? then [] else s.value[..|s.value| % 256]
  }

  /** A string as 16-bit characters */
  function Wide(s: seq<bv8>): seq<bv8> {
    seq(2 * |s|, k requires 0 <= k < 2 * |s| => if k % 2 == 0 then s[k / 2] else 0)
  }

  function Descriptor(s: seq<bv8>): seq<bv8> {
    [ToByte(2 * |s| + 2), 3] + Wide(s)
  }

  function PnpBytes(t: ChipType, c: Common): seq<bv8> {
    if t == AM || t == BM then [] else [2, 3, Low(c.isNotPnp)]
  }

  function StringArea(t: ChipType, c: Common): seq<bv8> {
    Descriptor(Text(c.manufacturer)) + Descriptor(Text(c.product)) + Descriptor(Text(c.serial)) + PnpBytes(t, c)
  }

  /** Address of the strings in a 128-byte image; in a 256-byte image they are 0x80 further up. */
  function Start(t: ChipType): nat {
    match t
    case AM | BM => 0x14
    case C2232 => 0x16
    case R => 0x18
    case H2232 | H4232 => 0x1a
    case H232 => 0x20
  }

  function BaseSize(t: ChipType): nat {
    match t
    case AM | BM => 96
    case C2232 => 90
    case R => 88
    case H2232 | H4232 => 86
    case H232 => 80
  }

  function TextLength(c: Common): nat {
    |Text(c.manufacturer)| + |Text(c.product)| + |Text(c.serial)|
  }

  /** The bytes left over for strings */
  function UserArea(t: ChipType, c: Common): int {
    BaseSize(t) - 2 * TextLength(c)
  }

  // ---------- the image ----------

  /** Where the three strings are and how long; the addresses are those of a 256-byte image. */
  function Directory(t: ChipType, c: Common): (r: seq<bv8>)
    ensures |r| == 6
  {
    var m, p, s := |Text(c.manufacturer)|, |Text(c.product)|, |Text(c.serial)|;
    [ToByte(0x80 + Start(t)), ToByte(2 * m + 2),
     ToByte(0x82 + Start(t) + 2 * m), ToByte(2 * p + 2),
     ToByte(0x84 + Start(t) + 2 * m + 2 * p), ToByte(2 * s + 2)]
  }

  /** Bytes 2 to 9, the same for every chip */
  function Numbers(c: Common): (r: seq<bv8>)
    ensures |r| == 8
  {
    [Low(c.vendorId), High(c.vendorId), Low(c.productId), High(c.productId), Low(c.releaseNumber), High(c.releaseNumber),
     Byte08(c), Low(Half(c.maxPower))]
  }

  function Header(t: ChipType, c: Common, x: Special): (r: seq<bv8>)
    ensures |r| == 14
  {
    [Byte00(t, x), Byte01(t, x)] + Numbers(c) + [Byte0A(t, c), Byte0B(t, x), Byte0C(t, c, x), Byte0D(t, c, x)]
  }

  function Config(t: ChipType, e: Settings): seq<bv8>
    requires |e.special.cbus| == CBUS
  {
    Header(t, e.common, e.special) + Directory(t, e.common) + Tail(t, e.special)
  }

  function Zeros(n: nat): seq<bv8> {
    seq(n, _ => 0)
  }

  lemma AreaLength(t: ChipType, c: Common)
    ensures |StringArea(t, c)| == 2 * TextLength(c) + if t == AM || t == BM then 6 else 9
  {
  }

  lemma PartsFit(t: ChipType, e: Settings)
    requires |e.special.cbus| == CBUS && UserArea(t, e.common) >= 0
    ensures |Config(t, e)| == Start(t) && Start(t) + |StringArea(t, e.common)| <= 0x7e
  {
    AreaLength(t, e.common);
    hide StringArea, TextLength;
  }

  /** All but the checksum: configuration and strings follow each other and stay apart. */
  function Lay(config: seq<bv8>, area: seq<bv8>, size: int): (r: seq<bv8>)
    requires IsSize(size) && |config| + |area| <= 0x7e
    ensures |r| == size - 2
  {
    config + Zeros(size - 0x80) + area + Zeros(0x7e - |config| - |area|)
  }

  function Body(t: ChipType, e: Settings, size: int): (r: seq<bv8>)
    requires |e.special.cbus| == CBUS && IsSize(size) && UserArea(t, e.common) >= 0
    ensures |r| == size - 2
  {
    PartsFit(t, e);
    Lay(Config(t, e), StringArea(t, e.common), size)
  }

  function Word(b: seq<bv8>, i: nat): bv16
    requires 2 * i + 1 < |b|
  {
    (b[2 * i] as bv16) | ((b[2 * i + 1] as bv16) << 8)
  }

  function Rotate(x: bv16): bv16 {
    (x << 1) | (x >> 15)
  }

  /** The checksum of the first `n` words */
  function Checksum(b: seq<bv8>, n: nat): bv16
    requires 2 * n <= |b|
  {
    if n == 0 then 0xAAAA else Rotate(Checksum(b, n - 1) ^ Word(b, n - 1))
  }

  function LowHalf(x: bv16): bv8 {
    (x & 0xff) as bv8
  }

  function HighHalf(x: bv16): bv8 {
    (x >> 8) as bv8
  }

  /** With the checksum at the end, in the whole buffer */
  function Sealed(body: seq<bv8>, size: int): (r: seq<bv8>)
    requires IsSize(size) && |body| == size - 2
    ensures |r| == BUFFER
  {
    var sum := Checksum(body, size / 2 - 1);
    body + [LowHalf(sum), HighHalf(sum)] + Zeros(BUFFER - size)
  }

  function Image(t: ChipType, e: Settings, size: int): (r: seq<bv8>)
    requires |e.special.cbus| == CBUS && IsSize(size) && UserArea(t, e.common) >= 0
    ensures |r| == BUFFER
  {
    Sealed(Body(t, e, size), size)
  }

  // ---------- what ftdi_eeprom_build returns ----------

  /** The size after the call */
  function SizeFor(e: Settings, size: int): int {
    if e.special.chip != NO_CHIP && size == -1 then if e.special.chip == 0x56 || e.special.chip == 0x66 then 0x100 else 0x80 else size
  }

  function BuildCode(t: ChipType, e: Settings): int {
    if e.special.chip == NO_CHIP then -6 else if UserArea(t, e.common) < 0 then -1 else UserArea(t, e.common)
  }

  // ---------- ftdi_eeprom_decode ----------

  function CutAtNul(s: seq<bv8>): seq<bv8> {
    if s == [] || s[0] == 0 then [] else [s[0]] + CutAtNul(s[1..])
  }

  /** The string whose address and length are at `at` and `at + 1` lies inside the buffer. */
  predicate StringInside(b: seq<bv8>, at: nat, size: int)
    requires |b| == BUFFER && at + 1 < BUFFER && IsSize(size)
  {
    var n, i := FromByte(b[at + 1]) / 2, FromByte(b[at]) % size;
    n >= 2 ==> i + 2 * n - 2 < BUFFER
  }

  predicate Readable(b: seq<bv8>, size: int) {
    |b| == BUFFER && IsSize(size) && StringInside(b, 0x0E, size) && StringInside(b, 0x10, size)
    && StringInside(b, 0x12, size)
  }

  function Characters(b: seq<bv8>, from: nat, n: nat): (r: seq<bv8>)
    requires |b| == BUFFER && (n > 0 ==> from + 2 * n - 2 < BUFFER)
  {
    seq(n, j requires 0 <= j < n => b[2 * j + from])
  }

  function StringAt(b: seq<bv8>, at: nat, size: int): Option<seq<bv8>>
    requires |b| == BUFFER && at + 1 < BUFFER && IsSize(size) && StringInside(b, at, size)
  {
    var n, i := FromByte(b[at + 1]) / 2, FromByte(b[at]) % size;
    if n == 0 then None else Some(CutAtNul(Characters(b, i + 2, n - 1)))
  }

  /** The fields common to all chips; whether there are PnP bytes is not read back. */
  function CommonOf(b: seq<bv8>, isNotPnp: bv32, manufacturer: Option<seq<bv8>>, product: Option<seq<bv8>>,
                    serial: Option<seq<bv8>>): Common
    requires |b| == BUFFER
  {
    Common(Join(b[0x02], b[0x03]), Join(b[0x04], b[0x05]), Join(b[0x06], b[0x07]),
           Bits(b[0x08], 0x40), Bits(b[0x08], 0x20), 2 * Int(b[0x09]), isNotPnp,
           Bits(b[0x0A], 1), Bits(b[0x0A], 2), Bits(b[0x0A], 4), if b[0x0A] & 8 != 0 then 1 else 0,
           Bits(b[0x0A], 0x10), Join(b[0x0C], b[0x0D]), manufacturer, product, serial)
  }

  /** What is read before the checksum is looked at */
  function DecodeCommon(b: seq<bv8>, size: int, isNotPnp: bv32): Common
    requires Readable(b, size)
  {
    CommonOf(b, isNotPnp, StringAt(b, 0x0E, size), StringAt(b, 0x10, size), StringAt(b, 0x12, size))
  }

  predicate ChecksumHolds(b: seq<bv8>, size: int)
    requires |b| == BUFFER && IsSize(size)
  {
    Word(b, size / 2 - 1) == Checksum(b, size / 2 - 1)
  }

  function Bits(b: bv8, mask: bv8): bv32 {
    Int(b & mask)
  }

  function Upper(b: bv8): bv8 {
    b >> 4
  }

  /** The mode of a channel from the three low bits */
  function Mode(b: bv8): bv32 {
    Int(Bit2Type(b & 7))
  }

  function PinsOf(bits: bv8): Pins {
    Pins(Bits(bits, 3), Bits(bits, 8), Bits(bits, 4))
  }

  function FourGroups(b: seq<bv8>): Groups
    requires |b| == BUFFER
  {
    Groups(PinsOf(b[0x0C]), PinsOf(Upper(b[0x0C])), PinsOf(b[0x0D]), PinsOf(Upper(b[0x0D])))
  }

  /** Ten CBUS functions from five bytes */
  function CbusOf(b: seq<bv8>): (r: seq<bv32>)
    requires |b| == 5
    ensures |r| == CBUS
  {
    [Bits(b[0], 0xf), Bits(Upper(b[0]), 0xf), Bits(b[1], 0xf), Bits(Upper(b[1]), 0xf), Bits(b[2], 0xf),
     Bits(Upper(b[2]), 0xf), Bits(b[3], 0xf), Bits(Upper(b[3]), 0xf), Bits(b[4], 0xf), Bits(Upper(b[4]), 0xf)]
  }

  /** Five CBUS functions; the others stay. */
  function FiveCbus(b: seq<bv8>, cbus: seq<bv32>): (r: seq<bv32>)
    requires |b| == BUFFER && |cbus| == CBUS
    ensures |r| == CBUS
  {
    [Bits(b[0x14], 0xf), Bits(Upper(b[0x14]), 0xf), Bits(b[0x15], 0xf), Bits(Upper(b[0x15]), 0xf), Bits(b[0x16], 0xf)]
    + cbus[5..]
  }

  function Decode2232C(b: seq<bv8>, x: Special): Special
    requires |b| == BUFFER
  {
    x.(a := x.a.(mode := Mode(b[0]), driver := Bits(b[0], 8), highCurrent := Bits(b[0], 0x10)),
       b := x.b.(mode := Bits(b[1], 7), driver := Bits(b[1], 8), highCurrent := Bits(b[1], 0x10)),
       chip := Int(b[0x14]))
  }

  /** Here the driver bit means D2XX and not, as elsewhere, VCP. */
  function DecodeR(b: seq<bv8>, x: Special): Special
    requires |b| == BUFFER && |x.cbus| == CBUS
  {
    x.(a := x.a.(mode := 0, driver := Bits(!b[0], 8)), highCurrent := Bits(b[0], 4), chip := Int(b[0x16]),
       invert := Int(b[0x0B]), cbus := FiveCbus(b, x.cbus))
  }

  function Decode2232H(b: seq<bv8>, x: Special): Special
    requires |b| == BUFFER
  {
    x.(a := x.a.(mode := Mode(b[0]), driver := Bits(b[0], 8)), b := x.b.(mode := Mode(b[1]), driver := Bits(b[1], 8)),
       suspendDbus7 := Bits(b[1], 0x80), pins := FourGroups(b), chip := Int(b[0x18]))
  }

  function Decode4232H(b: seq<bv8>, x: Special): Special
    requires |b| == BUFFER
  {
    x.(a := x.a.(mode := 0, driver := Bits(b[0], 8), rs485 := Bits(b[0x0B], 0x10)),
       b := x.b.(driver := Bits(b[1], 8), rs485 := Bits(b[0x0B], 0x20)),
       c := x.c.(driver := Bits(Upper(b[0]), 8), rs485 := Bits(b[0x0B], 0x40)),
       d := x.d.(driver := Bits(Upper(b[1]), 8), rs485 := Bits(b[0x0B], 0x80)),
       pins := FourGroups(b), chip := Int(b[0x18]))
  }

  function Decode232H(b: seq<bv8>, x: Special): Special
    requires |b| == BUFFER
  {
    x.(a := x.a.(mode := Bits(b[0], 0xf), driver := if Bits(b[0], 0x10) != 0 then 8 else 0),
       ft1284 := Ft1284(Bits(b[1], 1), Bits(b[1], 2), Bits(b[1], 4), Bits(b[1], 0x80)),
       pins := x.pins.(group0 := PinsOf(b[0x0C]), group1 := PinsOf(b[0x0D])),
       cbus := CbusOf(b[0x18..0x1d]), chip := Int(b[0x1e]))
  }

  /** The fields of the particular chip */
  function DecodeChip(t: ChipType, b: seq<bv8>, x: Special): Special
    requires |b| == BUFFER && |x.cbus| == CBUS
  {
    match t
    case AM | BM => x.(a := x.a.(mode := 0), chip := NO_CHIP)
    case C2232 => Decode2232C(b, x)
    case R => DecodeR(b, x)
    case H2232 => Decode2232H(b, x)
    case H4232 => Decode4232H(b, x)
    case H232 => Decode232H(b, x)
  }

  datatype Decoded = Decoded(code: int, e: Settings)

  /** `ftdi_eeprom_decode`: a wrong checksum leaves the fields common to all chips changed. */
  function Decode(t: ChipType, b: seq<bv8>, size: int, e: Settings): Decoded
    requires Readable(b, size) && |e.special.cbus| == CBUS
  {
    var common := DecodeCommon(b, size, e.common.isNotPnp);
    if ChecksumHolds(b, size) then Decoded(0, Settings(common, DecodeChip(t, b, e.special)))
    else Decoded(-1, Settings(common, e.special))
  }
}
