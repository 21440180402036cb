/** What survives `ftdi_eeprom_build` followed by `ftdi_eeprom_decode`. */
module EepromRoundTrip {
  import opened Eeprom

  // ---------- the parts of an image ----------

  lemma SliceOfSlice<T>(b: seq<T>, lo: nat, hi: nat, x: nat, y: nat)
    requires x <= y && lo + y <= hi <= |b|
    ensures b[lo..hi][x..y] == b[lo + x..lo + y]
  {
    var c := b[lo..hi];
    assert forall k :: 0 <= k < y - x ==> c[x..y][k] == b[lo + x..lo + y][k];
  }

  lemma LaidParts(config: seq<bv8>, area: seq<bv8>, size: int)
    requires IsSize(size) && |config| + |area| <= 0x7e
    ensures var r, base := Lay(config, area, size), |config| + size - 0x80;
            r[..|config|] == config && r[base..base + |area|] == area
  {
  }

  lemma SealedParts(body: seq<bv8>, size: int)
    requires IsSize(size) && |body| == size - 2
    ensures Sealed(body, size)[..size - 2] == body
  {
  }

  lemma PartsStay(config: seq<bv8>, area: seq<bv8>, size: int)
    requires IsSize(size) && |config| + |area| <= 0x7e
    ensures var im, base := Sealed(Lay(config, area, size), size), |config| + size - 0x80;
            im[..|config|] == config && im[base..base + |area|] == area
  {
    LaidParts(config, area, size);
    var body := Lay(config, area, size);
    SealedParts(body, size);
    hide Lay, Sealed;
    var im, base := Sealed(body, size), |config| + size - 0x80;
    SliceOfSlice(im, 0, size - 2, 0, |config|);
    SliceOfSlice(im, 0, size - 2, base, base + |area|);
  }

  lemma ImageIs(t: ChipType, e: Settings, size: int)
    requires |e.special.cbus| == CBUS && IsSize(size) && UserArea(t, e.common) >= 0
    ensures |Config(t, e)| == Start(t) && |Config(t, e)| + |StringArea(t, e.common)| <= 0x7e
    ensures Image(t, e, size) == Sealed(Lay(Config(t, e), StringArea(t, e.common), size), size)
  {
    PartsFit(t, e);
    hide Config, StringArea, Sealed, Lay, UserArea, Start;
  }

  /** Configuration and strings are in the image as they were written: nothing overlaps. */
  lemma ImageParts(t: ChipType, e: Settings, size: int)
    requires |e.special.cbus| == CBUS && IsSize(size) && UserArea(t, e.common) >= 0
    ensures var config, area := Config(t, e), StringArea(t, e.common);
            var im, base := Image(t, e, size), |config| + size - 0x80;
            && |im| == BUFFER && |config| == Start(t) && |config| + |area| <= 0x7e
            && im[..|config|] == config && im[base..base + |area|] == area
  {
    hide Config, StringArea, Sealed, Lay, UserArea, Start, Image;
    ImageIs(t, e, size);
    PartsStay(Config(t, e), StringArea(t, e.common), size);
  }

  // ---------- the checksum ----------

  lemma {:induction false} ChecksumOfPrefix(b: seq<bv8>, c: seq<bv8>, n: nat)
    requires 2 * n <= |b| && 2 * n <= |c| && b[..2 * n] == c[..2 * n]
    ensures Checksum(b, n) == Checksum(c, n)
  {
    if n > 0 {
      var k := 2 * (n - 1);
      assert b[..k] == b[..2 * n][..k] && c[..k] == c[..2 * n][..k];
      assert b[k] == b[..2 * n][k] && b[k + 1] == b[..2 * n][k + 1];
      assert c[k] == c[..2 * n][k] && c[k + 1] == c[..2 * n][k + 1];
      hide Word, Rotate;
      ChecksumOfPrefix(b, c, n - 1);
      assert Word(b, n - 1) == Word(c, n - 1) by { SameWord(b, c, n - 1); }
    }
  }

  lemma SameWord(b: seq<bv8>, c: seq<bv8>, i: nat)
    requires 2 * i + 1 < |b| && 2 * i + 1 < |c| && b[2 * i] == c[2 * i] && b[2 * i + 1] == c[2 * i + 1]
    ensures Word(b, i) == Word(c, i)
  {
  }

  lemma Halves(x: bv16)
    ensures (LowHalf(x) as bv16) | ((HighHalf(x) as bv16) << 8) == x
  {
  }

  lemma SealedChecks(body: seq<bv8>, size: int)
    requires IsSize(size) && |body| == size - 2
    ensures ChecksumHolds(Sealed(body, size), size)
  {
    var im, n := Sealed(body, size), size / 2 - 1;
    var sum := Checksum(body, n);
    SealedParts(body, size);
    Halves(sum);
    hide LowHalf, HighHalf, Checksum;
    assert im[2 * n] == LowHalf(sum) && im[2 * n + 1] == HighHalf(sum);
    ChecksumOfPrefix(im, body, n);
  }

  /** An image that was built passes the check of its reader. */
  lemma ImageChecks(t: ChipType, e: Settings, size: int)
    requires |e.special.cbus| == CBUS && IsSize(size) && UserArea(t, e.common) >= 0
    ensures ChecksumHolds(Image(t, e, size), size)
  {
    SealedChecks(Body(t, e, size), size);
  }

  // ---------- strings ----------

  lemma {:induction false} NothingToCut(s: seq<bv8>)
    requires 0 !in s
    ensures CutAtNul(s) == s
  {
    if s != [] {
      NothingToCut(s[1..]);
    }
  }

  lemma ByteBack(n: nat)
    requires n < 256
    ensures FromByte(ToByte(n)) == n
  {
  }

  lemma CharactersAre(b: seq<bv8>, i: nat, s: seq<bv8>)
    requires |b| == BUFFER && i + 2 + 2 * |s| <= BUFFER && b[i..i + 2 + 2 * |s|] == Descriptor(s)
    ensures Characters(b, i + 2, |s|) == s
  {
    hide ToByte;
    var d := b[i..i + 2 + 2 * |s|];
    forall j | 0 <= j < |s| ensures b[2 * j + (i + 2)] == s[j] {
      assert d[2 * j + 2] == b[2 * j + (i + 2)];
      assert Wide(s)[2 * j] == s[j];
    }
  }

  lemma StringComesBack(b: seq<bv8>, at: nat, size: int, i: nat, s: seq<bv8>)
    requires |b| == BUFFER && at + 1 < BUFFER && IsSize(size) && 0 !in s
    requires i + 2 + 2 * |s| < size && FromByte(b[at]) % size == i && b[at + 1] == ToByte(2 * |s| + 2)
    requires b[i..i + 2 + 2 * |s|] == Descriptor(s)
    ensures StringInside(b, at, size) && StringAt(b, at, size) == Some(s)
  {
    hide FromByte, ToByte, Descriptor, CutAtNul, Characters;
    ByteBack(2 * |s| + 2);
    CharactersAre(b, i, s);
    NothingToCut(s);
  }


  lemma TextHasNoNul(s: Option<seq<bv8>>)
    requires IsText(s)
    ensures 0 !in Text(s)
  {
  }

  /** The address stored for a string, masked, is where it is. */
  lemma AddressBack(k: nat, size: int)
    requires k < 0x80 && IsSize(size)
    ensures FromByte(ToByte(0x80 + k)) % size == k + size - 0x80
  {
    hide FromByte, ToByte;
    ByteBack(0x80 + k);
  }

  lemma StoredStringComesBack(b: seq<bv8>, at: nat, size: int, k: nat, s: seq<bv8>)
    requires |b| == BUFFER && at + 1 < BUFFER && IsSize(size) && 0 !in s && k + 2 + 2 * |s| < 0x80
    requires b[at] == ToByte(0x80 + k) && b[at + 1] == ToByte(2 * |s| + 2)
    requires b[k + size - 0x80..k + size - 0x80 + 2 + 2 * |s|] == Descriptor(s)
    ensures StringInside(b, at, size) && StringAt(b, at, size) == Some(s)
  {
    AddressBack(k, size);
    hide StringInside, StringAt, ToByte, FromByte;
    StringComesBack(b, at, size, k + size - 0x80, s);
  }

  lemma DescriptorLength(s: seq<bv8>)
    ensures |Descriptor(s)| == 2 + 2 * |s| && Descriptor(s)[..2 + 2 * |s|] == Descriptor(s)
  {
  }

  /** The three strings of `b`, whose area at `base` and directory at 0x0E are as they should be. */
  lemma ThreeStrings(b: seq<bv8>, size: int, start: nat, m: seq<bv8>, p: seq<bv8>, s: seq<bv8>, rest: seq<bv8>)
    requires |b| == BUFFER && IsSize(size) && 0 !in m && 0 !in p && 0 !in s
    requires start + 6 + 2 * (|m| + |p| + |s|) + |rest| <= 0x7e
    requires var area, base := Descriptor(m) + Descriptor(p) + Descriptor(s) + rest, start + size - 0x80;
             b[base..base + |area|] == area
    requires b[0x0E] == ToByte(0x80 + start) && b[0x0F] == ToByte(2 * |m| + 2)
    requires b[0x10] == ToByte(0x82 + start + 2 * |m|) && b[0x11] == ToByte(2 * |p| + 2)
    requires b[0x12] == ToByte(0x84 + start + 2 * |m| + 2 * |p|) && b[0x13] == ToByte(2 * |s| + 2)
    ensures Readable(b, size)
    ensures StringAt(b, 0x0E, size) == Some(m) && StringAt(b, 0x10, size) == Some(p) && StringAt(b, 0x12, size) == Some(s)
  {
    hide Descriptor, StringInside, StringAt, ToByte, FromByte;
    var base := start + size - 0x80;
    var dm, dp, ds := Descriptor(m), Descriptor(p), Descriptor(s);
    DescriptorLength(m);
    DescriptorLength(p);
    DescriptorLength(s);
    PiecesInside(b, base, dm, dp, ds, rest);
    StoredStringComesBack(b, 0x0E, size, start, m);
    StoredStringComesBack(b, 0x10, size, start + 2 + 2 * |m|, p);
    StoredStringComesBack(b, 0x12, size, start + 4 + 2 * |m| + 2 * |p|, s);
  }

  lemma PiecesInside<T>(b: seq<T>, at: nat, x: seq<T>, y: seq<T>, z: seq<T>, rest: seq<T>)
    requires var all := x + y + z + rest; at + |all| <= |b| && b[at..at + |all|] == all
    ensures b[at..at + |x|] == x && b[at + |x|..at + |x| + |y|] == y
    ensures b[at + |x| + |y|..at + |x| + |y| + |z|] == z
  {
    var n := |x + y + z + rest|;
    Pieces(x, y, z, rest);
    SliceOfSlice(b, at, at + n, 0, |x|);
    SliceOfSlice(b, at, at + n, |x|, |x| + |y|);
    SliceOfSlice(b, at, at + n, |x| + |y|, |x| + |y| + |z|);
  }

  lemma Pieces<T>(a: seq<T>, b: seq<T>, c: seq<T>, d: seq<T>)
    ensures var all := a + b + c + d;
            all[0..|a|] == a && all[|a|..|a| + |b|] == b && all[|a| + |b|..|a| + |b| + |c|] == c
  {
  }

  lemma HeaderAndDirectory(t: ChipType, e: Settings, b: seq<bv8>)
    requires |e.special.cbus| == CBUS && Start(t) <= |b| && b[..Start(t)] == Config(t, e)
    ensures b[..0x0E] == Header(t, e.common, e.special) && b[0x0E..0x14] == Directory(t, e.common)
  {
    var h, d, tail := Header(t, e.common, e.special), Directory(t, e.common), Tail(t, e.special);
    assert |h| == 14 && |d| == 6;
    hide Header, Directory, Tail;
    assert b[..Start(t)] == h + d + tail;
    SliceOfSlice(b, 0, Start(t), 0, 14);
    SliceOfSlice(b, 0, Start(t), 14, 20);
  }

  /** The length of a stored string is that of the string modulo 256, and NULL is stored as "". */
  lemma StoredText(s: Option<seq<bv8>>)
    ensures s.None? ==> Text(s) == []
    ensures s.Some? ==> (Text(s) == s.value <==> |s.value| < 256)
    ensures |Text(s)| < 256 && Text(Some(Text(s))) == Text(s)
  {
    if s.Some? {
      assert |s.value| < 256 ==> s.value[..|s.value|] == s.value;
    }
    assert Text(s)[..|Text(s)|] == Text(s);
  }

  lemma DirectoryEntries(t: ChipType, c: Common, b: seq<bv8>)
    requires |b| == BUFFER && b[0x0E..0x14] == Directory(t, c)
    ensures var m, p, s := |Text(c.manufacturer)|, |Text(c.product)|, |Text(c.serial)|;
            && b[0x0E] == ToByte(0x80 + Start(t)) && b[0x0F] == ToByte(2 * m + 2)
            && b[0x10] == ToByte(0x82 + Start(t) + 2 * m) && b[0x11] == ToByte(2 * p + 2)
            && b[0x12] == ToByte(0x84 + Start(t) + 2 * m + 2 * p) && b[0x13] == ToByte(2 * s + 2)
  {
    hide Text, Start, ToByte;
    var d := b[0x0E..0x14];
    assert d[0] == b[0x0E] && d[1] == b[0x0F] && d[2] == b[0x10] && d[3] == b[0x11] && d[4] == b[0x12] && d[5] == b[0x13];
  }

  lemma AreaSplits(t: ChipType, c: Common)
    ensures var m, p, s, rest := Text(c.manufacturer), Text(c.product), Text(c.serial), PnpBytes(t, c);
            && StringArea(t, c) == Descriptor(m) + Descriptor(p) + Descriptor(s) + rest
            && |StringArea(t, c)| == 6 + 2 * (|m| + |p| + |s|) + |rest|
  {
  }

  lemma AreaReadsBack(t: ChipType, c: Common, b: seq<bv8>, size: int)
    requires |b| == BUFFER && IsSize(size) && IsText(c.manufacturer) && IsText(c.product) && IsText(c.serial)
    requires Start(t) + |StringArea(t, c)| <= 0x7e && b[0x0E..0x14] == Directory(t, c)
    requires var base := Start(t) + size - 0x80; b[base..base + |StringArea(t, c)|] == StringArea(t, c)
    ensures Readable(b, size)
    ensures StringAt(b, 0x0E, size) == Some(Text(c.manufacturer)) && StringAt(b, 0x10, size) == Some(Text(c.product))
    ensures StringAt(b, 0x12, size) == Some(Text(c.serial))
  {
    hide *;
    TextHasNoNul(c.manufacturer);
    TextHasNoNul(c.product);
    TextHasNoNul(c.serial);
    var m, p, s, rest := Text(c.manufacturer), Text(c.product), Text(c.serial), PnpBytes(t, c);
    DirectoryEntries(t, c, b);
    AreaSplits(t, c);
    ThreeStrings(b, size, Start(t), m, p, s, rest);
  }

  lemma StringsComeBack(t: ChipType, e: Settings, size: int)
    requires WellFormed(e) && IsSize(size) && UserArea(t, e.common) >= 0
    ensures var im := Image(t, e, size);
            && Readable(im, size)
            && StringAt(im, 0x0E, size) == Some(Text(e.common.manufacturer))
            && StringAt(im, 0x10, size) == Some(Text(e.common.product))
            && StringAt(im, 0x12, size) == Some(Text(e.common.serial))
  {
    hide Image, Config, StringArea, Text, Readable, StringAt, Start, WellFormed, UserArea, Directory, Header, IsText;
    WellFormedTexts(e);
    ImageParts(t, e, size);
    HeaderAndDirectory(t, e, Image(t, e, size));
    AreaReadsBack(t, e.common, Image(t, e, size), size);
  }

  lemma WellFormedTexts(e: Settings)
    requires WellFormed(e)
    ensures |e.special.cbus| == CBUS && IsText(e.common.manufacturer) && IsText(e.common.product) && IsText(e.common.serial)
  {
  }

  // ---------- numbers ----------

  function Low16(x: bv32): bv32 {
    x & 0xffff
  }

  lemma JoinBack(x: bv32)
    ensures Join(Low(x), High(x)) == Low16(x)
  {
  }

  /** Even numbers of milliamperes up to 510 come back; others are rounded down. */
  lemma PowerBack(x: bv32)
    ensures x < 512 ==> 2 * Int(Low(Half(x))) == x & 0xffff_fffe
  {
  }

  lemma FlagsBack(c: Common)
    ensures Bits(Byte08(c), 0x40) != 0 <==> c.selfPowered != 0
    ensures Bits(Byte08(c), 0x20) != 0 <==> c.remoteWakeup != 0
  {
  }

  lemma HeaderBytes(t: ChipType, c: Common, x: Special, b: seq<bv8>)
    requires |b| >= 0x0E && b[..0x0E] == Header(t, c, x)
    ensures b[0] == Byte00(t, x) && b[1] == Byte01(t, x) && b[2] == Low(c.vendorId) && b[3] == High(c.vendorId)
    ensures b[4] == Low(c.productId) && b[5] == High(c.productId)
    ensures b[6] == Low(c.releaseNumber) && b[7] == High(c.releaseNumber)
    ensures b[8] == Byte08(c) && b[9] == Low(Half(c.maxPower)) && b[0x0A] == Byte0A(t, c) && b[0x0B] == Byte0B(t, x)
    ensures b[0x0C] == Byte0C(t, c, x) && b[0x0D] == Byte0D(t, c, x)
  {
    hide Byte00, Byte01, Byte08, Byte0A, Byte0B, Byte0C, Byte0D, Low, High, Half;
    var h := b[..0x0E];
    assert b[0] == h[0] && b[1] == h[1] && b[2] == h[2] && b[3] == h[3] && b[4] == h[4] && b[5] == h[5] && b[6] == h[6]
      && b[7] == h[7] && b[8] == h[8] && b[9] == h[9] && b[10] == h[10] && b[11] == h[11] && b[12] == h[12]
      && b[13] == h[13];
  }

  lemma HeaderComesBack(t: ChipType, c: Common, x: Special, size: int, b: seq<bv8>, isNotPnp: bv32)
    requires Readable(b, size) && b[..0x0E] == Header(t, c, x)
    ensures var d := DecodeCommon(b, size, isNotPnp);
            && d.vendorId == Low16(c.vendorId) && d.productId == Low16(c.productId)
            && d.releaseNumber == Low16(c.releaseNumber)
            && d.selfPowered == Bits(Byte08(c), 0x40) && d.remoteWakeup == Bits(Byte08(c), 0x20)
            && d.maxPower == 2 * Int(Low(Half(c.maxPower)))
  {
    HeaderBytes(t, c, x, b);
    JoinBack(c.vendorId);
    JoinBack(c.productId);
    JoinBack(c.releaseNumber);
    hide StringAt, Byte08, Header, Low, High, Join, Int, Half, Low16, Bits;
  }

  /** What a built image says when it is read, on whatever context: the strings, the ids, the release
      number and the power settings.  Ids are stored in 16 bits. */
  lemma RoundTrip(t: ChipType, e: Settings, size: int, other: Settings)
    requires WellFormed(e) && WellFormed(other) && IsSize(size) && BuildCode(t, e) >= 0
    ensures Readable(Image(t, e, size), size)
    ensures var d := Decode(t, Image(t, e, size), size, other);
            && d.code == 0
            && d.e.common.manufacturer == Some(Text(e.common.manufacturer))
            && d.e.common.product == Some(Text(e.common.product))
            && d.e.common.serial == Some(Text(e.common.serial))
            && d.e.common.vendorId == Low16(e.common.vendorId) && d.e.common.productId == Low16(e.common.productId)
            && d.e.common.releaseNumber == Low16(e.common.releaseNumber)
            && (d.e.common.selfPowered != 0 <==> e.common.selfPowered != 0)
            && (d.e.common.remoteWakeup != 0 <==> e.common.remoteWakeup != 0)
            && (e.common.maxPower < 512 ==> d.e.common.maxPower == e.common.maxPower & 0xffff_fffe)
  {
    StringsComeBack(t, e, size);
    ImageChecks(t, e, size);
    ImageParts(t, e, size);
    var im := Image(t, e, size);
    HeaderAndDirectory(t, e, im);
    hide Image, Config, Text, Readable, ChecksumHolds, StringAt, Header, StringArea, Directory;
    HeaderComesBack(t, e.common, e.special, size, im, other.common.isNotPnp);
    FlagsBack(e.common);
    PowerBack(e.common.maxPower);
    hide Byte08, Low, Int, Bits, Low16, Half, DecodeChip;
    var c := DecodeCommon(im, size, other.common.isNotPnp);
    assert c.manufacturer == Some(Text(e.common.manufacturer)) && c.product == Some(Text(e.common.product))
      && c.serial == Some(Text(e.common.serial));
    hide DecodeCommon;
  }

  predicate Survives(before: Option<seq<bv8>>, after: Option<seq<bv8>>) {
    match before
    case None => after == Some([])
    case Some(s) => after == before <==> |s| < 256
  }

  /** Strings come back as they were exactly when they have fewer than 256 characters; NULL comes back as
      "". */
  lemma StringsSurvive(t: ChipType, e: Settings, size: int, other: Settings)
    requires WellFormed(e) && WellFormed(other) && IsSize(size) && BuildCode(t, e) >= 0
    ensures Readable(Image(t, e, size), size)
    ensures var d := Decode(t, Image(t, e, size), size, other).e.common;
            && Survives(e.common.manufacturer, d.manufacturer) && Survives(e.common.product, d.product)
            && Survives(e.common.serial, d.serial)
  {
    hide Image, Text, Readable, Decode, Low16, WellFormed, BuildCode, UserArea;
    RoundTrip(t, e, size, other);
    StoredText(e.common.manufacturer);
    StoredText(e.common.product);
    StoredText(e.common.serial);
  }

  lemma CbusKeepsLength(t: ChipType, b: seq<bv8>, x: Special)
    requires |b| == BUFFER && |x.cbus| == CBUS
    ensures |DecodeChip(t, b, x).cbus| == CBUS
  {
    hide PinsOf, Bits, Mode, CbusOf, FiveCbus, Int;
  }
}
