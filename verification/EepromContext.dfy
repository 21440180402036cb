/** The context and EEPROM structure that `ftdi_eeprom_build` and `ftdi_eeprom_decode` of
    Resources/libftdi1-1.2/src/ftdi.c work on, with the image filled in place. */
module EepromContext {
  import opened Eeprom
  import opened EepromRoundTrip
  import opened EepromLayout

  class Context {
    const t: ChipType
    var settings: Settings
    var size: int
    var initialized: bool
    const buf: array<bv8>

    predicate Valid()
      reads this
    {
      buf.Length == BUFFER && WellFormed(settings) && (size == -1 || IsSize(size))
    }

    method Clear()
      requires buf.Length == BUFFER
      modifies buf
      ensures buf[..] == Zeros(BUFFER)
    {
      var i := 0;
      while i < buf.Length
        invariant 0 <= i <= buf.Length
        invariant forall k :: 0 <= k < i ==> buf[k] == 0
      {
        buf[i] := 0;
        i := i + 1;
      }
    }

    method Write(at: nat, v: bv8)
      requires at < buf.Length
      modifies buf
      ensures buf[..] == Put(old(buf[..]), at, v)
    {
      buf[at] := v;
    }

    method Set(at: nat, mask: bv8, on: bool)
      requires at < buf.Length
      modifies buf
      ensures buf[..] == SetIn(old(buf[..]), at, mask, on)
    {
      if on {
        buf[at] := buf[at] | mask;
      } else {
        buf[at] := buf[at] & !mask;
      }
    }

    /** `output[i & eeprom_size_mask] = v` */
    method PutByte(i: nat, v: bv8)
      requires buf.Length == BUFFER && IsSize(size) && 0x80 <= i < 0x100
      modifies buf
      ensures buf[..] == old(buf[..])[i + size - 0x100 := v]
    {
      Masked(i, size);
      buf[i % size] := v;
    }

    /** A character: the byte and a zero byte */
    method PutTwo(i: nat, v: bv8, w: bv8)
      requires buf.Length == BUFFER && IsSize(size) && 0x80 <= i < 0xff
      modifies buf
      ensures buf[..] == Written(old(buf[..]), i + size - 0x100, v, w)
    {
      PutByte(i, v);
      PutByte(i + 1, w);
    }

    /** A string descriptor from address `i0` on, modulo the size; `s` is what is stored of the string. */
    method PutString(i0: nat, s: seq<bv8>) returns (i: nat)
      requires buf.Length == BUFFER && IsSize(size) && 0x80 <= i0 && i0 + 2 + 2 * |s| <= 0xff
      modifies buf
      ensures i == i0 + 2 + 2 * |s|
      ensures buf[..] == Overlay(old(buf[..]), i0 + size - 0x100, Descriptor(s))
    {
      ghost var b0, at := buf[..], i0 + size - 0x100;
      DescriptorLength(s);
      PartlyStarts(b0, at, s);
      assert Partly(b0, at, s, |s|) == Overlay(b0, at, Descriptor(s));
      hide *;
      i := i0;
      PutTwo(i, ToByte(2 * |s| + 2), 3);
      i := i + 2;
      var j := 0;
      while j < |s|
        invariant 0 <= j <= |s| && i == i0 + 2 + 2 * j
        invariant buf[..] == Partly(b0, at, s, j)
      {
        PartlyGrows(b0, at, s, j);
        PutTwo(i, s[j], 0);
        i := i + 2;
        j := j + 1;
      }
    }

    /** The power byte */
    method PowerByte() returns (j: bv8)
      ensures j == Byte08(settings.common)
    {
      j := 0x80;
      if settings.common.selfPowered != 0 {
        j := j | 0x40;
      }
      if settings.common.remoteWakeup != 0 {
        j := j | 0x20;
      }
    }

    method IsochronousByte() returns (j: bv8)
      ensures j == IsochronousBits(settings.common)
    {
      j := 0;
      if settings.common.inIsochronous != 0 {
        j := j | 1;
      }
      if settings.common.outIsochronous != 0 {
        j := j | 2;
      }
    }

    /** The fields that all chips have */
    method PutOpening()
      requires buf.Length == BUFFER && buf[..] == Zeros(BUFFER)
      modifies buf
      ensures buf[..] == Opened(t, settings.common)
    {
      var c := settings.common;
      OpenedIs(t, c);
      assert buf.Length == 256;
      hide BUFFER, Opened, Put, Zeros, Low, High, Half, Byte08, IsochronousBits;
      Write(0x02, Low(c.vendorId));
      Write(0x03, High(c.vendorId));
      Write(0x04, Low(c.productId));
      Write(0x05, High(c.productId));
      Write(0x06, Low(c.releaseNumber));
      Write(0x07, High(c.releaseNumber));
      var j := PowerByte();
      Write(0x08, j);
      Write(0x09, Low(Half(c.maxPower)));
      if t != AM {
        j := IsochronousByte();
        Write(0x0A, j);
      }
    }

    method PutPnp(i: nat)
      requires buf.Length == BUFFER && IsSize(size) && 0x80 <= i <= 0xfc && t != AM && t != BM
      modifies buf
      ensures buf[..] == Overlay(old(buf[..]), i + size - 0x100, PnpBytes(t, settings.common))
    {
      PutTwo(i, 2, 3);
      PutByte(i + 2, Low(settings.common.isNotPnp));
    }

    /** A string, its address and its length */
    method PutEntry(k: nat, i0: nat, s: seq<bv8>) returns (i: nat)
      requires buf.Length == BUFFER && IsSize(size) && k < 3 && 0x80 <= i0 && i0 + 2 + 2 * |s| <= 0xff
      modifies buf
      ensures i == i0 + 2 + 2 * |s|
      ensures buf[..] == Entered(old(buf[..]), k, i0, i0 + size - 0x100, s)
    {
      DescriptorLength(s);
      hide Put, Overlay, Descriptor, ToByte;
      Write(0x0E + 2 * k, ToByte(i0) | 0x80);
      i := PutString(i0, s);
      Write(0x0F + 2 * k, ToByte(2 * |s| + 2));
    }

    /** The three strings and their directory */
    method PutThree() returns (i: nat)
      requires buf.Length == BUFFER && IsSize(size) && UserArea(t, settings.common) >= 0
      modifies buf
      ensures 0x94 <= FirstAt(t) && i == FirstAt(t) + |Descriptors(settings.common)| <= 0xfb
      ensures buf[..] == Laid(old(buf[..]), Directory(t, settings.common), FirstAt(t) + size - 0x100, Descriptors(settings.common))
    {
      var c := settings.common;
      hide Entered, Laid, Text, Directory, UserArea, Start, Descriptors, FirstAt, SecondAt, ThirdAt, ToByte;
      DescriptorsFit(t, c);
      ThreeWrittenIs(t, c, size - 0x100, buf[..]);
      i := FirstAt(t);
      i := PutEntry(0, i, Text(c.manufacturer));
      i := PutEntry(1, i, Text(c.product));
      i := PutEntry(2, i, Text(c.serial));
    }

    /** Strings, their directory and the PnP bytes */
    method PutStrings()
      requires buf.Length == BUFFER && IsSize(size) && UserArea(t, settings.common) >= 0
      modifies buf
      ensures 0x94 <= FirstAt(t) && FirstAt(t) + |StringArea(t, settings.common)| <= 0xfe
      ensures buf[..] == Laid(old(buf[..]), Directory(t, settings.common), FirstAt(t) + size - 0x100, StringArea(t, settings.common))
    {
      var c := settings.common;
      ghost var b0, base := buf[..], FirstAt(t) + size - 0x100;
      AreaIs(t, c);
      hide Directory, Descriptors, StringArea, UserArea, FirstAt, PnpBytes, Laid, Overlay;
      var i := PutThree();
      if t != AM && t != BM {
        LaidMore(b0, Directory(t, c), base, Descriptors(c), PnpBytes(t, c));
        PutPnp(i);
      }
    }

    method SetTwo(at: nat, mask: bv8, on: bool, mask': bv8, on': bool)
      requires at < buf.Length
      modifies buf
      ensures buf[..] == Put(old(buf[..]), at, WithBit(WithBit(old(buf[..])[at], mask, on), mask', on'))
    {
      hide Put, SetIn, WithBit;
      ghost var b := buf[..];
      SetPut(b, at, b[at], mask, on);
      SetPut(b, at, WithBit(b[at], mask, on), mask', on');
      Set(at, mask, on);
      Set(at, mask', on');
    }

    method SetFour(at: nat, m1: bv8, on1: bool, m2: bv8, on2: bool, m3: bv8, on3: bool, m4: bv8, on4: bool)
      requires at < buf.Length
      modifies buf
      ensures var v := WithBit(WithBit(old(buf[..])[at], m1, on1), m2, on2);
              buf[..] == Put(old(buf[..]), at, WithBit(WithBit(v, m3, on3), m4, on4))
    {
      hide Put, SetIn, WithBit;
      ghost var b := buf[..];
      ghost var v := WithBit(WithBit(b[at], m1, on1), m2, on2);
      PutReads(b, at, v);
      PutPut(b, at, v, WithBit(WithBit(v, m3, on3), m4, on4));
      SetTwo(at, m1, on1, m2, on2);
      SetTwo(at, m3, on3, m4, on4);
    }

    /** The mode of a channel, and its driver where `vcp` says. */
    method PutMode(at: nat, channel: Channel, vcp: bv8)
      requires at < buf.Length
      modifies buf
      ensures buf[..] == Put(old(buf[..]), at, ModeByte(t, channel, vcp))
    {
      hide Type2Bit, Low, Put, SetIn, WithBit;
      SetPut(buf[..], at, Type2Bit(Low(channel.mode), t), vcp, channel.driver == 8);
      Write(at, Type2Bit(Low(channel.mode), t));
      Set(at, vcp, channel.driver == 8);
    }

    method PutModeAnd(at: nat, channel: Channel, bit: bv8, on: bool)
      requires at < buf.Length
      modifies buf
      ensures buf[..] == Put(old(buf[..]), at, WithBit(ModeByte(t, channel, 8), bit, on))
    {
      hide ModeByte, Put, SetIn, WithBit;
      SetPut(buf[..], at, ModeByte(t, channel, 8), bit, on);
      PutMode(at, channel, 8);
      Set(at, bit, on);
    }

    method Put00()
      requires buf.Length == BUFFER && buf[..][0] == 0
      modifies buf
      ensures buf[..] == Put(old(buf[..]), 0, Byte00(t, settings.special))
    {
      hide ModeByte, Put, WithBit, SetIn, Byte00;
      var x := settings.special;
      Byte00Is(t, x);
      match t {
        case AM | BM =>
          PutReads(buf[..], 0, 0);
        case C2232 =>
          PutModeAnd(0, x.a, 0x10, x.a.highCurrent == 0x10);
        case R =>
          PutReads(buf[..], 0, 0);
          if x.highCurrent == 4 {
            Write(0, 4);
          }
        case H2232 =>
          PutMode(0, x.a, 8);
        case H4232 =>
          SetTwo(0, 8, x.a.driver == 8, 0x80, x.c.driver == 8);
        case H232 =>
          PutMode(0, x.a, 0x10);
      }
    }

    method Put01()
      requires buf.Length == BUFFER && buf[..][1] == 0
      modifies buf
      ensures buf[..] == Put(old(buf[..]), 1, Byte01(t, settings.special))
    {
      hide ModeByte, Put, WithBit, SetIn, Byte01;
      var x := settings.special;
      Byte01Is(t, x);
      match t {
        case AM | BM =>
          PutReads(buf[..], 1, 0);
        case C2232 =>
          PutModeAnd(1, x.b, 0x10, x.b.highCurrent == 0x10);
        case R =>
          Write(1, 0x40);
        case H2232 =>
          PutModeAnd(1, x.b, 0x80, x.suspendDbus7 == 0x80);
        case H4232 =>
          SetTwo(1, 8, x.b.driver == 8, 0x80, x.d.driver == 8);
        case H232 =>
          SetFour(1, 0x80, x.ft1284.powersave != 0, 1, x.ft1284.clockPolarity != 0, 2, x.ft1284.dataOrder != 0,
                  4, x.ft1284.flowControl != 0);
      }
    }

    method Put0A()
      requires buf.Length == BUFFER && buf[..][0x0A] == SerialByte(t, settings.common)
      modifies buf
      ensures buf[..] == Put(old(buf[..]), 0x0A, Byte0A(t, settings.common))
    {
      hide Put, WithBit, SetIn, Byte0A, SerialByte;
      var c := settings.common;
      Byte0AIs(t, c);
      match t {
        case AM =>
          PutReads(buf[..], 0x0A, SerialByte(t, c));
        case BM =>
          SetPut(buf[..], 0x0A, 0, 0x10, c.useUsbVersion == 0x10);
          Set(0x0A, 0x10, c.useUsbVersion == 0x10);
        case C2232 =>
          SetFour(0x0A, 1, c.inIsochronous != 0, 2, c.outIsochronous != 0, 4, c.suspendPullDowns != 0,
                  0x10, c.useUsbVersion == 0x10);
        case _ =>
          SetPut(buf[..], 0x0A, 0, 4, c.suspendPullDowns != 0);
          Set(0x0A, 4, c.suspendPullDowns != 0);
      }
    }

    method Put0B()
      requires buf.Length == BUFFER && buf[..][0x0B] == 0
      modifies buf
      ensures buf[..] == Put(old(buf[..]), 0x0B, Byte0B(t, settings.special))
    {
      hide Put, WithBit, SetIn, Byte0B, Low;
      var x := settings.special;
      Byte0BIs(t, x);
      match t {
        case R =>
          Write(0x0B, Low(x.invert));
        case H4232 =>
          SetFour(0x0B, 0x10, x.a.rs485 != 0, 0x20, x.b.rs485 != 0, 0x40, x.c.rs485 != 0, 0x80, x.d.rs485 != 0);
        case _ =>
          PutReads(buf[..], 0x0B, 0);
      }
    }

    /** The four bits of a group of pins, in the lower or the upper half of a byte that has not got them yet */
    method PutPins(at: nat, g: Pins)
      requires at < buf.Length && buf[..][at] == 0
      modifies buf
      ensures buf[..] == Put(old(buf[..]), at, PinBits(g))
    {
      var v := PinBitsOf(g);
      hide PinBits, Put;
      Write(at, v);
    }

    method PinBitsOf(g: Pins) returns (v: bv8)
      ensures v == PinBits(g)
    {
      v := 0;
      if Exceeds(g.drive, 3) {
        v := v | 3;
      } else {
        v := v | Low(g.drive);
      }
      if g.schmitt == 8 {
        v := v | 8;
      }
      if g.slew == 4 {
        v := v | 4;
      }
    }

    method PutTwoPins(at: nat, g: Pins, h: Pins)
      requires at < buf.Length && buf[..][at] == 0
      modifies buf
      ensures buf[..] == Put(old(buf[..]), at, GroupByte(g, h))
    {
      hide PinBits, Put;
      var v := PinBitsOf(g);
      var w := PinBitsOf(h);
      Write(at, v | (w << 4));
    }

    method Put0C()
      requires buf.Length == BUFFER && buf[..][0x0C] == 0
      modifies buf
      ensures buf[..] == Put(old(buf[..]), 0x0C, Byte0C(t, settings.common, settings.special))
    {
      hide Put, GroupByte, PinBits, Low;
      var pins := settings.special.pins;
      match t {
        case AM =>
          PutReads(buf[..], 0x0C, 0);
        case BM | C2232 | R =>
          Write(0x0C, Low(settings.common.usbVersion));
        case H2232 | H4232 =>
          PutTwoPins(0x0C, pins.group0, pins.group1);
        case H232 =>
          PutPins(0x0C, pins.group0);
      }
    }

    method Put0D()
      requires buf.Length == BUFFER && buf[..][0x0D] == 0
      modifies buf
      ensures buf[..] == Put(old(buf[..]), 0x0D, Byte0D(t, settings.common, settings.special))
    {
      hide Put, GroupByte, PinBits, High;
      var pins := settings.special.pins;
      match t {
        case AM =>
          PutReads(buf[..], 0x0D, 0);
        case BM | C2232 | R =>
          Write(0x0D, High(settings.common.usbVersion));
        case H2232 | H4232 =>
          PutTwoPins(0x0D, pins.group2, pins.group3);
        case H232 =>
          PutPins(0x0D, pins.group1);
      }
    }

    /** `set_ft232h_cbus` */
    method SetFt232hCbus()
      requires buf.Length == 256 == BUFFER && |settings.special.cbus| == 10 == CBUS
      modifies buf
      ensures buf[..] == FiveBytes(old(buf[..]), CbusBytes(settings.special.cbus))
    {
      hide *;
      ghost var b, v := buf[..], CbusBytes(settings.special.cbus);
      SomeIsNone(b, v);
      SomeIsFive(b, v);
      var i := 0;
      while i < 5
        invariant 0 <= i <= 5
        invariant buf[..] == SomeBytes(b, v, i)
      {
        SomeMore(b, settings.special.cbus, i);
        var low := Clamped(settings.special.cbus[2 * i], 12, 0);
        var high := Clamped(settings.special.cbus[2 * i + 1], 12, 0);
        Write(0x18 + i, (high << 4) | low);
        i := i + 1;
      }
    }

    /** The bytes from 0x14 on */
    method PutTail()
      requires buf.Length == BUFFER && |settings.special.cbus| == CBUS
      modifies buf
      ensures buf[..] == TailIn(t, settings.special, old(buf[..]))
    {
      hide Put, Clamped, Low, FiveBytes;
      var x := settings.special;
      match t {
        case AM | BM =>
        case C2232 =>
          Write(0x14, Low(x.chip));
        case R =>
          Write(0x14, Clamped(x.cbus[0], 13, 3) | (Clamped(x.cbus[1], 13, 2) << 4));
          Write(0x15, Clamped(x.cbus[2], 13, 0) | (Clamped(x.cbus[3], 13, 1) << 4));
          Write(0x16, Clamped(x.cbus[4], 9, 5));
        case H2232 | H4232 =>
          Write(0x18, Low(x.chip));
        case H232 =>
          SetFt232hCbus();
          Write(0x1e, Low(x.chip));
      }
    }

    /** The bits and bytes of the particular chip; the source goes through them chip by chip. */
    method PutChip()
      requires buf.Length == BUFFER && |settings.special.cbus| == CBUS && Prepared(t, settings.common, buf[..])
      modifies buf
      ensures buf[..] == Configure(t, settings.common, settings.special, old(buf[..]))
    {
      hide Put, Configure, Byte00, Byte01, Byte0A, Byte0B, Byte0C, Byte0D, SerialByte, Prepared, HeaderOf, TailIn;
      var c, x := settings.common, settings.special;
      HeaderSteps(t, c, x, buf[..]);
      TailWritten(t, c, x, buf[..]);
      Put00();
      Put01();
      Put0A();
      Put0B();
      Put0C();
      Put0D();
      PutTail();
    }

    /** The checksum of the first `n` words */
    method SumUp(n: nat) returns (checksum: bv16)
      requires 2 * n <= buf.Length
      ensures checksum == Checksum(buf[..], n)
    {
      hide Word, Rotate;
      checksum := 0xAAAA;
      var i := 0;
      while i < n
        invariant 0 <= i <= n
        invariant checksum == Checksum(buf[..], i)
      {
        var value := Word(buf[..], i);
        checksum := value ^ checksum;
        XorSwap(value, Checksum(buf[..], i));
        checksum := Rotate(checksum);
        i := i + 1;
      }
    }

    /** `ftdi_eeprom_build` */
    method Build() returns (code: int)
      requires Valid()
      modifies this, buf
      ensures Valid() && settings == old(settings)
      ensures code == BuildCode(t, settings) && size == SizeFor(settings, old(size))
      ensures code >= 0 ==> initialized && buf[..] == Image(t, settings, size)
      ensures code < 0 ==> buf[..] == old(buf[..]) && initialized == old(initialized)
    {
      if settings.special.chip == NO_CHIP {
        return -6;
      }
      if size == -1 {
        size := if settings.special.chip == 0x56 || settings.special.chip == 0x66 then 0x100 else 0x80;
      }
      var userArea := UserArea(t, settings.common);
      if userArea < 0 {
        return -1;
      }
      Fill();
      initialized := true;
      return userArea;
    }

    method Fill()
      requires Valid() && IsSize(size) && UserArea(t, settings.common) >= 0
      modifies buf
      ensures buf[..] == Image(t, settings, size)
    {
      hide Opened, Laid, Directory, StringArea, SetIn, Configure, Prepared, Zeros, UserArea, Put, Body, Sealed,
        LowHalf, HighHalf, Checksum, WellFormed;
      var c := settings.common;
      Prepare(t, settings, size);
      Clear();
      PutOpening();
      PutStrings();
      if t != AM {
        Set(0x0A, 8, c.useSerial != 0);
      }
      PutChip();
      SealInPlace(Body(t, settings, size), size);
      SumOfBody(Body(t, settings, size), size);
      var checksum := SumUp(size / 2 - 1);
      Write(size - 2, LowHalf(checksum));
      Write(size - 1, HighHalf(checksum));
    }

    /** A string whose address and length are at `at` and `at + 1`; as a C string it ends at the first NUL. */
    method ReadString(at: nat) returns (s: Option<seq<bv8>>)
      requires buf.Length == BUFFER && at + 1 < BUFFER && IsSize(size) && StringInside(buf[..], at, size)
      ensures s == StringAt(buf[..], at, size)
    {
      hide FromByte, CutAtNul;
      var n := FromByte(buf[at + 1]) / 2;
      if n == 0 {
        return None;
      }
      var i := FromByte(buf[at]) % size;
      var text: seq<bv8> := [];
      var j := 0;
      while j < n - 1
        invariant 0 <= j <= n - 1 && |text| == j
        invariant forall k :: 0 <= k < j ==> text[k] == buf[2 * k + i + 2]
      {
        text := text + [buf[2 * j + i + 2]];
        j := j + 1;
      }
      assert text == Characters(buf[..], i + 2, n - 1);
      return Some(CutAtNul(text));
    }

    /** The fields common to all chips */
    method ReadCommon() returns (c: Common)
      requires Readable(buf[..], size)
      ensures c == DecodeCommon(buf[..], size, settings.common.isNotPnp)
    {
      hide StringInside, StringAt, CommonOf;
      var manufacturer := ReadString(0x0E);
      var product := ReadString(0x10);
      var serial := ReadString(0x12);
      c := CommonOf(buf[..], settings.common.isNotPnp, manufacturer, product, serial);
    }

    /** `ftdi_eeprom_decode` */
    method Load() returns (code: int)
      requires Valid() && Readable(buf[..], size)
      modifies this
      ensures Valid() && size == old(size) && initialized == old(initialized)
      ensures Decoded(code, settings) == Decode(t, buf[..], size, old(settings))
    {
      hide Checksum, Word, DecodeChip, DecodeCommon, WellFormed, StringInside;
      WellFormedAfter(t, buf[..], size, settings);
      var common := ReadCommon();
      settings := settings.(common := common);
      var checksum := SumUp(size / 2 - 1);
      if Word(buf[..], size / 2 - 1) != checksum {
        return -1;
      }
      settings := settings.(special := DecodeChip(t, buf[..], settings.special));
      return 0;
    }
  }
}
