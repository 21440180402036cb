/** The read paths of Resources/libftdi1-1.2/src/ftdi.c and ftdi_stream.c, in place on the read buffer.
    The USB library is the sequence of transfers it is going to deliver. */
module FtdiRead {
  import opened Deframing
  import Arith

  class Context {
    const readbuffer: array<byte>
    const maxPacketSize: nat
    var offset: nat
    var remaining: nat
    /** The transfers still to come; once they are used up, reads bring no bytes. */
    var wire: seq<Transfer>

    ghost predicate Valid()
      reads this
    {
      && (maxPacketSize == 0 || maxPacketSize > 2)
      && offset + remaining <= readbuffer.Length
      && forall i :: 0 <= i < |wire| ==>
           if wire[i].Data? then |wire[i].bytes| <= readbuffer.Length else wire[i].code < 0
    }

    /** The bytes received but not yet returned. */
    ghost function Pending(): seq<byte>
      reads this, readbuffer
      requires Valid()
    {
      readbuffer[offset..offset + remaining]
    }

    constructor (chunkSize: nat, packetSize: nat, transfers: seq<Transfer>)
      requires packetSize == 0 || packetSize > 2
      requires forall i :: 0 <= i < |transfers| ==>
                 if transfers[i].Data? then |transfers[i].bytes| <= chunkSize else transfers[i].code < 0
      ensures Valid() && Pending() == [] && wire == transfers && fresh(readbuffer)
    {
      readbuffer := new byte[chunkSize](_ => 0);
      maxPacketSize, offset, remaining, wire := packetSize, 0, 0, transfers;
    }

    /** `memmove` within the read buffer. */
    method MemMove(dst: nat, src: nat, n: nat)
      requires dst + n <= readbuffer.Length && src + n <= readbuffer.Length
      modifies readbuffer
      ensures Moved(old(readbuffer[..]), readbuffer[..], dst, src, n)
    {
      forall k | 0 <= k < n {
        readbuffer[dst + k] := readbuffer[src + k];
      }
    }

    /** `libusb_bulk_transfer` into the read buffer. */
    method BulkTransfer() returns (ret: int, actualLength: nat)
      requires Valid()
      modifies this`wire, readbuffer
      ensures Valid()
      ensures old(wire) == [] ==> ret == 0 && actualLength == 0 && wire == []
      ensures old(wire) != [] ==> wire == old(wire)[1..]
      ensures old(wire) != [] && old(wire)[0].Failure? ==> ret == old(wire)[0].code
      ensures old(wire) != [] && old(wire)[0].Data? ==>
                ret == 0 && actualLength <= readbuffer.Length && readbuffer[..actualLength] == old(wire)[0].bytes
    {
      if wire == [] {
        return 0, 0;
      }
      var transfer := wire[0];
      wire := wire[1..];
      match transfer
      case Failure(code) =>
        return code, 0;
      case Data(bytes) =>
        forall k | 0 <= k < |bytes| {
          readbuffer[k] := bytes[k];
        }
        return 0, |bytes|;
    }

    /** Moves the payload of the packet of `m` bytes after the first `i` ones, which take `s` bytes. */
    method MoveChunk(i: nat, m: nat, ghost s: nat)
      requires maxPacketSize > 2 && Whole(maxPacketSize, s, i) && offset == 2
      requires 2 <= m && s + m <= readbuffer.Length
      modifies readbuffer
      ensures 2 * i <= s && Moved(old(readbuffer[..]), readbuffer[..], 2 + s - 2 * i, 2 + s, m - 2)
    {
      ChunkPlace(maxPacketSize, i, s);
      MemMove(offset + (maxPacketSize - 2) * i, offset + maxPacketSize * i, m - 2);
    }

    /** The loop of the compaction: the whole packets are moved together behind the first two bytes, each
        out of a region not yet overwritten. */
    method CompactPackets(ghost t: seq<byte>, n: nat, ghost whole: nat)
      requires maxPacketSize > 2 && offset == 2 && 1 <= n && Whole(maxPacketSize, whole, n)
      requires whole <= |t| <= readbuffer.Length && t == readbuffer[..|t|] && maxPacketSize < |t|
      modifies readbuffer
      ensures Compacted(readbuffer[..], t, maxPacketSize, n, whole)
    {
      hide Moved, Compacted, Payload, Whole;
      ghost var s: nat := maxPacketSize;
      StartCompaction(readbuffer[..], t, maxPacketSize);
      var i := 1;
      ChunkFits(maxPacketSize, i, s, n, whole);
      while i < n
        invariant 1 <= i <= n && (if i == n then s == whole else s + maxPacketSize <= whole)
        invariant Whole(maxPacketSize, s, i) && Compacted(readbuffer[..], t, maxPacketSize, i, s)
      {
        ghost var was := readbuffer[..];
        MoveChunk(i, maxPacketSize, s);
        CompactAt(was, readbuffer[..], t, maxPacketSize, i, s, maxPacketSize);
        s := s + maxPacketSize;
        i := i + 1;
        ChunkFits(maxPacketSize, i, s, n, whole);
      }
    }

    /** What both readers do with a transfer of more than two bytes: its payload is moved together behind
        the first two bytes of the buffer. */
    method Compact(actualLength: nat) returns (length: nat)
      requires Valid() && maxPacketSize > 2 && offset == 0 && remaining == 0
      requires 2 < actualLength <= readbuffer.Length
      modifies this`offset, readbuffer
      ensures Valid() && offset == 2
      ensures 2 + length <= actualLength
      ensures readbuffer[2..2 + length] == Payload(maxPacketSize, old(readbuffer[..actualLength]))
    {
      hide Moved, Compacted, Payload, Whole;
      ghost var t := readbuffer[..actualLength];
      var numOfChunks, chunkRemains := SplitLength(maxPacketSize, actualLength);
      offset := offset + 2;
      length := actualLength - 2;
      if length > maxPacketSize - 2 {
        ghost var whole := actualLength - chunkRemains;
        CompactPackets(t, numOfChunks, whole);
        ChunkFits(maxPacketSize, numOfChunks, whole, numOfChunks, whole);
        if chunkRemains > 2 {
          ghost var was := readbuffer[..];
          MoveChunk(numOfChunks, chunkRemains, whole);
          CompactAt(was, readbuffer[..], t, maxPacketSize, numOfChunks, whole, chunkRemains);
          assert t[..actualLength] == t;
          length := length - 2 * numOfChunks;
        } else {
          CompactRunt(readbuffer[..], t, maxPacketSize, numOfChunks, whole);
          length := length - (2 * (numOfChunks - 1) + chunkRemains);
        }
      } else {
        OnePacketInPlace(readbuffer[..], t, maxPacketSize);
      }
      assert readbuffer[..][2..2 + length] == readbuffer[2..2 + length];
    }

    /** `memcpy` from the read buffer into the caller's buffer. */
    method MemCpy(buf: array<byte>, at: nat, from: nat, n: nat)
      requires buf != readbuffer && at + n <= buf.Length && from + n <= readbuffer.Length
      modifies buf
      ensures buf[..at + n] == old(buf[..at]) + readbuffer[from..from + n]
      ensures buf[at + n..] == old(buf[at + n..])
    {
      forall k | 0 <= k < n {
        buf[at + k] := readbuffer[from + k];
      }
    }

    /** Serves `n` bytes from what is pending. */
    method TakePending(buf: array<byte>, n: nat)
      requires Valid() && buf != readbuffer && n <= remaining && n <= buf.Length
      modifies this`offset, this`remaining, buf
      ensures Valid() && Pending() == old(Pending())[n..]
      ensures buf[..n] == old(Pending())[..n] && buf[n..] == old(buf[n..])
    {
      SplitSlice(readbuffer[..], offset, n, remaining);
      MemCpy(buf, 0, offset, n);
      assert readbuffer[offset..offset + n] == readbuffer[..][offset..offset + n];
      remaining := remaining - n;
      offset := offset + n;
    }

    /** One bulk read with its compaction; no bytes if the transfer had none but status bytes. */
    method Fetch() returns (ret: int, length: nat)
      requires Valid() && maxPacketSize > 2
      modifies this, readbuffer
      ensures Valid() && remaining == 0
      ensures wire == if old(wire) == [] then [] else old(wire)[1..]
      ensures ret == if old(wire) != [] && old(wire)[0].Failure? then old(wire)[0].code else 0
      ensures var t := if old(wire) != [] && old(wire)[0].Data? then old(wire)[0].bytes else [];
              if |t| <= 2 then length == 0
              else 0 < length && offset == 2 && 2 + length <= readbuffer.Length
                   && readbuffer[2..2 + length] == Payload(maxPacketSize, t)
    {
      hide Payload;
      remaining, offset := 0, 0;
      ghost var before := wire;
      var actualLength;
      ret, actualLength := BulkTransfer();
      length := 0;
      if ret >= 0 && actualLength > 2 {
        length := Compact(actualLength);
        NonEmptyPayload(maxPacketSize, before[0].bytes);
      }
    }

    /** Hands out what fits of the `length` payload bytes in the read buffer; the rest stays pending. */
    method HandOut(buf: array<byte>, got: nat, length: nat, size: nat) returns (now: nat)
      requires Valid() && buf != readbuffer && got < size <= buf.Length
      requires 0 < length && offset == 2 && remaining == 0 && 2 + length <= readbuffer.Length
      modifies this`offset, this`remaining, buf
      ensures Valid() && now == Min(got + length, size)
      ensures buf[..now] == old(buf[..got]) + readbuffer[2..2 + length][..now - got]
      ensures buf[now..] == old(buf[now..])
      ensures Pending() == readbuffer[2..2 + length][now - got..]
    {
      if got + length <= size {
        MemCpy(buf, got, offset, length);
        now := got + length;
      } else {
        var partSize := size - got;
        MemCpy(buf, got, offset, partSize);
        offset := offset + partSize;
        remaining := length - partSize;
        now := got + partSize;
      }
      assert readbuffer[2..2 + length][..now - got] == readbuffer[2..2 + (now - got)];
    }

    /** The loop of `ftdi_read_data`, with `start` bytes already handed out. */
    method ReadMore(buf: array<byte>, start: nat, size: nat) returns (ret: int)
      requires Valid() && maxPacketSize > 2 && buf != readbuffer && start < size <= buf.Length
      modifies this, readbuffer, buf
      ensures Valid()
      ensures start <= ret ==> ret <= buf.Length && buf[ret..] == old(buf[ret..])
      ensures match old(Fill(maxPacketSize, buf[..start], wire, size))
              case Read(data, pending, rest) =>
                start <= ret == |data| <= size && buf[..ret] == data && Pending() == pending && wire == rest
              case ReadError(code, rest) => ret == code < 0 && Pending() == [] && wire == rest
    {
      hide Payload, Fill;
      var got := start;
      ghost var result := Fill(maxPacketSize, buf[..got], wire, size);
      var actualLength := 1;
      while got < size && actualLength > 0
        invariant Valid() && start <= got < size && actualLength > 0
        invariant buf[got..] == old(buf[got..])
        invariant Fill(maxPacketSize, buf[..got], wire, size) == result
        decreases size - got
      {
        ghost var was, before := buf[..got], wire;
        var r;
        r, actualLength := Fetch();
        FillUnfolds(maxPacketSize, was, before, size);
        if r < 0 {
          return r;
        }
        if actualLength == 0 {
          return got;
        }
        got := HandOut(buf, got, actualLength, size);
        if got == size {
          return got;
        }
      }
      assert false;
    }

    /** `ftdi_read_data` */
    method ReadData(buf: array<byte>, size: nat) returns (ret: int)
      requires Valid() && buf != readbuffer && size <= buf.Length
      modifies this, readbuffer, buf
      ensures Valid()
      ensures maxPacketSize == 0 ==> ret == -1 && Pending() == old(Pending()) && wire == old(wire) && buf[..] == old(buf[..])
      ensures maxPacketSize != 0 ==>
                match Deframing.ReadData(maxPacketSize, old(Pending()), old(wire), size)
                case Read(data, pending, rest) =>
                  && ret == |data| <= size && buf[..ret] == data && buf[ret..] == old(buf[ret..])
                  && Pending() == pending && wire == rest
                case ReadError(code, rest) => ret == code < 0 && Pending() == [] && wire == rest
    {
      if maxPacketSize == 0 {
        return -1;
      }
      if size <= remaining {
        TakePending(buf, size);
        return size;
      }
      var got := 0;
      if remaining != 0 {
        MemCpy(buf, 0, offset, remaining);
        got := remaining;
      }
      assert buf[..got] == old(Pending());
      hide Fill, Payload;
      label Handed:
      ret := ReadMore(buf, got, size);
      assert got <= ret ==> buf[ret..] == old@Handed(buf[got..])[ret - got..];
    }

    /** A submitted read as its specification sees it. */
    ghost function Progress(tc: TransferControl): Submission
      requires Valid() && tc.offset <= tc.buf.Length
      reads this, readbuffer, tc, tc.buf
    {
      Submission(tc.buf[..tc.offset], Pending(), tc.completed)
    }

    /** `ftdi_read_data_submit` */
    method Submit(buf: array<byte>, size: nat) returns (tc: TransferControl)
      requires Valid() && buf != readbuffer && size <= buf.Length
      modifies this, buf
      ensures Valid() && fresh(tc) && tc.Valid() && tc.buf == buf && tc.size == size
      ensures Progress(tc) == Deframing.Submit(old(Pending()), size)
      ensures !tc.completed ==> offset == 0 && remaining == 0
    {
      tc := new TransferControl(buf, size);
      if size <= remaining {
        TakePending(buf, size);
        tc.completed := true;
        tc.offset := size;
        return;
      }
      tc.completed := false;
      if remaining != 0 {
        MemCpy(buf, 0, offset, remaining);
        tc.offset := remaining;
      } else {
        tc.offset := 0;
      }
      assert buf[..tc.offset] == old(Pending());
      remaining, offset := 0, 0;
    }

    /** `ftdi_read_data_cb`, run by the USB library when it has put the bytes `t` into the read buffer. */
    method Callback(tc: TransferControl, t: seq<byte>)
      requires Valid() && tc.Valid() && maxPacketSize > 2 && tc.buf != readbuffer
      requires !tc.completed && offset == 0 && remaining == 0
      requires |t| <= readbuffer.Length && readbuffer[..|t|] == t
      modifies this`offset, this`remaining, readbuffer, tc, tc.buf
      ensures Valid() && tc.Valid()
      ensures Progress(tc) == Deframing.Callback(maxPacketSize, old(Progress(tc)), tc.size, t)
      ensures tc.buf[tc.offset..] == old(tc.buf[..])[tc.offset..]
      ensures !tc.completed ==> offset == 0 && remaining == 0
    {
      hide Payload;
      var actualLength := |t|;
      if actualLength > 2 {
        actualLength := Compact(actualLength);
        NonEmptyPayload(maxPacketSize, t);
        assert readbuffer[2..2 + actualLength] == Payload(maxPacketSize, t);
        assert Payload(maxPacketSize, t)[..actualLength] == Payload(maxPacketSize, t);
        var fits := tc.offset + actualLength <= tc.size;
        var now := HandOut(tc.buf, tc.offset, actualLength, tc.size);
        tc.offset := now;
        if fits {
          offset, remaining := 0, 0;
        }
        tc.completed := tc.offset == tc.size;
      }
    }
  }

  /** `struct ftdi_transfer_control` */
  class TransferControl {
    const buf: array<byte>
    const size: nat
    var offset: nat
    var completed: bool

    ghost predicate Valid()
      reads this
    {
      offset <= size <= buf.Length && (offset == size ==> completed)
    }

    constructor (buf: array<byte>, size: nat)
      ensures this.buf == buf && this.size == size
    {
      this.buf, this.size := buf, size;
    }
  }

  /** `ftdi_readstream_cb`: the calls made of the user's callback, and the running byte count. */
  method StreamCallback(packetSize: nat, actualLength: nat, totalBytes: int)
      returns (calls: seq<Block>, total: int)
    requires packetSize > 2
    ensures calls == Blocks(packetSize, actualLength, 0)
    ensures total == totalBytes + Total(calls)
  {
    hide Blocks, PacketsLeft, Total;
    var ptr: nat, length: nat := 0, actualLength;
    NoBlocks(packetSize, actualLength);
    var numPackets := (length + packetSize - 1) / packetSize;
    calls, total := [], totalBytes;
    PacketCount(packetSize, length);
    var i := 0;
    while i < numPackets
      invariant 0 <= i <= numPackets && ptr + length == actualLength
      invariant calls + Blocks(packetSize, actualLength, ptr) == Blocks(packetSize, actualLength, 0)
      invariant total == totalBytes + Total(calls)
      invariant PacketsLeft(packetSize, length, numPackets - i)
    {
      var packetLen := length;
      if packetLen > packetSize {
        packetLen := packetSize;
      }
      var payloadLen := packetLen - 2;
      total := total + payloadLen;
      TotalOfAppend(calls, Block(ptr + 2, payloadLen));
      PacketsLeftStep(packetSize, length, numPackets - i);
      BlocksStep(calls, packetSize, actualLength, ptr);
      calls := calls + [Block(ptr + 2, payloadLen)];
      ptr := ptr + packetLen;
      length := length - packetLen;
      i := i + 1;
    }
    PacketsLeftNone(packetSize, length);
  }

  lemma NoBlocks(packetSize: nat, size: nat)
    requires packetSize > 2
    ensures Blocks(packetSize, size, size) == [] && Total([]) == 0
    ensures [] + Blocks(packetSize, size, 0) == Blocks(packetSize, size, 0)
    ensures forall calls: seq<Block> :: calls + [] == calls
  {
  }

  lemma BlocksStep(calls: seq<Block>, packetSize: nat, size: nat, ptr: nat)
    requires packetSize > 2 && ptr < size
    ensures var n := Min(packetSize, size - ptr);
            calls + Blocks(packetSize, size, ptr) == (calls + [Block(ptr + 2, n - 2)]) + Blocks(packetSize, size, ptr + n)
  {
  }

  lemma PacketsLeftStep(packetSize: nat, length: nat, n: nat)
    requires PacketsLeft(packetSize, length, n) && n > 0
    ensures 0 < length && PacketsLeft(packetSize, if length > packetSize then length - packetSize else 0, n - 1)
  {
  }

  lemma PacketsLeftNone(packetSize: nat, length: nat)
    requires PacketsLeft(packetSize, length, 0)
    ensures length == 0
  {
  }

  /** `length` bytes make `n` packets, the last of which may be partial. */
  predicate PacketsLeft(packetSize: nat, length: nat, n: nat) {
    if n == 0 then length == 0
    else 0 < length && PacketsLeft(packetSize, if length > packetSize then length - packetSize else 0, n - 1)
  }

  lemma {:induction false} TotalOfAppend(calls: seq<Block>, b: Block)
    ensures Total(calls + [b]) == Total(calls) + b.length
  {
    if calls == [] {
      assert [] + [b] == [b];
    } else {
      assert (calls + [b])[1..] == calls[1..] + [b];
      TotalOfAppend(calls[1..], b);
    }
  }

  lemma PacketCount(packetSize: nat, length: nat)
    requires packetSize > 0
    ensures PacketsLeft(packetSize, length, (length + packetSize - 1) / packetSize)
  {
    var n := (length + packetSize - 1) / packetSize;
    DivMod(length + packetSize - 1, packetSize);
    PacketCountAt(packetSize, length, n);
  }

  lemma {:induction false} PacketCountAt(packetSize: nat, length: nat, n: nat)
    requires packetSize > 0 && packetSize * n <= length + packetSize - 1 < packetSize * n + packetSize
    ensures PacketsLeft(packetSize, length, n)
    decreases n
  {
    if n > 0 {
      assert packetSize * n == packetSize * (n - 1) + packetSize;
      if n == 1 {
        assert packetSize * (n - 1) == 0;
      } else {
        Arith.MulGap(packetSize, n - 1, 0);
        PacketCountAt(packetSize, length - packetSize, n - 1);
      }
    }
  }

  lemma FillUnfolds(packetSize: nat, got: seq<byte>, wire: seq<Transfer>, size: nat)
    requires packetSize > 2 && |got| < size
    ensures wire == [] ==> Fill(packetSize, got, wire, size) == Read(got, [], [])
    ensures wire != [] && wire[0].Failure? ==> Fill(packetSize, got, wire, size) == ReadError(wire[0].code, wire[1..])
    ensures wire != [] && wire[0].Data? && |wire[0].bytes| <= 2 ==>
              Fill(packetSize, got, wire, size) == Read(got, [], wire[1..])
    ensures wire != [] && wire[0].Data? && |wire[0].bytes| > 2 ==>
              var p := Payload(packetSize, wire[0].bytes);
              var k := Min(|p|, size - |got|);
              Fill(packetSize, got, wire, size) ==
              if k + |got| < size then Fill(packetSize, got + p[..k], wire[1..], size) else Read(got + p[..k], p[k..], wire[1..])
  {
    if wire != [] && wire[0].Data? {
      var p := Payload(packetSize, wire[0].bytes);
      assert p[..|p|] == p;
    }
  }

  lemma NonEmptyPayload(packetSize: nat, t: seq<byte>)
    requires packetSize > 2 && |t| > 2
    ensures Payload(packetSize, t) != []
  {
  }

  /** `n` bytes were copied from `src` to `dst`, and nothing else changed. */
  ghost predicate Moved(was: seq<byte>, now: seq<byte>, dst: nat, src: nat, n: nat) {
    && |was| == |now| && dst + n <= |was| && src + n <= |was|
    && now == was[..dst] + was[src..src + n] + was[dst + n..]
  }

  /** The first `i` packets, `s` bytes, are compacted and the rest of the transfer `t` is still in place. */
  ghost predicate Compacted(buf: seq<byte>, t: seq<byte>, packetSize: nat, i: nat, s: nat)
    requires packetSize > 2
  {
    && 1 <= i && Whole(packetSize, s, i) && 2 * i <= s <= |t| <= |buf|
    && buf[2..2 + s - 2 * i] == Payload(packetSize, t[..s])
    && buf[s..|t|] == t[s..]
  }

  /** The number of whole packets, and what is left over. */
  method SplitLength(packetSize: nat, length: nat) returns (n: nat, rest: nat)
    requires packetSize > 2
    ensures rest < packetSize && rest <= length && Whole(packetSize, length - rest, n)
    ensures packetSize <= length ==> 1 <= n
  {
    n, rest := length / packetSize, length % packetSize;
    DivMod(length, packetSize);
    WholeIsMultiple(packetSize, n);
    assert Whole(packetSize, length - rest, n);
  }

  lemma {:induction false} ChunkFits(packetSize: nat, i: nat, s: nat, n: nat, length: nat)
    requires packetSize > 2 && i <= n && Whole(packetSize, s, i) && Whole(packetSize, length, n)
    ensures 2 * i <= s
    ensures if i == n then s == length else s + packetSize <= length
    decreases n
  {
    if i > 0 {
      ChunkFits(packetSize, i - 1, s - packetSize, n - 1, length - packetSize);
    }
  }

  lemma ChunkPlace(packetSize: nat, n: nat, s: nat)
    requires packetSize > 2 && Whole(packetSize, s, n)
    ensures packetSize * n == s && (packetSize - 2) * n == s - 2 * n && 2 * n <= s
  {
    MultipleOfWhole(packetSize, s, n);
  }

  lemma DivMod(a: nat, b: nat)
    requires b > 0
    ensures b * (a / b) + a % b == a && a % b < b
  {
  }

  lemma OnePacketInPlace(buf: seq<byte>, t: seq<byte>, packetSize: nat)
    requires packetSize > 2 && 2 < |t| <= packetSize && |t| <= |buf| && t == buf[..|t|]
    ensures buf[2..|t|] == Payload(packetSize, t)
  {
    PayloadOfOnePacket(packetSize, t);
    assert t[2..] == buf[2..|t|];
  }

  lemma StartCompaction(buf: seq<byte>, t: seq<byte>, packetSize: nat)
    requires packetSize > 2 && packetSize < |t| <= |buf| && t == buf[..|t|]
    ensures Whole(packetSize, packetSize, 1) && Compacted(buf, t, packetSize, 1, packetSize)
  {
    PayloadOfOnePacket(packetSize, t[..packetSize]);
    assert Whole(packetSize, packetSize, 1);
    assert t[..packetSize][2..] == buf[2..packetSize];
  }

  /** Bytes moved from behind a header at `src` down to `dst` extend what was collected there. */
  lemma Collect(was: seq<byte>, now: seq<byte>, dst: nat, src: nat, n: nat, end: nat)
    requires dst <= src && src + n <= end <= |was| && 2 <= dst && Moved(was, now, dst, src, n)
    ensures |now| == |was|
    ensures now[2..dst + n] == was[2..dst] + was[src..src + n]
    ensures now[src + n..end] == was[src + n..end]
  {
  }

  lemma StillInPlace(buf: seq<byte>, t: seq<byte>, s: nat, m: nat)
    requires 2 <= m && s + m <= |t| <= |buf| && buf[s..|t|] == t[s..]
    ensures buf[2 + s..s + m] == t[s..s + m][2..]
    ensures buf[s + m..|t|] == t[s + m..]
  {
    forall k | s <= k < |t| ensures buf[k] == t[k] {
      assert buf[s..|t|][k - s] == t[s..][k - s];
    }
  }

  lemma SplitSlice<T>(b: seq<T>, at: nat, n: nat, length: nat)
    requires n <= length && at + length <= |b|
    ensures b[at..at + length][..n] == b[at..at + n] && b[at..at + length][n..] == b[at + n..at + length]
  {
  }

  /** One more packet, of `m` bytes at position `s`, is compacted. */
  lemma CompactAt(was: seq<byte>, now: seq<byte>, t: seq<byte>, packetSize: nat, i: nat, s: nat, m: nat)
    requires packetSize > 2 && Compacted(was, t, packetSize, i, s)
    requires 2 <= m <= packetSize && s + m <= |t|
    requires Moved(was, now, 2 + s - 2 * i, 2 + s, m - 2)
    ensures |now| == |was|
    ensures now[2..s - 2 * i + m] == Payload(packetSize, t[..s + m])
    ensures m == packetSize ==> Whole(packetSize, s + m, i + 1) && Compacted(now, t, packetSize, i + 1, s + m)
  {
    hide Payload, Whole;
    if m == packetSize {
      WholeNext(packetSize, s, i);
    }
    Collect(was, now, 2 + s - 2 * i, 2 + s, m - 2, |t|);
    var packet := t[s..s + m];
    assert t[..s + m] == t[..s] + packet;
    PayloadOfPackets(packetSize, t[..s], packet, i);
    PayloadOfOnePacket(packetSize, packet);
    StillInPlace(was, t, s, m);
  }

  lemma CompactRunt(buf: seq<byte>, t: seq<byte>, packetSize: nat, i: nat, s: nat)
    requires packetSize > 2 && Compacted(buf, t, packetSize, i, s) && |t| - s <= 2
    ensures buf[2..2 + s - 2 * i] == Payload(packetSize, t)
  {
    assert t == t[..s] + t[s..];
    PayloadOfPackets(packetSize, t[..s], t[s..], i);
    PayloadOfOnePacket(packetSize, t[s..]);
  }
}
