/** What the three readers of libftdi are for: every USB packet carries two modem status bytes, which are
    stripped, and the remaining bytes are delivered in order.  The functions of this module say which bytes
    each reader returns; `FtdiRead` does the work in place. */
module Deframing {
  import Arith

  newtype byte = x: int | 0 <= x < 256

  function Min(a: nat, b: nat): nat {
    if a <= b then a else b
  }

  /** The bytes of a transfer without the first two bytes of each packet. */
  function Payload(packetSize: nat, t: seq<byte>): seq<byte>
    requires packetSize > 2
    decreases |t|
  {
    if t == [] then []
    else
      var n := Min(packetSize, |t|);
      t[Min(2, n)..n] + Payload(packetSize, t[n..])
  }

  /** The first packet of a transfer that has more. */
  lemma PayloadStep(packetSize: nat, a: seq<byte>, b: seq<byte>)
    requires packetSize > 2 && |a| == packetSize
    ensures Payload(packetSize, a + b) == a[2..] + Payload(packetSize, b)
  {
    assert (a + b)[packetSize..] == b;
    assert (a + b)[2..packetSize] == a[2..];
  }

  /** `length` is that of `n` whole packets. */
  predicate Whole(packetSize: nat, length: nat, n: nat) {
    if n == 0 then length == 0 else packetSize <= length && Whole(packetSize, length - packetSize, n - 1)
  }

  lemma {:induction false} WholeIsMultiple(packetSize: nat, n: nat)
    ensures Whole(packetSize, packetSize * n, n)
  {
    if n > 0 {
      assert packetSize * n == packetSize * (n - 1) + packetSize;
      WholeIsMultiple(packetSize, n - 1);
    }
  }

  lemma {:induction false} MultipleOfWhole(packetSize: nat, length: nat, n: nat)
    requires Whole(packetSize, length, n)
    ensures length == packetSize * n
  {
    if n > 0 {
      MultipleOfWhole(packetSize, length - packetSize, n - 1);
      assert packetSize * n == packetSize * (n - 1) + packetSize;
    }
  }

  lemma {:induction false} WholeNext(packetSize: nat, length: nat, n: nat)
    requires Whole(packetSize, length, n)
    ensures Whole(packetSize, length + packetSize, n + 1)
  {
  }

  lemma {:induction false} PayloadOfPackets(packetSize: nat, a: seq<byte>, b: seq<byte>, n: nat)
    requires packetSize > 2 && Whole(packetSize, |a|, n)
    ensures Payload(packetSize, a + b) == Payload(packetSize, a) + Payload(packetSize, b)
    decreases n
  {
    hide Payload;
    if n == 0 {
      assert a == [] && a + b == b;
      PayloadOfOnePacket(packetSize, a);
    } else {
      var first, rest := a[..packetSize], a[packetSize..];
      PayloadOfPackets(packetSize, rest, b, n - 1);
      assert a == first + rest && a + b == first + (rest + b);
      PayloadStep(packetSize, first, rest);
      PayloadStep(packetSize, first, rest + b);
    }
  }

  lemma {:induction false} PayloadLength(packetSize: nat, a: seq<byte>, n: nat)
    requires packetSize > 2 && Whole(packetSize, |a|, n)
    ensures |Payload(packetSize, a)| + 2 * n == |a|
    decreases n
  {
    if n > 0 {
      PayloadLength(packetSize, a[packetSize..], n - 1);
    }
  }

  lemma PayloadOfOnePacket(packetSize: nat, t: seq<byte>)
    requires packetSize > 2 && |t| <= packetSize
    ensures Payload(packetSize, t) == t[Min(2, |t|)..]
  {
    if t != [] {
      assert t[|t|..] == [];
      assert t[Min(2, |t|)..|t|] == t[Min(2, |t|)..];
    }
  }

  // ---------- the synchronous reader ----------

  /** One completed bulk read, or an error code of the USB library. */
  datatype Transfer = Data(bytes: seq<byte>) | Failure(code: int)

  /** Outcome of one read: the bytes returned, the bytes left over in the buffer, the transfers not yet
      made; or the error code. */
  datatype ReadResult =
    | Read(data: seq<byte>, pending: seq<byte>, wire: seq<Transfer>)
    | ReadError(code: int, wire: seq<Transfer>)

  function Fill(packetSize: nat, got: seq<byte>, wire: seq<Transfer>, size: nat): ReadResult
    requires packetSize > 2 && |got| < size
    decreases |wire|
  {
    if wire == [] then Read(got, [], wire)
    else
      match wire[0]
      case Failure(code) => ReadError(code, wire[1..])
      case Data(t) =>
        var p := Payload(packetSize, t);
        if |t| <= 2 then Read(got, [], wire[1..])
        else if |got| + |p| < size then Fill(packetSize, got + p, wire[1..], size)
        else Read(got + p[..size - |got|], p[size - |got|..], wire[1..])
  }

  /** `ftdi_read_data` */
  function ReadData(packetSize: nat, pending: seq<byte>, wire: seq<Transfer>, size: nat): ReadResult
    requires packetSize > 2
  {
    if size <= |pending| then Read(pending[..size], pending[size..], wire)
    else Fill(packetSize, pending, wire, size)
  }

  /** All payload bytes of some transfers, in order. */
  function Received(packetSize: nat, ts: seq<Transfer>): seq<byte>
    requires packetSize > 2
  {
    if ts == [] then []
    else (if ts[0].Data? then Payload(packetSize, ts[0].bytes) else []) + Received(packetSize, ts[1..])
  }

  lemma {:induction false} ReceivedConcat(packetSize: nat, a: seq<Transfer>, b: seq<Transfer>)
    requires packetSize > 2
    ensures Received(packetSize, a + b) == Received(packetSize, a) + Received(packetSize, b)
  {
    if a == [] {
      assert a + b == b;
    } else {
      assert (a + b)[1..] == a[1..] + b;
      ReceivedConcat(packetSize, a[1..], b);
    }
  }

  lemma NothingReceived(packetSize: nat)
    requires packetSize > 2
    ensures Received(packetSize, []) == []
  {
  }

  lemma ShortPayload(packetSize: nat, t: seq<byte>)
    requires packetSize > 2 && |t| <= 2
    ensures Payload(packetSize, t) == []
  {
    PayloadOfOnePacket(packetSize, t);
  }

  lemma {:induction false} FillConserves(packetSize: nat, got: seq<byte>, wire: seq<Transfer>, size: nat)
      returns (used: seq<Transfer>)
    requires packetSize > 2 && |got| < size
    ensures var r := Fill(packetSize, got, wire, size);
            && wire == used + r.wire
            && (r.Read? ==> |r.data| <= size && r.data + r.pending == got + Received(packetSize, used))
            && (r.ReadError? ==> used != [] && used[|used| - 1] == Failure(r.code))
    decreases |wire|
  {
    hide Payload;
    if wire == [] {
      used := [];
    } else {
      used := [wire[0]];
      assert Received(packetSize, [wire[0]]) ==
             (if wire[0].Data? then Payload(packetSize, wire[0].bytes) else []) + Received(packetSize, []);
      if wire[0].Data? {
        var t := wire[0].bytes;
        var p := Payload(packetSize, t);
        if |t| <= 2 {
          ShortPayload(packetSize, t);
        } else if |got| + |p| < size {
          var more := FillConserves(packetSize, got + p, wire[1..], size);
          used := [wire[0]] + more;
          assert used[1..] == more;
        }
      }
    }
  }

  /** One call: what it returns followed by what stays pending is what was pending followed by the
      payload of the transfers it made. */
  lemma ReadConserves(packetSize: nat, pending: seq<byte>, wire: seq<Transfer>, size: nat)
      returns (used: seq<Transfer>)
    requires packetSize > 2
    ensures var r := ReadData(packetSize, pending, wire, size);
            && wire == used + r.wire
            && (r.Read? ==> |r.data| <= size && r.data + r.pending == pending + Received(packetSize, used))
            && (r.ReadError? ==> used != [] && used[|used| - 1] == Failure(r.code))
  {
    if size <= |pending| {
      used := [];
    } else {
      used := FillConserves(packetSize, pending, wire, size);
    }
  }

  /** When reading stops: every transfer but the last brought data and left the request unfilled.  Fewer bytes
      than asked for are returned only when the last one brought no data or there are no more, and then nothing
      is left over. */
  lemma {:induction false} FillStops(packetSize: nat, got: seq<byte>, wire: seq<Transfer>, size: nat)
    requires packetSize > 2 && |got| < size
    ensures var r := Fill(packetSize, got, wire, size);
            var k: int := |wire| - |r.wire|;
            && 0 <= k && r.wire == wire[k..]
            && (forall j :: 0 <= j < k - 1 ==> wire[j].Data? && |wire[j].bytes| > 2)
            && (k > 0 ==> |got| + |Received(packetSize, wire[..k - 1])| < size)
            && (r.ReadError? <==> k > 0 && wire[k - 1].Failure?)
            && (r.Read? && |r.data| < size ==>
                  r.pending == [] && (k == |wire| || (k > 0 && wire[k - 1].Data? && |wire[k - 1].bytes| <= 2)))
    decreases |wire|
  {
    hide Payload;
    if wire != [] {
      var r := Fill(packetSize, got, wire, size);
      assert wire[..0] == [] && wire[1..] == wire[1..][0..];
      if wire[0].Data? && |wire[0].bytes| > 2 {
        var p := Payload(packetSize, wire[0].bytes);
        if |got| + |p| < size {
          FillStops(packetSize, got + p, wire[1..], size);
          var k := |wire| - |r.wire|;
          if k > 1 {
            assert wire[..k - 1][0] == wire[0] && wire[..k - 1][1..] == wire[1..][..k - 2];
          }
        }
      }
    }
  }

  /** A request that the pending bytes can serve makes no transfer. */
  lemma EnoughPending(packetSize: nat, pending: seq<byte>, wire: seq<Transfer>, size: nat)
    requires packetSize > 2 && size <= |pending|
    ensures var r := ReadData(packetSize, pending, wire, size);
            r.Read? && |r.data| == size && r.wire == wire && r.data + r.pending == pending
  {
  }

  /** Many calls, one after the other, until one fails: everything returned so far, and the outcome. */
  function ReadMany(packetSize: nat, pending: seq<byte>, wire: seq<Transfer>, sizes: seq<nat>): ReadResult
    requires packetSize > 2
    decreases |sizes|
  {
    if sizes == [] then Read([], pending, wire)
    else
      match ReadData(packetSize, pending, wire, sizes[0])
      case ReadError(code, wire1) => ReadError(code, wire1)
      case Read(data, pending1, wire1) =>
        match ReadMany(packetSize, pending1, wire1, sizes[1..])
        case ReadError(code, wire2) => ReadError(code, wire2)
        case Read(more, pending2, wire2) => Read(data + more, pending2, wire2)
  }

  /** Over any sequence of calls: the bytes returned so far followed by the pending bytes are the payloads
      of all transfers made, in order, with nothing lost, added or repeated. */
  lemma {:induction false} ReadsDeliverEverything(packetSize: nat, pending: seq<byte>, wire: seq<Transfer>, sizes: seq<nat>)
      returns (used: seq<Transfer>)
    requires packetSize > 2
    ensures var r := ReadMany(packetSize, pending, wire, sizes);
            && wire == used + r.wire
            && (r.Read? ==> r.data + r.pending == pending + Received(packetSize, used))
            && (r.ReadError? ==> used != [] && used[|used| - 1] == Failure(r.code))
    decreases |sizes|
  {
    hide ReadData, Received;
    if sizes == [] {
      used := [];
      assert Received(packetSize, []) == [] by { NothingReceived(packetSize); }
    } else {
      var r := ReadData(packetSize, pending, wire, sizes[0]);
      used := ReadConserves(packetSize, pending, wire, sizes[0]);
      if r.Read? {
        var more := ReadsDeliverEverything(packetSize, r.pending, r.wire, sizes[1..]);
        ReceivedConcat(packetSize, used, more);
        var rest := ReadMany(packetSize, r.pending, r.wire, sizes[1..]);
        if rest.Read? {
          assert (r.data + rest.data) + rest.pending == r.data + (rest.data + rest.pending);
          assert r.data + (r.pending + Received(packetSize, more)) == (r.data + r.pending) + Received(packetSize, more);
        }
        used := used + more;
      }
    }
  }

  // ---------- the asynchronous reader ----------

  /** The state of a submitted read: bytes stored so far, bytes left over, and whether it is completed. */
  datatype Submission = Submission(got: seq<byte>, pending: seq<byte>, completed: bool)

  /** `ftdi_read_data_submit` */
  function Submit(pending: seq<byte>, size: nat): Submission {
    if size <= |pending| then Submission(pending[..size], pending[size..], true)
    else Submission(pending, [], false)
  }

  /** `ftdi_read_data_cb`, called with a transfer that brought the bytes `t` */
  function Callback(packetSize: nat, s: Submission, size: nat, t: seq<byte>): Submission
    requires packetSize > 2 && |s.got| <= size
  {
    var p := Payload(packetSize, t);
    if |t| <= 2 then s
    else if |s.got| + |p| <= size then Submission(s.got + p, [], |s.got| + |p| == size)
    else Submission(s.got + p[..size - |s.got|], p[size - |s.got|..], true)
  }

  /** The transfers arrive one after the other until the read is completed. */
  function Arrive(packetSize: nat, s: Submission, size: nat, ts: seq<seq<byte>>): (Submission, nat)
    requires packetSize > 2 && |s.got| <= size
    decreases |ts|
  {
    if s.completed || ts == [] then (s, 0)
    else
      var (r, n) := Arrive(packetSize, Callback(packetSize, s, size, ts[0]), size, ts[1..]);
      (r, n + 1)
  }

  function Long(ts: seq<seq<byte>>): seq<Transfer> {
    if ts == [] then []
    else (if |ts[0]| > 2 then [Data(ts[0])] else []) + Long(ts[1..])
  }

  lemma {:induction false} ArriveIsFill(packetSize: nat, got: seq<byte>, size: nat, ts: seq<seq<byte>>)
    requires packetSize > 2 && |got| < size
    ensures var (s, n) := Arrive(packetSize, Submission(got, [], false), size, ts);
            var r := Fill(packetSize, got, Long(ts), size);
            n <= |ts| && r.Read? && s.got == r.data && s.pending == r.pending && Long(ts[n..]) == r.wire
    decreases |ts|
  {
    if ts != [] {
      var s1 := Callback(packetSize, Submission(got, [], false), size, ts[0]);
      var rest := ts[1..];
      if |ts[0]| <= 2 {
        ArriveIsFill(packetSize, got, size, rest);
        var (_, n) := Arrive(packetSize, s1, size, rest);
        assert Long(ts) == Long(rest);
        assert ts[n + 1..] == rest[n..];
      } else {
        var p := Payload(packetSize, ts[0]);
        assert Long(ts) == [Data(ts[0])] + Long(rest);
        assert Long(ts)[1..] == Long(rest);
        if |got| + |p| < size {
          ArriveIsFill(packetSize, got + p, size, rest);
          var (_, n) := Arrive(packetSize, s1, size, rest);
          assert ts[n + 1..] == rest[n..];
        } else {
          assert Arrive(packetSize, s1, size, rest) == (s1, 0);
          assert ts[1..] == rest;
        }
      }
    }
  }

  /** The asynchronous reader fills the buffer with the same bytes and leaves the same bytes pending as
      the synchronous one given the same transfers without those of at most two bytes, which the
      synchronous one takes for the end of the data. */
  lemma AsyncAgreesWithSync(packetSize: nat, pending: seq<byte>, size: nat, ts: seq<seq<byte>>)
    requires packetSize > 2
    ensures |Submit(pending, size).got| <= size
    ensures var (s, n) := Arrive(packetSize, Submit(pending, size), size, ts);
            var r := ReadData(packetSize, pending, Long(ts), size);
            n <= |ts| && r.Read? && s.got == r.data && s.pending == r.pending && Long(ts[n..]) == r.wire
  {
    if size > |pending| {
      ArriveIsFill(packetSize, pending, size, ts);
    }
  }

  // ---------- the stream reader ----------

  /** A call of the user's callback: where the block starts in the transfer, and its length. */
  datatype Block = Block(start: nat, length: int)

  /** The blocks of a transfer from position `from` on. */
  function Blocks(packetSize: nat, size: nat, from: nat): seq<Block>
    requires packetSize > 2 && from <= size
    decreases size - from
  {
    if from == size then []
    else
      var n := Min(packetSize, size - from);
      [Block(from + 2, n - 2)] + Blocks(packetSize, size, from + n)
  }

  /** The bytes a callback sees. */
  function Seen(t: seq<byte>, b: Block): seq<byte> {
    if 0 < b.length && b.start + b.length <= |t| then t[b.start..b.start + b.length] else []
  }

  function AllSeen(t: seq<byte>, bs: seq<Block>): seq<byte> {
    if bs == [] then [] else Seen(t, bs[0]) + AllSeen(t, bs[1..])
  }

  function Total(bs: seq<Block>): int {
    if bs == [] then 0 else bs[0].length + Total(bs[1..])
  }

  lemma BlocksUnfold(packetSize: nat, size: nat, from: nat)
    requires packetSize > 2 && from <= size
    ensures var bs := Blocks(packetSize, size, from);
            if from == size then bs == []
            else bs != [] && bs[0] == Block(from + 2, Min(packetSize, size - from) - 2)
                 && bs[1..] == if from + packetSize <= size then Blocks(packetSize, size, from + packetSize) else []
  {
    if from < size < from + packetSize {
      assert Blocks(packetSize, size, size) == [];
    }
  }

  lemma FirstBlock(t: seq<byte>, bs: seq<Block>)
    ensures bs == [] ==> AllSeen(t, bs) == [] && Total(bs) == 0
    ensures bs != [] ==> AllSeen(t, bs) == Seen(t, bs[0]) + AllSeen(t, bs[1..]) && Total(bs) == bs[0].length + Total(bs[1..])
  {
  }

  lemma PayloadSplit(packetSize: nat, t: seq<byte>, from: nat)
    requires packetSize > 2 && from + packetSize <= |t|
    ensures Payload(packetSize, t[from..]) == t[from + 2..from + packetSize] + Payload(packetSize, t[from + packetSize..])
  {
    hide Payload;
    assert t[from..] == t[from..from + packetSize] + t[from + packetSize..];
    PayloadStep(packetSize, t[from..from + packetSize], t[from + packetSize..]);
    assert t[from..from + packetSize][2..] == t[from + 2..from + packetSize];
  }

  /** The stream reader from position `from` of a transfer on. */
  lemma {:induction false} StreamFrom(packetSize: nat, t: seq<byte>, from: nat)
    requires packetSize > 2 && from <= |t|
    ensures AllSeen(t, Blocks(packetSize, |t|, from)) == Payload(packetSize, t[from..])
    ensures Total(Blocks(packetSize, |t|, from)) == |Payload(packetSize, t[from..])| - Runts(packetSize, |t| - from)
    decreases |t| - from
  {
    hide Payload, Blocks, AllSeen, Total;
    var rest := |t| - from;
    var bs := Blocks(packetSize, |t|, from);
    FirstBlock(t, bs);
    FirstBlock(t, []);
    BlocksUnfold(packetSize, |t|, from);
    if rest >= packetSize {
      StreamFrom(packetSize, t, from + packetSize);
      PayloadSplit(packetSize, t, from);
    } else if rest > 0 {
      PayloadOfOnePacket(packetSize, t[from..]);
    } else {
      PayloadOfOnePacket(packetSize, t[from..]);
    }
  }

  /** How many packets of a single byte a transfer of this length has: one or none. */
  function Runts(packetSize: nat, length: nat): nat
    requires packetSize > 0
  {
    if length >= packetSize then Runts(packetSize, length - packetSize)
    else if length == 1 then 1
    else 0
  }

  lemma {:induction false} RuntsByRemainder(packetSize: nat, length: nat)
    requires packetSize > 1
    ensures Runts(packetSize, length) == if length % packetSize == 1 then 1 else 0
  {
    if length >= packetSize {
      RuntsByRemainder(packetSize, length - packetSize);
      var less := length - packetSize;
      var q := less / packetSize;
      assert less == packetSize * q + less % packetSize;
      assert length == packetSize * (q + 1) + less % packetSize;
      Arith.DivModUnique(packetSize, q + 1, less % packetSize);
    } else {
      Arith.DivModUnique(packetSize, 0, length);
    }
  }

  /** The blocks together are the payload.  The byte count announced with them is right exactly if the
      transfer does not end in a packet of a single byte, which counts as minus one. */
  lemma StreamDeliversPayload(packetSize: nat, t: seq<byte>)
    requires packetSize > 2
    ensures var bs := Blocks(packetSize, |t|, 0);
            && AllSeen(t, bs) == Payload(packetSize, t)
            && (Total(bs) == |Payload(packetSize, t)| <==> |t| % packetSize != 1)
  {
    StreamFrom(packetSize, t, 0);
    RuntsByRemainder(packetSize, |t|);
    assert t[0..] == t;
  }
}
