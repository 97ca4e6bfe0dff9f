/**
 * The points wire adapter: an outbound queue drained into the UDP sender, and
 * an inbound path that filters datagrams through a sync phase, queues the
 * chunks and splices them into one reassembly buffer, handing a complete
 * message on when the frame-continuity check passes.
 *
 * Threads are replaced by explicit sequential calls: the receive loop is
 * `RecvPoints`, each scheduled drain is a call to `SendPoints` or
 * `SplicePoints`. Socket reads and send results are inputs. What the adapter
 * hands to the outside (transmissions, error reports, delivered byte images)
 * is appended to one ordered event log.
 */
module PointsProtoAdapter {
  import opened RsCommon
  import opened ProtoMsgTranslator

  /** Size of the reassembly buffer. */
  const RECEIVE_BUF_SIZE: nat := 10000000

  /** Payload bytes per chunk; the offset of chunk i is i * SPLIT_SIZE. */
  const SPLIT_SIZE: nat := 1400

  /** The SPLIT_SIZE bytes of a datagram buffer that the splice copies. */
  type ChunkBytes = s: seq<bv8> | |s| == SPLIT_SIZE witness Zeros(SPLIT_SIZE)

  /** The header in front of every datagram. */
  datatype MsgHeader = MsgHeader(msgID: int, frmNumber: int, totalMsgCnt: int, totalMsgLen: int)

  /** One result of a socket read: the bytes, the header and the return code (-1 on failure). */
  datatype Datagram = Datagram(data: ChunkBytes, header: MsgHeader, ret: int)

  /** A queued chunk waiting to be spliced. */
  datatype Chunk = Chunk(data: ChunkBytes, header: MsgHeader)

  /** What the adapter hands to the outside world, in order. */
  datatype Event =
    | Transmitted(msg: ProtoLidarPoints, ok: bool)  // one sendSplitMsg call and its result
    | Reported(code: ErrCode)                       // one reportError call
    | Delivered(image: seq<bv8>)                    // the bytes parsed and passed to the callback

  /**
   * The splice writes `SPLIT_SIZE` bytes at `msgID * SPLIT_SIZE` without a
   * check, so a spliced header must keep that write inside the buffer.
   */
  predicate InBounds(h: MsgHeader) {
    0 <= h.msgID && (h.msgID + 1) * SPLIT_SIZE <= RECEIVE_BUF_SIZE
  }

  // ------------------------------------------------------- receive filter

  /**
   * The chunks that the receive loop queues for the datagrams `ds`, starting
   * with the sync flag `syncing`: while syncing, every datagram whose msgID is
   * not 0 is dropped before its return code is looked at; afterwards only
   * failed reads are left out.
   */
  function Accepted(ds: seq<Datagram>, syncing: bool): (r: seq<Chunk>)
    ensures |r| <= |ds|
  {
    if ds == [] then []
    else
      var d := ds[0];
      var rest := Accepted(ds[1..], syncing && d.header.msgID != 0);
      if (syncing && d.header.msgID != 0) || d.ret == -1 then rest
      else [Chunk(d.data, d.header)] + rest
  }

  /**
   * Whether the loop is still in its sync phase after the datagrams `ds`,
   * starting with the flag `syncing`: only a datagram with msgID 0 ends it.
   */
  function StillSyncing(ds: seq<Datagram>, syncing: bool): (r: bool)
    ensures r <==> syncing && forall j :: 0 <= j < |ds| ==> ds[j].header.msgID != 0
  {
    if ds == [] then syncing
    else
      var r := StillSyncing(ds[1..], syncing && ds[0].header.msgID != 0);
      assert forall j :: 1 <= j < |ds| ==> ds[1..][j - 1] == ds[j];
      r
  }

  /** `c` carries the data and header of one of the datagrams `ds`. */
  predicate ReadFrom(c: Chunk, ds: seq<Datagram>) {
    exists j :: 0 <= j < |ds| && c == Chunk(ds[j].data, ds[j].header)
  }

  /** Every queued chunk is the data and header of some datagram that was read. */
  lemma {:induction false} AcceptedFromDatagrams(ds: seq<Datagram>, syncing: bool)
    ensures forall i :: 0 <= i < |Accepted(ds, syncing)| ==> ReadFrom(Accepted(ds, syncing)[i], ds)
  {
    if ds != [] {
      var d := ds[0];
      var next := syncing && d.header.msgID != 0;
      AcceptedFromDatagrams(ds[1..], next);
      var rest := Accepted(ds[1..], next);
      var r := Accepted(ds, syncing);
      forall i | 0 <= i < |r|
        ensures ReadFrom(r[i], ds)
      {
        if !next && d.ret != -1 && i == 0 {
          assert r[i] == Chunk(ds[0].data, ds[0].header);
        } else {
          var k := if next || d.ret == -1 then i else i - 1;
          assert r[i] == rest[k] && ReadFrom(rest[k], ds[1..]);
          var j :| 0 <= j < |ds[1..]| && rest[k] == Chunk(ds[1..][j].data, ds[1..][j].header);
          assert ds[1..][j] == ds[j + 1];
        }
      }
    }
  }

  /** The error reports the receive loop makes for `ds`: one per failed read after sync. */
  function RecvReports(ds: seq<Datagram>, syncing: bool): (r: seq<Event>)
    ensures |r| <= |ds|
    ensures forall i :: 0 <= i < |r| ==> r[i] == Reported(LidarPointsProtoReceiveError)
  {
    if ds == [] then []
    else
      var d := ds[0];
      if syncing && d.header.msgID != 0 then RecvReports(ds[1..], true)
      else if d.ret == -1 then [Reported(LidarPointsProtoReceiveError)] + RecvReports(ds[1..], false)
      else RecvReports(ds[1..], false)
  }

  /** One datagram of the receive loop: how Accepted and RecvReports unfold at position `i`. */
  lemma RecvStep(ds: seq<Datagram>, i: nat, syncing: bool)
    requires i < |ds|
    ensures syncing && ds[i].header.msgID != 0 ==>
      Accepted(ds[i..], syncing) == Accepted(ds[i + 1..], true) &&
      RecvReports(ds[i..], syncing) == RecvReports(ds[i + 1..], true)
    ensures !(syncing && ds[i].header.msgID != 0) && ds[i].ret == -1 ==>
      Accepted(ds[i..], syncing) == Accepted(ds[i + 1..], false) &&
      RecvReports(ds[i..], syncing) == [Reported(LidarPointsProtoReceiveError)] + RecvReports(ds[i + 1..], false)
    ensures !(syncing && ds[i].header.msgID != 0) && ds[i].ret != -1 ==>
      Accepted(ds[i..], syncing) == [Chunk(ds[i].data, ds[i].header)] + Accepted(ds[i + 1..], false) &&
      RecvReports(ds[i..], syncing) == RecvReports(ds[i + 1..], false)
    ensures StillSyncing(ds[i..], syncing) == StillSyncing(ds[i + 1..], syncing && ds[i].header.msgID != 0)
  {
    assert ds[i..][0] == ds[i] && ds[i..][1..] == ds[i + 1..];
  }

  /**
   * The body of the receive loop over the datagrams `ds`, read in order, with
   * the sync flag `syncing` as the thread left it: while it is on, a datagram
   * with msgID other than 0 is skipped and msgID 0 turns it off; then a failed
   * read is reported and anything else is queued. The flag is handed back.
   */
  method FilterDatagrams(ds: seq<Datagram>, syncing: bool)
    returns (queued: seq<Chunk>, reports: seq<Event>, syncingAfter: bool)
    ensures queued == Accepted(ds, syncing)
    ensures reports == RecvReports(ds, syncing)
    ensures syncingAfter == StillSyncing(ds, syncing)
  {
    var startCheck := syncing;
    queued, reports := [], [];
    var i := 0;
    while i < |ds|
      invariant 0 <= i <= |ds|
      invariant queued + Accepted(ds[i..], startCheck) == Accepted(ds, syncing)
      invariant reports + RecvReports(ds[i..], startCheck) == RecvReports(ds, syncing)
      invariant StillSyncing(ds[i..], startCheck) == StillSyncing(ds, syncing)
    {
      var d := ds[i];
      RecvStep(ds, i, startCheck);
      i := i + 1;
      if startCheck {
        if d.header.msgID == 0 {
          startCheck := false;
        } else {
          continue;
        }
      }
      if d.ret == -1 {
        reports := reports + [Reported(LidarPointsProtoReceiveError)];
        continue;
      }
      queued := queued + [Chunk(d.data, d.header)];
    }
    assert ds[i..] == [];
    syncingAfter := startCheck;
  }

  /**
   * Sync phase: everything before the first datagram with msgID 0 is
   * discarded, failed reads included, and that datagram is handled as if
   * sync had never been on.
   */
  lemma {:induction false} SyncDropsUntilFirstZero(ds: seq<Datagram>, k: nat)
    requires k < |ds| && ds[k].header.msgID == 0
    requires forall j :: 0 <= j < k ==> ds[j].header.msgID != 0
    ensures Accepted(ds, true) == Accepted(ds[k..], false)
    ensures RecvReports(ds, true) == RecvReports(ds[k..], false)
  {
    if k > 0 {
      SyncDropsUntilFirstZero(ds[1..], k - 1);
      assert ds[1..][k - 1..] == ds[k..];
    }
  }

  /** A stream that never presents msgID 0 queues nothing and reports nothing. */
  lemma {:induction false} NoZeroNoData(ds: seq<Datagram>)
    requires forall j :: 0 <= j < |ds| ==> ds[j].header.msgID != 0
    ensures Accepted(ds, true) == [] && RecvReports(ds, true) == []
  {
    if ds != [] {
      NoZeroNoData(ds[1..]);
    }
  }

  /**
   * After sync nothing is discarded silently: every datagram is either queued
   * or reported as a receive error.
   */
  lemma {:induction false} AfterSyncNothingSilent(ds: seq<Datagram>)
    ensures |Accepted(ds, false)| + |RecvReports(ds, false)| == |ds|
  {
    if ds != [] {
      AfterSyncNothingSilent(ds[1..]);
    }
  }

  /**
   * The filter is one pass over the stream: reading `a` and then `b` with the
   * flag carried over gives what reading `a + b` at once gives. After sync
   * the flag stays off, so the filter never re-arms.
   */
  lemma {:induction false} FilterCompositional(a: seq<Datagram>, b: seq<Datagram>, syncing: bool)
    ensures Accepted(a + b, syncing) == Accepted(a, syncing) + Accepted(b, StillSyncing(a, syncing))
    ensures RecvReports(a + b, syncing) == RecvReports(a, syncing) + RecvReports(b, StillSyncing(a, syncing))
    ensures StillSyncing(a + b, syncing) == StillSyncing(b, StillSyncing(a, syncing))
  {
    if a != [] {
      assert (a + b)[1..] == a[1..] + b;
      FilterCompositional(a[1..], b, syncing && a[0].header.msgID != 0);
    } else {
      assert a + b == b;
    }
  }

  /** The chunks of the reads that succeeded, in the order read. */
  function SuccessfulReads(ds: seq<Datagram>): (r: seq<Chunk>)
    ensures |r| <= |ds|
  {
    if ds == [] then []
    else
      var d := ds[|ds| - 1];
      SuccessfulReads(ds[..|ds| - 1]) + (if d.ret == -1 then [] else [Chunk(d.data, d.header)])
  }

  /** After sync the loop queues exactly the successful reads, in order, and nothing else. */
  lemma {:induction false} AcceptedAfterSync(ds: seq<Datagram>)
    ensures Accepted(ds, false) == SuccessfulReads(ds)
  {
    if ds != [] {
      var k := |ds| - 1;
      AcceptedAfterSync(ds[..k]);
      FilterCompositional(ds[..k], [ds[k]], false);
      assert ds[..k] + [ds[k]] == ds;
      assert [ds[k]][1..] == [];
    }
  }

  // ----------------------------------------------------------- reassembly

  /** The reassembly buffer and the two frame-number registers. */
  datatype RxState = RxState(buf: seq<bv8>, oldFrm: int, newFrm: int)

  /** `buf` with `data` copied in at `off`. */
  function Overwrite(buf: seq<bv8>, off: nat, data: seq<bv8>): (r: seq<bv8>)
    requires off + |data| <= |buf|
    ensures |r| == |buf|
  {
    buf[..off] + data + buf[off + |data|..]
  }

  /** The copy replaces exactly the bytes at [off, off + |data|) and keeps every other byte. */
  lemma OverwriteAt(buf: seq<bv8>, off: nat, data: seq<bv8>)
    requires off + |data| <= |buf|
    ensures forall j :: 0 <= j < |buf| ==>
      Overwrite(buf, off, data)[j] == if off <= j < off + |data| then data[j - off] else buf[j]
  {
  }

  /** The continuity check: same frame number as the previous chunk, and the last chunk of its frame. */
  predicate Completes(prevFrm: int, h: MsgHeader)
    ensures Completes(prevFrm, h) ==> h.msgID == h.totalMsgCnt - 1
    ensures Completes(prevFrm, h) ==> prevFrm == h.frmNumber
  {
    prevFrm == h.frmNumber && h.msgID == h.totalMsgCnt - 1
  }

  /** The state after splicing one chunk (registers shifted, bytes copied in). */
  function SpliceStep(s: RxState, c: Chunk): (r: RxState)
    requires |s.buf| == RECEIVE_BUF_SIZE && InBounds(c.header)
    ensures |r.buf| == RECEIVE_BUF_SIZE
    ensures r.oldFrm == s.newFrm && r.newFrm == c.header.frmNumber
  {
    RxState(Overwrite(s.buf, c.header.msgID * SPLIT_SIZE, c.data), s.newFrm, c.header.frmNumber)
  }

  /** What one spliced chunk delivers: the first totalMsgLen bytes, if it completes a frame. */
  function StepDelivery(s: RxState, c: Chunk): (r: seq<Event>)
    requires |s.buf| == RECEIVE_BUF_SIZE && InBounds(c.header)
    requires Completes(s.newFrm, c.header) ==> 0 <= c.header.totalMsgLen <= RECEIVE_BUF_SIZE
    ensures |r| == if Completes(s.newFrm, c.header) then 1 else 0
  {
    if Completes(s.newFrm, c.header) then [Delivered(SpliceStep(s, c).buf[..c.header.totalMsgLen])]
    else []
  }

  predicate AllInBounds(cs: seq<Chunk>) {
    forall i :: 0 <= i < |cs| ==> InBounds(cs[i].header)
  }

  /**
   * The parse reads `totalMsgLen` bytes without a check, but only for a chunk
   * that passes the continuity check: splicing `cs` from `s`, every chunk
   * that completes its frame keeps that read inside the buffer. The length
   * of any other chunk is never looked at.
   */
  predicate ReadsInBounds(s: RxState, cs: seq<Chunk>) {
    cs == [] ||
    var k := |cs| - 1;
    && ReadsInBounds(s, cs[..k])
    && (Completes(PrevFrame(s, cs[..k]), cs[k].header) ==> 0 <= cs[k].header.totalMsgLen <= RECEIVE_BUF_SIZE)
  }

  /** What holds of a queue holds of each of its prefixes. */
  lemma {:induction false} ReadsInBoundsPrefix(s: RxState, cs: seq<Chunk>, n: nat)
    requires ReadsInBounds(s, cs) && n <= |cs|
    ensures ReadsInBounds(s, cs[..n])
  {
    if n < |cs| {
      var k := |cs| - 1;
      ReadsInBoundsPrefix(s, cs[..k], n);
      assert cs[..k][..n] == cs[..n];
    } else {
      assert cs[..n] == cs;
    }
  }

  /** Chunks whose lengths all fit the buffer can be spliced from any state. */
  lemma {:induction false} ReadsInBoundsAll(s: RxState, cs: seq<Chunk>)
    requires forall i :: 0 <= i < |cs| ==> 0 <= cs[i].header.totalMsgLen <= RECEIVE_BUF_SIZE
    ensures ReadsInBounds(s, cs)
  {
    if cs != [] {
      ReadsInBoundsAll(s, cs[..|cs| - 1]);
    }
  }

  /** Splicing the chunks `cs` in order, from state `s`: the final state and the deliveries. */
  function SpliceAll(s: RxState, cs: seq<Chunk>): (r: (RxState, seq<Event>))
    requires |s.buf| == RECEIVE_BUF_SIZE && AllInBounds(cs) && ReadsInBounds(s, cs)
    ensures |r.0.buf| == RECEIVE_BUF_SIZE
    ensures r.0.newFrm == PrevFrame(s, cs)
    ensures |r.1| <= |cs|
    ensures forall i :: 0 <= i < |r.1| ==> r.1[i].Delivered?
  {
    if cs == [] then (s, [])
    else
      var prev := SpliceAll(s, cs[..|cs| - 1]);
      var c := cs[|cs| - 1];
      (SpliceStep(prev.0, c), prev.1 + StepDelivery(prev.0, c))
  }

  /** Splicing one more chunk of `q` extends the prefix's result by one step. */
  lemma SpliceAllStep(s: RxState, q: seq<Chunk>, i: nat)
    requires |s.buf| == RECEIVE_BUF_SIZE && AllInBounds(q) && ReadsInBounds(s, q) && i < |q|
    ensures AllInBounds(q[..i]) && AllInBounds(q[..i + 1]) && InBounds(q[i].header)
    ensures ReadsInBounds(s, q[..i]) && ReadsInBounds(s, q[..i + 1])
    ensures Completes(SpliceAll(s, q[..i]).0.newFrm, q[i].header) ==>
      0 <= q[i].header.totalMsgLen <= RECEIVE_BUF_SIZE
    ensures var prev := SpliceAll(s, q[..i]);
            SpliceAll(s, q[..i + 1]) == (SpliceStep(prev.0, q[i]), prev.1 + StepDelivery(prev.0, q[i]))
  {
    assert q[..i + 1][..i] == q[..i];
    ReadsInBoundsPrefix(s, q, i + 1);
  }

  /** The frame number of the chunk spliced just before position |cs| (the registers' view). */
  function PrevFrame(s: RxState, cs: seq<Chunk>): int {
    if cs == [] then s.newFrm else cs[|cs| - 1].header.frmNumber
  }

  /**
   * After each spliced chunk, `newFrm` holds that chunk's frame number and
   * `oldFrm` the previous chunk's (or the register's earlier value).
   */
  lemma {:induction false} SpliceRegisters(s: RxState, cs: seq<Chunk>)
    requires |s.buf| == RECEIVE_BUF_SIZE && AllInBounds(cs) && ReadsInBounds(s, cs)
    ensures SpliceAll(s, cs).0.newFrm == PrevFrame(s, cs)
    ensures cs != [] ==> SpliceAll(s, cs).0.oldFrm == PrevFrame(s, cs[..|cs| - 1])
  {
    if cs != [] {
      SpliceRegisters(s, cs[..|cs| - 1]);
    }
  }

  /**
   * The delivery rule: appending a chunk delivers exactly when the previous
   * chunk's frame number equals its own and it is the last chunk of its
   * frame; what is delivered is buff_[0, totalMsgLen) after the copy.
   */
  lemma DeliveryRule(s: RxState, cs: seq<Chunk>, c: Chunk)
    requires |s.buf| == RECEIVE_BUF_SIZE && AllInBounds(cs) && InBounds(c.header) && ReadsInBounds(s, cs)
    requires Completes(PrevFrame(s, cs), c.header) ==> 0 <= c.header.totalMsgLen <= RECEIVE_BUF_SIZE
    ensures AllInBounds(cs + [c]) && ReadsInBounds(s, cs + [c])
    ensures var before := SpliceAll(s, cs);
            var after := SpliceAll(s, cs + [c]);
            after.1 == before.1 +
              (if PrevFrame(s, cs) == c.header.frmNumber && c.header.msgID == c.header.totalMsgCnt - 1
               then [Delivered(after.0.buf[..c.header.totalMsgLen])] else [])
  {
    assert (cs + [c])[..|cs|] == cs;
    SpliceRegisters(s, cs);
  }

  /** A single-chunk frame that follows a chunk of another frame is never delivered. */
  lemma SingleChunkAfterOtherFrame(s: RxState, cs: seq<Chunk>, c: Chunk)
    requires |s.buf| == RECEIVE_BUF_SIZE && AllInBounds(cs) && InBounds(c.header) && ReadsInBounds(s, cs)
    requires c.header.msgID == 0 && c.header.totalMsgCnt == 1
    requires PrevFrame(s, cs) != c.header.frmNumber
    ensures AllInBounds(cs + [c]) && ReadsInBounds(s, cs + [c])
    ensures SpliceAll(s, cs + [c]).1 == SpliceAll(s, cs).1
  {
    DeliveryRule(s, cs, c);
  }

  /** Chunks none of which is the last of its frame deliver nothing. */
  lemma {:induction false} NoFinalChunkNoDelivery(s: RxState, cs: seq<Chunk>)
    requires |s.buf| == RECEIVE_BUF_SIZE && AllInBounds(cs)
    requires forall i :: 0 <= i < |cs| ==> cs[i].header.msgID != cs[i].header.totalMsgCnt - 1
    ensures ReadsInBounds(s, cs) && SpliceAll(s, cs).1 == []
  {
    if cs != [] {
      NoFinalChunkNoDelivery(s, cs[..|cs| - 1]);
    }
  }

  // A frame as sent: chunk i carries payload i, message id i, one frame number,
  // the chunk count and the message length.

  function FrameChunk(payloads: seq<ChunkBytes>, f: int, len: int, i: nat): Chunk
    requires i < |payloads|
  {
    Chunk(payloads[i], MsgHeader(i, f, |payloads|, len))
  }

  function Frame(payloads: seq<ChunkBytes>, f: int, len: int): (r: seq<Chunk>)
    requires |payloads| * SPLIT_SIZE <= RECEIVE_BUF_SIZE && 0 <= len <= RECEIVE_BUF_SIZE
    ensures |r| == |payloads| && AllInBounds(r)
    ensures forall i :: 0 <= i < |r| ==> r[i] == FrameChunk(payloads, f, len, i)
  {
    seq(|payloads|, i requires 0 <= i < |payloads| => FrameChunk(payloads, f, len, i))
  }

  /** Payload i sits at offset i * SPLIT_SIZE of `buf` for every i < n. */
  predicate HoldsPayloads(buf: seq<bv8>, payloads: seq<ChunkBytes>, n: nat)
    requires n <= |payloads| && |buf| == RECEIVE_BUF_SIZE && |payloads| * SPLIT_SIZE <= RECEIVE_BUF_SIZE
  {
    forall i, j :: 0 <= i < n && 0 <= j < SPLIT_SIZE ==> buf[i * SPLIT_SIZE + j] == payloads[i][j]
  }

  /** Splicing chunk n-1 of a frame keeps payloads 0 .. n-2 and adds payload n-1. */
  lemma SpliceAddsPayload(t: RxState, payloads: seq<ChunkBytes>, f: int, len: int, n: nat)
    requires |t.buf| == RECEIVE_BUF_SIZE
    requires |payloads| * SPLIT_SIZE <= RECEIVE_BUF_SIZE && 0 <= len <= RECEIVE_BUF_SIZE
    requires 1 <= n <= |payloads|
    requires HoldsPayloads(t.buf, payloads, n - 1)
    ensures InBounds(FrameChunk(payloads, f, len, n - 1).header)
    ensures HoldsPayloads(SpliceStep(t, FrameChunk(payloads, f, len, n - 1)).buf, payloads, n)
  {
    var c := FrameChunk(payloads, f, len, n - 1);
    var buf := SpliceStep(t, c).buf;
    OverwriteAt(t.buf, (n - 1) * SPLIT_SIZE, c.data);
    forall i, j | 0 <= i < n && 0 <= j < SPLIT_SIZE
      ensures buf[i * SPLIT_SIZE + j] == payloads[i][j]
    {
      if i < n - 1 {
        assert i * SPLIT_SIZE + j < (n - 1) * SPLIT_SIZE;
      }
    }
  }

  /** After the first n chunks of a frame, payload i sits at offset i * SPLIT_SIZE for every i < n. */
  lemma {:induction false} FrameBuffer(s: RxState, payloads: seq<ChunkBytes>, f: int, len: int, n: nat)
    requires |s.buf| == RECEIVE_BUF_SIZE
    requires |payloads| * SPLIT_SIZE <= RECEIVE_BUF_SIZE && 0 <= len <= RECEIVE_BUF_SIZE
    requires n <= |payloads|
    ensures AllInBounds(Frame(payloads, f, len)[..n]) && ReadsInBounds(s, Frame(payloads, f, len)[..n])
    ensures HoldsPayloads(SpliceAll(s, Frame(payloads, f, len)[..n]).0.buf, payloads, n)
  {
    if n > 0 {
      var q := Frame(payloads, f, len);
      FrameBuffer(s, payloads, f, len, n - 1);
      ReadsInBoundsAll(s, q);
      SpliceAllStep(s, q, n - 1);
      SpliceAddsPayload(SpliceAll(s, q[..n - 1]).0, payloads, f, len, n);
    }
  }

  /**
   * Splicing chunks 0 .. n-1 of a frame of `total` chunks leaves its frame
   * number in the new register and delivers only with the last chunk; a
   * one-chunk frame needs the register to hold its frame number already.
   */
  lemma {:induction false} FrameDeliveries(s: RxState, cs: seq<Chunk>, f: int, total: int, len: int)
    requires |s.buf| == RECEIVE_BUF_SIZE && AllInBounds(cs) && 1 <= |cs| <= total
    requires 0 <= len <= RECEIVE_BUF_SIZE
    requires forall i :: 0 <= i < |cs| ==> cs[i].header == MsgHeader(i, f, total, len)
    ensures ReadsInBounds(s, cs)
    ensures var r := SpliceAll(s, cs);
      && r.0.newFrm == f
      && r.1 == (if |cs| == total && (|cs| >= 2 || s.newFrm == f) then [Delivered(r.0.buf[..len])] else [])
  {
    var k := |cs| - 1;
    assert AllInBounds(cs[..k]);
    ReadsInBoundsAll(s, cs);
    if k >= 1 {
      FrameDeliveries(s, cs[..k], f, total, len);
    } else {
      assert cs[..k] == [];
    }
  }

  /**
   * A frame of k >= 2 chunks with one frame number, spliced in order, is
   * delivered exactly once, and the delivered bytes are the payloads laid
   * end to end.
   */
  lemma FrameDeliveredOnce(s: RxState, payloads: seq<ChunkBytes>, f: int, len: int)
    requires |s.buf| == RECEIVE_BUF_SIZE
    requires 2 <= |payloads| && |payloads| * SPLIT_SIZE <= RECEIVE_BUF_SIZE
    requires 0 <= len <= |payloads| * SPLIT_SIZE
    ensures ReadsInBounds(s, Frame(payloads, f, len))
    ensures var r := SpliceAll(s, Frame(payloads, f, len));
      && |r.1| == 1
      && |r.1[0].image| == len
      && forall i, j :: 0 <= i < |payloads| && 0 <= j < SPLIT_SIZE && i * SPLIT_SIZE + j < len ==>
           r.1[0].image[i * SPLIT_SIZE + j] == payloads[i][j]
  {
    var cs := Frame(payloads, f, len);
    assert cs[..|payloads|] == cs;
    FrameBuffer(s, payloads, f, len, |payloads|);
    FrameDeliveries(s, cs, f, |payloads|, len);
  }

  /** The same frame with its last chunk lost delivers nothing. */
  lemma FrameMissingLastChunk(s: RxState, payloads: seq<ChunkBytes>, f: int, len: int)
    requires |s.buf| == RECEIVE_BUF_SIZE
    requires 2 <= |payloads| && |payloads| * SPLIT_SIZE <= RECEIVE_BUF_SIZE
    requires 0 <= len <= RECEIVE_BUF_SIZE
    ensures AllInBounds(Frame(payloads, f, len)[..|payloads| - 1])
    ensures ReadsInBounds(s, Frame(payloads, f, len)[..|payloads| - 1])
    ensures SpliceAll(s, Frame(payloads, f, len)[..|payloads| - 1]).1 == []
  {
    var cs := Frame(payloads, f, len)[..|payloads| - 1];
    FrameDeliveries(s, cs, f, |payloads|, len);
  }

  /**
   * The continuity check only compares with the previous chunk: a three-chunk
   * frame whose middle chunk is lost is still delivered, with whatever bytes
   * the buffer held where the lost chunk belongs.
   */
  lemma LostMiddleChunkStillDelivers(s: RxState, payloads: seq<ChunkBytes>, f: int, len: int)
    requires |s.buf| == RECEIVE_BUF_SIZE && |payloads| == 3
    requires 0 <= len <= RECEIVE_BUF_SIZE
    ensures var fr := Frame(payloads, f, len);
      AllInBounds([fr[0], fr[2]]) && ReadsInBounds(s, [fr[0], fr[2]]) &&
      |SpliceAll(s, [fr[0], fr[2]]).1| == 1
  {
    var fr := Frame(payloads, f, len);
    DeliveryRule(s, [fr[0]], fr[2]);
    assert [fr[0]] + [fr[2]] == [fr[0], fr[2]];
    assert [fr[0]][..0] == [];
  }

  // ------------------------------------------------------------- send side

  /** The events of draining `ms` with send results `oks`: each message is transmitted, a failure reported. */
  function SendEvents(ms: seq<LidarPointsMsg>, oks: seq<bool>): (r: seq<Event>)
    requires |oks| == |ms|
    ensures |r| == |ms| + Failures(oks)
  {
    if ms == [] then []
    else
      var k := |ms| - 1;
      SendEvents(ms[..k], oks[..k]) + MessageEvents(ms[k], oks[k])
  }

  /** One loop turn of the send drain: translate and transmit, report a failure. */
  function MessageEvents(m: LidarPointsMsg, ok: bool): (r: seq<Event>)
    ensures |r| == (if ok then 1 else 2)
    ensures r[0] == Transmitted(ToProtoPoints(m), ok)
    ensures !ok ==> r[1] == Reported(LidarPointsProtoSendError)
  {
    [Transmitted(ToProtoPoints(m), ok)] + (if ok then [] else [Reported(LidarPointsProtoSendError)])
  }

  /** How many sends failed. */
  function Failures(oks: seq<bool>): (n: nat)
    ensures n <= |oks|
    ensures n == 0 <==> forall i :: 0 <= i < |oks| ==> oks[i]
  {
    if oks == [] then 0
    else
      var k := |oks| - 1;
      assert forall i :: 0 <= i < k ==> oks[..k][i] == oks[i];
      Failures(oks[..k]) + (if oks[k] then 0 else 1)
  }

  /** The messages handed to the sender, in order. */
  function Transmissions(es: seq<Event>): seq<ProtoLidarPoints> {
    if es == [] then []
    else
      var k := |es| - 1;
      Transmissions(es[..k]) + (if es[k].Transmitted? then [es[k].msg] else [])
  }

  /** The error codes reported, in order. */
  function Reports(es: seq<Event>): seq<ErrCode> {
    if es == [] then []
    else
      var k := |es| - 1;
      Reports(es[..k]) + (if es[k].Reported? then [es[k].code] else [])
  }

  /** The wire form of each message, in order. */
  function ToProtoAll(ms: seq<LidarPointsMsg>): (r: seq<ProtoLidarPoints>)
    ensures |r| == |ms|
    ensures forall i :: 0 <= i < |ms| ==> r[i] == ToProtoPoints(ms[i])
  {
    if ms == [] then [] else ToProtoAll(ms[..|ms| - 1]) + [ToProtoPoints(ms[|ms| - 1])]
  }

  /** The entries one message adds: its wire form is transmitted, and a failure is reported as a send error. */
  lemma MessageEventsMeaning(m: LidarPointsMsg, ok: bool)
    ensures Transmissions(MessageEvents(m, ok)) == [ToProtoPoints(m)]
    ensures Reports(MessageEvents(m, ok)) == Repeat(LidarPointsProtoSendError, if ok then 0 else 1)
  {
    var t := [Transmitted(ToProtoPoints(m), ok)];
    assert t[..0] == [];
    assert Transmissions(t) == [ToProtoPoints(m)] && Reports(t) == [];
    if !ok {
      var es := MessageEvents(m, ok);
      assert es == t + [Reported(LidarPointsProtoSendError)];
      assert es[..1] == t;
      assert Transmissions(es) == Transmissions(t);
      assert Reports(es) == Reports(t) + [LidarPointsProtoSendError];
    }
  }

  /**
   * A drain translates and transmits every queued message exactly once, in
   * FIFO order, without stopping at a failure.
   */
  lemma {:induction false} SendTransmitsAll(ms: seq<LidarPointsMsg>, oks: seq<bool>)
    requires |oks| == |ms|
    ensures Transmissions(SendEvents(ms, oks)) == ToProtoAll(ms)
  {
    if ms != [] {
      var k := |ms| - 1;
      SendTransmitsAll(ms[..k], oks[..k]);
      EventsAppend(SendEvents(ms[..k], oks[..k]), MessageEvents(ms[k], oks[k]));
      MessageEventsMeaning(ms[k], oks[k]);
    }
  }

  /** `n` copies of the error code `c`. */
  function Repeat(c: ErrCode, n: nat): (r: seq<ErrCode>)
    ensures |r| == n
    ensures forall i :: 0 <= i < n ==> r[i] == c
  {
    if n == 0 then [] else Repeat(c, n - 1) + [c]
  }

  /** A drain reports one send error per failed transmission, and nothing else. */
  lemma {:induction false} SendReportsFailures(ms: seq<LidarPointsMsg>, oks: seq<bool>)
    requires |oks| == |ms|
    ensures Reports(SendEvents(ms, oks)) == Repeat(LidarPointsProtoSendError, Failures(oks))
  {
    if ms != [] {
      var k := |ms| - 1;
      SendReportsFailures(ms[..k], oks[..k]);
      EventsAppend(SendEvents(ms[..k], oks[..k]), MessageEvents(ms[k], oks[k]));
      MessageEventsMeaning(ms[k], oks[k]);
    }
  }

  lemma SendEventsSnoc(ms: seq<LidarPointsMsg>, oks: seq<bool>, m: LidarPointsMsg, ok: bool)
    requires |oks| == |ms|
    ensures SendEvents(ms + [m], oks + [ok]) == SendEvents(ms, oks) + MessageEvents(m, ok)
  {
    assert (ms + [m])[..|ms|] == ms && (oks + [ok])[..|oks|] == oks;
  }

  /**
   * One iteration of the send drain: translate the message, transmit it and,
   * when the transmission fails, report a send error.
   */
  method TransmitOne(m: LidarPointsMsg, ok: bool) returns (step: seq<Event>)
    ensures step == MessageEvents(m, ok)
    ensures |step| == if ok then 1 else 2
    ensures step[0] == Transmitted(ToProtoPoints(m), ok)
    ensures !ok ==> step[1] == Reported(LidarPointsProtoSendError)
  {
    var proto := ToProtoPoints(m);
    step := [Transmitted(proto, ok)];
    if !ok {
      step := step + [Reported(LidarPointsProtoSendError)];
    }
  }

  /**
   * The loop of the send drain over the queued messages `q`, oldest first;
   * `oks[i]` is whether transmitting message i succeeds.
   */
  method TransmitAll(q: seq<LidarPointsMsg>, oks: seq<bool>) returns (sent: seq<Event>)
    requires |oks| == |q|
    ensures sent == SendEvents(q, oks)
  {
    sent := [];
    var i := 0;
    while i < |q|
      invariant 0 <= i <= |q|
      invariant sent == SendEvents(q[..i], oks[..i])
    {
      SendEventsStep(q, oks, i);
      var step := TransmitOne(q[i], oks[i]);
      sent := sent + step;
      i := i + 1;
    }
    assert q[..i] == q && oks[..i] == oks;
  }

  /** One more drained message extends the prefix's events by that message's events. */
  lemma SendEventsStep(q: seq<LidarPointsMsg>, oks: seq<bool>, i: nat)
    requires |oks| == |q| && i < |q|
    ensures SendEvents(q[..i + 1], oks[..i + 1]) == SendEvents(q[..i], oks[..i]) + MessageEvents(q[i], oks[i])
  {
    assert q[..i + 1] == q[..i] + [q[i]] && oks[..i + 1] == oks[..i] + [oks[i]];
    SendEventsSnoc(q[..i], oks[..i], q[i], oks[i]);
  }

  /** Transmissions and Reports distribute over concatenation. */
  lemma {:induction false} EventsAppend(a: seq<Event>, b: seq<Event>)
    ensures Transmissions(a + b) == Transmissions(a) + Transmissions(b)
    ensures Reports(a + b) == Reports(a) + Reports(b)
  {
    if b != [] {
      var k := |b| - 1;
      assert (a + b)[..|a| + k] == a + b[..k];
      EventsAppend(a, b[..k]);
    } else {
      assert a + b == a;
    }
  }

  // ------------------------------------------------------------ lifecycle

  /** The proto sub-node of the configuration; a missing key is None. */
  datatype ProtoConfig = ProtoConfig(
    pointsSendPort: Option<string>,
    pointsSendIp: Option<string>,
    pointsRecvPort: Option<bv16>)

  /** The adapter's configuration node, as the config reader presents it. */
  datatype AdapterConfig = AdapterConfig(
    msgSource: Option<int>,
    sendPointsProto: Option<bool>,
    proto: Option<ProtoConfig>)

  /**
   * What a lifecycle call ends with: it returns a code, the process exits
   * (`exit(-1)` in `init`), or the process is aborted (`std::terminate`, when
   * `start` replaces a receive thread that is still running).
   */
  datatype Outcome = Returned(code: ErrCode) | Exited | Aborted

  /** Which sockets `init` sets up, and whether it exits instead. */
  datatype InitPlan = InitPlan(exits: bool, receiver: bool, sender: bool)

  /** `msg_source`, 0 when the key is missing. */
  function MsgSource(cfg: AdapterConfig): (n: int)
    ensures cfg.msgSource.Some? ==> n == cfg.msgSource.value
    ensures cfg.msgSource.None? ==> n == 0
  {
    cfg.msgSource.GetOr(0)
  }

  /** A required key is missing: the proto node, or one of its three keys. */
  predicate MissingKey(cfg: AdapterConfig)
    ensures !MissingKey(cfg) <==>
      cfg.proto.Some? && cfg.proto.value.pointsSendPort.Some? &&
      cfg.proto.value.pointsSendIp.Some? && cfg.proto.value.pointsRecvPort.Some?
  {
    cfg.proto.None? || cfg.proto.value.pointsSendPort.None? ||
    cfg.proto.value.pointsSendIp.None? || cfg.proto.value.pointsRecvPort.None?
  }

  /**
   * The effective send flag: `send_points_proto` (false when missing),
   * forced off when the adapter receives (msg_source 5).
   */
  function SendsPoints(cfg: AdapterConfig): (b: bool)
    ensures MsgSource(cfg) == 5 ==> !b
    ensures b <==> cfg.sendPointsProto == Some(true) && MsgSource(cfg) != 5
  {
    var send := cfg.sendPointsProto.GetOr(false);
    if MsgSource(cfg) == 5 then false else send
  }

  /**
   * Source selection in `init`, given whether creating the receiver and the
   * sender socket would succeed: a missing required key or a failed socket
   * set-up ends the process; otherwise a receiver exists exactly for
   * msg_source 5 and a sender exactly when the effective send flag holds.
   */
  function PlanInit(cfg: AdapterConfig, receiverOk: bool, senderOk: bool): (p: InitPlan)
    ensures p.exits <==>
      MissingKey(cfg) || (MsgSource(cfg) == 5 && !receiverOk) || (SendsPoints(cfg) && !senderOk)
    ensures !p.exits ==> (p.receiver <==> MsgSource(cfg) == 5)
    ensures !p.exits ==> (p.sender <==> cfg.sendPointsProto == Some(true) && MsgSource(cfg) != 5)
    ensures p.receiver ==> !p.sender
  {
    if MissingKey(cfg) then InitPlan(true, false, false)
    else
      var receive := MsgSource(cfg) == 5;
      if receive && !receiverOk then InitPlan(true, false, false)
      else
        var send := SendsPoints(cfg);
        if send && !senderOk then InitPlan(true, receive, false)
        else InitPlan(false, receive, send)
  }

  class Adapter {
    var initFlag: bool
    var receiverReady: bool
    var senderReady: bool
    /** The receive thread's running flag. */
    var running: bool
    /** The reassembly buffer, allocated by `Start`. */
    var buff: array?<bv8>
    var oldFrmNum: int
    var newFrmNum: int
    var sendQueue: seq<LidarPointsMsg>
    /** The send queue's "no drain active" flag. */
    var sendIdle: bool
    /** How many send drains were handed to the pool. */
    var sendDrains: nat
    /**
     * The receive thread's sync flag: armed when the thread starts, and off
     * from the first datagram with msgID 0 until the thread is started again.
     */
    var recvSyncing: bool
    var recvQueue: seq<Chunk>
    var recvIdle: bool
    var recvDrains: nat
    var events: seq<Event>

    /**
     * A running adapter owns a buffer of the full size, and a queue whose
     * flag says idle is empty (otherwise a drain is scheduled).
     */
    ghost predicate Valid()
      reads this
    {
      && (running ==> buff != null && buff.Length == RECEIVE_BUF_SIZE)
      && (buff != null ==> buff.Length == RECEIVE_BUF_SIZE)
      && (sendIdle ==> sendQueue == [])
      && (recvIdle ==> recvQueue == [])
    }

    constructor ()
      ensures Valid()
      ensures !initFlag && !receiverReady && !senderReady && !running && buff == null
      ensures oldFrmNum == 0 && newFrmNum == 0
      ensures sendQueue == [] && sendIdle && sendDrains == 0
      ensures recvQueue == [] && recvIdle && recvDrains == 0 && recvSyncing
      ensures events == []
    {
      initFlag, receiverReady, senderReady, running := false, false, false, false;
      buff := null;
      oldFrmNum, newFrmNum := 0, 0;
      sendQueue, sendIdle, sendDrains := [], true, 0;
      recvQueue, recvIdle, recvDrains := [], true, 0;
      recvSyncing := true;
      events := [];
    }

    method Init(cfg: AdapterConfig, receiverOk: bool, senderOk: bool) returns (outcome: Outcome)
      requires Valid()
      modifies this`initFlag, this`receiverReady, this`senderReady
      ensures Valid() && initFlag
      ensures var p := PlanInit(cfg, receiverOk, senderOk);
        && outcome == (if p.exits then Exited else Returned(Success))
        && (!p.exits ==> receiverReady == p.receiver && senderReady == p.sender)
    {
      initFlag := true;
      if MissingKey(cfg) {
        return Exited;
      }
      var msgSource := MsgSource(cfg);
      var sendPointsProto := cfg.sendPointsProto.GetOr(false);
      receiverReady, senderReady := false, false;
      if msgSource == 5 {
        if !receiverOk {
          return Exited;
        }
        receiverReady := true;
        sendPointsProto := false;
      }
      if sendPointsProto {
        if !senderOk {
          return Exited;
        }
        senderReady := true;
      }
      return Returned(Success);
    }

    /**
     * Allocates a fresh buffer and starts the receive thread, whose sync flag
     * starts armed. Nothing checks
     * whether a receive thread is already running: a second start before a
     * stop replaces the buffer (the first one leaks) and destroys the old
     * thread object while it is still joinable, which aborts the process.
     */
    method Start() returns (outcome: Outcome)
      requires Valid()
      modifies this`buff, this`running, this`recvSyncing
      ensures Valid() && running && recvSyncing
      ensures buff != null && fresh(buff)
      ensures outcome == if old(running) then Aborted else Returned(Success)
    {
      var wasRunning := running;
      buff := new bv8[RECEIVE_BUF_SIZE];
      running := true;
      recvSyncing := true;
      if wasRunning {
        return Aborted;
      }
      return Returned(Success);
    }

    /**
     * Stopping clears the running flag and releases the buffer; stopping a
     * stopped adapter changes nothing, so a second stop is a no-op.
     */
    method Stop() returns (code: ErrCode)
      requires Valid()
      modifies this`running, this`buff
      ensures Valid() && !running && code == Success
      ensures old(running) ==> buff == null
      ensures !old(running) ==> unchanged(this)
    {
      if running {
        running := false;
        buff := null;
      }
      code := Success;
    }

    /** Queue a message; schedule a drain only if none is active. */
    method Send(msg: LidarPointsMsg)
      requires Valid()
      modifies this`sendQueue, this`sendIdle, this`sendDrains
      ensures Valid()
      ensures sendQueue == old(sendQueue) + [msg]
      ensures !sendIdle
      ensures sendDrains == old(sendDrains) + (if old(sendIdle) then 1 else 0)
    {
      sendQueue := sendQueue + [msg];
      if sendIdle {
        sendIdle := false;
        sendDrains := sendDrains + 1;
      }
    }

    /**
     * The send drain: every queued message, oldest first, is translated and
     * transmitted; a failed transmission is reported as a send error. The
     * drain runs to completion without interleaving, and `oks[i]` is whether
     * transmitting the i-th queued message succeeds.
     */
    method SendPoints(oks: seq<bool>)
      requires Valid() && |oks| == |sendQueue|
      modifies this`sendQueue, this`sendIdle, this`events
      ensures Valid()
      ensures sendQueue == [] && sendIdle
      ensures events == old(events) + SendEvents(old(sendQueue), oks)
    {
      var sent := TransmitAll(sendQueue, oks);
      events := events + sent;
      sendQueue := [];
      sendIdle := true;
    }

    /**
     * A stretch of the receive loop: the datagrams `ds` read, in order, while
     * the running flag is set. The thread's sync flag carries over from the
     * previous stretch of the same run. The filtered chunks join the receive
     * queue and the failed reads are reported; a splice drain is scheduled
     * only when the queue was idle.
     */
    method RecvPoints(ds: seq<Datagram>)
      requires Valid()
      modifies this`recvQueue, this`recvIdle, this`recvDrains, this`events, this`recvSyncing
      ensures Valid()
      ensures !running ==> unchanged(this)
      ensures running ==> recvQueue == old(recvQueue) + Accepted(ds, old(recvSyncing))
      ensures running ==> events == old(events) + RecvReports(ds, old(recvSyncing))
      ensures running ==> recvSyncing == StillSyncing(ds, old(recvSyncing))
      ensures running ==> recvIdle == (old(recvIdle) && Accepted(ds, old(recvSyncing)) == [])
      ensures recvDrains == old(recvDrains) +
        (if running && old(recvIdle) && Accepted(ds, old(recvSyncing)) != [] then 1 else 0)
    {
      if !running {
        return;
      }
      var queued, reports, syncing := FilterDatagrams(ds, recvSyncing);
      recvSyncing := syncing;
      events := events + reports;
      recvQueue := recvQueue + queued;
      if recvIdle && queued != [] {
        recvIdle := false;
        recvDrains := recvDrains + 1;
      }
    }

    /**
     * The splice drain: while the running flag is set, each queued chunk
     * shifts the frame registers, is copied into the buffer at
     * msgID * SPLIT_SIZE, and delivers the first totalMsgLen bytes when it is
     * the last chunk of the frame the previous chunk belonged to. Every chunk
     * is popped, spliced or not.
     */
    method SplicePoints()
      requires Valid()
      requires running ==>
        AllInBounds(recvQueue) && ReadsInBounds(RxState(buff[..], oldFrmNum, newFrmNum), recvQueue)
      modifies this`recvQueue, this`recvIdle, this`oldFrmNum, this`newFrmNum, this`events, buff
      ensures Valid()
      ensures recvQueue == [] && recvIdle
      ensures running ==>
        var r := SpliceAll(RxState(old(buff[..]), old(oldFrmNum), old(newFrmNum)), old(recvQueue));
        && buff[..] == r.0.buf && oldFrmNum == r.0.oldFrm && newFrmNum == r.0.newFrm
        && events == old(events) + r.1
      ensures !running ==> oldFrmNum == old(oldFrmNum) && newFrmNum == old(newFrmNum) && events == old(events)
      ensures !running && buff != null ==> buff[..] == old(buff[..])
    {
      ghost var q := recvQueue;
      ghost var s0 := if running then RxState(buff[..], oldFrmNum, newFrmNum) else RxState([], 0, 0);
      ghost var e0 := events;
      ghost var i := 0;
      assert q[..0] == [];
      assert running ==> |s0.buf| == RECEIVE_BUF_SIZE && AllInBounds(q) && ReadsInBounds(s0, q);
      while |recvQueue| > 0
        invariant Valid()
        invariant 0 <= i <= |q| && recvQueue == q[i..]
        invariant running ==> AllInBounds(q[..i]) && ReadsInBounds(s0, q[..i])
        invariant running ==>
          var r := SpliceAll(s0, q[..i]);
          && buff[..] == r.0.buf && oldFrmNum == r.0.oldFrm && newFrmNum == r.0.newFrm
          && events == e0 + r.1
        invariant !running ==> oldFrmNum == old(oldFrmNum) && newFrmNum == old(newFrmNum) && events == e0
        invariant !running && buff != null ==> buff[..] == old(buff[..])
        decreases |recvQueue|
      {
        if running {
          SpliceAt(s0, q, i, e0);
        }
        recvQueue := recvQueue[1..];
        i := i + 1;
      }
      assert q[..i] == q;
      recvIdle := true;
    }

    /**
     * One turn of the splice drain while running: the front chunk `q[i]` is
     * spliced after `q[..i]`, which extends SpliceAll from `s0` by one chunk.
     */
    method SpliceAt(ghost s0: RxState, ghost q: seq<Chunk>, ghost i: nat, ghost e0: seq<Event>)
      requires Valid() && running && i < |q| && recvQueue == q[i..]
      requires |s0.buf| == RECEIVE_BUF_SIZE && AllInBounds(q) && ReadsInBounds(s0, q)
      requires AllInBounds(q[..i]) && ReadsInBounds(s0, q[..i])
      requires var r := SpliceAll(s0, q[..i]);
        && buff[..] == r.0.buf && oldFrmNum == r.0.oldFrm && newFrmNum == r.0.newFrm
        && events == e0 + r.1
      modifies this`oldFrmNum, this`newFrmNum, this`events, buff
      ensures Valid()
      ensures AllInBounds(q[..i + 1]) && ReadsInBounds(s0, q[..i + 1])
      ensures var r := SpliceAll(s0, q[..i + 1]);
        && buff[..] == r.0.buf && oldFrmNum == r.0.oldFrm && newFrmNum == r.0.newFrm
        && events == e0 + r.1
    {
      SpliceAllStep(s0, q, i);
      SpliceOne(recvQueue[0]);
    }

    /** One spliced chunk: registers shifted, payload copied in, delivery if the frame is complete. */
    method SpliceOne(c: Chunk)
      requires Valid() && running && InBounds(c.header)
      requires Completes(newFrmNum, c.header) ==> 0 <= c.header.totalMsgLen <= RECEIVE_BUF_SIZE
      modifies this`oldFrmNum, this`newFrmNum, this`events, buff
      ensures Valid()
      ensures var s := RxState(old(buff[..]), old(oldFrmNum), old(newFrmNum));
        && buff[..] == SpliceStep(s, c).buf
        && oldFrmNum == old(newFrmNum) && newFrmNum == c.header.frmNumber
        && events == old(events) + StepDelivery(s, c)
    {
      ghost var prev := RxState(buff[..], oldFrmNum, newFrmNum);
      oldFrmNum := newFrmNum;
      newFrmNum := c.header.frmNumber;
      var off := c.header.msgID * SPLIT_SIZE;
      forall k | 0 <= k < SPLIT_SIZE {
        buff[off + k] := c.data[k];
      }
      assert buff[..] == Overwrite(prev.buf, off, c.data) by {
        OverwriteAt(prev.buf, off, c.data);
        forall j | 0 <= j < buff.Length
          ensures buff[j] == Overwrite(prev.buf, off, c.data)[j]
        {
          if off <= j < off + SPLIT_SIZE {
            assert buff[off + (j - off)] == c.data[j - off];
          }
        }
      }
      if oldFrmNum == newFrmNum && c.header.msgID == c.header.totalMsgCnt - 1 {
        events := events + [Delivered(buff[..c.header.totalMsgLen])];
      }
    }
  }
}
