/** Internal loopback end to end: what a driver posts in the transmit ring it finds in the receive ring. */
module LanceLoopback {
  import opened Crc32
  import opened LanceMemory
  import opened LanceRings
  import opened LanceChains
  import opened LanceSends
  import opened LanceChip
  import opened LanceDelivery

  // ---------- the receive ring seen after the transmit ring changed ----------

  ghost predicate SameRing(x: seq<bv16>, m: seq<bv16>, r: Ring)
    requires |x| == WORDS == |m|
  {
    forall w :: 0 <= w < WORDS && InRing(r, w) ==> x[w] == m[w]
  }

  lemma SameDesc(x: seq<bv16>, m: seq<bv16>, c: Chain, i: nat)
    requires |x| == WORDS == |m| && ChainOk(c) && SameRing(x, m, c.r) && i <= c.r.size
    ensures Fetch(x, At(c, i)) == Fetch(m, At(c, i)) && Fetch(x, At(c, i) + 2) == Fetch(m, At(c, i) + 2)
    ensures Fetch(x, At(c, i) + 4) == Fetch(m, At(c, i) + 4)
    ensures OwnedAt(x, c.r, Slot(c, i)) == OwnedAt(m, c.r, Slot(c, i))
    ensures i < c.r.size ==> SegAddr(x, c, i) == SegAddr(m, c, i) && SegLen(x, c, i) == SegLen(m, c, i)
  {
    hide Desc, InRing, Has, BufAddr, RxLen, Fetch;
    RingHasDesc(c.r, Slot(c, i), 0);
    RingHasDesc(c.r, Slot(c, i), 1);
    RingHasDesc(c.r, Slot(c, i), 2);
    var d := At(c, i);
    FetchIs(x, d);
    FetchIs(m, d);
    FetchIs(x, d + 2);
    FetchIs(m, d + 2);
    FetchIs(x, d + 4);
    FetchIs(m, d + 4);
  }

  lemma SameLaid(x: seq<bv16>, m: seq<bv16>, c: Chain)
    requires Laid(m, c) && |x| == WORDS && SameRing(x, m, c.r)
    ensures Laid(x, c)
  {
    hide InRing, SegAddr, SegLen, Shares, OwnedAt;
    forall i | 0 <= i < c.count
      ensures OwnedAt(x, c.r, Slot(c, i)) && SegAddr(x, c, i) == SegAddr(m, c, i) && SegLen(x, c, i) == SegLen(m, c, i)
    {
      SameDesc(x, m, c, i);
      assert OwnedAt(m, c.r, Slot(c, i));
    }
    forall i, w: nat | 0 <= i < c.count && InSeg(x, c, i, w)
      ensures !InRing(c.r, w)
    {
      assert InSeg(m, c, i, w);
    }
    forall i, j, w: nat | 0 <= i < j < c.count && InSeg(x, c, i, w)
      ensures !InSeg(x, c, j, w)
    {
      assert InSeg(m, c, i, w);
      assert !InSeg(m, c, j, w);
    }
  }

  lemma {:induction false} SameTotals(x: seq<bv16>, m: seq<bv16>, y: seq<bv16>, c: Chain, i: nat, n: nat)
    requires |x| == WORDS == |m| && |y| == WORDS && ChainOk(c) && SameRing(x, m, c.r) && i <= c.count
    ensures Total(x, c, i) == Total(m, c, i) && Used(x, c, i, n) == Used(m, c, i, n) && Read(y, x, c, i, n) == Read(y, m, c, i, n)
    decreases c.count - i
  {
    hide SegAddr, SegLen, SameRing, Block;
    if i < c.count {
      SameDesc(x, m, c, i);
      SameTotals(x, m, y, c, i + 1, if n > SegLen(m, c, i) then n - SegLen(m, c, i) else n);
    }
  }

  lemma SameOrder(x: seq<bv16>, m: seq<bv16>, y: seq<bv16>, c: Chain, n: nat, u: nat, buf: seq<bv8>, whole: bool, bad: bool)
    requires |x| == WORDS == |m| && |y| == WORDS && ChainOk(c) && SameRing(x, m, c.r) && n <= |buf|
    requires InRingOrder(y, x, c, n, u, buf, whole, bad)
    ensures InRingOrder(y, m, c, n, u, buf, whole, bad)
  {
    hide SegAddr, SameRing, Fetch, Has, Read, CountWord, Desc, With, Without;
    SameTotals(x, m, y, c, 0, n);
    forall j | 0 <= j < u
      ensures StatusAfter(x, c, u, j, whole, bad) == StatusAfter(m, c, u, j, whole, bad)
      ensures Fetch(y, At(c, j)) == Fetch(m, At(c, j)) && SegAddr(y, c, j) == SegAddr(m, c, j)
    {
      SameDesc(x, m, c, j);
    }
  }

  // ---------- sending ----------

  /** The chain at the controller's transmit position. */
  ghost predicate TxChain(d: Chip, c: Chain) {
    c.r == d.tx && c.start == d.txPos && c.cLance == d.cLance && c.swap == Swap(d)
  }

  /** A frame posted for internal loopback: whole, of 8 to 32 bytes, from a started transmitter. */
  ghost predicate LoopPosted(d: Chip, c: Chain) {
    && ChipOk(d) && Internal(d) && !Has(d.mode, M_COLL) && Has(d.csr0, C_TXON)
    && TxChain(d, c) && Posted(d.mem, c) && Has(Fetch(d.mem, At(c, 0) + 2), STP)
    && 8 <= |Contents(d.mem, c, 0)| <= 32
  }

  /** The frame as it loops back. */
  function LoopFrame(d: Chip, c: Chain): (f: seq<bv8>)
    requires |d.mem| == WORDS && c.start < c.r.size && c.count <= c.r.size
  {
    Framed(d, FirstStatus(d, Fetch(d.mem, At(c, 0) + 2)), Contents(d.mem, c, 0))
  }

  lemma FirstStatusOk(d: Chip, c: Chain)
    requires |d.mem| == WORDS && c.start < c.r.size
    ensures FirstOk(d.mem, c, FirstStatus(d, Fetch(d.mem, At(c, 0) + 2)))
  {
    hide BufAddr, Fetch, Desc;
    var w := Fetch(d.mem, At(c, 0) + 2);
    NotAddress(w);
  }

  lemma NotAddress(w: bv16)
    ensures forall md0 :: BufAddr(md0, Without(w, ADD_FCS)) == BufAddr(md0, w)
    ensures Has(Without(w, ADD_FCS), ENP) == Has(w, ENP)
  {
    assert (w & !0x2000) & 0xFF == w & 0xFF;
    assert (w & !0x2000) & 0x0100 == w & 0x0100;
  }

  lemma BehindRefl(m: seq<bv16>, c: Chain, first: bv16)
    requires |m| == WORDS && ChainOk(c)
    ensures Behind(m, m, c, first, 0)
  {
  }

  lemma LoopParts(d: Chip, c: Chain)
    requires LoopPosted(d, c)
    ensures ChipOk(d) && ChainOk(c) && Posted(d.mem, c) && Desc(d.tx, d.txPos) == At(c, 0) && Slot(c, 0) == d.txPos
    ensures Has(Fetch(d.mem, At(c, 0) + 2), OWN) && OwnedAt(d.mem, d.tx, d.txPos)
    ensures 8 <= |Contents(d.mem, c, 0)| <= 32
  {
    hide Contents, Has, Fetch, Desc;
    PostedAt(d.mem, c, 0);
  }

  lemma LoopPolls(d: Chip, c: Chain)
    requires LoopPosted(d, c)
    ensures OwnedAt(d.mem, d.tx, d.txPos)
    ensures PollRing(d) == Transmit(SetCsr(d, Without(d.csr0, C_TDMD)), Fetch(d.mem, At(c, 0) + 2))
  {
    hide With, Without, Fetch, Desc, Posted, Contents, Store, Advance, Transmit, Moved, Internal;
    LoopParts(d, c);
  }

  /** The end of a transmission into the loop. */
  function Looped(d: Chip, c: Chain, m: seq<bv16>, status: bv16, frame: seq<bv8>, csr0: bv16): Chip
    requires |m| == WORDS && ChainOk(c)
  {
    d.(lb := frame, txPos := Slot(c, c.count), mem := Store(m, At(c, c.count - 1) + 2, status), csr0 := With(csr0, C_TINT | C_INTR),
       intLow := Has(With(csr0, C_TINT | C_INTR), C_INEA) && Has(With(csr0, C_TINT | C_INTR), C_INTR), poll := 1)
  }

  lemma LoopDispatch(d: Chip, c: Chain, m: seq<bv16>, status: bv16, data: seq<bv8>, frame: seq<bv8>, csr0: bv16)
    requires ChipOk(d) && ChainOk(c) && c.r == d.tx && Internal(d) && !Has(d.mode, M_COLL)
    requires |m| == WORDS && 8 <= |data| <= 32 && |data| <= |frame| <= |data| + 4
    ensures Dispatch(SetCsr(Moved(d, m, Slot(c, c.count - 1)), csr0), status, 0, data, frame) == Looped(d, c, m, status, frame, csr0)
  {
    hide Has, With, Fetch, Desc, Store, Advance;
    SlotNext(c, c.count - 1);
  }

  /** A transmission whose bytes go into the loop. */
  lemma LoopTransmits(d: Chip, c: Chain, md1: bv16, m: seq<bv16>, status: bv16, data: seq<bv8>)
    requires ChipOk(d) && ChainOk(c) && c.r == d.tx && Internal(d) && !Has(d.mode, M_COLL) && OwnedAt(d.mem, d.tx, d.txPos)
    requires |m| == WORDS && 8 <= |data| <= 32
    requires Gather(d.mem, d.tx, d.txPos, FirstStatus(d, md1), [], d.cLance, Swap(d)) == Frame(m, Slot(c, c.count - 1), status, 0, data, false)
    ensures Transmit(d, md1) == Looped(d, c, m, status, Framed(d, FirstStatus(d, md1), data), Flagged(d.csr0, data, false))
  {
    hide Has, With, Without, Fetch, Desc, Store, Advance, Gather, Framed, Flagged, FirstStatus, Dispatch, Moved, SetCsr, Looped, Internal, Swap;
    LoopDispatch(d, c, m, status, data, Framed(d, FirstStatus(d, md1), data), Flagged(d.csr0, data, false));
  }

  lemma LoopRuns(d: Chip, c: Chain) returns (m: seq<bv16>, csr0: bv16)
    requires LoopPosted(d, c)
    ensures ChainOk(c) && |m| == WORDS
    ensures var first := FirstStatus(d, Fetch(d.mem, At(c, 0) + 2));
            && Behind(m, d.mem, c, first, c.count - 1)
            && PollRing(d) == Looped(SetCsr(d, Without(d.csr0, C_TDMD)), c, m, GivenBack(d.mem, c, 0, first, c.count - 1), LoopFrame(d, c), csr0)
  {
    hide Has, With, Without, BufAddr, Fetch, Desc, Posted, Behind, Gather, Contents, Store, Advance, OwnedAt, Framed, Flagged, FirstStatus,
         FirstOk, Transmit, PollRing, Looped, Internal, Swap;
    LoopParts(d, c);
    var md1 := Fetch(d.mem, At(c, 0) + 2);
    var first := FirstStatus(d, md1);
    var data := Contents(d.mem, c, 0);
    FirstStatusOk(d, c);
    BehindRefl(d.mem, c, first);
    GatherCollects(d.mem, d.mem, c, first, 0, []);
    assert [] + data == data;
    m := Gather(d.mem, d.tx, d.txPos, first, [], d.cLance, Swap(d)).m;
    var e := SetCsr(d, Without(d.csr0, C_TDMD));
    csr0 := Flagged(e.csr0, data, false);
    SameFirst(d, Without(d.csr0, C_TDMD), md1, data);
    SameModes(d, Without(d.csr0, C_TDMD));
    LoopTransmits(e, c, md1, m, GivenBack(d.mem, c, 0, first, c.count - 1), data);
    LoopPolls(d, c);
  }

  lemma SameModes(d: Chip, csr0: bv16)
    ensures Internal(SetCsr(d, csr0)) == Internal(d) && Swap(SetCsr(d, csr0)) == Swap(d)
  {
    hide Has;
  }

  /** What polling the transmit ring does to a frame posted for loopback. */
  lemma LoopSends(d: Chip, c: Chain)
    requires LoopPosted(d, c)
    ensures ChainOk(c)
    ensures var d1 := PollRing(d);
            && d1.lb == LoopFrame(d, c) && d1.txPos == Slot(c, c.count)
            && Behind(d1.mem, d.mem, c, FirstStatus(d, Fetch(d.mem, At(c, 0) + 2)), c.count)
            && d1 == d.(lb := d1.lb, txPos := d1.txPos, mem := d1.mem, csr0 := d1.csr0, intLow := d1.intLow, poll := 1)
  {
    hide Has, With, Without, Fetch, Desc, Behind, Store, FirstStatus, PollRing, LoopFrame, GivenBack, LoopPosted;
    LoopMemory(d, c);
    var m, csr0 := LoopRuns(d, c);
    var first := FirstStatus(d, Fetch(d.mem, At(c, 0) + 2));
    GiveBack(m, d.mem, c, first, c.count - 1);
  }

  lemma LoopMemory(d: Chip, c: Chain)
    requires LoopPosted(d, c)
    ensures |d.mem| == WORDS
  {
  }

  lemma SameFirst(d: Chip, csr0: bv16, md1: bv16, data: seq<bv8>)
    ensures var e := SetCsr(d, csr0);
            FirstStatus(e, md1) == FirstStatus(d, md1) && Framed(e, FirstStatus(d, md1), data) == Framed(d, FirstStatus(d, md1), data)
  {
    hide Without, Has, Crc, Wire;
  }

  // ---------- and receiving it ----------

  /** The two rings lie in different words. */
  ghost predicate RingsApart(d: Chip) {
    forall w :: 0 <= w < WORDS && InRing(d.tx, w) ==> !InRing(d.rx, w)
  }

  lemma RxRingSame(d: Chip, x: seq<bv16>, c: Chain, first: bv16)
    requires |d.mem| == WORDS == |x| && ChainOk(c) && c.r == d.tx && RingsApart(d) && Behind(x, d.mem, c, first, c.count)
    ensures SameRing(x, d.mem, d.rx)
  {
    hide Fetch, InRing, At;
  }

  /** The pending frame plays no part in receiving. */
  lemma LoopBufferFree(d: Chip, buf: seq<bv8>)
    requires ChipOk(d) && |buf| >= 6
    ensures ChipOk(d.(lb := [], hairpin := false))
    ensures Receive(d.(lb := [], hairpin := false), buf) == Receive(d, buf)
  {
    hide Has, With, Fetch, Desc, Scatter, Crc, FilterBit, HashBit, Multicast;
  }

  /** What the receiver decides by stays as it was. */
  lemma SameEar(d: Chip, e: Chip, buf: seq<bv8>)
    requires |buf| >= 6 && (e.mode, e.padr, e.filter, e.csr3) == (d.mode, d.padr, d.filter, d.csr3)
    ensures Accepts(e, buf) == Accepts(d, buf) && Internal(e) == Internal(d) && Checked(e) == Checked(d) && Swap(e) == Swap(d)
  {
    hide Has, Crc, FilterBit, HashBit, Multicast;
  }

  lemma PollReceives(d: Chip, c: Chain)
    requires LoopPosted(d, c)
    ensures var d1 := PollRing(d);
            && ChipOk(d1) && |d1.lb| >= 6
            && Poll(d) == Complete(d1.(lb := [], hairpin := false), Receive(d1, d1.lb))
  {
    hide Has, PollRing, Receive, Complete, LoopPosted, LoopFrame, Behind, Without, FirstStatus, Fetch;
    LoopMemory(d, c);
    LoopSends(d, c);
    LoopLength(d, c);
  }

  lemma LoopLength(d: Chip, c: Chain)
    requires LoopPosted(d, c)
    ensures ChipOk(d) && ChainOk(c) && 8 <= |LoopFrame(d, c)| <= 36 && Has(d.mode, M_LOOP)
  {
    hide Has, Contents, Fetch, Posted, FirstStatus;
    LoopParts(d, c);
  }

  /** No receive buffer shares a word with the transmit ring. */
  ghost predicate BuffersApart(d: Chip, c: Chain)
    requires |d.mem| == WORDS && ChainOk(c)
  {
    forall i, w: nat :: 0 <= i < c.count && InSeg(d.mem, c, i, w) ==> !InRing(d.tx, w)
  }

  /** Every descriptor of the chain is given back; its address and length words are as they were. */
  ghost predicate Returned(x: seq<bv16>, m: seq<bv16>, c: Chain, first: bv16)
    requires |x| == WORDS == |m| && ChainOk(c)
  {
    forall j :: 0 <= j < c.count ==>
      && Fetch(x, At(c, j) + 2) == GivenBack(m, c, 0, first, j)
      && Fetch(x, At(c, j)) == Fetch(m, At(c, j)) && Fetch(x, At(c, j) + 4) == Fetch(m, At(c, j) + 4)
  }

  lemma {:induction false} NotTouched(m: seq<bv16>, c: Chain, i: nat, w: nat)
    requires |m| == WORDS && ChainOk(c) && i <= c.count && !InRing(c.r, w)
    requires forall k :: i <= k < c.count ==> !InSeg(m, c, k, w)
    ensures !Touched(m, c, i, w)
    decreases c.count - i
  {
    hide InRing, InSeg, Desc;
    if i < c.count {
      RingHasDesc(c.r, Slot(c, i), 1);
      NotTouched(m, c, i + 1, w);
    }
  }

  /** Receiving leaves the transmit ring alone. */
  lemma TxRingSame(d: Chip, x: seq<bv16>, y: seq<bv16>, c: Chain)
    requires |d.mem| == WORDS == |x| && |y| == WORDS && ChainOk(c) && c.r == d.rx && RingsApart(d) && BuffersApart(d, c)
    requires SameRing(x, d.mem, d.rx) && ElseKept(y, x, c)
    ensures SameRing(y, x, d.tx)
  {
    hide InRing, Touched, SegAddr, SegLen, Shares;
    forall w | 0 <= w < WORDS && InRing(d.tx, w)
      ensures y[w] == x[w]
    {
      forall k | 0 <= k < c.count
        ensures !InSeg(x, c, k, w)
      {
        SameDesc(x, d.mem, c, k);
        assert !InSeg(d.mem, c, k, w);
      }
      NotTouched(x, c, 0, w);
    }
  }

  lemma ReturnedStays(y: seq<bv16>, x: seq<bv16>, m: seq<bv16>, c: Chain, first: bv16)
    requires |y| == WORDS == |x| && |m| == WORDS && ChainOk(c) && SameRing(y, x, c.r) && Behind(x, m, c, first, c.count)
    ensures Returned(y, m, c, first)
  {
    hide SameRing, Fetch, GivenBack, InRing;
    forall j | 0 <= j < c.count
      ensures Fetch(y, At(c, j) + 2) == Fetch(x, At(c, j) + 2)
      ensures Fetch(y, At(c, j)) == Fetch(x, At(c, j)) && Fetch(y, At(c, j) + 4) == Fetch(x, At(c, j) + 4)
    {
      SameDesc(y, x, c, j);
    }
  }

  /**
   Internal loopback is faithful end to end. A frame of 8 to 32 bytes posted in any chain of transmit descriptors,
   with buffers at odd or even addresses and in either byte order, is found after one poll in the receive buffers,
   in ring order, with the check sequence behind it if one was asked for; both ring positions have moved on by the
   descriptors used; and unless a receive buffer lies over the transmit ring, the transmit chain is given back.
   */
  lemma LoopbackIsFaithful(d: Chip, ct: Chain, cr: Chain)
    requires LoopPosted(d, ct) && RingsApart(d) && RxChain(d, cr) && Laid(d.mem, cr)
    requires |LoopFrame(d, ct)| >= 6 && Accepts(d, LoopFrame(d, ct)) && |LoopFrame(d, ct)| <= Total(d.mem, cr, 0)
    ensures ChainOk(ct) && ChainOk(cr)
    ensures var frame := LoopFrame(d, ct);
            var u := Used(d.mem, cr, 0, |frame|);
            var d' := Poll(d);
            && InRingOrder(d'.mem, d.mem, cr, |frame|, u, frame, true, Checked(d) && Crc(frame) != RESIDUE)
            && d'.txPos == Slot(ct, ct.count) && d'.rxPos == Slot(cr, u) && d'.lb == []
            && Has(d'.csr0, C_RINT)
    ensures BuffersApart(d, cr) ==> Returned(Poll(d).mem, d.mem, ct, FirstStatus(d, Fetch(d.mem, At(ct, 0) + 2)))
  {
    hide Has, PollRing, Receive, Complete, LoopPosted, LoopFrame, Behind, FirstStatus, Fetch, Accepts, Internal, Checked, Crc, Swap,
         Laid, InRingOrder, RingsApart, SameRing, Total, Used, Poll, With, ElseKept, Returned, BuffersApart;
    LoopLength(d, ct);
    LoopInternal(d, ct);
    ChainOf(d.mem, cr);
    LoopSends(d, ct);
    PollReceives(d, ct);
    var frame := LoopFrame(d, ct);
    var d1 := PollRing(d);
    var d2 := d1.(lb := [], hairpin := false);
    LoopBufferFree(d1, frame);
    SameEar(d, d2, frame);
    RxRingSame(d, d1.mem, ct, FirstStatus(d, Fetch(d.mem, At(ct, 0) + 2)));
    SameLaid(d1.mem, d.mem, cr);
    SameTotals(d1.mem, d.mem, d.mem, cr, 0, |frame|);
    EndsInside(d1.mem, cr, |frame|);
    RxDelivered(d2, frame, cr);
    SameOrder(d1.mem, d.mem, Poll(d).mem, cr, |frame|, Used(d.mem, cr, 0, |frame|), frame, true, Checked(d) && Crc(frame) != RESIDUE);
    RintSet(d2.csr0);
    if BuffersApart(d, cr) {
      TxRingSame(d, d1.mem, Poll(d).mem, cr);
      ReturnedStays(Poll(d).mem, d1.mem, d.mem, ct, FirstStatus(d, Fetch(d.mem, At(ct, 0) + 2)));
    }
  }

  lemma LoopInternal(d: Chip, c: Chain)
    requires LoopPosted(d, c)
    ensures Internal(d) && ChainOk(c) && c.r == d.tx
  {
  }

  lemma EndsInside(m: seq<bv16>, c: Chain, n: nat)
    requires |m| == WORDS && ChainOk(c) && n <= Total(m, c, 0)
    ensures Ends(m, c, 0, n)
  {
  }

  lemma RintSet(c: bv16)
    ensures Has(With(c, C_RINT | C_INTR), C_RINT)
  {
  }

  lemma LoopedResidue(d: Chip, c: Chain)
    requires LoopPosted(d, c) && ChainOk(c) && AppendsFcs(d, FirstStatus(d, Fetch(d.mem, At(c, 0) + 2)))
    ensures Crc(LoopFrame(d, c)) == RESIDUE
  {
    hide Crc, Contents, Fetch, Wire, LoopPosted, FirstStatus, AppendsFcs;
    LoopMemory(d, c);
    FrameResidue(Contents(d.mem, c, 0));
  }

  /**
   With a check sequence appended, the looped frame is marked with no error: the last descriptor it went into has,
   after the poll, the error bits it had when it was handed over.
   */
  lemma LoopedFrameIsGood(d: Chip, ct: Chain, cr: Chain)
    requires LoopPosted(d, ct) && RingsApart(d) && RxChain(d, cr) && Laid(d.mem, cr)
    requires |LoopFrame(d, ct)| >= 6 && Accepts(d, LoopFrame(d, ct)) && |LoopFrame(d, ct)| <= Total(d.mem, cr, 0)
    requires ChainOk(ct) && AppendsFcs(d, FirstStatus(d, Fetch(d.mem, At(ct, 0) + 2)))
    ensures ChainOk(cr) && Crc(LoopFrame(d, ct)) == RESIDUE && |Poll(d).mem| == WORDS
    ensures var u := Used(d.mem, cr, 0, |LoopFrame(d, ct)|);
            1 <= u <= cr.count && Fetch(Poll(d).mem, At(cr, u - 1) + 2) & RX_ERRORS == Fetch(d.mem, At(cr, u - 1) + 2) & RX_ERRORS
  {
    hide Crc, Fetch, Posted, Contents, Internal, FirstStatus, AppendsFcs, LoopFrame, RingsApart, Laid, Accepts, Total, Used, Poll, InRingOrder, Checked,
         Returned, BuffersApart, RxChain, Has;
    LoopedResidue(d, ct);
    LoopbackIsFaithful(d, ct, cr);
    var frame := LoopFrame(d, ct);
    LastErrors(Poll(d).mem, d.mem, cr, |frame|, Used(d.mem, cr, 0, |frame|), frame, true, false);
  }
}
