/** A received frame in the receive ring: what a driver finds there afterwards. */
module LanceDelivery {
  import opened Numbers
  import opened Crc32
  import opened LanceMemory
  import opened LanceRings
  import opened LanceChains
  import opened LanceChip

  /** The status bits that say nothing about the buffer's address. */
  lemma SameAddress(w: bv16, flags: bv16)
    requires flags & 0xFF == 0
    ensures forall md0 :: BufAddr(md0, With(w, flags)) == BufAddr(md0, w) == BufAddr(md0, Without(w, flags))
  {
    assert (w | flags) & 0xFF == w & 0xFF;
    assert (w & !flags) & 0xFF == w & 0xFF;
  }

  lemma FlagBytes()
    ensures OWN & 0xFF == 0 && STP & 0xFF == 0 && ENP & 0xFF == 0 && RX_BUFF & 0xFF == 0 && RX_CRC & 0xFF == 0
  {
  }

  /** A set bit stays set when other bits change. */
  lemma StpStays(w: bv16)
    ensures Has(Without(With(w, STP), OWN), STP)
    ensures Has(With(w, STP), STP)
  {
    assert ((w | 0x0200) & !0x8000) & 0x0200 != 0;
    assert (w | 0x0200) & 0x0200 != 0;
  }

  lemma FlagsKeepStp(w: bv16)
    requires Has(w, STP)
    ensures Has(With(w, RX_BUFF), STP) && Has(With(w, ENP), STP) && Has(With(With(w, RX_CRC), ENP), STP)
  {
    assert w & 0x0200 != 0 ==> (w | 0x4400) & 0x0200 != 0 && (w | 0x0100) & 0x0200 != 0 && ((w | 0x4800) | 0x0100) & 0x0200 != 0;
  }

  lemma FlagsKeepOwn(w: bv16)
    requires !Has(w, OWN)
    ensures !Has(With(w, RX_BUFF), OWN) && !Has(With(w, ENP), OWN) && !Has(With(With(w, RX_CRC), ENP), OWN)
  {
    assert w & 0x8000 == 0 ==> (w | 0x4400) & 0x8000 == 0 && (w | 0x0100) & 0x8000 == 0 && ((w | 0x4800) | 0x0100) & 0x8000 == 0;
  }

  lemma FlagsSet(w: bv16)
    ensures Has(With(w, RX_BUFF), 0x0400) && Has(With(w, RX_BUFF), ERR)
    ensures Has(With(w, ENP), ENP) && Has(With(With(w, RX_CRC), ENP), ENP) && Has(With(With(w, RX_CRC), ENP), ERR)
  {
    assert (w | 0x4400) & 0x0400 != 0 && (w | 0x4400) & 0x4000 != 0;
    assert (w | 0x0100) & 0x0100 != 0 && ((w | 0x4800) | 0x0100) & 0x0100 != 0 && ((w | 0x4800) | 0x0100) & 0x4000 != 0;
  }

  /** The chain at the controller's receive position. */
  ghost predicate RxChain(d: Chip, c: Chain) {
    c.r == d.rx && c.start == d.rxPos && c.cLance == d.cLance && c.swap == Swap(d)
  }

  /** The controller listens to the frame. */
  predicate Heard(d: Chip, buf: seq<bv8>)
    requires |buf| >= 6
  {
    (Internal(d) || buf[..6] == d.padr || Has(d.csr0, C_RXON)) && Accepts(d, buf)
  }

  /** FRAM, OFLO, CRC and BUFF of a receive status, and ERR, their sum. */
  const RX_ERRORS: bv16 := 0x7C00

  /**
   The status word of the `j`-th of `u` descriptors used: what it was, with the start mark on the first, given back,
   and on the last one the end mark, the check sequence error or the buffer error.
   */
  function StatusAfter(m: seq<bv16>, c: Chain, u: nat, j: nat, whole: bool, bad: bool): bv16
    requires |m| == WORDS && c.start < c.r.size && j < c.r.size
  {
    var w := Fetch(m, At(c, j) + 2);
    var g := Without(if j == 0 then With(w, STP) else w, OWN);
    if j + 1 != u then g else if !whole then With(g, RX_BUFF) else if bad then With(With(g, RX_CRC), ENP) else With(g, ENP)
  }

  /** What the driver finds after `n` bytes of the frame found room in `u` descriptors. */
  ghost predicate InRingOrder(x: seq<bv16>, m: seq<bv16>, c: Chain, n: nat, u: nat, buf: seq<bv8>, whole: bool, bad: bool)
    requires |x| == WORDS == |m| && ChainOk(c) && n <= |buf|
  {
    && 1 <= u <= c.count
    && Read(x, m, c, 0, n) == buf[..n]
    && (forall j :: 0 <= j < u ==> Fetch(x, At(c, j) + 2) == StatusAfter(m, c, u, j, whole, bad))
    && (forall j :: 0 <= j < u ==> !Has(Fetch(x, At(c, j) + 2), OWN))
    && (forall j :: 0 <= j < u ==> Fetch(x, At(c, j)) == Fetch(m, At(c, j)) && SegAddr(x, c, j) == SegAddr(m, c, j))
    && Has(Fetch(x, At(c, 0) + 2), STP)
    && (whole ==> Has(Fetch(x, At(c, u - 1) + 2), ENP) && (bad ==> Has(Fetch(x, At(c, u - 1) + 2), ERR)))
    && (!whole ==> Has(Fetch(x, At(c, u - 1) + 2), 0x0400) && Has(Fetch(x, At(c, u - 1) + 2), ERR))
    && Fetch(x, At(c, u - 1) + 6) == CountWord(n)
  }

  lemma ErrorBits(w: bv16)
    ensures Without(w, OWN) & RX_ERRORS == w & RX_ERRORS && With(w, STP) & RX_ERRORS == w & RX_ERRORS
    ensures With(w, ENP) & RX_ERRORS == w & RX_ERRORS
    ensures With(With(w, RX_CRC), ENP) & RX_CRC == RX_CRC && With(w, RX_BUFF) & RX_BUFF == RX_BUFF
  {
    assert (w & !0x8000) & 0x7C00 == w & 0x7C00;
    assert (w | 0x0200) & 0x7C00 == w & 0x7C00;
    assert (w | 0x0100) & 0x7C00 == w & 0x7C00;
    assert ((w | 0x4800) | 0x0100) & 0x4800 == 0x4800;
    assert (w | 0x4400) & 0x4400 == 0x4400;
  }

  /**
   The error bits of the last status word: those it had before for a whole frame with its own check sequence, the
   check sequence error and its sum for a whole frame without, the buffer error and its sum for a part.
   */
  lemma LastErrors(x: seq<bv16>, m: seq<bv16>, c: Chain, n: nat, u: nat, buf: seq<bv8>, whole: bool, bad: bool)
    requires |x| == WORDS == |m| && ChainOk(c) && n <= |buf| && InRingOrder(x, m, c, n, u, buf, whole, bad)
    ensures 1 <= u <= c.count
    ensures whole && !bad ==> Fetch(x, At(c, u - 1) + 2) & RX_ERRORS == Fetch(m, At(c, u - 1) + 2) & RX_ERRORS
    ensures whole && bad ==> Fetch(x, At(c, u - 1) + 2) & RX_CRC == RX_CRC
    ensures !whole ==> Fetch(x, At(c, u - 1) + 2) & RX_BUFF == RX_BUFF
  {
    hide Has, With, Without, Fetch, Desc, Read, SegAddr, CountWord;
    var w := Fetch(m, At(c, u - 1) + 2);
    var first := if u == 1 then With(w, STP) else w;
    ErrorBits(w);
    ErrorBits(first);
    ErrorBits(Without(first, OWN));
  }

  /** The state of the status word that comes back from filling. */
  lemma GivenBackIs(m: seq<bv16>, c: Chain, first: bv16, j: nat)
    requires |m| == WORDS && ChainOk(c) && j < c.count && first == With(Fetch(m, At(c, 0) + 2), STP)
    ensures !Has(GivenBack(m, c, 0, first, j), OWN)
    ensures BufAddr(Fetch(m, At(c, j)), GivenBack(m, c, 0, first, j)) == SegAddr(m, c, j)
    ensures j == 0 ==> Has(GivenBack(m, c, 0, first, j), STP) && BufAddr(Fetch(m, At(c, 0)), first) == SegAddr(m, c, 0)
  {
    hide Has, With, Without, Fetch, Desc, BufAddr;
    var w := Fetch(m, At(c, j) + 2);
    FlagBytes();
    CleanOwn(w);
    CleanOwn(first);
    SameAddress(w, OWN);
    SameAddress(w, STP);
    SameAddress(first, OWN);
    StpStays(w);
  }

  // ---------- memory after the last descriptor is written back ----------

  /** The address words of descriptors are never written. */
  lemma {:induction false} AddressUntouched(m: seq<bv16>, c: Chain, k: nat, j: nat)
    requires Laid(m, c) && j < c.r.size && k <= c.count
    ensures !Touched(m, c, k, At(c, j) / 2)
    decreases c.count - k
  {
    hide Desc, InSeg, Laid;
    ChainOf(m, c);
    if k < c.count {
      if j != k {
        AtApart(c, j, k);
      }
      SegNotRing(m, c, k, Slot(c, j), 0);
      AddressUntouched(m, c, k + 1, j);
    }
  }

  lemma ChainOf(m: seq<bv16>, c: Chain)
    requires Laid(m, c)
    ensures |m| == WORDS && ChainOk(c)
  {
  }

  lemma AddressKept(m: seq<bv16>, x: seq<bv16>, c: Chain, j: nat)
    requires Laid(m, c) && |x| == WORDS && Kept(m, x, m, c, 0) && j < c.r.size
    ensures Fetch(x, At(c, j)) == Fetch(m, At(c, j))
  {
    hide Desc, Laid, Touched, Fetch;
    ChainOf(m, c);
    AddressUntouched(m, c, 0, j);
    FetchIs(m, At(c, j));
    FetchIs(x, At(c, j));
  }

  /** What is read back from the buffers does not depend on the ring's own words. */
  lemma {:induction false} ReadFrame(x: seq<bv16>, y: seq<bv16>, m: seq<bv16>, c: Chain, i: nat, n: nat)
    requires Laid(m, c) && |x| == WORDS == |y| && i <= c.count
    requires forall w :: 0 <= w < WORDS && !InRing(c.r, w) ==> x[w] == y[w]
    ensures Read(x, m, c, i, n) == Read(y, m, c, i, n)
    decreases c.count - i
  {
    hide Desc, SegAddr, SegLen, InRing, Block, Shares;
    if i < c.count && n > 0 {
      var k := if n <= SegLen(m, c, i) then n else SegLen(m, c, i);
      forall w | 0 <= w < WORDS && Shares(SegAddr(m, c, i), k, w)
        ensures x[w] == y[w]
      {
        SharesMore(SegAddr(m, c, i), k, SegLen(m, c, i), w);
        assert InSeg(m, c, i, w);
      }
      BlockFrame(y, x, SegAddr(m, c, i), k, c.swap);
      if n > SegLen(m, c, i) {
        ReadFrame(x, y, m, c, i + 1, n - SegLen(m, c, i));
      }
    }
  }

  lemma SharesMore(a: nat, k: nat, n: nat, w: nat)
    requires k <= n && Shares(a, k, w)
    ensures Shares(a, n, w)
  {
  }

  /** Writing back the status word and the count of the descriptor at chain index `k`. */
  function WrittenBack(x: seq<bv16>, c: Chain, k: nat, md1: bv16, count: bv16): (x': seq<bv16>)
    requires |x| == WORDS && c.start < c.r.size && k < c.r.size
    ensures |x'| == WORDS
  {
    Store(Store(x, At(c, k) + 2, md1), At(c, k) + 6, count)
  }

  lemma WrittenBackIs(x: seq<bv16>, c: Chain, k: nat, md1: bv16, count: bv16, j: nat)
    requires |x| == WORDS && ChainOk(c) && k < c.r.size && j < c.r.size
    ensures var x' := WrittenBack(x, c, k, md1, count);
            && Fetch(x', At(c, j)) == Fetch(x, At(c, j))
            && Fetch(x', At(c, j) + 2) == (if j == k then md1 else Fetch(x, At(c, j) + 2))
            && (j == k ==> Fetch(x', At(c, j) + 6) == count)
  {
    hide Fetch, Store, Desc;
    if j != k {
      AtApart(c, j, k);
    }
    var x1 := Store(x, At(c, k) + 2, md1);
    FetchAfterStore(x, At(c, k) + 2, md1, At(c, j));
    FetchAfterStore(x, At(c, k) + 2, md1, At(c, j) + 2);
    FetchAfterStore(x1, At(c, k) + 6, count, At(c, j));
    FetchAfterStore(x1, At(c, k) + 6, count, At(c, j) + 2);
    FetchAfterStore(x1, At(c, k) + 6, count, At(c, j) + 6);
  }

  lemma WrittenBackRing(x: seq<bv16>, c: Chain, k: nat, md1: bv16, count: bv16)
    requires |x| == WORDS && ChainOk(c) && k < c.r.size
    ensures forall w :: 0 <= w < WORDS && !InRing(c.r, w) ==> WrittenBack(x, c, k, md1, count)[w] == x[w]
  {
    hide Store, Desc, InRing;
    RingHasDesc(c.r, Slot(c, k), 1);
    RingHasDesc(c.r, Slot(c, k), 3);
    forall w | 0 <= w < WORDS && !InRing(c.r, w)
      ensures WrittenBack(x, c, k, md1, count)[w] == x[w]
    {
      StoreKeeps(x, At(c, k) + 2, md1, w);
      StoreKeeps(Store(x, At(c, k) + 2, md1), At(c, k) + 6, count, w);
    }
  }

  // ---------- the whole call ----------

  /** The last status word as the controller writes it back. */
  function LastStatus(s: Scattered, bad: bool): bv16 {
    if s.left != [] then s.md1 else if bad then With(With(s.md1, RX_CRC), ENP) else With(s.md1, ENP)
  }

  lemma LastStatusIs(s: Scattered, bad: bool)
    requires !Has(s.md1, OWN)
    ensures !Has(LastStatus(s, bad), OWN)
    ensures forall md0 :: BufAddr(md0, LastStatus(s, bad)) == BufAddr(md0, s.md1)
    ensures s.left == [] ==> Has(LastStatus(s, bad), ENP) && (bad ==> Has(LastStatus(s, bad), ERR))
    ensures Has(s.md1, STP) ==> Has(LastStatus(s, bad), STP)
  {
    hide Has, With, Without, BufAddr;
    FlagBytes();
    FlagsKeepOwn(s.md1);
    FlagsSet(s.md1);
    if Has(s.md1, STP) {
      FlagsKeepStp(s.md1);
    }
    SameAddress(s.md1, ENP);
    SameAddress(s.md1, RX_CRC);
    SameAddress(With(s.md1, RX_CRC), ENP);
  }

  /** The status word that filling leaves with the caller. */
  lemma ScatteredStatus(s: Scattered, m: seq<bv16>, c: Chain, first: bv16, buf: seq<bv8>, n: nat, u: nat)
    requires |m| == WORDS && |s.m| == WORDS && ChainOk(c) && n <= |buf| && first == With(Fetch(m, At(c, 0) + 2), STP)
    requires Delivered(m, s, m, c, 0, first, buf, n, u)
    ensures !Has(s.md1, OWN) && BufAddr(Fetch(m, At(c, u - 1)), s.md1) == SegAddr(m, c, u - 1)
    ensures u == 1 ==> Has(s.md1, STP)
    ensures n < |buf| ==> Has(s.md1, 0x0400) && Has(s.md1, ERR)
  {
    hide Has, With, Without, BufAddr, Fetch, Desc, Read, Kept, GivenBack, SegAddr;
    FlagBytes();
    var g := GivenBack(m, c, 0, first, u - 1);
    GivenBackIs(m, c, first, u - 1);
    FlagsKeepOwn(g);
    FlagsSet(g);
    if u == 1 {
      FlagsKeepStp(g);
    }
    SameAddress(g, RX_BUFF);
  }

  lemma StatusIs(m: seq<bv16>, s: Scattered, c: Chain, first: bv16, buf: seq<bv8>, n: nat, u: nat, bad: bool, j: nat)
    requires |m| == WORDS && |s.m| == WORDS && ChainOk(c) && n <= |buf| && first == With(Fetch(m, At(c, 0) + 2), STP)
    requires Delivered(m, s, m, c, 0, first, buf, n, u) && j < u
    ensures StatusAfter(m, c, u, j, n == |buf|, bad) == if j == u - 1 then LastStatus(s, bad) else Fetch(s.m, At(c, j) + 2)
  {
    hide Has, With, Without, Fetch, Desc, Read, Kept;
  }

  lemma DeliveredInOrder(m: seq<bv16>, s: Scattered, c: Chain, first: bv16, buf: seq<bv8>, n: nat, u: nat, bad: bool)
    requires Laid(m, c) && |s.m| == WORDS && ChainOk(c) && n <= |buf| && first == With(Fetch(m, At(c, 0) + 2), STP)
    requires Delivered(m, s, m, c, 0, first, buf, n, u)
    ensures InRingOrder(WrittenBack(s.m, c, u - 1, LastStatus(s, bad), CountWord(n)), m, c, n, u, buf, n == |buf|, bad)
  {
    hide Has, With, Without, BufAddr, Fetch, Desc, Read, Kept, GivenBack, WrittenBack, LastStatus, Laid, CountWord, InRing, StatusAfter;
    var md1 := LastStatus(s, bad);
    var x := WrittenBack(s.m, c, u - 1, md1, CountWord(n));
    ChainOf(m, c);
    ScatteredStatus(s, m, c, first, buf, n, u);
    LastStatusIs(s, bad);
    WrittenBackRing(s.m, c, u - 1, md1, CountWord(n));
    ReadFrame(x, s.m, m, c, 0, n);
    forall j | 0 <= j < u
      ensures !Has(Fetch(x, At(c, j) + 2), OWN)
      ensures Fetch(x, At(c, j) + 2) == StatusAfter(m, c, u, j, n == |buf|, bad)
      ensures Fetch(x, At(c, j)) == Fetch(m, At(c, j)) && SegAddr(x, c, j) == SegAddr(m, c, j)
      ensures j == 0 ==> Has(Fetch(x, At(c, j) + 2), STP)
    {
      AddressKept(m, s.m, c, j);
      WrittenBackIs(s.m, c, u - 1, md1, CountWord(n), j);
      GivenBackIs(m, c, first, j);
      StatusIs(m, s, c, first, buf, n, u, bad, j);
    }
    WrittenBackIs(s.m, c, u - 1, md1, CountWord(n), u - 1);
    StoppedStatus(s, bad);
  }

  lemma DeliveredKeeps(m: seq<bv16>, s: Scattered, c: Chain, first: bv16, buf: seq<bv8>, n: nat, u: nat)
    requires |s.m| == WORDS && |m| == WORDS && ChainOk(c) && n <= |buf| && Delivered(m, s, m, c, 0, first, buf, n, u)
    ensures forall w :: 0 <= w < WORDS && !Touched(m, c, 0, w) ==> s.m[w] == m[w]
  {
    hide Fetch, GivenBack, Read;
  }

  lemma StoppedStatus(s: Scattered, bad: bool)
    ensures s.left != [] ==> LastStatus(s, bad) == s.md1
  {
  }

  lemma RxChainIs(d: Chip, c: Chain)
    requires ChipOk(d) && RxChain(d, c) && Laid(d.mem, c)
    ensures Desc(d.rx, d.rxPos) == At(c, 0) && Slot(c, 0) == d.rxPos && Has(Fetch(d.mem, At(c, 0) + 2), OWN)
    ensures BufAddr(Fetch(d.mem, At(c, 0)), With(Fetch(d.mem, At(c, 0) + 2), STP)) == SegAddr(d.mem, c, 0)
    ensures Agree(d.mem, d.mem, c, 0)
  {
    hide Has, With, BufAddr, Fetch, Desc;
    LaidAt(d.mem, c, 0);
    FlagBytes();
    SameAddress(Fetch(d.mem, At(c, 0) + 2), STP);
  }

  /** Receiving into a chain is filling it. */
  lemma ReceiveFills(d: Chip, buf: seq<bv8>, c: Chain)
    requires ChipOk(d) && RxChain(d, c) && Laid(d.mem, c) && |buf| >= 6 && Heard(d, buf)
    ensures var s := Scatter(d.mem, d.rx, d.rxPos, With(Fetch(d.mem, At(c, 0) + 2), STP), buf, d.cLance, Swap(d));
            Receive(d, buf) == Taken(s.m, s.pos, LastStatus(s, Checked(d) && Crc(buf) != RESIDUE), |buf| - |s.left|)
  {
    hide Has, With, BufAddr, Fetch, Desc, Scatter, Laid, Accepts, Internal, Checked, Crc;
    RxChainIs(d, c);
  }

  lemma CompleteTaken(d: Chip, c: Chain, m: seq<bv16>, u: nat, md1: bv16, n: nat)
    requires ChipOk(d) && ChainOk(c) && RxChain(d, c) && |m| == WORDS && 1 <= u <= c.count
    ensures var d' := Complete(d, Taken(m, Slot(c, u - 1), md1, n));
            && d'.mem == WrittenBack(m, c, u - 1, md1, CountWord(n)) && d'.rxPos == Slot(c, u)
            && d' == d.(mem := d'.mem, rxPos := d'.rxPos, csr0 := With(d.csr0, C_RINT | C_INTR), intLow := d'.intLow)
  {
    hide Has, With, Fetch, Desc, CountWord, Advance, Store;
    SlotNext(c, u - 1);
  }

  /** Nothing but the chain's buffers and its ring's own words differs. */
  ghost predicate ElseKept(x: seq<bv16>, m: seq<bv16>, c: Chain)
    requires |x| == WORDS == |m| && ChainOk(c)
  {
    forall w :: 0 <= w < WORDS && !InRing(c.r, w) && !Touched(m, c, 0, w) ==> x[w] == m[w]
  }

  /** A frame of which `n` bytes went into `u` descriptors of a chain. */
  ghost predicate Received(d: Chip, d': Chip, c: Chain, buf: seq<bv8>, n: nat, u: nat)
    requires |buf| >= 6
  {
    && |d.mem| == WORDS == |d'.mem| && ChainOk(c) && 0 < n <= |buf| && u <= c.count
    && InRingOrder(d'.mem, d.mem, c, n, u, buf, n == |buf|, Checked(d) && Crc(buf) != RESIDUE)
    && ElseKept(d'.mem, d.mem, c)
    && d'.rxPos == Slot(c, u)
    && d' == d.(mem := d'.mem, rxPos := d'.rxPos, csr0 := With(d.csr0, C_RINT | C_INTR), intLow := d'.intLow)
  }

  /**
   A frame received into a chain of owned descriptors: the buffers in ring order hold it, or the part for which
   there is room; every descriptor used is given back, the first marked as the start; the last one carries the
   length, and the end mark or the buffer error; the position advances by the number of descriptors used; and
   nothing else in memory changes.
   */
  lemma RxDelivered(d: Chip, buf: seq<bv8>, c: Chain)
    requires ChipOk(d) && RxChain(d, c) && Laid(d.mem, c) && |buf| >= 6 && Heard(d, buf) && Ends(d.mem, c, 0, |buf|)
    ensures ChainOk(c)
    ensures var n := Least(|buf|, Total(d.mem, c, 0));
            Received(d, Complete(d, Receive(d, buf)), c, buf, n, Used(d.mem, c, 0, n))
  {
    hide Has, With, Without, BufAddr, Fetch, Desc, Scatter, Laid, Accepts, Internal, Checked, Crc, LastStatus, Heard, Agree, InRingOrder,
         CountWord, Total, SegAddr, Advance, OwnedAt, Store, Read, Receive, Complete, WrittenBack;
    ChainOf(d.mem, c);
    RxChainIs(d, c);
    ReceiveFills(d, buf, c);
    var first := With(Fetch(d.mem, At(c, 0) + 2), STP);
    ScatterDelivers(d.mem, d.mem, c, 0, first, buf);
    var n := Least(|buf|, Total(d.mem, c, 0));
    var u := Used(d.mem, c, 0, n);
    var s := Scatter(d.mem, d.rx, d.rxPos, first, buf, d.cLance, Swap(d));
    var bad := Checked(d) && Crc(buf) != RESIDUE;
    DeliveredInOrder(d.mem, s, c, first, buf, n, u, bad);
    CompleteTaken(d, c, s.m, u, LastStatus(s, bad), n);
    WrittenBackRing(s.m, c, u - 1, LastStatus(s, bad), CountWord(n));
    DeliveredKeeps(d.mem, s, c, first, buf, n, u);
  }
}
