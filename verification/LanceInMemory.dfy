/** What the controller does, in words of host memory: reception, transmission and initialisation. */
module LanceInMemory {
  import opened Numbers
  import opened Crc32
  import opened LanceMemory
  import opened LanceRings
  import opened LanceChains
  import opened LanceSends
  import opened LanceChip
  import opened LanceDelivery
  import opened LanceLoopback
  import opened LanceFormat

  // ---------- words, bytes and descriptors ----------

  /** The byte the transfers use is the one at that address. */
  lemma ByteIs(m: seq<bv16>, a: nat, bswp: bool)
    requires |m| == WORDS
    ensures ByteAt(m, a, bswp) == HostByte(m, a, bswp)
  {
  }

  lemma SlotIs(c: Chain, k: nat)
    requires ChainOk(c) && k <= c.r.size
    ensures Slot(c, k) == (c.start + k) % c.r.size
  {
  }

  lemma DescIs(c: Chain, k: nat)
    requires ChainOk(c) && k <= c.r.size
    ensures At(c, k) == DescAt(c, k)
  {
    SlotIs(c, k);
    var q := c.r.base / 8;
    assert c.r.base == 8 * q;
  }

  lemma WordIs(m: seq<bv16>, a: nat)
    requires |m| == WORDS
    ensures HostWord(m, a) == Fetch(m, a)
  {
  }

  lemma LengthIs(cLance: bool, w: bv16)
    ensures RxLen(cLance, w) == if cLance && w == 0 then 64 else 4096 - (w & 0x0FFF) as nat
    ensures BufLen(cLance, w) == if cLance && w == 0 then 0 else 4096 - (w & 0x0FFF) as nat
  {
    assert (w & 0x0FFF) < 0x1000;
  }

  lemma AddressIs(w0: bv16, w1: bv16)
    ensures BufAddr(w0, w1) == (w1 & 0x00FF) as nat * 65536 + w0 as nat
  {
  }

  lemma BufferIs(m: seq<bv16>, c: Chain, k: nat)
    requires |m| == WORDS && ChainOk(c) && k < c.r.size
    ensures SegAddr(m, c, k) == BufferAt(m, c, k)
    ensures SegLen(m, c, k) == BufferLength(m, c, k, 64) && TxLen(m, c, k) == BufferLength(m, c, k, 0)
  {
    hide Fetch, HostWord, Desc, DescAt, RxLen, BufLen, BufAddr;
    AddressIs(Fetch(m, At(c, k)), Fetch(m, At(c, k) + 2));
    LengthIs(c.cLance, Fetch(m, At(c, k) + 4));
    DescIs(c, k);
    WordIs(m, At(c, k));
    WordIs(m, At(c, k) + 2);
    WordIs(m, At(c, k) + 4);
  }

  lemma OwnedIs(m: seq<bv16>, c: Chain, k: nat)
    requires |m| == WORDS && ChainOk(c) && k <= c.r.size
    ensures OwnedAt(m, c.r, Slot(c, k)) <==> HandedOver(m, c, k)
  {
    hide Fetch, HostWord, Desc, DescAt;
    DescIs(c, k);
    WordIs(m, At(c, k) + 2);
  }

  lemma BuffersAre(m: seq<bv16>, c: Chain, k: nat)
    requires |m| == WORDS && ChainOk(c) && k < c.r.size
    ensures forall w: nat :: InSeg(m, c, k, w) <==> InBuffer(m, c, k, 64, w)
    ensures forall w: nat :: Shares(SegAddr(m, c, k), TxLen(m, c, k), w) <==> InBuffer(m, c, k, 0, w)
  {
    hide SegAddr, SegLen, TxLen, BufferAt, BufferLength;
    BufferIs(m, c, k);
  }

  lemma RxLaidOutIff(m: seq<bv16>, c: Chain)
    ensures RxLaidOut(m, c) <==> Laid(m, c)
  {
    hide SegAddr, SegLen, BufferAt, BufferLength, OwnedAt, HandedOver, InSeg, InBuffer, InRing, Slot;
    assert ChainInRing(c) <==> ChainOk(c);
    if |m| == WORDS && ChainOk(c) {
      forall k: nat | k < c.count
        ensures SegAddr(m, c, k) == BufferAt(m, c, k) && SegLen(m, c, k) == BufferLength(m, c, k, 64)
        ensures OwnedAt(m, c.r, Slot(c, k)) <==> HandedOver(m, c, k)
      {
        BufferIs(m, c, k);
        OwnedIs(m, c, k);
      }
      forall k, w: nat | 0 <= k < c.count
        ensures InSeg(m, c, k, w) <==> InBuffer(m, c, k, 64, w)
      {
        BuffersAre(m, c, k);
      }
      if Laid(m, c) {
        forall k, w: nat | 0 <= k < c.count && InBuffer(m, c, k, 64, w)
          ensures !InRing(c.r, w)
        {
          assert InSeg(m, c, k, w);
        }
        forall j, k, w: nat | 0 <= j < k < c.count && InBuffer(m, c, j, 64, w)
          ensures !InBuffer(m, c, k, 64, w)
        {
          assert InSeg(m, c, j, w) && !InSeg(m, c, k, w);
        }
        assert RxLaidOut(m, c);
      }
      if RxLaidOut(m, c) {
        forall k, w: nat | 0 <= k < c.count && InSeg(m, c, k, w)
          ensures !InRing(c.r, w)
        {
          assert InBuffer(m, c, k, 64, w);
        }
        forall j, k, w: nat | 0 <= j < k < c.count && InSeg(m, c, j, w)
          ensures !InSeg(m, c, k, w)
        {
          assert InBuffer(m, c, j, 64, w) && !InBuffer(m, c, k, 64, w);
        }
        assert Laid(m, c);
      }
    }
  }

  // ---------- frames over buffers ----------

  lemma BlockByte(x: seq<bv16>, a: nat, n: nat, bswp: bool, o: nat)
    requires |x| == WORDS && o < n
    ensures Block(x, a, n, bswp)[o] == HostByte(x, a + o, bswp)
  {
    hide ByteAt, HostByte;
    BlockIs(x, a, n, bswp);
    ByteIs(x, a + o, bswp);
  }

  lemma BlockBytes(x: seq<bv16>, a: nat, n: nat, bswp: bool)
    requires |x| == WORDS
    ensures forall o :: 0 <= o < n ==> Block(x, a, n, bswp)[o] == HostByte(x, a + o, bswp)
  {
    forall o | 0 <= o < n
      ensures Block(x, a, n, bswp)[o] == HostByte(x, a + o, bswp)
    {
      BlockByte(x, a, n, bswp, o);
    }
  }

  lemma OutBytes(m: seq<bv16>, a: nat, d: seq<bv8>, bswp: bool)
    requires |m| == WORDS && a + |d| <= SPACE
    ensures StoredAt(OutBlock(m, a, d, bswp), m, a, d, bswp)
  {
    hide ByteAt, HostByte, OutBlock;
    forall x: nat | x < SPACE
      ensures HostByte(OutBlock(m, a, d, bswp), x, bswp) == ByteAfter(m, a, d, bswp, x)
    {
      ByteIs(m, x, bswp);
      ByteIs(OutBlock(m, a, d, bswp), x, bswp);
      OutBlockBytes(m, a, d, bswp, x);
    }
  }

  /** The bytes read back from receive buffers are those of the frame laid over them. */
  lemma {:induction false} ReadByte(x: seq<bv16>, m: seq<bv16>, c: Chain, k: nat, n: nat, o: nat)
    requires |x| == WORDS == |m| && ChainOk(c) && k <= c.count && o < |Read(x, m, c, k, n)|
    ensures Read(x, m, c, k, n)[o] == FrameByte(x, m, c, k, o, 64, c.swap)
    decreases c.count - k
  {
    hide SegLen, SegAddr, Block, HostByte, BufferAt, BufferLength;
    if k < c.count {
      BufferIs(m, c, k);
      var len := SegLen(m, c, k);
      if o < len {
        BlockByte(x, SegAddr(m, c, k), if n <= len then n else len, c.swap, o);
      } else {
        ReadByte(x, m, c, k + 1, n - len, o - len);
      }
    }
  }

  /** The bytes collected from transmit buffers are those of the frame laid over them. */
  lemma {:induction false} ContentsByte(m: seq<bv16>, c: Chain, k: nat, o: nat)
    requires |m| == WORDS && ChainOk(c) && k <= c.count && o < |Contents(m, c, k)|
    ensures Contents(m, c, k)[o] == FrameByte(m, m, c, k, o, 0, c.swap)
    decreases c.count - k
  {
    hide TxLen, SegAddr, Block, HostByte, BufferAt, BufferLength;
    if k < c.count {
      BufferIs(m, c, k);
      var len := TxLen(m, c, k);
      if o < len {
        BlockByte(m, SegAddr(m, c, k), len, c.swap, o);
      } else {
        ContentsByte(m, c, k + 1, o - len);
      }
    }
  }

  lemma {:induction false} ContentsLength(m: seq<bv16>, c: Chain, k: nat)
    requires |m| == WORDS && ChainOk(c) && k <= c.count
    ensures |Contents(m, c, k)| + RoomIn(m, c, k, 0) == RoomIn(m, c, c.count, 0)
    decreases c.count - k
  {
    hide TxLen, SegAddr, Block, BufferLength;
    if k < c.count {
      BufferIs(m, c, k);
      ContentsLength(m, c, k + 1);
    }
  }

  lemma {:induction false} TotalIsRoom(m: seq<bv16>, c: Chain, k: nat)
    requires |m| == WORDS && ChainOk(c) && k <= c.count
    ensures Total(m, c, k) + RoomIn(m, c, k, 64) == RoomIn(m, c, c.count, 64)
    decreases c.count - k
  {
    hide SegLen, BufferLength;
    if k < c.count {
      BufferIs(m, c, k);
      TotalIsRoom(m, c, k + 1);
    }
  }

  /** As many descriptors are used as it takes for `n` bytes. */
  lemma {:induction false} UsedIs(m: seq<bv16>, c: Chain, k: nat, n: nat)
    requires |m| == WORDS && ChainOk(c) && k <= c.count && 0 < n <= Total(m, c, k)
    ensures var u := Used(m, c, k, n);
            1 <= u <= c.count - k && RoomIn(m, c, k + u - 1, 64) - RoomIn(m, c, k, 64) < n <= RoomIn(m, c, k + u, 64) - RoomIn(m, c, k, 64)
    decreases c.count - k
  {
    hide SegLen, RoomIn;
    RoomNext(m, c, k);
    if n > SegLen(m, c, k) {
      UsedIs(m, c, k + 1, n - SegLen(m, c, k));
    }
  }

  lemma RoomNext(m: seq<bv16>, c: Chain, k: nat)
    requires |m| == WORDS && ChainOk(c) && k < c.r.size
    ensures RoomIn(m, c, k + 1, 64) == RoomIn(m, c, k, 64) + SegLen(m, c, k)
  {
    hide SegLen, BufferLength;
    BufferIs(m, c, k);
  }

  lemma TxLaidOutIff(m: seq<bv16>, c: Chain)
    ensures TxLaidOut(m, c) <==> Posted(m, c)
  {
    hide SegAddr, TxLen, BufferAt, BufferLength, OwnedAt, HandedOver, InBuffer, InRing, Slot, Shares, Contents, Fetch, HostWord, RoomIn;
    assert ChainInRing(c) <==> ChainOk(c);
    if |m| == WORDS && ChainOk(c) {
      ContentsLength(m, c, 0);
      NoRoom(m, c);
      forall k: nat | k < c.count
        ensures SegAddr(m, c, k) == BufferAt(m, c, k) && TxLen(m, c, k) == BufferLength(m, c, k, 0)
        ensures OwnedAt(m, c.r, Slot(c, k)) <==> HandedOver(m, c, k)
        ensures Has(Fetch(m, At(c, k) + 2), ENP) <==> HostWord(m, DescAt(c, k) + 2) & 0x0100 != 0
      {
        BufferIs(m, c, k);
        OwnedIs(m, c, k);
        DescIs(c, k);
        WordIs(m, At(c, k) + 2);
      }
      forall k, w: nat | 0 <= k < c.count
        ensures Shares(SegAddr(m, c, k), TxLen(m, c, k), w) <==> InBuffer(m, c, k, 0, w)
      {
        BuffersAre(m, c, k);
      }
      if Posted(m, c) {
        forall k, w: nat | 0 <= k < c.count && InBuffer(m, c, k, 0, w)
          ensures !InRing(c.r, w)
        {
          assert Shares(SegAddr(m, c, k), TxLen(m, c, k), w);
        }
        assert TxLaidOut(m, c);
      }
      if TxLaidOut(m, c) {
        forall k, w: nat | 0 <= k < c.count && Shares(SegAddr(m, c, k), TxLen(m, c, k), w)
          ensures !InRing(c.r, w)
        {
          assert InBuffer(m, c, k, 0, w);
        }
        assert Posted(m, c);
      }
    }
  }

  lemma NoRoom(m: seq<bv16>, c: Chain)
    requires |m| == WORDS && c.r.size > 0
    ensures RoomIn(m, c, 0, 0) == 0
  {
  }

  // ---------- reception ----------

  /**
   The controller listens: it is switched on, or in internal loopback, or addressed itself; and it takes everything, or
   the address is its own, or the broadcast, or a multicast whose hash bit the filter has set.
   */
  predicate Hears(d: Chip, buf: seq<bv8>)
    requires |buf| >= 6
  {
    && (ReceiverOn(d.csr0) || InternalLoop(d.mode) || buf[..6] == d.padr)
    && (TakesAll(d.mode)
        || (if !GroupAddress(buf[0]) then buf[..6] == d.padr
            else buf[..6] == [0xFF, 0xFF, 0xFF, 0xFF, 0xFF, 0xFF] || HashBitSet(d.filter, Crc(buf[..6]))))
  }

  lemma HeardIs(d: Chip, buf: seq<bv8>)
    requires |buf| >= 6
    ensures Heard(d, buf) <==> Hears(d, buf)
  {
    hide Crc, HashBit, FilterBit, Multicast, Has, ReceiverOn, InternalLoop, TakesAll, GroupAddress, HashBitSet;
    ModesAre(d.mode);
    SwitchedOn(d.csr0);
    GroupIs(buf[0]);
    HashIs(d.filter, Crc(buf[..6]));
  }

  lemma ModesAre(w: bv16)
    ensures InternalLoop(w) <==> Has(w, M_LOOP) && Has(w, M_INTL)
    ensures TakesAll(w) <==> Has(w, M_PROM)
    ensures LooksAtCheck(w) <==> !Has(w, M_LOOP) || Has(w, M_DTCR)
  {
  }

  lemma SwitchedOn(w: bv16)
    ensures ReceiverOn(w) <==> Has(w, C_RXON)
  {
  }

  lemma GroupIs(b: bv8)
    ensures GroupAddress(b) <==> Multicast(b)
  {
  }

  lemma HashBitIs(crc: bv32)
    ensures HashBit(crc) == 63 - UpperSix(crc)
  {
  }

  lemma FilterBitIs(filter: bv64, k: nat)
    requires k < 64
    ensures FilterBit(filter, k) <==> Bit(filter, k)
  {
  }

  lemma HashIs(filter: bv64, crc: bv32)
    ensures HashBitSet(filter, crc) <==> FilterBit(filter, HashBit(crc))
  {
    hide HashBit, UpperSix, Bit, FilterBit;
    HashBitIs(crc);
    FilterBitIs(filter, HashBit(crc));
  }

  /** The check sequence is wrong and looked at: outside loopback, or in one that appends none. */
  predicate WrongCheck(d: Chip, buf: seq<bv8>) {
    LooksAtCheck(d.mode) && Crc(buf) != 0x2144_DF1C
  }

  /** A chain from the receive position on. */
  predicate AtReceiver(d: Chip, c: Chain) {
    c.r == d.rx && c.start == d.rxPos && c.cLance == d.cLance && c.swap == (d.csr3 & 0x0004 != 0)
  }

  lemma GivenOn(w: bv16, whole: bool, bad: bool)
    ensures RxReturned(w, false, whole, bad) == Without(w, OWN)
  {
  }

  lemma GivenPart(w: bv16, bad: bool)
    ensures RxReturned(w, true, false, bad) == With(Without(w, OWN), RX_BUFF)
  {
  }

  lemma GivenBad(w: bv16)
    ensures RxReturned(w, true, true, true) == With(With(Without(w, OWN), RX_CRC), ENP)
  {
  }

  lemma GivenGood(w: bv16)
    ensures RxReturned(w, true, true, false) == With(Without(w, OWN), ENP)
  {
  }

  lemma GivenMarked(w: bv16, first: bool, last: bool, whole: bool, bad: bool)
    ensures RxStatus(w, first, last, whole, bad) == RxReturned(if first then With(w, STP) else w, last, whole, bad)
  {
    hide RxReturned;
  }

  /** The status word of the delivery theorems, by its bits. */
  lemma StatusIsRx(m: seq<bv16>, c: Chain, u: nat, j: nat, whole: bool, bad: bool)
    requires |m| == WORDS && ChainOk(c) && j < u <= c.count
    ensures StatusAfter(m, c, u, j, whole, bad) == RxStatus(HostWord(m, DescAt(c, j) + 2), j == 0, j == u - 1, whole, bad)
  {
    hide Fetch, HostWord, Desc, DescAt, With, Without, RxReturned, RxStatus;
    DescIs(c, j);
    WordIs(m, At(c, j) + 2);
    var w := Fetch(m, At(c, j) + 2);
    var marked := if j == 0 then With(w, STP) else w;
    GivenMarked(w, j == 0, j == u - 1, whole, bad);
    GivenOn(marked, whole, bad);
    GivenPart(marked, bad);
    GivenBad(marked);
    GivenGood(marked);
  }

  /** The frame as the driver finds it: its bytes, the status words, and the length. */
  ghost predicate FrameStored(x: seq<bv16>, m: seq<bv16>, c: Chain, buf: seq<bv8>, n: nat, u: nat, bad: bool)
    requires |x| == 0x80_0000 == |m| && c.r.size > 0 && n <= |buf| && u > 0
  {
    && (forall o :: 0 <= o < n ==> FrameByte(x, m, c, 0, o, 64, c.swap) == buf[o])
    && (forall j :: 0 <= j < u ==>
          HostWord(x, DescAt(c, j) + 2) == RxStatus(HostWord(m, DescAt(c, j) + 2), j == 0, j == u - 1, n == |buf|, bad))
    && HostWord(x, DescAt(c, u - 1) + 6) == (n % 4096) as bv16
  }

  /** Words outside the ring and the chain's buffers are as they were. */
  ghost predicate ElseAsWas(x: seq<bv16>, m: seq<bv16>, c: Chain)
    requires |x| == 0x80_0000 == |m| && c.r.size > 0
  {
    forall w: nat :: w < 0x80_0000 && !InRing(c.r, w) && (forall k :: 0 <= k < c.count ==> !InBuffer(m, c, k, 64, w)) ==> x[w] == m[w]
  }

  lemma StoredAsOrdered(x: seq<bv16>, m: seq<bv16>, c: Chain, buf: seq<bv8>, n: nat, u: nat, bad: bool)
    requires |x| == WORDS == |m| && ChainOk(c) && n <= |buf| && InRingOrder(x, m, c, n, u, buf, n == |buf|, bad)
    ensures 1 <= u <= c.count && FrameStored(x, m, c, buf, n, u, bad)
  {
    hide Fetch, HostWord, Desc, DescAt, StatusAfter, RxStatus, FrameByte, Read, Has, SegAddr;
    forall o | 0 <= o < n
      ensures FrameByte(x, m, c, 0, o, 64, c.swap) == buf[o]
    {
      assert buf[..n][o] == buf[o];
      ReadByte(x, m, c, 0, n, o);
    }
    forall j | 0 <= j < u
      ensures HostWord(x, DescAt(c, j) + 2) == RxStatus(HostWord(m, DescAt(c, j) + 2), j == 0, j == u - 1, n == |buf|, bad)
    {
      DescIs(c, j);
      WordIs(x, At(c, j) + 2);
      StatusIsRx(m, c, u, j, n == |buf|, bad);
    }
    DescIs(c, u - 1);
    WordIs(x, At(c, u - 1) + 6);
  }

  lemma ElseIs(x: seq<bv16>, m: seq<bv16>, c: Chain)
    requires |x| == WORDS == |m| && ChainOk(c) && ElseKept(x, m, c)
    ensures ElseAsWas(x, m, c)
  {
    hide InRing, InBuffer, InSeg, Touched;
    forall w: nat | w < WORDS && !InRing(c.r, w) && forall k :: 0 <= k < c.count ==> !InBuffer(m, c, k, 64, w)
      ensures x[w] == m[w]
    {
      forall k | 0 <= k < c.count
        ensures !InSeg(m, c, k, w)
      {
        BuffersAre(m, c, k);
        assert !InBuffer(m, c, k, 64, w);
      }
      NotTouched(m, c, 0, w);
    }
  }

  /**
   A frame that is heard and finds descriptors: its bytes lie in the buffers in ring order, in the byte order of
   CSR3's BSWP bit, as many as there is room for; the descriptors used are given back with their marks, the last with
   the length; nothing else in memory changes; and RINT and INTR are set.
   */
  lemma ReceivedInMemory(d: Chip, buf: seq<bv8>, c: Chain) returns (n: nat, u: nat)
    requires ChipOk(d) && AtReceiver(d, c) && |buf| >= 6 && Hears(d, buf) && RxLaidOut(d.mem, c)
    requires RoomIn(d.mem, c, c.count, 64) < |buf| ==> c.count == c.r.size || !HandedOver(d.mem, c, c.count)
    ensures n == (if |buf| < RoomIn(d.mem, c, c.count, 64) then |buf| else RoomIn(d.mem, c, c.count, 64))
    ensures 1 <= u <= c.count && RoomIn(d.mem, c, u - 1, 64) < n <= RoomIn(d.mem, c, u, 64)
    ensures var d' := Complete(d, Receive(d, buf));
            && |d'.mem| == 0x80_0000 && FrameStored(d'.mem, d.mem, c, buf, n, u, WrongCheck(d, buf)) && ElseAsWas(d'.mem, d.mem, c)
            && d'.rxPos == (d.rxPos + u) % d.rx.size && d'.csr0 == d.csr0 | 0x0480
  {
    hide RxLaidOut, Laid, Total, Used, RoomIn, InRingOrder, FrameStored, ElseKept, ElseAsWas, Receive, Complete, Heard, Hears, Crc, ChipOk,
         Fetch, HandedOver, OwnedAt;
    RxLaidOutIff(d.mem, c);
    ChainOf(d.mem, c);
    HeardIs(d, buf);
    TotalIsRoom(d.mem, c, 0);
    FirstRoom(d.mem, c);
    n := Least(|buf|, Total(d.mem, c, 0));
    u := Used(d.mem, c, 0, n);
    OwnedIs(d.mem, c, c.count);
    SwapIs(d);
    RxDelivered(d, buf, c);
    var d' := Complete(d, Receive(d, buf));
    StoredAsOrdered(d'.mem, d.mem, c, buf, n, u, WrongCheck(d, buf)) by { CheckedIs(d); }
    ElseIs(d'.mem, d.mem, c);
    UsedIs(d.mem, c, 0, n);
    SlotIs(c, u);
  }

  /**
   A frame that is not heard changes nothing. One that is heard and finds no descriptor handed over changes no memory:
   ERR, MISS, RINT and INTR are set.
   */
  lemma NotStored(d: Chip, buf: seq<bv8>, c: Chain)
    requires ChipOk(d) && AtReceiver(d, c) && |buf| >= 6 && ChainOk(c) && (Hears(d, buf) ==> !HandedOver(d.mem, c, 0))
    ensures var d' := Complete(d, Receive(d, buf));
            if Hears(d, buf) then d'.mem == d.mem && d'.rxPos == d.rxPos && d'.csr0 == d.csr0 | 0x9480 else d' == d
  {
    hide Hears, HandedOver, Accepts, Internal, Has, With, Fetch, Desc, Scatter, Crc, RingOk, Heard;
    HeardIs(d, buf);
    HeardParts(d, buf);
    OwnedIs(d.mem, c, 0);
    StartSlot(c);
    NoOwner(d.mem, c);
    MissFlags(d.csr0);
  }

  lemma HeardParts(d: Chip, buf: seq<bv8>)
    requires |buf| >= 6
    ensures Heard(d, buf) <==> (Internal(d) || buf[..6] == d.padr || Has(d.csr0, C_RXON)) && Accepts(d, buf)
  {
    hide Internal, Has, Accepts;
  }

  lemma StartSlot(c: Chain)
    requires ChainOk(c)
    ensures Slot(c, 0) == c.start
  {
  }

  lemma NoOwner(m: seq<bv16>, c: Chain)
    requires |m| == WORDS && ChainOk(c)
    ensures OwnedAt(m, c.r, Slot(c, 0)) <==> Has(Fetch(m, Desc(c.r, Slot(c, 0)) + 2), OWN)
  {
    hide Has, Fetch, Desc, Slot;
  }

  lemma MissFlags(c: bv16)
    ensures With(With(c, C_ERR | C_MISS), C_RINT | C_INTR) == c | 0x9480
  {
  }

  lemma FirstRoom(m: seq<bv16>, c: Chain)
    requires |m| == WORDS && ChainOk(c)
    ensures RoomIn(m, c, 0, 64) == 0 && Total(m, c, 0) > 0
  {
  }

  lemma SwapIs(d: Chip)
    ensures Swap(d) <==> d.csr3 & 0x0004 != 0
  {
  }

  lemma CheckedIs(d: Chip)
    ensures Checked(d) <==> LooksAtCheck(d.mode)
  {
    hide Has, LooksAtCheck;
    ModesAre(d.mode);
  }

  // ---------- transmission ----------

  /** A chain from the transmit position on. */
  predicate AtSender(d: Chip, c: Chain) {
    c.r == d.tx && c.start == d.txPos && c.cLance == d.cLance && c.swap == (d.csr3 & 0x0004 != 0)
  }

  /** A frame laid out for sending, its first descriptor with the start mark, and TXON set in CSR0. */
  ghost predicate ReadyToSend(d: Chip, c: Chain) {
    && ChipOk(d) && AtSender(d, c) && TxLaidOut(d.mem, c)
    && HostWord(d.mem, DescAt(c, 0) + 2) & 0x0200 != 0 && d.csr0 & 0x0010 != 0
  }

  lemma SenderIs(d: Chip, c: Chain)
    requires ReadyToSend(d, c)
    ensures ChipOk(d) && TxChain(d, c) && Posted(d.mem, c) && ChainOk(c) && c.swap == (d.csr3 & 0x0004 != 0)
    ensures Has(Fetch(d.mem, At(c, 0) + 2), STP) && Has(d.csr0, C_TXON)
    ensures HostWord(d.mem, DescAt(c, 0) + 2) == Fetch(d.mem, At(c, 0) + 2)
  {
    hide TxLaidOut, Posted, Fetch, HostWord, Desc, DescAt;
    TxLaidOutIff(d.mem, c);
    PostedFits(d.mem, c);
    SwapIs(d);
    DescIs(c, 0);
    WordIs(d.mem, At(c, 0) + 2);
  }

  lemma SenderPolls(d: Chip, c: Chain)
    requires ReadyToSend(d, c)
    ensures TxChain(d, c) && Posted(d.mem, c) && OwnedAt(d.mem, d.tx, d.txPos)
    ensures PollRing(d) == Transmit(SetCsr(d, Without(d.csr0, C_TDMD)), Fetch(d.mem, At(c, 0) + 2))
  {
    hide With, Without, Fetch, Desc, Posted, Contents, Store, Advance, Transmit, Moved, Has, ReadyToSend;
    SenderIs(d, c);
    PostedAt(d.mem, c, 0);
    OwnedAsHas(d.mem, c);
  }

  lemma OwnedAsHas(m: seq<bv16>, c: Chain)
    requires |m| == WORDS && ChainOk(c) && OwnedAt(m, c.r, Slot(c, 0))
    ensures Slot(c, 0) == c.start && Desc(c.r, c.start) == At(c, 0) && Has(Fetch(m, At(c, 0) + 2), OWN)
  {
  }

  /** The frame's bytes are collected. */
  lemma SenderGathers(d: Chip, c: Chain) returns (m: seq<bv16>)
    requires ReadyToSend(d, c)
    ensures ChipOk(d) && Posted(d.mem, c) && ChainOk(c) && |m| == WORDS && c.r == d.tx && OwnedAt(d.mem, d.tx, d.txPos)
    ensures var first := FirstStatus(d, Fetch(d.mem, At(c, 0) + 2));
            && Behind(m, d.mem, c, first, c.count - 1)
            && Gather(d.mem, d.tx, d.txPos, first, [], d.cLance, Swap(d))
               == Frame(m, Slot(c, c.count - 1), GivenBack(d.mem, c, 0, first, c.count - 1), 0, Contents(d.mem, c, 0), false)
  {
    hide Has, With, Without, BufAddr, Fetch, Desc, Posted, Behind, Gather, Contents, Store, Advance, OwnedAt, FirstStatus,
         FirstOk, Swap, ReadyToSend, Collected, GivenBack, Status, ChipOk;
    SenderIs(d, c);
    SenderPolls(d, c);
    PostedFits(d.mem, c);
    var first := FirstStatus(d, Fetch(d.mem, At(c, 0) + 2));
    FirstStatusOk(d, c);
    BehindRefl(d.mem, c, first);
    StatusStart(d.mem, c, first);
    GatherCollects(d.mem, d.mem, c, first, 0, []);
    assert [] + Contents(d.mem, c, 0) == Contents(d.mem, c, 0);
    var g := Gather(d.mem, d.tx, d.txPos, first, [], d.cLance, Swap(d));
    CollectedIs(g, d.mem, c, first, Contents(d.mem, c, 0));
    m := g.m;
  }

  lemma StatusStart(m: seq<bv16>, c: Chain, first: bv16)
    requires |m| == WORDS && ChainOk(c)
    ensures Status(m, c, first, 0) == first && Slot(c, 0) == c.start
  {
  }

  lemma CollectedIs(g: Gathered, m: seq<bv16>, c: Chain, first: bv16, data: seq<bv8>)
    requires |g.m| == WORDS == |m| && ChainOk(c) && Collected(g, m, c, first, data)
    ensures g == Frame(g.m, Slot(c, c.count - 1), GivenBack(m, c, 0, first, c.count - 1), 0, data, false)
    ensures Behind(g.m, m, c, first, c.count - 1)
  {
    hide Without, Fetch, Behind;
  }

  /** And sent on their way. */
  lemma SenderCollects(d: Chip, c: Chain) returns (m: seq<bv16>, csr0: bv16)
    requires ReadyToSend(d, c)
    ensures ChipOk(d) && Posted(d.mem, c) && ChainOk(c) && |m| == WORDS && c.r == d.tx
    ensures var first := FirstStatus(d, Fetch(d.mem, At(c, 0) + 2));
            var data := Contents(d.mem, c, 0);
            && Behind(m, d.mem, c, first, c.count - 1)
            && csr0 == Flagged(Without(d.csr0, C_TDMD), data, false)
            && PollRing(d) == Dispatch(SetCsr(Moved(d, m, Slot(c, c.count - 1)), csr0), GivenBack(d.mem, c, 0, first, c.count - 1), 0, data,
                                       Framed(d, first, data))
  {
    hide Has, Without, Fetch, Desc, Posted, Behind, Gather, Contents, OwnedAt, Framed, Flagged, FirstStatus,
         Transmit, PollRing, Swap, Dispatch, ReadyToSend, GivenBack, Moved;
    m := SenderGathers(d, c);
    SenderPolls(d, c);
    var md1 := Fetch(d.mem, At(c, 0) + 2);
    var data := Contents(d.mem, c, 0);
    var e := SetCsr(d, Without(d.csr0, C_TDMD));
    csr0 := Flagged(e.csr0, data, false);
    SameFirst(d, Without(d.csr0, C_TDMD), md1, data);
    SameModes(d, Without(d.csr0, C_TDMD));
    FrameTransmits(e, md1, m, Slot(c, c.count - 1), GivenBack(d.mem, c, 0, FirstStatus(d, md1), c.count - 1), data);
    CsrAgain(d, Without(d.csr0, C_TDMD), csr0, m, Slot(c, c.count - 1));
  }

  lemma CsrAgain(d: Chip, a: bv16, b: bv16, m: seq<bv16>, pos: nat)
    requires |m| == WORDS && pos < d.tx.size
    ensures SetCsr(Moved(SetCsr(d, a), m, pos), b) == SetCsr(Moved(d, m, pos), b)
  {
  }

  lemma FrameTransmits(d: Chip, md1: bv16, m: seq<bv16>, pos: nat, status: bv16, data: seq<bv8>)
    requires ChipOk(d) && OwnedAt(d.mem, d.tx, d.txPos) && |m| == WORDS && pos < d.tx.size
    requires Gather(d.mem, d.tx, d.txPos, FirstStatus(d, md1), [], d.cLance, Swap(d)) == Frame(m, pos, status, 0, data, false)
    ensures Transmit(d, md1) ==
            Dispatch(SetCsr(Moved(d, m, pos), Flagged(d.csr0, data, false)), status, 0, data, Framed(d, FirstStatus(d, md1), data))
  {
    hide Without, Gather, Dispatch, Framed, Flagged, Swap, OwnedAt, FirstStatus;
  }

  lemma CheckIs(crc: bv32)
    ensures Wire(crc) == CheckBytes(crc)
  {
  }

  lemma AsksIs(d: Chip, status: bv16)
    ensures AppendsFcs(d, FirstStatus(d, status)) <==> AsksForCheck(d.mode, d.cLance, status)
  {
  }

  /** The frame as it was laid out, with the check sequence behind it if one was asked for. */
  ghost predicate FrameSent(m: seq<bv16>, c: Chain, asked: bool, f: seq<bv8>)
    requires |m| == 0x80_0000 && c.r.size > 0
  {
    var n := RoomIn(m, c, c.count, 0);
    && |f| == n + (if asked then 4 else 0)
    && (forall o :: 0 <= o < n ==> f[o] == FrameByte(m, m, c, 0, o, 0, c.swap))
    && (asked ==> f[n..] == CheckBytes(Crc(f[..n])))
  }

  lemma FramedIs(d: Chip, c: Chain)
    requires ReadyToSend(d, c)
    ensures ChipOk(d) && ChainOk(c)
    ensures FrameSent(d.mem, c, AsksForCheck(d.mode, d.cLance, HostWord(d.mem, DescAt(c, 0) + 2)),
                      Framed(d, FirstStatus(d, Fetch(d.mem, At(c, 0) + 2)), Contents(d.mem, c, 0)))
  {
    hide Contents, Fetch, HostWord, Desc, DescAt, AppendsFcs, FirstStatus, AsksForCheck, ReadyToSend, Crc, Wire, CheckBytes, FrameByte;
    SenderIs(d, c);
    AsksIs(d, Fetch(d.mem, At(c, 0) + 2));
    ContentsLength(d.mem, c, 0);
    var data := Contents(d.mem, c, 0);
    CheckIs(Crc(data));
    forall o | 0 <= o < |data|
      ensures data[o] == FrameByte(d.mem, d.mem, c, 0, o, 0, c.swap)
    {
      ContentsByte(d.mem, c, 0, o);
    }
    var f := Framed(d, FirstStatus(d, Fetch(d.mem, At(c, 0) + 2)), data);
    assert f[..|data|] == data;
  }

  lemma ExternalKeeps(d: Chip, md1: bv16, md3: bv16, data: seq<bv8>, frame: seq<bv8>)
    requires ChipOk(d) && d.mode & 0x0004 == 0 && d.hasSend && |data| <= |frame| <= |data| + 4
    ensures Dispatch(d, md1, md3, data, frame).frames == d.frames + [frame]
    ensures Dispatch(d, md1, md3, data, frame).txPos == Advance(d.tx, d.txPos)
  {
    hide With, Without, Fetch, Store, Desc, Advance, Closed;
  }

  /**
   A frame laid out for sending goes out as its bytes in the buffers, descriptor by descriptor and in the byte order of
   CSR3's BSWP bit, with the check sequence behind it if one was asked for; the position moves on behind the frame.
   */
  lemma SentFromMemory(d: Chip, c: Chain)
    requires ReadyToSend(d, c) && d.mode & 0x0004 == 0 && d.hasSend
    ensures ChipOk(d) && c.r.size > 0
    ensures var d' := PollRing(d);
            && |d'.frames| == |d.frames| + 1 && d'.frames[..|d.frames|] == d.frames
            && FrameSent(d.mem, c, AsksForCheck(d.mode, d.cLance, HostWord(d.mem, DescAt(c, 0) + 2)), d'.frames[|d.frames|])
            && d'.txPos == (d.txPos + c.count) % d.tx.size
  {
    hide Contents, Fetch, HostWord, Desc, DescAt, FirstStatus, AsksForCheck, ReadyToSend, Framed, PollRing, Dispatch, FrameSent, Posted,
         Behind, GivenBack, Advance;
    SenderIs(d, c);
    FramedIs(d, c);
    var m, csr0 := SenderCollects(d, c);
    var first := FirstStatus(d, Fetch(d.mem, At(c, 0) + 2));
    ExternalKeeps(SetCsr(Moved(d, m, Slot(c, c.count - 1)), csr0), GivenBack(d.mem, c, 0, first, c.count - 1), 0,
                  Contents(d.mem, c, 0), Framed(d, first, Contents(d.mem, c, 0)));
    SlotNext(c, c.count - 1);
    SlotIs(c, c.count);
  }

  // ---------- loopback ----------

  /** Sending in internal loopback, 8 to 32 bytes, without a forced collision. */
  ghost predicate ReadyToLoop(d: Chip, c: Chain) {
    && ReadyToSend(d, c) && InternalLoop(d.mode) && d.mode & 0x0010 == 0
    && 8 <= RoomIn(d.mem, c, c.count, 0) <= 32
  }

  lemma LoopIs(d: Chip, c: Chain)
    requires ReadyToLoop(d, c)
    ensures LoopPosted(d, c) && ChainOk(c) && ChipOk(d) && |Contents(d.mem, c, 0)| == RoomIn(d.mem, c, c.count, 0)
    ensures FrameSent(d.mem, c, AsksForCheck(d.mode, d.cLance, HostWord(d.mem, DescAt(c, 0) + 2)), LoopFrame(d, c))
  {
    hide Contents, Fetch, HostWord, Desc, DescAt, FirstStatus, AsksForCheck, ReadyToSend, Framed, FrameSent, Posted, InternalLoop;
    SenderIs(d, c);
    FramedIs(d, c);
    ContentsLength(d.mem, c, 0);
    ModesAre(d.mode);
    NoCollision(d.mode);
  }

  lemma NoCollision(w: bv16)
    ensures w & 0x0010 == 0 <==> !Has(w, M_COLL)
  {
  }

  /**
   Internal loopback from memory to memory: after one poll every byte of the frame laid out for sending lies in the
   receive buffers, in its place; the descriptors used are given back with their marks and the length.
   */
  lemma LoopedInMemory(d: Chip, ct: Chain, cr: Chain) returns (frame: seq<bv8>, u: nat)
    requires ReadyToLoop(d, ct) && RingsApart(d) && AtReceiver(d, cr) && RxLaidOut(d.mem, cr)
    requires forall f :: |f| >= 6 && FrameSent(d.mem, ct, AsksForCheck(d.mode, d.cLance, HostWord(d.mem, DescAt(ct, 0) + 2)), f) ==>
               Hears(d, f) && |f| <= RoomIn(d.mem, cr, cr.count, 64)
    ensures FrameSent(d.mem, ct, AsksForCheck(d.mode, d.cLance, HostWord(d.mem, DescAt(ct, 0) + 2)), frame)
    ensures |Poll(d).mem| == 0x80_0000 && 1 <= u <= cr.count && FrameStored(Poll(d).mem, d.mem, cr, frame, |frame|, u, WrongCheck(d, frame))
    ensures forall o :: 0 <= o < RoomIn(d.mem, ct, ct.count, 0) ==>
              FrameByte(Poll(d).mem, d.mem, cr, 0, o, 64, cr.swap) == FrameByte(d.mem, d.mem, ct, 0, o, 0, ct.swap)
  {
    hide RxLaidOut, Laid, Total, Used, RoomIn, InRingOrder, RxStatus, Receive, Complete, Heard, Hears, Crc, Fetch, FrameByte,
         HostWord, DescAt, Desc, AsksForCheck, LoopFrame, LoopPosted, Poll, RingsApart, Accepts, ReadyToSend, InternalLoop, CheckBytes,
         Checked, LooksAtCheck, Has, BuffersApart, Returned, FrameSent, FrameStored;
    LoopIs(d, ct);
    LoopLength(d, ct);
    SwapIs(d);
    frame := LoopFrame(d, ct);
    RxLaidOutIff(d.mem, cr);
    ChainOf(d.mem, cr);
    HeardAccepts(d, frame);
    TotalIsRoom(d.mem, cr, 0);
    FirstRoom(d.mem, cr);
    LoopbackIsFaithful(d, ct, cr);
    u := Used(d.mem, cr, 0, |frame|);
    CheckedIs(d);
    PollMemory(d);
    StoredAsOrdered(Poll(d).mem, d.mem, cr, frame, |frame|, u, WrongCheck(d, frame));
    SentIsStored(Poll(d).mem, d.mem, ct, cr, frame, u, AsksForCheck(d.mode, d.cLance, HostWord(d.mem, DescAt(ct, 0) + 2)), WrongCheck(d, frame));
  }

  lemma SentIsStored(x: seq<bv16>, m: seq<bv16>, ct: Chain, cr: Chain, frame: seq<bv8>, u: nat, asked: bool, bad: bool)
    requires |x| == 0x80_0000 == |m| && ct.r.size > 0 && cr.r.size > 0 && u > 0
    requires FrameSent(m, ct, asked, frame) && FrameStored(x, m, cr, frame, |frame|, u, bad)
    ensures forall o :: 0 <= o < RoomIn(m, ct, ct.count, 0) ==>
              FrameByte(x, m, cr, 0, o, 64, cr.swap) == FrameByte(m, m, ct, 0, o, 0, ct.swap)
  {
    hide FrameByte, RoomIn, RxStatus, Crc, CheckBytes, HostWord, DescAt;
  }

  lemma HeardAccepts(d: Chip, buf: seq<bv8>)
    requires |buf| >= 6 && Hears(d, buf)
    ensures Accepts(d, buf)
  {
    hide Accepts, Hears;
    HeardIs(d, buf);
  }

  lemma PollMemory(d: Chip)
    requires ChipOk(d)
    ensures |Poll(d).mem| == WORDS
  {
    hide Poll;
  }

  // ---------- initialisation ----------

  /** The twelve words of the initialisation block lie where CSR1 and CSR2 say. */
  function InitWordAt(d: Chip, i: nat): bv16
    requires |d.mem| == 0x80_0000
  {
    HostWord(d.mem, (d.csr2 as nat % 256 * 65536 + d.csr1 as nat) / 2 * 2 + 2 * i)
  }

  /** The ring of two words: its address without the low three bits, and its length as a power of two in the top three. */
  predicate RingIs(r: Ring, lo: bv16, hi: bv16) {
    && r.base == (hi & 0x00FF) as nat * 65536 + (lo & 0xFFF8) as nat
    && r.size == Pow2((hi >> 13) as nat)
  }

  /** The four words of the address filter, lowest bits first. */
  predicate FilterIs(f: bv64, w4: bv16, w5: bv16, w6: bv16, w7: bv16) {
    && (f & 0xFFFF) as bv16 == w4 && ((f >> 16) & 0xFFFF) as bv16 == w5
    && ((f >> 32) & 0xFFFF) as bv16 == w6 && ((f >> 48) & 0xFFFF) as bv16 == w7
  }

  lemma AddressParts(hi: nat, lo: nat)
    requires lo < 65536
    ensures (hi * 65536 + lo) % 0x100_0000 == hi % 256 * 65536 + lo
  {
    var q, r := hi / 256, hi % 256;
    assert hi * 65536 + lo == q * 0x100_0000 + (r * 65536 + lo);
  }

  lemma InitAddrIs(d: Chip)
    ensures InitAddr(d) == (d.csr2 as nat % 256 * 65536 + d.csr1 as nat) / 2 * 2
  {
    AddressParts(d.csr2 as nat, d.csr1 as nat);
  }

  lemma InitWordIs(d: Chip, i: nat)
    requires |d.mem| == WORDS
    ensures InitWord(d, i) == InitWordAt(d, i)
  {
    hide InitAddr, HostWord, Fetch;
    InitAddrIs(d);
    WordIs(d.mem, InitAddr(d) + 2 * i);
  }

  lemma RingOfIs(lo: bv16, hi: bv16)
    ensures RingIs(RingOf(lo, hi), lo, hi)
  {
    hide RingSize, Pow2;
    TopThree(hi);
    RingSizeIs(hi >> 13);
  }

  lemma TopThree(hi: bv16)
    ensures hi >> 13 < 8
  {
  }

  lemma RingSizeIs(n: bv16)
    requires n < 8
    ensures RingSize(n) == Pow2(n as nat)
  {
    assert Pow2(0) == 1 && Pow2(1) == 2 && Pow2(2) == 4 && Pow2(3) == 8 && Pow2(4) == 16;
    assert Pow2(5) == 32 && Pow2(6) == 64 && Pow2(7) == 128;
  }

  lemma FilterFrom(w4: bv16, w5: bv16, w6: bv16, w7: bv16)
    ensures FilterIs(((w7 as bv64) << 48) | ((w6 as bv64) << 32) | ((w5 as bv64) << 16) | (w4 as bv64), w4, w5, w6, w7)
  {
  }

  lemma InitFlags(c: bv16)
    ensures var e := With(Without(c, C_INIT | C_STOP | C_STRT | C_TXON | C_RXON), C_IDON | C_INTR);
            e & 0x0037 == 0 && e & 0x0180 == 0x0180 && e & 0xFE48 == c & 0xFE48
  {
  }

  /**
   Initialisation takes mode, address, filter and both rings from the twelve words at the address in CSR1 and CSR2, starts
   both rings at their first descriptor, stops the controller and reports IDON.
   */
  lemma InitializedFromMemory(d: Chip)
    requires ChipOk(d)
    ensures var e := Initialize(d);
            && e.mode == InitWordAt(d, 0)
            && AddressIn(e.padr, InitWordAt(d, 1), InitWordAt(d, 2), InitWordAt(d, 3))
            && FilterIs(e.filter, InitWordAt(d, 4), InitWordAt(d, 5), InitWordAt(d, 6), InitWordAt(d, 7))
            && RingIs(e.rx, InitWordAt(d, 8), InitWordAt(d, 9)) && RingIs(e.tx, InitWordAt(d, 10), InitWordAt(d, 11))
            && e.rxPos == 0 && e.txPos == 0 && e.mem == d.mem
            && e.csr0 & 0x0037 == 0 && e.csr0 & 0x0180 == 0x0180 && e.csr0 & 0xFE48 == d.csr0 & 0xFE48
  {
    hide InitWord, InitWordAt, RingOf, RingIs, FilterIs, AddressIn, With, Without, Has, LowHalf, HighHalf;
    forall i: nat
      ensures InitWord(d, i) == InitWordAt(d, i)
    {
      InitWordIs(d, i);
    }
    RingOfIs(InitWord(d, 8), InitWord(d, 9));
    RingOfIs(InitWord(d, 10), InitWord(d, 11));
    FilterFrom(InitWord(d, 4), InitWord(d, 5), InitWord(d, 6), InitWord(d, 7));
    InitFlags(d.csr0);
    AddressFrom(InitWord(d, 1), InitWord(d, 2), InitWord(d, 3));
  }

  /** The six bytes of an address from three words, low halves first. */
  predicate AddressIn(a: seq<bv8>, w1: bv16, w2: bv16, w3: bv16) {
    a == [(w1 & 0x00FF) as bv8, (w1 >> 8) as bv8, (w2 & 0x00FF) as bv8, (w2 >> 8) as bv8, (w3 & 0x00FF) as bv8, (w3 >> 8) as bv8]
  }

  lemma AddressFrom(w1: bv16, w2: bv16, w3: bv16)
    ensures AddressIn([LowHalf(w1), HighHalf(w1), LowHalf(w2), HighHalf(w2), LowHalf(w3), HighHalf(w3)], w1, w2, w3)
  {
  }
}
