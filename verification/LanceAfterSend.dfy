/** What a transmission leaves behind in memory and flags: descriptors, CSR0, and what comes back. */
module LanceAfterSend {
  import opened Crc32
  import opened LanceMemory
  import opened LanceRings
  import opened LanceChains
  import opened LanceSends
  import opened LanceChip
  import opened LanceLoopback
  import opened LanceFormat
  import opened LanceInMemory

  // ---------- descriptors and flags ----------

  /** The `j`-th descriptor's status word given back: OWN clear, and on an Am7990 ADD_FCS of the first. */
  function TxStatus(w: bv16, cLance: bool, first: bool): bv16 {
    if first && !cLance then w & 0x5FFF else w & 0x7FFF
  }

  lemma BothGone(w: bv16)
    ensures Without(Without(w, ADD_FCS), OWN) == w & 0x5FFF
  {
  }

  lemma OwnGone(w: bv16)
    ensures Without(w, OWN) == w & 0x7FFF
  {
  }

  lemma FirstGiven(d: Chip, w: bv16)
    ensures Without(FirstStatus(d, w), OWN) == TxStatus(w, d.cLance, true)
  {
    hide Without;
    BothGone(w);
    OwnGone(w);
  }

  lemma OtherGiven(w: bv16, cLance: bool)
    ensures Without(w, OWN) == TxStatus(w, cLance, false)
  {
    hide Without;
    OwnGone(w);
  }

  /** Status words given back, and the rest of the ring and memory as it was but for those words. */
  ghost predicate ChainReturned(x: seq<bv16>, m: seq<bv16>, c: Chain)
    requires |x| == 0x80_0000 == |m| && c.r.size > 0
  {
    && (forall j :: 0 <= j < c.count ==> HostWord(x, DescAt(c, j) + 2) == TxStatus(HostWord(m, DescAt(c, j) + 2), c.cLance, j == 0))
    && (forall w: nat :: w < 0x80_0000 && !InRing(c.r, w) ==> x[w] == m[w])
  }

  lemma ReturnedIs(d: Chip, c: Chain, x: seq<bv16>)
    requires |d.mem| == WORDS == |x| && ChainOk(c) && c.cLance == d.cLance
    requires Behind(x, d.mem, c, FirstStatus(d, Fetch(d.mem, At(c, 0) + 2)), c.count)
    ensures ChainReturned(x, d.mem, c)
  {
    hide Fetch, HostWord, Desc, DescAt, FirstStatus, Without, TxStatus, InRing;
    var first := FirstStatus(d, Fetch(d.mem, At(c, 0) + 2));
    forall j | 0 <= j < c.count
      ensures HostWord(x, DescAt(c, j) + 2) == TxStatus(HostWord(d.mem, DescAt(c, j) + 2), c.cLance, j == 0)
    {
      DescIs(c, j);
      WordIs(x, At(c, j) + 2);
      WordIs(d.mem, At(c, j) + 2);
      FirstGiven(d, Fetch(d.mem, At(c, 0) + 2));
      OtherGiven(Fetch(d.mem, At(c, j) + 2), c.cLance);
    }
  }

  /** TDMD clear, TINT and INTR set, and ERR and BABL for more than 1518 bytes. */
  function SentFlags(csr0: bv16, n: nat): bv16 {
    if n > 1518 then (csr0 & 0xFFF7) | 0xC280 else (csr0 & 0xFFF7) | 0x0280
  }

  lemma Babbled(c: bv16)
    ensures With(With(Without(c, C_TDMD), C_ERR | C_BABL), C_TINT | C_INTR) == (c & 0xFFF7) | 0xC280
  {
  }

  lemma NotBabbled(c: bv16)
    ensures With(Without(c, C_TDMD), C_TINT | C_INTR) == (c & 0xFFF7) | 0x0280
  {
  }

  lemma SentFlagsAre(c: bv16, data: seq<bv8>)
    ensures With(Flagged(Without(c, C_TDMD), data, false), C_TINT | C_INTR) == SentFlags(c, |data|)
  {
    hide With, Without;
    Babbled(c);
    NotBabbled(c);
  }

  lemma CompletedIs(d: Chip, md1: bv16, md3: bv16, result: Result)
    requires ChipOk(d)
    ensures var e := SendComplete(d, md1, md3, result);
            && e.mem == Closed(d.mem, Desc(d.tx, d.txPos), md1, md3, result) && e.csr0 == With(d.csr0, C_TINT | C_INTR)
            && e.frames == d.frames && e.padr == d.padr && e.lb == d.lb && e.hairpin == d.hairpin && e.tx == d.tx
            && e.txPos == Advance(d.tx, d.txPos)
  {
    hide With, Has, Desc, Advance, Closed;
  }

  /** The end of a transmission on the wire; a frame of 12 to 100 bytes to the own address is kept to be received. */
  lemma ExternalIs(d: Chip, md1: bv16, md3: bv16, data: seq<bv8>, frame: seq<bv8>)
    requires ChipOk(d) && d.mode & 0x0004 == 0 && |data| <= |frame| <= |data| + 4
    ensures var e := Dispatch(d, md1, md3, data, frame);
            && e.mem == Store(d.mem, Desc(d.tx, d.txPos) + 2, md1) && e.csr0 == With(d.csr0, C_TINT | C_INTR)
            && (if 12 <= |frame| <= 100 && frame[..6] == d.padr then e.lb == frame && e.hairpin else e.lb == d.lb && e.hairpin == d.hairpin)
  {
    hide With, Desc, Advance, Store, SendComplete;
    CompletedIs(d.(frames := if d.hasSend then d.frames + [frame] else d.frames), md1, md3, Sent);
  }

  /**
   After a frame on the wire: the chain is given back and no other word of memory changed, the flags are set, and a short
   frame to the own address waits to be received.
   */
  lemma SentLeaves(d: Chip, c: Chain)
    requires ReadyToSend(d, c) && d.mode & 0x0004 == 0 && d.hasSend
    ensures ChipOk(d) && c.r.size > 0
    ensures var d' := PollRing(d);
            && |d'.mem| == 0x80_0000 && ChainReturned(d'.mem, d.mem, c)
            && d'.csr0 == SentFlags(d.csr0, RoomIn(d.mem, c, c.count, 0))
            && |d'.frames| > |d.frames|
            && var f := d'.frames[|d.frames|];
               if 12 <= |f| <= 100 && f[..6] == d.padr then d'.lb == f && d'.hairpin else d'.lb == d.lb && d'.hairpin == d.hairpin
  {
    hide Contents, Fetch, HostWord, Desc, DescAt, FirstStatus, ReadyToSend, Framed, PollRing, Dispatch, Posted, Behind, GivenBack, Advance,
         ChainReturned, With, Without, Flagged, SentFlags, RoomIn, Store, FrameSent;
    SenderIs(d, c);
    ContentsLength(d.mem, c, 0);
    NoRoom(d.mem, c);
    var m, csr0 := SenderCollects(d, c);
    var first := FirstStatus(d, Fetch(d.mem, At(c, 0) + 2));
    var data := Contents(d.mem, c, 0);
    var e := SetCsr(Moved(d, m, Slot(c, c.count - 1)), csr0);
    FramedLength(d, first, data);
    ExternalIs(e, GivenBack(d.mem, c, 0, first, c.count - 1), 0, data, Framed(d, first, data));
    ExternalKeeps(e, GivenBack(d.mem, c, 0, first, c.count - 1), 0, data, Framed(d, first, data));
    GiveBack(m, d.mem, c, first, c.count - 1);
    SentFlagsAre(d.csr0, data);
    ReturnedIs(d, c, PollRing(d).mem);
  }

  lemma FramedLength(d: Chip, md1: bv16, data: seq<bv8>)
    ensures |data| <= |Framed(d, md1, data)| <= |data| + 4
  {
    hide Crc, Wire, AppendsFcs;
  }

  // ---------- refused loops ----------

  /** A status word with ERR set. */
  function Erred(w: bv16): bv16 {
    w | 0x4000
  }

  lemma ErrMark(w: bv16)
    ensures With(w, ERR) == Erred(w)
  {
  }

  lemma RetryMark()
    ensures With(0, TX_RTRY) == 0x0400
  {
  }

  /** A dispatch in internal loopback that is refused: forced collision, or not 8 to 32 bytes. */
  lemma RefusedIs(d: Chip, md1: bv16, data: seq<bv8>, frame: seq<bv8>)
    requires ChipOk(d) && InternalLoop(d.mode) && |data| <= |frame| <= |data| + 4
    requires d.mode & 0x0010 != 0 || |data| < 8 || |data| > 32
    ensures var e := Dispatch(d, md1, 0, data, frame);
            var a := Desc(d.tx, d.txPos);
            && e.lb == d.lb && e.frames == d.frames && e.csr0 == With(d.csr0, C_TINT | C_INTR)
            && e.mem == if d.mode & 0x0010 != 0 then Store(Store(d.mem, a + 6, 0x0400), a + 2, Erred(md1)) else Store(d.mem, a + 2, Erred(md1))
  {
    hide Has, With, Desc, Advance, Store, SendComplete, InternalLoop, Erred;
    ModesAre(d.mode);
    NoCollision(d.mode);
    ErrMark(md1);
    RetryMark();
    LoopBit(d.mode);
    CompletedIs(d, md1, 0, Collision);
    CompletedIs(d, md1, 0, BadLoopback);
  }

  lemma LoopBit(w: bv16)
    ensures InternalLoop(w) ==> Has(w, M_LOOP) && Has(w, M_INTL)
  {
  }

  /**
   A frame that internal loopback refuses goes nowhere: its last descriptor is given back with ERR, and after a forced
   collision with RTRY in its last word.
   */
  lemma LoopRefused(d: Chip, c: Chain)
    requires ReadyToSend(d, c) && InternalLoop(d.mode)
    requires d.mode & 0x0010 != 0 || RoomIn(d.mem, c, c.count, 0) < 8 || RoomIn(d.mem, c, c.count, 0) > 32
    ensures ChipOk(d) && c.r.size > 0
    ensures var d' := PollRing(d);
            && |d'.mem| == 0x80_0000 && d'.frames == d.frames && d'.lb == d.lb
            && HostWord(d'.mem, DescAt(c, c.count - 1) + 2)
               == Erred(TxStatus(HostWord(d.mem, DescAt(c, c.count - 1) + 2), c.cLance, c.count == 1))
            && (d.mode & 0x0010 != 0 ==> HostWord(d'.mem, DescAt(c, c.count - 1) + 6) == 0x0400)
            && d'.csr0 == SentFlags(d.csr0, RoomIn(d.mem, c, c.count, 0))
  {
    hide Contents, Fetch, HostWord, Desc, DescAt, FirstStatus, ReadyToSend, Framed, PollRing, Dispatch, Posted, Behind, Advance,
         With, Without, Flagged, SentFlags, RoomIn, Store, InternalLoop, TxStatus, Erred;
    SenderIs(d, c);
    ContentsLength(d.mem, c, 0);
    NoRoom(d.mem, c);
    var m, csr0 := SenderCollects(d, c);
    var k := c.count - 1;
    var w0 := Fetch(d.mem, At(c, 0) + 2);
    var first := FirstStatus(d, w0);
    var data := Contents(d.mem, c, 0);
    var e := SetCsr(Moved(d, m, Slot(c, k)), csr0);
    var status := GivenBack(d.mem, c, 0, first, k);
    FramedLength(d, first, data);
    RefusedIs(e, status, data, Framed(d, first, data));
    SentFlagsAre(d.csr0, data);
    DescIs(c, k);
    WordIs(d.mem, At(c, k) + 2);
    WordIs(PollRing(d).mem, At(c, k) + 2);
    WordIs(PollRing(d).mem, At(c, k) + 6);
    FirstGiven(d, w0);
    OtherGiven(Fetch(d.mem, At(c, k) + 2), c.cLance);
    LastWords(m, At(c, k), Erred(status));
  }

  lemma LastWords(m: seq<bv16>, a: nat, v: bv16)
    requires |m| == WORDS && a + 8 <= SPACE && a % 2 == 0
    ensures Fetch(Store(m, a + 2, v), a + 2) == v
    ensures var x := Store(Store(m, a + 6, 0x0400), a + 2, v); Fetch(x, a + 2) == v && Fetch(x, a + 6) == 0x0400
  {
  }

  // ---------- a chain that ends early ----------

  /** A descriptor at the transmit position with start mark and bytes but no end mark, and none handed over behind it. */
  ghost predicate CutShort(d: Chip, c: Chain) {
    && ChipOk(d) && AtSender(d, c) && ChainInRing(c) && c.count == 1 && d.csr0 & 0x0010 != 0
    && HandedOver(d.mem, c, 0) && BufferLength(d.mem, c, 0, 0) > 0
    && HostWord(d.mem, DescAt(c, 0) + 2) & 0x0200 != 0 && HostWord(d.mem, DescAt(c, 0) + 2) & 0x0100 == 0
    && (c.r.size == 1 || !HandedOver(d.mem, c, 1))
  }

  lemma CutShortIs(d: Chip, c: Chain)
    requires CutShort(d, c)
    ensures ChainOk(c) && c.r == d.tx && At(c, 0) == Desc(d.tx, d.txPos) && OwnedAt(d.mem, d.tx, d.txPos)
    ensures TurnLen(d.mem, d.tx, d.txPos, d.cLance) > 0
    ensures Advance(d.tx, d.txPos) < d.tx.size
    ensures Desc(d.tx, Advance(d.tx, d.txPos)) == Desc(d.tx, d.txPos) || !Has(Fetch(d.mem, Desc(d.tx, Advance(d.tx, d.txPos)) + 2), OWN)
    ensures HostWord(d.mem, DescAt(c, 0) + 2) == Fetch(d.mem, At(c, 0) + 2)
  {
    hide Fetch, HostWord, Desc, DescAt, BufferLength, BufLen, HandedOver, Has;
    assert ChainOk(c);
    StartSlot(c);
    DescIs(c, 0);
    WordIs(d.mem, At(c, 0) + 2);
    OwnedIs(d.mem, c, 0);
    BufferIs(d.mem, c, 0);
    SlotNext(c, 0);
    AdvanceIs(d.tx, d.txPos);
    if c.r.size > 1 {
      OwnedIs(d.mem, c, 1);
    }
  }

  lemma MarksOf(w: bv16)
    ensures Has(w, C_TXON) <==> w & 0x0010 != 0
    ensures Has(w, STP) <==> w & 0x0200 != 0
    ensures Has(Without(w, OWN), ENP) <==> w & 0x0100 != 0
    ensures Has(Without(Without(w, ADD_FCS), OWN), ENP) <==> w & 0x0100 != 0
  {
  }

  lemma PollsCut(d: Chip, c: Chain)
    requires CutShort(d, c)
    ensures OwnedAt(d.mem, d.tx, d.txPos)
    ensures PollRing(d) == Transmit(SetCsr(d, Without(d.csr0, C_TDMD)), Fetch(d.mem, At(c, 0) + 2))
  {
    hide Has, With, Without, Fetch, Desc, Store, Advance, Transmit, Moved, CutShort, HostWord, DescAt;
    CutParts(d, c);
    CutShortIs(d, c);
    MarksOf(d.csr0);
    MarksOf(Fetch(d.mem, At(c, 0) + 2));
  }

  lemma CutParts(d: Chip, c: Chain)
    requires CutShort(d, c)
    ensures ChipOk(d) && d.csr0 & 0x0010 != 0 && c.cLance == d.cLance && c.r.size > 0
    ensures HostWord(d.mem, DescAt(c, 0) + 2) & 0x0200 != 0 && HostWord(d.mem, DescAt(c, 0) + 2) & 0x0100 == 0
  {
    hide HostWord, DescAt, HandedOver, BufferLength;
  }

  lemma CutGathers(d: Chip, c: Chain) returns (data: seq<bv8>)
    requires CutShort(d, c)
    ensures ChipOk(d) && ChainOk(c) && OwnedAt(d.mem, d.tx, d.txPos)
    ensures var first := FirstStatus(d, Fetch(d.mem, At(c, 0) + 2));
            Gather(d.mem, d.tx, d.txPos, first, [], d.cLance, Swap(d))
            == Frame(Store(d.mem, At(c, 0) + 6, 0xC000), d.txPos, With(Without(first, OWN), ERR), 0xC000, data, true)
  {
    hide Has, With, Without, Fetch, Desc, Store, Advance, Gather, TurnLen, TurnData, CutShort, HostWord, DescAt, Swap;
    CutParts(d, c);
    CutShortIs(d, c);
    var w := Fetch(d.mem, At(c, 0) + 2);
    var first := FirstStatus(d, w);
    MarksOf(w);
    GatherTurn(d.mem, d.tx, d.txPos, first, [], d.cLance, Swap(d));
    CleanOwn(first);
    data := TurnData(d.mem, d.tx, d.txPos, Without(first, OWN), [], d.cLance, Swap(d));
  }

  lemma CutTransmits(d: Chip, md1: bv16, m: seq<bv16>, pos: nat, status: bv16, md3: bv16, data: seq<bv8>)
    requires ChipOk(d) && OwnedAt(d.mem, d.tx, d.txPos) && |m| == WORDS && pos < d.tx.size
    requires Gather(d.mem, d.tx, d.txPos, FirstStatus(d, md1), [], d.cLance, Swap(d)) == Frame(m, pos, status, md3, data, true)
    ensures Transmit(d, md1) ==
            Dispatch(SetCsr(Moved(d, m, pos), Flagged(d.csr0, data, true)), status, md3, data, Framed(d, FirstStatus(d, md1), data))
  {
    hide Without, Gather, Dispatch, Framed, Flagged, Swap, OwnedAt, FirstStatus;
  }

  lemma TxOff(c: bv16, data: seq<bv8>)
    ensures With(Flagged(c, data, true), C_TINT | C_INTR) & 0x0010 == 0
  {
    hide With, Without;
    OffStays(Without(c, C_TXON));
    OffFirst(c);
  }

  lemma OffStays(c: bv16)
    ensures c & 0x0010 == 0 ==> With(c, C_TINT | C_INTR) & 0x0010 == 0 && With(With(c, C_ERR | C_BABL), C_TINT | C_INTR) & 0x0010 == 0
  {
  }

  lemma OffFirst(c: bv16)
    ensures Without(c, C_TXON) & 0x0010 == 0
  {
  }

  /**
   A chain that ends early, on the wire: the descriptor is given back with ERR, its last word says BUFF and UFLO, and the
   transmitter is switched off.
   */
  lemma UnderrunStops(d: Chip, c: Chain)
    requires CutShort(d, c) && d.mode & 0x0004 == 0
    ensures ChipOk(d) && c.r.size > 0
    ensures var d' := PollRing(d);
            && |d'.mem| == 0x80_0000 && d'.csr0 & 0x0010 == 0
            && HostWord(d'.mem, DescAt(c, 0) + 2) == Erred(TxStatus(HostWord(d.mem, DescAt(c, 0) + 2), c.cLance, true))
            && HostWord(d'.mem, DescAt(c, 0) + 6) == 0xC000
  {
    hide Has, With, Without, Fetch, Desc, Store, Advance, Gather, CutShort, HostWord, DescAt, FirstStatus, PollRing, Transmit, Dispatch,
         Framed, Flagged, Swap, OwnedAt, Erred, TxStatus;
    CutParts(d, c);
    CutShortIs(d, c);
    PollsCut(d, c);
    var e := SetCsr(d, Without(d.csr0, C_TDMD));
    var w := Fetch(d.mem, At(c, 0) + 2);
    var data := CutGathers(d, c);
    SameFirst(d, Without(d.csr0, C_TDMD), w, data);
    SameModes(d, Without(d.csr0, C_TDMD));
    var first := FirstStatus(d, w);
    var m, status := Store(d.mem, At(c, 0) + 6, 0xC000), With(Without(first, OWN), ERR);
    CutTransmits(e, w, m, d.txPos, status, 0xC000, data);
    var e1 := SetCsr(Moved(e, m, d.txPos), Flagged(e.csr0, data, true));
    FramedLength(e, first, data);
    ExternalIs(e1, status, 0xC000, data, Framed(e, first, data));
    TxOff(e.csr0, data);
    FirstGiven(d, w);
    ErrMark(Without(first, OWN));
    WordIs(PollRing(d).mem, At(c, 0) + 2);
    WordIs(PollRing(d).mem, At(c, 0) + 6);
    DescIs(c, 0);
    UnderrunWords(d.mem, At(c, 0), status);
  }

  lemma UnderrunWords(m: seq<bv16>, a: nat, v: bv16)
    requires |m| == WORDS && a + 8 <= SPACE && a % 2 == 0
    ensures var x := Store(Store(m, a + 6, 0xC000), a + 2, v); Fetch(x, a + 2) == v && Fetch(x, a + 6) == 0xC000
  {
  }

  // ---------- time ----------

  /** The transmit ring is looked at when the counter runs out, and the counter then starts at 19200 cycles again. */
  lemma TickPolls(d: Chip, cycles: int)
    requires ChipOk(d)
    ensures cycles > 0 && 0 < d.poll <= cycles ==> Tick(d, cycles) == Poll(d.(poll := 19200))
    ensures cycles > 0 && d.poll > cycles ==> Tick(d, cycles) == d.(poll := d.poll - cycles)
    ensures cycles <= 0 || d.poll <= 0 ==> Tick(d, cycles) == d
  {
    hide Poll;
  }
}
