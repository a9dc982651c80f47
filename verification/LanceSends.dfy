/** Frames that lie in a run of transmit descriptors, and what collecting one does to the ring. */
module LanceSends {
  import opened LanceMemory
  import opened LanceRings
  import opened LanceChains

  function TxLen(m: seq<bv16>, c: Chain, i: nat): (n: nat)
    requires |m| == WORDS && c.start < c.r.size && i < c.r.size
    ensures n <= FRAME_MAX
  {
    BufLen(c.cLance, Fetch(m, At(c, i) + 4))
  }

  /** The bytes of the buffers from the `i`-th on, end to end. */
  function Contents(m: seq<bv16>, c: Chain, i: nat): (b: seq<bv8>)
    requires |m| == WORDS && c.start < c.r.size && i <= c.count <= c.r.size
    decreases c.count - i
  {
    if i == c.count then [] else Block(m, SegAddr(m, c, i), TxLen(m, c, i), c.swap) + Contents(m, c, i + 1)
  }

  /**
   A frame ready to be sent: every descriptor is the controller's, every buffer has bytes, the last one alone
   ends the packet, and no buffer shares a word with the ring.
   */
  ghost predicate Posted(m: seq<bv16>, c: Chain) {
    && |m| == WORDS && ChainOk(c)
    && (forall i :: 0 <= i < c.count ==>
          && OwnedAt(m, c.r, Slot(c, i)) && 0 < TxLen(m, c, i) && SegAddr(m, c, i) + TxLen(m, c, i) <= SPACE
          && (Has(Fetch(m, At(c, i) + 2), ENP) <==> i == c.count - 1))
    && (forall i, w: nat :: 0 <= i < c.count && Shares(SegAddr(m, c, i), TxLen(m, c, i), w) ==> !InRing(c.r, w))
    && |Contents(m, c, 0)| <= FRAME_MAX
  }

  lemma PostedAt(m: seq<bv16>, c: Chain, i: nat)
    requires Posted(m, c) && i < c.count
    ensures |m| == WORDS && ChainOk(c) && OwnedAt(m, c.r, Slot(c, i))
    ensures 0 < TxLen(m, c, i) && SegAddr(m, c, i) + TxLen(m, c, i) <= SPACE
    ensures Has(Fetch(m, At(c, i) + 2), ENP) <==> i == c.count - 1
  {
  }

  lemma PostedFits(m: seq<bv16>, c: Chain)
    requires Posted(m, c)
    ensures |m| == WORDS && ChainOk(c) && |Contents(m, c, 0)| <= FRAME_MAX
  {
  }

  /**
   Only ring words differ, and of those only the status words of descriptors before the `i`-th, which are given
   back; `first` is the first descriptor's status word as the controller uses it.
   */
  ghost predicate Behind(x: seq<bv16>, m: seq<bv16>, c: Chain, first: bv16, i: nat)
    requires |x| == WORDS == |m| && ChainOk(c) && i <= c.count
  {
    && (forall w :: 0 <= w < WORDS && !InRing(c.r, w) ==> x[w] == m[w])
    && (forall j :: 0 <= j < c.r.size ==> Fetch(x, At(c, j)) == Fetch(m, At(c, j)) && Fetch(x, At(c, j) + 4) == Fetch(m, At(c, j) + 4))
    && (forall j :: i <= j < c.r.size ==> Fetch(x, At(c, j) + 2) == Fetch(m, At(c, j) + 2))
    && (forall j :: 0 <= j < i ==> Fetch(x, At(c, j) + 2) == GivenBack(m, c, 0, first, j))
  }

  lemma BehindAt(x: seq<bv16>, m: seq<bv16>, c: Chain, first: bv16, i: nat, j: nat)
    requires |x| == WORDS == |m| && ChainOk(c) && i <= c.count && Behind(x, m, c, first, i) && j < c.r.size
    ensures Fetch(x, At(c, j)) == Fetch(m, At(c, j)) && Fetch(x, At(c, j) + 4) == Fetch(m, At(c, j) + 4)
    ensures i <= j ==> Fetch(x, At(c, j) + 2) == Fetch(m, At(c, j) + 2)
  {
  }

  /** The buffers still hold what they held. */
  lemma BufferKept(x: seq<bv16>, m: seq<bv16>, c: Chain, first: bv16, i: nat)
    requires Posted(m, c) && |x| == WORDS && i < c.count && Behind(x, m, c, first, i)
    ensures Block(x, SegAddr(m, c, i), TxLen(m, c, i), c.swap) == Block(m, SegAddr(m, c, i), TxLen(m, c, i), c.swap)
  {
    hide Block, SegAddr, TxLen, InRing, Shares, Fetch;
    PostedAt(m, c, i);
    forall w | 0 <= w < WORDS && Shares(SegAddr(m, c, i), TxLen(m, c, i), w)
      ensures x[w] == m[w]
    {
      assert !InRing(c.r, w);
    }
    BlockFrame(m, x, SegAddr(m, c, i), TxLen(m, c, i), c.swap);
  }

  /** Giving back the `i`-th descriptor. */
  lemma GiveBack(x: seq<bv16>, m: seq<bv16>, c: Chain, first: bv16, i: nat)
    requires |x| == WORDS == |m| && ChainOk(c) && i < c.count && Behind(x, m, c, first, i)
    ensures Behind(Store(x, At(c, i) + 2, GivenBack(m, c, 0, first, i)), m, c, first, i + 1)
  {
    hide Fetch, Store, GivenBack, Desc, InRing;
    var v := GivenBack(m, c, 0, first, i);
    var x' := Store(x, At(c, i) + 2, v);
    RingHasDesc(c.r, Slot(c, i), 1);
    forall w | 0 <= w < WORDS && !InRing(c.r, w)
      ensures x'[w] == x[w]
    {
      StoreKeeps(x, At(c, i) + 2, v, w);
    }
    forall j | 0 <= j < c.r.size
      ensures Fetch(x', At(c, j)) == Fetch(x, At(c, j)) && Fetch(x', At(c, j) + 4) == Fetch(x, At(c, j) + 4)
      ensures Fetch(x', At(c, j) + 2) == if j == i then v else Fetch(x, At(c, j) + 2)
    {
      if j != i {
        AtApart(c, i, j);
      }
      FetchAfterStore(x, At(c, i) + 2, v, At(c, j));
      FetchAfterStore(x, At(c, i) + 2, v, At(c, j) + 2);
      FetchAfterStore(x, At(c, i) + 2, v, At(c, j) + 4);
    }
  }

  lemma StatusKept(md1: bv16)
    ensures Has(Without(md1, OWN), ENP) == Has(md1, ENP)
    ensures forall md0 :: BufAddr(md0, Without(md1, OWN)) == BufAddr(md0, md1)
  {
    assert Without(md1, OWN) & 0xFF == md1 & 0xFF;
    assert Without(md1, OWN) & ENP == md1 & ENP;
  }

  /** The status word of the `i`-th descriptor as the controller uses it. */
  function Status(m: seq<bv16>, c: Chain, first: bv16, i: nat): bv16
    requires |m| == WORDS && c.start < c.r.size && i < c.r.size
  {
    if i == 0 then first else Fetch(m, At(c, i) + 2)
  }

  /** The first status word as read, or with a bit cleared that says nothing about the buffer. */
  predicate FirstOk(m: seq<bv16>, c: Chain, first: bv16)
    requires |m| == WORDS && c.start < c.r.size
  {
    BufAddr(Fetch(m, At(c, 0)), first) == SegAddr(m, c, 0) && Has(first, ENP) == Has(Fetch(m, At(c, 0) + 2), ENP)
  }

  lemma GatherStep(x: seq<bv16>, r: Ring, pos: nat, md1: bv16, got: seq<bv8>, cLance: bool, swap: bool, a: nat, len: nat, next: nat)
    requires |x| == WORDS && RingOk(r) && pos < r.size && OwnedAt(x, r, pos) && next == Advance(r, pos)
    requires a == BufAddr(Fetch(x, Desc(r, pos)), md1) && len == BufLen(cLance, Fetch(x, Desc(r, pos) + 4))
    requires 0 < len && |got| + len <= FRAME_MAX
    ensures var data := got + Block(x, a, len, swap);
            var g := Gather(x, r, pos, md1, got, cLance, swap);
            && (Has(md1, ENP) ==> g == Frame(x, pos, Without(md1, OWN), 0, data, false))
            && (!Has(md1, ENP) && next < r.size && next != pos && OwnedAt(x, r, next) ==>
                  var x' := Store(x, Desc(r, pos) + 2, Without(md1, OWN));
                  OwnedAt(x', r, next) && g == Gather(x', r, next, Fetch(x, Desc(r, next) + 2), data, cLance, swap))
  {
    hide Block, Fetch, Store, Desc, BufAddr, Advance, Without, Has, BufLen;
    AdvanceIs(r, pos);
    StatusKept(md1);
    CleanOwn(md1);
    if next < r.size {
      DescApart(r, pos, next);
      OwnedAfterStore(x, r, pos, Without(md1, OWN), next);
    }
  }

  /** The controller at the `i`-th descriptor: its length and address are those at the start. */
  lemma SameStep(x: seq<bv16>, m: seq<bv16>, c: Chain, first: bv16, i: nat)
    requires Posted(m, c) && |x| == WORDS && i < c.count && Behind(x, m, c, first, i) && FirstOk(m, c, first)
    ensures Advance(c.r, Slot(c, i)) == Slot(c, i + 1) && OwnedAt(x, c.r, Slot(c, i))
    ensures BufAddr(Fetch(x, At(c, i)), Status(m, c, first, i)) == SegAddr(m, c, i)
    ensures BufLen(c.cLance, Fetch(x, At(c, i) + 4)) == TxLen(m, c, i)
    ensures Has(Status(m, c, first, i), ENP) <==> i == c.count - 1
    ensures i + 1 < c.count ==> OwnedAt(x, c.r, Slot(c, i + 1)) && Fetch(x, At(c, i + 1) + 2) == Fetch(m, At(c, i + 1) + 2)
                                && Slot(c, i + 1) != Slot(c, i)
  {
    hide Fetch, Desc, BufAddr, Has, BufLen, Posted, Behind;
    PostedAt(m, c, i);
    BehindAt(x, m, c, first, i, i);
    SlotNext(c, i);
    if i + 1 < c.count {
      PostedAt(m, c, i + 1);
      BehindAt(x, m, c, first, i, i + 1);
    }
  }

  lemma ContentsStep(m: seq<bv16>, c: Chain, i: nat)
    requires |m| == WORDS && ChainOk(c) && i < c.count
    ensures Contents(m, c, i) == Block(m, SegAddr(m, c, i), TxLen(m, c, i), c.swap) + Contents(m, c, i + 1)
    ensures |Contents(m, c, i)| == TxLen(m, c, i) + |Contents(m, c, i + 1)|
    ensures i + 1 == c.count ==> Contents(m, c, i + 1) == []
  {
  }

  /** What collecting the frame of a chain leaves. */
  ghost predicate Collected(g: Gathered, m: seq<bv16>, c: Chain, first: bv16, data: seq<bv8>)
    requires |g.m| == WORDS == |m| && ChainOk(c)
  {
    && g == Frame(g.m, Slot(c, c.count - 1), Without(Status(m, c, first, c.count - 1), OWN), 0, data, false)
    && Behind(g.m, m, c, first, c.count - 1)
  }

  /**
   Collecting a posted frame gives its bytes, buffer after buffer; all descriptors but the last are given back,
   the last one stays with the caller.
   */
  lemma {:induction false} GatherCollects(x: seq<bv16>, m: seq<bv16>, c: Chain, first: bv16, i: nat, got: seq<bv8>)
    requires Posted(m, c) && |x| == WORDS && i < c.count && Behind(x, m, c, first, i) && FirstOk(m, c, first)
    requires |got| + |Contents(m, c, i)| <= FRAME_MAX
    ensures OwnedAt(x, c.r, Slot(c, i))
    ensures Collected(Gather(x, c.r, Slot(c, i), Status(m, c, first, i), got, c.cLance, c.swap), m, c, first, got + Contents(m, c, i))
    decreases c.count - i
  {
    hide Fetch, Desc, BufAddr, Has, BufLen, Posted, Behind, Gather, Contents, Block, SegAddr, TxLen, Without, OwnedAt, Store, FirstOk, Advance;
    PostedAt(m, c, i);
    SameStep(x, m, c, first, i);
    ContentsStep(m, c, i);
    BufferKept(x, m, c, first, i);
    var b := Block(m, SegAddr(m, c, i), TxLen(m, c, i), c.swap);
    GatherStep(x, c.r, Slot(c, i), Status(m, c, first, i), got, c.cLance, c.swap, SegAddr(m, c, i), TxLen(m, c, i), Slot(c, i + 1));
    assert got + b + Contents(m, c, i + 1) == got + (b + Contents(m, c, i + 1));
    if i == c.count - 1 {
      assert b + [] == b;
    } else {
      GiveBack(x, m, c, first, i);
      GatherCollects(Store(x, At(c, i) + 2, GivenBack(m, c, 0, first, i)), m, c, first, i + 1, got + b);
    }
  }
}
