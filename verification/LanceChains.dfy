/** Runs of descriptors that do not disturb each other: what a frame scattered over them leaves in memory. */
module LanceChains {
  import opened Numbers
  import opened LanceMemory
  import opened LanceRings

  /** `count` descriptors of a ring, from position `start` on. */
  datatype Chain = Chain(r: Ring, start: nat, count: nat, cLance: bool, swap: bool)

  ghost predicate ChainOk(c: Chain) {
    RingOk(c.r) && c.start < c.r.size && 1 <= c.count <= c.r.size
  }

  /** The ring position of the `i`-th descriptor. */
  function Slot(c: Chain, i: nat): (p: nat)
    requires c.start < c.r.size && i <= c.r.size
    ensures p < c.r.size
  {
    if c.start + i < c.r.size then c.start + i else c.start + i - c.r.size
  }

  function At(c: Chain, i: nat): (d: nat)
    requires c.start < c.r.size && i <= c.r.size
    ensures d + 8 <= SPACE && d % 2 == 0
  {
    Desc(c.r, Slot(c, i))
  }

  lemma SlotNext(c: Chain, i: nat)
    requires ChainOk(c) && i < c.r.size
    ensures Advance(c.r, Slot(c, i)) == Slot(c, i + 1)
    ensures i + 1 == c.r.size ==> Slot(c, i + 1) == c.start
  {
    AdvanceIs(c.r, Slot(c, i));
  }

  lemma AtApart(c: Chain, i: nat, j: nat)
    requires ChainOk(c) && i < c.r.size && j < c.r.size && i != j
    ensures At(c, i) != At(c, j) && (At(c, i) + 8 <= At(c, j) || At(c, j) + 8 <= At(c, i))
  {
    DescApart(c.r, Slot(c, i), Slot(c, j));
  }

  /** Word `w` belongs to the descriptors of a ring. */
  predicate InRing(r: Ring, w: nat) {
    (w + WORDS - r.base / 2) % WORDS < 4 * r.size
  }

  lemma RingHasDesc(r: Ring, pos: nat, k: nat)
    requires RingOk(r) && pos < r.size && k < 4
    ensures InRing(r, Desc(r, pos) / 2 + k)
  {
  }

  // ---------- receive buffers ----------

  function SegAddr(m: seq<bv16>, c: Chain, i: nat): (a: nat)
    requires |m| == WORDS && c.start < c.r.size && i < c.r.size
    ensures a < SPACE
  {
    BufAddr(Fetch(m, At(c, i)), Fetch(m, At(c, i) + 2))
  }

  function SegLen(m: seq<bv16>, c: Chain, i: nat): (n: nat)
    requires |m| == WORDS && c.start < c.r.size && i < c.r.size
    ensures 0 < n <= FRAME_MAX
  {
    RxLen(c.cLance, Fetch(m, At(c, i) + 4))
  }

  /** Word `w` belongs to the `i`-th buffer. */
  predicate InSeg(m: seq<bv16>, c: Chain, i: nat, w: nat)
    requires |m| == WORDS && c.start < c.r.size && i < c.r.size
  {
    Shares(SegAddr(m, c, i), SegLen(m, c, i), w)
  }

  /** The buffers of the chain fit the address space, share no word, and share none with the ring. */
  ghost predicate Laid(m: seq<bv16>, c: Chain) {
    && |m| == WORDS && ChainOk(c)
    && (forall i :: 0 <= i < c.count ==> OwnedAt(m, c.r, Slot(c, i)) && SegAddr(m, c, i) + SegLen(m, c, i) <= SPACE)
    && (forall i, w: nat :: 0 <= i < c.count && InSeg(m, c, i, w) ==> !InRing(c.r, w))
    && (forall i, j, w: nat :: 0 <= i < j < c.count && InSeg(m, c, i, w) ==> !InSeg(m, c, j, w))
  }

  /** The bytes the buffers from the `i`-th on can take. */
  function Total(m: seq<bv16>, c: Chain, i: nat): nat
    requires |m| == WORDS && c.start < c.r.size && i <= c.count <= c.r.size
    decreases c.count - i
  {
    if i == c.count then 0 else SegLen(m, c, i) + Total(m, c, i + 1)
  }

  /** How many buffers from the `i`-th on `n` bytes take. */
  function Used(m: seq<bv16>, c: Chain, i: nat, n: nat): (u: nat)
    requires |m| == WORDS && c.start < c.r.size && i <= c.count <= c.r.size
    ensures u <= c.count - i
    decreases c.count - i
  {
    if i == c.count || n == 0 then 0
    else if n <= SegLen(m, c, i) then 1
    else 1 + Used(m, c, i + 1, n - SegLen(m, c, i))
  }

  /** The first `n` bytes of the buffers from the `i`-th on, end to end, as memory `x` holds them. */
  function Read(x: seq<bv16>, m: seq<bv16>, c: Chain, i: nat, n: nat): (b: seq<bv8>)
    requires |x| == WORDS == |m| && c.start < c.r.size && i <= c.count <= c.r.size
    decreases c.count - i
  {
    if i == c.count || n == 0 then []
    else if n <= SegLen(m, c, i) then Block(x, SegAddr(m, c, i), n, c.swap)
    else Block(x, SegAddr(m, c, i), SegLen(m, c, i), c.swap) + Read(x, m, c, i + 1, n - SegLen(m, c, i))
  }

  /** Word `w` belongs to a buffer from the `i`-th on, or is the status word of such a descriptor. */
  predicate Touched(m: seq<bv16>, c: Chain, i: nat, w: nat)
    requires |m| == WORDS && c.start < c.r.size && i <= c.count <= c.r.size
    decreases c.count - i
  {
    i < c.count && (InSeg(m, c, i, w) || 2 * w == At(c, i) + 2 || Touched(m, c, i + 1, w))
  }

  /** Nothing but buffers and status words from the `i`-th descriptor on differs. */
  ghost predicate Kept(x: seq<bv16>, x': seq<bv16>, m: seq<bv16>, c: Chain, i: nat)
    requires |x| == WORDS == |x'| && |m| == WORDS && c.start < c.r.size && i <= c.count <= c.r.size
  {
    forall w :: 0 <= w < WORDS && !Touched(m, c, i, w) ==> x'[w] == x[w]
  }

  /** The descriptors still say what they said at the start; from the `i`-th on their status words too. */
  ghost predicate Agree(x: seq<bv16>, m: seq<bv16>, c: Chain, i: nat)
    requires |x| == WORDS == |m| && ChainOk(c)
  {
    && (forall j :: 0 <= j < c.count ==> Fetch(x, At(c, j)) == Fetch(m, At(c, j)) && Fetch(x, At(c, j) + 4) == Fetch(m, At(c, j) + 4))
    && (forall j :: i <= j < c.r.size ==> Fetch(x, At(c, j) + 2) == Fetch(m, At(c, j) + 2))
    && (i > 0 ==> !OwnedAt(x, c.r, c.start))
  }

  // ---------- one step ----------

  lemma SegNotRing(m: seq<bv16>, c: Chain, i: nat, pos: nat, k: nat)
    requires Laid(m, c) && i < c.count && pos < c.r.size && k < 4
    ensures !InSeg(m, c, i, Desc(c.r, pos) / 2 + k)
  {
    RingHasDesc(c.r, pos, k);
  }

  /** Writing into the `i`-th buffer leaves every descriptor as it was. */
  lemma FillKeepsDescs(x: seq<bv16>, m: seq<bv16>, c: Chain, i: nat, d: seq<bv8>, pos: nat, k: nat)
    requires Laid(m, c) && |x| == WORDS && i < c.count && |d| <= SegLen(m, c, i) && pos < c.r.size && k < 4
    ensures Fetch(OutBlock(x, SegAddr(m, c, i), d, c.swap), Desc(c.r, pos) + 2 * k) == Fetch(x, Desc(c.r, pos) + 2 * k)
  {
    hide Desc, OutBlock, SegAddr, SegLen, InRing;
    SegNotRing(m, c, i, pos, k);
    OutBlockKeeps(x, SegAddr(m, c, i), d, c.swap, Desc(c.r, pos) / 2 + k);
    FetchIs(x, Desc(c.r, pos) + 2 * k);
    FetchIs(OutBlock(x, SegAddr(m, c, i), d, c.swap), Desc(c.r, pos) + 2 * k);
  }

  lemma ScatterStep(x: seq<bv16>, r: Ring, pos: nat, md1: bv16, rest: seq<bv8>, cLance: bool, swap: bool)
    requires |x| == WORDS && RingOk(r) && pos < r.size && rest != []
    ensures Advance(r, pos) < r.size
    ensures var d, next := Desc(r, pos), Advance(r, pos);
            var len := RxLen(cLance, Fetch(x, d + 4));
            var count := if |rest| < len then |rest| else len;
            var x1 := OutBlock(x, BufAddr(Fetch(x, d), md1), rest[..count], swap);
            var ahead := TurnAhead(x1, r, pos, next, Without(md1, OWN));
            Scatter(x, r, pos, md1, rest, cLance, swap)
            == if count == |rest| then Scattered(x1, pos, Without(md1, OWN), [])
               else if Has(ahead, OWN) then Scatter(Store(x1, d + 2, Without(md1, OWN)), r, next, ahead, rest[count..], cLance, swap)
               else Scattered(x1, pos, With(Without(md1, OWN), RX_BUFF), rest[count..])
  {
    hide Has, With, Without, Fetch, Store, Desc, BufAddr, RxLen, OutBlock, TurnAhead;
    AdvanceIs(r, pos);
    hide Advance;
  }

  lemma AgreeAt(x: seq<bv16>, m: seq<bv16>, c: Chain, i: nat)
    requires |x| == WORDS == |m| && ChainOk(c) && Agree(x, m, c, i) && i < c.count
    ensures Fetch(x, At(c, i)) == Fetch(m, At(c, i)) && Fetch(x, At(c, i) + 4) == Fetch(m, At(c, i) + 4)
    ensures RxLen(c.cLance, Fetch(x, At(c, i) + 4)) == SegLen(m, c, i)
  {
  }

  /** The step of the `i`-th descriptor when the rest of the frame fits its buffer. */
  lemma StepLast(x: seq<bv16>, m: seq<bv16>, c: Chain, i: nat, md1: bv16, rest: seq<bv8>)
    requires |x| == WORDS == |m| && ChainOk(c) && Agree(x, m, c, i) && i < c.count && 0 < |rest| <= SegLen(m, c, i)
    requires BufAddr(Fetch(m, At(c, i)), md1) == SegAddr(m, c, i)
    ensures Scatter(x, c.r, Slot(c, i), md1, rest, c.cLance, c.swap)
            == Scattered(OutBlock(x, SegAddr(m, c, i), rest, c.swap), Slot(c, i), Without(md1, OWN), [])
  {
    hide Has, With, Without, Fetch, Store, BufAddr, RxLen, OutBlock, Scatter, Advance, Agree, SegAddr, SegLen;
    AgreeAt(x, m, c, i);
    ScatterStep(x, c.r, Slot(c, i), md1, rest, c.cLance, c.swap);
    assert rest[..|rest|] == rest;
  }

  /** Either every byte finds a buffer, or the descriptor behind the chain is not the controller's. */
  ghost predicate Ends(m: seq<bv16>, c: Chain, i: nat, n: nat)
    requires |m| == WORDS && ChainOk(c) && i <= c.count
  {
    n > Total(m, c, i) ==> c.count == c.r.size || !OwnedAt(m, c.r, Slot(c, c.count))
  }

  /** The status word of the `j`-th descriptor once the controller has given it back, when filling began at the `i`-th. */
  function GivenBack(m: seq<bv16>, c: Chain, i: nat, md1: bv16, j: nat): bv16
    requires |m| == WORDS && c.start < c.r.size && j < c.r.size
  {
    Without(if j == i then md1 else Fetch(m, At(c, j) + 2), OWN)
  }

  /** What filling from the `i`-th descriptor on leaves, when `n` of the bytes found room in `u` buffers. */
  ghost predicate Delivered(x: seq<bv16>, s: Scattered, m: seq<bv16>, c: Chain, i: nat, md1: bv16, rest: seq<bv8>, n: nat, u: nat)
    requires |x| == WORDS && |s.m| == WORDS && |m| == WORDS && ChainOk(c) && i < c.count && n <= |rest|
  {
    && 1 <= u && i + u <= c.count
    && s.left == rest[n..] && Read(s.m, m, c, i, n) == rest[..n]
    && s.pos == Slot(c, i + u - 1)
    && s.md1 == (if n == |rest| then GivenBack(m, c, i, md1, i + u - 1) else With(GivenBack(m, c, i, md1, i + u - 1), RX_BUFF))
    && Kept(x, s.m, m, c, i)
    && forall j :: i <= j < i + u - 1 ==> Fetch(s.m, At(c, j) + 2) == GivenBack(m, c, i, md1, j)
  }

  lemma LaidAt(m: seq<bv16>, c: Chain, i: nat)
    requires Laid(m, c) && i < c.count
    ensures |m| == WORDS && ChainOk(c) && OwnedAt(m, c.r, Slot(c, i)) && SegAddr(m, c, i) + SegLen(m, c, i) <= SPACE
  {
  }

  lemma FillKept(x: seq<bv16>, m: seq<bv16>, c: Chain, i: nat, d: seq<bv8>)
    requires Laid(m, c) && |x| == WORDS && i < c.count && |d| <= SegLen(m, c, i)
    ensures Kept(x, OutBlock(x, SegAddr(m, c, i), d, c.swap), m, c, i)
  {
    hide OutBlock, SegLen, SegAddr, Laid;
    LaidAt(m, c, i);
    var a := SegAddr(m, c, i);
    forall w | 0 <= w < WORDS && !Touched(m, c, i, w)
      ensures OutBlock(x, a, d, c.swap)[w] == x[w]
    {
      OutBlockKeeps(x, a, d, c.swap, w);
    }
  }

  lemma FillRead(x: seq<bv16>, m: seq<bv16>, c: Chain, i: nat, d: seq<bv8>)
    requires Laid(m, c) && |x| == WORDS && i < c.count && 0 < |d| <= SegLen(m, c, i)
    ensures Read(OutBlock(x, SegAddr(m, c, i), d, c.swap), m, c, i, |d|) == d
  {
    hide OutBlock, SegLen, SegAddr, Laid, Block;
    LaidAt(m, c, i);
    InInvertsOut(x, SegAddr(m, c, i), d, c.swap);
  }

  /** The frame ends in this buffer. */
  lemma DeliverLast(x: seq<bv16>, m: seq<bv16>, c: Chain, i: nat, md1: bv16, rest: seq<bv8>)
    requires Laid(m, c) && |x| == WORDS && Agree(x, m, c, i) && i < c.count && rest != [] && |rest| <= SegLen(m, c, i)
    requires BufAddr(Fetch(m, At(c, i)), md1) == SegAddr(m, c, i)
    ensures Used(m, c, i, |rest|) == 1
    ensures Delivered(x, Scatter(x, c.r, Slot(c, i), md1, rest, c.cLance, c.swap), m, c, i, md1, rest, |rest|, 1)
  {
    hide Has, With, Without, Fetch, BufAddr, OutBlock, Scatter, Kept, Read, Laid, Agree, SegAddr, SegLen;
    LaidAt(m, c, i);
    StepLast(x, m, c, i, md1, rest);
    FillRead(x, m, c, i, rest);
    FillKept(x, m, c, i, rest);
    assert rest[|rest|..] == [] && rest[..|rest|] == rest;
  }

  /** What the controller sees of the next descriptor once the `i`-th buffer is full. */
  lemma Ahead(x: seq<bv16>, m: seq<bv16>, c: Chain, i: nat, md1: bv16, d: seq<bv8>)
    requires Laid(m, c) && |x| == WORDS && Agree(x, m, c, i) && i < c.count && |d| <= SegLen(m, c, i)
    ensures Advance(c.r, Slot(c, i)) == Slot(c, i + 1)
    ensures var ahead := NextStatus(x, m, c, i, md1, d);
            && (i + 1 < c.count ==> Has(ahead, OWN) && ahead == Fetch(m, At(c, i + 1) + 2))
            && (i + 1 == c.count && (c.count == c.r.size || !OwnedAt(m, c.r, Slot(c, c.count))) ==> !Has(ahead, OWN))
  {
    hide Has, Without, Fetch, OutBlock, SegAddr, SegLen, Desc, Advance, InSeg, InRing;
    SlotNext(c, i);
    CleanOwn(md1);
    FillKeepsDescs(x, m, c, i, d, Slot(c, i + 1), 1);
    if i + 1 < c.r.size {
      AtApart(c, i, i + 1);
    } else if i > 0 {
      AtApart(c, i, 0);
    }
  }

  /** Memory when the `i`-th buffer is full and its descriptor given back. */
  function Filled(x: seq<bv16>, m: seq<bv16>, c: Chain, i: nat, md1: bv16, rest: seq<bv8>): (x': seq<bv16>)
    requires |x| == WORDS == |m| && c.start < c.r.size && i < c.r.size && SegLen(m, c, i) <= |rest|
    ensures |x'| == WORDS
  {
    Store(OutBlock(x, SegAddr(m, c, i), rest[..SegLen(m, c, i)], c.swap), Desc(c.r, Slot(c, i)) + 2, Without(md1, OWN))
  }

  /** The status word the controller looks at when the `i`-th buffer is full. */
  function NextStatus(x: seq<bv16>, m: seq<bv16>, c: Chain, i: nat, md1: bv16, d: seq<bv8>): bv16
    requires |x| == WORDS == |m| && c.start < c.r.size && i < c.r.size
  {
    TurnAhead(OutBlock(x, SegAddr(m, c, i), d, c.swap), c.r, Slot(c, i), Slot(c, i + 1), Without(md1, OWN))
  }

  lemma ScatterMore(x: seq<bv16>, r: Ring, pos: nat, md1: bv16, rest: seq<bv8>, cLance: bool, swap: bool, a: nat, len: nat, next: nat)
    requires |x| == WORDS && RingOk(r) && pos < r.size && len < |rest| && next == Advance(r, pos)
    requires a == BufAddr(Fetch(x, Desc(r, pos)), md1) && len == RxLen(cLance, Fetch(x, Desc(r, pos) + 4))
    ensures next < r.size
    ensures var x1 := OutBlock(x, a, rest[..len], swap);
            var ahead := TurnAhead(x1, r, pos, next, Without(md1, OWN));
            var s := Scatter(x, r, pos, md1, rest, cLance, swap);
            && (Has(ahead, OWN) ==>
                  s == Scatter(Store(x1, Desc(r, pos) + 2, Without(md1, OWN)), r, next, ahead, rest[len..], cLance, swap))
            && (!Has(ahead, OWN) ==> s == Scattered(x1, pos, With(Without(md1, OWN), RX_BUFF), rest[len..]))
  {
    hide Has, With, Without, Fetch, Store, Desc, BufAddr, RxLen, OutBlock, Scatter, Advance, TurnAhead;
    ScatterStep(x, r, pos, md1, rest, cLance, swap);
  }

  /** A step with more than the buffer takes, onward. */
  lemma MoreOn(x: seq<bv16>, m: seq<bv16>, c: Chain, i: nat, md1: bv16, rest: seq<bv8>)
    requires |x| == WORDS == |m| && ChainOk(c) && Agree(x, m, c, i) && i < c.count && SegLen(m, c, i) < |rest|
    requires BufAddr(Fetch(m, At(c, i)), md1) == SegAddr(m, c, i)
    requires Has(NextStatus(x, m, c, i, md1, rest[..SegLen(m, c, i)]), OWN)
    ensures Scatter(x, c.r, Slot(c, i), md1, rest, c.cLance, c.swap)
            == Scatter(Filled(x, m, c, i, md1, rest), c.r, Slot(c, i + 1), NextStatus(x, m, c, i, md1, rest[..SegLen(m, c, i)]),
                       rest[SegLen(m, c, i)..], c.cLance, c.swap)
  {
    hide Has, With, Without, Fetch, Store, BufAddr, RxLen, OutBlock, Scatter, Advance, Agree, SegAddr, SegLen, Desc, Slot, TurnAhead;
    SlotNext(c, i);
    AgreeAt(x, m, c, i);
    ScatterMore(x, c.r, Slot(c, i), md1, rest, c.cLance, c.swap, SegAddr(m, c, i), SegLen(m, c, i), Slot(c, i + 1));
  }

  /** And a step that ends the filling. */
  lemma MoreStops(x: seq<bv16>, m: seq<bv16>, c: Chain, i: nat, md1: bv16, rest: seq<bv8>)
    requires |x| == WORDS == |m| && ChainOk(c) && Agree(x, m, c, i) && i < c.count && SegLen(m, c, i) < |rest|
    requires BufAddr(Fetch(m, At(c, i)), md1) == SegAddr(m, c, i)
    requires !Has(NextStatus(x, m, c, i, md1, rest[..SegLen(m, c, i)]), OWN)
    ensures Scatter(x, c.r, Slot(c, i), md1, rest, c.cLance, c.swap)
            == Scattered(OutBlock(x, SegAddr(m, c, i), rest[..SegLen(m, c, i)], c.swap), Slot(c, i),
                         With(Without(md1, OWN), RX_BUFF), rest[SegLen(m, c, i)..])
  {
    hide Has, With, Without, Fetch, Store, BufAddr, RxLen, OutBlock, Scatter, Advance, Agree, SegAddr, SegLen, Desc, Slot, TurnAhead;
    SlotNext(c, i);
    AgreeAt(x, m, c, i);
    ScatterMore(x, c.r, Slot(c, i), md1, rest, c.cLance, c.swap, SegAddr(m, c, i), SegLen(m, c, i), Slot(c, i + 1));
  }

  /** The step of the `i`-th descriptor when there is more than its buffer takes and the next one is the controller's. */
  lemma StepOn(x: seq<bv16>, m: seq<bv16>, c: Chain, i: nat, md1: bv16, rest: seq<bv8>)
    requires Laid(m, c) && |x| == WORDS && Agree(x, m, c, i) && i + 1 < c.count && SegLen(m, c, i) < |rest|
    requires BufAddr(Fetch(m, At(c, i)), md1) == SegAddr(m, c, i)
    ensures Scatter(x, c.r, Slot(c, i), md1, rest, c.cLance, c.swap)
            == Scatter(Filled(x, m, c, i, md1, rest), c.r, Slot(c, i + 1), Fetch(m, At(c, i + 1) + 2),
                       rest[SegLen(m, c, i)..], c.cLance, c.swap)
  {
    hide Has, With, Without, Fetch, Store, BufAddr, OutBlock, Scatter, Advance, Agree, SegAddr, SegLen, Laid, NextStatus, Filled;
    LaidAt(m, c, i);
    Ahead(x, m, c, i, md1, rest[..SegLen(m, c, i)]);
    MoreOn(x, m, c, i, md1, rest);
  }

  /** And when the next one is not. */
  lemma StepBlocked(x: seq<bv16>, m: seq<bv16>, c: Chain, i: nat, md1: bv16, rest: seq<bv8>)
    requires Laid(m, c) && |x| == WORDS && Agree(x, m, c, i) && i + 1 == c.count && SegLen(m, c, i) < |rest|
    requires c.count == c.r.size || !OwnedAt(m, c.r, Slot(c, c.count))
    requires BufAddr(Fetch(m, At(c, i)), md1) == SegAddr(m, c, i)
    ensures Scatter(x, c.r, Slot(c, i), md1, rest, c.cLance, c.swap)
            == Scattered(OutBlock(x, SegAddr(m, c, i), rest[..SegLen(m, c, i)], c.swap), Slot(c, i),
                         With(Without(md1, OWN), RX_BUFF), rest[SegLen(m, c, i)..])
  {
    hide Has, With, Without, Fetch, Store, BufAddr, OutBlock, Scatter, Advance, Agree, SegAddr, SegLen, Laid, NextStatus, Filled;
    LaidAt(m, c, i);
    Ahead(x, m, c, i, md1, rest[..SegLen(m, c, i)]);
    MoreStops(x, m, c, i, md1, rest);
  }

  /** The descriptors after a step still agree. */
  lemma FilledAgrees(x: seq<bv16>, m: seq<bv16>, c: Chain, i: nat, md1: bv16, rest: seq<bv8>)
    requires Laid(m, c) && |x| == WORDS && Agree(x, m, c, i) && i + 1 < c.count && SegLen(m, c, i) <= |rest|
    ensures Agree(Filled(x, m, c, i, md1, rest), m, c, i + 1)
  {
    hide Has, Without, Fetch, Store, OutBlock, SegAddr, SegLen, Desc, InSeg, InRing;
    var x1 := OutBlock(x, SegAddr(m, c, i), rest[..SegLen(m, c, i)], c.swap);
    var x2 := Filled(x, m, c, i, md1, rest);
    forall j | 0 <= j < c.r.size
      ensures Fetch(x2, At(c, j)) == Fetch(x, At(c, j)) && Fetch(x2, At(c, j) + 4) == Fetch(x, At(c, j) + 4)
      ensures Fetch(x2, At(c, j) + 2) == if j == i then Without(md1, OWN) else Fetch(x, At(c, j) + 2)
    {
      OneFilled(x, m, c, i, md1, rest, j);
    }
    CleanOwn(md1);
    assert Fetch(x2, At(c, 0) + 2) == if i == 0 then Without(md1, OWN) else Fetch(x, At(c, 0) + 2);
  }

  lemma OneFilled(x: seq<bv16>, m: seq<bv16>, c: Chain, i: nat, md1: bv16, rest: seq<bv8>, j: nat)
    requires Laid(m, c) && |x| == WORDS && i < c.count && SegLen(m, c, i) <= |rest| && j < c.r.size
    ensures var x2 := Filled(x, m, c, i, md1, rest);
            && Fetch(x2, At(c, j)) == Fetch(x, At(c, j)) && Fetch(x2, At(c, j) + 4) == Fetch(x, At(c, j) + 4)
            && Fetch(x2, At(c, j) + 2) == if j == i then Without(md1, OWN) else Fetch(x, At(c, j) + 2)
  {
    hide Without, Fetch, Store, OutBlock, SegAddr, SegLen, Desc, InSeg, InRing, Laid;
    LaidAt(m, c, i);
    var d := rest[..SegLen(m, c, i)];
    var x1 := OutBlock(x, SegAddr(m, c, i), d, c.swap);
    FillKeepsDescs(x, m, c, i, d, Slot(c, j), 0);
    FillKeepsDescs(x, m, c, i, d, Slot(c, j), 1);
    FillKeepsDescs(x, m, c, i, d, Slot(c, j), 2);
    if j != i {
      AtApart(c, i, j);
    }
    FetchAfterStore(x1, At(c, i) + 2, Without(md1, OWN), At(c, j));
    FetchAfterStore(x1, At(c, i) + 2, Without(md1, OWN), At(c, j) + 2);
    FetchAfterStore(x1, At(c, i) + 2, Without(md1, OWN), At(c, j) + 4);
  }

  // ---------- later steps leave earlier buffers alone ----------

  lemma {:induction false} StatusUntouched(m: seq<bv16>, c: Chain, k: nat, i: nat)
    requires Laid(m, c) && i < k <= c.count
    ensures !Touched(m, c, k, At(c, i) / 2 + 1)
    decreases c.count - k
  {
    hide Desc, InSeg, Laid;
    LaidAt(m, c, i);
    if k < c.count {
      AtApart(c, i, k);
      SegNotRing(m, c, k, Slot(c, i), 1);
      StatusUntouched(m, c, k + 1, i);
    }
  }

  lemma {:induction false} SegUntouched(m: seq<bv16>, c: Chain, k: nat, i: nat, w: nat)
    requires Laid(m, c) && i < k <= c.count && InSeg(m, c, i, w)
    ensures !Touched(m, c, k, w)
    decreases c.count - k
  {
    hide Desc, InSeg;
    if k < c.count {
      assert !InSeg(m, c, k, w);
      RingHasDesc(c.r, Slot(c, k), 1);
      SegUntouched(m, c, k + 1, i, w);
    }
  }

  // ---------- whole frames ----------

  /** The frame fills the chain's last buffer and is not at its end. */
  lemma DeliverBlocked(x: seq<bv16>, m: seq<bv16>, c: Chain, i: nat, md1: bv16, rest: seq<bv8>)
    requires Laid(m, c) && |x| == WORDS && Agree(x, m, c, i) && i + 1 == c.count && SegLen(m, c, i) < |rest|
    requires c.count == c.r.size || !OwnedAt(m, c.r, Slot(c, c.count))
    requires BufAddr(Fetch(m, At(c, i)), md1) == SegAddr(m, c, i)
    ensures Total(m, c, i) == SegLen(m, c, i) && Used(m, c, i, SegLen(m, c, i)) == 1
    ensures Delivered(x, Scatter(x, c.r, Slot(c, i), md1, rest, c.cLance, c.swap), m, c, i, md1, rest, SegLen(m, c, i), 1)
  {
    hide Has, With, Without, Fetch, BufAddr, OutBlock, Scatter, Kept, Read, Laid, Agree, SegAddr, SegLen;
    LaidAt(m, c, i);
    StepBlocked(x, m, c, i, md1, rest);
    FillRead(x, m, c, i, rest[..SegLen(m, c, i)]);
    FillKept(x, m, c, i, rest[..SegLen(m, c, i)]);
  }

  /** The first full buffer still holds its bytes after all later steps. */
  lemma FirstStays(x: seq<bv16>, m: seq<bv16>, c: Chain, i: nat, md1: bv16, rest: seq<bv8>, x': seq<bv16>)
    requires Laid(m, c) && |x| == WORDS == |x'| && i + 1 < c.count && SegLen(m, c, i) <= |rest|
    requires Kept(Filled(x, m, c, i, md1, rest), x', m, c, i + 1)
    ensures Block(x', SegAddr(m, c, i), SegLen(m, c, i), c.swap) == rest[..SegLen(m, c, i)]
    ensures Fetch(x', At(c, i) + 2) == Without(md1, OWN)
    ensures Kept(x, x', m, c, i)
  {
    hide Without, Fetch, Store, OutBlock, SegAddr, SegLen, Desc, Laid, Block, Shares, InRing;
    LaidAt(m, c, i);
    var a, len := SegAddr(m, c, i), SegLen(m, c, i);
    var x1 := OutBlock(x, a, rest[..len], c.swap);
    var x2 := Filled(x, m, c, i, md1, rest);
    InInvertsOut(x, a, rest[..len], c.swap);
    forall w | 0 <= w < WORDS && Shares(a, len, w)
      ensures x'[w] == x1[w]
    {
      SegUntouched(m, c, i + 1, i, w);
      SegNotRing(m, c, i, Slot(c, i), 1);
      StoreKeeps(x1, At(c, i) + 2, Without(md1, OWN), w);
    }
    BlockFrame(x1, x', a, len, c.swap);
    StatusUntouched(m, c, i + 1, i);
    FetchIs(x', At(c, i) + 2);
    FetchIs(x2, At(c, i) + 2);
    FetchAfterStore(x1, At(c, i) + 2, Without(md1, OWN), At(c, i) + 2);
    FirstKept(x, m, c, i, md1, rest, x');
  }

  lemma FirstKept(x: seq<bv16>, m: seq<bv16>, c: Chain, i: nat, md1: bv16, rest: seq<bv8>, x': seq<bv16>)
    requires Laid(m, c) && |x| == WORDS == |x'| && i + 1 < c.count && SegLen(m, c, i) <= |rest|
    requires Kept(Filled(x, m, c, i, md1, rest), x', m, c, i + 1)
    ensures Kept(x, x', m, c, i)
  {
    hide Without, Store, OutBlock, SegAddr, SegLen, Desc, Laid, InSeg;
    LaidAt(m, c, i);
    var x1 := OutBlock(x, SegAddr(m, c, i), rest[..SegLen(m, c, i)], c.swap);
    FillKept(x, m, c, i, rest[..SegLen(m, c, i)]);
    forall w | 0 <= w < WORDS && !Touched(m, c, i, w)
      ensures x'[w] == x[w]
    {
      StoreKeeps(x1, At(c, i) + 2, Without(md1, OWN), w);
    }
  }

  /** The first buffer's share in front of what the later ones hold. */
  lemma DeliveredCons(x: seq<bv16>, m: seq<bv16>, c: Chain, i: nat, md1: bv16, rest: seq<bv8>, s: Scattered, n: nat, u: nat)
    requires Laid(m, c) && |x| == WORDS == |s.m| && i + 1 < c.count && SegLen(m, c, i) < |rest|
    requires var len := SegLen(m, c, i);
             0 < n <= |rest| - len
             && Delivered(Filled(x, m, c, i, md1, rest), s, m, c, i + 1, Fetch(m, At(c, i + 1) + 2), rest[len..], n, u)
    ensures Delivered(x, s, m, c, i, md1, rest, SegLen(m, c, i) + n, u + 1)
  {
    hide Without, With, Fetch, SegAddr, SegLen, At, Laid, Block, Filled, Kept;
    LaidAt(m, c, i);
    var len := SegLen(m, c, i);
    FirstStays(x, m, c, i, md1, rest, s.m);
    assert rest[..len] + rest[len..][..n] == rest[..len + n];
    assert rest[len..][n..] == rest[len + n..];
  }

  /**
   Filling the buffers of a chain with a frame: as much of it as fits ends up in the buffers in ring order, each
   descriptor used is given back, the last one stays with the caller, and nothing else in memory changes.
   */
  lemma {:induction false} ScatterDelivers(x: seq<bv16>, m: seq<bv16>, c: Chain, i: nat, md1: bv16, rest: seq<bv8>)
    requires Laid(m, c) && |x| == WORDS && Agree(x, m, c, i) && i < c.count && rest != []
    requires BufAddr(Fetch(m, At(c, i)), md1) == SegAddr(m, c, i) && Ends(m, c, i, |rest|)
    ensures var n := Least(|rest|, Total(m, c, i));
            && 0 < n
            && Delivered(x, Scatter(x, c.r, Slot(c, i), md1, rest, c.cLance, c.swap), m, c, i, md1, rest, n, Used(m, c, i, n))
    decreases c.count - i
  {
    hide Has, With, Without, Fetch, BufAddr, OutBlock, Scatter, Laid, Agree, SegLen, Delivered, OwnedAt;
    LaidAt(m, c, i);
    var len := SegLen(m, c, i);
    if |rest| <= len {
      DeliverLast(x, m, c, i, md1, rest);
    } else if i + 1 == c.count {
      DeliverBlocked(x, m, c, i, md1, rest);
    } else {
      StepOn(x, m, c, i, md1, rest);
      FilledAgrees(x, m, c, i, md1, rest);
      ScatterDelivers(Filled(x, m, c, i, md1, rest), m, c, i + 1, Fetch(m, At(c, i + 1) + 2), rest[len..]);
      var n := Least(|rest| - len, Total(m, c, i + 1));
      DeliveredCons(x, m, c, i, md1, rest, Scatter(x, c.r, Slot(c, i), md1, rest, c.cLance, c.swap), n, Used(m, c, i + 1, n));
    }
  }
}
