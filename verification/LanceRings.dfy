/** Descriptor rings: gathering a frame from the transmit ring and scattering one into the receive ring. */
module LanceRings {
  import opened LanceMemory

  const OWN: bv16 := 0x8000
  const ERR: bv16 := 0x4000
  const STP: bv16 := 0x0200
  const ENP: bv16 := 0x0100
  /** Error and buffer error in a receive descriptor. */
  const RX_BUFF: bv16 := 0x4400
  /** Buffer error and underflow in the last word of a transmit descriptor. */
  const TX_UFLO: bv16 := 0xC000
  const FRAME_MAX := 4096

  datatype Ring = Ring(base: nat, size: nat)

  ghost predicate RingOk(r: Ring) {
    r.base % 8 == 0 && r.base < SPACE && r.size in {1, 2, 4, 8, 16, 32, 64, 128}
  }

  /** `(pos + 1) & ~size`. */
  function Advance(r: Ring, pos: nat): (p: nat)
    requires r.size > 0
  {
    if (pos + 1) / r.size % 2 == 1 && pos + 1 >= r.size then pos + 1 - r.size else pos + 1
  }

  lemma AdvanceIs(r: Ring, pos: nat)
    requires pos < r.size
    ensures Advance(r, pos) == if pos + 1 == r.size then 0 else pos + 1
    ensures Advance(r, pos) < r.size
  {
    if pos + 1 == r.size {
      assert (pos + 1) / r.size == 1;
    } else {
      assert (pos + 1) / r.size == 0;
    }
  }

  /** The address of a descriptor, `(base + (pos << 3)) & 0xFFFFF8`. */
  function Desc(r: Ring, pos: nat): (d: nat)
    ensures d + 8 <= SPACE && d % 2 == 0
  {
    8 * ((r.base / 8 + pos) % (SPACE / 8))
  }

  lemma DescApart(r: Ring, p: nat, q: nat)
    requires RingOk(r) && p < r.size && q < r.size
    ensures Desc(r, p) == Desc(r, q) <==> p == q
  {
  }

  predicate Has(w: bv16, bits: bv16) {
    w & bits != 0
  }

  function Without(w: bv16, bits: bv16): bv16 {
    w & !bits
  }

  function With(w: bv16, bits: bv16): bv16 {
    w | bits
  }

  lemma CleanOwn(w: bv16)
    ensures !Has(Without(w, OWN), OWN)
  {
  }

  /** The 24-bit buffer address in the first two words of a descriptor. */
  function BufAddr(md0: bv16, md1: bv16): (a: nat)
    ensures a < SPACE
  {
    (md1 & 0xFF) as nat * 0x1_0000 + md0 as nat
  }

  /** The buffer length, a 12-bit two's complement number; zero stands for 4096 bytes, or for none on the C-LANCE. */
  function BufLen(cLance: bool, md2: bv16): (n: nat)
    ensures n <= FRAME_MAX
  {
    if cLance && md2 == 0 then 0 else FRAME_MAX - (md2 & 0xFFF) as nat
  }

  // ---------- ownership ----------

  predicate OwnedAt(m: seq<bv16>, r: Ring, pos: nat)
    requires |m| == WORDS
  {
    Has(Fetch(m, Desc(r, pos) + 2), OWN)
  }

  /** The descriptors from `p` on that the controller owns. */
  function OwnCount(m: seq<bv16>, r: Ring, p: nat): (n: nat)
    requires |m| == WORDS && p <= r.size
    ensures n <= r.size - p
    decreases r.size - p
  {
    if p == r.size then 0 else (if OwnedAt(m, r, p) then 1 else 0) + OwnCount(m, r, p + 1)
  }

  lemma FetchAfterStore(m: seq<bv16>, a: nat, w: bv16, b: nat)
    requires |m| == WORDS && a < SPACE && b < SPACE && a % 2 == 0 && b % 2 == 0
    ensures Fetch(Store(m, a, w), b) == if a == b then w else Fetch(m, b)
  {
  }

  lemma OwnedAfterStore(m: seq<bv16>, r: Ring, pos: nat, w: bv16, q: nat)
    requires |m| == WORDS && RingOk(r) && pos < r.size && q < r.size
    ensures OwnedAt(Store(m, Desc(r, pos) + 2, w), r, q) <==> if q == pos then Has(w, OWN) else OwnedAt(m, r, q)
  {
    hide Fetch, Store, Desc, Has;
    DescApart(r, pos, q);
    FetchAfterStore(m, Desc(r, pos) + 2, w, Desc(r, q) + 2);
  }

  lemma {:induction false} OwnDrops(m: seq<bv16>, r: Ring, pos: nat, w: bv16, p: nat)
    requires |m| == WORDS && RingOk(r) && pos < r.size && p <= r.size && !Has(w, OWN) && OwnedAt(m, r, pos)
    ensures OwnCount(Store(m, Desc(r, pos) + 2, w), r, p) == OwnCount(m, r, p) - (if p <= pos then 1 else 0)
    decreases r.size - p
  {
    hide Store, Desc, Has, OwnedAt;
    if p < r.size {
      OwnedAfterStore(m, r, pos, w, p);
      OwnDrops(m, r, pos, w, p + 1);
    }
  }

  // ---------- transmitting ----------

  /**
   What collecting a frame leaves: memory, ring position, the descriptor words not yet written back, and the bytes.
   `Dropped` is the zero-length buffer that ends a collection without a frame.
   */
  datatype Gathered =
    | Dropped(m: seq<bv16>, pos: nat)
    | Frame(m: seq<bv16>, pos: nat, md1: bv16, md3: bv16, data: seq<bv8>, underrun: bool)

  /** The length of the buffer at `pos`. */
  function TurnLen(m: seq<bv16>, r: Ring, pos: nat, cLance: bool): (n: nat)
    requires |m| == WORDS
    ensures n <= FRAME_MAX
  {
    BufLen(cLance, Fetch(m, Desc(r, pos) + 4))
  }

  /** The bytes collected after the buffer at `pos`; a frame never grows beyond the limit. */
  function TurnData(m: seq<bv16>, r: Ring, pos: nat, mine: bv16, got: seq<bv8>, cLance: bool, swap: bool): (b: seq<bv8>)
    requires |m| == WORDS && |got| <= FRAME_MAX
    ensures |b| <= FRAME_MAX
  {
    var len := TurnLen(m, r, pos, cLance);
    got + Block(m, BufAddr(Fetch(m, Desc(r, pos)), mine), if |got| + len > FRAME_MAX then FRAME_MAX - |got| else len, swap)
  }

  /** The next descriptor's status word; on a ring of one it is the one just given back. */
  function TurnAhead(m: seq<bv16>, r: Ring, pos: nat, next: nat, mine: bv16): bv16
    requires |m| == WORDS
  {
    if Desc(r, next) != Desc(r, pos) then Fetch(m, Desc(r, next) + 2) else mine
  }

  /** Going on to the next descriptor: it is the controller's, and one more was given back. */
  lemma TurnOn(m: seq<bv16>, r: Ring, pos: nat, mine: bv16)
    requires |m| == WORDS && RingOk(r) && pos < r.size && OwnedAt(m, r, pos) && !Has(mine, OWN)
    ensures var next := Advance(r, pos);
            next < r.size &&
            (Has(TurnAhead(m, r, pos, next, mine), OWN) ==>
               OwnedAt(Store(m, Desc(r, pos) + 2, mine), r, next) && next != pos)
    ensures OwnCount(Store(m, Desc(r, pos) + 2, mine), r, 0) < OwnCount(m, r, 0)
  {
    hide Has, Fetch, Store, Desc, Advance;
    AdvanceIs(r, pos);
    OwnDrops(m, r, pos, mine, 0);
    OwnedAfterStore(m, r, pos, mine, Advance(r, pos));
  }

  /**
   Collecting buffers from the descriptor at `pos` on, with `got` collected so far. It ends on every ring and
   every memory: each step onward gives one descriptor back.
   */
  function Gather(m: seq<bv16>, r: Ring, pos: nat, md1: bv16, got: seq<bv8>, cLance: bool, swap: bool): (g: Gathered)
    requires |m| == WORDS && RingOk(r) && pos < r.size && OwnedAt(m, r, pos) && |got| <= FRAME_MAX
    ensures |g.m| == WORDS && g.pos < r.size && (g.Frame? ==> |g.data| <= FRAME_MAX)
    decreases OwnCount(m, r, 0)
  {
    hide Has, Without, With, Fetch, Store, Desc, Advance, TurnLen, TurnData, TurnAhead, OwnedAt;
    CleanOwn(md1);
    TurnOn(m, r, pos, Without(md1, OWN));
    var d, next, mine := Desc(r, pos), Advance(r, pos), Without(md1, OWN);
    if TurnLen(m, r, pos, cLance) == 0 then Dropped(Store(m, d + 2, mine), next)
    else
      var data := TurnData(m, r, pos, mine, got, cLance, swap);
      var ahead := TurnAhead(m, r, pos, next, mine);
      if Has(mine, ENP) then Frame(m, pos, mine, 0, data, false)
      else if Has(ahead, OWN) then Gather(Store(m, d + 2, mine), r, next, ahead, data, cLance, swap)
      else Frame(Store(m, d + 6, TX_UFLO), pos, With(mine, ERR), TX_UFLO, data, true)
  }

  /** One turn of collecting. */
  lemma GatherTurn(m: seq<bv16>, r: Ring, pos: nat, md1: bv16, got: seq<bv8>, cLance: bool, swap: bool)
    requires |m| == WORDS && RingOk(r) && pos < r.size && OwnedAt(m, r, pos) && |got| <= FRAME_MAX
    ensures var next, mine := Advance(r, pos), Without(md1, OWN);
            var g, d := Gather(m, r, pos, md1, got, cLance, swap), Desc(r, pos);
            var data, ahead := TurnData(m, r, pos, mine, got, cLance, swap), TurnAhead(m, r, pos, next, mine);
            !Has(mine, OWN) && next < r.size &&
            if TurnLen(m, r, pos, cLance) == 0 then g == Dropped(Store(m, d + 2, mine), next)
            else if Has(mine, ENP) then g == Frame(m, pos, mine, 0, data, false)
            else if !Has(ahead, OWN) then g == Frame(Store(m, d + 6, TX_UFLO), pos, With(mine, ERR), TX_UFLO, data, true)
            else OwnedAt(Store(m, d + 2, mine), r, next) && g == Gather(Store(m, d + 2, mine), r, next, ahead, data, cLance, swap)
  {
    hide Has, Without, With, Fetch, Store, Desc, Advance, TurnLen, TurnData, TurnAhead, OwnedAt;
    CleanOwn(md1);
    TurnOn(m, r, pos, Without(md1, OWN));
  }

  /** The turns collecting takes: one a descriptor visited. */
  function Turns(m: seq<bv16>, r: Ring, pos: nat, md1: bv16, cLance: bool): (n: nat)
    requires |m| == WORDS && RingOk(r) && pos < r.size && OwnedAt(m, r, pos)
    decreases OwnCount(m, r, 0)
  {
    hide Has, Without, Fetch, Store, Desc, Advance, TurnLen, TurnAhead, OwnedAt;
    CleanOwn(md1);
    TurnOn(m, r, pos, Without(md1, OWN));
    var next, mine := Advance(r, pos), Without(md1, OWN);
    var ahead := TurnAhead(m, r, pos, next, mine);
    if TurnLen(m, r, pos, cLance) == 0 || Has(mine, ENP) || !Has(ahead, OWN) then 1
    else 1 + Turns(Store(m, Desc(r, pos) + 2, mine), r, next, ahead, cLance)
  }

  /** Collecting visits no more descriptors than the controller owned at the start, so at most the ring's length. */
  lemma {:induction false} TurnsBounded(m: seq<bv16>, r: Ring, pos: nat, md1: bv16, cLance: bool)
    requires |m| == WORDS && RingOk(r) && pos < r.size && OwnedAt(m, r, pos)
    ensures Turns(m, r, pos, md1, cLance) <= OwnCount(m, r, 0) <= r.size
    decreases OwnCount(m, r, 0)
  {
    hide Has, Without, Fetch, Store, Desc, Advance, TurnLen, TurnAhead, OwnedAt;
    CleanOwn(md1);
    TurnOn(m, r, pos, Without(md1, OWN));
    var next, mine := Advance(r, pos), Without(md1, OWN);
    var ahead := TurnAhead(m, r, pos, next, mine);
    if !(TurnLen(m, r, pos, cLance) == 0 || Has(mine, ENP) || !Has(ahead, OWN)) {
      TurnsBounded(Store(m, Desc(r, pos) + 2, mine), r, next, ahead, cLance);
    }
  }

  // ---------- receiving ----------

  datatype Scattered = Scattered(m: seq<bv16>, pos: nat, md1: bv16, left: seq<bv8>)

  /** A receive buffer of no length counts as 64 bytes. */
  function RxLen(cLance: bool, md2: bv16): (n: nat)
    ensures 0 < n <= FRAME_MAX
  {
    if BufLen(cLance, md2) == 0 then 64 else BufLen(cLance, md2)
  }

  /** Filling buffers from the descriptor at `pos` on with `rest`; `left` is what found no buffer. */
  function Scatter(m: seq<bv16>, r: Ring, pos: nat, md1: bv16, rest: seq<bv8>, cLance: bool, swap: bool): (s: Scattered)
    requires |m| == WORDS && RingOk(r) && pos < r.size && rest != []
    ensures |s.m| == WORDS && s.pos < r.size && |s.left| < |rest| && !Has(s.md1, OWN)
    decreases |rest|
  {
    AdvanceIs(r, pos);
    CleanOwn(md1);
    hide Has, With, Without, Fetch, Store, Desc, Advance, BufAddr, RxLen, TurnAhead;
    var d := Desc(r, pos);
    var next := Advance(r, pos);
    var len := RxLen(cLance, Fetch(m, d + 4));
    var count := if |rest| < len then |rest| else len;
    var m1 := OutBlock(m, BufAddr(Fetch(m, d), md1), rest[..count], swap);
    var mine := Without(md1, OWN);
    var more := rest[count..];
    if more == [] then Scattered(m1, pos, mine, [])
    else
      var ahead := TurnAhead(m1, r, pos, next, mine);
      if Has(ahead, OWN) then Scatter(Store(m1, d + 2, mine), r, next, ahead, more, cLance, swap)
      else
        Overflowed(md1);
        Scattered(m1, pos, With(mine, RX_BUFF), more)
  }

  lemma Overflowed(md1: bv16)
    ensures !Has(With(Without(md1, OWN), RX_BUFF), OWN)
  {
  }
}
