/**
 Host memory as the driver of an Am7990 or Am79C90 lays it out: words, descriptors, buffers and the initialisation
 block, by their addresses and bits alone.
 */
module LanceFormat {
  import opened LanceRings
  import opened LanceChains

  // ---------- words and bytes ----------

  function HostWord(m: seq<bv16>, a: nat): bv16
    requires |m| == 0x80_0000
  {
    m[a / 2 % 0x80_0000]
  }

  /**
   The byte at an address. With BSWP clear in CSR3 the low eight bits of a word are the byte at its even address and
   the high eight bits the byte behind it; with BSWP set it is the other way round.
   */
  function HostByte(m: seq<bv16>, a: nat, bswp: bool): bv8
    requires |m| == 0x80_0000
  {
    var w := HostWord(m, a);
    if !bswp then (if a % 2 == 0 then (w & 0x00FF) as bv8 else (w >> 8) as bv8)
    else if a % 2 == 0 then (w >> 8) as bv8 else (w & 0x00FF) as bv8
  }

  /** The byte at address `x` after bytes were stored from `a` on: theirs, or 0 beside an odd end, or what was there. */
  function ByteAfter(m: seq<bv16>, a: nat, d: seq<bv8>, bswp: bool, x: nat): bv8
    requires |m| == 0x80_0000
  {
    if a <= x < a + |d| then d[x - a]
    else if d != [] && ((x + 1 == a && a % 2 == 1) || (x == a + |d| && x % 2 == 1)) then 0
    else HostByte(m, x, bswp)
  }

  /** Memory after such a store, byte by byte. */
  ghost predicate StoredAt(m': seq<bv16>, m: seq<bv16>, a: nat, d: seq<bv8>, bswp: bool)
    requires |m'| == 0x80_0000 == |m|
  {
    forall x: nat :: x < 0x100_0000 ==> HostByte(m', x, bswp) == ByteAfter(m, a, d, bswp, x)
  }

  // ---------- descriptors ----------

  /** Where the `k`-th descriptor of a chain lies: eight bytes each, round the ring, in 24 bits. */
  function DescAt(c: Chain, k: nat): nat
    requires c.r.size > 0
  {
    (c.r.base + 8 * ((c.start + k) % c.r.size)) % 0x100_0000
  }

  /** The address of its buffer: 16 bits in the first word and 8 in the second. */
  function BufferAt(m: seq<bv16>, c: Chain, k: nat): nat
    requires |m| == 0x80_0000 && c.r.size > 0
  {
    (HostWord(m, DescAt(c, k) + 2) & 0x00FF) as nat * 65536 + HostWord(m, DescAt(c, k)) as nat
  }

  /** The length, the two's complement of 12 bits in the third word; the C-LANCE takes a word of 0 for `none`. */
  function BufferLength(m: seq<bv16>, c: Chain, k: nat, none: nat): nat
    requires |m| == 0x80_0000 && c.r.size > 0
  {
    var w := HostWord(m, DescAt(c, k) + 4);
    if c.cLance && w == 0 then none else 4096 - (w & 0x0FFF) as nat
  }

  predicate HandedOver(m: seq<bv16>, c: Chain, k: nat)
    requires |m| == 0x80_0000 && c.r.size > 0
  {
    HostWord(m, DescAt(c, k) + 2) & 0x8000 != 0
  }

  /** Word `w` holds a byte of the `k`-th buffer. */
  predicate InBuffer(m: seq<bv16>, c: Chain, k: nat, none: nat, w: nat)
    requires |m| == 0x80_0000 && c.r.size > 0
  {
    BufferLength(m, c, k, none) > 0 && BufferAt(m, c, k) <= 2 * w + 1 && 2 * w < BufferAt(m, c, k) + BufferLength(m, c, k, none)
  }

  /** A chain of descriptors in a ring. */
  predicate ChainInRing(c: Chain) {
    && c.r.base % 8 == 0 && c.r.base < 0x100_0000 && c.r.size in {1, 2, 4, 8, 16, 32, 64, 128}
    && c.start < c.r.size && 1 <= c.count <= c.r.size
  }

  /** Receive descriptors handed over, whose buffers end in memory and share no word with each other or the ring. */
  ghost predicate RxLaidOut(m: seq<bv16>, c: Chain) {
    && |m| == 0x80_0000 && ChainInRing(c)
    && (forall k :: 0 <= k < c.count ==> HandedOver(m, c, k) && BufferAt(m, c, k) + BufferLength(m, c, k, 64) <= 0x100_0000)
    && (forall k, w: nat :: 0 <= k < c.count && InBuffer(m, c, k, 64, w) ==> !InRing(c.r, w))
    && (forall j, k, w: nat :: 0 <= j < k < c.count && InBuffer(m, c, j, 64, w) ==> !InBuffer(m, c, k, 64, w))
  }

  /** Transmit descriptors of one frame, handed over: each with bytes, the last and no other with the end mark. */
  ghost predicate TxLaidOut(m: seq<bv16>, c: Chain) {
    && |m| == 0x80_0000 && ChainInRing(c)
    && (forall k :: 0 <= k < c.count ==>
          && HandedOver(m, c, k) && 0 < BufferLength(m, c, k, 0) && BufferAt(m, c, k) + BufferLength(m, c, k, 0) <= 0x100_0000
          && (HostWord(m, DescAt(c, k) + 2) & 0x0100 != 0 <==> k == c.count - 1))
    && (forall k, w: nat :: 0 <= k < c.count && InBuffer(m, c, k, 0, w) ==> !InRing(c.r, w))
    && RoomIn(m, c, c.count, 0) <= 4096
  }

  /** The room in the first `u` buffers. */
  function RoomIn(m: seq<bv16>, c: Chain, u: nat, none: nat): nat
    requires |m| == 0x80_0000 && c.r.size > 0
  {
    if u == 0 then 0 else RoomIn(m, c, u - 1, none) + BufferLength(m, c, u - 1, none)
  }

  /** Byte `o` of a frame that lies in the buffers from the `k`-th on, end to end; the descriptors are read from `m`. */
  function FrameByte(x: seq<bv16>, m: seq<bv16>, c: Chain, k: nat, o: nat, none: nat, bswp: bool): bv8
    requires |x| == 0x80_0000 == |m| && c.r.size > 0
    decreases c.count - k
  {
    if k >= c.count then 0
    else if o < BufferLength(m, c, k, none) then HostByte(x, BufferAt(m, c, k) + o, bswp)
    else FrameByte(x, m, c, k + 1, o - BufferLength(m, c, k, none), none, bswp)
  }

  /**
   The status word of a receive descriptor given back: OWN clear, STP set on the first, and on the last ENP for a
   whole frame, with ERR and CRC if its check sequence is wrong, or ERR and BUFF for a part.
   */
  function RxStatus(w: bv16, first: bool, last: bool, whole: bool, bad: bool): bv16 {
    RxReturned(if first then w | 0x0200 else w, last, whole, bad)
  }

  function RxReturned(w: bv16, last: bool, whole: bool, bad: bool): bv16 {
    if !last then w & 0x7FFF
    else if !whole then (w & 0x7FFF) | 0x4400
    else if bad then (w & 0x7FFF) | 0x4900
    else (w & 0x7FFF) | 0x0100
  }

  // ---------- registers and addresses ----------

  /** RXON in CSR0. */
  predicate ReceiverOn(csr0: bv16) {
    csr0 & 0x0020 != 0
  }

  /** LOOP and INTL in the mode word; PROM; no check sequence appended, or none looked at, for the loop. */
  predicate InternalLoop(mode: bv16) {
    mode & 0x0004 != 0 && mode & 0x0040 != 0
  }

  predicate TakesAll(mode: bv16) {
    mode & 0x8000 != 0
  }

  predicate LooksAtCheck(mode: bv16) {
    mode & 0x0004 == 0 || mode & 0x0008 != 0
  }

  /** A group address starts with a byte whose lowest bit is set. */
  predicate GroupAddress(b: bv8) {
    b & 0x01 != 0
  }

  predicate Bit(filter: bv64, k: nat)
    requires k < 64
  {
    (filter >> k) & 1 == 1
  }

  function UpperSix(crc: bv32): (k: nat)
    ensures k < 64
  {
    (crc >> 26) as nat
  }

  /** The bit of the logical address filter that the upper six bits of an address's check sequence pick. */
  predicate HashBitSet(filter: bv64, crc: bv32) {
    Bit(filter, 63 - UpperSix(crc))
  }

  /** DTCR clear in the mode word, or on the C-LANCE ADD_FCS in the frame's first status word. */
  predicate AsksForCheck(mode: bv16, cLance: bool, status: bv16) {
    mode & 0x0008 == 0 || (cLance && status & 0x2000 != 0)
  }

  /** A check sequence behind its frame, low byte first. */
  function CheckBytes(crc: bv32): (t: seq<bv8>)
    ensures |t| == 4
  {
    [(crc & 0xFF) as bv8, ((crc >> 8) & 0xFF) as bv8, ((crc >> 16) & 0xFF) as bv8, ((crc >> 24) & 0xFF) as bv8]
  }
}
