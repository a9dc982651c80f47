/** The LANCE controller as a function of its state: every call of the driver interface as one step. */
module LanceChip {
  import opened Crc32
  import opened LanceMemory
  import opened LanceRings

  const C_INIT: bv16 := 0x0001
  const C_STRT: bv16 := 0x0002
  const C_STOP: bv16 := 0x0004
  const C_TDMD: bv16 := 0x0008
  const C_TXON: bv16 := 0x0010
  const C_RXON: bv16 := 0x0020
  const C_INEA: bv16 := 0x0040
  const C_INTR: bv16 := 0x0080
  const C_IDON: bv16 := 0x0100
  const C_TINT: bv16 := 0x0200
  const C_RINT: bv16 := 0x0400
  const C_MISS: bv16 := 0x1000
  const C_BABL: bv16 := 0x4000
  const C_ERR: bv16 := 0x8000
  /** BABL, CERR, MISS and MERR, which together make ERR. */
  const ERR_CAUSES: bv16 := 0x7800
  /** BABL, MISS, MERR, RINT, TINT and IDON, which together make INTR. */
  const INTR_CAUSES: bv16 := 0x5F00
  /** The flags a write of one clears. */
  const CLEARABLE: bv16 := 0x7F00

  const M_DRX: bv16 := 0x0001
  const M_DTX: bv16 := 0x0002
  const M_LOOP: bv16 := 0x0004
  const M_DTCR: bv16 := 0x0008
  const M_COLL: bv16 := 0x0010
  const M_INTL: bv16 := 0x0040
  const M_PROM: bv16 := 0x8000

  const ADD_FCS: bv16 := 0x2000
  const RX_CRC: bv16 := 0x4800
  const TX_RTRY: bv16 := 0x0400
  const POLL_CYCLES := 19200
  const LB_MAX := 100

  datatype Chip = Chip(
    cLance: bool, hasSend: bool,
    rap: nat, csr0: bv16, csr1: bv16, csr2: bv16, csr3: bv16,
    mode: bv16, filter: bv64, padr: seq<bv8>,
    rx: Ring, rxPos: nat, tx: Ring, txPos: nat,
    lb: seq<bv8>, hairpin: bool,
    intLow: bool, poll: int,
    mem: seq<bv16>, frames: seq<seq<bv8>>)

  ghost predicate ChipOk(d: Chip) {
    && |d.mem| == WORDS && |d.padr| == 6 && d.rap < 4
    && RingOk(d.rx) && d.rxPos < d.rx.size && RingOk(d.tx) && d.txPos < d.tx.size
    && (d.lb == [] || 8 <= |d.lb| <= LB_MAX)
  }

  function Swap(d: Chip): bool {
    Has(d.csr3, 0x0004)
  }

  /** lance_update_interrupts. */
  function Interrupts(d: Chip): (d': Chip)
    ensures ChipOk(d) ==> ChipOk(d')
  {
    hide Has;
    d.(intLow := Has(d.csr0, C_INEA) && Has(d.csr0, C_INTR))
  }

  function Raised(d: Chip, bits: bv16): (d': Chip)
    ensures ChipOk(d) ==> ChipOk(d')
  {
    hide With;
    d.(csr0 := With(d.csr0, bits))
  }

  function SetCsr(d: Chip, c: bv16): (d': Chip)
    ensures ChipOk(d) ==> ChipOk(d')
  {
    d.(csr0 := c)
  }

  /** lance_reset. */
  function Reset(d: Chip): (d': Chip)
    ensures ChipOk(d) ==> ChipOk(d')
  {
    Interrupts(d.(rap := 0, csr0 := C_STOP, csr1 := 0, csr2 := 0, csr3 := 0, mode := 0, lb := [], poll := POLL_CYCLES))
  }

  // ---------- initialisation ----------

  function InitAddr(d: Chip): nat {
    (d.csr2 as nat * 0x1_0000 + d.csr1 as nat) % SPACE / 2 * 2
  }

  function InitWord(d: Chip, i: nat): bv16
    requires |d.mem| == WORDS
  {
    Fetch(d.mem, InitAddr(d) + 2 * i)
  }

  /** The ring described by two words: a 24-bit address and the logarithm of the length. */
  function RingOf(lo: bv16, hi: bv16): (r: Ring)
  {
    Ring((hi & 0xFF) as nat * 0x1_0000 + (lo & 0xFFF8) as nat, RingSize(hi >> 13))
  }

  function RingSize(n: bv16): nat {
    if n == 0 then 1 else if n == 1 then 2 else if n == 2 then 4 else if n == 3 then 8
    else if n == 4 then 16 else if n == 5 then 32 else if n == 6 then 64 else 128
  }

  lemma RingOfOk(lo: bv16, hi: bv16)
    ensures RingOk(RingOf(lo, hi))
  {
    LowBits(lo);
  }

  lemma LowBits(lo: bv16)
    ensures (lo & 0xFFF8) as nat % 8 == 0
  {
  }

  /** lance_initialize. */
  function Initialize(d: Chip): (d': Chip)
    requires ChipOk(d)
    ensures ChipOk(d')
  {
    RingOfOk(InitWord(d, 8), InitWord(d, 9));
    RingOfOk(InitWord(d, 10), InitWord(d, 11));
    Interrupts(d.(
      mode := InitWord(d, 0),
      padr := [LowHalf(InitWord(d, 1)), HighHalf(InitWord(d, 1)), LowHalf(InitWord(d, 2)), HighHalf(InitWord(d, 2)),
               LowHalf(InitWord(d, 3)), HighHalf(InitWord(d, 3))],
      filter := ((InitWord(d, 7) as bv64) << 48) | ((InitWord(d, 6) as bv64) << 32) | ((InitWord(d, 5) as bv64) << 16)
                | (InitWord(d, 4) as bv64),
      rx := RingOf(InitWord(d, 8), InitWord(d, 9)), rxPos := 0,
      tx := RingOf(InitWord(d, 10), InitWord(d, 11)), txPos := 0,
      csr0 := With(Without(d.csr0, C_INIT | C_STOP | C_STRT | C_TXON | C_RXON), C_IDON | C_INTR)))
  }

  // ---------- receiving ----------

  const BROADCAST: seq<bv8> := [0xFF, 0xFF, 0xFF, 0xFF, 0xFF, 0xFF]

  function HashBit(crc: bv32): (b: nat)
    ensures b < 64
  {
    63 - (crc >> 26) as nat
  }

  predicate Multicast(b: bv8) {
    b & 1 == 1
  }

  predicate FilterBit(filter: bv64, bit: nat)
    requires bit < 64
  {
    (filter >> bit) & 1 == 1
  }

  /** lance_address_filter. */
  predicate Accepts(d: Chip, buf: seq<bv8>)
    requires |buf| >= 6
  {
    || Has(d.mode, M_PROM)
    || (if Multicast(buf[0]) then buf[..6] == BROADCAST || FilterBit(d.filter, HashBit(Crc(buf[..6])))
        else buf[..6] == d.padr)
  }

  predicate Internal(d: Chip) {
    Has(d.mode, M_LOOP) && Has(d.mode, M_INTL)
  }

  /** The check sequence is looked at unless the frame comes from a loop without one. */
  predicate Checked(d: Chip) {
    !Has(d.mode, M_LOOP) || Has(d.mode, M_DTCR)
  }

  datatype Outcome = Ignored | Missed | Taken(m: seq<bv16>, pos: nat, md1: bv16, count: nat)

  /** lance_receive. */
  function Receive(d: Chip, buf: seq<bv8>): (o: Outcome)
    requires ChipOk(d) && |buf| >= 6
    ensures o.Taken? ==> |o.m| == WORDS && o.pos < d.rx.size && 0 < o.count <= |buf|
  {
    hide Has, With, Without, Fetch, Store, Desc, Advance, Crc, Gather, Scatter, Accepts, Internal;
    if !Internal(d) && buf[..6] != d.padr && !Has(d.csr0, C_RXON) then Ignored
    else if !Accepts(d, buf) then Ignored
    else
      var md1 := Fetch(d.mem, Desc(d.rx, d.rxPos) + 2);
      if !Has(md1, OWN) then Missed
      else
        var s := Scatter(d.mem, d.rx, d.rxPos, With(md1, STP), buf, d.cLance, Swap(d));
        if s.left != [] then Taken(s.m, s.pos, s.md1, |buf| - |s.left|)
        else if Checked(d) && Crc(buf) != RESIDUE then Taken(s.m, s.pos, With(With(s.md1, RX_CRC), ENP), |buf|)
        else Taken(s.m, s.pos, With(s.md1, ENP), |buf|)
  }

  /** The message byte count as the last descriptor word holds it. */
  function CountWord(n: nat): bv16 {
    (n % 0x1000) as bv16
  }

  /** lance_recv_complete. */
  function Complete(d: Chip, o: Outcome): (d': Chip)
    requires ChipOk(d) && (o.Taken? ==> |o.m| == WORDS && o.pos < d.rx.size)
    ensures ChipOk(d')
  {
    hide Has, With, Without, Fetch, Store, Desc, Advance, Crc, Gather, Scatter, CountWord, Raised, Interrupts;
    match o
    case Ignored => d
    case Missed => Interrupts(Raised(Raised(d, C_ERR | C_MISS), C_RINT | C_INTR))
    case Taken(m, pos, md1, count) =>
      AdvanceIs(d.rx, pos);
      var a := Desc(d.rx, pos);
      var m' := Store(Store(m, a + 2, md1), a + 6, CountWord(count));
      Interrupts(Raised(d.(mem := m', rxPos := Advance(d.rx, pos)), C_RINT | C_INTR))
  }

  /** lance_recv: a frame from the wire. */
  function Recv(d: Chip, buf: seq<bv8>): (d': Chip)
    requires ChipOk(d)
    ensures ChipOk(d')
  {
    hide Has, With, Without, Fetch, Store, Desc, Advance, Crc, Gather, Scatter, Receive, Complete;
    if |buf| < 60 || Internal(d) then d else Complete(d, Receive(d, buf))
  }

  // ---------- transmitting ----------

  datatype Result = Sent | BadLoopback | Collision

  /** Memory when the descriptor at `a` has been given its final status. */
  function Closed(m: seq<bv16>, a: nat, md1: bv16, md3: bv16, result: Result): (m': seq<bv16>)
    requires |m| == WORDS
    ensures |m'| == WORDS
  {
    hide Store, With;
    match result
    case Sent => Store(m, a + 2, md1)
    case BadLoopback => Store(m, a + 2, With(md1, ERR))
    case Collision => Store(Store(m, a + 6, With(md3, TX_RTRY)), a + 2, With(md1, ERR))
  }

  /** lance_send_complete. */
  function SendComplete(d: Chip, md1: bv16, md3: bv16, result: Result): (d': Chip)
    requires ChipOk(d)
    ensures ChipOk(d')
  {
    hide Has, With, Desc, Advance, Closed;
    AdvanceIs(d.tx, d.txPos);
    var m := Closed(d.mem, Desc(d.tx, d.txPos), md1, md3, result);
    Interrupts(Raised(d.(mem := m, txPos := Advance(d.tx, d.txPos), poll := 1), C_TINT | C_INTR))
  }

  predicate AppendsFcs(d: Chip, md1: bv16) {
    !Has(d.mode, M_DTCR) || (d.cLance && Has(md1, ADD_FCS))
  }

  function Framed(d: Chip, md1: bv16, data: seq<bv8>): (f: seq<bv8>)
    ensures |data| <= |f| <= |data| + 4
  {
    if AppendsFcs(d, md1) then data + Wire(Crc(data)) else data
  }

  /** An underrun turns the transmitter off; a frame over 1518 bytes is babble. */
  function Flagged(csr0: bv16, data: seq<bv8>, underrun: bool): bv16 {
    var c := if underrun then Without(csr0, C_TXON) else csr0;
    if |data| > 1518 then With(c, C_ERR | C_BABL) else c
  }

  /** Sending on the wire, and hearing one's own frame when it is addressed to oneself. */
  function External(d: Chip, md1: bv16, md3: bv16, frame: seq<bv8>): (d': Chip)
    requires ChipOk(d)
    ensures ChipOk(d')
  {
    hide Has, With, Without, Fetch, Store, Desc, Advance, Crc, Gather, Scatter, SendComplete;
    var d1 := SendComplete(d.(frames := if d.hasSend then d.frames + [frame] else d.frames), md1, md3, Sent);
    if 12 <= |frame| <= LB_MAX && frame[..6] == d1.padr then d1.(lb := frame, hairpin := true) else d1
  }

  /** What becomes of a frame whose loop, if any, is as the mode register says. */
  function Dispatch(d: Chip, md1: bv16, md3: bv16, data: seq<bv8>, frame: seq<bv8>): (d': Chip)
    requires ChipOk(d) && |data| <= |frame| <= |data| + 4
    ensures ChipOk(d')
  {
    hide Has, External, SendComplete;
    if !Has(d.mode, M_LOOP) then External(d, md1, md3, frame)
    else if Has(d.mode, M_COLL) && Has(d.mode, M_INTL) then SendComplete(d, md1, md3, Collision)
    else if |data| < 8 || |data| > 32 then SendComplete(d, md1, md3, BadLoopback)
    else if Has(d.mode, M_INTL) then SendComplete(d.(lb := frame), md1, md3, Sent)
    else External(d.(lb := frame), md1, md3, frame)
  }

  function Moved(d: Chip, m: seq<bv16>, pos: nat): (d': Chip)
    requires |m| == WORDS && pos < d.tx.size
    ensures ChipOk(d) ==> ChipOk(d')
  {
    d.(mem := m, txPos := pos)
  }

  /** lance_transmit; `md1` is the first descriptor's status word. */
  function Transmit(d: Chip, md1: bv16): (d': Chip)
    requires ChipOk(d) && OwnedAt(d.mem, d.tx, d.txPos)
    ensures ChipOk(d')
  {
    hide Without, Gather, Dispatch, Framed, Flagged, Swap, OwnedAt, SetCsr, Moved, FirstStatus;
    var first := FirstStatus(d, md1);
    match Gather(d.mem, d.tx, d.txPos, first, [], d.cLance, Swap(d))
    case Dropped(m, pos) => Moved(d, m, pos)
    case Frame(m, pos, md1', md3, data, underrun) =>
      Dispatch(SetCsr(Moved(d, m, pos), Flagged(d.csr0, data, underrun)), md1', md3, data, Framed(d, first, data))
  }

  /** A first-generation chip does not know the bit that asks for a check sequence. */
  function FirstStatus(d: Chip, md1: bv16): bv16 {
    if d.cLance then md1 else Without(md1, ADD_FCS)
  }

  /** The transmit half of lance_transmit_poll. */
  function PollRing(d: Chip): (d': Chip)
    requires ChipOk(d)
    ensures ChipOk(d')
  {
    hide Has, With, Without, Fetch, Store, Desc, Advance, Crc, Gather, Scatter, Transmit;
    if !Has(d.csr0, C_TXON) then d
    else
      AdvanceIs(d.tx, d.txPos);
      var d1 := SetCsr(d, Without(d.csr0, C_TDMD));
      var a := Desc(d.tx, d.txPos);
      var md1 := Fetch(d.mem, a + 2);
      if !Has(md1, OWN) then d1
      else if !Has(md1, STP) then Moved(d1, Store(d.mem, a + 2, Without(md1, OWN)), Advance(d.tx, d.txPos))
      else Transmit(d1, md1)
  }

  /** lance_transmit_poll. */
  function Poll(d: Chip): (d': Chip)
    requires ChipOk(d)
    ensures ChipOk(d')
  {
    hide Has, With, Without, Fetch, Store, Desc, Advance, Crc, Gather, Scatter, PollRing, Receive, Complete;
    var d1 := PollRing(d);
    if d1.lb != [] && (Has(d1.mode, M_LOOP) || d1.hairpin)
    then Complete(d1.(lb := [], hairpin := false), Receive(d1, d1.lb))
    else d1
  }

  // ---------- the driver interface ----------

  function SetIf(c: bv16, bits: bv16, on: bool): bv16 {
    if on then With(c, bits) else Without(c, bits)
  }

  /** Writing STRT. */
  function Started(d: Chip): (d': Chip)
    requires ChipOk(d)
    ensures ChipOk(d')
  {
    hide Has, With, Without, Fetch, Store, Desc, Advance, Crc, Gather, Scatter, Poll, SetIf;
    var c := Without(With(d.csr0, C_STRT), C_STOP);
    Poll(d.(csr0 := SetIf(SetIf(c, C_RXON, !Has(d.mode, M_DRX)), C_TXON, !Has(d.mode, M_DTX)), poll := 1))
  }

  /** Writing TDMD, which also starts a controller that was not started; it leaves STOP as it is. */
  function Demanded(d: Chip): (d': Chip)
    requires ChipOk(d)
    ensures ChipOk(d')
  {
    hide Has, With, Without, Fetch, Store, Desc, Advance, Crc, Gather, Scatter, Poll;
    var c := With(d.csr0, C_TDMD);
    var c' := if Has(c, C_STRT) then c
              else
                var c1 := With(c, C_STRT);
                var c2 := if Has(d.mode, M_DRX) then c1 else With(c1, C_RXON);
                if Has(d.mode, M_DTX) then c2 else With(c2, C_TXON);
    Poll(d.(csr0 := c', poll := 1))
  }

  function Recomputed(c: bv16): bv16 {
    SetIf(SetIf(c, C_ERR, Has(c, ERR_CAUSES)), C_INTR, Has(SetIf(c, C_ERR, Has(c, ERR_CAUSES)), INTR_CAUSES))
  }

  /** The flags written as one are cleared. */
  function Cleared(c: bv16, data: bv16): bv16 {
    Without(c, data & CLEARABLE)
  }

  /** The interrupt enable bit as written, unless a first-generation chip is stopped. */
  function Enabled(d: Chip, data: bv16): bv16 {
    if !Has(d.csr0, C_STOP) || d.cLance then SetIf(d.csr0, C_INEA, Has(data, C_INEA)) else d.csr0
  }

  /** The commands in a write of CSR0: INIT, STRT and TDMD, each on its rising edge. */
  function Commands(d: Chip, data: bv16): (d': Chip)
    requires ChipOk(d)
    ensures ChipOk(d')
  {
    hide Has, Initialize, Started, Demanded, Cleared, SetCsr;
    var d1 := SetCsr(d, Cleared(d.csr0, data));
    var d2 := if Has(data, C_INIT) && !Has(d1.csr0, C_INIT) then Initialize(d1) else d1;
    var d3 := if Has(data, C_STRT) && !Has(d2.csr0, C_STRT) then Started(d2) else d2;
    if Has(data, C_TDMD) && !Has(d3.csr0, C_TDMD) then Demanded(d3) else d3
  }

  /** Writing CSR0. */
  function WriteCsr0(d: Chip, data: bv16): (d': Chip)
    requires ChipOk(d)
    ensures ChipOk(d')
  {
    hide Has, Reset, Recomputed, Enabled, SetCsr, Interrupts, Commands;
    if Has(data, C_STOP) then (if Has(d.csr0, C_STOP) then d else Reset(d))
    else
      var d1 := Commands(d, data);
      Interrupts(SetCsr(d1, Recomputed(Enabled(d1, data))))
  }

  /** Writing the register pointer, or another register than CSR0, which takes effect only while stopped. */
  function WriteOther(d: Chip, offset: nat, data: bv16): (d': Chip)
    requires ChipOk(d)
    ensures ChipOk(d') && d'.csr0 == d.csr0 && d'.intLow == d.intLow
  {
    if offset != 0 then d.(rap := (data & 3) as nat)
    else if !Has(d.csr0, C_STOP) then d
    else if d.rap == 1 then d.(csr1 := data)
    else if d.rap == 2 then d.(csr2 := data)
    else d.(csr3 := data & 7)
  }

  /** lance_regs_w. */
  function Write(d: Chip, offset: nat, data: bv16): (d': Chip)
    requires ChipOk(d)
    ensures ChipOk(d')
  {
    hide WriteCsr0, WriteOther;
    if offset == 0 && d.rap == 0 then WriteCsr0(d, data) else WriteOther(d, offset, data)
  }

  /** lance_tick. */
  function Tick(d: Chip, cycles: int): (d': Chip)
    requires ChipOk(d)
    ensures ChipOk(d')
  {
    hide Has, With, Without, Fetch, Store, Desc, Advance, Crc, Gather, Scatter, Poll;
    if cycles <= 0 || d.poll <= 0 then d
    else if d.poll - cycles > 0 then d.(poll := d.poll - cycles)
    else Poll(d.(poll := POLL_CYCLES))
  }
}
