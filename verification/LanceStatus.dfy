/** The composite flags, the interrupt line and the ring positions over every sequence of calls. */
module LanceStatus {
  import opened LanceMemory
  import opened LanceRings
  import opened LanceChip

  /** ERR stands for its four causes and INTR for its six. */
  predicate ErrIs(c: bv16) {
    Has(c, C_ERR) <==> Has(c, ERR_CAUSES)
  }

  predicate IntrIs(c: bv16) {
    Has(c, C_INTR) <==> Has(c, INTR_CAUSES)
  }

  /** What a driver may rely on between calls. */
  ghost predicate Settled(d: Chip) {
    && ChipOk(d) && ErrIs(d.csr0) && IntrIs(d.csr0)
    && (d.intLow <==> Has(d.csr0, C_INEA) && Has(d.csr0, C_INTR))
  }

  /** The bits that neither flag depends on, and the interrupt enable bit apart. */
  const NEUTRAL: bv16 := 0x003F

  lemma ClearNeutral(c: bv16, bits: bv16)
    requires bits & NEUTRAL == bits
    ensures ErrIs(Without(c, bits)) == ErrIs(c) && IntrIs(Without(c, bits)) == IntrIs(c)
    ensures Has(Without(c, bits), C_INEA) == Has(c, C_INEA) && Has(Without(c, bits), C_INTR) == Has(c, C_INTR)
  {
    var w := c & !bits;
    assert w & 0x8000 == c & 0x8000;
    assert w & 0x7800 == c & 0x7800;
    assert w & 0x0080 == c & 0x0080;
    assert w & 0x5F00 == c & 0x5F00;
    assert w & 0x0040 == c & 0x0040;
  }

  lemma RaiseTint(c: bv16)
    ensures Has(With(c, C_TINT | C_INTR), C_INTR) && Has(With(c, C_TINT | C_INTR), INTR_CAUSES)
    ensures Has(With(c, C_TINT | C_INTR), C_ERR) == Has(c, C_ERR)
    ensures Has(With(c, C_TINT | C_INTR), ERR_CAUSES) == Has(c, ERR_CAUSES)
  {
    assert (c | 0x0280) & 0x8000 == c & 0x8000;
    assert (c | 0x0280) & 0x7800 == c & 0x7800;
  }

  lemma RaiseRint(c: bv16)
    ensures Has(With(c, C_RINT | C_INTR), C_INTR) && Has(With(c, C_RINT | C_INTR), INTR_CAUSES)
    ensures Has(With(c, C_RINT | C_INTR), C_ERR) == Has(c, C_ERR)
    ensures Has(With(c, C_RINT | C_INTR), ERR_CAUSES) == Has(c, ERR_CAUSES)
  {
    assert (c | 0x0480) & 0x8000 == c & 0x8000;
    assert (c | 0x0480) & 0x7800 == c & 0x7800;
  }

  lemma RaiseErr(c: bv16)
    ensures ErrIs(With(c, C_ERR | C_MISS)) && ErrIs(With(c, C_ERR | C_BABL))
  {
    assert (c | 0x9000) & 0x8000 != 0 && (c | 0x9000) & 0x7800 != 0;
    assert (c | 0xC000) & 0x8000 != 0 && (c | 0xC000) & 0x7800 != 0;
  }

  lemma StopSettles()
    ensures ErrIs(C_STOP) && IntrIs(C_STOP) && !Has(C_STOP, C_INEA)
  {
  }

  /** Recomputing gets both flags right, whatever they were. */
  lemma RecomputedIs(c: bv16)
    ensures ErrIs(Recomputed(c)) && IntrIs(Recomputed(c))
  {
    hide Has, With, Without;
    var e := SetIf(c, C_ERR, Has(c, ERR_CAUSES));
    SetErr(c);
    SetIntr(e);
  }

  lemma ErrOn(c: bv16)
    ensures Has(With(c, C_ERR), C_ERR) && Has(With(c, C_ERR), ERR_CAUSES) == Has(c, ERR_CAUSES)
  {
    assert (c | 0x8000) & 0x7800 == c & 0x7800;
  }

  lemma ErrOff(c: bv16)
    ensures !Has(Without(c, C_ERR), C_ERR) && Has(Without(c, C_ERR), ERR_CAUSES) == Has(c, ERR_CAUSES)
  {
    assert (c & !0x8000) & 0x7800 == c & 0x7800;
  }

  lemma SetErr(c: bv16)
    ensures ErrIs(SetIf(c, C_ERR, Has(c, ERR_CAUSES)))
  {
    hide Has, With, Without;
    ErrOn(c);
    ErrOff(c);
  }

  lemma IntrOn(c: bv16)
    ensures Has(With(c, C_INTR), C_INTR) && Has(With(c, C_INTR), INTR_CAUSES) == Has(c, INTR_CAUSES)
  {
    assert (c | 0x0080) & 0x5F00 == c & 0x5F00;
  }

  lemma IntrOff(c: bv16)
    ensures !Has(Without(c, C_INTR), C_INTR) && Has(Without(c, C_INTR), INTR_CAUSES) == Has(c, INTR_CAUSES)
  {
    assert (c & !0x0080) & 0x5F00 == c & 0x5F00;
  }

  lemma IntrBeside(c: bv16)
    ensures Has(With(c, C_INTR), C_ERR) == Has(c, C_ERR) && Has(With(c, C_INTR), ERR_CAUSES) == Has(c, ERR_CAUSES)
  {
    assert (c | 0x0080) & 0x8000 == c & 0x8000;
    assert (c | 0x0080) & 0x7800 == c & 0x7800;
  }

  lemma IntrOffBeside(c: bv16)
    ensures Has(Without(c, C_INTR), C_ERR) == Has(c, C_ERR) && Has(Without(c, C_INTR), ERR_CAUSES) == Has(c, ERR_CAUSES)
  {
    assert (c & !0x0080) & 0x8000 == c & 0x8000;
    assert (c & !0x0080) & 0x7800 == c & 0x7800;
  }

  lemma SetIntr(c: bv16)
    ensures IntrIs(SetIf(c, C_INTR, Has(c, INTR_CAUSES)))
    ensures ErrIs(SetIf(c, C_INTR, Has(c, INTR_CAUSES))) == ErrIs(c)
  {
    hide Has, With, Without;
    IntrOn(c);
    IntrOff(c);
    IntrBeside(c);
    IntrOffBeside(c);
  }

  // ---------- calls ----------

  lemma FlaggedErr(c: bv16, data: seq<bv8>, underrun: bool)
    requires ErrIs(c)
    ensures ErrIs(Flagged(c, data, underrun))
  {
    hide Has, With, Without, ErrIs, IntrIs;
    Neutrals();
    ClearNeutral(c, C_TXON);
    RaiseErr(if underrun then Without(c, C_TXON) else c);
  }

  lemma Neutrals()
    ensures C_TXON & NEUTRAL == C_TXON && C_TDMD & NEUTRAL == C_TDMD
  {
  }

  lemma CompleteSettles(d: Chip, o: Outcome)
    requires Settled(d) && (o.Taken? ==> |o.m| == WORDS && o.pos < d.rx.size)
    ensures Settled(Complete(d, o))
  {
    hide Has, With, Without, Store, Desc, Advance, CountWord;
    RaiseErr(d.csr0);
    RaiseRint(d.csr0);
    RaiseRint(With(d.csr0, C_ERR | C_MISS));
  }

  lemma SendSettles(d: Chip, md1: bv16, md3: bv16, result: Result)
    requires ChipOk(d) && ErrIs(d.csr0)
    ensures Settled(SendComplete(d, md1, md3, result))
  {
    hide Has, With, Without, Store, Desc, Advance;
    RaiseTint(d.csr0);
  }

  lemma ExternalSettles(d: Chip, md1: bv16, md3: bv16, frame: seq<bv8>)
    requires ChipOk(d) && ErrIs(d.csr0)
    ensures Settled(External(d, md1, md3, frame))
  {
    hide Has, With, Without, ErrIs, IntrIs, SendComplete;
    SendSettles(d.(frames := if d.hasSend then d.frames + [frame] else d.frames), md1, md3, Sent);
  }

  lemma DispatchSettles(d: Chip, md1: bv16, md3: bv16, data: seq<bv8>, frame: seq<bv8>)
    requires ChipOk(d) && ErrIs(d.csr0) && |data| <= |frame| <= |data| + 4
    ensures Settled(Dispatch(d, md1, md3, data, frame))
  {
    hide Has, With, Without, ErrIs, IntrIs, SendComplete, External;
    if !Has(d.mode, M_LOOP) {
      ExternalSettles(d, md1, md3, frame);
    } else if Has(d.mode, M_COLL) && Has(d.mode, M_INTL) {
      SendSettles(d, md1, md3, Collision);
    } else if |data| < 8 || |data| > 32 {
      SendSettles(d, md1, md3, BadLoopback);
    } else if Has(d.mode, M_INTL) {
      SendSettles(d.(lb := frame), md1, md3, Sent);
    } else {
      ExternalSettles(d.(lb := frame), md1, md3, frame);
    }
  }

  lemma TransmitSettles(d: Chip, md1: bv16)
    requires Settled(d) && OwnedAt(d.mem, d.tx, d.txPos)
    ensures Settled(Transmit(d, md1))
  {
    hide Has, With, Without, ErrIs, IntrIs, Dispatch, Flagged, Gather, OwnedAt, Framed;
    var first := FirstStatus(d, md1);
    match Gather(d.mem, d.tx, d.txPos, first, [], d.cLance, Swap(d)) {
      case Dropped(_, _) =>
      case Frame(m, pos, md1', md3, data, underrun) =>
        FlaggedErr(d.csr0, data, underrun);
        DispatchSettles(SetCsr(Moved(d, m, pos), Flagged(d.csr0, data, underrun)), md1', md3, data, Framed(d, first, data));
    }
  }

  lemma SettledOk(d: Chip)
    requires Settled(d)
    ensures ChipOk(d)
  {
  }

  lemma DemandSettles(d: Chip)
    requires Settled(d)
    ensures Settled(SetCsr(d, Without(d.csr0, C_TDMD)))
  {
    hide Has, Without, ErrIs, IntrIs;
    Neutrals();
    ClearNeutral(d.csr0, C_TDMD);
  }

  lemma MovedSettles(d: Chip, m: seq<bv16>, pos: nat)
    requires Settled(d) && |m| == WORDS && pos < d.tx.size
    ensures Settled(Moved(d, m, pos))
  {
    hide Has, ErrIs, IntrIs;
  }

  lemma PollRingSettles(d: Chip)
    requires Settled(d)
    ensures Settled(PollRing(d))
  {
    hide Has, With, Without, Settled, Transmit, Store, Desc, Advance, Moved;
    SettledOk(d);
    DemandSettles(d);
    AdvanceIs(d.tx, d.txPos);
    var d1 := SetCsr(d, Without(d.csr0, C_TDMD));
    var md1 := Fetch(d.mem, Desc(d.tx, d.txPos) + 2);
    if OwnedAt(d.mem, d.tx, d.txPos) {
      TransmitSettles(d1, md1);
      MovedSettles(d1, Store(d.mem, Desc(d.tx, d.txPos) + 2, Without(md1, OWN)), Advance(d.tx, d.txPos));
    }
  }

  lemma PollSettles(d: Chip)
    requires Settled(d)
    ensures Settled(Poll(d))
  {
    hide Has, ErrIs, IntrIs, PollRing, Receive, Complete;
    PollRingSettles(d);
    var d1 := PollRing(d);
    if d1.lb != [] {
      CompleteSettles(d1.(lb := [], hairpin := false), Receive(d1, d1.lb));
    }
  }

  lemma ResetSettles(d: Chip)
    requires ChipOk(d)
    ensures Settled(Reset(d))
  {
    hide Has, ErrIs, IntrIs;
    StopSettles();
  }

  lemma RecomputedSettles(d: Chip, c: bv16)
    requires ChipOk(d)
    ensures Settled(Interrupts(SetCsr(d, Recomputed(c))))
  {
    hide Has, ErrIs, IntrIs, Recomputed;
    RecomputedIs(c);
  }

  lemma WriteCsr0Settles(d: Chip, data: bv16)
    requires Settled(d)
    ensures Settled(WriteCsr0(d, data))
  {
    hide Has, Settled, Reset, Recomputed, Enabled, Commands, Interrupts, SetCsr;
    SettledOk(d);
    if Has(data, C_STOP) {
      ResetSettles(d);
    } else {
      RecomputedSettles(Commands(d, data), Enabled(Commands(d, data), data));
    }
  }

  lemma WriteSettles(d: Chip, offset: nat, data: bv16)
    requires Settled(d)
    ensures Settled(Write(d, offset, data))
  {
    hide Has, ErrIs, IntrIs, WriteCsr0, WriteOther;
    WriteCsr0Settles(d, data);
  }

  lemma TickSettles(d: Chip, cycles: int)
    requires Settled(d)
    ensures Settled(Tick(d, cycles))
  {
    hide Has, ErrIs, IntrIs, Poll;
    PollSettles(d.(poll := POLL_CYCLES));
  }

  lemma RecvSettles(d: Chip, frame: seq<bv8>)
    requires Settled(d)
    ensures Settled(Recv(d, frame))
  {
    hide Settled, Receive, Complete, Internal;
    SettledOk(d);
    if |frame| >= 60 {
      CompleteSettles(d, Receive(d, frame));
    }
  }

  datatype Call = Regs(offset: nat, data: bv16) | Ticks(cycles: int) | Wired(frame: seq<bv8>) | ResetPin

  function Called(d: Chip, c: Call): (d': Chip)
    requires ChipOk(d)
    ensures ChipOk(d')
  {
    match c
    case Regs(offset, data) => Write(d, offset, data)
    case Ticks(cycles) => Tick(d, cycles)
    case Wired(frame) => Recv(d, frame)
    case ResetPin => Reset(d)
  }

  lemma CallSettles(d: Chip, c: Call)
    requires Settled(d)
    ensures Settled(Called(d, c))
  {
    hide Settled, Write, Tick, Recv, Reset;
    SettledOk(d);
    match c {
      case Regs(offset, data) => WriteSettles(d, offset, data);
      case Ticks(cycles) => TickSettles(d, cycles);
      case Wired(frame) => RecvSettles(d, frame);
      case ResetPin => ResetSettles(d);
    }
  }

  function AfterCalls(d: Chip, calls: seq<Call>): (d': Chip)
    requires ChipOk(d)
    ensures ChipOk(d')
    decreases |calls|
  {
    if calls == [] then d else AfterCalls(Called(d, calls[0]), calls[1..])
  }

  /**
   After every sequence of register writes, ticks, received frames and resets: ERR stands for its causes, INTR for
   its own, the line is asserted exactly when INTR is set and enabled, and both positions lie in their rings.
   */
  lemma {:induction false} AlwaysSettled(d: Chip, calls: seq<Call>)
    requires Settled(d)
    ensures Settled(AfterCalls(d, calls))
    decreases |calls|
  {
    hide Settled, Called;
    SettledOk(d);
    if calls != [] {
      CallSettles(d, calls[0]);
      AlwaysSettled(Called(d, calls[0]), calls[1..]);
    }
  }

  /** The state after power-on. */
  function PowerOn(cLance: bool, hasSend: bool, mem: seq<bv16>): Chip {
    Reset(Chip(cLance, hasSend, 0, 0, 0, 0, 0, 0, 0, [0, 0, 0, 0, 0, 0], Ring(0, 1), 0, Ring(0, 1), 0, [], false, false, 0, mem, []))
  }

  lemma PowerOnSettled(cLance: bool, hasSend: bool, mem: seq<bv16>)
    requires |mem| == WORDS
    ensures Settled(PowerOn(cLance, hasSend, mem))
  {
    ResetSettles(Chip(cLance, hasSend, 0, 0, 0, 0, 0, 0, 0, [0, 0, 0, 0, 0, 0], Ring(0, 1), 0, Ring(0, 1), 0, [], false, false, 0, mem, []));
  }
}
