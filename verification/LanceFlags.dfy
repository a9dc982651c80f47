/** CSR0 by its bits: what stands in it after every run, and what a write to it does. */
module LanceFlags {
  import opened LanceMemory
  import opened LanceRings
  import opened LanceChip
  import opened LanceStatus

  /**
   ERR (bit 15) stands for BABL, CERR, MISS and MERR (14 to 11); INTR (bit 7) for BABL, MISS, MERR, RINT, TINT and IDON
   (14, 12 to 8); the line is asserted exactly while INTR and INEA (bit 6) are set.
   */
  predicate FlagsRight(csr0: bv16, intLow: bool) {
    && (csr0 & 0x8000 != 0 <==> csr0 & 0x7800 != 0)
    && (csr0 & 0x0080 != 0 <==> csr0 & 0x5F00 != 0)
    && (intLow <==> csr0 & 0x0040 != 0 && csr0 & 0x0080 != 0)
  }

  lemma SettledIs(d: Chip)
    ensures Settled(d) <==> ChipOk(d) && FlagsRight(d.csr0, d.intLow)
  {
  }

  /** From power-on, after every sequence of calls. */
  lemma AlwaysRight(cLance: bool, hasSend: bool, mem: seq<bv16>, calls: seq<Call>)
    requires |mem| == 0x80_0000
    ensures ChipOk(PowerOn(cLance, hasSend, mem))
    ensures var d := AfterCalls(PowerOn(cLance, hasSend, mem), calls);
            FlagsRight(d.csr0, d.intLow) && d.rxPos < d.rx.size && d.txPos < d.tx.size
  {
    hide FlagsRight, Settled, AfterCalls, PowerOn;
    PowerOnSettled(cLance, hasSend, mem);
    SettledIs(PowerOn(cLance, hasSend, mem));
    AlwaysSettled(PowerOn(cLance, hasSend, mem), calls);
    SettledIs(AfterCalls(PowerOn(cLance, hasSend, mem), calls));
  }

  // ---------- writes without a command ----------

  lemma ClearedBits(c: bv16, data: bv16)
    ensures Cleared(c, data) & 0x7F3F == c & 0x7F3F & !(data & 0x7F00)
    ensures Cleared(c, data) & 0x0044 == c & 0x0044
  {
  }

  lemma EnabledBits(c: bv16, data: bv16)
    ensures SetIf(c, C_INEA, Has(data, C_INEA)) & 0x7F3F == c & 0x7F3F
    ensures SetIf(c, C_INEA, Has(data, C_INEA)) & 0x0040 == data & 0x0040
  {
    if Has(data, C_INEA) {
      assert (c | 0x0040) & 0x0040 == 0x0040;
      assert data & 0x0040 == 0x0040;
    } else {
      assert (c & !0x0040) & 0x0040 == 0;
    }
  }

  lemma ErrBit(c: bv16, on: bool)
    ensures SetIf(c, C_ERR, on) & 0x7F7F == c & 0x7F7F
  {
    assert (c | 0x8000) & 0x7F7F == c & 0x7F7F;
    assert (c & !0x8000) & 0x7F7F == c & 0x7F7F;
  }

  lemma IntrBit(c: bv16, on: bool)
    ensures SetIf(c, C_INTR, on) & 0x7F7F == c & 0x7F7F
  {
    assert (c | 0x0080) & 0x7F7F == c & 0x7F7F;
    assert (c & !0x0080) & 0x7F7F == c & 0x7F7F;
  }

  lemma RecomputedBits(c: bv16)
    ensures Recomputed(c) & 0x7F7F == c & 0x7F7F
  {
    hide Has, SetIf;
    var e := SetIf(c, C_ERR, Has(c, ERR_CAUSES));
    ErrBit(c, Has(c, ERR_CAUSES));
    IntrBit(e, Has(e, INTR_CAUSES));
  }

  lemma Narrower(a: bv16, b: bv16)
    requires a & 0x7F7F == b & 0x7F7F
    ensures a & 0x7F3F == b & 0x7F3F && a & 0x0040 == b & 0x0040
  {
    assert a & 0x7F3F == (a & 0x7F7F) & 0x7F3F && b & 0x7F3F == (b & 0x7F7F) & 0x7F3F;
    assert a & 0x0040 == (a & 0x7F7F) & 0x0040 && b & 0x0040 == (b & 0x7F7F) & 0x0040;
  }

  lemma NoCommand(data: bv16)
    requires data & 0x000F == 0
    ensures !Has(data, C_INIT) && !Has(data, C_STRT) && !Has(data, C_STOP) && !Has(data, C_TDMD)
  {
    assert data & 0x0001 == (data & 0x000F) & 0x0001 && data & 0x0002 == (data & 0x000F) & 0x0002;
    assert data & 0x0004 == (data & 0x000F) & 0x0004 && data & 0x0008 == (data & 0x000F) & 0x0008;
  }

  /** What such a write comes to. */
  lemma PlainWrite(d: Chip, data: bv16)
    requires ChipOk(d) && d.rap == 0 && data & 0x000F == 0
    ensures var c := Cleared(d.csr0, data);
            Write(d, 0, data) == Interrupts(SetCsr(d, Recomputed(Enabled(SetCsr(d, c), data))))
  {
    hide Has, Cleared, Recomputed, SetIf, ChipOk;
    NoCommand(data);
  }

  lemma PlainBits(d: Chip, data: bv16)
    ensures var c := Cleared(d.csr0, data);
            var e := Recomputed(Enabled(SetCsr(d, c), data));
            && e & 0x7F3F == d.csr0 & 0x7F3F & !(data & 0x7F00)
            && e & 0x0040 == (if d.csr0 & 0x0004 == 0 || d.cLance then data & 0x0040 else d.csr0 & 0x0040)
  {
    hide Has, Cleared, Recomputed, SetIf;
    var c := Cleared(d.csr0, data);
    ClearedBits(d.csr0, data);
    EnabledBits(c, data);
    RecomputedBits(Enabled(SetCsr(d, c), data));
    Narrower(Recomputed(Enabled(SetCsr(d, c), data)), Enabled(SetCsr(d, c), data));
    StopBit(c, d.csr0);
  }

  /**
   A write with none of the four command bits: the seven flags written as ones are cleared and no other; INEA is as
   written unless an Am7990 is stopped; everything else stays, and ERR, INTR and the line follow.
   */
  lemma FlagsCleared(d: Chip, data: bv16)
    requires ChipOk(d) && d.rap == 0 && data & 0x000F == 0
    ensures var e := Write(d, 0, data);
            && e.csr0 & 0x7F3F == d.csr0 & 0x7F3F & !(data & 0x7F00)
            && e.csr0 & 0x0040 == (if d.csr0 & 0x0004 == 0 || d.cLance then data & 0x0040 else d.csr0 & 0x0040)
            && FlagsRight(e.csr0, e.intLow) && e == d.(csr0 := e.csr0, intLow := e.intLow)
  {
    hide ChipOk, Has, Cleared, Recomputed, Enabled, FlagsRight, Settled, Write;
    PlainWrite(d, data);
    PlainBits(d, data);
    var c := Enabled(SetCsr(d, Cleared(d.csr0, data)), data);
    RecomputedSettles(d, c);
    SettledIs(Write(d, 0, data));
  }

  lemma StopBit(c: bv16, c0: bv16)
    requires c & 0x0044 == c0 & 0x0044
    ensures Has(c, C_STOP) <==> c0 & 0x0004 != 0
    ensures c & 0x0040 == c0 & 0x0040
  {
    assert c & 0x0004 == (c & 0x0044) & 0x0004 && c0 & 0x0004 == (c0 & 0x0044) & 0x0004;
    assert c & 0x0040 == (c & 0x0044) & 0x0040 && c0 & 0x0040 == (c0 & 0x0044) & 0x0040;
  }

  // ---------- starting ----------

  /** INIT, STRT, STOP and RXON are the same, and TXON is not set anew. */
  predicate SwitchesKept(c: bv16, e: bv16) {
    e & 0x0027 == c & 0x0027 && (c & 0x0010 == 0 ==> e & 0x0010 == 0)
  }

  lemma RaisedKept(c: bv16)
    ensures SwitchesKept(c, With(c, C_RINT | C_INTR)) && SwitchesKept(c, With(c, C_TINT | C_INTR))
    ensures SwitchesKept(c, With(c, C_ERR | C_MISS)) && SwitchesKept(c, With(c, C_ERR | C_BABL))
    ensures With(c, C_RINT | C_INTR) & 0x0010 == c & 0x0010 && With(c, C_ERR | C_MISS) & 0x0010 == c & 0x0010
  {
  }

  lemma LoweredKept(c: bv16)
    ensures SwitchesKept(c, Without(c, C_TXON)) && SwitchesKept(c, Without(c, C_TDMD)) && SwitchesKept(c, c)
    ensures Without(c, C_TDMD) & 0x0010 == c & 0x0010
  {
  }

  lemma CompleteKept(d: Chip, o: Outcome)
    requires ChipOk(d) && (o.Taken? ==> |o.m| == WORDS && o.pos < d.rx.size)
    ensures SwitchesKept(d.csr0, Complete(d, o).csr0) && Complete(d, o).csr0 & 0x0010 == d.csr0 & 0x0010
  {
    hide Has, With, Store, Desc, Advance, CountWord, ChipOk;
    RaisedKept(d.csr0);
    RaisedKept(With(d.csr0, C_ERR | C_MISS));
    LoweredKept(d.csr0);
  }

  lemma SendKept(d: Chip, md1: bv16, md3: bv16, result: Result)
    requires ChipOk(d)
    ensures SwitchesKept(d.csr0, SendComplete(d, md1, md3, result).csr0)
  {
    hide Has, With, Desc, Advance, Closed, SwitchesKept;
    RaisedKept(d.csr0);
  }

  lemma ExternalKept(d: Chip, md1: bv16, md3: bv16, frame: seq<bv8>)
    requires ChipOk(d)
    ensures SwitchesKept(d.csr0, External(d, md1, md3, frame).csr0)
  {
    hide Has, SendComplete, SwitchesKept;
    SendKept(d.(frames := if d.hasSend then d.frames + [frame] else d.frames), md1, md3, Sent);
  }

  lemma DispatchKept(d: Chip, md1: bv16, md3: bv16, data: seq<bv8>, frame: seq<bv8>)
    requires ChipOk(d) && |data| <= |frame| <= |data| + 4
    ensures SwitchesKept(d.csr0, Dispatch(d, md1, md3, data, frame).csr0)
  {
    hide Has, SendComplete, External, SwitchesKept;
    if !Has(d.mode, M_LOOP) {
      ExternalKept(d, md1, md3, frame);
    } else if Has(d.mode, M_COLL) && Has(d.mode, M_INTL) {
      SendKept(d, md1, md3, Collision);
    } else if |data| < 8 || |data| > 32 {
      SendKept(d, md1, md3, BadLoopback);
    } else if Has(d.mode, M_INTL) {
      SendKept(d.(lb := frame), md1, md3, Sent);
    } else {
      ExternalKept(d.(lb := frame), md1, md3, frame);
    }
  }

  lemma FlaggedKept(c: bv16, data: seq<bv8>, underrun: bool)
    ensures SwitchesKept(c, Flagged(c, data, underrun))
  {
    hide With, Without;
    LoweredKept(c);
    RaisedKept(c);
    RaisedKept(Without(c, C_TXON));
  }

  lemma KeptTwice(a: bv16, b: bv16, c: bv16)
    requires SwitchesKept(a, b) && SwitchesKept(b, c)
    ensures SwitchesKept(a, c)
  {
  }

  lemma TransmitKept(d: Chip, md1: bv16)
    requires ChipOk(d) && OwnedAt(d.mem, d.tx, d.txPos)
    ensures SwitchesKept(d.csr0, Transmit(d, md1).csr0)
  {
    hide Has, Without, SwitchesKept, Dispatch, Flagged, Gather, OwnedAt, Framed, FirstStatus;
    LoweredKept(d.csr0);
    var first := FirstStatus(d, md1);
    match Gather(d.mem, d.tx, d.txPos, first, [], d.cLance, Swap(d)) {
      case Dropped(_, _) =>
      case Frame(m, pos, md1', md3, data, underrun) =>
        FlaggedKept(d.csr0, data, underrun);
        var e := SetCsr(Moved(d, m, pos), Flagged(d.csr0, data, underrun));
        DispatchKept(e, md1', md3, data, Framed(d, first, data));
        KeptTwice(d.csr0, e.csr0, Dispatch(e, md1', md3, data, Framed(d, first, data)).csr0);
    }
  }

  lemma PollRingKept(d: Chip)
    requires ChipOk(d)
    ensures SwitchesKept(d.csr0, PollRing(d).csr0)
    ensures !OwnedAt(d.mem, d.tx, d.txPos) ==> PollRing(d).csr0 & 0x0010 == d.csr0 & 0x0010
  {
    hide Has, Without, SwitchesKept, Transmit, Store, Desc, Advance, Fetch;
    LoweredKept(d.csr0);
    var d1 := SetCsr(d, Without(d.csr0, C_TDMD));
    if OwnedAt(d.mem, d.tx, d.txPos) {
      var md1 := Fetch(d.mem, Desc(d.tx, d.txPos) + 2);
      TransmitKept(d1, md1);
      KeptTwice(d.csr0, d1.csr0, Transmit(d1, md1).csr0);
    }
  }

  lemma PollKept(d: Chip)
    requires ChipOk(d)
    ensures SwitchesKept(d.csr0, Poll(d).csr0)
    ensures !OwnedAt(d.mem, d.tx, d.txPos) ==> Poll(d).csr0 & 0x0010 == d.csr0 & 0x0010
  {
    hide Has, SwitchesKept, PollRing, Receive, Complete, OwnedAt;
    PollRingKept(d);
    var d1 := PollRing(d);
    if d1.lb != [] {
      var d2 := d1.(lb := [], hairpin := false);
      CompleteKept(d2, Receive(d1, d1.lb));
      KeptTwice(d.csr0, d1.csr0, Complete(d2, Receive(d1, d1.lb)).csr0);
    }
  }

  lemma StartBits(c: bv16, mode: bv16)
    ensures var s := SetIf(SetIf(Without(With(c, C_STRT), C_STOP), C_RXON, !Has(mode, M_DRX)), C_TXON, !Has(mode, M_DTX));
            && s & 0x0027 == (c & 0x0001) | 0x0002 | (if mode & 0x0001 == 0 then 0x0020 else 0)
            && (s & 0x0010 == 0 <==> mode & 0x0002 != 0)
  {
  }

  /** Starting polls the transmit ring at once, with the receiver and the transmitter on unless the mode word says not. */
  lemma StartedKept(d: Chip)
    requires ChipOk(d)
    ensures var e := Started(d).csr0;
            && e & 0x0027 == (d.csr0 & 0x0001) | 0x0002 | (if d.mode & 0x0001 == 0 then 0x0020 else 0)
            && (d.mode & 0x0002 != 0 ==> e & 0x0010 == 0)
            && (d.mode & 0x0002 == 0 && !OwnedAt(d.mem, d.tx, d.txPos) ==> e & 0x0010 != 0)
  {
    hide Has, With, Without, SetIf, Poll, OwnedAt;
    var c := SetIf(SetIf(Without(With(d.csr0, C_STRT), C_STOP), C_RXON, !Has(d.mode, M_DRX)), C_TXON, !Has(d.mode, M_DTX));
    StartBits(d.csr0, d.mode);
    SameOwned(d, c);
    PollKept(d.(csr0 := c, poll := 1));
  }

  lemma SameOwned(d: Chip, c: bv16)
    requires ChipOk(d)
    ensures ChipOk(d.(csr0 := c, poll := 1))
  {
  }

  lemma StartAlone(data: bv16)
    requires data & 0x000F == 0x0002
    ensures !Has(data, C_INIT) && Has(data, C_STRT) && !Has(data, C_STOP) && !Has(data, C_TDMD)
  {
    assert data & 0x0001 == (data & 0x000F) & 0x0001 && data & 0x0002 == (data & 0x000F) & 0x0002;
    assert data & 0x0004 == (data & 0x000F) & 0x0004 && data & 0x0008 == (data & 0x000F) & 0x0008;
  }

  lemma StartWritten(d: Chip, data: bv16)
    requires ChipOk(d) && d.rap == 0 && data & 0x000F == 0x0002 && d.csr0 & 0x0002 == 0
    ensures ChipOk(SetCsr(d, Cleared(d.csr0, data)))
    ensures var d1 := Started(SetCsr(d, Cleared(d.csr0, data)));
            Write(d, 0, data) == Interrupts(SetCsr(d1, Recomputed(Enabled(d1, data))))
  {
    hide Has, Cleared, Recomputed, SetIf, ChipOk, Started, Enabled;
    StartAlone(data);
    NotStarted(d.csr0, data);
  }

  lemma NotStarted(c: bv16, data: bv16)
    requires c & 0x0002 == 0
    ensures !Has(Cleared(c, data), C_STRT)
  {
  }

  lemma SameSwitches(a: bv16, b: bv16)
    requires a & 0x7F3F == b & 0x7F3F
    ensures a & 0x0037 == b & 0x0037
  {
    assert a & 0x0037 == (a & 0x7F3F) & 0x0037 && b & 0x0037 == (b & 0x7F3F) & 0x0037;
  }

  lemma SwitchesApart(a: bv16, b: bv16)
    requires a & 0x0037 == b & 0x0037
    ensures a & 0x0027 == b & 0x0027 && a & 0x0010 == b & 0x0010
  {
    assert a & 0x0027 == (a & 0x0037) & 0x0027 && b & 0x0027 == (b & 0x0037) & 0x0027;
    assert a & 0x0010 == (a & 0x0037) & 0x0010 && b & 0x0010 == (b & 0x0037) & 0x0010;
  }

  lemma EnabledSwitches(d: Chip, data: bv16)
    ensures Recomputed(Enabled(d, data)) & 0x0037 == d.csr0 & 0x0037
  {
    hide Has, Recomputed, SetIf;
    EnabledBits(d.csr0, data);
    RecomputedBits(Enabled(d, data));
    Narrower(Recomputed(Enabled(d, data)), Enabled(d, data));
    SameSwitches(Recomputed(Enabled(d, data)), d.csr0);
  }

  lemma ClearedInit(c: bv16, data: bv16)
    ensures Cleared(c, data) & 0x0001 == c & 0x0001
  {
  }

  /**
   Writing STRT alone to a controller that has not started: it is started and no longer stopped; the receiver is on unless
   the mode word has DRX (bit 0), and the transmitter is off if it has DTX (bit 1), and otherwise on, at least when
   there is nothing to send yet.
   */
  lemma StartSwitchesOn(d: Chip, data: bv16)
    requires ChipOk(d) && d.rap == 0 && data & 0x000F == 0x0002 && d.csr0 & 0x0002 == 0
    ensures var e := Write(d, 0, data).csr0;
            && e & 0x0027 == (d.csr0 & 0x0001) | 0x0002 | (if d.mode & 0x0001 == 0 then 0x0020 else 0)
            && (d.mode & 0x0002 != 0 ==> e & 0x0010 == 0)
            && (d.mode & 0x0002 == 0 && !OwnedAt(d.mem, d.tx, d.txPos) ==> e & 0x0010 != 0)
  {
    hide Has, Cleared, Recomputed, Enabled, Started, Write, OwnedAt, ChipOk, Interrupts;
    StartWritten(d, data);
    var d0 := SetCsr(d, Cleared(d.csr0, data));
    OkHasMemory(d);
    OkHasMemory(d0);
    var d1 := Started(d0);
    StartedKept(d0);
    ClearedInit(d.csr0, data);
    EnabledSwitches(d1, data);
    LineOnly(SetCsr(d1, Recomputed(Enabled(d1, data))));
    SwitchesApart(Recomputed(Enabled(d1, data)), d1.csr0);
  }

  lemma LineOnly(d: Chip)
    ensures Interrupts(d).csr0 == d.csr0
  {
    hide Has;
  }

  lemma OkHasMemory(d: Chip)
    requires ChipOk(d)
    ensures |d.mem| == WORDS
  {
  }

  /** Writing STOP resets a controller that is not stopped, whatever else is written. */
  lemma StopResets(d: Chip, data: bv16)
    requires ChipOk(d) && d.rap == 0 && data & 0x0004 != 0
    ensures var e := Write(d, 0, data);
            if d.csr0 & 0x0004 != 0 then e == d
            else e.csr0 == 0x0004 && e.csr1 == 0 && e.csr2 == 0 && e.csr3 == 0 && e.mode == 0 && e.rap == 0 && e.lb == [] && !e.intLow
  {
    hide ChipOk;
  }

  // ---------- transmit demand, initialisation, and the other registers ----------

  lemma DemandAlone(data: bv16)
    requires data & 0x000F == 0x0008
    ensures !Has(data, C_INIT) && !Has(data, C_STRT) && !Has(data, C_STOP) && Has(data, C_TDMD)
  {
    assert data & 0x0001 == (data & 0x000F) & 0x0001 && data & 0x0002 == (data & 0x000F) & 0x0002;
    assert data & 0x0004 == (data & 0x000F) & 0x0004 && data & 0x0008 == (data & 0x000F) & 0x0008;
  }

  lemma NotDemanded(c: bv16, data: bv16)
    requires c & 0x0008 == 0
    ensures !Has(Cleared(c, data), C_TDMD) && Cleared(c, data) & 0x0037 == c & 0x0037
  {
  }

  lemma DemandWritten(d: Chip, data: bv16)
    requires ChipOk(d) && d.rap == 0 && data & 0x000F == 0x0008 && d.csr0 & 0x0008 == 0
    ensures ChipOk(SetCsr(d, Cleared(d.csr0, data)))
    ensures var d1 := Demanded(SetCsr(d, Cleared(d.csr0, data)));
            Write(d, 0, data) == Interrupts(SetCsr(d1, Recomputed(Enabled(d1, data))))
  {
    hide Has, Cleared, Recomputed, SetIf, ChipOk, Demanded, Enabled;
    DemandAlone(data);
    NotDemanded(d.csr0, data);
  }

  /** CSR0 as a demand leaves it before the ring is polled. */
  function DemandCsr(c: bv16, mode: bv16): bv16 {
    var c0 := With(c, C_TDMD);
    if Has(c0, C_STRT) then c0
    else
      var c1 := With(c0, C_STRT);
      var c2 := if Has(mode, M_DRX) then c1 else With(c1, C_RXON);
      if Has(mode, M_DTX) then c2 else With(c2, C_TXON)
  }

  lemma DemandBits(c: bv16, mode: bv16)
    ensures c & 0x0002 != 0 ==> DemandCsr(c, mode) & 0x0037 == c & 0x0037
    ensures c & 0x0002 == 0 ==> DemandCsr(c, mode) & 0x0027 == (c & 0x0027) | 0x0002 | (if mode & 0x0001 == 0 then 0x0020 else 0)
  {
    if c & 0x0002 != 0 {
      assert (c | 0x0008) & 0x0037 == c & 0x0037;
    }
  }

  lemma DemandedIs(d: Chip)
    requires ChipOk(d)
    ensures ChipOk(d.(csr0 := DemandCsr(d.csr0, d.mode), poll := 1))
    ensures Demanded(d) == Poll(d.(csr0 := DemandCsr(d.csr0, d.mode), poll := 1))
  {
    hide Has, With, Poll;
  }

  /**
   Writing TDMD alone: a controller that has started stays as it is switched; one that has not, initialised or stopped,
   is started, with the receiver on unless the mode word has DRX, and STOP stays set if it was.
   */
  lemma DemandStarts(d: Chip, data: bv16)
    requires ChipOk(d) && d.rap == 0 && data & 0x000F == 0x0008 && d.csr0 & 0x0008 == 0
    ensures var e := Write(d, 0, data).csr0;
            e & 0x0027 == if d.csr0 & 0x0002 != 0 then d.csr0 & 0x0027
                          else (d.csr0 & 0x0027) | 0x0002 | (if d.mode & 0x0001 == 0 then 0x0020 else 0)
  {
    hide Has, Cleared, Recomputed, Enabled, Demanded, Write, ChipOk, Interrupts, DemandCsr, Poll;
    DemandWritten(d, data);
    var d0 := SetCsr(d, Cleared(d.csr0, data));
    var d1 := Demanded(d0);
    DemandedIs(d0);
    DemandBits(d0.csr0, d0.mode);
    NotDemanded(d.csr0, data);
    SwitchesApart(d0.csr0, d.csr0);
    StartedBit(d0.csr0, d.csr0);
    PollKept(d0.(csr0 := DemandCsr(d0.csr0, d0.mode), poll := 1));
    AllSwitches(DemandCsr(d0.csr0, d0.mode), d0.csr0);
    EnabledSwitches(d1, data);
    LineOnly(SetCsr(d1, Recomputed(Enabled(d1, data))));
    SwitchesApart(Recomputed(Enabled(d1, data)), d1.csr0);
  }

  lemma StartedBit(a: bv16, b: bv16)
    requires a & 0x0037 == b & 0x0037
    ensures a & 0x0002 == b & 0x0002
  {
    assert a & 0x0002 == (a & 0x0037) & 0x0002 && b & 0x0002 == (b & 0x0037) & 0x0002;
  }

  lemma AllSwitches(a: bv16, b: bv16)
    ensures a & 0x0037 == b & 0x0037 ==> a & 0x0027 == b & 0x0027
  {
    if a & 0x0037 == b & 0x0037 {
      SwitchesApart(a, b);
    }
  }

  lemma InitAlone(data: bv16)
    requires data & 0x000F == 0x0001
    ensures Has(data, C_INIT) && !Has(data, C_STRT) && !Has(data, C_STOP) && !Has(data, C_TDMD)
  {
    assert data & 0x0001 == (data & 0x000F) & 0x0001 && data & 0x0002 == (data & 0x000F) & 0x0002;
    assert data & 0x0004 == (data & 0x000F) & 0x0004 && data & 0x0008 == (data & 0x000F) & 0x0008;
  }

  lemma NotInitialised(c: bv16, data: bv16)
    requires c & 0x0001 == 0
    ensures !Has(Cleared(c, data), C_INIT)
  {
  }

  lemma InitWritten(d: Chip, data: bv16)
    requires ChipOk(d) && d.rap == 0 && data & 0x000F == 0x0001 && d.csr0 & 0x0001 == 0
    ensures ChipOk(SetCsr(d, Cleared(d.csr0, data)))
    ensures var d1 := Initialize(SetCsr(d, Cleared(d.csr0, data)));
            Write(d, 0, data) == Interrupts(SetCsr(d1, Recomputed(Enabled(d1, data))))
  {
    hide Has, Cleared, Recomputed, SetIf, ChipOk, Initialize, Enabled;
    InitAlone(data);
    NotInitialised(d.csr0, data);
  }

  /** Writing INIT alone initialises: everything but CSR0 and the line is as initialisation leaves it, and IDON is set. */
  lemma InitStarts(d: Chip, data: bv16)
    requires ChipOk(d) && d.rap == 0 && data & 0x000F == 0x0001 && d.csr0 & 0x0001 == 0
    ensures var e := Write(d, 0, data);
            e == Initialize(d).(csr0 := e.csr0, intLow := e.intLow) && e.csr0 & 0x0037 == 0 && e.csr0 & 0x0100 != 0
  {
    hide Has, Cleared, Recomputed, Enabled, Write, ChipOk, Initialize;
    InitWritten(d, data);
    var d0 := SetCsr(d, Cleared(d.csr0, data));
    var d1 := Initialize(d0);
    SameInit(d, d0.csr0);
    InitSwitches(d0);
    EnabledSwitches(d1, data);
    EnabledDone(d1, data);
  }

  lemma SameInit(d: Chip, c: bv16)
    requires ChipOk(d)
    ensures ChipOk(SetCsr(d, c))
    ensures Initialize(SetCsr(d, c)) == Initialize(d).(csr0 := Initialize(SetCsr(d, c)).csr0, intLow := Initialize(SetCsr(d, c)).intLow)
  {
    hide Has, With, Without, RingOf, LowHalf, HighHalf, InitWord, ChipOk;
    OkHasMemory(d);
    OkHasMemory(SetCsr(d, c));
    forall i: nat
      ensures InitWord(SetCsr(d, c), i) == InitWord(d, i)
    {
      SameWords(d, c, i);
    }
  }

  lemma SameWords(d: Chip, c: bv16, i: nat)
    requires |d.mem| == WORDS
    ensures InitWord(SetCsr(d, c), i) == InitWord(d, i)
  {
    hide Fetch;
  }

  lemma InitSwitches(d: Chip)
    requires ChipOk(d)
    ensures Initialize(d).csr0 & 0x0037 == 0 && Initialize(d).csr0 & 0x0100 != 0
  {
    hide Has, With, Without, RingOf, LowHalf, HighHalf, Fetch;
    SwitchedOff(d.csr0);
  }

  lemma SwitchedOff(c: bv16)
    ensures var e := With(Without(c, C_INIT | C_STOP | C_STRT | C_TXON | C_RXON), C_IDON | C_INTR);
            e & 0x0037 == 0 && e & 0x0100 != 0
  {
  }

  lemma EnabledDone(d: Chip, data: bv16)
    ensures Recomputed(Enabled(d, data)) & 0x0100 == d.csr0 & 0x0100
  {
    hide Has, Recomputed, SetIf;
    EnabledBits(d.csr0, data);
    RecomputedBits(Enabled(d, data));
    Narrower(Recomputed(Enabled(d, data)), Enabled(d, data));
    DoneBit(Recomputed(Enabled(d, data)), d.csr0);
  }

  lemma DoneBit(a: bv16, b: bv16)
    requires a & 0x7F3F == b & 0x7F3F
    ensures a & 0x0100 == b & 0x0100
  {
    assert a & 0x0100 == (a & 0x7F3F) & 0x0100 && b & 0x0100 == (b & 0x7F3F) & 0x0100;
  }

  /** The register select takes two bits; CSR1, CSR2 and three bits of CSR3 can be written only while stopped. */
  lemma RegistersAre(d: Chip, data: bv16)
    requires ChipOk(d)
    ensures Write(d, 1, data) == d.(rap := (data & 0x0003) as nat)
    ensures d.rap != 0 && d.csr0 & 0x0004 == 0 ==> Write(d, 0, data) == d
    ensures d.rap == 1 && d.csr0 & 0x0004 != 0 ==> Write(d, 0, data) == d.(csr1 := data)
    ensures d.rap == 2 && d.csr0 & 0x0004 != 0 ==> Write(d, 0, data) == d.(csr2 := data)
    ensures d.rap == 3 && d.csr0 & 0x0004 != 0 ==> Write(d, 0, data) == d.(csr3 := data & 0x0007)
  {
    hide ChipOk, WriteCsr0;
  }
}
