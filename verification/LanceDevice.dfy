/** The controller's program: registers and ring positions as fields, host memory behind DMA calls. */
module LanceDevice {
  import opened Crc32
  import opened LanceMemory
  import opened LanceRings
  import opened LanceChains
  import opened LanceChip
  import opened LanceDelivery
  import F = LanceFormat
  import M = LanceInMemory

  /** What the host wires to the controller: memory, the interrupt line and the network. */
  class Host {
    var mem: seq<bv16>
    var intLow: bool
    var frames: seq<seq<bv8>>

    constructor (mem: seq<bv16>)
      ensures this.mem == mem && !intLow && frames == []
    {
      this.mem, intLow, frames := mem, false, [];
    }

    method DmaIn(addr: nat) returns (w: bv16)
      requires |mem| == WORDS
      ensures w == Fetch(mem, addr)
    {
      w := mem[addr / 2 % WORDS];
    }

    method DmaOut(addr: nat, w: bv16)
      requires |mem| == WORDS
      modifies `mem
      ensures mem == Store(old(mem), addr, w)
    {
      mem := mem[addr / 2 % WORDS := w];
    }
  }

  class Lance {
    const host: Host
    const crc: TableCrc
    const cLance: bool
    const hasSend: bool
    var rap: nat
    var csr0: bv16
    var csr1: bv16
    var csr2: bv16
    var csr3: bv16
    var mode: bv16
    var filter: bv64
    var padr: seq<bv8>
    var rx: Ring
    var rxPos: nat
    var tx: Ring
    var txPos: nat
    var lb: seq<bv8>
    var hairpin: bool
    var intLow: bool
    var poll: int

    ghost function View(): Chip
      reads this, host
    {
      Chip(cLance, hasSend, rap, csr0, csr1, csr2, csr3, mode, filter, padr, rx, rxPos, tx, txPos, lb, hairpin, intLow, poll,
           host.mem, host.frames)
    }

    ghost predicate Valid()
      reads this, host, crc
    {
      ChipOk(View()) && crc.Valid() && host.intLow == intLow
    }

    /** lance_init. */
    constructor (host: Host, cLance: bool, hasSend: bool)
      requires |host.mem| == WORDS && !host.intLow
      ensures Valid() && this.host == host && fresh(crc)
      ensures View() == Reset(Chip(cLance, hasSend, 0, 0, 0, 0, 0, 0, 0, [0, 0, 0, 0, 0, 0], Ring(0, 1), 0, Ring(0, 1), 0, [], false,
                                   false, 0, host.mem, host.frames))
    {
      this.host, this.cLance, this.hasSend := host, cLance, hasSend;
      crc := new TableCrc();
      rap, csr0, csr1, csr2, csr3, mode, filter := 0, C_STOP, 0, 0, 0, 0, 0;
      padr, rx, rxPos, tx, txPos := [0, 0, 0, 0, 0, 0], Ring(0, 1), 0, Ring(0, 1), 0;
      lb, hairpin, intLow, poll := [], false, false, POLL_CYCLES;
    }

    /** CSR3's BSWP bit. */
    function ByteSwap(): (b: bool)
      reads this
      ensures b == Swap(View())
    {
      Has(csr3, 0x0004)
    }

    lemma SwapBit()
      ensures ByteSwap() == (csr3 & 0x0004 != 0)
    {
    }

    // ---------- interrupts ----------

    /** lance_update_interrupts: the host is told of changes only. */
    method UpdateInterrupts()
      requires host.intLow == intLow
      modifies `intLow, host`intLow
      ensures intLow == (Has(csr0, C_INEA) && Has(csr0, C_INTR)) && host.intLow == intLow
    {
      hide Has;
      var low := false;
      if Has(csr0, C_INEA) {
        low := Has(csr0, C_INTR);
      }
      if low != intLow {
        intLow := low;
        host.intLow := low;
      }
    }

    // ---------- block transfers ----------

    /** lance_dma_in_block. */
    method DmaInBlock(addr: nat, length: nat) returns (buf: seq<bv8>)
      requires |host.mem| == WORDS && length > 0
      ensures buf == Block(host.mem, addr, length, ByteSwap())
      ensures forall i :: 0 <= i < length ==> buf[i] == F.HostByte(host.mem, addr + i, csr3 & 0x0004 != 0)
    {
      hide Fetch, Block, ByteSwap, ByteAt, F.HostByte;
      var swap := ByteSwap();
      SwapBit();
      M.BlockBytes(host.mem, addr, length, swap);
      buf := [];
      var a, n := addr, length;
      if a % 2 == 1 {
        OddStart(host.mem, a, n, swap);
        var w := host.DmaIn(a - 1);
        buf := [OddByte(w, swap)];
        a, n := a + 1, n - 1;
      }
      while n > 1
        invariant a % 2 == 0 || n == 0
        invariant buf + Block(host.mem, a, n, swap) == Block(host.mem, addr, length, swap)
      {
        TwoMore(host.mem, a, n, swap, buf);
        var w := host.DmaIn(a);
        buf := buf + [EvenByte(w, swap), OddByte(w, swap)];
        a, n := a + 2, n - 2;
      }
      LastOne(host.mem, a, n, swap, buf);
      if n > 0 {
        var w := host.DmaIn(a);
        buf := buf + [EvenByte(w, swap)];
      }
    }

    /** lance_dma_out_block. */
    method DmaOutBlock(addr: nat, data: seq<bv8>)
      requires |host.mem| == WORDS && data != []
      modifies host`mem
      ensures host.mem == OutBlock(old(host.mem), addr, data, ByteSwap())
      ensures |host.mem| == WORDS
      ensures addr + |data| <= 0x100_0000 ==> F.StoredAt(host.mem, old(host.mem), addr, data, csr3 & 0x0004 != 0)
    {
      hide Has, Halves, Store, ByteSwap, F.StoredAt;
      var swap := ByteSwap();
      SwapBit();
      if addr + |data| <= SPACE {
        M.OutBytes(host.mem, addr, data, swap);
      }
      var a, d := addr, data;
      if a % 2 == 1 {
        host.DmaOut(a - 1, if swap then Halves(0, d[0]) else Halves(d[0], 0));
        a, d := a + 1, d[1..];
      }
      while |d| > 1
        invariant |host.mem| == WORDS && (a % 2 == 0 || d == [])
        invariant OutBlock(host.mem, a, d, swap) == OutBlock(old(host.mem), addr, data, swap)
        decreases |d|
      {
        host.DmaOut(a, if swap then Halves(d[0], d[1]) else Halves(d[1], d[0]));
        a, d := a + 2, d[2..];
      }
      if |d| > 0 {
        host.DmaOut(a, if swap then Halves(d[0], 0) else Halves(0, d[0]));
      }
    }

    /** The status word of the next descriptor, or on a ring of one the word just changed. */
    method LookAhead(r: Ring, pos: nat, next: nat, mine: bv16) returns (ahead: bv16)
      requires |host.mem| == WORDS
      ensures ahead == TurnAhead(host.mem, r, pos, next, mine)
    {
      hide Fetch, Desc;
      ahead := mine;
      if Desc(r, next) != Desc(r, pos) {
        ahead := host.DmaIn(Desc(r, next) + 2);
      }
    }

    // ---------- receiving ----------

    /** lance_address_filter. */
    method AddressFilter(buf: seq<bv8>) returns (ok: bool)
      requires Valid() && |buf| >= 6
      modifies crc
      ensures Valid() && ok == Accepts(View(), buf)
    {
      hide Has, Multicast, FilterBit, HashBit, Crc, ChipOk;
      if Has(mode, M_PROM) {
        return true;
      }
      if Multicast(buf[0]) {
        if buf[..6] == BROADCAST {
          return true;
        }
        var c := crc.LanceCrc32(buf[..6]);
        ok := FilterBit(filter, HashBit(c));
      } else {
        ok := buf[..6] == padr;
      }
    }

    /** One buffer filled with what it takes of the frame. */
    method FillOne(buf: seq<bv8>, offset: nat, md1: bv16) returns (count: nat)
      requires |host.mem| == WORDS && offset < |buf|
      modifies host`mem
      ensures var d := Desc(rx, rxPos);
              var len := RxLen(cLance, Fetch(old(host.mem), d + 4));
              && count == (if |buf[offset..]| < len then |buf[offset..]| else len)
              && host.mem == OutBlock(old(host.mem), BufAddr(Fetch(old(host.mem), d), md1), buf[offset..][..count], ByteSwap())
    {
      hide Fetch, Desc, BufAddr, RxLen, OutBlock, ByteSwap;
      var d := Desc(rx, rxPos);
      var md0 := host.DmaIn(d);
      var md2 := host.DmaIn(d + 4);
      var len := RxLen(cLance, md2);
      count := if |buf| - offset < len then |buf| - offset else len;
      DmaOutBlock(BufAddr(md0, md1), buf[offset..][..count]);
    }

    /** The loop of lance_receive: buffers filled one after the other until the frame or the ring ends. */
    method FillBuffers(buf: seq<bv8>, status: bv16) returns (md1: bv16, offset: nat)
      requires Valid() && buf != []
      modifies `rxPos, host`mem
      ensures |host.mem| == WORDS && rxPos < rx.size && offset <= |buf|
      ensures Scatter(old(host.mem), rx, old(rxPos), status, buf, cLance, ByteSwap()) == Scattered(host.mem, rxPos, md1, buf[offset..])
    {
      hide Has, With, Without, Fetch, Store, Desc, BufAddr, RxLen, OutBlock, Advance, Scatter, RingOk, ByteSwap, TurnAhead;
      var swap := ByteSwap();
      md1 := status;
      offset := 0;
      assert buf[0..] == buf;
      while offset < |buf|
        invariant |host.mem| == WORDS && RingOk(rx) && rxPos < rx.size && offset <= |buf| && ByteSwap() == swap
        invariant (if offset < |buf| then Scatter(host.mem, rx, rxPos, md1, buf[offset..], cLance, swap)
                   else Scattered(host.mem, rxPos, md1, []))
                  == Scatter(old(host.mem), rx, old(rxPos), status, buf, cLance, swap)
      {
        ghost var rest := buf[offset..];
        ScatterStep(host.mem, rx, rxPos, md1, rest, cLance, swap);
        var count := FillOne(buf, offset, md1);
        assert rest[count..] == buf[offset + count..];
        offset := offset + count;
        var mine := Without(md1, OWN);
        if offset == |buf| {
          md1 := mine;
          break;
        }
        var next := Advance(rx, rxPos);
        var ahead := LookAhead(rx, rxPos, next, mine);
        if !Has(ahead, OWN) {
          md1 := With(mine, RX_BUFF);
          return;
        }
        host.DmaOut(Desc(rx, rxPos) + 2, mine);
        rxPos, md1 := next, ahead;
      }
    }

    /** The head of lance_receive: is the frame for this controller? */
    method Hears(buf: seq<bv8>) returns (ok: bool)
      requires Valid() && |buf| >= 6
      modifies crc
      ensures Valid() && ok == Heard(View(), buf)
    {
      hide Has, Accepts, ChipOk;
      var internal := Has(mode, M_LOOP) && Has(mode, M_INTL);
      if !internal && buf[..6] != padr && !Has(csr0, C_RXON) {
        return false;
      }
      ok := AddressFilter(buf);
    }

    /** lance_receive: -1 discarded, -2 missed, else the number of bytes stored, and the last status word. */
    method Receive(buf: seq<bv8>) returns (result: int, md1: bv16)
      requires Valid() && |buf| >= 6
      modifies crc, `rxPos, host`mem
      ensures crc.Valid() && host.intLow == intLow
      ensures match LanceChip.Receive(old(View()), buf)
              case Ignored => result == -1 && host.mem == old(host.mem) && rxPos == old(rxPos)
              case Missed => result == -2 && host.mem == old(host.mem) && rxPos == old(rxPos)
              case Taken(m, pos, status, count) => result == count && md1 == status && host.mem == m && rxPos == pos
    {
      hide Has, With, Without, Fetch, Desc, Scatter, Heard, Crc, Advance, RingOk, LanceChip.Receive, LastStatus;
      ReceiveIs(View(), buf);
      md1 := 0;
      var ok := Hears(buf);
      if !ok {
        return -1, md1;
      }
      md1 := host.DmaIn(Desc(rx, rxPos) + 2);
      if !Has(md1, OWN) {
        return -2, md1;
      }
      ghost var bad := Checked(View()) && Crc(buf) != RESIDUE;
      var offset;
      md1, offset := FillBuffers(buf, With(md1, STP));
      md1 := CheckFrame(buf, md1, offset, bad);
      result := offset;
    }

    /** The end of lance_receive: the check sequence and the end mark of a frame stored whole. */
    method CheckFrame(buf: seq<bv8>, status: bv16, offset: nat, ghost bad: bool) returns (md1: bv16)
      requires crc.Valid() && offset <= |buf|
      requires bad == ((!Has(mode, M_LOOP) || Has(mode, M_DTCR)) && Crc(buf) != RESIDUE)
      modifies crc
      ensures crc.Valid()
      ensures forall s: Scattered :: s.md1 == status && s.left == buf[offset..] ==>
                md1 == LastStatus(s, bad)
    {
      hide Has, With, Crc;
      md1 := status;
      if offset == |buf| {
        if !Has(mode, M_LOOP) || Has(mode, M_DTCR) {
          var c := crc.LanceCrc32(buf);
          if c != RESIDUE {
            md1 := With(md1, RX_CRC);
          }
        }
        md1 := With(md1, ENP);
      }
    }

    /** lance_recv_complete. */
    method RecvComplete(result: int, md1: bv16)
      requires |host.mem| == WORDS && host.intLow == intLow && ChipOk(View()) && (result == -1 || result == -2 || result > 0)
      modifies `csr0, `rxPos, `intLow, host`mem, host`intLow
      ensures host.intLow == intLow
      ensures var o := if result == -1 then Ignored else if result == -2 then Missed else Taken(old(host.mem), old(rxPos), md1, result);
              var e := Complete(old(View()), o);
              (host.mem, rxPos, csr0, intLow) == (e.mem, e.rxPos, e.csr0, e.intLow)
    {
      hide Has, With, Without, Fetch, Desc, Store, Advance, CountWord, RingOk;
      if result == -1 {
        return;
      }
      if result == -2 {
        csr0 := With(csr0, C_ERR | C_MISS);
      } else {
        host.DmaOut(Desc(rx, rxPos) + 2, md1);
        host.DmaOut(Desc(rx, rxPos) + 6, CountWord(result));
        rxPos := Advance(rx, rxPos);
      }
      csr0 := With(csr0, C_RINT | C_INTR);
      UpdateInterrupts();
    }

    /** Receiving and completing. */
    method Deliver(buf: seq<bv8>) returns (result: int)
      requires Valid() && |buf| >= 6
      modifies crc, `csr0, `rxPos, `intLow, host`mem, host`intLow
      ensures crc.Valid() && host.intLow == intLow
      ensures var d := old(View());
              var e := Complete(d, LanceChip.Receive(d, buf));
              (host.mem, rxPos, csr0, intLow) == (e.mem, e.rxPos, e.csr0, e.intLow)
    {
      hide Has, LanceChip.Receive, Complete, ChipOk;
      ChipFacts();
      ghost var d := View();
      ghost var o := LanceChip.Receive(d, buf);
      var md1;
      result, md1 := Receive(buf);
      assert View() == if o.Taken? then d.(mem := o.m, rxPos := o.pos) else d;
      CompleteFrom(d, o);
      RecvComplete(result, md1);
    }

    /** lance_recv. */
    method Recv(buf: seq<bv8>) returns (rc: int)
      requires Valid()
      modifies crc, `csr0, `rxPos, `intLow, host`mem, host`intLow
      ensures Valid() && View() == LanceChip.Recv(old(View()), buf)
    {
      hide Has, LanceChip.Receive, Complete, ChipOk, Internal;
      ChipFacts();
      ghost var d := View();
      RecvCases(d, buf);
      if |buf| < 60 || Internally() {
        return -1;
      }
      var result := Deliver(buf);
      CompleteShape(d, LanceChip.Receive(d, buf));
      rc := if result < 0 then result else 0;
    }

    predicate Internally()
      reads this
      ensures Internally() == Internal(View())
    {
      Has(mode, M_LOOP) && Has(mode, M_INTL)
    }

    lemma ChipFacts()
      requires Valid()
      ensures ChipOk(View()) && |host.mem| == WORDS && host.intLow == intLow && crc.Valid()
    {
    }

    // ---------- transmitting ----------

    /** The final status of the descriptor at `a`. */
    method CloseDescriptor(a: nat, status: bv16, md3: bv16, result: Result)
      requires |host.mem| == WORDS
      modifies host`mem
      ensures host.mem == Closed(old(host.mem), a, status, md3, result)
    {
      hide With, Store;
      var md1 := status;
      match result {
        case Sent =>
        case BadLoopback => md1 := With(md1, ERR);
        case Collision =>
          md1 := With(md1, ERR);
          host.DmaOut(a + 6, With(md3, TX_RTRY));
      }
      host.DmaOut(a + 2, md1);
    }

    /** lance_send_complete. */
    method SendComplete(status: bv16, md3: bv16, result: Result)
      requires ChipOk(View()) && host.intLow == intLow
      modifies `csr0, `txPos, `intLow, `poll, host`mem, host`intLow
      ensures host.intLow == intLow
      ensures var e := LanceChip.SendComplete(old(View()), status, md3, result);
              (host.mem, txPos, csr0, intLow, poll) == (e.mem, e.txPos, e.csr0, e.intLow, e.poll)
    {
      hide Has, With, Desc, Closed, Advance, RingOk;
      CloseDescriptor(Desc(tx, txPos), status, md3, result);
      txPos := Advance(tx, txPos);
      csr0 := With(csr0, C_TINT | C_INTR);
      UpdateInterrupts();
      poll := 1;
    }

    /** The bytes of the buffer at the transmit position, behind those collected before. */
    method TakeBuffer(md1: bv16, got: seq<bv8>) returns (len: nat, buf: seq<bv8>)
      requires |host.mem| == WORDS && |got| <= FRAME_MAX
      ensures len == TurnLen(host.mem, tx, txPos, cLance)
      ensures len > 0 ==> buf == TurnData(host.mem, tx, txPos, md1, got, cLance, ByteSwap())
    {
      hide Has, Fetch, Desc, BufAddr, BufLen, Block;
      var d := Desc(tx, txPos);
      var md0 := host.DmaIn(d);
      var md2 := host.DmaIn(d + 4);
      len := BufLen(cLance, md2);
      var n := if |got| + len > FRAME_MAX then FRAME_MAX - |got| else len;
      buf := got;
      if n > 0 {
        var piece := DmaInBlock(BufAddr(md0, md1), n);
        buf := buf + piece;
      } else {
        NoBytes(host.mem, BufAddr(md0, md1), ByteSwap(), buf);
      }
    }

    /** The loop of lance_transmit: it ends because each turn gives a descriptor back. */
    method CollectBuffers(status: bv16) returns (dropped: bool, md1: bv16, md3: bv16, buf: seq<bv8>, underrun: bool)
      requires Valid() && OwnedAt(host.mem, tx, txPos)
      modifies `txPos, host`mem
      ensures |host.mem| == WORDS && txPos < tx.size
      ensures Gather(old(host.mem), tx, old(txPos), status, [], cLance, ByteSwap())
              == if dropped then Dropped(host.mem, txPos) else Frame(host.mem, txPos, md1, md3, buf, underrun)
    {
      hide Has, With, Without, Fetch, Store, Desc, Advance, TurnLen, TurnData, TurnAhead, OwnedAt, OwnCount, RingOk, ByteSwap, Gather;
      var swap := ByteSwap();
      dropped, md1, md3, buf, underrun := false, status, 0, [], false;
      ghost var whole := Gather(host.mem, tx, txPos, md1, buf, cLance, swap);
      while true
        invariant |host.mem| == WORDS && RingOk(tx) && txPos < tx.size && OwnedAt(host.mem, tx, txPos) && |buf| <= FRAME_MAX
        invariant !dropped && md3 == 0 && !underrun && ByteSwap() == swap
        invariant Gather(host.mem, tx, txPos, md1, buf, cLance, swap) == whole
        decreases OwnCount(host.mem, tx, 0)
      {
        GatherTurn(host.mem, tx, txPos, md1, buf, cLance, swap);
        TurnOn(host.mem, tx, txPos, Without(md1, OWN));
        var d := Desc(tx, txPos);
        var next := Advance(tx, txPos);
        md1 := Without(md1, OWN);
        var len, more := TakeBuffer(md1, buf);
        if len == 0 {
          host.DmaOut(d + 2, md1);
          txPos := next;
          dropped := true;
          return;
        }
        buf := more;
        if Has(md1, ENP) {
          return;
        }
        var ahead := LookAhead(tx, txPos, next, md1);
        if !Has(ahead, OWN) {
          md1 := With(md1, ERR);
          md3 := TX_UFLO;
          underrun := true;
          host.DmaOut(d + 6, md3);
          return;
        }
        host.DmaOut(d + 2, md1);
        txPos, md1 := next, ahead;
      }
    }
  }

  /** The bytes of a word at the even and at the odd address, as the transfers pick them. */
  function EvenByte(w: bv16, swap: bool): bv8 {
    if swap then HighHalf(w) else LowHalf(w)
  }

  function OddByte(w: bv16, swap: bool): bv8 {
    if swap then LowHalf(w) else HighHalf(w)
  }

  lemma PickedByte(m: seq<bv16>, a: nat, swap: bool)
    requires |m| == WORDS
    ensures a % 2 == 0 ==> ByteAt(m, a, swap) == EvenByte(Fetch(m, a), swap) && ByteAt(m, a + 1, swap) == OddByte(Fetch(m, a), swap)
    ensures a % 2 == 1 ==> ByteAt(m, a, swap) == OddByte(Fetch(m, a - 1), swap)
  {
    hide LowHalf, HighHalf;
    if a % 2 == 0 {
      assert a / 2 == (a + 1) / 2;
    } else {
      assert a / 2 == (a - 1) / 2;
    }
  }

  lemma BlockOne(m: seq<bv16>, a: nat, n: nat, swap: bool)
    requires |m| == WORDS
    ensures Block(m, a, n, swap) == if n == 0 then [] else [ByteAt(m, a, swap)] + Block(m, a + 1, n - 1, swap)
  {
    hide ByteAt;
  }

  lemma OddStart(m: seq<bv16>, a: nat, n: nat, swap: bool)
    requires |m| == WORDS && n > 0 && a % 2 == 1
    ensures [OddByte(Fetch(m, a - 1), swap)] + Block(m, a + 1, n - 1, swap) == Block(m, a, n, swap)
  {
    hide ByteAt, Block, Fetch, OddByte;
    PickedByte(m, a, swap);
    BlockOne(m, a, n, swap);
  }

  lemma TwoMore(m: seq<bv16>, a: nat, n: nat, swap: bool, buf: seq<bv8>)
    requires |m| == WORDS && n > 1 && a % 2 == 0
    ensures buf + [EvenByte(Fetch(m, a), swap), OddByte(Fetch(m, a), swap)] + Block(m, a + 2, n - 2, swap) == buf + Block(m, a, n, swap)
  {
    hide ByteAt, Block, Fetch, EvenByte, OddByte;
    PickedByte(m, a, swap);
    BlockOne(m, a, n, swap);
    BlockOne(m, a + 1, n - 1, swap);
  }

  lemma LastOne(m: seq<bv16>, a: nat, n: nat, swap: bool, buf: seq<bv8>)
    requires |m| == WORDS && n <= 1 && (a % 2 == 0 || n == 0)
    ensures buf + Block(m, a, n, swap) == if n == 0 then buf else buf + [EvenByte(Fetch(m, a), swap)]
  {
    hide ByteAt, Block, Fetch, EvenByte;
    PickedByte(m, a, swap);
    BlockOne(m, a, n, swap);
    BlockOne(m, a + 1, 0, swap);
  }

  lemma NoBytes(m: seq<bv16>, a: nat, swap: bool, buf: seq<bv8>)
    requires |m| == WORDS
    ensures buf + Block(m, a, 0, swap) == buf
  {
  }

  /** Completing from the state in which the frame was stored, or from the one before. */
  lemma CompleteFrom(d: Chip, o: Outcome)
    requires ChipOk(d) && (o.Taken? ==> |o.m| == WORDS && o.pos < d.rx.size)
    ensures var e := if o.Taken? then d.(mem := o.m, rxPos := o.pos) else d;
            ChipOk(e) && Complete(e, o) == Complete(d, o)
  {
    hide Has, With, Store, Desc, Advance, CountWord, RingOk;
  }

  /** What completing a reception touches. */
  lemma CompleteShape(d: Chip, o: Outcome)
    requires ChipOk(d) && (o.Taken? ==> |o.m| == WORDS && o.pos < d.rx.size)
    ensures var e := Complete(d, o);
            e == d.(mem := e.mem, rxPos := e.rxPos, csr0 := e.csr0, intLow := e.intLow)
  {
    hide Has, With, Store, Desc, Advance, CountWord, RingOk, ChipOk;
    match o {
      case Ignored =>
      case Missed => RaisedShape(Raised(d, C_ERR | C_MISS), C_RINT | C_INTR);
      case Taken(m, pos, md1, count) =>
        var a := Desc(d.rx, pos);
        RaisedShape(d.(mem := Store(Store(m, a + 2, md1), a + 6, CountWord(count)), rxPos := Advance(d.rx, pos)), C_RINT | C_INTR);
    }
  }

  lemma RaisedShape(d: Chip, bits: bv16)
    ensures var e := Interrupts(Raised(d, bits)); e == d.(csr0 := e.csr0, intLow := e.intLow)
  {
    hide Has, With;
  }

  /** The three ways a frame is received. */
  lemma ReceiveIs(d: Chip, buf: seq<bv8>)
    requires ChipOk(d) && |buf| >= 6
    ensures !Heard(d, buf) ==> LanceChip.Receive(d, buf) == Ignored
    ensures var md1 := Fetch(d.mem, Desc(d.rx, d.rxPos) + 2);
            && (Heard(d, buf) && !Has(md1, OWN) ==> LanceChip.Receive(d, buf) == Missed)
            && (Heard(d, buf) && Has(md1, OWN) ==>
                  var s := Scatter(d.mem, d.rx, d.rxPos, With(md1, STP), buf, d.cLance, Swap(d));
                  LanceChip.Receive(d, buf) == Taken(s.m, s.pos, LastStatus(s, Checked(d) && Crc(buf) != RESIDUE), |buf| - |s.left|))
  {
    hide Has, With, Fetch, Desc, Scatter, Accepts, Internal, Checked, Crc, RingOk;
  }

  lemma RecvCases(d: Chip, buf: seq<bv8>)
    requires ChipOk(d)
    ensures ChipOk(LanceChip.Recv(d, buf))
    ensures |buf| < 60 || Internal(d) ==> LanceChip.Recv(d, buf) == d
    ensures |buf| >= 60 && !Internal(d) ==> LanceChip.Recv(d, buf) == Complete(d, LanceChip.Receive(d, buf))
  {
    hide LanceChip.Receive, Complete, Internal, ChipOk;
  }

  /** lance_glue_recv, its frame part: a check sequence goes behind every frame that fits the buffer with it. */
  function GlueFrame(buf: seq<bv8>): (f: seq<bv8>) {
    if |buf| + 4 > 1600 then buf else buf + Wire(Crc(buf))
  }

  method GlueRecv(chip: Lance, buf: seq<bv8>) returns (rc: int)
    requires chip.Valid()
    modifies chip.crc, chip`csr0, chip`rxPos, chip`intLow, chip.host`mem, chip.host`intLow
    ensures chip.Valid() && chip.View() == Recv(old(chip.View()), GlueFrame(buf))
  {
    hide Recv, Crc, Wire;
    if |buf| + 4 > 1600 {
      rc := chip.Recv(buf);
      return;
    }
    var c := EthCrc32(buf);
    rc := chip.Recv(buf + Wire(c));
  }

  /**
   A frame from the wire of up to 1596 bytes that is heard and finds room is stored whole and marked with no error: the
   last descriptor has the error bits it had when it was handed over.
   */
  lemma GlueFrameIsGood(d: Chip, buf: seq<bv8>, c: Chain)
    requires 56 <= |buf| <= 1596 && ChipOk(d) && !Internal(d) && RxChain(d, c) && Laid(d.mem, c)
    requires Heard(d, GlueFrame(buf)) && |GlueFrame(buf)| <= Total(d.mem, c, 0)
    ensures ChainOk(c)
    ensures var frame := GlueFrame(buf);
            var d' := Recv(d, frame);
            var u := Used(d.mem, c, 0, |frame|);
            && |frame| == |buf| + 4 && |d'.mem| == WORDS
            && InRingOrder(d'.mem, d.mem, c, |frame|, u, frame, true, false) && 1 <= u <= c.count
            && Fetch(d'.mem, At(c, u - 1) + 2) & RX_ERRORS == Fetch(d.mem, At(c, u - 1) + 2) & RX_ERRORS
            && d'.rxPos == Slot(c, u)
  {
    hide Heard, Laid, Receive, Complete, InRingOrder, Internal, Checked, Crc, Total, Wire, RxChain, ChipOk;
    var frame := GlueFrame(buf);
    FrameResidue(buf);
    RecvCases(d, frame);
    ChainOf(d.mem, c);
    FitsChain(d.mem, c, |frame|);
    RxDelivered(d, frame, c);
    LastErrors(Recv(d, frame).mem, d.mem, c, |frame|, Used(d.mem, c, 0, |frame|), frame, true, false);
  }

  lemma FitsChain(m: seq<bv16>, c: Chain, n: nat)
    requires |m| == WORDS && ChainOk(c) && n <= Total(m, c, 0)
    ensures Ends(m, c, 0, n)
  {
  }
}
