/** How far a transfer is after a run: exactly as far as the deliveries that a party was waiting for carry it. */
module TftpProgress {
  import opened Bytes
  import opened TftpWire
  import opened TftpSender
  import opened TftpReceiver
  import opened TftpSystem

  /** The step delivers what a party waits for: the block it wants, or the acknowledgement of the block it sent last. */
  predicate Wanted(s: Sys, step: Step) {
    || (step.ToRx? && s.rx.status == Receiving && step.i < |s.toRx| && s.toRx[step.i].num == s.rx.expected)
    || (step.ToTx? && s.tx.status == Waiting && step.i < |s.toTx| && s.toTx[step.i].num == s.tx.block)
  }

  function One(b: bool): nat {
    if b then 1 else 0
  }

  /** The wanted deliveries of a run. */
  function Hits(s: Sys, bs: nat, steps: seq<Step>): nat
    requires s.rx.expected >= 1
    decreases |steps|
  {
    if steps == [] then 0 else One(Wanted(s, steps[0])) + Hits(SysStep(s, bs, steps[0]), bs, steps[1..])
  }

  /** The blocks taken and the acknowledgements taken, on a scale that starts at 0 with an option reply and at 1 without. */
  function Reached(s: Sys): nat
    requires s.rx.expected >= 1
  {
    Got(s.rx) + s.tx.block + One(s.tx.status == Done)
  }

  // ---------- one step ----------

  lemma TxTakes(s: Sys, bs: nat, k: nat)
    requires s.rx.expected >= 1 && s.tx.status == Waiting && k % BLOCKS == s.tx.block % BLOCKS
    ensures Reached(TxSees(s, bs, Datagram(true, AckPacket(k % BLOCKS)))) == Reached(s) + 1
  {
    hide DataPacket, AckPacket, Chunk;
  }

  lemma TxHolds(s: Sys, bs: nat, e: Event)
    requires s.rx.expected >= 1
    requires s.tx.status == Waiting && e.Datagram? ==> AnswerTo(s.tx.block % BLOCKS, e.fromPeer, e.bytes) != Acked
    ensures Reached(TxSees(s, bs, e)) == Reached(s)
  {
    hide AnswerTo, TxAcked;
  }

  lemma RxHolds(s: Sys, file: seq<byte>, bs: nat, e: Event)
    requires RxOk(s.rx, file, bs)
    requires s.rx.status == Receiving && e.Datagram? && e.fromPeer ==>
               |e.bytes| <= 4 + bs && !(|e.bytes| >= 4 && WordAt(e.bytes, 0) == OP_DATA && WordAt(e.bytes, 2) == s.rx.expected % BLOCKS)
    ensures Reached(RxSees(s, bs, e)) == Reached(s)
  {
    hide AckPacket, Prefix, FullTo, WordAt, RxStep, BlockAt;
    if s.rx.status == Receiving {
      RxStays(s.rx, file, bs, e);
    }
  }

  lemma ToTxCounts(s: Sys, file: seq<byte>, bs: nat, oack: seq<byte>, k: nat)
    requires Inv(s, file, bs, oack) && k <= Got(s.rx) && s.tx.block < k + BLOCKS
    ensures Reached(TxSees(s, bs, Datagram(true, AckPacket(k % BLOCKS))))
            == Reached(s) + One(s.tx.status == Waiting && k == s.tx.block)
  {
    hide Inv, AckPacket, Reached;
    InvGap(s, file, bs, oack);
    if s.tx.status == Waiting && k % BLOCKS == s.tx.block % BLOCKS {
      SameBlock(k, s.tx.block);
      TxTakes(s, bs, k);
    } else {
      TxHolds(s, bs, Datagram(true, AckPacket(k % BLOCKS)));
    }
  }

  lemma ToRxCounts(s: Sys, file: seq<byte>, bs: nat, oack: seq<byte>, k: nat)
    requires Inv(s, file, bs, oack) && OackOk(oack, bs)
    requires k <= s.tx.block && s.rx.expected < k + BLOCKS && (k == 0 ==> oack != [])
    ensures Reached(RxSees(s, bs, Datagram(true, PacketOf(file, bs, oack, k))))
            == Reached(s) + One(s.rx.status == Receiving && k == s.rx.expected)
  {
    hide AckPacket, DataPacket, Prefix, FullTo, BlockAt, RxStep, TxOk, DataOk, AcksOk;
    InvGap(s, file, bs, oack);
    if s.rx.status == Receiving && k >= 1 && k % BLOCKS == s.rx.expected % BLOCKS {
      SameBlock(k, s.rx.expected);
      RxTakes(s.rx, file, bs);
    } else {
      RxHolds(s, file, bs, Datagram(true, PacketOf(file, bs, oack, k)));
    }
  }

  /** A step carries the transfer on by one exactly when it delivers what a party waits for. */
  lemma StepCounts(s: Sys, file: seq<byte>, bs: nat, oack: seq<byte>, step: Step)
    requires Inv(s, file, bs, oack) && OackOk(oack, bs) && Fresh(s, step)
    ensures Reached(SysStep(s, bs, step)) == Reached(s) + One(Wanted(s, step))
  {
    hide TxOk, RxOk, PacketOf, AckPacket, TxSees, RxSees, Reached;
    InvGap(s, file, bs, oack);
    match step {
      case TxTimeout => TxHolds(s, bs, Timeout);
      case RxTimeout => RxHolds(s, file, bs, Timeout);
      case ToRx(i) => if i < |s.toRx| { ToRxCounts(s, file, bs, oack, s.toRx[i].num); }
      case ToTx(i) => if i < |s.toTx| { ToTxCounts(s, file, bs, oack, s.toTx[i].num); }
      case RxNoise(bytes) => RxHolds(s, file, bs, Datagram(false, bytes));
      case TxNoise(bytes) => TxHolds(s, bs, Datagram(false, bytes));
    }
  }

  // ---------- all runs ----------

  lemma {:induction false} RunCounts(s: Sys, file: seq<byte>, bs: nat, oack: seq<byte>, steps: seq<Step>)
    requires Inv(s, file, bs, oack) && OackOk(oack, bs) && s.rx.expected >= 1 && FreshRun(s, bs, steps)
    ensures Reached(SysRun(s, bs, steps)) == Reached(s) + Hits(s, bs, steps)
    decreases |steps|
  {
    hide Inv, SysStep, Fresh, Wanted, Reached;
    if steps != [] {
      StepCounts(s, file, bs, oack, steps[0]);
      StepKeeps(s, file, bs, oack, steps[0]);
      RunCounts(SysStep(s, bs, steps[0]), file, bs, oack, steps[1..]);
    }
  }

  /** The deliveries a transfer needs: every block and its acknowledgement, and that of the option reply. */
  function Needed(file: seq<byte>, bs: nat, oack: seq<byte>): nat
    requires bs > 0
  {
    2 * Blocks(|file|, bs) + One(oack != [])
  }

  lemma StartReached(file: seq<byte>, bs: nat, oack: seq<byte>)
    ensures Start(file, bs, oack).rx.expected == 1 && Reached(Start(file, bs, oack)) == One(oack == [])
  {
    hide DataPacket, AckPacket, Chunk;
  }

  lemma ReachedIs(s: Sys, file: seq<byte>, bs: nat, oack: seq<byte>)
    requires Inv(s, file, bs, oack) && bs > 0
    ensures s.rx.expected >= 1 && Reached(s) <= 2 * Blocks(|file|, bs) + 1
    ensures s.tx.status == Done <==> Reached(s) == 2 * Blocks(|file|, bs) + 1
  {
    hide PacketOf, DataOk, AcksOk, RestAt, Prefix, AckPacket;
    BlockInFile(s, file, bs, oack);
    if s.tx.status == Done {
      var n := s.tx.block;
      BlocksLeft(file, bs, n - 1);
      LastIsShort(file, bs, n);
    }
  }

  lemma LastIsShort(file: seq<byte>, bs: nat, n: nat)
    requires bs > 0 && n >= 1 && |BlockAt(file, bs, n)| < bs
    ensures Blocks(|RestAt(file, bs, n - 1)|, bs) == 1
  {
    hide RestAt;
  }

  /**
   Over every run on every network that delivers nothing 65535 or more blocks old, with whatever is lost, repeated
   and reordered: the sender has reported the transfer done exactly when the run holds two wanted deliveries a
   block, and one more for the option reply; no run holds more.
   */
  lemma DoneIff(file: seq<byte>, bs: nat, oack: seq<byte>, steps: seq<Step>)
    requires bs > 0 && OackOk(oack, bs) && Start(file, bs, oack).rx.expected >= 1 && FreshRun(Start(file, bs, oack), bs, steps)
    ensures Hits(Start(file, bs, oack), bs, steps) <= Needed(file, bs, oack)
    ensures SysRun(Start(file, bs, oack), bs, steps).tx.status == Done
            <==> Hits(Start(file, bs, oack), bs, steps) == Needed(file, bs, oack)
  {
    hide Inv, Start, SysRun, Hits, Reached, Blocks, FreshRun, OackOk;
    var s := Start(file, bs, oack);
    StartInv(file, bs, oack);
    StartReached(file, bs, oack);
    RunKeeps(s, file, bs, oack, steps);
    RunCounts(s, file, bs, oack, steps);
    ReachedIs(SysRun(s, bs, steps), file, bs, oack);
  }

  // ---------- what is wanted is always under way ----------

  /** The newest packet of either party is among those under way. */
  ghost predicate UnderWay(s: Sys)
    requires s.rx.expected >= 1
  {
    && (exists i: nat :: i < |s.toRx| && s.toRx[i].num == s.tx.block)
    && (exists i: nat :: i < |s.toTx| && s.toTx[i].num == Got(s.rx))
  }

  lemma TxLeaves(s: Sys, bs: nat, e: Event)
    requires s.rx.expected >= 1 && UnderWay(s)
    ensures UnderWay(TxSees(s, bs, e))
  {
    hide DataPacket, AnswerTo, Chunk;
    var s' := TxSees(s, bs, e);
    var i: nat :| i < |s.toRx| && s.toRx[i].num == s.tx.block;
    var j: nat :| j < |s.toTx| && s.toTx[j].num == Got(s.rx);
    assert s'.toTx[j].num == Got(s'.rx);
    if s'.tx.block == s.tx.block {
      assert s'.toRx[i].num == s'.tx.block;
    } else {
      assert s'.toRx[|s.toRx|].num == s'.tx.block;
    }
  }

  lemma RxLeaves(s: Sys, bs: nat, e: Event)
    requires s.rx.expected >= 1 && UnderWay(s)
    ensures UnderWay(RxSees(s, bs, e))
  {
    hide AckPacket, WordAt;
    var s' := RxSees(s, bs, e);
    var i: nat :| i < |s.toRx| && s.toRx[i].num == s.tx.block;
    var j: nat :| j < |s.toTx| && s.toTx[j].num == Got(s.rx);
    assert s'.toRx[i].num == s'.tx.block;
    if Got(s'.rx) == Got(s.rx) {
      assert s'.toTx[j].num == Got(s'.rx);
    } else {
      assert s'.toTx[|s.toTx|].num == Got(s'.rx);
    }
  }

  lemma {:induction false} RunLeaves(s: Sys, bs: nat, steps: seq<Step>)
    requires s.rx.expected >= 1 && UnderWay(s)
    ensures UnderWay(SysRun(s, bs, steps))
    decreases |steps|
  {
    hide UnderWay, TxSees, RxSees;
    if steps != [] {
      match steps[0] {
        case TxTimeout => TxLeaves(s, bs, Timeout);
        case RxTimeout => RxLeaves(s, bs, Timeout);
        case ToRx(i) => if i < |s.toRx| { RxLeaves(s, bs, Datagram(true, s.toRx[i].bytes)); }
        case ToTx(i) => if i < |s.toTx| { TxLeaves(s, bs, Datagram(true, s.toTx[i].bytes)); }
        case RxNoise(bytes) => RxLeaves(s, bs, Datagram(false, bytes));
        case TxNoise(bytes) => TxLeaves(s, bs, Datagram(false, bytes));
      }
      RunLeaves(SysStep(s, bs, steps[0]), bs, steps[1..]);
    }
  }

  lemma StartLeaves(file: seq<byte>, bs: nat, oack: seq<byte>)
    ensures Start(file, bs, oack).rx.expected >= 1 && UnderWay(Start(file, bs, oack))
  {
    hide DataPacket, AckPacket, Chunk;
    var s := Start(file, bs, oack);
    assert s.toRx[0].num == s.tx.block && s.toTx[0].num == Got(s.rx);
  }

  /** Neither party has given up. */
  predicate Alive(s: Sys) {
    s.tx.status != GaveUp && s.rx.status != Aborted
  }

  /** While neither party has given up and the sender is not done, some delivery is wanted, and taking it gives nobody up. */
  lemma SomeWanted(s: Sys, file: seq<byte>, bs: nat, oack: seq<byte>) returns (step: Step)
    requires Inv(s, file, bs, oack) && OackOk(oack, bs) && Alive(s) && s.tx.status == Waiting
    requires s.rx.expected >= 1 && UnderWay(s)
    ensures Fresh(s, step) && Wanted(s, step) && Alive(SysStep(s, bs, step))
  {
    hide RestAt, AckPacket, DataPacket, TxAcked, FullTo;
    if s.tx.block == Got(s.rx) {
      var i: nat :| i < |s.toTx| && s.toTx[i].num == Got(s.rx);
      step := ToTx(i);
      TakenAlive(s.tx, bs);
    } else {
      var i: nat :| i < |s.toRx| && s.toRx[i].num == s.tx.block;
      ShortIsLast(s, file, bs, oack);
      step := ToRx(i);
      RxTakes(s.rx, file, bs);
      TakenStatus(s.rx, file, bs);
    }
  }

  lemma TakenAlive(t: Tx, bs: nat)
    ensures TxAcked(t, bs).0.status != GaveUp
  {
  }

  /** A receiver that is a block behind has not finished. */
  lemma ShortIsLast(s: Sys, file: seq<byte>, bs: nat, oack: seq<byte>)
    requires Inv(s, file, bs, oack) && s.tx.block == Got(s.rx) + 1
    ensures s.rx.status != Finished
  {
    hide PacketOf, DataOk, AcksOk, RestAt, Prefix, AckPacket, BlockAt;
  }

  /** From where neither party has given up, `n` wanted deliveries away from the end, `n` steps end the transfer. */
  lemma {:induction false} Finish(s: Sys, file: seq<byte>, bs: nat, oack: seq<byte>, n: nat) returns (steps: seq<Step>)
    requires Inv(s, file, bs, oack) && OackOk(oack, bs) && Alive(s) && bs > 0
    requires s.rx.expected >= 1 && UnderWay(s) && Reached(s) + n == 2 * Blocks(|file|, bs) + 1
    ensures FreshRun(s, bs, steps) && |steps| == n && SysRun(s, bs, steps).tx.status == Done
    decreases n
  {
    hide Inv, SysStep, Fresh, Wanted, Reached, UnderWay, Blocks, OackOk;
    ReachedIs(s, file, bs, oack);
    if n == 0 {
      steps := [];
    } else {
      var step := SomeWanted(s, file, bs, oack);
      StepCounts(s, file, bs, oack, step);
      StepKeeps(s, file, bs, oack, step);
      OneStep(s, bs, step);
      RunLeaves(s, bs, [step]);
      var rest := Finish(SysStep(s, bs, step), file, bs, oack, n - 1);
      steps := [step] + rest;
      RunAppend(s, bs, [step], rest);
    }
  }

  /**
   No run gets stuck: after every run that neither party has given up in, whatever the network did so far, as many
   further deliveries as are still needed end the transfer with the whole file.
   */
  lemma TransferCompletes(file: seq<byte>, bs: nat, oack: seq<byte>, before: seq<Step>) returns (after: seq<Step>)
    requires bs > 0 && OackOk(oack, bs) && Start(file, bs, oack).rx.expected >= 1 && FreshRun(Start(file, bs, oack), bs, before)
    requires Alive(SysRun(Start(file, bs, oack), bs, before))
    ensures FreshRun(Start(file, bs, oack), bs, before + after)
    ensures |after| + Hits(Start(file, bs, oack), bs, before) == Needed(file, bs, oack)
    ensures var s := SysRun(Start(file, bs, oack), bs, before + after); s.tx.status == Done && s.rx.written == file
  {
    hide Inv, Start, SysRun, Hits, Reached, Blocks, FreshRun, UnderWay, OackOk;
    var s0 := Start(file, bs, oack);
    StartInv(file, bs, oack);
    StartReached(file, bs, oack);
    StartLeaves(file, bs, oack);
    RunKeeps(s0, file, bs, oack, before);
    RunCounts(s0, file, bs, oack, before);
    RunLeaves(s0, bs, before);
    var s := SysRun(s0, bs, before);
    ReachedIs(s, file, bs, oack);
    after := Finish(s, file, bs, oack, Needed(file, bs, oack) - Hits(s0, bs, before));
    RunAppend(s0, bs, before, after);
    TransferIsSafe(file, bs, oack, before + after);
  }
}
