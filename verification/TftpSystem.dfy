/** A sender and a receiver joined by a network that may lose, repeat and reorder what they send. */
module TftpSystem {
  import opened Bytes
  import opened TftpWire
  import opened TftpSender
  import opened TftpReceiver

  /** A datagram under way, with the block it is about; the parties see only its bytes. */
  datatype Item = Item(num: nat, bytes: seq<byte>)

  /** Everything ever sent stays in the two lists; the network delivers any of it, any number of times or never. */
  datatype Sys = Sys(tx: Tx, rx: Rx, toRx: seq<Item>, toTx: seq<Item>)

  datatype Step =
    | TxTimeout | RxTimeout
    | ToRx(i: nat) | ToTx(i: nat)
    | RxNoise(bytes: seq<byte>) | TxNoise(bytes: seq<byte>)

  /** The blocks the receiver has taken. */
  function Got(rx: Rx): nat
    requires rx.expected >= 1
  {
    if rx.status == Finished then rx.expected else rx.expected - 1
  }

  function Start(file: seq<byte>, bs: nat, oack: seq<byte>): Sys {
    var tx := TxStart(file, bs, oack);
    Sys(tx, RxStart(AckPacket(0)), [Item(tx.block, tx.pkt)], [Item(0, AckPacket(0))])
  }

  function Items(num: nat, out: seq<seq<byte>>): (r: seq<Item>)
    ensures |r| == |out| && forall i :: 0 <= i < |out| ==> r[i] == Item(num, out[i])
  {
    seq(|out|, i requires 0 <= i < |out| => Item(num, out[i]))
  }

  function TxSees(s: Sys, bs: nat, e: Event): Sys {
    if s.tx.status != Waiting then s
    else
      var (tx, out) := TxStep(s.tx, bs, e);
      s.(tx := tx, toRx := s.toRx + Items(tx.block, out))
  }

  function RxSees(s: Sys, bs: nat, e: Event): (s': Sys)
    requires s.rx.expected >= 1
    ensures s'.rx.expected >= 1
  {
    if s.rx.status != Receiving then s
    else
      var (rx, out) := RxStep(s.rx, bs, e);
      s.(rx := rx, toTx := s.toTx + Items(Got(rx), out))
  }

  function SysStep(s: Sys, bs: nat, step: Step): (s': Sys)
    requires s.rx.expected >= 1
    ensures s'.rx.expected >= 1
  {
    match step
    case TxTimeout => TxSees(s, bs, Timeout)
    case RxTimeout => RxSees(s, bs, Timeout)
    case ToRx(i) => if i < |s.toRx| then RxSees(s, bs, Datagram(true, s.toRx[i].bytes)) else s
    case ToTx(i) => if i < |s.toTx| then TxSees(s, bs, Datagram(true, s.toTx[i].bytes)) else s
    case RxNoise(bytes) => RxSees(s, bs, Datagram(false, bytes))
    case TxNoise(bytes) => TxSees(s, bs, Datagram(false, bytes))
  }

  /** The network delivers nothing that is 65535 or more blocks behind the sender. */
  predicate Fresh(s: Sys, step: Step) {
    && (step.ToRx? && step.i < |s.toRx| ==> s.tx.block < s.toRx[step.i].num + 0xFFFF)
    && (step.ToTx? && step.i < |s.toTx| ==> s.tx.block < s.toTx[step.i].num + 0xFFFF)
  }

  function SysRun(s: Sys, bs: nat, steps: seq<Step>): (s': Sys)
    requires s.rx.expected >= 1
    ensures s'.rx.expected >= 1
    decreases |steps|
  {
    if steps == [] then s else SysRun(SysStep(s, bs, steps[0]), bs, steps[1..])
  }

  predicate FreshRun(s: Sys, bs: nat, steps: seq<Step>)
    requires s.rx.expected >= 1
    decreases |steps|
  {
    steps != [] ==> Fresh(s, steps[0]) && FreshRun(SysStep(s, bs, steps[0]), bs, steps[1..])
  }

  // ---------- the file in blocks ----------

  /** The file without its first `k` blocks. */
  function RestAt(file: seq<byte>, bs: nat, k: nat): (r: seq<byte>)
    ensures |r| <= |file| && r == file[|file| - |r|..]
    decreases k
  {
    if k == 0 then file else RestAt(file, bs, k - 1)[|Chunk(RestAt(file, bs, k - 1), bs)|..]
  }

  function Prefix(file: seq<byte>, bs: nat, k: nat): seq<byte> {
    file[..|file| - |RestAt(file, bs, k)|]
  }

  /** Block number `j`, counted from 1. */
  function BlockAt(file: seq<byte>, bs: nat, j: nat): (b: seq<byte>)
    requires j >= 1
    ensures |b| <= bs
  {
    Chunk(RestAt(file, bs, j - 1), bs)
  }

  lemma PrefixGrows(file: seq<byte>, bs: nat, k: nat)
    ensures Prefix(file, bs, k) + BlockAt(file, bs, k + 1) == Prefix(file, bs, k + 1)
    ensures |BlockAt(file, bs, k + 1)| < bs ==> Prefix(file, bs, k + 1) == file
    ensures Prefix(file, bs, 0) == []
  {
    hide RestAt;
    var r := RestAt(file, bs, k);
    var p := |file| - |r|;
    RestNext(file, bs, k);
    Cut(file, p, |Chunk(r, bs)|);
    StartRest(file, bs);
  }

  lemma RestNext(file: seq<byte>, bs: nat, k: nat)
    ensures RestAt(file, bs, k + 1) == RestAt(file, bs, k)[|BlockAt(file, bs, k + 1)|..]
  {
  }

  lemma Cut(file: seq<byte>, p: nat, c: nat)
    requires p + c <= |file|
    ensures file[..p] + file[p..][..c] == file[..p + c] && file[..|file|] == file
    ensures p + c == |file| ==> file[p..][..c] == file[p..]
  {
  }

  /** The packet about block `n`; number 0 is the option reply. */
  function PacketOf(file: seq<byte>, bs: nat, oack: seq<byte>, n: nat): seq<byte> {
    if n == 0 then oack else DataPacket(n % BLOCKS, BlockAt(file, bs, n))
  }

  /** Blocks 1 to `k` are full. */
  ghost predicate FullTo(file: seq<byte>, bs: nat, k: int) {
    forall j: nat :: 1 <= j <= k ==> |BlockAt(file, bs, j)| == bs
  }

  // ---------- the invariant ----------

  ghost predicate TxOk(t: Tx, file: seq<byte>, bs: nat, oack: seq<byte>) {
    && t.pkt == PacketOf(file, bs, oack, t.block)
    && t.rest == RestAt(file, bs, t.block)
    && (t.block >= 1 ==> t.len == |BlockAt(file, bs, t.block)|)
    && FullTo(file, bs, t.block - 1) && (t.block == 0 ==> oack != [])
  }

  ghost predicate RxOk(r: Rx, file: seq<byte>, bs: nat) {
    && r.expected >= 1
    && r.written == Prefix(file, bs, Got(r))
    && r.pkt == AckPacket(Got(r) % BLOCKS)
    && FullTo(file, bs, r.expected - 1)
    && (r.status == Finished ==> |BlockAt(file, bs, Got(r))| < bs)
  }

  /** Nothing under way to the receiver is about a block behind `n`. */
  ghost predicate DataOk(items: seq<Item>, n: nat, file: seq<byte>, bs: nat, oack: seq<byte>) {
    forall i :: 0 <= i < |items| ==>
      items[i].num <= n && items[i].bytes == PacketOf(file, bs, oack, items[i].num) && (items[i].num == 0 ==> oack != [])
  }

  ghost predicate AcksOk(items: seq<Item>, got: nat) {
    forall i :: 0 <= i < |items| ==> items[i].num <= got && items[i].bytes == AckPacket(items[i].num % BLOCKS)
  }

  /** The parties are at most one block apart, and nothing under way is about a later block. */
  ghost predicate Inv(s: Sys, file: seq<byte>, bs: nat, oack: seq<byte>) {
    && TxOk(s.tx, file, bs, oack) && RxOk(s.rx, file, bs)
    && Got(s.rx) <= s.tx.block <= Got(s.rx) + 1
    && (s.tx.status == Done ==> s.tx.block == Got(s.rx) && s.tx.block >= 1 && s.tx.len < bs)
    && DataOk(s.toRx, s.tx.block, file, bs, oack) && AcksOk(s.toTx, Got(s.rx))
  }

  /** An option reply is not a data packet, and fits the receive buffer. */
  predicate OackOk(oack: seq<byte>, bs: nat) {
    oack == [] || (4 <= |oack| <= 4 + bs && WordAt(oack, 0) == OP_OACK)
  }

  lemma StartInv(file: seq<byte>, bs: nat, oack: seq<byte>)
    ensures Inv(Start(file, bs, oack), file, bs, oack)
  {
    hide DataPacket, AckPacket, RestAt, Prefix, PacketOf, TxNext, BlockAt;
    var s := Start(file, bs, oack);
    PrefixGrows(file, bs, 0);
    StartRest(file, bs);
    if oack == [] {
      NextTxOk(0, file, bs, oack);
      TxNextBlock(1, file, bs);
    } else {
      OptionsFirst(file, bs, oack);
    }
    assert s.toRx[0] == Item(s.tx.block, s.tx.pkt);
  }

  lemma OptionsFirst(file: seq<byte>, bs: nat, oack: seq<byte>)
    requires oack != []
    ensures TxOk(TxStart(file, bs, oack), file, bs, oack)
  {
  }

  lemma StartRest(file: seq<byte>, bs: nat)
    ensures RestAt(file, bs, 0) == file
  {
  }

  lemma NextTxOk(n: nat, file: seq<byte>, bs: nat, oack: seq<byte>)
    requires FullTo(file, bs, n)
    ensures TxOk(TxNext(n + 1, RestAt(file, bs, n), bs), file, bs, oack)
  {
    hide DataPacket, Chunk;
  }

  /** Two block numbers less than 65536 apart that agree in 16 bits are equal. */
  lemma SameBlock(a: nat, b: nat)
    requires a <= b < a + BLOCKS && a % BLOCKS == b % BLOCKS
    ensures a == b
  {
  }

  // ---------- the sender's steps ----------

  /** A step of the sender that stays on its block repeats its packet or sends nothing. */
  lemma TxStays(t: Tx, bs: nat, e: Event)
    requires t.status == Waiting
    requires e.Datagram? ==> AnswerTo(t.block % BLOCKS, e.fromPeer, e.bytes) != Acked
    ensures var (t', out) := TxStep(t, bs, e);
            t' == t.(tries := t'.tries, status := t'.status) && t'.status != Done && (out == [] || out == [t.pkt])
  {
  }

  lemma DataGrows(items: seq<Item>, n: nat, n': nat, file: seq<byte>, bs: nat, oack: seq<byte>, out: seq<seq<byte>>)
    requires DataOk(items, n, file, bs, oack) && n <= n' && (out == [] || out == [PacketOf(file, bs, oack, n')])
    requires n' == 0 ==> oack != []
    ensures DataOk(items + Items(n', out), n', file, bs, oack)
  {
    hide PacketOf;
  }

  lemma TxStaysInv(s: Sys, file: seq<byte>, bs: nat, oack: seq<byte>, e: Event)
    requires Inv(s, file, bs, oack) && s.tx.status == Waiting
    requires e.Datagram? ==> AnswerTo(s.tx.block % BLOCKS, e.fromPeer, e.bytes) != Acked
    ensures Inv(TxSees(s, bs, e), file, bs, oack)
  {
    hide PacketOf, TxStep, RxOk, DataOk, AcksOk, AnswerTo;
    TxStays(s.tx, bs, e);
    var (t', out) := TxStep(s.tx, bs, e);
    DataGrows(s.toRx, s.tx.block, s.tx.block, file, bs, oack, out);
  }

  lemma TxAckedInv(s: Sys, file: seq<byte>, bs: nat, oack: seq<byte>)
    requires Inv(s, file, bs, oack) && s.tx.status == Waiting && s.tx.block == Got(s.rx)
    ensures var (t', out) := TxAcked(s.tx, bs);
            Inv(s.(tx := t', toRx := s.toRx + Items(t'.block, out)), file, bs, oack)
  {
    hide RxOk, DataOk, AcksOk, TxNext, RestAt, BlockAt;
    var t := s.tx;
    var (t', out) := TxAcked(t, bs);
    if t.block > 0 && t.len < bs {
      DataGrows(s.toRx, t.block, t.block, file, bs, oack, []);
    } else {
      NextTxOk(t.block, file, bs, oack);
      TxNextBlock(t.block + 1, t.rest, bs);
      DataGrows(s.toRx, t.block, t.block + 1, file, bs, oack, out);
    }
  }

  lemma TxNextBlock(block: nat, rest: seq<byte>, bs: nat)
    ensures TxNext(block, rest, bs).block == block && TxNext(block, rest, bs).status == Waiting
  {
  }

  /** An acknowledgement of block `k`, less than 65536 behind the sender. */
  lemma TxKeeps(s: Sys, file: seq<byte>, bs: nat, oack: seq<byte>, k: nat)
    requires Inv(s, file, bs, oack) && k <= Got(s.rx) && s.tx.block < k + BLOCKS
    ensures Inv(TxSees(s, bs, Datagram(true, AckPacket(k % BLOCKS))), file, bs, oack)
  {
    hide Inv, AckPacket, TxAcked;
    InvGap(s, file, bs, oack);
    if s.tx.status == Waiting {
      if k % BLOCKS == s.tx.block % BLOCKS {
        SameBlock(k, s.tx.block);
        TxAckedInv(s, file, bs, oack);
      } else {
        TxStaysInv(s, file, bs, oack, Datagram(true, AckPacket(k % BLOCKS)));
      }
    }
  }

  lemma InvGap(s: Sys, file: seq<byte>, bs: nat, oack: seq<byte>)
    requires Inv(s, file, bs, oack)
    ensures s.rx.expected >= 1 && Got(s.rx) <= s.tx.block <= Got(s.rx) + 1
  {
  }

  // ---------- the receiver's steps ----------

  /** Whatever the receiver does not take leaves the file alone, and it answers with its last acknowledgement or not at all. */
  lemma RxStays(r: Rx, file: seq<byte>, bs: nat, e: Event)
    requires RxOk(r, file, bs) && r.status == Receiving
    requires e.Datagram? && e.fromPeer ==>
               |e.bytes| <= 4 + bs && !(|e.bytes| >= 4 && WordAt(e.bytes, 0) == OP_DATA && WordAt(e.bytes, 2) == r.expected % BLOCKS)
    ensures var (r', out) := RxStep(r, bs, e);
            r' == r.(tries := r'.tries, status := r'.status) && r'.status != Finished
            && (out == [] || out == [AckPacket(Got(r) % BLOCKS)])
  {
    hide AckPacket, Prefix, FullTo;
  }

  /** Taking the block wanted. */
  lemma RxTakes(r: Rx, file: seq<byte>, bs: nat)
    requires RxOk(r, file, bs) && r.status == Receiving
    ensures var (r', out) := RxStep(r, bs, Datagram(true, DataPacket(r.expected % BLOCKS, BlockAt(file, bs, r.expected))));
            RxOk(r', file, bs) && Got(r') == Got(r) + 1 && out == [AckPacket(Got(r') % BLOCKS)]
  {
    hide DataPacket, AckPacket, BlockAt, Prefix, WordAt;
    PrefixGrows(file, bs, r.expected - 1);
  }

  lemma AcksGrow(items: seq<Item>, got: nat, got': nat, out: seq<seq<byte>>)
    requires AcksOk(items, got) && got <= got' && (out == [] || out == [AckPacket(got' % BLOCKS)])
    ensures AcksOk(items + Items(got', out), got')
  {
    hide AckPacket;
  }

  lemma RxStaysInv(s: Sys, file: seq<byte>, bs: nat, oack: seq<byte>, e: Event)
    requires Inv(s, file, bs, oack) && s.rx.status == Receiving
    requires e.Datagram? && e.fromPeer ==>
               |e.bytes| <= 4 + bs && !(|e.bytes| >= 4 && WordAt(e.bytes, 0) == OP_DATA && WordAt(e.bytes, 2) == s.rx.expected % BLOCKS)
    ensures Inv(RxSees(s, bs, e), file, bs, oack)
  {
    hide AckPacket, RxStep, TxOk, DataOk, AcksOk, Prefix, FullTo, BlockAt, WordAt;
    RxStays(s.rx, file, bs, e);
    var (r', out) := RxStep(s.rx, bs, e);
    AcksGrow(s.toTx, Got(s.rx), Got(r'), out);
  }

  lemma RxTakesInv(s: Sys, file: seq<byte>, bs: nat, oack: seq<byte>)
    requires Inv(s, file, bs, oack) && s.rx.status == Receiving && s.rx.expected == s.tx.block
    ensures Inv(RxSees(s, bs, Datagram(true, PacketOf(file, bs, oack, s.rx.expected))), file, bs, oack)
  {
    hide AckPacket, DataPacket, RxStep, TxOk, RxOk, DataOk, AcksOk, Prefix, FullTo, BlockAt, WordAt;
    RxBegun(s.rx, file, bs);
    RxTakes(s.rx, file, bs);
    var (r', out) := RxStep(s.rx, bs, Datagram(true, PacketOf(file, bs, oack, s.rx.expected)));
    AcksGrow(s.toTx, Got(s.rx), Got(r'), out);
    RxBegun(r', file, bs);
  }

  lemma RxBegun(r: Rx, file: seq<byte>, bs: nat)
    requires RxOk(r, file, bs)
    ensures r.expected >= 1
  {
  }

  /** The packet about block `k`, less than 65536 behind what the receiver waits for. */
  lemma RxKeeps(s: Sys, file: seq<byte>, bs: nat, oack: seq<byte>, k: nat)
    requires Inv(s, file, bs, oack) && OackOk(oack, bs)
    requires k <= s.tx.block && s.rx.expected < k + BLOCKS && (k == 0 ==> oack != [])
    ensures Inv(RxSees(s, bs, Datagram(true, PacketOf(file, bs, oack, k))), file, bs, oack)
  {
    hide Inv, AckPacket, DataPacket;
    InvGap(s, file, bs, oack);
    if s.rx.status == Receiving {
      if k >= 1 && k % BLOCKS == s.rx.expected % BLOCKS {
        SameBlock(k, s.rx.expected);
        RxTakesInv(s, file, bs, oack);
      } else {
        RxStaysInv(s, file, bs, oack, Datagram(true, PacketOf(file, bs, oack, k)));
      }
    }
  }

  // ---------- all runs ----------

  lemma StepKeeps(s: Sys, file: seq<byte>, bs: nat, oack: seq<byte>, step: Step)
    requires Inv(s, file, bs, oack) && OackOk(oack, bs) && Fresh(s, step)
    ensures Inv(SysStep(s, bs, step), file, bs, oack)
  {
    hide TxOk, RxOk, PacketOf, AckPacket, TxSees, RxSees;
    InvGap(s, file, bs, oack);
    match step {
      case TxTimeout => if s.tx.status == Waiting { TxStaysInv(s, file, bs, oack, Timeout); } else { Idle(s, bs, Timeout); }
      case RxTimeout => if s.rx.status == Receiving { RxStaysInv(s, file, bs, oack, Timeout); } else { Idle(s, bs, Timeout); }
      case ToRx(i) => if i < |s.toRx| { RxKeeps(s, file, bs, oack, s.toRx[i].num); }
      case ToTx(i) => if i < |s.toTx| { TxKeeps(s, file, bs, oack, s.toTx[i].num); }
      case RxNoise(bytes) =>
        if s.rx.status == Receiving { RxStaysInv(s, file, bs, oack, Datagram(false, bytes)); } else { Idle(s, bs, Datagram(false, bytes)); }
      case TxNoise(bytes) =>
        if s.tx.status == Waiting { TxStaysInv(s, file, bs, oack, Datagram(false, bytes)); } else { Idle(s, bs, Datagram(false, bytes)); }
    }
  }

  lemma Idle(s: Sys, bs: nat, e: Event)
    requires s.rx.expected >= 1
    ensures s.tx.status != Waiting ==> TxSees(s, bs, e) == s
    ensures s.rx.status != Receiving ==> RxSees(s, bs, e) == s
  {
  }

  lemma {:induction false} RunKeeps(s: Sys, file: seq<byte>, bs: nat, oack: seq<byte>, steps: seq<Step>)
    requires Inv(s, file, bs, oack) && OackOk(oack, bs) && FreshRun(s, bs, steps)
    ensures Inv(SysRun(s, bs, steps), file, bs, oack)
    decreases |steps|
  {
    hide Inv, SysStep, Fresh;
    InvGap(s, file, bs, oack);
    if steps != [] {
      StepKeeps(s, file, bs, oack, steps[0]);
      RunKeeps(SysStep(s, bs, steps[0]), file, bs, oack, steps[1..]);
    }
  }

  lemma InvMeans(s: Sys, file: seq<byte>, bs: nat, oack: seq<byte>)
    requires Inv(s, file, bs, oack)
    ensures s.rx.written <= file
    ensures s.rx.status == Finished ==> s.rx.written == file
    ensures s.tx.status == Done ==> s.rx.status == Finished
  {
    hide RestAt, Chunk, AckPacket, PacketOf, DataOk, AcksOk;
    if s.rx.status == Finished {
      PrefixGrows(file, bs, Got(s.rx) - 1);
    }
  }

  /**
   Safety over every run on a network that loses, repeats and reorders datagrams but delivers none that is 65535
   or more blocks behind the sender: what the receiver has is a prefix of the file, it is the whole file when the
   receiver finished, and the receiver has finished when the sender reports the transfer done.
   */
  lemma TransferIsSafe(file: seq<byte>, bs: nat, oack: seq<byte>, steps: seq<Step>)
    requires OackOk(oack, bs) && FreshRun(Start(file, bs, oack), bs, steps)
    ensures var s := SysRun(Start(file, bs, oack), bs, steps);
            && s.rx.written <= file
            && (s.rx.status == Finished ==> s.rx.written == file)
            && (s.tx.status == Done ==> s.rx.status == Finished && s.rx.written == file)
  {
    hide Inv, Start, SysRun;
    StartInv(file, bs, oack);
    StartBegun(file, bs, oack);
    RunKeeps(Start(file, bs, oack), file, bs, oack, steps);
    InvMeans(SysRun(Start(file, bs, oack), bs, steps), file, bs, oack);
  }

  lemma StartBegun(file: seq<byte>, bs: nat, oack: seq<byte>)
    ensures Start(file, bs, oack).rx.expected == 1
  {
  }

  // ---------- short files ----------

  lemma {:induction false} BlocksLeft(file: seq<byte>, bs: nat, k: nat)
    requires bs > 0 && FullTo(file, bs, k)
    ensures Blocks(|RestAt(file, bs, k)|, bs) + k == Blocks(|file|, bs)
    decreases k
  {
    if k > 0 {
      BlocksLeft(file, bs, k - 1);
      assert |BlockAt(file, bs, k)| == bs;
    }
  }

  lemma BlockInFile(s: Sys, file: seq<byte>, bs: nat, oack: seq<byte>)
    requires Inv(s, file, bs, oack) && bs > 0
    ensures s.tx.block <= Blocks(|file|, bs)
  {
    if s.tx.block > 0 {
      BlocksLeft(file, bs, s.tx.block - 1);
    }
  }

  lemma {:induction false} ShortRunIsFresh(s: Sys, file: seq<byte>, bs: nat, oack: seq<byte>, steps: seq<Step>)
    requires Inv(s, file, bs, oack) && OackOk(oack, bs) && bs > 0 && Blocks(|file|, bs) < 0xFFFF
    ensures s.rx.expected >= 1 && FreshRun(s, bs, steps)
    decreases |steps|
  {
    hide Inv, SysStep;
    InvGap(s, file, bs, oack);
    if steps != [] {
      BlockInFile(s, file, bs, oack);
      StepKeeps(s, file, bs, oack, steps[0]);
      ShortRunIsFresh(SysStep(s, bs, steps[0]), file, bs, oack, steps[1..]);
    }
  }

  /** A file of fewer than 65535 blocks is safe on every network, however old what it delivers. */
  lemma ShortTransferIsSafe(file: seq<byte>, bs: nat, oack: seq<byte>, steps: seq<Step>)
    requires OackOk(oack, bs) && bs > 0 && Blocks(|file|, bs) < 0xFFFF
    ensures var s := SysRun(Start(file, bs, oack), bs, steps);
            && s.rx.written <= file
            && (s.rx.status == Finished ==> s.rx.written == file)
            && (s.tx.status == Done ==> s.rx.status == Finished && s.rx.written == file)
  {
    hide Inv, Start, SysRun;
    StartInv(file, bs, oack);
    ShortRunIsFresh(Start(file, bs, oack), file, bs, oack, steps);
    TransferIsSafe(file, bs, oack, steps);
  }

  // ---------- lock-step runs ----------

  lemma {:induction false} RunAppend(s: Sys, bs: nat, a: seq<Step>, b: seq<Step>)
    requires s.rx.expected >= 1
    ensures SysRun(s, bs, a + b) == SysRun(SysRun(s, bs, a), bs, b)
    ensures FreshRun(s, bs, a + b) <==> FreshRun(s, bs, a) && FreshRun(SysRun(s, bs, a), bs, b)
    decreases |a|
  {
    hide SysStep, Fresh;
    if a == [] {
      assert a + b == b;
    } else {
      assert (a + b)[1..] == a[1..] + b;
      RunAppend(SysStep(s, bs, a[0]), bs, a[1..], b);
    }
  }

  /** Both parties are at block `n`, and the newest packet under way carries it. */
  ghost predicate Level(s: Sys, file: seq<byte>, bs: nat, n: nat) {
    && n >= 1 && Inv(s, file, bs, []) && s.tx.status == Waiting && s.rx.status == Receiving
    && s.tx.block == n && s.rx.expected == n
    && s.toRx != [] && s.toRx[|s.toRx| - 1] == Item(n, PacketOf(file, bs, [], n))
    && s.toRx[0] == Item(1, PacketOf(file, bs, [], 1))
  }

  lemma StartLevel(file: seq<byte>, bs: nat)
    ensures Level(Start(file, bs, []), file, bs, 1)
  {
    hide Inv, DataPacket, AckPacket, RestAt;
    StartInv(file, bs, []);
    StartRest(file, bs);
  }

  /** The newest packet is delivered: the receiver takes it and acknowledges. */
  lemma HalfRound(s: Sys, file: seq<byte>, bs: nat, n: nat)
    requires Level(s, file, bs, n)
    ensures var step := ToRx(|s.toRx| - 1);
            var s1 := SysStep(s, bs, step);
            && Fresh(s, step) && Inv(s1, file, bs, [])
            && s1.tx == s.tx && s1.toRx == s.toRx && Got(s1.rx) == n
            && s1.rx.status == (if |BlockAt(file, bs, n)| < bs then Finished else Receiving)
            && s1.rx.written == Prefix(file, bs, n)
            && s1.toTx != [] && s1.toTx[|s1.toTx| - 1] == Item(n, AckPacket(n % BLOCKS))
  {
    hide AckPacket, DataPacket, BlockAt, Prefix, DataOk, AcksOk, TxOk, FullTo;
    var step := ToRx(|s.toRx| - 1);
    StepKeeps(s, file, bs, [], step);
    RxTakes(s.rx, file, bs);
    TakenStatus(s.rx, file, bs);
  }

  lemma TakenStatus(r: Rx, file: seq<byte>, bs: nat)
    requires RxOk(r, file, bs) && r.status == Receiving
    ensures var (r', out) := RxStep(r, bs, Datagram(true, DataPacket(r.expected % BLOCKS, BlockAt(file, bs, r.expected))));
            r'.status == if |BlockAt(file, bs, r.expected)| < bs then Finished else Receiving
  {
    hide DataPacket, AckPacket, BlockAt, Prefix, WordAt, FullTo;
  }

  /** The acknowledgement is delivered too: on to the next block, or done. */
  lemma SecondHalf(s: Sys, file: seq<byte>, bs: nat, n: nat)
    requires Inv(s, file, bs, []) && s.tx.status == Waiting && s.tx.block == n >= 1 && Got(s.rx) == n
    requires s.toTx != [] && s.toTx[|s.toTx| - 1] == Item(n, AckPacket(n % BLOCKS)) && s.toRx != []
    requires s.toRx[0] == Item(1, PacketOf(file, bs, [], 1))
    ensures var step := ToTx(|s.toTx| - 1);
            var s1 := SysStep(s, bs, step);
            && Fresh(s, step)
            && (|BlockAt(file, bs, n)| < bs ==> s1.tx.status == Done)
            && (|BlockAt(file, bs, n)| == bs && s.rx.status == Receiving ==> Level(s1, file, bs, n + 1))
  {
    hide AckPacket, DataPacket, BlockAt, Prefix, DataOk, AcksOk, FullTo, RxOk, RestAt, TxNext;
    var step := ToTx(|s.toTx| - 1);
    StepKeeps(s, file, bs, [], step);
    TxNextBlock(n + 1, s.tx.rest, bs);
    InvPacket(SysStep(s, bs, step), file, bs);
  }

  lemma InvPacket(s: Sys, file: seq<byte>, bs: nat)
    requires Inv(s, file, bs, [])
    ensures s.tx.pkt == PacketOf(file, bs, [], s.tx.block)
  {
  }

  /** A run without loss brings both parties to block `k + 1`, if the first `k` blocks are full. */
  lemma {:induction false} LockStep(file: seq<byte>, bs: nat, k: nat) returns (steps: seq<Step>, s: Sys)
    requires FullTo(file, bs, k)
    ensures Start(file, bs, []).rx.expected >= 1 && FreshRun(Start(file, bs, []), bs, steps)
    ensures s == SysRun(Start(file, bs, []), bs, steps) && Level(s, file, bs, k + 1) && |steps| == 2 * k
    decreases k
  {
    hide Start, Level, SysStep, Fresh, Inv;
    StartBegun(file, bs, []);
    StartLevel(file, bs);
    if k == 0 {
      steps, s := [], Start(file, bs, []);
    } else {
      var before, s0 := LockStep(file, bs, k - 1);
      var s1, s2, round := FullRound(s0, file, bs, k);
      steps, s := before + round, s2;
      RunAppend(Start(file, bs, []), bs, before, round);
    }
  }

  lemma FullRound(s: Sys, file: seq<byte>, bs: nat, n: nat) returns (s1: Sys, s2: Sys, round: seq<Step>)
    requires Level(s, file, bs, n)
    ensures s.rx.expected >= 1 && FreshRun(s, bs, round) && |round| == 2
    ensures s2 == SysRun(s, bs, round)
    ensures |BlockAt(file, bs, n)| < bs ==> s2.tx.status == Done
    ensures |BlockAt(file, bs, n)| == bs ==> Level(s2, file, bs, n + 1)
  {
    hide AckPacket, DataPacket, BlockAt, Prefix, Inv, Fresh, SysStep;
    HalfRound(s, file, bs, n);
    s1 := SysStep(s, bs, ToRx(|s.toRx| - 1));
    SecondHalf(s1, file, bs, n);
    s2 := SysStep(s1, bs, ToTx(|s1.toTx| - 1));
    round := [ToRx(|s.toRx| - 1), ToTx(|s1.toTx| - 1)];
    TwoSteps(s, bs, round[0], round[1]);
  }

  lemma TwoSteps(s: Sys, bs: nat, a: Step, b: Step)
    requires s.rx.expected >= 1
    ensures SysRun(s, bs, [a, b]) == SysStep(SysStep(s, bs, a), bs, b)
    ensures FreshRun(s, bs, [a, b]) <==> Fresh(s, a) && Fresh(SysStep(s, bs, a), b)
  {
    hide SysStep, Fresh;
    var s1 := SysStep(s, bs, a);
    assert [a, b][1..] == [b] && [b][1..] == [];
    assert SysRun(s, bs, [a, b]) == SysRun(s1, bs, [b]);
    assert SysRun(s1, bs, [b]) == SysRun(SysStep(s1, bs, b), bs, []);
    assert FreshRun(SysStep(s1, bs, b), bs, []);
  }

  /**
   The bound is exact. On a file of more than 65536 blocks whose first and 65537th differ, a run delivers block 1
   once more when the sender is exactly 65535 blocks on, everything before being fresh, and the receiver takes it
   for block 65537: what it has is no longer a prefix of the file.
   */
  lemma StaleBlockIsTaken(file: seq<byte>, bs: nat) returns (steps: seq<Step>)
    requires FullTo(file, bs, BLOCKS) && BlockAt(file, bs, BLOCKS + 1) != BlockAt(file, bs, 1)
    ensures FreshRun(Start(file, bs, []), bs, steps)
    ensures var s := SysRun(Start(file, bs, []), bs, steps);
            && s.toRx != [] && s.tx.block == s.toRx[0].num + 0xFFFF
            && !(SysStep(s, bs, ToRx(0)).rx.written <= file)
  {
    hide Start, Level, Inv, FreshRun, SysRun, SysStep, Fresh, BlockAt, Prefix;
    StartBegun(file, bs, []);
    var before, s0 := LockStep(file, bs, BLOCKS - 1);
    var s1 := LastFull(s0, file, bs);
    var step := ToRx(|s0.toRx| - 1);
    OneStep(s0, bs, step);
    steps := before + [step];
    RunAppend(Start(file, bs, []), bs, before, [step]);
    WrongBlock(file, bs);
  }

  lemma OneStep(s: Sys, bs: nat, a: Step)
    requires s.rx.expected >= 1
    ensures SysRun(s, bs, [a]) == SysStep(s, bs, a) && (FreshRun(s, bs, [a]) <==> Fresh(s, a))
  {
    hide SysStep, Fresh;
    var s1 := SysStep(s, bs, a);
    assert [a][1..] == [];
    assert SysRun(s1, bs, []) == s1 && FreshRun(s1, bs, []);
  }

  /** Both parties at block 65536, the receiver takes it, and then takes block 1 again. */
  lemma LastFull(s: Sys, file: seq<byte>, bs: nat) returns (s1: Sys)
    requires Level(s, file, bs, BLOCKS) && |BlockAt(file, bs, BLOCKS)| == bs && |BlockAt(file, bs, 1)| == bs
    ensures s.rx.expected >= 1 && s.toRx != [] && s1 == SysStep(s, bs, ToRx(|s.toRx| - 1)) && Fresh(s, ToRx(|s.toRx| - 1))
    ensures s1.toRx != [] && s1.tx.block == s1.toRx[0].num + 0xFFFF
    ensures SysStep(s1, bs, ToRx(0)).rx.written == Prefix(file, bs, BLOCKS) + BlockAt(file, bs, 1)
  {
    hide AckPacket, DataPacket, BlockAt, Prefix, DataOk, AcksOk, TxOk, FullTo, RxStep, Items;
    HalfRound(s, file, bs, BLOCKS);
    s1 := SysStep(s, bs, ToRx(|s.toRx| - 1));
    RxDeceived(s1.rx, file, bs);
  }

  /** The receiver wants block 65537, and block 1 bears the same number. */
  lemma RxDeceived(r: Rx, file: seq<byte>, bs: nat)
    requires r.expected == BLOCKS + 1 && |BlockAt(file, bs, 1)| == bs
    ensures RxStep(r, bs, Datagram(true, PacketOf(file, bs, [], 1))).0.written == r.written + BlockAt(file, bs, 1)
  {
    hide BlockAt, AckPacket, WordAt, DataPacket;
  }

  lemma WrongBlock(file: seq<byte>, bs: nat)
    requires |BlockAt(file, bs, 1)| == bs && BlockAt(file, bs, BLOCKS + 1) != BlockAt(file, bs, 1)
    ensures !(Prefix(file, bs, BLOCKS) + BlockAt(file, bs, 1) <= file)
  {
    hide RestAt;
    var p := Prefix(file, bs, BLOCKS);
    var r := RestAt(file, bs, BLOCKS);
    var b := BlockAt(file, bs, 1);
    assert file == p + r;
  }
}
