/**
 The same two parties on a network that hands over each copy of a datagram once, or loses it: what is lost comes
 again only because a party sends it again (RFC 1123 section 4.2.3.1).
 */
module TftpLossy {
  import opened Bytes
  import opened TftpWire
  import opened TftpSender
  import opened TftpReceiver
  import opened TftpSystem

  /** The lists of a `Sys` now hold what is under way: a copy leaves them when it arrives or is lost. */
  datatype Move =
    | TxSilence | RxSilence
    | ArriveRx(i: nat) | ArriveTx(i: nat)
    | LoseRx(i: nat) | LoseTx(i: nat)
    | StrayRx(bytes: seq<byte>) | StrayTx(bytes: seq<byte>)

  function Without(items: seq<Item>, i: nat): (r: seq<Item>)
    requires i < |items|
    ensures |r| == |items| - 1
  {
    items[..i] + items[i + 1..]
  }

  function MoveOn(s: Sys, bs: nat, m: Move): (s': Sys)
    requires s.rx.expected >= 1
    ensures s'.rx.expected >= 1
  {
    match m
    case TxSilence => TxSees(s, bs, Timeout)
    case RxSilence => RxSees(s, bs, Timeout)
    case ArriveRx(i) => if i < |s.toRx| then RxSees(s.(toRx := Without(s.toRx, i)), bs, Datagram(true, s.toRx[i].bytes)) else s
    case ArriveTx(i) => if i < |s.toTx| then TxSees(s.(toTx := Without(s.toTx, i)), bs, Datagram(true, s.toTx[i].bytes)) else s
    case LoseRx(i) => if i < |s.toRx| then s.(toRx := Without(s.toRx, i)) else s
    case LoseTx(i) => if i < |s.toTx| then s.(toTx := Without(s.toTx, i)) else s
    case StrayRx(bytes) => RxSees(s, bs, Datagram(false, bytes))
    case StrayTx(bytes) => TxSees(s, bs, Datagram(false, bytes))
  }

  /** Nothing arrives that is 65535 or more blocks behind the sender. */
  predicate Timely(s: Sys, m: Move) {
    && (m.ArriveRx? && m.i < |s.toRx| ==> s.tx.block < s.toRx[m.i].num + 0xFFFF)
    && (m.ArriveTx? && m.i < |s.toTx| ==> s.tx.block < s.toTx[m.i].num + 0xFFFF)
  }

  function MovesOn(s: Sys, bs: nat, ms: seq<Move>): (s': Sys)
    requires s.rx.expected >= 1
    ensures s'.rx.expected >= 1
    decreases |ms|
  {
    if ms == [] then s else MovesOn(MoveOn(s, bs, ms[0]), bs, ms[1..])
  }

  predicate TimelyMoves(s: Sys, bs: nat, ms: seq<Move>)
    requires s.rx.expected >= 1
    decreases |ms|
  {
    ms != [] ==> Timely(s, ms[0]) && TimelyMoves(MoveOn(s, bs, ms[0]), bs, ms[1..])
  }

  // ---------- safety ----------

  /** Losing copies keeps the invariant. */
  lemma FewerKeep(s: Sys, s': Sys, file: seq<byte>, bs: nat, oack: seq<byte>)
    requires Inv(s, file, bs, oack) && s'.tx == s.tx && s'.rx == s.rx
    requires (forall x :: x in s'.toRx ==> x in s.toRx) && (forall x :: x in s'.toTx ==> x in s.toTx)
    ensures Inv(s', file, bs, oack)
  {
    hide TxOk, RxOk, PacketOf, AckPacket;
    forall i | 0 <= i < |s'.toRx|
      ensures s'.toRx[i] in s.toRx
    {
    }
    forall i | 0 <= i < |s'.toTx|
      ensures s'.toTx[i] in s.toTx
    {
    }
  }

  lemma MoveKeeps(s: Sys, file: seq<byte>, bs: nat, oack: seq<byte>, m: Move)
    requires Inv(s, file, bs, oack) && OackOk(oack, bs) && Timely(s, m)
    ensures s.rx.expected >= 1 && Inv(MoveOn(s, bs, m), file, bs, oack)
  {
    hide TxOk, RxOk, PacketOf, AckPacket, TxSees, RxSees, OackOk;
    InvGap(s, file, bs, oack);
    match m {
      case TxSilence => StepKeeps(s, file, bs, oack, TxTimeout);
      case RxSilence => StepKeeps(s, file, bs, oack, RxTimeout);
      case ArriveRx(i) =>
        if i < |s.toRx| {
          FewerKeep(s, s.(toRx := Without(s.toRx, i)), file, bs, oack);
          RxKeeps(s.(toRx := Without(s.toRx, i)), file, bs, oack, s.toRx[i].num);
        }
      case ArriveTx(i) =>
        if i < |s.toTx| {
          FewerKeep(s, s.(toTx := Without(s.toTx, i)), file, bs, oack);
          TxKeeps(s.(toTx := Without(s.toTx, i)), file, bs, oack, s.toTx[i].num);
        }
      case LoseRx(i) => if i < |s.toRx| { FewerKeep(s, s.(toRx := Without(s.toRx, i)), file, bs, oack); }
      case LoseTx(i) => if i < |s.toTx| { FewerKeep(s, s.(toTx := Without(s.toTx, i)), file, bs, oack); }
      case StrayRx(bytes) => StepKeeps(s, file, bs, oack, RxNoise(bytes));
      case StrayTx(bytes) => StepKeeps(s, file, bs, oack, TxNoise(bytes));
    }
  }

  lemma {:induction false} MovesKeep(s: Sys, file: seq<byte>, bs: nat, oack: seq<byte>, ms: seq<Move>)
    requires Inv(s, file, bs, oack) && OackOk(oack, bs) && s.rx.expected >= 1 && TimelyMoves(s, bs, ms)
    ensures Inv(MovesOn(s, bs, ms), file, bs, oack)
    decreases |ms|
  {
    hide Inv, MoveOn, Timely, OackOk;
    if ms != [] {
      MoveKeeps(s, file, bs, oack, ms[0]);
      MovesKeep(MoveOn(s, bs, ms[0]), file, bs, oack, ms[1..]);
    }
  }

  // ---------- sending again ----------

  /**
   A timeout of the sender puts its packet under way again exactly when an attempt is left; otherwise it gives up and
   sends nothing. A timeout of the receiver always puts its last acknowledgement under way again.
   */
  lemma SentAgain(s: Sys, file: seq<byte>, bs: nat, oack: seq<byte>)
    requires Inv(s, file, bs, oack)
    ensures s.rx.expected >= 1
    ensures s.tx.status == Waiting ==>
              MoveOn(s, bs, TxSilence) ==
              if s.tx.tries < 4 then s.(tx := s.tx.(tries := s.tx.tries + 1),
                                        toRx := s.toRx + [Item(s.tx.block, PacketOf(file, bs, oack, s.tx.block))])
              else s.(tx := s.tx.(tries := s.tx.tries + 1, status := GaveUp))
    ensures s.rx.status == Receiving ==>
              MoveOn(s, bs, RxSilence) ==
              s.(rx := s.rx.(tries := s.rx.tries + 1, status := if s.rx.tries < 4 then Receiving else Aborted),
                 toTx := s.toTx + [Item(Got(s.rx), AckPacket(Got(s.rx) % 65536))])
  {
    hide PacketOf, AckPacket, RestAt, Prefix, FullTo, DataOk, AcksOk, BlockAt;
    var (t, out) := TxStep(s.tx, bs, Timeout);
    var (r, acks) := RxStep(s.rx, bs, Timeout);
    assert s.toRx + Items(t.block, []) == s.toRx;
    assert Items(t.block, [s.tx.pkt]) == [Item(t.block, s.tx.pkt)] && Items(Got(r), [s.rx.pkt]) == [Item(Got(r), s.rx.pkt)];
  }

  // ---------- completion ----------

  /** The acknowledgement of the block sent last arrives: the transfer is done, or the next block is under way. */
  lemma AckArrives(s: Sys, file: seq<byte>, bs: nat, oack: seq<byte>, i: nat)
    requires Inv(s, file, bs, oack) && OackOk(oack, bs) && s.tx.status == Waiting && s.rx.status != Aborted
    requires i < |s.toTx| && s.toTx[i].num == s.tx.block
    ensures s.rx.expected >= 1 && Timely(s, ArriveTx(i))
    ensures var s' := MoveOn(s, bs, ArriveTx(i));
            && Inv(s', file, bs, oack) && s'.rx == s.rx
            && if s.rx.status == Finished then s'.tx.status == Done
               else s'.tx.status == Waiting && s'.tx.tries == 0 && s'.tx.block == s.tx.block + 1
  {
    hide PacketOf, AckPacket, RestAt, Prefix, DataOk, BlockAt, DataPacket;
    MoveKeeps(s, file, bs, oack, ArriveTx(i));
    assert s.toTx[i].bytes == AckPacket(s.tx.block % BLOCKS);
    assert AnswerTo(s.tx.block % BLOCKS, true, s.toTx[i].bytes) == Acked;
    assert s.tx.block == Got(s.rx);
    NextIs(s.tx, bs);
  }

  lemma NextIs(t: Tx, bs: nat)
    ensures var t1 := TxAcked(t, bs).0;
            if t.block > 0 && t.len < bs then t1.status == Done else t1.status == Waiting && t1.tries == 0 && t1.block == t.block + 1
  {
  }

  lemma {:induction false} MovesAppend(s: Sys, bs: nat, a: seq<Move>, b: seq<Move>)
    requires s.rx.expected >= 1
    ensures MovesOn(s, bs, a + b) == MovesOn(MovesOn(s, bs, a), bs, b)
    ensures TimelyMoves(s, bs, a + b) <==> TimelyMoves(s, bs, a) && TimelyMoves(MovesOn(s, bs, a), bs, b)
    decreases |a|
  {
    hide MoveOn, Timely;
    if a == [] {
      assert a + b == b;
    } else {
      assert (a + b)[0] == a[0] && (a + b)[1..] == a[1..] + b;
      MovesAppend(MoveOn(s, bs, a[0]), bs, a[1..], b);
    }
  }

  lemma OneMove(s: Sys, bs: nat, m: Move)
    requires s.rx.expected >= 1
    ensures MovesOn(s, bs, [m]) == MoveOn(s, bs, m) && (TimelyMoves(s, bs, [m]) <==> Timely(s, m))
  {
    hide MoveOn, Timely;
    assert [m][1..] == [];
  }

  /** The sender's packet, sent again after a timeout, arrives: an acknowledgement of it can be had. */
  lemma {:induction false} AckComes(s: Sys, file: seq<byte>, bs: nat, oack: seq<byte>) returns (ms: seq<Move>)
    requires Inv(s, file, bs, oack) && OackOk(oack, bs)
    requires s.tx.status == Waiting && s.tx.tries < 4 && s.rx.status == Receiving && s.rx.expected >= 1
    ensures TimelyMoves(s, bs, ms)
    ensures var s' := MovesOn(s, bs, ms);
            && Inv(s', file, bs, oack) && s'.tx.status == Waiting && s'.tx.block == s.tx.block && s'.rx.status != Aborted
            && |s'.toTx| > 0 && s'.toTx[|s'.toTx| - 1].num == s'.tx.block
  {
    hide Inv, PacketOf, AckPacket, MoveOn, RestAt, Prefix, BlockAt;
    SentAgain(s, file, bs, oack);
    MoveKeeps(s, file, bs, oack, TxSilence);
    var s1 := MoveOn(s, bs, TxSilence);
    var i := |s1.toRx| - 1;
    PacketArrives(s1, file, bs, oack, i);
    var s2 := MoveOn(s1, bs, ArriveRx(i));
    OneMove(s, bs, TxSilence);
    OneMove(s1, bs, ArriveRx(i));
    MovesAppend(s, bs, [TxSilence], [ArriveRx(i)]);
    ms := [TxSilence] + [ArriveRx(i)];
    if s.tx.block == Got(s.rx) {
      SentAgain(s2, file, bs, oack);
      MoveKeeps(s2, file, bs, oack, RxSilence);
      OneMove(s2, bs, RxSilence);
      MovesAppend(s, bs, ms, [RxSilence]);
      ms := ms + [RxSilence];
    }
  }

  /** A packet of the sender's block arrives: it is taken and acknowledged, or was taken before. */
  lemma PacketArrives(s: Sys, file: seq<byte>, bs: nat, oack: seq<byte>, i: nat)
    requires Inv(s, file, bs, oack) && OackOk(oack, bs) && s.rx.status == Receiving
    requires i < |s.toRx| && s.toRx[i].num == s.tx.block
    ensures s.rx.expected >= 1 && Timely(s, ArriveRx(i))
    ensures var s' := MoveOn(s, bs, ArriveRx(i));
            && Inv(s', file, bs, oack) && s'.tx == s.tx && Got(s'.rx) == s.tx.block && s'.rx.status != Aborted && s'.rx.tries == 0
            && (s.tx.block == Got(s.rx) ==> s'.rx.status == Receiving)
            && (s.tx.block != Got(s.rx) ==> |s'.toTx| > 0 && s'.toTx[|s'.toTx| - 1].num == s.tx.block)
  {
    hide AckPacket, RestAt, Prefix, AcksOk, TxOk, BlockAt, DataPacket, RxStep, FullTo;
    MoveKeeps(s, file, bs, oack, ArriveRx(i));
    var e := Datagram(true, s.toRx[i].bytes);
    RxStepIs(s.rx, bs, e);
    PeerResets(s.rx, bs, e.bytes);
    assert s.toRx[i].bytes == PacketOf(file, bs, oack, s.tx.block);
    if s.tx.block == s.rx.expected {
      RxTakes(s.rx, file, bs);
    } else if s.tx.block > 0 {
      assert (s.tx.block + 1) % BLOCKS != s.tx.block % BLOCKS;
    }
  }

  lemma PeerResets(r: Rx, bs: nat, bytes: seq<byte>)
    requires r.expected >= 1
    ensures RxStep(r, bs, Datagram(true, bytes)).0.tries == 0
  {
  }

  /** Losing everything that is under way. */
  lemma {:induction false} AllLost(s: Sys, file: seq<byte>, bs: nat, oack: seq<byte>) returns (ms: seq<Move>)
    requires Inv(s, file, bs, oack) && OackOk(oack, bs) && s.rx.expected >= 1
    ensures TimelyMoves(s, bs, ms) && MovesOn(s, bs, ms) == s.(toRx := [], toTx := [])
    ensures Inv(s.(toRx := [], toTx := []), file, bs, oack)
    decreases |s.toRx| + |s.toTx|
  {
    hide Inv, OackOk;
    if s.toRx == [] && s.toTx == [] {
      ms := [];
    } else {
      var m := if s.toRx != [] then LoseRx(0) else LoseTx(0);
      MoveKeeps(s, file, bs, oack, m);
      var rest := AllLost(MoveOn(s, bs, m), file, bs, oack);
      OneMove(s, bs, m);
      MovesAppend(s, bs, [m], rest);
      ms := [m] + rest;
    }
  }

  /** One block further by sending again: a timeout of the sender, and what it sends arrives and is acknowledged. */
  lemma {:induction false} BlockByBlock(s: Sys, file: seq<byte>, bs: nat, oack: seq<byte>) returns (ms: seq<Move>)
    requires Inv(s, file, bs, oack) && OackOk(oack, bs) && bs > 0
    requires s.tx.status == Waiting && s.tx.tries < 4 && s.rx.status == Receiving && s.rx.expected >= 1
    ensures TimelyMoves(s, bs, ms) && MovesOn(s, bs, ms).tx.status == Done
    decreases Blocks(|file|, bs) - s.tx.block
  {
    hide Inv, MoveOn, Blocks, Timely, OackOk;
    BlockInFile(s, file, bs, oack);
    ms := AckComes(s, file, bs, oack);
    var s1 := MovesOn(s, bs, ms);
    var last := |s1.toTx| - 1;
    AckArrives(s1, file, bs, oack, last);
    OneMove(s1, bs, ArriveTx(last));
    MovesAppend(s, bs, ms, [ArriveTx(last)]);
    ms := ms + [ArriveTx(last)];
    var s2 := MovesOn(s, bs, ms);
    if s2.tx.status != Done {
      BlockInFile(s2, file, bs, oack);
      var rest := BlockByBlock(s2, file, bs, oack);
      MovesAppend(s, bs, ms, rest);
      ms := ms + rest;
    }
  }

  /** A receiver that has finished and whose acknowledgements are lost: nothing will end the sender's wait well. */
  lemma {:induction false} NeverDone(s: Sys, file: seq<byte>, bs: nat, oack: seq<byte>, ms: seq<Move>)
    requires Inv(s, file, bs, oack) && OackOk(oack, bs) && s.rx.expected >= 1 && TimelyMoves(s, bs, ms)
    requires s.tx.status != Done && s.rx.status == Finished && forall i :: 0 <= i < |s.toTx| ==> s.toTx[i].num != Got(s.rx)
    ensures MovesOn(s, bs, ms).tx.status != Done
    decreases |ms|
  {
    hide Inv, OackOk, TxSees, RxSees;
    if ms != [] {
      var m := ms[0];
      MoveKeeps(s, file, bs, oack, m);
      FinishedTx(s, file, bs, oack);
      if m.ArriveTx? && m.i < |s.toTx| {
        OldAck(s, file, bs, oack, m.i);
      }
      Quiet(s, bs, m);
      NeverDone(MoveOn(s, bs, m), file, bs, oack, ms[1..]);
    }
  }

  lemma FinishedTx(s: Sys, file: seq<byte>, bs: nat, oack: seq<byte>)
    requires Inv(s, file, bs, oack) && s.rx.status == Finished
    ensures s.tx.block == Got(s.rx)
  {
    hide PacketOf, DataOk, AcksOk, RestAt, Prefix, AckPacket, BlockAt;
  }

  lemma OldAck(s: Sys, file: seq<byte>, bs: nat, oack: seq<byte>, i: nat)
    requires Inv(s, file, bs, oack) && i < |s.toTx| && s.toTx[i].num != Got(s.rx) && s.tx.block == Got(s.rx) < s.toTx[i].num + 0xFFFF
    ensures AnswerTo(s.tx.block % BLOCKS, true, s.toTx[i].bytes) != Acked
  {
    hide PacketOf, DataOk, TxOk, RxOk, AckPacket;
    var k := s.toTx[i].num;
    assert s.toTx[i].bytes == AckPacket(k % BLOCKS);
    if k % BLOCKS == s.tx.block % BLOCKS {
      SameBlock(k, s.tx.block);
    }
  }

  /** A move that brings no acknowledgement of the sender's block leaves a finished receiver and the sender's block alone. */
  lemma Quiet(s: Sys, bs: nat, m: Move)
    requires s.rx.expected >= 1 && s.rx.status == Finished && s.tx.status != Done
    requires m.ArriveTx? && m.i < |s.toTx| ==> AnswerTo(s.tx.block % BLOCKS, true, s.toTx[m.i].bytes) != Acked
    requires forall i :: 0 <= i < |s.toTx| ==> s.toTx[i].num != Got(s.rx)
    ensures var s' := MoveOn(s, bs, m);
            && s'.rx == s.rx && s'.tx.status != Done && forall i :: 0 <= i < |s'.toTx| ==> s'.toTx[i].num != Got(s'.rx)
  {
    hide AnswerTo, TxAcked;
    if m.StrayTx? {
      AnswerIs(s.tx.block % BLOCKS, false, m.bytes);
    }
  }

  /**
   After every run on such a network in which the receiver has not given up and the sender has an attempt left: the
   transfer can still be completed exactly when the receiver has not finished yet, whatever has been lost, or an
   acknowledgement of the last block is under way. When the receiver has finished and its last acknowledgements are
   lost, the sender will give up.
   */
  lemma CompletesIff(file: seq<byte>, bs: nat, oack: seq<byte>, before: seq<Move>)
    requires bs > 0 && OackOk(oack, bs)
    requires Start(file, bs, oack).rx.expected >= 1 && TimelyMoves(Start(file, bs, oack), bs, before)
    ensures var s := MovesOn(Start(file, bs, oack), bs, before);
            s.tx.status == Waiting && s.tx.tries < 4 && s.rx.status != Aborted ==>
              ((exists after :: TimelyMoves(s, bs, after) && MovesOn(s, bs, after).tx.status == Done)
               <==> s.rx.status == Receiving || exists i :: 0 <= i < |s.toTx| && s.toTx[i].num == s.tx.block)
  {
    hide Inv, Start, MovesOn, TimelyMoves, OackOk, Blocks, MoveOn, Timely;
    StartInv(file, bs, oack);
    MovesKeep(Start(file, bs, oack), file, bs, oack, before);
    var s := MovesOn(Start(file, bs, oack), bs, before);
    if s.tx.status == Waiting && s.tx.tries < 4 && s.rx.status != Aborted {
      if s.rx.status == Receiving {
        var ms := BlockByBlock(s, file, bs, oack);
      } else {
        FinishedTx(s, file, bs, oack);
        if i :| 0 <= i < |s.toTx| && s.toTx[i].num == s.tx.block {
          AckArrives(s, file, bs, oack, i);
          OneMove(s, bs, ArriveTx(i));
        } else {
          forall ms | TimelyMoves(s, bs, ms)
            ensures MovesOn(s, bs, ms).tx.status != Done
          {
            NeverDone(s, file, bs, oack, ms);
          }
        }
      }
    }
  }

  /** The same, when everything under way is lost first: the timeouts bring it all again. */
  lemma LossIsMadeGood(file: seq<byte>, bs: nat, oack: seq<byte>, before: seq<Move>) returns (lost: seq<Move>, after: seq<Move>)
    requires bs > 0 && OackOk(oack, bs)
    requires Start(file, bs, oack).rx.expected >= 1 && TimelyMoves(Start(file, bs, oack), bs, before)
    requires var s := MovesOn(Start(file, bs, oack), bs, before);
             s.tx.status == Waiting && s.tx.tries < 4 && s.rx.status == Receiving
    ensures TimelyMoves(Start(file, bs, oack), bs, before + lost + after)
    ensures var s := MovesOn(Start(file, bs, oack), bs, before + lost); s.toRx == [] && s.toTx == []
    ensures var s := MovesOn(Start(file, bs, oack), bs, before + lost + after); s.tx.status == Done && s.rx.written == file
  {
    hide Inv, Start, MovesOn, TimelyMoves, OackOk, Blocks, MoveOn, Timely;
    var s0 := Start(file, bs, oack);
    StartInv(file, bs, oack);
    MovesKeep(s0, file, bs, oack, before);
    var s := MovesOn(s0, bs, before);
    lost := AllLost(s, file, bs, oack);
    MovesAppend(s0, bs, before, lost);
    var s1 := MovesOn(s0, bs, before + lost);
    after := BlockByBlock(s1, file, bs, oack);
    MovesAppend(s0, bs, before + lost, after);
    MovesKeep(s0, file, bs, oack, before + lost + after);
    InvMeans(MovesOn(s0, bs, before + lost + after), file, bs, oack);
  }

  /** Safety on such a network. */
  lemma LossyIsSafe(file: seq<byte>, bs: nat, oack: seq<byte>, ms: seq<Move>)
    requires OackOk(oack, bs) && Start(file, bs, oack).rx.expected >= 1 && TimelyMoves(Start(file, bs, oack), bs, ms)
    ensures var s := MovesOn(Start(file, bs, oack), bs, ms);
            && s.rx.written <= file
            && (s.rx.status == Finished ==> s.rx.written == file)
            && (s.tx.status == Done ==> s.rx.status == Finished && s.rx.written == file)
  {
    hide Inv, Start, MovesOn;
    StartInv(file, bs, oack);
    MovesKeep(Start(file, bs, oack), file, bs, oack, ms);
    InvMeans(MovesOn(Start(file, bs, oack), bs, ms), file, bs, oack);
  }
}
