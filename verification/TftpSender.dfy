/** The sending loop (serve_rrq and _send_await_ack): one step per event, and the loops that take those steps. */
module TftpSender {
  import opened Bytes
  import opened TftpWire

  datatype TxStatus = Waiting | Done | GaveUp

  /**
   The loop's variables: the block sent last (0 stands for the option reply), the packet it went out in, its
   payload's length, the file from there on, and the attempts used up.
   */
  datatype Tx = Tx(block: nat, pkt: seq<byte>, len: nat, rest: seq<byte>, tries: nat, status: TxStatus)

  function Chunk(rest: seq<byte>, blksize: nat): (c: seq<byte>) {
    if |rest| <= blksize then rest else rest[..blksize]
  }

  /** The next block read from the file and sent. */
  function TxNext(block: nat, rest: seq<byte>, blksize: nat): (t: Tx) {
    var data := Chunk(rest, blksize);
    Tx(block, DataPacket(block % BLOCKS, data), |data|, rest[|data|..], 0, Waiting)
  }

  /** Before the first block: the option reply, if there is one. */
  function TxStart(file: seq<byte>, blksize: nat, oack: seq<byte>): (t: Tx) {
    if oack != [] then Tx(0, oack, 0, file, 0, Waiting) else TxNext(1, file, blksize)
  }

  /** The packet sent last was acknowledged. */
  function TxAcked(t: Tx, blksize: nat): (s: (Tx, seq<seq<byte>>)) {
    if t.block > 0 && t.len < blksize then (t.(status := Done), [])
    else
      var t1 := TxNext(t.block + 1, t.rest, blksize);
      (t1, [t1.pkt])
  }

  /** A datagram, cut to the buffer's size: does it acknowledge block `blk`, report an error, or neither? */
  datatype Answer = Acked | Refused | Ignored

  function AnswerTo(blk: nat, fromPeer: bool, bytes: seq<byte>): Answer {
    var d := if |bytes| <= 1024 then bytes else bytes[..1024];
    if !fromPeer || |d| < 4 then Ignored
    else if WordAt(d, 0) == OP_ACK then (if WordAt(d, 2) == blk then Acked else Ignored)
    else if WordAt(d, 0) == OP_ERR then Refused
    else Ignored
  }

  /** One event: the new state and what is sent. A datagram that settles nothing is not answered. */
  function TxStep(t: Tx, blksize: nat, e: Event): (s: (Tx, seq<seq<byte>>)) {
    match e
    case Timeout =>
      if t.tries + 1 >= RETRIES then (t.(tries := t.tries + 1, status := GaveUp), [])
      else (t.(tries := t.tries + 1), [t.pkt])
    case Datagram(fromPeer, bytes) =>
      match AnswerTo(t.block % BLOCKS, fromPeer, bytes)
      case Acked => TxAcked(t, blksize)
      case Refused => (t.(status := GaveUp), [])
      case Ignored => (t, [])
  }

  /** The whole transfer on what arrives, with `out` sent so far. */
  function TxRun(t: Tx, blksize: nat, inbox: seq<Event>, out: seq<seq<byte>>): (s: (Tx, seq<Event>, seq<seq<byte>>))
    requires t.tries < RETRIES
    ensures s.0.status != Waiting
    decreases |inbox|, RETRIES - t.tries
  {
    if t.status != Waiting then (t, inbox, out)
    else
      var (e, rest) := Arrival(inbox);
      var (t1, more) := TxStep(t, blksize, e);
      if t1.status != Waiting then (t1, rest, out + more)
      else TxRun(t1, blksize, rest, out + more)
  }

  /** The number of blocks a file of `n` bytes takes: full ones and then one that is not full. */
  function Blocks(n: nat, blksize: nat): (b: nat)
    requires blksize > 0
    ensures b >= 1
  {
    if n < blksize then 1 else 1 + Blocks(n - blksize, blksize)
  }

  /** The blocks still to come after the one sent last. */
  function Remaining(t: Tx, blksize: nat): nat
    requires blksize > 0
  {
    if t.block > 0 && t.len < blksize then 0 else Blocks(|t.rest|, blksize)
  }

  lemma RemainingStep(t: Tx, blksize: nat)
    requires blksize > 0 && !(t.block > 0 && t.len < blksize)
    ensures Remaining(TxNext(t.block + 1, t.rest, blksize), blksize) + 1 == Remaining(t, blksize)
  {
    hide DataPacket;
  }

  /**
   However many duplicate, stale or foreign datagrams arrive, no packet goes out more often than the attempts
   allow: a transfer of `b` blocks sends at most `5 * b` packets.
   */
  lemma {:induction false} SendsBounded(t: Tx, blksize: nat, inbox: seq<Event>, out: seq<seq<byte>>)
    requires blksize > 0 && t.status == Waiting && t.tries < RETRIES
    ensures |TxRun(t, blksize, inbox, out).2| <= |out| + (RETRIES - 1 - t.tries) + RETRIES * Remaining(t, blksize)
    decreases |inbox|, RETRIES - t.tries
  {
    hide DataPacket, AnswerTo, Remaining;
    var (e, rest) := Arrival(inbox);
    var (t1, more) := TxStep(t, blksize, e);
    if t1.status == Waiting {
      if t1.block != t.block {
        RemainingStep(t, blksize);
      } else {
        SameRemaining(t, t1, blksize);
      }
      SendsBounded(t1, blksize, rest, out + more);
    }
  }

  lemma SameRemaining(t: Tx, t1: Tx, blksize: nat)
    requires blksize > 0 && (t1.block, t1.len, t1.rest) == (t.block, t.len, t.rest)
    ensures Remaining(t1, blksize) == Remaining(t, blksize)
  {
  }

  /** What one call of _send_await_ack does: the events it takes, what it sends, and whether the packet was acknowledged. */
  function Await(pkt: seq<byte>, blk: nat, tries: nat, inbox: seq<Event>, out: seq<seq<byte>>): (s: (bool, seq<Event>, seq<seq<byte>>))
    requires tries < RETRIES
    decreases |inbox|, RETRIES - tries
  {
    var (e, rest) := Arrival(inbox);
    match e
    case Timeout =>
      if tries + 1 == RETRIES then (false, rest, out) else Await(pkt, blk, tries + 1, rest, out + [pkt])
    case Datagram(fromPeer, bytes) =>
      match AnswerTo(blk, fromPeer, bytes)
      case Acked => (true, rest, out)
      case Refused => (false, rest, out)
      case Ignored => Await(pkt, blk, tries, rest, out)
  }

  // ---------- one wait, told in events and bytes ----------

  /** An acknowledgement of the block, or an error packet, from the peer (RFC 1350 section 5). */
  predicate Acknowledges(e: Event, blk: nat) {
    && e.Datagram? && e.fromPeer && |e.bytes| >= 4
    && e.bytes[0] == 0x00 && e.bytes[1] == 0x04 && e.bytes[2] as nat * 256 + e.bytes[3] as nat == blk
  }

  predicate Refuses(e: Event) {
    e.Datagram? && e.fromPeer && |e.bytes| >= 4 && e.bytes[0] == 0x00 && e.bytes[1] == 0x05
  }

  lemma AnswerIs(blk: nat, fromPeer: bool, bytes: seq<byte>)
    ensures AnswerTo(blk, fromPeer, bytes) == Acked <==> Acknowledges(Datagram(fromPeer, bytes), blk)
    ensures AnswerTo(blk, fromPeer, bytes) == Refused <==> Refuses(Datagram(fromPeer, bytes))
  {
  }

  function Timeouts(es: seq<Event>): (n: nat) {
    if es == [] then 0 else (if es[0] == Timeout then 1 else 0) + Timeouts(es[1..])
  }

  function Copies(pkt: seq<byte>, n: nat): (c: seq<seq<byte>>)
    ensures |c| == n && forall i :: 0 <= i < n ==> c[i] == pkt
  {
    seq(n, _ => pkt)
  }

  /** What is still to come in a wait with `tries` attempts used up: when nothing arrives any more, there are timeouts. */
  function ToCome(inbox: seq<Event>, tries: nat): (es: seq<Event>)
    requires tries < 5
  {
    inbox + seq(5 - tries, _ => Timeout)
  }

  /**
   The wait is over with event `j`: the first that is an acknowledgement, an error or the last timeout the attempts
   allow.
   */
  predicate OverAt(blk: nat, tries: nat, inbox: seq<Event>, j: nat)
    requires tries < 5
  {
    var es := ToCome(inbox, tries);
    && j < |es|
    && (forall k :: 0 <= k < j ==> !Acknowledges(es[k], blk) && !Refuses(es[k]))
    && Timeouts(es[..j]) + tries <= 4
    && (Acknowledges(es[j], blk) || Refuses(es[j]) || (es[j] == Timeout && Timeouts(es[..j]) + tries == 4))
  }

  lemma LaterEvent(blk: nat, tries: nat, tries': nat, e: Event, rest: seq<Event>, inbox: seq<Event>, j: nat)
    requires tries < 5 && tries' == tries + (if e == Timeout then 1 else 0) < 5
    requires inbox == [e] + rest || (inbox == [] == rest && e == Timeout)
    requires !Acknowledges(e, blk) && !Refuses(e) && OverAt(blk, tries', rest, j)
    ensures OverAt(blk, tries, inbox, j + 1)
    ensures var es, es' := ToCome(inbox, tries), ToCome(rest, tries');
            && j + 1 < |es| && j < |es'| && es[j + 1] == es'[j]
            && Timeouts(es[..j + 1]) == Timeouts(es'[..j]) + (if e == Timeout then 1 else 0)
  {
    var es, es' := ToCome(inbox, tries), ToCome(rest, tries');
    assert es[0] == e && |es| >= |es'| + 1;
    assert forall k :: 0 <= k < |es'| ==> es[k + 1] == es'[k];
    assert es[..j + 1] == [e] + es'[..j];
    assert ([e] + es'[..j])[1..] == es'[..j];
    forall k | 0 <= k < j + 1
      ensures !Acknowledges(es[k], blk) && !Refuses(es[k])
    {
      if k > 0 {
        assert es[k] == es'[k - 1];
      }
    }
  }

  /** What a wait sends: its packet once more for every timeout before the event that ends it, and nothing else. */
  lemma {:induction false} WaitIs(pkt: seq<byte>, blk: nat, tries: nat, inbox: seq<Event>, out: seq<seq<byte>>) returns (j: nat)
    requires tries < 5
    ensures OverAt(blk, tries, inbox, j)
    ensures var es := ToCome(inbox, tries);
            var (ok, rest, out') := Await(pkt, blk, tries, inbox, out);
            && j < |es| && out' == out + Copies(pkt, Timeouts(es[..j])) && (ok <==> Acknowledges(es[j], blk))
            && rest == if j < |inbox| then inbox[j + 1..] else []
    decreases |inbox|, 5 - tries
  {
    hide AnswerTo, OverAt;
    var (e, rest) := Arrival(inbox);
    var es := ToCome(inbox, tries);
    assert es[0] == e && out + Copies(pkt, 0) == out;
    EventEnds(blk, tries, inbox, e);
    if e != Timeout {
      AnswerIs(blk, e.fromPeer, e.bytes);
    }
    if Acknowledges(e, blk) || Refuses(e) || (e == Timeout && tries == 4) {
      j := 0;
    } else {
      var tries' := tries + if e == Timeout then 1 else 0;
      var out1 := if e == Timeout then out + [pkt] else out;
      var j1 := WaitIs(pkt, blk, tries', rest, out1);
      LaterEvent(blk, tries, tries', e, rest, inbox, j1);
      j := j1 + 1;
      assert [pkt] + Copies(pkt, j1) == Copies(pkt, j1 + 1);
      var n := Timeouts(ToCome(rest, tries')[..j1]);
      if e == Timeout {
        assert out + [pkt] + Copies(pkt, n) == out + Copies(pkt, n + 1);
      }
    }
  }

  lemma EventEnds(blk: nat, tries: nat, inbox: seq<Event>, e: Event)
    requires tries < 5 && e == Arrival(inbox).0
    ensures Acknowledges(e, blk) || Refuses(e) || (e == Timeout && tries == 4) ==> OverAt(blk, tries, inbox, 0)
    ensures Timeouts(ToCome(inbox, tries)[..0]) == 0
  {
  }

  /** A transfer is one wait after another. */
  lemma {:induction false} RunAwaits(t: Tx, blksize: nat, inbox: seq<Event>, out: seq<seq<byte>>)
    requires t.status == Waiting && t.tries < RETRIES
    ensures var (ok, rest, out1) := Await(t.pkt, t.block % BLOCKS, t.tries, inbox, out);
            var (t', rest', out') := TxRun(t, blksize, inbox, out);
            if !ok then t'.status == GaveUp && (rest', out') == (rest, out1)
            else
              var (t1, more) := TxAcked(t, blksize);
              if t1.status == Done then (t', rest', out').0.status == Done && (rest', out') == (rest, out1)
              else (t', rest', out') == TxRun(t1, blksize, rest, out1 + more)
    decreases |inbox|, RETRIES - t.tries
  {
    hide DataPacket, AnswerTo;
    assert out + [] == out;
    var (e, rest) := Arrival(inbox);
    var (t1, more) := TxStep(t, blksize, e);
    if t1.status == Waiting && t1.block == t.block {
      RunAwaits(t1, blksize, rest, out + more);
    }
  }

  /**
   _send_await_ack; `sent` is what was sent in this transfer before. Event `j` ends the wait, and the packet goes out
   once and once more for every timeout before that.
   */
  method SendAwaitAck(sock: Socket, pkt: seq<byte>, blk: nat, ghost base: seq<seq<byte>>, ghost sent: seq<seq<byte>>)
    returns (ok: bool, ghost sent': seq<seq<byte>>, ghost j: nat)
    requires sock.sent == base + sent
    modifies sock
    ensures (ok, sock.inbox, sent') == Await(pkt, blk, 0, old(sock.inbox), sent + [pkt])
    ensures sock.sent == base + sent'
    ensures OverAt(blk, 0, old(sock.inbox), j)
    ensures var es := ToCome(old(sock.inbox), 0);
            && j < |es| && (ok <==> Acknowledges(es[j], blk))
            && sock.sent == old(sock.sent) + Copies(pkt, 1 + Timeouts(es[..j]))
            && sock.inbox == if j < |old(sock.inbox)| then old(sock.inbox)[j + 1..] else []
  {
    hide OverAt, AnswerTo;
    j := WaitIs(pkt, blk, 0, sock.inbox, sent + [pkt]);
    CopiesFrom(base, sent, pkt, Timeouts(ToCome(sock.inbox, 0)[..j]));
    sent' := sent;
    for attempt := 0 to RETRIES
      invariant sock.sent == base + sent'
      invariant (if attempt < RETRIES then Await(pkt, blk, attempt, sock.inbox, sent' + [pkt]) else (false, sock.inbox, sent'))
                == Await(pkt, blk, 0, old(sock.inbox), sent + [pkt])
    {
      sock.SendTo(pkt);
      sent' := sent' + [pkt];
      while true
        invariant sock.sent == base + sent'
        invariant Await(pkt, blk, attempt, sock.inbox, sent') == Await(pkt, blk, 0, old(sock.inbox), sent + [pkt])
        decreases |sock.inbox|
      {
        var e := sock.RecvFrom();
        if e == Timeout {
          break;
        }
        var answer := AnswerTo(blk, e.fromPeer, e.bytes);
        if answer == Acked {
          return true, sent', j;
        }
        if answer == Refused {
          return false, sent', j;
        }
      }
    }
    ok := false;
  }

  lemma CopiesFrom(base: seq<seq<byte>>, sent: seq<seq<byte>>, pkt: seq<byte>, n: nat)
    ensures base + (sent + [pkt] + Copies(pkt, n)) == base + sent + Copies(pkt, 1 + n)
  {
  }

  /** serve_rrq from the option reply on: returns whether the transfer was completed. */
  method ServeRrq(sock: Socket, file: seq<byte>, blksize: nat, oack: seq<byte>) returns (done: bool)
    requires blksize >= 8
    modifies sock
    ensures var t := TxStart(file, blksize, oack);
            var (t', rest, out) := TxRun(t, blksize, old(sock.inbox), [t.pkt]);
            done == (t'.status == Done) && sock.inbox == rest && sock.sent == old(sock.sent) + out
  {
    hide DataPacket, TxRun, Await, OverAt, ToCome, Timeouts, Copies, Acknowledges;
    ghost var base, t := sock.sent, TxStart(file, blksize, oack);
    ghost var goal := TxRun(t, blksize, sock.inbox, [t.pkt]);
    ghost var out: seq<seq<byte>> := [];
    assert out + [t.pkt] == [t.pkt] && base + out == base;
    var ok;
    ghost var j;
    var rest := file;
    if oack != [] {
      RunAwaits(t, blksize, sock.inbox, [t.pkt]);
      ok, out, j := SendAwaitAck(sock, oack, 0, base, out);
      if !ok {
        return false;
      }
    }
    var block := 1;
    while true
      invariant block >= 1 && sock.sent == base + out
      invariant var t1 := TxNext(block, rest, blksize); TxRun(t1, blksize, sock.inbox, out + [t1.pkt]) == goal
      decreases |rest|
    {
      var data := Chunk(rest, blksize);
      var pkt := DataPacket(block % BLOCKS, data);
      RunAwaits(TxNext(block, rest, blksize), blksize, sock.inbox, out + [pkt]);
      ok, out, j := SendAwaitAck(sock, pkt, block % BLOCKS, base, out);
      if !ok {
        return false;
      }
      if |data| < blksize {
        return true;
      }
      rest := rest[|data|..];
      block := block + 1;
    }
  }
}
