/** The receiving loop (serve_wrq): one step per event, and the loop that takes those steps. */
module TftpReceiver {
  import opened Bytes
  import opened TftpWire

  datatype RxStatus = Receiving | Finished | Aborted

  /** The loop's variables: next block wanted, bytes written, last packet sent, and the attempts used up. */
  datatype Rx = Rx(expected: nat, written: seq<byte>, pkt: seq<byte>, tries: nat, status: RxStatus)

  function RxStart(pkt: seq<byte>): Rx {
    Rx(1, [], pkt, 0, Receiving)
  }

  /** One receive attempt used up without a datagram from the peer. */
  function RxMissed(r: Rx): Rx {
    r.(tries := r.tries + 1, status := if r.tries + 1 >= RETRIES then Aborted else r.status)
  }

  /** A datagram from the peer, cut to the buffer's size. */
  function RxPacket(r: Rx, blksize: nat, bytes: seq<byte>): (Rx, seq<seq<byte>>)
    requires r.expected >= 1
  {
    var d := if |bytes| <= 4 + blksize then bytes else bytes[..4 + blksize];
    var r0 := r.(tries := 0);
    if |d| < 4 then (r0, [])
    else if WordAt(d, 0) == OP_ERR then (r0.(status := Aborted), [])
    else if WordAt(d, 0) != OP_DATA then (r0, [])
    else if WordAt(d, 2) != r.expected % BLOCKS then (r0, [AckPacket((r.expected - 1) % BLOCKS)])
    else
      var ack := AckPacket(WordAt(d, 2));
      var r1 := r0.(written := r.written + d[4..], pkt := ack);
      if |d| - 4 < blksize then (r1.(status := Finished), [ack])
      else (r1.(expected := r.expected + 1), [ack])
  }

  /** One event: the new state and what is sent. */
  function RxStep(r: Rx, blksize: nat, e: Event): (s: (Rx, seq<seq<byte>>))
    requires r.expected >= 1
    ensures s.0.expected >= 1
  {
    match e
    case Timeout => (RxMissed(r), [r.pkt])
    case Datagram(false, _) => (RxMissed(r), [])
    case Datagram(true, bytes) => RxPacket(r, blksize, bytes)
  }

  // ---------- one step, told in events and bytes ----------

  /** The data packet of the block wanted, from the peer (RFC 1350 section 5). */
  predicate Brings(e: Event, expected: nat) {
    && e.Datagram? && e.fromPeer && |e.bytes| >= 4
    && e.bytes[0] == 0x00 && e.bytes[1] == 0x03 && e.bytes[2] as nat * 256 + e.bytes[3] as nat == expected % 65536
  }

  /** An error packet from the peer. */
  predicate Breaks(e: Event) {
    e.Datagram? && e.fromPeer && |e.bytes| >= 4 && e.bytes[0] == 0x00 && e.bytes[1] == 0x05
  }

  /**
   The block wanted, and nothing else, goes into the file, and is acknowledged by its number; a timeout repeats the
   last packet, and another data packet gets the last acknowledgement once more. The loop gives up on an error packet
   and on the fifth attempt without a datagram from the peer.
   */
  lemma RxStepIs(r: Rx, blksize: nat, e: Event)
    requires r.expected >= 1 && r.status == Receiving
    ensures var (r', out) := RxStep(r, blksize, e);
            if Brings(e, r.expected) then
              var data := if |e.bytes| - 4 <= blksize then e.bytes[4..] else e.bytes[4..4 + blksize];
              && r'.written == r.written + data && r'.tries == 0
              && out == [[0x00, 0x04, e.bytes[2], e.bytes[3]]] && r'.pkt == out[0]
              && (if |data| < blksize then r'.status == Finished else r'.status == Receiving && r'.expected == r.expected + 1)
            else
              && (r'.written, r'.expected, r'.pkt) == (r.written, r.expected, r.pkt)
              && (r'.status == Aborted <==> Breaks(e) || (r.tries >= 4 && (e == Timeout || !e.fromPeer))) && r'.status != Finished
              && r'.tries == (if e.Datagram? && e.fromPeer then 0 else r.tries + 1)
              && (e == Timeout ==> out == [r.pkt])
              && (e.Datagram? && out != [] ==> out == [AckPacket((r.expected - 1) % 65536)])
              && (e.Datagram? ==> (out != [] <==> e.fromPeer && |e.bytes| >= 4 && e.bytes[0] == 0x00 && e.bytes[1] == 0x03))
  {
    hide AckPacket;
    if e.Datagram? && |e.bytes| >= 4 {
      PacketBytes(WordAt(e.bytes, 2), []);
      var d := if |e.bytes| <= 4 + blksize then e.bytes else e.bytes[..4 + blksize];
      assert d[0] == e.bytes[0] && d[1] == e.bytes[1] && d[2] == e.bytes[2] && d[3] == e.bytes[3];
      assert d[4..] == if |e.bytes| - 4 <= blksize then e.bytes[4..] else e.bytes[4..4 + blksize];
    }
  }

  /** The whole loop on what arrives, with `out` sent so far; it ends because a silent peer uses up the attempts. */
  function RxRun(r: Rx, blksize: nat, inbox: seq<Event>, out: seq<seq<byte>>): (s: (Rx, seq<Event>, seq<seq<byte>>))
    requires r.expected >= 1 && r.tries < RETRIES
    ensures s.0.status != Receiving
    decreases |inbox|, RETRIES - r.tries
  {
    if r.status != Receiving then (r, inbox, out)
    else
      var (e, rest) := Arrival(inbox);
      var (r1, more) := RxStep(r, blksize, e);
      if r1.status != Receiving then (r1, rest, out + more)
      else RxRun(r1, blksize, rest, out + more)
  }

  /** What the loop does with a datagram from its peer. */
  method TakePacket(sock: Socket, r: Rx, blksize: nat, bytes: seq<byte>) returns (r': Rx, ghost out: seq<seq<byte>>)
    requires r.expected >= 1
    modifies sock`sent
    ensures (r', out) == RxPacket(r, blksize, bytes) && sock.sent == old(sock.sent) + out
  {
    hide AckPacket, WordAt;
    out := [];
    r' := r.(tries := 0);
    var data := if |bytes| <= 4 + blksize then bytes else bytes[..4 + blksize];
    if |data| < 4 {
      return;
    }
    var op := WordAt(data, 0);
    if op == OP_ERR {
      r' := r'.(status := Aborted);
      return;
    }
    if op != OP_DATA {
      return;
    }
    var blk := WordAt(data, 2);
    if blk != r.expected % BLOCKS {
      sock.SendTo(AckPacket((r.expected - 1) % BLOCKS));
      out := [AckPacket((r.expected - 1) % BLOCKS)];
      return;
    }
    var payload := data[4..];
    var pkt := AckPacket(blk);
    r' := r'.(written := r.written + payload, pkt := pkt);
    sock.SendTo(pkt);
    out := [pkt];
    if |payload| < blksize {
      r' := r'.(status := Finished);
    } else {
      r' := r'.(expected := r.expected + 1);
    }
  }

  /** serve_wrq from the first acknowledgement on: returns whether the file was completed, and its bytes. */
  method ServeWrq(sock: Socket, blksize: nat, oack: seq<byte>) returns (completed: bool, written: seq<byte>)
    modifies sock
    ensures var first := if oack != [] then oack else AckPacket(0);
            var (r, rest, out) := RxRun(RxStart(first), blksize, old(sock.inbox), [first]);
            && completed == (r.status == Finished) && written == r.written
            && sock.inbox == rest && sock.sent == old(sock.sent) + out
  {
    hide RxPacket;
    var first := if oack != [] then oack else AckPacket(0);
    sock.SendTo(first);
    var r := RxStart(first);
    ghost var out := [first];
    while r.status == Receiving
      invariant r.expected >= 1 && (r.status == Receiving ==> r.tries < RETRIES) && sock.sent == old(sock.sent) + out
      invariant (if r.status == Receiving then RxRun(r, blksize, sock.inbox, out) else (r, sock.inbox, out))
                == RxRun(RxStart(first), blksize, old(sock.inbox), [first])
      decreases |sock.inbox|, RETRIES - r.tries
    {
      assert out + [] == out;
      var e := sock.RecvFrom();
      match e {
        case Timeout =>
          sock.SendTo(r.pkt);
          out := out + [r.pkt];
          r := RxMissed(r);
        case Datagram(fromPeer, bytes) =>
          if fromPeer {
            ghost var more;
            ReceivedKeeps(r, blksize, bytes);
            r, more := TakePacket(sock, r, blksize, bytes);
            out := out + more;
          } else {
            r := RxMissed(r);
          }
      }
    }
    completed, written := r.status == Finished, r.written;
  }

  lemma ReceivedKeeps(r: Rx, blksize: nat, bytes: seq<byte>)
    requires r.expected >= 1
    ensures RxPacket(r, blksize, bytes).0.expected >= 1 && RxPacket(r, blksize, bytes).0.tries == 0
  {
  }
}
