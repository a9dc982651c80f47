/** TFTP packets as bytes (RFC 1350 section 5), and the events a server loop can see. */
module TftpWire {
  import opened Bytes

  const OP_DATA := 3
  const OP_ACK := 4
  const OP_ERR := 5
  const OP_OACK := 6
  const BLOCKS := 0x1_0000
  const RETRIES := 5

  /** A 16-bit number in network order. */
  function Word(n: nat): (w: seq<byte>)
    requires n < BLOCKS
    ensures |w| == 2
  {
    [n / 0x100, n % 0x100]
  }

  function WordAt(p: seq<byte>, o: nat): (n: nat)
    requires o + 2 <= |p|
    ensures n < BLOCKS
  {
    p[o] as nat * 0x100 + p[o + 1] as nat
  }

  function DataPacket(blk: nat, payload: seq<byte>): (p: seq<byte>)
    requires blk < BLOCKS
    ensures |p| == 4 + |payload| && WordAt(p, 0) == OP_DATA && WordAt(p, 2) == blk && p[4..] == payload
  {
    Word(OP_DATA) + Word(blk) + payload
  }

  function AckPacket(blk: nat): (p: seq<byte>)
    requires blk < BLOCKS
    ensures |p| == 4 && WordAt(p, 0) == OP_ACK && WordAt(p, 2) == blk
  {
    Word(OP_ACK) + Word(blk)
  }

  /** The packets byte by byte. */
  lemma PacketBytes(blk: nat, payload: seq<byte>)
    requires blk < 65536
    ensures DataPacket(blk, payload) == [0x00, 0x03, blk / 256, blk % 256] + payload
    ensures AckPacket(blk) == [0x00, 0x04, blk / 256, blk % 256]
  {
  }

  /** What one receive call yields: nothing in time, or a datagram from the peer or from another host. */
  datatype Event = Timeout | Datagram(fromPeer: bool, bytes: seq<byte>)

  /** A socket: what will arrive, in order, and what was sent. Nothing arrives any more once `inbox` is used up. */
  class Socket {
    var inbox: seq<Event>
    var sent: seq<seq<byte>>

    constructor (inbox: seq<Event>)
      ensures this.inbox == inbox && sent == []
    {
      this.inbox, sent := inbox, [];
    }

    method SendTo(p: seq<byte>)
      modifies `sent
      ensures sent == old(sent) + [p]
    {
      sent := sent + [p];
    }

    method RecvFrom() returns (e: Event)
      modifies `inbox
      ensures (e, inbox) == Arrival(old(inbox))
    {
      if inbox == [] {
        return Timeout;
      }
      e := inbox[0];
      inbox := inbox[1..];
    }
  }

  function Arrival(inbox: seq<Event>): (Event, seq<Event>) {
    if inbox == [] then (Timeout, []) else (inbox[0], inbox[1..])
  }
}
