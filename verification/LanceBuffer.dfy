/** The buffer of 4096 bytes in which a frame is put together for sending. */
module LanceBuffer {
  import opened Crc32
  import opened LanceMemory
  import opened LanceRings
  import opened LanceChains
  import opened LanceSends
  import opened LanceChip
  import opened LanceLoopback

  /** The frame sent for the descriptor at the transmit position fits the buffer, check sequence included. */
  predicate BufferHolds(d: Chip, md1: bv16)
    requires ChipOk(d) && OwnedAt(d.mem, d.tx, d.txPos)
  {
    match Gather(d.mem, d.tx, d.txPos, FirstStatus(d, md1), [], d.cLance, Swap(d))
    case Dropped(_, _) => true
    case Frame(_, _, _, _, data, _) => |Framed(d, FirstStatus(d, md1), data)| <= FRAME_MAX
  }

  /** What is collected never overruns it; the check sequence does behind more than 4092 bytes. */
  lemma BufferHoldsIff(d: Chip, md1: bv16)
    requires ChipOk(d) && OwnedAt(d.mem, d.tx, d.txPos)
    ensures var g := Gather(d.mem, d.tx, d.txPos, FirstStatus(d, md1), [], d.cLance, Swap(d));
            BufferHolds(d, md1) <==> g.Dropped? || |g.data| <= FRAME_MAX - 4 || !AppendsFcs(d, FirstStatus(d, md1))
  {
    hide Gather, FirstStatus, AppendsFcs, OwnedAt, Crc;
  }

  /** For a frame in a posted chain, it is a matter of the bytes the chain holds. */
  lemma PostedHoldsIff(d: Chip, c: Chain)
    requires ChipOk(d) && TxChain(d, c) && Posted(d.mem, c)
    ensures OwnedAt(d.mem, d.tx, d.txPos)
    ensures var md1 := Fetch(d.mem, At(c, 0) + 2);
            BufferHolds(d, md1) <==> |Contents(d.mem, c, 0)| <= FRAME_MAX - 4 || !AppendsFcs(d, FirstStatus(d, md1))
  {
    hide Gather, FirstStatus, AppendsFcs, Contents, Posted, Behind, FirstOk, Fetch, Swap;
    PostedFits(d.mem, c);
    PostedAt(d.mem, c, 0);
    var first := FirstStatus(d, Fetch(d.mem, At(c, 0) + 2));
    FirstStatusOk(d, c);
    BehindRefl(d.mem, c, first);
    GatherCollects(d.mem, d.mem, c, first, 0, []);
    assert [] + Contents(d.mem, c, 0) == Contents(d.mem, c, 0);
    BufferHoldsIff(d, Fetch(d.mem, At(c, 0) + 2));
  }

  /** A descriptor at address 0, owned, first and last of its frame, whose length field is zero. */
  function FullDescriptor(): (m: seq<bv16>)
    ensures |m| == WORDS && m[0] == 0 && m[1] == OWN | STP | ENP && m[2] == 0
  {
    [0, OWN | STP | ENP] + seq(WORDS - 2, _ => 0)
  }

  /** A single descriptor can do it: a length field of zero stands for 4096 bytes on the first chip. */
  lemma OneBufferOverruns(d: Chip)
    requires ChipOk(d) && !d.cLance && d.mode == 0 && d.tx == Ring(0, 1) && d.txPos == 0 && d.mem == FullDescriptor()
    ensures OwnedAt(d.mem, d.tx, 0) && !BufferHolds(d, OWN | STP | ENP)
  {
    hide Block, Crc, FullDescriptor;
    var md1: bv16 := OWN | STP | ENP;
    FullFlags();
    assert Desc(d.tx, 0) == 0;
    GatherStep(d.mem, d.tx, 0, FirstStatus(d, md1), [], false, Swap(d), BufAddr(0, FirstStatus(d, md1)), FRAME_MAX, Advance(d.tx, 0));
    BufferHoldsIff(d, md1);
  }

  lemma FullFlags()
    ensures var md1: bv16 := OWN | STP | ENP;
            Has(md1, OWN) && Has(Without(md1, ADD_FCS), ENP) && !Has(0, M_DTCR) && BufLen(false, 0) == FRAME_MAX
  {
  }
}
