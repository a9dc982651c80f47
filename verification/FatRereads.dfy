/** Reads one after the other on one handle. */
module FatRereads {
  import opened Bytes
  import opened FatChains
  import opened FatReads
  import opened FatWrites
  import opened FatLayout
  import opened FatDriver

  /**
   Two reads one after the other. The first delivers the file's bytes from its position on. The second goes on where
   the first stopped exactly when that is not a cluster's end; at a cluster's end it delivers the bytes of the
   cluster just read once more.
   */
  method ReadTwice(fat: Driver, fp: FatFile, dst: array<byte>, a: nat, b: nat, ghost ch: seq<nat>, ghost i: nat)
    returns (first: int, second: int)
    requires fat.Ready() && fat.Outside(dst) && a + b <= dst.Length && fp.inUse
    requires OnChain(fat.Vol(), ch, i, fp.curClus) && Span(ClusSize(fat.m), i) + fp.curPos % ClusSize(fat.m) == fp.curPos
    requires fp.fileSize <= Span(ClusSize(fat.m), |ch|) && Left(fp.curPos, fp.fileSize, a) > 0
    modifies fat`secLba, fat`secValid, fat`fatLba, fat`fatValid, fat.dev, fat.dev.shadow, fat.secBuf, fat.wbuf, dst
    modifies fp`curPos, fp`curClus
    ensures fat.Ready() && fat.Disk() == old(fat.Disk()) && ClusSize(fat.m) > 0
    ensures first == Left(old(fp.curPos), fp.fileSize, a)
    ensures var p := old(fp.curPos) + first;
            && second == Left(p, fp.fileSize, b) && first + second <= dst.Length
            && var from := if p % ClusSize(fat.m) != 0 then p else p - ClusSize(fat.m);
               && 0 <= from && p <= |Flat(fat.Vol().data, ch)| && from + second <= |Flat(fat.Vol().data, ch)|
               && dst[..] == Splice(Splice(old(dst[..]), 0, Flat(fat.Vol().data, ch)[old(fp.curPos)..p]), first,
                                    Flat(fat.Vol().data, ch)[from..from + second])
  {
    hide View, OnDisk, Sound, Mirrored, TablesFit, Flat, Splice, IsChain, Span;
    fat.ReadyFacts();
    fat.PositiveCluster();
    ghost var j, k;
    first, j := fat.FRead(fp, dst, 0, a, ch, i);
    ReadGoesOn(ClusSize(fat.m), j, fp.curPos);
    ghost var from := if fp.curPos % ClusSize(fat.m) != 0 then fp.curPos else fp.curPos - ClusSize(fat.m);
    NothingMore(dst[..], first, Flat(fat.Vol().data, ch), from);
    second, k := fat.FRead(fp, dst, first, b, ch, j);
  }

  /**
   After a read that ended at byte `p`, the handle stands on the cluster of the byte before, number `j`. The next
   read takes its bytes from offset `p % cs` of that cluster.
   */
  lemma ReadGoesOn(cs: nat, j: nat, p: nat)
    requires cs > 0 && Span(cs, j) < p <= Span(cs, j + 1)
    ensures Span(cs, j) + p % cs == if p % cs != 0 then p else p - cs
    ensures p % cs == 0 ==> p >= cs
  {
    if p == Span(cs, j + 1) {
      SpanDivMod(cs, j + 1, 0);
    } else {
      SpanDivMod(cs, j, p - Span(cs, j));
    }
  }

  lemma NothingMore(d: seq<byte>, at: int, bytes: seq<byte>, p: nat)
    requires 0 <= at <= |d| && p <= |bytes|
    ensures Splice(d, at, bytes[p..p]) == d
  {
  }
}
