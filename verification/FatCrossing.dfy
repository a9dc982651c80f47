/** Writes over a chain that is there already: calls that cross from one of its clusters into the next. */
module FatCrossing {
  import opened Bytes
  import opened Numbers
  import opened FatTable
  import opened FatVolume
  import opened FatChains
  import opened FatOverwrite
  import opened FatReads
  import opened FatSteps
  import opened FatLayout
  import opened FatDriver

  /**
   The driver's writes keep the caches truthful when the call starts in the last cluster of its chain or ends in the
   cluster it starts in. All other calls cross from one cluster of the chain into the next.
   */
  lemma CrossesIff(v: Volume, ch: seq<nat>, k: nat, h: Handle, data: seq<byte>)
    requires OnChain(v, ch, k, h.cur) && h.first != 0
    ensures Writable(v, h, data) <==> !(k + 1 < |ch| && h.pos % v.clusSize + |data| > v.clusSize)
  {
    hide IsChain;
    ChainStep(v.ty, v.fat, ch, k);
    if k + 1 < |ch| {
      ChainStep(v.ty, v.fat, ch, k + 1);
    }
  }

  lemma EntryInTable(m: Mount, d: seq<byte>, c: nat)
    requires TablesFit(m, d) && EntryEnd(m.ty, c) <= SECTOR * m.fatSec
    ensures EntrySector(m, c) < m.rsvdSec + m.fatSec
  {
    hide EntryOff, EntryEnd, Straddles;
    EntryBytes(m.ty, FirstCopy(m, d), c);
  }

  /** Table sectors lie before the data. */
  lemma TableBeforeData(m: Mount, d: seq<byte>, c: nat, x: nat)
    requires OnDisk(m, d) && c < m.clusterCount + 2 && x >= 2
    ensures EntrySector(m, c) < ClusToLba(m, x) && EntrySector(m, c) < |d| / SECTOR
  {
    hide EntrySector, EntryEnd, RootSecs, Slots, FirstCopy, View, Entry;
    EntryInView(m, d, c);
    EntryInTable(m, d, c);
    AreasFit(m, d);
    TimesMonotone(0, x - 2, m.secPerClus);
  }

  /** The part of a call up to the end of the cluster it starts in. */
  lemma ToClusterEnd(v: Volume, ch: seq<nat>, k: nat, h: Handle, t: seq<byte>)
    requires OnChain(v, ch, k, h.cur) && h.first != 0 && h.slot < |v.dir| && k + 1 < |ch| && t != []
    requires h.pos % v.clusSize + |t| == v.clusSize
    ensures Writable(v, h, t)
    ensures Write(v, h, t) == (Placed(v, h.cur, h.pos % v.clusSize, t), Moved(h, h.cur, |t|), |t|)
    ensures (h.pos + |t|) % v.clusSize == 0 && OnChain(Placed(v, h.cur, h.pos % v.clusSize, t), ch, k, h.cur)
  {
    hide IsChain, Placed;
    ChainStep(v.ty, v.fat, ch, k);
    ChainStep(v.ty, v.fat, ch, k + 1);
    NextOffset(v.clusSize, h.pos, |t|);
  }

  /** The turns of a call up to the end of the cluster it starts in, and the step into the next one. */
  method ReachNext(fat: Driver, fp: FatFile, data: seq<byte>, ghost s: nat, ghost ch: seq<nat>, ghost k: nat)
    requires fat.Ready() && fp.inUse && SlotAt(fat.m, fp.dirLba, fp.dirOff, s) && fp.curPos + |data| < U32 && fp.firstClus != 0
    requires s < |fat.Vol().dir| && OnChain(fat.Vol(), ch, k, fp.curClus)
    requires k + 1 < |ch| && fp.curPos % ClusSize(fat.m) + |data| == ClusSize(fat.m) && data != []
    modifies fat`secValid, fat`fatLba, fat`fatValid, fat.dev, fat.dev.shadow, fat.wbuf
    modifies fp`firstClus, fp`curClus, fp`curPos, fp`fileSize
    ensures fat.Ready() && BootKept(fat.m, old(fat.Disk()), fat.Disk())
    ensures 2 <= ch[k] < |fat.Vol().fat| && 2 <= ch[k + 1] < |fat.Vol().fat|
    ensures fat.Vol() == Placed(old(fat.Vol()), ch[k], old(fp.curPos) % ClusSize(fat.m), data)
    ensures fat.HandleOf(fp, s) == Moved(old(fat.HandleOf(fp, s)), ch[k + 1], |data|) && fp.curPos % ClusSize(fat.m) == 0
    ensures fat.fatValid && fat.fatLba == EntrySector(fat.m, ch[k])
  {
    hide View, OnDisk, Sound, Mirrored, TablesFit, IsChain, Sector, SlotAt, Placed, BootKept, Write, EntrySector, ClusToLba;
    fat.ReadyFacts();
    ghost var v, h := fat.Vol(), fat.HandleOf(fp, s);
    ChainStep(v.ty, v.fat, ch, k);
    ChainStep(v.ty, v.fat, ch, k + 1);
    ToClusterEnd(v, ch, k, h, data);
    var written := fat.FWrite(fp, data, s);
    ChainStep(v.ty, fat.Vol().fat, ch, k);
    var next := fat.Next(fp.curClus);
    fp.curClus := next;
  }

  /** The handle of a call that has written `w` bytes of the next cluster. */
  lemma InNext(cs: nat, pos: nat, w: nat)
    requires cs > 0 && pos % cs == 0 && w < cs
    ensures (pos + w) % cs == w
  {
    NextOffset(cs, pos, w);
  }

  lemma MovedOn(h: Handle, c: nat, a: nat, b: nat)
    ensures Moved(Moved(h, c, a), c, b) == Moved(h, c, a + b)
  {
  }

  /** One more piece in the next cluster. */
  lemma PieceMore(v: Volume, c: nat, u: seq<byte>, w: nat, chunk: nat)
    requires Shape(v) && 2 <= c < |v.fat| && 0 < chunk && w + chunk <= |u| <= v.clusSize
    ensures Placed(Placed(v, c, 0, u[..w]), c, w, u[w..][..chunk]) == Placed(v, c, 0, u[..w + chunk])
  {
    hide Placed;
    assert u[..w] + u[w..][..chunk] == u[..w + chunk];
    TwicePlaced(v, c, 0, u[..w], u[w..][..chunk]);
  }

  lemma NothingPlaced(v: Volume, c: nat)
    requires Shape(v) && 2 <= c < |v.fat|
    ensures Placed(v, c, 0, []) == v
  {
    assert Splice(v.data[c - 2], 0, []) == v.data[c - 2];
  }

  /** A piece that starts at a sector's start and fits it. */
  lemma LastSectorIs(w: nat, chunk: nat)
    requires w % SECTOR == 0 && 0 < chunk <= SECTOR
    ensures (w + chunk - 1) / SECTOR == w / SECTOR
  {
  }

  /** What `w` bytes of `data` written into the cluster `c` that starts at the handle's position leave. */
  ghost predicate Filled(fat: Driver, fp: FatFile, v: Volume, h: Handle, c: nat, data: seq<byte>, w: nat)
    requires fat.Wired() && OnDisk(fat.m, fat.Disk())
    reads fat, fat.dev, fat.dev.shadow, fat.secBuf, fat.wbuf, fp
  {
    && w <= |data| <= v.clusSize && Shape(v) && 2 <= c < |v.fat| && c == fp.curClus
    && (w == |data| || w % SECTOR == 0)
    && fat.Intact() && fat.fatValid && fat.fatLba < ClusToLba(fat.m, c)
    && fat.Vol() == Placed(v, c, 0, data[..w]) && fat.HandleOf(fp, h.slot) == Moved(h, c, w)
    && (w > 0 ==>
          var lba := ClusToLba(fat.m, c) + (w - 1) / SECTOR;
          lba < fat.dev.Sectors() && fat.wbuf[..] == Sector(fat.Disk(), lba))
  }

  lemma FilledHandle(fat: Driver, fp: FatFile, v: Volume, h: Handle, c: nat, data: seq<byte>, w: nat)
    requires fat.Wired() && OnDisk(fat.m, fat.Disk()) && Filled(fat, fp, v, h, c, data, w)
    ensures fp.curPos == h.pos + w && fp.curClus == c && fat.Intact() && c < |fat.Vol().fat|
  {
  }

  /** One turn in the next cluster: the flag is set, but not for the sector written. */
  method FillTurn(fat: Driver, fp: FatFile, data: seq<byte>, w: nat, ghost v: Volume, ghost h: Handle, ghost c: nat) returns (w': nat)
    requires fat.Wired() && OnDisk(fat.m, fat.Disk()) && Filled(fat, fp, v, h, c, data, w) && w < |data|
    requires h.pos + |data| < U32 && h.pos % v.clusSize == 0 && v.clusSize == ClusSize(fat.m)
    modifies fat`secValid, fat`fatValid, fat.dev, fat.dev.shadow, fat.wbuf, fp`curPos, fp`fileSize
    ensures w < w' && BootKept(fat.m, old(fat.Disk()), fat.Disk())
    ensures fat.Wired() && OnDisk(fat.m, fat.Disk()) && Filled(fat, fp, v, h, c, data, w')
  {
    hide View, OnDisk, Sound, Mirrored, TablesFit, Sector, SlotAt, Placed, BootKept, ClusToLba, Moved;
    fat.PositiveCluster();
    FilledHandle(fat, fp, v, h, c, data, w);
    InNext(v.clusSize, h.pos, w);
    var chunk := fat.StorePiece(fp, data[w..], h.slot);
    PieceMore(v, c, data, w, chunk);
    MovedOn(h, c, w, chunk);
    LastSectorIs(w, chunk);
    w' := w + chunk;
  }

  /** The end of such a call, in a cluster behind the table. */
  lemma FilledWhole(fat: Driver, fp: FatFile, v: Volume, h: Handle, c: nat, data: seq<byte>)
    requires fat.Wired() && OnDisk(fat.m, fat.Disk()) && Filled(fat, fp, v, h, c, data, |data|) && data != []
    requires fat.fatLba < fat.dev.Sectors()
    ensures Shape(v) && 2 <= c < |v.fat| && |data| <= v.clusSize && fat.Intact() && fat.fatValid
    ensures fat.Vol() == Placed(v, c, 0, data) && fat.HandleOf(fp, h.slot) == Moved(h, c, |data|)
    ensures Misnamed(fat, ClusToLba(fat.m, c) + (|data| - 1) / SECTOR)
  {
    hide View, Sound, Mirrored, TablesFit, Sector, ClusToLba, Placed, Moved;
    assert data[..|data|] == data;
  }

  /** The turns of a call in the next cluster of its chain; the table's flag stays set over the data written. */
  method FillNext(fat: Driver, fp: FatFile, data: seq<byte>, ghost s: nat)
    requires fat.Ready() && fp.curPos + |data| < U32 && 2 <= fp.curClus < |fat.Vol().fat| && fp.curPos <= fp.fileSize
    requires fp.curPos % ClusSize(fat.m) == 0 && 0 < |data| <= ClusSize(fat.m)
    requires fat.fatValid && fat.fatLba < ClusToLba(fat.m, fp.curClus) && fat.fatLba < fat.dev.Sectors()
    modifies fat`secValid, fat`fatValid, fat.dev, fat.dev.shadow, fat.wbuf, fp`curPos, fp`fileSize
    ensures fat.Intact() && fat.fatValid && BootKept(fat.m, old(fat.Disk()), fat.Disk())
    ensures fat.Vol() == Placed(old(fat.Vol()), fp.curClus, 0, data)
    ensures fat.HandleOf(fp, s) == Moved(old(fat.HandleOf(fp, s)), fp.curClus, |data|)
    ensures fat.fatLba == old(fat.fatLba) && Misnamed(fat, ClusToLba(fat.m, fp.curClus) + (|data| - 1) / SECTOR)
  {
    hide View, OnDisk, Sound, Mirrored, TablesFit, Sector, SlotAt, Placed, BootKept, ClusToLba;
    fat.ReadyFacts();
    fat.ReadyIsIntact();
    ghost var v, h := fat.Vol(), fat.HandleOf(fp, s);
    ghost var d0, l := fat.Disk(), fat.fatLba;
    NothingPlaced(v, fp.curClus);
    assert data[..0] == [];
    fat.BootKeptSame(fat.m, d0);
    var written := 0;
    while written < |data|
      invariant fat.Wired() && OnDisk(fat.m, fat.Disk()) && BootKept(fat.m, d0, fat.Disk())
      invariant fat.fatLba == l
      invariant Filled(fat, fp, v, h, fp.curClus, data, written)
    {
      ghost var d1 := fat.Disk();
      written := FillTurn(fat, fp, data, written, v, h, fp.curClus);
      fat.BootKeptTrans(fat.m, d0, d1, fat.Disk());
    }
    FilledWhole(fat, fp, v, h, fp.curClus, data);
  }

  /** `data` written from offset `o` of cluster `a` to its end and on from the start of cluster `b`. */
  ghost function Crossing(v: Volume, a: nat, b: nat, o: nat, data: seq<byte>): (v': Volume)
    requires Shape(v) && 2 <= a < |v.fat| && 2 <= b < |v.fat| && o <= v.clusSize <= o + |data| <= 2 * v.clusSize
    ensures Shape(v') && v' == v.(data := v'.data)
  {
    var n := v.clusSize - o;
    Placed(Placed(v, a, o, data[..n]), b, 0, data[n..])
  }

  /**
   The scratch sector holds sector `lba` under the flag of another one: the caches are truthful exactly when the two
   sectors happen to be equal.
   */
  ghost predicate Misnamed(fat: Driver, lba: nat)
    requires fat.Wired()
    reads fat, fat.dev, fat.dev.shadow, fat.secBuf, fat.wbuf
  {
    && fat.fatValid && fat.fatLba < fat.dev.Sectors() && lba < fat.dev.Sectors() && fat.wbuf[..] == Sector(fat.Disk(), lba)
    && (fat.Coherent() <==> Sector(fat.Disk(), lba) == Sector(fat.Disk(), fat.fatLba))
  }

  /** Bytes up to the end of one cluster and on from the start of the next lie end to end in the file. */
  lemma CrossedBytes(v: Volume, ch: seq<nat>, k: nat, o: nat, data: seq<byte>)
    requires Shape(v) && IsChain(v.ty, v.fat, ch) && k + 1 < |ch| && o <= v.clusSize <= o + |data| <= 2 * v.clusSize
    ensures 2 <= ch[k] < |v.fat| && 2 <= ch[k + 1] < |v.fat| && Span(v.clusSize, k) + o + |data| <= |Flat(v.data, ch)|
    ensures Flat(Crossing(v, ch[k], ch[k + 1], o, data).data, ch) == Splice(Flat(v.data, ch), Span(v.clusSize, k) + o, data)
  {
    hide Splice, Flat, Placed;
    var n := v.clusSize - o;
    var t, u := data[..n], data[n..];
    assert t + u == data;
    FlatPatch(v, ch, k, o, t);
    FlatPatch(Placed(v, ch[k], o, t), ch, k + 1, 0, u);
    SpliceAdjacent(Flat(v.data, ch), Span(v.clusSize, k) + o, t, u);
  }

  /** The turns of a call that crosses into the next cluster and ends there. */
  method CrossOver(fat: Driver, fp: FatFile, data: seq<byte>, ghost s: nat, ghost ch: seq<nat>, ghost k: nat,
                   ghost cs: nat, ghost o: nat)
    requires fat.Ready() && fp.inUse && SlotAt(fat.m, fp.dirLba, fp.dirOff, s) && fp.curPos + |data| < U32 && fp.firstClus != 0
    requires s < |fat.Vol().dir| && OnChain(fat.Vol(), ch, k, fp.curClus) && k + 1 < |ch|
    requires cs == ClusSize(fat.m) > 0 && o == fp.curPos % cs && cs < o + |data| <= 2 * cs
    modifies fat`secValid, fat`fatLba, fat`fatValid, fat.dev, fat.dev.shadow, fat.wbuf
    modifies fp`firstClus, fp`curClus, fp`curPos, fp`fileSize
    ensures fat.Intact() && BootKept(fat.m, old(fat.Disk()), fat.Disk())
    ensures 2 <= ch[k] < |old(fat.Vol()).fat| && 2 <= ch[k + 1] < |old(fat.Vol()).fat|
    ensures fat.Vol() == Crossing(old(fat.Vol()), ch[k], ch[k + 1], o, data)
    ensures fat.fatLba == EntrySector(fat.m, ch[k])
    ensures Misnamed(fat, ClusToLba(fat.m, ch[k + 1]) + (o + |data| - cs - 1) / SECTOR)
    ensures fat.HandleOf(fp, s) == Moved(old(fat.HandleOf(fp, s)), ch[k + 1], |data|)
  {
    hide View, OnDisk, Sound, Mirrored, TablesFit, IsChain, Sector, SlotAt, Placed, BootKept, Write, EntrySector, ClusToLba, Moved,
         Misnamed, ClusSize;
    fat.ReadyFacts();
    ghost var h := fat.HandleOf(fp, s);
    ghost var d0 := fat.Disk();
    var n := ClusSize(fat.m) - fp.curPos % ClusSize(fat.m);
    ReachNext(fat, fp, data[..n], s, ch, k);
    ghost var d1 := fat.Disk();
    TableBeforeData(fat.m, d1, ch[k], ch[k + 1]);
    MovedReaches(h, ch[k + 1], n);
    FillNext(fat, fp, data[n..], s);
    MovedOn(h, ch[k + 1], n, |data| - n);
    fat.BootKeptTrans(fat.m, d0, d1, fat.Disk());
  }

  /**
   A whole call that crosses from a cluster into the next one its chain already has, and ends there. The bytes are all
   where they should be, and the count is right. But the scratch sector now holds file bytes while its flag still says
   that it holds a sector of the table: the caches are truthful exactly when the sector written last happens to be equal
   to that sector of the table.
   */
  method CrossOnce(fat: Driver, fp: FatFile, data: seq<byte>, ghost s: nat, ghost ch: seq<nat>, ghost k: nat)
    returns (written: nat)
    requires fat.Ready() && fp.inUse && SlotAt(fat.m, fp.dirLba, fp.dirOff, s) && fp.curPos + |data| < U32 && fp.firstClus != 0
    requires s < |fat.Vol().dir| && OnChain(fat.Vol(), ch, k, fp.curClus) && k + 1 < |ch|
    requires ClusSize(fat.m) < fp.curPos % ClusSize(fat.m) + |data| <= 2 * ClusSize(fat.m)
    modifies fat`secValid, fat`fatLba, fat`fatValid, fat.dev, fat.dev.shadow, fat.wbuf
    modifies fp`firstClus, fp`curClus, fp`curPos, fp`fileSize
    ensures fat.Intact() && BootKept(fat.m, old(fat.Disk()), fat.Disk()) && written == |data|
    ensures 2 <= ch[k] < |old(fat.Vol()).fat| && 2 <= ch[k + 1] < |old(fat.Vol()).fat|
    ensures fat.Vol() == Crossing(old(fat.Vol()), ch[k], ch[k + 1], old(fp.curPos) % ClusSize(fat.m), data)
    ensures fat.fatLba == EntrySector(fat.m, ch[k])
    ensures Misnamed(fat, ClusToLba(fat.m, ch[k + 1]) + (old(fp.curPos) % ClusSize(fat.m) + |data| - ClusSize(fat.m) - 1) / SECTOR)
    ensures fat.HandleOf(fp, s) == Moved(old(fat.HandleOf(fp, s)), ch[k + 1], |data|)
    ensures var v, at := old(fat.Vol()), Span(ClusSize(fat.m), k) + old(fp.curPos) % ClusSize(fat.m);
            at + |data| <= |Flat(v.data, ch)| && Flat(fat.Vol().data, ch) == Splice(Flat(v.data, ch), at, data)
  {
    hide View, OnDisk, Sound, Mirrored, TablesFit, IsChain, Sector, SlotAt, Crossing, BootKept, EntrySector, ClusToLba, Flat, Splice, Span,
         Moved, Misnamed;
    fat.ReadyFacts();
    fat.PositiveCluster();
    CrossedBytes(fat.Vol(), ch, k, fp.curPos % ClusSize(fat.m), data);
    CrossOver(fat, fp, data, s, ch, k, ClusSize(fat.m), fp.curPos % ClusSize(fat.m));
    written := |data|;
  }

  lemma MovedReaches(h: Handle, c: nat, n: nat)
    ensures Moved(h, c, n).pos <= Moved(h, c, n).size && Moved(h, c, n).pos == h.pos + n && Moved(h, c, n).cur == c
  {
  }

  /** The last sector of a cluster that was written whole. */
  lemma WholeCluster(m: Mount, d: seq<byte>, v: Volume, c: nat, u: seq<byte>)
    requires OnDisk(m, d) && Shape(v) && 2 <= c < |v.fat| && |u| == v.clusSize == ClusSize(m) && View(m, d) == Placed(v, c, 0, u)
    ensures m.secPerClus > 0 && |u| >= SECTOR && (|u| - 1) / SECTOR == m.secPerClus - 1
    ensures ClusToLba(m, c) + m.secPerClus - 1 < |d| / SECTOR
    ensures Sector(d, ClusToLba(m, c) + m.secPerClus - 1) == u[|u| - SECTOR..]
  {
    hide Splice, ClusToLba, View, Sector;
    SectorsOf(m);
    DataSector(m, d, c, m.secPerClus - 1);
    WholeSplice(v.data[c - 2], u);
    assert SECTOR * (m.secPerClus - 1) == |u| - SECTOR;
  }

  lemma SectorsOf(m: Mount)
    requires m.secPerClus > 0
    ensures ClusSize(m) == SECTOR * m.secPerClus >= SECTOR && (ClusSize(m) - 1) / SECTOR == m.secPerClus - 1
  {
  }

  /** fat_next_clus when the scratch sector holds `b` under the flag of a table sector. */
  method AskNext(fat: Driver, c: nat, ghost b: seq<byte>) returns (r: nat)
    requires fat.Intact() && c < |fat.Vol().fat| && fat.wbuf[..] == b
    modifies fat`fatLba, fat`fatValid, fat.dev, fat.dev.shadow, fat.wbuf
    ensures fat.Intact() && fat.Disk() == old(fat.Disk()) && |b| == SECTOR
    ensures r == NextOf(fat.m.ty, if old(fat.Believed(c)) then SectorEntry(fat.m.ty, b, c) else fat.Vol().fat[c])
    ensures !old(fat.Believed(c)) ==> fat.Ready()
  {
    hide View, OnDisk, Sound, Mirrored, TablesFit, Sector, EntrySector, SectorEntry, Straddles, Entry, EntryEnd, FirstCopy;
    EntryInView(fat.m, fat.Disk(), c);
    r := fat.NextClus(c);
  }

  /** A call that fills the next cluster: the scratch sector holds the last of its bytes. */
  method CrossFull(fat: Driver, fp: FatFile, data: seq<byte>, ghost s: nat, ghost ch: seq<nat>, ghost k: nat,
                   ghost cs: nat, ghost o: nat)
    requires fat.Ready() && fp.inUse && SlotAt(fat.m, fp.dirLba, fp.dirOff, s) && fp.curPos + |data| < U32 && fp.firstClus != 0
    requires s < |fat.Vol().dir| && OnChain(fat.Vol(), ch, k, fp.curClus) && k + 1 < |ch|
    requires cs == ClusSize(fat.m) > 0 && o == fp.curPos % cs && o + |data| == 2 * cs
    modifies fat`secValid, fat`fatLba, fat`fatValid, fat.dev, fat.dev.shadow, fat.wbuf
    modifies fp`firstClus, fp`curClus, fp`curPos, fp`fileSize
    ensures fat.Intact() && BootKept(fat.m, old(fat.Disk()), fat.Disk()) && fat.Vol().fat == old(fat.Vol()).fat
    ensures 2 <= ch[k] < |old(fat.Vol()).fat| && 2 <= ch[k + 1] < |old(fat.Vol()).fat|
    ensures fp.curPos == old(fp.curPos) + |data| && fp.curClus == ch[k + 1]
    ensures fat.fatValid && fat.fatLba == EntrySector(fat.m, ch[k]) && |data| >= SECTOR && fat.wbuf[..] == data[|data| - SECTOR..]
  {
    hide View, OnDisk, Sound, Mirrored, TablesFit, IsChain, Sector, SlotAt, Placed, BootKept, EntrySector, ClusToLba, Flat, Splice, Span,
         ClusSize;
    fat.ReadyFacts();
    ghost var v := fat.Vol();
    CrossOver(fat, fp, data, s, ch, k, cs, o);
    fat.IntactFacts();
    WholeCluster(fat.m, fat.Disk(), Placed(v, ch[k], o, data[..cs - o]), ch[k + 1], data[cs - o..]);
    assert data[cs - o..][cs - SECTOR..] == data[|data| - SECTOR..];
  }

  /**
   A call that goes on past the next cluster, up to the number of the third. When the entry that names it lies in the one
   sector the flag claims, it is read out of the file's own bytes, those written last; otherwise the table is read
   again, the number is right, and the caches are truthful again.
   */
  method ThirdCluster(fat: Driver, fp: FatFile, data: seq<byte>, ghost s: nat, ghost ch: seq<nat>, ghost k: nat)
    returns (third: nat)
    requires fat.Ready() && fp.inUse && SlotAt(fat.m, fp.dirLba, fp.dirOff, s) && fp.curPos + |data| < U32 && fp.firstClus != 0
    requires s < |fat.Vol().dir| && OnChain(fat.Vol(), ch, k, fp.curClus) && k + 1 < |ch|
    requires fp.curPos % ClusSize(fat.m) + |data| > 2 * ClusSize(fat.m)
    modifies fat`secValid, fat`fatLba, fat`fatValid, fat.dev, fat.dev.shadow, fat.wbuf
    modifies fp`firstClus, fp`curClus, fp`curPos, fp`fileSize
    ensures 2 <= ch[k] < |old(fat.Vol()).fat| && 2 <= ch[k + 1] < |old(fat.Vol()).fat|
    ensures var v, w := old(fat.Vol()), 2 * ClusSize(fat.m) - old(fp.curPos) % ClusSize(fat.m);
            var again := EntrySector(fat.m, ch[k + 1]) == EntrySector(fat.m, ch[k]) && !Straddles(fat.m.ty, ch[k + 1]);
            && fat.Intact() && BootKept(fat.m, old(fat.Disk()), fat.Disk())
            && SECTOR <= w && fp.curPos == old(fp.curPos) + w && fp.curClus == ch[k + 1]
            && third == NextOf(v.ty, if again then SectorEntry(v.ty, data[w - SECTOR..w], ch[k + 1]) else v.fat[ch[k + 1]])
            && (!again ==> fat.Ready())
  {
    hide View, OnDisk, Sound, Mirrored, TablesFit, IsChain, Sector, SlotAt, BootKept, EntrySector, SectorEntry, Straddles;
    var w := 2 * ClusSize(fat.m) - fp.curPos % ClusSize(fat.m);
    CrossFull(fat, fp, data[..w], s, ch, k, ClusSize(fat.m), fp.curPos % ClusSize(fat.m));
    assert data[..w][w - SECTOR..] == data[w - SECTOR..w];
    third := AskNext(fat, fp.curClus, data[w - SECTOR..w]);
  }

  lemma ZeroEntry(ty: FatType, data: seq<byte>, w: nat, c: nat)
    requires !Straddles(ty, c) && SECTOR <= w <= |data| && forall i :: 0 <= i < w ==> data[i] == 0
    ensures NextOf(ty, SectorEntry(ty, data[w - SECTOR..w], c)) == 0
  {
    EntryInsideSector(ty, c);
  }

  lemma BootSectorKept(m: Mount, d: seq<byte>, d': seq<byte>)
    requires OnDisk(m, d) && BootKept(m, d, d') && m.rsvdSec >= 1
    ensures 0 < |d| / SECTOR && Sector(d', 0) == Sector(d, 0)
  {
    hide EntryEnd;
    AreasFit(m, d);
    TimesMonotone(1, m.rsvdSec, SECTOR);
    WindowInside(d, 0, SECTOR * m.rsvdSec, 0, SECTOR);
    WindowInside(d', 0, SECTOR * m.rsvdSec, 0, SECTOR);
  }

  /** Read-modify-write of a sector, whatever lies there. */
  method RawPiece(fat: Driver, lba: nat, t: seq<byte>)
    requires fat.Wired() && lba < fat.dev.Sectors() < U32 && |t| <= SECTOR
    modifies fat`secValid, fat`fatValid, fat.dev, fat.dev.shadow, fat.wbuf
    ensures fat.Wired()
    ensures Sector(fat.Disk(), lba) == Splice(Sector(old(fat.Disk()), lba), 0, t)
  {
    hide Sector, PutSector, Splice;
    ghost var d := fat.Disk();
    var rc := fat.ReadScratch(lba);
    fat.CopyIn(0, t);
    rc := fat.WriteSec(lba);
    SectorAfterPut(d, lba, fat.wbuf[..], lba);
  }

  lemma TwoClustersOn(cs: nat, pos: nat)
    requires cs > 0
    ensures (pos + (2 * cs - pos % cs)) % cs == 0
  {
    NextOffset(cs, pos, cs - pos % cs);
    NextOffset(cs, pos + (cs - pos % cs), cs);
  }

  /**
   The same call over a file of zeros: the third cluster's number comes out as 0, the bytes that follow go to sector 0,
   and the volume has lost its boot sector.
   */
  method ZerosHitBoot(fat: Driver, fp: FatFile, data: seq<byte>, ghost s: nat, ghost ch: seq<nat>, ghost k: nat)
    requires fat.Ready() && fp.inUse && SlotAt(fat.m, fp.dirLba, fp.dirOff, s) && fp.curPos + |data| < U32 && fp.firstClus != 0
    requires s < |fat.Vol().dir| && OnChain(fat.Vol(), ch, k, fp.curClus) && k + 1 < |ch|
    requires fp.curPos % ClusSize(fat.m) + |data| > 2 * ClusSize(fat.m) && fat.m.rsvdSec >= 1
    requires EntrySector(fat.m, ch[k + 1]) == EntrySector(fat.m, ch[k]) && !Straddles(fat.m.ty, ch[k + 1])
    requires forall i :: 0 <= i < 2 * ClusSize(fat.m) - fp.curPos % ClusSize(fat.m) ==> data[i] == 0
    modifies fat`secValid, fat`fatLba, fat`fatValid, fat.dev, fat.dev.shadow, fat.wbuf
    modifies fp`firstClus, fp`curClus, fp`curPos, fp`fileSize
    ensures fat.Wired() && fp.curClus == 0 && fp.curPos % ClusSize(fat.m) == 0 && 0 < fat.dev.Sectors()
    ensures var w := 2 * ClusSize(fat.m) - old(fp.curPos) % ClusSize(fat.m);
            var next := data[w..w + Least(|data| - w, SECTOR)];
            next != [] && Sector(fat.Disk(), 0) == Splice(old(Sector(fat.Disk(), 0)), 0, next)
  {
    hide View, OnDisk, Sound, Mirrored, TablesFit, IsChain, SlotAt, BootKept, EntrySector, SectorEntry, Flat, Splice, Span, Straddles,
         Sector, PutSector, Shape;
    fat.ReadyFacts();
    fat.PositiveCluster();
    ghost var d0 := fat.Disk();
    var w := 2 * ClusSize(fat.m) - fp.curPos % ClusSize(fat.m);
    TwoClustersOn(ClusSize(fat.m), fp.curPos);
    SectorsOf(fat.m);
    ZeroEntry(fat.m.ty, data, w, ch[k + 1]);
    var third := ThirdCluster(fat, fp, data, s, ch, k);
    fp.curClus := third;
    fat.IntactFacts();
    BootSectorKept(fat.m, d0, fat.Disk());
    RawPiece(fat, ClusToLba(fat.m, fp.curClus), data[w..w + Least(|data| - w, SECTOR)]);
  }

  lemma WholeSplice(x: seq<byte>, u: seq<byte>)
    requires |x| == |u|
    ensures Splice(x, 0, u) == u
  {
  }
}
