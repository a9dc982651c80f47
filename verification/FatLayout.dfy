/** Where a FAT12/16 volume's parts lie on the disk, and what writing one sector of each part means. */
module FatLayout {
  import opened Bytes
  import opened Numbers
  import opened FatTable
  import opened FatVolume

  /** The fields of fat_mount_t. */
  datatype Mount = Mount(
    ty: FatType,
    secPerClus: nat,
    rsvdSec: nat,
    numFats: nat,
    rootEntCount: nat,
    totalSec: nat,
    fatSec: nat,
    rootClus: nat,
    firstDataSec: nat,
    firstRootSec: nat,
    clusterCount: nat)

  function ClusSize(m: Mount): nat {
    SECTOR * m.secPerClus
  }

  /** The sectors a walk of the root directory visits. */
  function RootSecs(m: Mount): nat {
    m.rootEntCount * 32 / SECTOR
  }

  function Slots(m: Mount): nat {
    16 * RootSecs(m)
  }

  /** A mounted FAT12/16 volume whose parts fit the device and do not overlap. */
  ghost predicate Sound(m: Mount, sectors: nat) {
    && !m.ty.Fat32?
    && IsPow2(m.secPerClus) && m.secPerClus <= 128
    && m.numFats >= 1 && (m.ty.Fat12? ==> m.numFats == 2 || m.clusterCount + 2 <= FIRST_ACROSS)
    && m.firstRootSec == m.rsvdSec + m.numFats * m.fatSec
    && RootSecs(m) >= 1 && m.firstRootSec + RootSecs(m) <= m.firstDataSec
    && m.clusterCount + 2 <= Eoc(m.ty)
    && EntryEnd(m.ty, m.clusterCount + 1) <= SECTOR * m.fatSec
    && m.firstDataSec + m.clusterCount * m.secPerClus <= sectors < U32
  }

  lemma IsPow2Times512(n: nat)
    ensures IsPow2(SECTOR * n) <==> IsPow2(n)
  {
    hide IsPow2;
    DoublePow2(n);
    DoublePow2(2 * n);
    DoublePow2(4 * n);
    DoublePow2(8 * n);
    DoublePow2(16 * n);
    DoublePow2(32 * n);
    DoublePow2(64 * n);
    DoublePow2(128 * n);
    DoublePow2(256 * n);
  }

  /** The offset in a cluster as the driver takes it: the position masked with one less than the cluster size. */
  function InCluster(m: Mount, pos: nat): nat
    requires m.secPerClus > 0
  {
    And(pos, ClusSize(m) - 1)
  }

  /** The mask gives the offset, for every position, exactly for cluster sizes that are powers of two. */
  lemma InClusterIff(m: Mount)
    requires m.secPerClus > 0
    ensures (forall pos: nat :: InCluster(m, pos) == pos % ClusSize(m)) <==> IsPow2(m.secPerClus)
  {
    var n := ClusSize(m);
    IsPow2Times512(m.secPerClus);
    MaskIsModIff(n);
    if forall pos: nat :: InCluster(m, pos) == pos % n {
      forall p: nat
        ensures And(p, n - 1) == p % n
      {
        assert InCluster(m, p) == p % n;
      }
    }
  }

  /** The first sector of the `k`-th copy of the table. */
  function CopyAt(m: Mount, k: nat): nat {
    m.rsvdSec + k * m.fatSec
  }

  lemma TimesMonotone(a: nat, b: nat, n: nat)
    requires a <= b
    ensures 0 <= a * n <= b * n
  {
  }

  lemma CopyFits(m: Mount, k: nat)
    requires k < m.numFats
    ensures m.rsvdSec <= CopyAt(m, k) && CopyAt(m, k) + m.fatSec <= CopyAt(m, m.numFats)
  {
    TimesMonotone(k + 1, m.numFats, m.fatSec);
    TimesMonotone(0, k, m.fatSec);
    assert (k + 1) * m.fatSec == k * m.fatSec + m.fatSec;
  }

  lemma CopiesApart(m: Mount, k: nat, l: nat)
    requires k < l
    ensures CopyAt(m, k) + m.fatSec <= CopyAt(m, l)
  {
    TimesMonotone(k + 1, l, m.fatSec);
    assert (k + 1) * m.fatSec == k * m.fatSec + m.fatSec;
  }

  function FatCopy(m: Mount, d: seq<byte>, k: nat): (f: seq<byte>)
    requires SECTOR * (CopyAt(m, k) + m.fatSec) <= |d|
    ensures |f| == SECTOR * m.fatSec
  {
    d[SECTOR * CopyAt(m, k)..SECTOR * (CopyAt(m, k) + m.fatSec)]
  }

  /** All copies of the table lie on the device. */
  ghost predicate TablesFit(m: Mount, d: seq<byte>) {
    m.numFats >= 1 && SECTOR * CopyAt(m, m.numFats) <= |d| && |d| / SECTOR < U32
  }

  ghost predicate OnDisk(m: Mount, d: seq<byte>) {
    Sound(m, |d| / SECTOR)
  }

  function RootArea(m: Mount, d: seq<byte>): (a: seq<byte>)
    requires SECTOR * (m.firstRootSec + RootSecs(m)) <= |d|
    ensures |a| == SECTOR * RootSecs(m)
  {
    d[SECTOR * m.firstRootSec..SECTOR * (m.firstRootSec + RootSecs(m))]
  }

  function DataArea(m: Mount, d: seq<byte>): (a: seq<byte>)
    requires SECTOR * m.firstDataSec <= |d|
    ensures |a| == |d| - SECTOR * m.firstDataSec
  {
    d[SECTOR * m.firstDataSec..]
  }

  lemma ClusterBytes(n: nat, spc: nat)
    ensures n * (SECTOR * spc) == SECTOR * (n * spc)
  {
  }

  lemma AreasFit(m: Mount, d: seq<byte>)
    requires OnDisk(m, d)
    ensures TablesFit(m, d) && CopyAt(m, m.numFats) == m.firstRootSec
    ensures SECTOR * (CopyAt(m, 0) + m.fatSec) <= SECTOR * m.firstRootSec
    ensures SECTOR * (m.firstRootSec + RootSecs(m)) <= SECTOR * m.firstDataSec <= |d|
    ensures m.clusterCount * ClusSize(m) <= |d| - SECTOR * m.firstDataSec
    ensures Slots(m) * 32 == SECTOR * RootSecs(m)
  {
    hide EntryEnd, Eoc;
    CopyFits(m, 0);
    TimesMonotone(0, m.clusterCount, m.secPerClus);
    ClusterBytes(m.clusterCount, m.secPerClus);
  }

  /** The volume a disk image holds. */
  function View(m: Mount, d: seq<byte>): (v: Volume)
    requires OnDisk(m, d)
    ensures Shape(v) && v.clusSize == ClusSize(m) && v.ty == m.ty
    ensures |v.fat| == m.clusterCount + 2 && |v.dir| == Slots(m) && |v.data| == m.clusterCount
  {
    AreasFit(m, d);
    FatSeqBound(m.ty, FatCopy(m, d, 0), m.clusterCount + 2);
    ChunkSizes(RootArea(m, d), 32, Slots(m));
    ChunkSizes(DataArea(m, d), ClusSize(m), m.clusterCount);
    Volume(m.ty, ClusSize(m),
           FatSeq(m.ty, FatCopy(m, d, 0), m.clusterCount + 2),
           Chunks(RootArea(m, d), 32, Slots(m)),
           Chunks(DataArea(m, d), ClusSize(m), m.clusterCount))
  }

  lemma ViewIsSmall(m: Mount, d: seq<byte>)
    requires OnDisk(m, d)
    ensures Small(View(m, d))
  {
    hide View;
  }

  lemma {:induction false} FatSeqBound(ty: FatType, f: seq<byte>, n: nat)
    requires n > 0 ==> EntryEnd(ty, n - 1) <= |f|
    ensures forall c :: 0 <= c < n ==> FatSeq(ty, f, n)[c] <= EocMark(ty)
  {
    if n > 0 {
      FatSeqBound(ty, f, n - 1);
      assert Entry(ty, f, n - 1) <= EocMark(ty);
    }
  }

  lemma {:induction false} ChunkSizes(a: seq<byte>, k: nat, n: nat)
    requires n * k <= |a|
    ensures forall i :: 0 <= i < n ==> |Chunks(a, k, n)[i]| == k
    decreases n
  {
    if n > 0 {
      ChunksFit(a, k, n);
      ChunkSizes(a[k..], k, n - 1);
    }
  }

  /** All copies of the table are equal. */
  ghost predicate Mirrored(m: Mount, d: seq<byte>)
    requires TablesFit(m, d)
  {
    forall k: nat :: k < m.numFats ==> SameCopy(m, d, k)
  }

  ghost predicate SameCopy(m: Mount, d: seq<byte>, k: nat)
    requires TablesFit(m, d) && k < m.numFats
  {
    CopyFits(m, k);
    CopyFits(m, 0);
    FatCopy(m, d, k) == FatCopy(m, d, 0)
  }

  /** The sectors before the first table are the same. */
  predicate BootKept(m: Mount, d: seq<byte>, d': seq<byte>) {
    |d'| == |d| && (SECTOR * m.rsvdSec <= |d| ==> d'[..SECTOR * m.rsvdSec] == d[..SECTOR * m.rsvdSec])
  }

  /** A patch behind the tables leaves the tables and the boot area alone. */
  lemma TablesKept(m: Mount, d: seq<byte>, at: nat, t: seq<byte>)
    requires TablesFit(m, d) && SECTOR * CopyAt(m, m.numFats) <= at && at + |t| <= |d|
    ensures var d' := Splice(d, at, t);
            && BootKept(m, d, d') && (Mirrored(m, d) ==> Mirrored(m, d'))
            && forall k: nat :: k < m.numFats ==>
                 SECTOR * (CopyAt(m, k) + m.fatSec) <= |d| && FatCopy(m, d', k) == FatCopy(m, d, k)
  {
    var d' := Splice(d, at, t);
    CopyFits(m, 0);
    SpliceBeside(d, at, t, 0, SECTOR * m.rsvdSec);
    forall k: nat | k < m.numFats
      ensures SECTOR * (CopyAt(m, k) + m.fatSec) <= |d| && FatCopy(m, d', k) == FatCopy(m, d, k)
    {
      CopyFits(m, k);
      SpliceBeside(d, at, t, SECTOR * CopyAt(m, k), SECTOR * (CopyAt(m, k) + m.fatSec));
    }
    if Mirrored(m, d) {
      forall k: nat | k < m.numFats
        ensures SameCopy(m, d', k)
      {
        assert SameCopy(m, d, k);
      }
    }
  }

  lemma WindowsAfterSplice(d: seq<byte>, at: nat, t: seq<byte>, r: nat, e: nat, f: nat)
    requires r <= e <= f <= |d| && at + |t| <= |d|
    ensures var d' := Splice(d, at, t);
            && (r <= at && at + |t| <= e ==> d'[r..e] == Splice(d[r..e], at - r, t) && d'[f..] == d[f..])
            && (f <= at ==> d'[r..e] == d[r..e] && d'[f..] == Splice(d[f..], at - f, t))
  {
    hide Splice;
    assert d[f..] == d[f..|d|] && Splice(d, at, t)[f..] == Splice(d, at, t)[f..|d|];
    if r <= at && at + |t| <= e {
      SpliceWindow(d, r, e - r, at - r, t);
      SpliceBeside(d, at, t, f, |d|);
    }
    if f <= at {
      SpliceWindow(d, f, |d| - f, at - f, t);
      SpliceBeside(d, at, t, r, e);
    }
  }

  lemma ViewIs(m: Mount, d: seq<byte>)
    requires OnDisk(m, d)
    ensures SECTOR * (CopyAt(m, 0) + m.fatSec) <= |d| && EntryEnd(m.ty, m.clusterCount + 1) <= SECTOR * m.fatSec
    ensures m.numFats >= 1
    ensures SECTOR * (m.firstRootSec + RootSecs(m)) <= |d| && SECTOR * m.firstDataSec <= |d|
    ensures Slots(m) * 32 == SECTOR * RootSecs(m) && m.clusterCount * ClusSize(m) <= |d| - SECTOR * m.firstDataSec
    ensures View(m, d) == Volume(m.ty, ClusSize(m),
                                 FatSeq(m.ty, FatCopy(m, d, 0), m.clusterCount + 2),
                                 Chunks(RootArea(m, d), 32, Slots(m)),
                                 Chunks(DataArea(m, d), ClusSize(m), m.clusterCount))
  {
    AreasFit(m, d);
  }

  /** Patching a directory slot on disk patches that slot of the volume. */
  lemma PatchSlot(m: Mount, d: seq<byte>, i: nat, o: nat, t: seq<byte>)
    requires OnDisk(m, d) && i < Slots(m) && o + |t| <= 32
    ensures SECTOR * m.firstRootSec + 32 * i + o + |t| <= |d|
    ensures var d' := Splice(d, SECTOR * m.firstRootSec + 32 * i + o, t);
            && OnDisk(m, d') && TablesFit(m, d) && BootKept(m, d, d') && (Mirrored(m, d) ==> Mirrored(m, d'))
            && View(m, d') == View(m, d).(dir := View(m, d).dir[i := Splice(View(m, d).dir[i], o, t)])
  {
    hide Splice, Chunks, FatSeq, Sound, CopyAt, Slots, RootSecs, ClusSize, View, FatCopy;
    AreasFit(m, d);
    var at := SECTOR * m.firstRootSec + 32 * i + o;
    var d' := Splice(d, at, t);
    TablesKept(m, d, at, t);
    WindowsAfterSplice(d, at, t, SECTOR * m.firstRootSec, SECTOR * (m.firstRootSec + RootSecs(m)), SECTOR * m.firstDataSec);
    ChunkSplice(RootArea(m, d), 32, Slots(m), i, o, t);
    ViewIs(m, d);
    ViewIs(m, d');
  }

  /** Patching a cluster on disk patches that cluster of the volume. */
  lemma PatchCluster(m: Mount, d: seq<byte>, i: nat, o: nat, t: seq<byte>)
    requires OnDisk(m, d) && i < m.clusterCount && o + |t| <= ClusSize(m)
    ensures 0 <= ClusSize(m) * i && SECTOR * m.firstDataSec + ClusSize(m) * i + o + |t| <= |d|
    ensures var d' := Splice(d, SECTOR * m.firstDataSec + ClusSize(m) * i + o, t);
            && OnDisk(m, d') && TablesFit(m, d) && BootKept(m, d, d') && (Mirrored(m, d) ==> Mirrored(m, d'))
            && View(m, d') == View(m, d).(data := View(m, d).data[i := Splice(View(m, d).data[i], o, t)])
  {
    hide Splice, Chunks, FatSeq, Sound, CopyAt, Slots, RootSecs, ClusSize, View, FatCopy;
    AreasFit(m, d);
    ChunkSplice(DataArea(m, d), ClusSize(m), m.clusterCount, i, o, t);
    var at := SECTOR * m.firstDataSec + ClusSize(m) * i + o;
    var d' := Splice(d, at, t);
    TablesKept(m, d, at, t);
    WindowsAfterSplice(d, at, t, SECTOR * m.firstRootSec, SECTOR * (m.firstRootSec + RootSecs(m)), SECTOR * m.firstDataSec);
    ViewIs(m, d);
    ViewIs(m, d');
  }

  /** The same bytes from `at` on. */
  predicate SameFrom(d: seq<byte>, d': seq<byte>, at: nat) {
    at <= |d| == |d'| && d'[at..] == d[at..]
  }

  /** Storing an entry in the first copy of the table stores it in the volume. */
  lemma PatchEntry(m: Mount, d: seq<byte>, d': seq<byte>, c: nat, w: nat)
    requires OnDisk(m, d) && c < m.clusterCount + 2 && SameFrom(d, d', SECTOR * m.firstRootSec)
    requires SECTOR * (CopyAt(m, 0) + m.fatSec) <= |d| && EntryEnd(m.ty, c) <= SECTOR * m.fatSec
    requires FatCopy(m, d', 0) == PutEntry(m.ty, FatCopy(m, d, 0), c, w)
    ensures OnDisk(m, d')
    ensures View(m, d') == View(m, d).(fat := View(m, d).fat[c := Stored(m.ty, w)])
  {
    hide Chunks, FatSeq, PutEntry, CopyAt, Slots, RootSecs, ClusSize, EntryEnd, View, FatCopy;
    AreasFit(m, d);
    FatSeqPut(m.ty, FatCopy(m, d, 0), m.clusterCount + 2, c, w);
    var r := SECTOR * m.firstRootSec;
    assert RootArea(m, d') == d'[r..][..SECTOR * RootSecs(m)] == RootArea(m, d);
    assert DataArea(m, d') == d'[r..][SECTOR * m.firstDataSec - r..] == DataArea(m, d);
    ViewIs(m, d);
    ViewIs(m, d');
  }

  // ---------- sectors of a table copy ----------

  lemma CopySector(m: Mount, d: seq<byte>, k: nat, j: nat)
    requires TablesFit(m, d) && k < m.numFats && j < m.fatSec
    ensures CopyAt(m, k) + j < |d| / SECTOR && SECTOR * (CopyAt(m, k) + m.fatSec) <= |d|
    ensures Sector(d, CopyAt(m, k) + j) == Sector(FatCopy(m, d, k), j)
  {
    hide CopyAt;
    CopyFits(m, k);
    WindowInside(d, SECTOR * CopyAt(m, k), SECTOR * m.fatSec, SECTOR * j, SECTOR);
  }

  /** Writing one sector of one copy changes that sector of that copy and nothing else on the disk. */
  lemma PutCopySector(m: Mount, d: seq<byte>, k: nat, j: nat, s: seq<byte>)
    requires TablesFit(m, d) && k < m.numFats && j < m.fatSec && |s| == SECTOR
    ensures SECTOR * (CopyAt(m, k) + j) + SECTOR <= |d| && SECTOR * (CopyAt(m, k) + m.fatSec) <= |d|
    ensures var d' := PutSector(d, CopyAt(m, k) + j, s);
            && TablesFit(m, d') && FatCopy(m, d', k) == PutSector(FatCopy(m, d, k), j, s) && SameAround(m, d, d')
            && forall l: nat :: l < m.numFats && l != k ==>
                 SECTOR * (CopyAt(m, l) + m.fatSec) <= |d| && FatCopy(m, d', l) == FatCopy(m, d, l)
  {
    hide CopyAt, Splice;
    CopyFits(m, k);
    var at := SECTOR * (CopyAt(m, k) + j);
    var d' := PutSector(d, CopyAt(m, k) + j, s);
    SpliceWindow(d, SECTOR * CopyAt(m, k), SECTOR * m.fatSec, SECTOR * j, s);
    SpliceBeside(d, at, s, 0, SECTOR * m.rsvdSec);
    SpliceBeside(d, at, s, SECTOR * CopyAt(m, m.numFats), |d|);
    forall l: nat | l < m.numFats && l != k
      ensures SECTOR * (CopyAt(m, l) + m.fatSec) <= |d| && FatCopy(m, d', l) == FatCopy(m, d, l)
    {
      CopyFits(m, l);
      if l < k {
        CopiesApart(m, l, k);
      } else {
        CopiesApart(m, k, l);
      }
      SpliceBeside(d, at, s, SECTOR * CopyAt(m, l), SECTOR * (CopyAt(m, l) + m.fatSec));
    }
  }

  /** The boot area before the tables and everything behind them are the same. */
  ghost predicate SameAround(m: Mount, d: seq<byte>, d': seq<byte>) {
    && BootKept(m, d, d')
    && SECTOR * CopyAt(m, m.numFats) <= |d|
    && d'[SECTOR * CopyAt(m, m.numFats)..] == d[SECTOR * CopyAt(m, m.numFats)..]
  }

  /** Copies below `i` hold `f'` and the others hold `f`. */
  ghost predicate CopiesAre(m: Mount, d: seq<byte>, i: nat, f': seq<byte>, f: seq<byte>) {
    && TablesFit(m, d)
    && (forall k: nat :: k < m.numFats && k < i ==> CopyIs(m, d, k, f'))
    && (forall k: nat :: i <= k < m.numFats ==> CopyIs(m, d, k, f))
  }

  ghost predicate CopyIs(m: Mount, d: seq<byte>, k: nat, f: seq<byte>)
    requires TablesFit(m, d) && k < m.numFats
  {
    CopyFits(m, k);
    FatCopy(m, d, k) == f
  }

  lemma CopiesFromMirror(m: Mount, d: seq<byte>)
    requires TablesFit(m, d) && Mirrored(m, d)
    ensures SECTOR * (CopyAt(m, 0) + m.fatSec) <= |d| && CopiesAre(m, d, 0, [], FatCopy(m, d, 0))
    ensures forall f' :: CopiesAre(m, d, 0, f', FatCopy(m, d, 0))
  {
    CopyFits(m, 0);
    forall k: nat | k < m.numFats
      ensures CopyIs(m, d, k, FatCopy(m, d, 0))
    {
      assert SameCopy(m, d, k);
    }
  }

  lemma MirrorFromCopies(m: Mount, d: seq<byte>, f': seq<byte>, f: seq<byte>)
    requires CopiesAre(m, d, m.numFats, f', f)
    ensures TablesFit(m, d) && SECTOR * (CopyAt(m, 0) + m.fatSec) <= |d| && Mirrored(m, d) && FatCopy(m, d, 0) == f'
  {
    CopyFits(m, 0);
    assert CopyIs(m, d, 0, f');
    forall k: nat | k < m.numFats
      ensures SameCopy(m, d, k)
    {
      assert CopyIs(m, d, k, f');
    }
  }

  lemma CopiesOnDevice(m: Mount, d: seq<byte>, i: nat, f': seq<byte>, f: seq<byte>)
    requires CopiesAre(m, d, i, f', f)
    ensures |d| / SECTOR < U32 && TablesFit(m, d) && CopyAt(m, 0) == m.rsvdSec
    ensures CopyAt(m, i) == m.rsvdSec + i * m.fatSec
  {
  }

  /** Writing the changed sector to the next copy. */
  lemma StoreNextCopy(m: Mount, d: seq<byte>, i: nat, f': seq<byte>, f: seq<byte>, j: nat, s: seq<byte>)
    requires CopiesAre(m, d, i, f', f) && i < m.numFats && j < m.fatSec && |s| == SECTOR
    requires |f| == SECTOR * m.fatSec && PutSector(f, j, s) == f'
    ensures CopyAt(m, i) + j < |d| / SECTOR
    ensures var d' := PutSector(d, CopyAt(m, i) + j, s); CopiesAre(m, d', i + 1, f', f) && SameAround(m, d, d')
  {
    hide CopyAt, PutSector;
    CopySector(m, d, i, j);
    PutCopySector(m, d, i, j, s);
    var d' := PutSector(d, CopyAt(m, i) + j, s);
    forall k: nat | k < m.numFats && k < i + 1
      ensures CopyIs(m, d', k, f')
    {
      assert if k < i then CopyIs(m, d, k, f') else CopyIs(m, d, k, f);
    }
    forall k: nat | i + 1 <= k < m.numFats
      ensures CopyIs(m, d', k, f)
    {
      assert CopyIs(m, d, k, f);
    }
  }

  /** The last sector read for an entry of the first copy. */
  function EntrySector(m: Mount, c: nat): nat {
    m.rsvdSec + EntryOff(m.ty, c) / SECTOR + if Straddles(m.ty, c) then 1 else 0
  }

  /** The bytes of an entry of the first copy, sector by sector, and the entry's value in terms of them. */
  lemma EntryOnDisk(m: Mount, d: seq<byte>, c: nat)
    requires TablesFit(m, d) && EntryEnd(m.ty, c) <= SECTOR * m.fatSec
    ensures SECTOR * (CopyAt(m, 0) + m.fatSec) <= |d| && m.numFats >= 1
    ensures EntryOff(m.ty, c) / SECTOR < m.fatSec && CopyAt(m, 0) == m.rsvdSec
    ensures var o := EntryOff(m.ty, c);
            var (l, i) := (m.rsvdSec + o / SECTOR, o % SECTOR);
            var e := Entry(m.ty, FatCopy(m, d, 0), c);
            && l < |d| / SECTOR < U32
            && match m.ty
               case Fat12 =>
                 && (i == SECTOR - 1 ==>
                       (l + 1 < |d| / SECTOR && e == Unpack12(c, Sector(d, l)[i] as nat, Sector(d, l + 1)[0] as nat)))
                 && (i < SECTOR - 1 ==> e == Unpack12(c, Sector(d, l)[i] as nat, Sector(d, l)[i + 1] as nat))
               case Fat16 => i + 2 <= SECTOR && e == Le16(Sector(d, l), i)
               case Fat32 => i + 4 <= SECTOR && e == Le32(Sector(d, l), i) % 0x1000_0000
  {
    hide CopyAt, Sector;
    var f := FirstCopy(m, d);
    var o := EntryOff(m.ty, c);
    EntryBytes(m.ty, f, c);
    CopySector(m, d, 0, o / SECTOR);
    if Straddles(m.ty, c) {
      CopySector(m, d, 0, o / SECTOR + 1);
    }
  }

  function FirstCopy(m: Mount, d: seq<byte>): (f: seq<byte>)
    requires TablesFit(m, d)
    ensures CopyAt(m, 0) == m.rsvdSec && SECTOR * (CopyAt(m, 0) + m.fatSec) <= |d|
    ensures f == FatCopy(m, d, 0)
  {
    CopyFits(m, 0);
    FatCopy(m, d, 0)
  }

  /** Entry `c` of every copy is set to `w`, and nothing else on the disk changes. */
  ghost predicate EntrySet(m: Mount, d: seq<byte>, d': seq<byte>, c: nat, w: nat)
    requires TablesFit(m, d) && EntryEnd(m.ty, c) <= SECTOR * m.fatSec
  {
    && TablesFit(m, d') && Mirrored(m, d') && SameAround(m, d, d')
    && FirstCopy(m, d') == PutEntry(m.ty, FirstCopy(m, d), c, w)
  }

  lemma AroundTrans(m: Mount, d: seq<byte>, d1: seq<byte>, d2: seq<byte>)
    requires SameAround(m, d, d1) && SameAround(m, d1, d2)
    ensures SameAround(m, d, d2)
  {
  }

  // ---------- entries across two sectors ----------

  /** The edits one pass of the straddling path makes: the last byte of sector `l` and the first of the next. */
  function AcrossPut(d: seq<byte>, l: nat, c: nat, w: nat, n0: byte): (d': seq<byte>)
    requires SECTOR * (l + 1) + SECTOR <= |d|
    ensures |d'| == |d|
  {
    var d1 := PutSector(d, l, Sector(d, l)[SECTOR - 1 := n0]);
    PutSector(d1, l + 1, Sector(d1, l + 1)[0 := HighByte(c, Sector(d1, l + 1)[0], w)])
  }

  lemma AcrossBytes(d: seq<byte>, l: nat, c: nat, w: nat, n0: byte)
    requires SECTOR * (l + 1) + SECTOR <= |d|
    ensures var p := SECTOR * l + SECTOR - 1;
            AcrossPut(d, l, c, w, n0) == d[p := n0][p + 1 := HighByte(c, d[p + 1], w)]
  {
    hide PutSector, HighByte;
    var p := SECTOR * l + SECTOR - 1;
    PutOneByte(d, l, SECTOR - 1, n0);
    PutOneByte(d[p := n0], l + 1, 0, HighByte(c, d[p + 1], w));
    assert Sector(d[p := n0], l + 1)[0] == d[p + 1];
  }

  /** The sector in which a straddling entry of the first copy starts. */
  function AcrossAt(m: Mount, c: nat): nat {
    m.rsvdSec + EntryOff(Fat12, c) / SECTOR
  }

  /** A straddling entry of the first copy, and a second pass one table length further on, lie on the device. */
  ghost predicate AcrossFits(m: Mount, d: seq<byte>, c: nat) {
    && TablesFit(m, d) && m.ty.Fat12? && Straddles(Fat12, c) && EntryEnd(Fat12, c) <= SECTOR * m.fatSec
    && AcrossAt(m, c) + m.fatSec + 1 < |d| / SECTOR
  }

  /** Both passes of the straddling path. The byte shared with the entry before comes from the first copy. */
  ghost function AcrossBoth(m: Mount, d: seq<byte>, c: nat, w: nat): (d': seq<byte>)
    requires AcrossFits(m, d, c)
    ensures |d'| == |d|
  {
    var l := AcrossAt(m, c);
    var n0 := LowByte(c, Sector(d, l)[SECTOR - 1], w);
    AcrossPut(AcrossPut(d, l, c, w, n0), l + m.fatSec, c, w, n0)
  }

  /** One pass over the next copy of the table. */
  lemma AcrossCopy(m: Mount, d: seq<byte>, i: nat, f': seq<byte>, f: seq<byte>, c: nat, w: nat, n0: byte)
    requires i < m.numFats && CopiesAre(m, d, i, f', f) && |f| == SECTOR * m.fatSec
    requires Straddles(Fat12, c) && EntryEnd(Fat12, c) <= |f| && f' == PutEntry(Fat12, f, c, w)
    requires n0 == LowByte(c, f[EntryOff(Fat12, c)], w)
    ensures var l := CopyAt(m, i) + EntryOff(Fat12, c) / SECTOR;
            && l + 1 < |d| / SECTOR && SECTOR * (l + 1) + SECTOR <= |d|
            && CopiesAre(m, AcrossPut(d, l, c, w, n0), i + 1, f', f) && SameAround(m, d, AcrossPut(d, l, c, w, n0))
  {
    hide PutSector, Sector, CopyAt, SameAround, CopiesAre, PutEntry, EntryOff, EntryEnd, LowByte, HighByte;
    var j := EntryOff(Fat12, c) / SECTOR;
    EntryBytes(Fat12, f, c);
    PutAcrossSectors(f, c, w);
    StoreAcross(m, d, i, f', f, j, Sector(f, j)[SECTOR - 1 := n0], Sector(f, j + 1)[0 := HighByte(c, Sector(f, j + 1)[0], w)]);
  }

  /** Both passes together store the entry in the first two copies of the table and change nothing else. */
  lemma AcrossCopies(m: Mount, d: seq<byte>, c: nat, w: nat)
    requires AcrossFits(m, d, c) && Mirrored(m, d) && m.numFats >= 2
    ensures var f := FirstCopy(m, d);
            var d' := AcrossBoth(m, d, c, w);
            |f| == SECTOR * m.fatSec && CopiesAre(m, d', 2, PutEntry(Fat12, f, c, w), f) && SameAround(m, d, d')
  {
    hide PutSector, SameAround, CopiesAre, PutEntry, EntryOff, EntryEnd, LowByte, HighByte, AcrossPut, Straddles, Sector, CopyAt;
    var f := FirstCopy(m, d);
    var f' := PutEntry(Fat12, f, c, w);
    CopiesFromMirror(m, d);
    EntryBytes(Fat12, f, c);
    EntryOnDisk(m, d, c);
    CopySector(m, d, 0, EntryOff(Fat12, c) / SECTOR);
    var l := AcrossAt(m, c);
    var n0 := LowByte(c, Sector(d, l)[SECTOR - 1], w);
    AcrossSector(c);
    CopiesOnDevice(m, d, 0, f', f);
    AcrossCopy(m, d, 0, f', f, c, w, n0);
    var d1 := AcrossPut(d, l, c, w, n0);
    CopiesOnDevice(m, d1, 1, f', f);
    AcrossCopy(m, d1, 1, f', f, c, w, n0);
    AroundTrans(m, d, d1, AcrossBoth(m, d, c, w));
  }

  /** With two copies of the table, that is all of them. */
  lemma AcrossWithTwo(m: Mount, d: seq<byte>, c: nat, w: nat)
    requires AcrossFits(m, d, c) && Mirrored(m, d) && m.numFats == 2
    ensures EntrySet(m, d, AcrossBoth(m, d, c, w), c, w)
  {
    hide SameAround, CopiesAre, PutEntry, EntryEnd, AcrossBoth, Straddles, CopyAt;
    AcrossCopies(m, d, c, w);
    MirrorFromCopies(m, AcrossBoth(m, d, c, w), PutEntry(Fat12, FirstCopy(m, d), c, w), FirstCopy(m, d));
  }

  lemma AcrossSector(c: nat)
    requires Straddles(Fat12, c)
    ensures EntryOff(Fat12, c) % SECTOR == SECTOR - 1
  {
  }

  /** The four bytes both passes set. */
  lemma AcrossElse(m: Mount, d: seq<byte>, c: nat, w: nat)
    requires AcrossFits(m, d, c)
    ensures var q, p := SECTOR * AcrossAt(m, c) + SECTOR - 1, SECTOR * (AcrossAt(m, c) + m.fatSec) + SECTOR - 1;
            var d' := AcrossBoth(m, d, c, w);
            && SECTOR * m.rsvdSec <= q && q + 1 < SECTOR * (m.rsvdSec + m.fatSec) <= p && p + 1 < |d|
            && d'[p] == LowByte(c, d[q], w) && d'[p + 1] == HighByte(c, d[p + 1], w)
            && forall i :: 0 <= i < |d| && i !in {q, q + 1, p, p + 1} ==> d'[i] == d[i]
  {
    hide HighByte, LowByte, AcrossPut, Straddles, EntryOff, EntryEnd;
    var l := AcrossAt(m, c);
    var n0 := LowByte(c, Sector(d, l)[SECTOR - 1], w);
    AcrossBytes(d, l, c, w, n0);
    AcrossBytes(AcrossPut(d, l, c, w, n0), l + m.fatSec, c, w, n0);
    AcrossInside(m, c);
  }

  /**
   With one table only, the second pass changes two bytes behind the table: it does no harm only where they happen
   to have the values already.
   */
  lemma AcrossWithOne(m: Mount, d: seq<byte>, c: nat, w: nat)
    requires AcrossFits(m, d, c) && m.numFats == 1
    ensures var q, p := SECTOR * AcrossAt(m, c) + SECTOR - 1, SECTOR * (AcrossAt(m, c) + m.fatSec) + SECTOR - 1;
            var d' := AcrossBoth(m, d, c, w);
            && SECTOR * CopyAt(m, 1) <= p && p + 1 < |d| && q < p
            && d'[p] == LowByte(c, d[q], w) && d'[p + 1] == HighByte(c, d[p + 1], w)
            && (SameAround(m, d, d') <==> d[p] == LowByte(c, d[q], w) && d[p + 1] == HighByte(c, d[p + 1], w))
  {
    hide HighByte, LowByte, AcrossBoth, Straddles, EntryOff, EntryEnd, AcrossAt;
    AcrossElse(m, d, c, w);
    var p, end := SECTOR * (AcrossAt(m, c) + m.fatSec) + SECTOR - 1, SECTOR * CopyAt(m, 1);
    var d' := AcrossBoth(m, d, c, w);
    assert d'[..SECTOR * m.rsvdSec] == d[..SECTOR * m.rsvdSec];
    if SameAround(m, d, d') {
      assert d'[end..][p - end] == d[end..][p - end] && d'[end..][p + 1 - end] == d[end..][p + 1 - end];
    }
  }

  /**
   With more than two tables the others keep the old entry: they agree afterwards exactly when the entry had that value
   before. Nothing before or behind the tables changes.
   */
  lemma AcrossWithMore(m: Mount, d: seq<byte>, c: nat, w: nat)
    requires AcrossFits(m, d, c) && Mirrored(m, d) && m.numFats > 2
    ensures var d' := AcrossBoth(m, d, c, w);
            && TablesFit(m, d') && SameAround(m, d, d')
            && FirstCopy(m, d') == PutEntry(Fat12, FirstCopy(m, d), c, w)
            && (Mirrored(m, d') <==> Entry(Fat12, FirstCopy(m, d), c) == Stored(Fat12, w))
  {
    hide SameAround, PutEntry, EntryEnd, AcrossBoth, Straddles, CopyAt, Entry, FatCopy;
    AcrossCopies(m, d, c, w);
    var d' := AcrossBoth(m, d, c, w);
    var f := FirstCopy(m, d);
    var f' := PutEntry(Fat12, f, c, w);
    PutSameIff(f, c, w);
    assert CopyIs(m, d', 0, f') && CopyIs(m, d', 2, f);
    if f' == f {
      forall k: nat | k < m.numFats
        ensures SameCopy(m, d', k)
      {
        assert CopyIs(m, d', k, f);
      }
    } else {
      assert !SameCopy(m, d', 2);
    }
  }

  lemma AcrossInside(m: Mount, c: nat)
    requires Straddles(Fat12, c) && EntryEnd(Fat12, c) <= SECTOR * m.fatSec
    ensures AcrossAt(m, c) + 1 < m.rsvdSec + m.fatSec
  {
  }

  /** Writing the two changed sectors of a straddling entry to the next copy. */
  lemma StoreAcross(m: Mount, d: seq<byte>, i: nat, f': seq<byte>, f: seq<byte>, j: nat, s0: seq<byte>, s1: seq<byte>)
    requires CopiesAre(m, d, i, f', f) && i < m.numFats && j + 1 < m.fatSec && |s0| == SECTOR && |s1| == SECTOR
    requires |f| == SECTOR * m.fatSec && PutSector(PutSector(f, j, s0), j + 1, s1) == f'
    ensures var l := CopyAt(m, i) + j;
            && l + 1 < |d| / SECTOR && Sector(d, l) == Sector(f, j)
            && var d1 := PutSector(d, l, s0);
               && Sector(d1, l + 1) == Sector(f, j + 1)
               && CopiesAre(m, PutSector(d1, l + 1, s1), i + 1, f', f) && SameAround(m, d, PutSector(d1, l + 1, s1))
  {
    hide CopyAt, PutSector, Sector, FatCopy;
    assert CopyIs(m, d, i, f);
    CopySector(m, d, i, j);
    CopySector(m, d, i, j + 1);
    PutCopySector(m, d, i, j, s0);
    var l := CopyAt(m, i) + j;
    var d1 := PutSector(d, l, s0);
    SectorAfterPut(d, l, s0, l + 1);
    PutCopySector(m, d1, i, j + 1, s1);
    var d2 := PutSector(d1, l + 1, s1);
    AroundTrans(m, d, d1, d2);
    forall k: nat | k < m.numFats && k < i + 1
      ensures CopyIs(m, d2, k, f')
    {
      assert if k < i then CopyIs(m, d, k, f') else CopyIs(m, d, k, f);
    }
    forall k: nat | i + 1 <= k < m.numFats
      ensures CopyIs(m, d2, k, f)
    {
      assert CopyIs(m, d, k, f);
    }
  }

  /** A cluster's entry in the volume is its entry in the first copy of the table. */
  lemma EntryInView(m: Mount, d: seq<byte>, c: nat)
    requires OnDisk(m, d) && c < m.clusterCount + 2
    ensures TablesFit(m, d) && EntryEnd(m.ty, c) <= SECTOR * m.fatSec && !m.ty.Fat32?
    ensures Straddles(m.ty, c) ==> m.numFats == 2
    ensures Entry(m.ty, FirstCopy(m, d), c) == View(m, d).fat[c]
  {
    hide Entry, Chunks, RootSecs, Slots, Straddles;
    StraddlesFrom(m.ty, c);
    AreasFit(m, d);
    ViewIs(m, d);
    FatSeqAt(m.ty, FirstCopy(m, d), m.clusterCount + 2, c);
  }

  /** Setting an entry of every copy sets it in the volume. */
  lemma EntrySetInView(m: Mount, d: seq<byte>, d': seq<byte>, c: nat, w: nat)
    requires OnDisk(m, d) && c < m.clusterCount + 2 && TablesFit(m, d) && EntryEnd(m.ty, c) <= SECTOR * m.fatSec
    requires EntrySet(m, d, d', c, w)
    ensures OnDisk(m, d') && TablesFit(m, d') && Mirrored(m, d') && BootKept(m, d, d')
    ensures View(m, d') == View(m, d).(fat := View(m, d).fat[c := Stored(m.ty, w)])
  {
    hide PutEntry, Chunks, View, Slots, RootSecs, Mirrored;
    AreasFit(m, d);
    PatchEntry(m, d, d', c, w);
  }

  // ---------- directory slots and their sectors ----------

  /** Slot `s` of the root directory is the 32 bytes at `off` of sector `lba`. */
  predicate SlotAt(m: Mount, lba: nat, off: nat, s: nat)
    ensures SlotAt(m, lba, off, s) ==> s < Slots(m)
  {
    s < Slots(m) && lba == m.firstRootSec + s / 16 && off == 32 * (s % 16)
  }

  lemma RootSectorFits(m: Mount, d: seq<byte>, j: nat)
    requires OnDisk(m, d) && j < RootSecs(m)
    ensures m.firstRootSec + j < |d| / SECTOR < U32
  {
    hide RootSecs, EntryEnd;
    AreasFit(m, d);
  }

  /** Slot `s` of an area of whole sectors, seen in its sector. */
  lemma SlotWindow(d: seq<byte>, first: nat, secs: nat, s: nat, lba: nat, off: nat)
    requires SECTOR * (first + secs) <= |d| && s < 16 * secs && lba == first + s / 16 && off == 32 * (s % 16)
    ensures SECTOR * lba + SECTOR <= |d| && off + 32 <= SECTOR && 32 * s + 32 <= SECTOR * secs
    ensures d[SECTOR * lba..SECTOR * lba + SECTOR][off..off + 32]
            == d[SECTOR * first..SECTOR * (first + secs)][32 * s..32 * s + 32]
  {
    WindowInside(d, SECTOR * first, SECTOR * secs, 32 * s, 32);
    WindowInside(d, SECTOR * lba, SECTOR, off, 32);
    assert SECTOR * lba + off == SECTOR * first + 32 * s;
  }

  lemma SlotInSector(m: Mount, d: seq<byte>, lba: nat, off: nat, s: nat)
    requires OnDisk(m, d) && SlotAt(m, lba, off, s)
    ensures lba < |d| / SECTOR < U32 && off + 32 <= SECTOR
    ensures Sector(d, lba)[off..off + 32] == View(m, d).dir[s]
  {
    hide Chunks, RootSecs, EntryEnd, OnDisk, Sound, View, CopyAt, FatCopy, FatSeq, ClusSize;
    RootSectorFits(m, d, s / 16);
    ViewIs(m, d);
    ChunkAt(RootArea(m, d), 32, Slots(m), s);
    SlotWindow(d, m.firstRootSec, RootSecs(m), s, lba, off);
  }

  /** Sector 0 lies before every table. */
  lemma BootBehind(m: Mount, d: seq<byte>, t: seq<byte>, k: nat)
    requires TablesFit(m, d) && m.rsvdSec >= 1 && |t| <= SECTOR && k < m.numFats
    ensures SECTOR <= SECTOR * (CopyAt(m, k) + m.fatSec) <= SECTOR * CopyAt(m, m.numFats) <= |d|
    ensures FatCopy(m, Splice(d, 0, t), k) == FatCopy(m, d, k)
  {
    hide CopyAt, Splice;
    CopyFits(m, k);
    SpliceBeside(d, 0, t, SECTOR * CopyAt(m, k), SECTOR * (CopyAt(m, k) + m.fatSec));
  }

  /** A patch of sector 0 leaves the volume alone. */
  lemma BootPatch(m: Mount, d: seq<byte>, t: seq<byte>)
    requires OnDisk(m, d) && TablesFit(m, d) && Mirrored(m, d) && m.rsvdSec >= 1 && |t| <= SECTOR
    ensures SECTOR <= |d|
    ensures var d' := Splice(d, 0, t); OnDisk(m, d') && TablesFit(m, d') && Mirrored(m, d') && View(m, d') == View(m, d)
  {
    hide Splice, Chunks, FatSeq, Sound, CopyAt, Slots, RootSecs, ClusSize, View, FatCopy;
    AreasFit(m, d);
    BootBehind(m, d, t, 0);
    var d' := Splice(d, 0, t);
    SpliceBeside(d, 0, t, SECTOR * m.firstRootSec, SECTOR * (m.firstRootSec + RootSecs(m)));
    SpliceBeside(d, 0, t, SECTOR * m.firstDataSec, |d|);
    assert d'[SECTOR * m.firstDataSec..] == d'[SECTOR * m.firstDataSec..|d|] && d[SECTOR * m.firstDataSec..] == d[SECTOR * m.firstDataSec..|d|];
    forall k: nat | k < m.numFats
      ensures SameCopy(m, d', k)
    {
      BootBehind(m, d, t, k);
      assert SameCopy(m, d, k);
    }
    ViewIs(m, d);
    ViewIs(m, d');
  }


  /** Writing back a sector with one slot replaced replaces that slot of the volume. */
  lemma StoreSlot(m: Mount, d: seq<byte>, lba: nat, off: nat, s: nat, e: seq<byte>)
    requires OnDisk(m, d) && TablesFit(m, d) && Mirrored(m, d) && SlotAt(m, lba, off, s) && |e| == 32
    ensures lba < |d| / SECTOR && off + 32 <= SECTOR
    ensures var d' := PutSector(d, lba, Splice(Sector(d, lba), off, e));
            && OnDisk(m, d') && TablesFit(m, d') && Mirrored(m, d') && BootKept(m, d, d')
            && View(m, d') == View(m, d).(dir := View(m, d).dir[s := e])
  {
    hide Chunks, RootSecs, EntryEnd, View, PutSector, Sector, Mirrored, FatCopy, CopyAt, BootKept;
    SlotInSector(m, d, lba, off, s);
    SectorPatch(d, lba, off, e);
    PatchSlot(m, d, s, 0, e);
    assert Splice(View(m, d).dir[s], 0, e) == e;
    AreasFit(m, Splice(d, SECTOR * lba + off, e));
  }

  /** Where an entry is written: slot `a` of the root, or, when `a` is their number, the start of sector 0. */
  predicate PlaceAt(m: Mount, lba: nat, off: nat, a: nat) {
    SlotAt(m, lba, off, a) || (a == Slots(m) && lba == 0 && off == 0 && m.rsvdSec >= 1)
  }

  /** The entry at a place. */
  ghost function EntryAt(m: Mount, d: seq<byte>, a: nat): (e: seq<byte>)
    requires OnDisk(m, d) && a <= Slots(m) && |d| >= 32
    ensures |e| == 32
  {
    if a < Slots(m) then View(m, d).dir[a] else d[..32]
  }

  lemma PlaceInSector(m: Mount, d: seq<byte>, lba: nat, off: nat, a: nat)
    requires OnDisk(m, d) && PlaceAt(m, lba, off, a)
    ensures a <= Slots(m) && |d| >= SECTOR && lba < |d| / SECTOR < U32 && off + 32 <= SECTOR
    ensures Sector(d, lba)[off..off + 32] == EntryAt(m, d, a)
  {
    hide View, OnDisk, Slots, RootSecs;
    BootOnDevice(m, d);
    if SlotAt(m, lba, off, a) {
      SlotInSector(m, d, lba, off, a);
    } else {
      WindowInside(d, 0, SECTOR, 0, 32);
    }
  }

  lemma BootOnDevice(m: Mount, d: seq<byte>)
    requires OnDisk(m, d)
    ensures 0 < |d| / SECTOR < U32 && |d| >= SECTOR
  {
    hide EntryEnd, Eoc;
    AreasFit(m, d);
  }

  /** Writing back a sector with the entry at a place replaced: that slot of the volume, or the start of sector 0. */
  lemma StorePlace(m: Mount, d: seq<byte>, lba: nat, off: nat, a: nat, e: seq<byte>)
    requires OnDisk(m, d) && TablesFit(m, d) && Mirrored(m, d) && PlaceAt(m, lba, off, a) && |e| == 32
    ensures lba < |d| / SECTOR && off + 32 <= SECTOR && |d| >= SECTOR
    ensures var d' := PutSector(d, lba, Splice(Sector(d, lba), off, e));
            && OnDisk(m, d') && TablesFit(m, d') && Mirrored(m, d')
            && (SlotAt(m, lba, off, a) ==> BootKept(m, d, d') && View(m, d') == View(m, d).(dir := View(m, d).dir[a := e]))
            && (a == Slots(m) ==> View(m, d') == View(m, d) && d' == Splice(d, 0, e))
  {
    hide View, OnDisk, Sector, PutSector, Splice, Mirrored, TablesFit, BootKept, Slots;
    PlaceInSector(m, d, lba, off, a);
    if SlotAt(m, lba, off, a) {
      StoreSlot(m, d, lba, off, a, e);
    } else {
      SectorPatch(d, 0, 0, e);
      BootPatch(m, d, e);
    }
  }

  // ---------- editing a slot inside its sector ----------

  lemma SlotPut16(s: seq<byte>, off: nat, e: seq<byte>, k: nat, w: nat)
    requires |e| == 32 && off + 32 <= |s| && k + 2 <= 32
    ensures Put16(Splice(s, off, e), off + k, w) == Splice(s, off, Put16(e, k, w))
  {
  }

  lemma SlotPut32(s: seq<byte>, off: nat, e: seq<byte>, k: nat, w: nat)
    requires |e| == 32 && off + 32 <= |s| && k + 4 <= 32
    ensures Put32(Splice(s, off, e), off + k, w) == Splice(s, off, Put32(e, k, w))
  {
    hide Put16, Splice;
    SlotPut16(s, off, e, k, w);
    SlotPut16(s, off, Put16(e, k, w), k + 2, w / 0x1_0000);
  }

  lemma SlotPutByte(s: seq<byte>, off: nat, e: seq<byte>, k: nat, b: byte)
    requires |e| == 32 && off + 32 <= |s| && k < 32
    ensures Splice(s, off, e)[off + k := b] == Splice(s, off, e[k := b])
  {
  }

  lemma SlotStart(s: seq<byte>, off: nat)
    requires off + 32 <= |s|
    ensures Splice(s, off, s[off..off + 32]) == s
  {
  }

  // ---------- data sectors ----------

  /** fat_clus_to_lba. */
  function ClusToLba(m: Mount, c: nat): nat {
    if c < 2 then 0 else m.firstDataSec + (c - 2) * m.secPerClus
  }

  lemma ClusterBase(m: Mount, c: nat, j: nat)
    requires c >= 2
    ensures SECTOR * (ClusToLba(m, c) + j) == SECTOR * m.firstDataSec + ClusSize(m) * (c - 2) + SECTOR * j
    ensures ClusSize(m) * (c - 2) >= 0
  {
    assert SECTOR * ((c - 2) * m.secPerClus) == (SECTOR * m.secPerClus) * (c - 2);
  }

  /** Sector `j` of cluster `c` on disk is the `j`-th sector of that cluster of the volume. */
  lemma DataSector(m: Mount, d: seq<byte>, c: nat, j: nat)
    requires OnDisk(m, d) && 2 <= c < m.clusterCount + 2 && j < m.secPerClus
    ensures ClusToLba(m, c) + j < |d| / SECTOR < U32 && SECTOR * j + SECTOR <= ClusSize(m)
    ensures Sector(d, ClusToLba(m, c) + j) == View(m, d).data[c - 2][SECTOR * j..SECTOR * j + SECTOR]
  {
    hide Chunks, RootSecs, EntryEnd, ClusToLba;
    ViewIs(m, d);
    ClusterBase(m, c, j);
    var area := DataArea(m, d);
    ChunkAt(area, ClusSize(m), m.clusterCount, c - 2);
    var at := ClusSize(m) * (c - 2);
    WindowInside(area, at, ClusSize(m), SECTOR * j, SECTOR);
    WindowInside(d, SECTOR * m.firstDataSec, |area|, at + SECTOR * j, SECTOR);
    assert d[SECTOR * m.firstDataSec..SECTOR * m.firstDataSec + |area|] == area;
  }

  /** Writing back a data sector with bytes replaced replaces them in the cluster. */
  lemma StoreSector(m: Mount, d: seq<byte>, c: nat, j: nat, o: nat, t: seq<byte>)
    requires OnDisk(m, d) && TablesFit(m, d) && Mirrored(m, d) && 2 <= c < m.clusterCount + 2 && j < m.secPerClus
    requires o + |t| <= SECTOR
    ensures ClusToLba(m, c) + j < |d| / SECTOR && SECTOR * j + o + |t| <= ClusSize(m)
    ensures var d' := PutSector(d, ClusToLba(m, c) + j, Splice(Sector(d, ClusToLba(m, c) + j), o, t));
            && OnDisk(m, d') && TablesFit(m, d') && Mirrored(m, d') && BootKept(m, d, d')
            && View(m, d') == View(m, d).(data := View(m, d).data[c - 2 := Splice(View(m, d).data[c - 2], SECTOR * j + o, t)])
  {
    hide Chunks, RootSecs, EntryEnd, View, PutSector, Sector, Mirrored, FatCopy, CopyAt, BootKept, Splice, ClusToLba, Sound;
    DataSector(m, d, c, j);
    ClusterBase(m, c, j);
    SectorPatch(d, ClusToLba(m, c) + j, o, t);
    PatchCluster(m, d, c - 2, SECTOR * j + o, t);
    AreasFit(m, Splice(d, SECTOR * (ClusToLba(m, c) + j) + o, t));
  }
}
