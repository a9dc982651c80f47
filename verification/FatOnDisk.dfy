/** The volumes of this model are what the FAT specification finds on their disks. */
module FatOnDisk {
  import opened Bytes
  import opened Numbers
  import opened Wrappers
  import opened FatTable
  import opened FatVolume
  import opened FatChains
  import opened FatWrites
  import opened FatReads
  import opened FatOps
  import opened FatFiles
  import opened FatLayout
  import opened FatMount
  import F = FatFormat

  /** The geometry is the one of the disk's own boot sector, in which the clusters start before the volume ends. */
  ghost predicate MountedFrom(m: Mount, d: seq<byte>) {
    |d| >= SECTOR && Geometry(Sector(d, 0)) == Good(m) && OnDisk(m, d) && m.firstDataSec <= m.totalSec
  }

  // ---------- the boot sector ----------

  lemma BootField(d: seq<byte>, at: nat)
    requires |d| >= SECTOR && at + 4 <= SECTOR
    ensures F.Word(d, at) == Le16(Sector(d, 0), at) && F.Long(d, at) == Le32(Sector(d, 0), at)
    ensures OrZero(d, at) == Sector(d, 0)[at] as nat
  {
  }

  lemma FieldsAreFormat(m: Mount, d: seq<byte>)
    requires |d| >= SECTOR && Geometry(Sector(d, 0)) == Good(m)
    ensures m.rsvdSec == F.Word(d, 14) && m.numFats == OrZero(d, 16) && m.fatSec == F.TableSectors(d)
    ensures m.rootEntCount == F.Word(d, 17) && m.totalSec == F.TotalSectors(d) && m.secPerClus == OrZero(d, 13) > 0
    ensures m.ty == TypeOf(m.clusterCount) && m.clusterCount == (m.totalSec - m.firstDataSec) % U32 / m.secPerClus
    ensures m.totalSec < U32 && m.firstDataSec < U32
  {
    hide Sector, Le16, Le32, OrZero, F.Word, F.Long;
    BootField(d, 13);
    BootField(d, 14);
    BootField(d, 16);
    BootField(d, 17);
    BootField(d, 19);
    BootField(d, 22);
    BootField(d, 32);
    BootField(d, 36);
  }

  lemma AreasAreFormat(m: Mount, d: seq<byte>)
    requires MountedFrom(m, d)
    ensures m.firstRootSec == m.rsvdSec + m.numFats * m.fatSec
    ensures m.firstDataSec == m.firstRootSec + RootDirSecs(m.rootEntCount)
  {
    hide EntryEnd, Eoc, IsPow2, Geometry, Sector;
    GeometryParts(Sector(d, 0));
    WrapExact(m.rsvdSec, m.numFats * m.fatSec, RootSecs(m), RootDirSecs(m.rootEntCount), m.firstRootSec, m.firstDataSec);
  }

  /** The numbers mounting works out are those of the specification. */
  lemma GeometryIsFormat(m: Mount, d: seq<byte>)
    requires MountedFrom(m, d)
    ensures m.rsvdSec == F.Word(d, 14) && m.firstRootSec == F.RootStart(d) && m.firstDataSec == F.DataStart(d)
    ensures ClusSize(m) == F.ClusterBytes(d) > 0 && m.clusterCount == F.DataClusters(d)
    ensures Slots(m) == 16 * (F.Word(d, 17) / 16)
    ensures m.ty == if F.Is12(d) then Fat12 else Fat16
  {
    hide EntryEnd, Eoc, IsPow2, Geometry, Sector, OrZero, F.Word, F.Long, F.TableSectors, F.TotalSectors;
    FieldsAreFormat(m, d);
    AreasAreFormat(m, d);
    assert (m.totalSec - m.firstDataSec) % U32 == m.totalSec - m.firstDataSec;
  }

  // ---------- the table ----------

  /** The entry of 12 bits at its byte, and as one of two in three bytes. */
  lemma Entry12Is(c: nat, b0: nat, b1: nat)
    requires b0 < 0x100 && b1 < 0x100
    ensures if c % 2 == 1 then (b0 + 0x100 * b1) / 0x10 == b0 / 16 + 16 * b1 && c + c / 2 == 3 * (c / 2) + 1
            else (b0 + 0x100 * b1) % 0x1000 == b0 + 256 * (b1 % 16) && c + c / 2 == 3 * (c / 2)
  {
    assert b0 + 0x100 * b1 == 16 * (b0 / 16 + 16 * b1) + b0 % 16;
    assert b0 + 0x100 * b1 == 0x1000 * (b1 / 16) + (b0 + 256 * (b1 % 16));
  }

  /** The volume's table entries are the disk's. */
  lemma EntryIsFormat(m: Mount, d: seq<byte>, c: nat)
    requires MountedFrom(m, d) && c < m.clusterCount + 2
    ensures View(m, d).fat[c] == F.TableEntry(d, c)
  {
    hide View, TablesFit, Straddles, OnDisk, F.DataClusters, F.Word, F.RootStart, F.DataStart, F.ClusterBytes, Slots, Geometry, Sector;
    GeometryIsFormat(m, d);
    EntryInView(m, d, c);
    var f := FirstCopy(m, d);
    var o := EntryOff(m.ty, c);
    assert OrZero(d, SECTOR * m.rsvdSec + o) == f[o] as nat && OrZero(d, SECTOR * m.rsvdSec + o + 1) == f[o + 1] as nat;
    EntryAtBytes(d, m.ty, f, SECTOR * m.rsvdSec, c);
  }

  lemma EntryAtBytes(d: seq<byte>, ty: FatType, f: seq<byte>, base: nat, c: nat)
    requires !ty.Fat32? && EntryEnd(ty, c) <= |f| && base == 512 * F.Word(d, 14)
    requires OrZero(d, base + EntryOff(ty, c)) == f[EntryOff(ty, c)] as nat
    requires OrZero(d, base + EntryOff(ty, c) + 1) == f[EntryOff(ty, c) + 1] as nat
    requires ty.Fat12? <==> F.Is12(d)
    ensures Entry(ty, f, c) == F.TableEntry(d, c)
  {
    hide OrZero, F.Is12;
    var o := EntryOff(ty, c);
    if ty.Fat12? {
      Entry12Is(c, f[o] as nat, f[o + 1] as nat);
    }
  }

  // ---------- slots and clusters ----------

  /** The volume's directory slots are the disk's. */
  lemma SlotIsFormat(m: Mount, d: seq<byte>, k: nat, i: nat)
    requires MountedFrom(m, d) && k < Slots(m) && i < 32
    ensures |View(m, d).dir| == Slots(m) && |View(m, d).dir[k]| == 32
    ensures OrZero(d, F.SlotStart(d, k) + i) == View(m, d).dir[k][i] as nat
  {
    hide View, Chunks, FatSeq, FatCopy, OnDisk, F.RootStart, Geometry, RootSecs, DataArea, Slots, ClusSize;
    GeometryIsFormat(m, d);
    ViewIs(m, d);
    ChunkAt(RootArea(m, d), 32, Slots(m), k);
  }

  /** The volume's clusters are the disk's. */
  lemma ClusterIsFormat(m: Mount, d: seq<byte>, c: nat, o: nat)
    requires MountedFrom(m, d) && 2 <= c < m.clusterCount + 2 && o < ClusSize(m)
    ensures |View(m, d).data| == m.clusterCount && |View(m, d).data[c - 2]| == ClusSize(m)
    ensures OrZero(d, F.ClusterStart(d, c) + o) == View(m, d).data[c - 2][o] as nat
  {
    hide View, Chunks, FatSeq, FatCopy, OnDisk, F.RootStart, F.DataStart, F.ClusterBytes, Geometry, RootSecs, RootArea, Slots, ClusSize, Sector, OrZero, CopyAt,
         EntryEnd, Splice;
    GeometryIsFormat(m, d);
    ViewIs(m, d);
    ChunkAt(DataArea(m, d), ClusSize(m), m.clusterCount, c - 2);
    ByteBehind(d, SECTOR * m.firstDataSec, ClusSize(m) * (c - 2), ClusSize(m), o);
    assert (c - 2) * ClusSize(m) == ClusSize(m) * (c - 2);
  }

  lemma ByteBehind(d: seq<byte>, base: nat, at: nat, len: nat, o: nat)
    requires base <= |d| && at + len <= |d| - base && o < len
    ensures d[base..][at..at + len][o] as nat == OrZero(d, base + at + o)
  {
  }

  // ---------- chains ----------

  /** A chain as links between its neighbours. */
  lemma {:induction false} IsChainIff(ty: FatType, fat: seq<nat>, ch: seq<nat>)
    requires |fat| <= Eoc(ty)
    ensures IsChain(ty, fat, ch) <==>
            && ch != []
            && (forall i :: 0 <= i < |ch| ==> 2 <= ch[i] < |fat|)
            && (forall i :: 0 <= i < |ch| - 1 ==> fat[ch[i]] == ch[i + 1])
            && fat[ch[|ch| - 1]] >= Eoc(ty)
  {
    if |ch| > 1 {
      var t := ch[1..];
      IsChainIff(ty, fat, t);
      if IsChain(ty, fat, ch) {
        ChainMembers(ty, fat, ch);
        forall i | 0 <= i < |ch| - 1
          ensures fat[ch[i]] == ch[i + 1]
        {
          if i > 0 {
            assert fat[t[i - 1]] == t[i - 1 + 1];
          }
        }
      } else if ch != [] && (forall i :: 0 <= i < |ch| ==> 2 <= ch[i] < |fat|) && forall i :: 0 <= i < |ch| - 1 ==> fat[ch[i]] == ch[i + 1] {
        forall i | 0 <= i < |t| - 1
          ensures fat[t[i]] == t[i + 1]
        {
          assert fat[ch[i + 1]] == ch[i + 1 + 1];
        }
        assert fat[ch[0]] == ch[0 + 1];
      }
    }
  }

  /** The volume's chains are the disk's. */
  lemma ChainIsFormat(m: Mount, d: seq<byte>, ch: seq<nat>)
    requires MountedFrom(m, d)
    ensures IsChain(m.ty, View(m, d).fat, ch) <==> F.ChainOnDisk(d, ch)
  {
    hide View, OnDisk, Geometry, Sector, F.DataClusters, F.TableEntry, F.Is12, Slots, ClusSize;
    GeometryIsFormat(m, d);
    var fat := View(m, d).fat;
    IsChainIff(m.ty, fat, ch);
    forall c: nat | c < m.clusterCount + 2
      ensures fat[c] == F.TableEntry(d, c)
    {
      EntryIsFormat(m, d, c);
    }
  }

  // ---------- contents ----------

  /** Which cluster of a chain a byte lies in. */
  lemma InWhichCluster(cs: nat, i: nat, n: nat)
    requires cs > 0
    ensures i < Span(cs, n) <==> i / cs < n
    ensures Span(cs, i / cs) + i % cs == i
  {
    SpanIsProduct(cs, i);
    AtLeastOne(cs, i);
    BytePlace(cs, i, i);
    if i <= Span(cs, n) {
      BytePlace(cs, i, n);
    } else {
      SpanGrows(cs, n, i);
      BytePlace(cs, i, i + 1);
    }
  }

  /** The bytes along a chain are the disk's. */
  lemma FlatIsFormat(m: Mount, d: seq<byte>, ch: seq<nat>, i: nat)
    requires MountedFrom(m, d) && (ch == [] || IsChain(m.ty, View(m, d).fat, ch))
    ensures F.ClusterBytes(d) > 0
    ensures i < |Flat(View(m, d).data, ch)| <==> i / F.ClusterBytes(d) < |ch|
    ensures i / F.ClusterBytes(d) < |ch| ==> F.ChainByte(d, ch, i) == Flat(View(m, d).data, ch)[i] as nat
  {
    hide View, OnDisk, Geometry, Sector, F.ClusterBytes, F.ClusterStart, F.DataClusters, Slots, ClusSize, Flat, OrZero;
    GeometryIsFormat(m, d);
    var v := View(m, d);
    InWhichCluster(v.clusSize, i, |ch|);
    if ch == [] {
      NoBytes(v);
    } else {
      ChainFlat(v, ch);
      if i / v.clusSize < |ch| {
        FlatWindow(v, ch, i / v.clusSize);
        ClusterIsFormat(m, d, ch[i / v.clusSize], i % v.clusSize);
      }
    }
  }

  lemma NoBytes(v: Volume)
    ensures Flat(v.data, []) == [] && Span(v.clusSize, 0) == 0
  {
  }

  // ---------- files ----------

  lemma FieldIsFormat(m: Mount, d: seq<byte>, k: nat)
    requires MountedFrom(m, d) && k < Slots(m)
    ensures |View(m, d).dir| == Slots(m) && |View(m, d).dir[k]| == 32
    ensures var e := View(m, d).dir[k];
            && OrZero(d, F.SlotStart(d, k)) == e[0] as nat && OrZero(d, F.SlotStart(d, k) + 11) == e[11] as nat
            && FirstOf(e) == F.Word(d, F.SlotStart(d, k) + 26) + 65536 * F.Word(d, F.SlotStart(d, k) + 20)
            && SizeOf(e) == F.Long(d, F.SlotStart(d, k) + 28)
            && forall i :: 0 <= i < 11 ==> OrZero(d, F.SlotStart(d, k) + i) == e[i] as nat
  {
    hide View, OrZero, F.SlotStart, Sound, Geometry, Sector, Slots;
    forall i: nat | i < 32
      ensures |View(m, d).dir| == Slots(m) && |View(m, d).dir[k]| == 32
      ensures OrZero(d, F.SlotStart(d, k) + i) == View(m, d).dir[k][i] as nat
    {
      SlotIsFormat(m, d, k, i);
    }
  }

  lemma HeadsAreFormat(m: Mount, d: seq<byte>)
    requires MountedFrom(m, d)
    ensures |View(m, d).dir| == Slots(m) == 16 * (F.Word(d, 17) / 16)
    ensures forall j :: 0 <= j < Slots(m) ==> |View(m, d).dir[j]| == 32 && OrZero(d, F.SlotStart(d, j)) == View(m, d).dir[j][0] as nat
  {
    hide View, OrZero, F.SlotStart, Sound, Geometry, Sector, Slots, F.Word, F.Long;
    GeometryIsFormat(m, d);
    ViewIs(m, d);
    forall j: nat | j < Slots(m)
      ensures |View(m, d).dir[j]| == 32 && OrZero(d, F.SlotStart(d, j)) == View(m, d).dir[j][0] as nat
    {
      FieldIsFormat(m, d, j);
    }
  }

  /** The slots a walk returns are those the disk lists. */
  lemma ListsIff(m: Mount, d: seq<byte>, k: nat, name: seq<byte>)
    requires MountedFrom(m, d) && Tidy(View(m, d).dir) && |name| == 11
    ensures F.Lists(d, k, name) <==> Used(View(m, d).dir, k) && NameOf(View(m, d).dir[k]) == name
  {
    hide View, OrZero, F.SlotStart, Sound, Geometry, Sector, Slots, F.Word, F.Long, SizeOf, FirstOf, ClusSize;
    HeadsAreFormat(m, d);
    if k < Slots(m) {
      FieldIsFormat(m, d, k);
    }
  }

  /** The chain of a file is the one the disk has for its slot. */
  lemma OwnedIsFormat(m: Mount, d: seq<byte>, k: nat, ch: seq<nat>)
    requires MountedFrom(m, d) && Shape(View(m, d)) && Used(View(m, d).dir, k) && SlotOk(View(m, d), k)
    ensures F.ChainOfSlot(d, k, ch) <==> ch == Owned(View(m, d), k)
  {
    hide View, OrZero, F.SlotStart, Sound, Geometry, Sector, Slots, F.Word, F.Long, SizeOf, FirstOf, IsChain, F.ChainOnDisk, ClusSize;
    var v := View(m, d);
    HeadsAreFormat(m, d);
    FieldIsFormat(m, d, k);
    ChainIsFormat(m, d, ch);
    NoChainAtZero(v.ty, v.fat);
    if F.ChainOnDisk(d, ch) {
      ChainOfIs(v.ty, v.fat, ch);
    }
  }

  /** What the file of a slot holds is what the disk holds there. */
  lemma SlotHoldsIff(m: Mount, d: seq<byte>, k: nat, ch: seq<nat>, attr: byte, bytes: seq<byte>)
    requires MountedFrom(m, d) && Shape(View(m, d)) && Used(View(m, d).dir, k) && SlotOk(View(m, d), k)
    requires ch == Owned(View(m, d), k)
    ensures F.SlotHolds(d, k, ch, attr, bytes) <==> View(m, d).dir[k][11] == attr && Content(View(m, d), k) == bytes
  {
    hide View, OrZero, F.SlotStart, Sound, Geometry, Sector, Slots, F.Word, F.Long, SizeOf, FirstOf, Flat, F.ChainByte, F.ClusterBytes,
         IsChain, F.ChainOfSlot, ClusSize, F.ChainOnDisk;
    var v := View(m, d);
    HeadsAreFormat(m, d);
    FieldIsFormat(m, d, k);
    OwnedIsFormat(m, d, k, ch);
    ContentFits(v, k);
    FlatIsFormat(m, d, ch, 0);
    forall i: nat
      ensures (i < |Flat(v.data, ch)| <==> i / F.ClusterBytes(d) < |ch|)
      ensures i / F.ClusterBytes(d) < |ch| ==> F.ChainByte(d, ch, i) == Flat(v.data, ch)[i] as nat
    {
      FlatIsFormat(m, d, ch, i);
    }
    if F.SlotHolds(d, k, ch, attr, bytes) {
      forall i | 0 <= i < |bytes|
        ensures Content(v, k)[i] == bytes[i]
      {
        assert i / F.ClusterBytes(d) < |ch|;
      }
      assert Content(v, k) == bytes;
    }
    if v.dir[k][11] == attr && Content(v, k) == bytes {
      forall i | 0 <= i < |bytes|
        ensures i / F.ClusterBytes(d) < |ch| && F.ChainByte(d, ch, i) == bytes[i] as nat
      {
        assert bytes[i] == Flat(v.data, ch)[i];
      }
      assert F.SlotHolds(d, k, ch, attr, bytes);
    }
  }

  /** The files of the volume are exactly those the disk holds. */
  lemma LookupIsFormat(m: Mount, d: seq<byte>, name: seq<byte>, attr: byte, bytes: seq<byte>)
    requires MountedFrom(m, d) && Sane(View(m, d)) && |name| == 11
    ensures Lookup(View(m, d), name) == Some(File(attr, bytes)) <==> F.Holds(d, name, attr, bytes)
    ensures Lookup(View(m, d), name).Some? <==> F.Named(d, name)
  {
    hide View, Lookup, F.Lists, F.SlotHolds, Sound, Geometry, Sector, F.ChainOfSlot, Content, Owned, SlotsApart;
    var v := View(m, d);
    LookupNone(v, name);
    forall k: nat
      ensures F.Lists(d, k, name) <==> Used(v.dir, k) && NameOf(v.dir[k]) == name
    {
      ListsIff(m, d, k, name);
    }
    forall k, ch | F.Lists(d, k, name)
      ensures F.SlotHolds(d, k, ch, attr, bytes) <==> Lookup(v, name) == Some(File(attr, bytes)) && ch == Owned(v, k)
    {
      assert SlotOk(v, k);
      LookupSlot(v, k);
      OwnedIsFormat(m, d, k, ch);
      HoldsChain(d, k, ch, attr, bytes);
      SlotHoldsIff(m, d, k, Owned(v, k), attr, bytes);
    }
    if k: nat :| F.Lists(d, k, name) {
      assert F.SlotHolds(d, k, Owned(v, k), attr, bytes) <==> Lookup(v, name) == Some(File(attr, bytes));
    }
  }

  lemma HoldsChain(d: seq<byte>, k: nat, ch: seq<nat>, attr: byte, bytes: seq<byte>)
    ensures F.SlotHolds(d, k, ch, attr, bytes) ==> F.ChainOfSlot(d, k, ch)
  {
  }

  // ---------- room ----------

  lemma FreeSlotIff(m: Mount, d: seq<byte>)
    requires MountedFrom(m, d)
    ensures FirstVacant(View(m, d).dir, 0) < |View(m, d).dir| <==> F.HasFreeSlot(d)
  {
    hide View, OrZero, F.SlotStart, Sound, Geometry, Sector, Slots, F.Word;
    HeadsAreFormat(m, d);
    var dir := View(m, d).dir;
    var s := FirstVacant(dir, 0);
    if s < |dir| {
      assert OrZero(d, F.SlotStart(d, s)) == dir[s][0] as nat;
    }
  }

  lemma {:induction false} FreeIsFormat(m: Mount, d: seq<byte>, c: nat)
    requires MountedFrom(m, d) && c <= m.clusterCount + 2
    ensures m.clusterCount == F.DataClusters(d) && |View(m, d).fat| == m.clusterCount + 2
    ensures FatVolume.FreeFrom(View(m, d).fat, c) == F.FreeFrom(d, c)
    decreases m.clusterCount + 2 - c
  {
    hide View, Sound, Geometry, Sector, F.TableEntry, F.DataClusters;
    GeometryIsFormat(m, d);
    ViewIs(m, d);
    if c < m.clusterCount + 2 {
      EntryIsFormat(m, d, c);
      FreeIsFormat(m, d, c + 1);
    }
  }

  /** There is room for a file of `n` bytes on the volume exactly when there is room on the disk. */
  lemma RoomIsFormat(m: Mount, d: seq<byte>, name: seq<byte>, n: nat)
    requires MountedFrom(m, d) && Sane(View(m, d)) && |name| == 11
    ensures var v := View(m, d);
            (Lookup(v, name).Some? || FirstVacant(v.dir, 0) < |v.dir|) && n <= Span(v.clusSize, FreeCount(v) + |OwnedBy(v, name)|)
            <==> F.HasRoom(d, name, n)
  {
    hide View, Lookup, F.Lists, F.ChainOfSlot, Sound, Geometry, Sector, Content, Owned, SlotsApart, F.ClusterBytes, F.HasFreeSlot,
         FatVolume.FreeFrom, F.FreeFrom, F.DataClusters, ClusSize, Slots;
    var v := View(m, d);
    GeometryIsFormat(m, d);
    FreeSlotIff(m, d);
    FreeIsFormat(m, d, 2);
    LookupNone(v, name);
    SpanIsProduct(v.clusSize, FreeCount(v) + |OwnedBy(v, name)|);
    forall k: nat
      ensures F.Lists(d, k, name) <==> Used(v.dir, k) && NameOf(v.dir[k]) == name
    {
      ListsIff(m, d, k, name);
    }
    forall k, ch | F.Lists(d, k, name)
      ensures F.ChainOfSlot(d, k, ch) <==> ch == OwnedBy(v, name)
    {
      assert SlotOk(v, k);
      LookupSlot(v, k);
      OwnedIsFormat(m, d, k, ch);
    }
    if k: nat :| F.Lists(d, k, name) {
      assert F.ChainOfSlot(d, k, OwnedBy(v, name));
    } else {
      assert !F.Named(d, name);
      NotOwned(v, name);
    }
  }

  lemma NotOwned(v: Volume, name: seq<byte>)
    requires Sane(v) && Lookup(v, name) == None
    ensures OwnedBy(v, name) == []
  {
  }
}
