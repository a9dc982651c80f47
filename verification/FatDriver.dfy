/** The FAT driver (fat.c): file-scope buffers, cache flags and mount record as one object. */
module FatDriver {
  import opened Bytes
  import opened FatTable
  import opened FatVolume
  import opened FatLayout
  import opened RamDiskDevice
  import opened FatNames
  import opened FatWrites
  import opened FatSteps
  import opened FatChains
  import opened FatReads

  /** wr16: store the low 16 bits in place. */
  method Wr16(buf: array<byte>, o: nat, v: nat)
    requires o + 2 <= buf.Length
    modifies buf
    ensures buf[..] == Put16(old(buf[..]), o, v)
  {
    buf[o] := v % 0x100;
    buf[o + 1] := v / 0x100 % 0x100;
  }

  /** wr32: store the low 32 bits in place. */
  method Wr32(buf: array<byte>, o: nat, v: nat)
    requires o + 4 <= buf.Length
    modifies buf
    ensures buf[..] == Put32(old(buf[..]), o, v)
  {
    Wr16(buf, o, v);
    Wr16(buf, o + 2, v / 0x1_0000);
  }

  /** fat_dir_iter_t, for a walk of the fixed root area. */
  class DirIter {
    var curLba: nat
    var entIdx: nat
    const buf: array<byte>
    var bufLba: nat
    var bufValid: bool

    /** fat_diropen_root. */
    constructor (firstRootSec: nat)
      ensures curLba == firstRootSec && entIdx == 0 && !bufValid && fresh(buf) && buf.Length == SECTOR
    {
      curLba, entIdx, bufLba, bufValid := firstRootSec, 0, 0, false;
      buf := new byte[SECTOR];
    }
  }

  /** fat_file_t. */
  class FatFile {
    var inUse: bool
    var firstClus: nat
    var curClus: nat
    var curPos: nat
    var fileSize: nat
    var dirLba: nat
    var dirOff: nat
    var attr: byte

    constructor ()
    {
      inUse, firstClus, curClus, curPos, fileSize, dirLba, dirOff, attr := false, 0, 0, 0, 0, 0, 0, 0;
    }
  }

  class Driver {
    const dev: RamDisk
    /** The data-sector cache, `sec_buf`. */
    const secBuf: array<byte>
    var secLba: nat
    var secValid: bool
    /** The scratch sector `fat_wbuf`, which is also the table-sector cache `fat_buf`. */
    const wbuf: array<byte>
    var fatLba: nat
    var fatValid: bool
    var m: Mount
    /** `M.valid`: the record describes a mounted volume. */
    var valid: bool

    constructor (dev: RamDisk, m: Mount)
      requires dev.Valid()
      ensures Wired() && Coherent() && this.dev == dev && this.m == m && !valid && fresh(secBuf) && fresh(wbuf)
    {
      this.dev, this.m, valid := dev, m, false;
      secBuf := new byte[SECTOR];
      wbuf := new byte[SECTOR];
      secLba, secValid, fatLba, fatValid := 0, false, 0, false;
    }

    /** The buffers are separate arrays of one sector each. */
    ghost predicate Wired() {
      && dev.Valid()
      && secBuf.Length == SECTOR && wbuf.Length == SECTOR
      && secBuf != wbuf && secBuf != dev.shadow && wbuf != dev.shadow
    }

    ghost function Disk(): (d: seq<byte>)
      requires Wired()
      reads dev, dev.shadow
      ensures |d| == |dev.factory|
    {
      dev.Contents()
    }

    /** Cache transparency: a buffer whose flag is set holds the named sector of the disk. */
    ghost predicate Coherent()
      requires Wired()
      reads this, dev, dev.shadow, secBuf, wbuf
    {
      SecTruthful() && (fatValid ==> fatLba < dev.Sectors() && wbuf[..] == Sector(Disk(), fatLba))
    }

    /** The data-sector cache's half of it. */
    ghost predicate SecTruthful()
      requires Wired()
      reads this, dev, dev.shadow, secBuf
    {
      secValid ==> secLba < dev.Sectors() && secBuf[..] == Sector(Disk(), secLba)
    }

    /** read_sec: through the data-sector cache into `dst`. */
    method ReadSec(lba: nat, dst: array<byte>) returns (rc: int)
      requires Wired() && Coherent() && lba < U32
      requires dst.Length == SECTOR && dst != secBuf && dst != dev.shadow && (dst == wbuf ==> !fatValid)
      modifies `secLba, `secValid, dev, dev.shadow, secBuf, dst
      ensures Coherent() && Disk() == old(Disk()) && (dst != wbuf ==> wbuf[..] == old(wbuf[..]))
      ensures rc == 0 <==> lba < dev.Sectors()
      ensures rc == 0 ==> dst[..] == Sector(Disk(), lba)
    {
      if secValid && secLba == lba {
        CopyBytes(secBuf, 0, dst, 0, SECTOR);
        assert dst[..] == secBuf[..];
        return 0;
      }
      rc := dev.BlkRead(lba, 1, secBuf);
      if rc != 0 {
        return -1;
      }
      secLba, secValid := lba, true;
      CopyBytes(secBuf, 0, dst, 0, SECTOR);
      assert dst[..] == secBuf[..];
    }

    /**
     read_fat_sec: the scratch sector is taken to hold table sector `lba` when the flag says so, and read otherwise.
     It does hold it when the flag was truthful.
     */
    method ReadFatSec(lba: nat) returns (rc: int)
      requires Wired() && lba < U32
      modifies `fatLba, `fatValid, dev, dev.shadow, wbuf
      ensures Disk() == old(Disk()) && (old(Coherent()) ==> Coherent())
      ensures rc == 0 <==> old(fatValid && fatLba == lba) || lba < dev.Sectors()
      ensures rc == 0 ==> fatValid && fatLba == lba
      ensures old(fatValid && fatLba == lba) ==> wbuf[..] == old(wbuf[..])
      ensures rc == 0 && (old(Coherent()) || !old(fatValid && fatLba == lba)) ==> lba < dev.Sectors() && wbuf[..] == Sector(Disk(), lba)
    {
      if fatValid && fatLba == lba {
        return 0;
      }
      rc := dev.BlkRead(lba, 1, wbuf);
      if rc != 0 {
        return -1;
      }
      fatLba, fatValid := lba, true;
      assert wbuf[..] == wbuf[..SECTOR];
    }

    /** blk_read into the scratch sector, for a read-modify-write. */
    method ReadScratch(lba: nat) returns (rc: int)
      requires Wired() && lba < U32
      modifies dev, dev.shadow, wbuf
      ensures Disk() == old(Disk()) && (old(SecTruthful()) ==> SecTruthful()) && (old(Coherent()) && !fatValid ==> Coherent())
      ensures rc == 0 <==> lba < dev.Sectors()
      ensures rc == 0 ==> wbuf[..] == Sector(Disk(), lba)
    {
      rc := dev.BlkRead(lba, 1, wbuf);
      assert wbuf[..] == wbuf[..SECTOR];
    }

    /** write_sec from the scratch sector; a cached copy of the same sector is dropped. */
    method WriteSec(lba: nat) returns (rc: int)
      requires Wired() && lba < U32
      modifies `secValid, `fatValid, dev, dev.shadow
      ensures (old(Coherent()) ==> Coherent()) && (old(SecTruthful()) ==> SecTruthful())
      ensures rc == 0 <==> lba < dev.Sectors()
      ensures fatValid == (old(fatValid) && !(rc == 0 && fatLba == lba))
      ensures rc == 0 ==> Disk() == PutSector(old(Disk()), lba, wbuf[..])
      ensures rc != 0 ==> Disk() == old(Disk())
    {
      rc := dev.BlkWrite(lba, 1, wbuf);
      if rc != 0 {
        return -1;
      }
      assert wbuf[..] == wbuf[..SECTOR];
      if secValid && secLba == lba {
        secValid := false;
      }
      if fatValid && fatLba == lba {
        fatValid := false;
      }
      ghost var d := old(Disk());
      if secValid && secLba < dev.Sectors() {
        SectorAfterPut(d, lba, wbuf[..], secLba);
      }
      if fatValid && fatLba < dev.Sectors() {
        SectorAfterPut(d, lba, wbuf[..], fatLba);
      }
    }

    // ---------- the table ----------

    /** The entry of `c` lies in the first copy of the table, and all copies lie on the disk. */
    ghost predicate HasEntry(c: nat)
      requires Wired()
      reads this, dev, dev.shadow
    {
      TablesFit(m, Disk()) && EntryEnd(m.ty, c) <= SECTOR * m.fatSec
    }

    ghost function Table(): (f: seq<byte>)
      requires Wired() && TablesFit(m, Disk())
      reads this, dev, dev.shadow
      ensures |f| == SECTOR * m.fatSec
    {
      FirstCopy(m, Disk())
    }

    /** The scratch sector is taken to hold the one sector in which the entry lies. */
    predicate Believed(clus: nat)
      reads this
    {
      fatValid && fatLba == EntrySector(m, clus) && !Straddles(m.ty, clus)
    }

    /** The scratch sector holds the table sector its flag says. */
    ghost predicate TableTruthful()
      requires Wired()
      reads this, dev, dev.shadow, wbuf
    {
      fatValid && fatLba < dev.Sectors() && wbuf[..] == Sector(Disk(), fatLba)
    }

    /** A 12-bit entry, whose second byte may lie in the next sector. */
    method Entry12(clus: nat) returns (entry: nat)
      requires Wired() && HasEntry(clus) && m.ty.Fat12?
      modifies `fatLba, `fatValid, dev, dev.shadow, wbuf
      ensures Disk() == old(Disk()) && fatValid && fatLba == EntrySector(m, clus) && (old(Coherent()) ==> Coherent())
      ensures old(Believed(clus)) ==> wbuf[..] == old(wbuf[..]) && entry == SectorEntry(m.ty, wbuf[..], clus)
      ensures old(Coherent()) || !old(Believed(clus)) ==> TableTruthful() && entry == Entry(m.ty, Table(), clus)
    {
      hide Entry, Sector, FatCopy, EntryOff, EntryEnd, TablesFit;
      entry := NO_CLUSTER;
      var off := EntryOff(m.ty, clus);
      var lba := m.rsvdSec + off / SECTOR;
      var idx := off % SECTOR;
      EntryOnDisk(m, Disk(), clus);
      var rc := ReadFatSec(lba);
      if rc != 0 {
        return;
      }
      var b0 := wbuf[idx] as nat;
      var b1;
      if idx == SECTOR - 1 {
        rc := ReadFatSec(lba + 1);
        if rc != 0 {
          return;
        }
        rc := ReadFatSec(lba);
        if rc != 0 {
          return;
        }
        b0 := wbuf[idx] as nat;
        rc := ReadFatSec(lba + 1);
        if rc != 0 {
          return;
        }
        b1 := wbuf[0] as nat;
      } else {
        b1 := wbuf[idx + 1] as nat;
      }
      entry := Unpack12(clus, b0, b1);
    }

    /** A 16- or 28-bit entry, which lies inside one sector. */
    method EntryWide(clus: nat) returns (entry: nat)
      requires Wired() && HasEntry(clus) && !m.ty.Fat12?
      modifies `fatLba, `fatValid, dev, dev.shadow, wbuf
      ensures Disk() == old(Disk()) && fatValid && fatLba == EntrySector(m, clus) && (old(Coherent()) ==> Coherent())
      ensures old(Believed(clus)) ==> wbuf[..] == old(wbuf[..]) && entry == SectorEntry(m.ty, wbuf[..], clus)
      ensures old(Coherent()) || !old(Believed(clus)) ==> TableTruthful() && entry == Entry(m.ty, Table(), clus)
    {
      hide Entry, Sector, FatCopy, EntryOff, EntryEnd, TablesFit;
      entry := NO_CLUSTER;
      var off := EntryOff(m.ty, clus);
      var lba := m.rsvdSec + off / SECTOR;
      EntryOnDisk(m, Disk(), clus);
      var rc := ReadFatSec(lba);
      if rc != 0 {
        return;
      }
      entry := SectorEntry(m.ty, wbuf[..], clus);
    }

    /**
     fat_next_clus: the entry of `clus`, through the table-sector cache. A flag that is set for the entry's one sector is
     believed, whatever the buffer holds; else the entry comes from the disk.
     */
    method NextClus(clus: nat) returns (r: nat)
      requires Wired() && HasEntry(clus)
      modifies `fatLba, `fatValid, dev, dev.shadow, wbuf
      ensures Disk() == old(Disk()) && fatValid && fatLba == EntrySector(m, clus) && (old(Coherent()) ==> Coherent())
      ensures old(Believed(clus)) ==> wbuf[..] == old(wbuf[..]) && r == NextOf(m.ty, SectorEntry(m.ty, wbuf[..], clus))
      ensures old(Coherent()) || !old(Believed(clus)) ==> TableTruthful() && r == NextOf(m.ty, Entry(m.ty, Table(), clus))
    {
      hide Entry, SectorEntry, EntrySector;
      var entry;
      if m.ty.Fat12? {
        entry := Entry12(clus);
      } else {
        entry := EntryWide(clus);
      }
      r := NextOf(m.ty, entry);
    }

    /** The in-place edit of the scratch sector for an entry that lies inside it. */
    method PatchScratch(idx: nat, clus: nat, value: nat)
      requires Wired() && Coherent() && !fatValid && idx + (if m.ty.Fat32? then 4 else 2) <= SECTOR
      modifies wbuf
      ensures Coherent()
      ensures wbuf[..] == PatchSector(m.ty, old(wbuf[..]), idx, clus, value)
    {
      match m.ty {
        case Fat16 =>
          Wr16(wbuf, idx, value);
        case Fat32 =>
          var cur := Le32(wbuf[..], idx) / 0x1000_0000 * 0x1000_0000;
          Wr32(wbuf, idx, cur + value % 0x1000_0000);
        case Fat12 =>
          var (b0, b1) := Nibbles(clus, wbuf[idx], wbuf[idx + 1], value);
          wbuf[idx] := b0;
          wbuf[idx + 1] := b1;
      }
    }

    /** The scratch sector is about to be overwritten. */
    method DropTableCache()
      requires Wired() && Coherent()
      modifies `fatValid
      ensures Coherent() && !fatValid
    {
      fatValid := false;
    }

    /** Writing the scratch sector as sector `j` of every copy of the table. */
    method StoreCopies(lba: nat, ghost j: nat, ghost f': seq<byte>, ghost f: seq<byte>) returns (rc: int)
      requires Wired() && Coherent() && !fatValid
      requires j < m.fatSec && |f| == SECTOR * m.fatSec && lba == m.rsvdSec + j
      requires m.numFats >= 1 && CopiesAre(m, Disk(), 0, f', f) && PutSector(f, j, wbuf[..]) == f'
      modifies `secValid, `fatValid, dev, dev.shadow
      ensures Coherent() && !fatValid
      ensures rc == 0 && CopiesAre(m, Disk(), m.numFats, f', f) && SameAround(m, old(Disk()), Disk())
    {
      hide PutSector, Coherent, SameAround, CopiesAre, Sector;
      ghost var d0 := Disk();
      CopiesOnDevice(m, d0, 0, f', f);
      StoreNextCopy(m, d0, 0, f', f, j, wbuf[..]);
      rc := WriteSec(lba);
      if rc != 0 {
        return;
      }
      for i := 1 to m.numFats
        invariant Coherent() && !fatValid && rc == 0
        invariant CopiesAre(m, Disk(), i, f', f) && SameAround(m, d0, Disk())
      {
        ghost var d := Disk();
        CopiesOnDevice(m, d, i, f', f);
        StoreNextCopy(m, d, i, f', f, j, wbuf[..]);
        rc := WriteSec(lba + i * m.fatSec);
        if rc != 0 {
          return;
        }
        AroundTrans(m, d0, d, Disk());
      }
    }

    /** An entry inside one sector: one patched sector, written to every copy. */
    method SetInside(clus: nat, value: nat) returns (rc: int)
      requires Wired() && Coherent() && HasEntry(clus) && Mirrored(m, Disk()) && !Straddles(m.ty, clus)
      modifies `secValid, `fatValid, dev, dev.shadow, wbuf
      ensures Coherent() && !fatValid && TablesFit(m, old(Disk()))
      ensures rc == 0 && EntrySet(m, old(Disk()), Disk(), clus, value)
    {
      hide PutSector, CopyAt, FatCopy, SameAround, CopiesAre, TablesFit, PatchSector, PutEntry, Mirrored, Coherent, Sector,
           EntryOff, EntryEnd, Straddles;
      var off := EntryOff(m.ty, clus);
      var lba := m.rsvdSec + off / SECTOR;
      var idx := off % SECTOR;
      ghost var d0, f := Disk(), Table();
      ghost var f' := PutEntry(m.ty, f, clus, value);
      DropTableCache();
      EntryOnDisk(m, d0, clus);
      CopySector(m, d0, 0, off / SECTOR);
      PatchedSector(m.ty, f, clus, value);
      EntryWidth(m.ty, clus);
      CopiesFromMirror(m, d0);
      rc := ReadScratch(lba);
      if rc != 0 {
        return;
      }
      PatchScratch(idx, clus, value);
      rc := StoreCopies(lba, off / SECTOR, f', f);
      MirrorFromCopies(m, Disk(), f', f);
    }

    /** One pass of the straddling path; `n0` is the new byte at the end of sector `lba`. */
    method SetAcross(lba: nat, clus: nat, value: nat, n0: byte) returns (rc: int)
      requires Wired() && Coherent() && !fatValid && lba + 1 < dev.Sectors() < U32
      modifies `secValid, `fatValid, dev, dev.shadow, wbuf
      ensures Coherent() && !fatValid
      ensures rc == 0 && Disk() == AcrossPut(old(Disk()), lba, clus, value, n0)
    {
      hide PutSector, Sector, HighByte;
      rc := ReadScratch(lba);
      if rc != 0 {
        return;
      }
      SetScratch(SECTOR - 1, n0);
      rc := WriteSec(lba);
      if rc != 0 {
        return;
      }
      rc := ReadScratch(lba + 1);
      if rc != 0 {
        return;
      }
      SetScratch(0, HighByte(clus, wbuf[0], value));
      rc := WriteSec(lba + 1);
    }

    method SetScratch(i: nat, b: byte)
      requires Wired() && Coherent() && !fatValid && i < SECTOR
      modifies wbuf
      ensures Coherent() && wbuf[..] == old(wbuf[..])[i := b]
    {
      wbuf[i] := b;
    }

    /**
     fat_set_entry. An entry inside a sector is set in every copy of the table. The straddling path makes two passes
     whatever the number of copies, so it sets the entry in every copy only when there are two.
     */
    method SetEntry(clus: nat, value: nat) returns (rc: int)
      requires Wired() && Coherent() && HasEntry(clus) && Mirrored(m, Disk())
      requires m.numFats == 2 || !Straddles(m.ty, clus) || AcrossFits(m, Disk(), clus)
      modifies `secValid, `fatValid, dev, dev.shadow, wbuf
      ensures Coherent() && !fatValid && TablesFit(m, old(Disk()))
      ensures rc == 0 && (m.numFats == 2 || !Straddles(m.ty, clus) ==> EntrySet(m, old(Disk()), Disk(), clus, value))
      ensures Straddles(m.ty, clus) ==> AcrossFits(m, old(Disk()), clus) && Disk() == AcrossBoth(m, old(Disk()), clus, value)
    {
      hide PutSector, FatCopy, SameAround, CopiesAre, PatchSector, PutEntry, Mirrored, Coherent, Sector, EntryOff, EntryEnd,
           LowByte, HighByte, AcrossPut;
      var off := EntryOff(m.ty, clus);
      var idx := off % SECTOR;
      if m.ty.Fat12? && idx == SECTOR - 1 {
        var lba := m.rsvdSec + off / SECTOR;
        ghost var d0 := Disk();
        DropTableCache();
        EntryOnDisk(m, d0, clus);
        TwoFit(d0, clus);
        rc := ReadScratch(lba);
        if rc != 0 {
          return;
        }
        var n0 := LowByte(clus, wbuf[idx], value);
        rc := SetAcross(lba, clus, value, n0);
        rc := SetAcross(lba + m.fatSec, clus, value, n0);
        if m.numFats == 2 {
          AcrossWithTwo(m, d0, clus, value);
        }
      } else {
        rc := SetInside(clus, value);
      }
    }

    lemma TwoFit(d: seq<byte>, c: nat)
      requires TablesFit(m, d) && m.ty.Fat12? && Straddles(Fat12, c) && EntryEnd(Fat12, c) <= SECTOR * m.fatSec
      requires m.numFats == 2 || AcrossFits(m, d, c)
      ensures AcrossFits(m, d, c)
    {
      AcrossInside(m, c);
    }

    // ---------- the volume ----------

    /** A mounted FAT12/16 volume with equal tables and truthful caches. */
    ghost predicate Ready()
      reads this, dev, dev.shadow, secBuf, wbuf
    {
      valid && Wired() && Coherent() && OnDisk(m, Disk()) && TablesFit(m, Disk()) && Mirrored(m, Disk())
    }

    ghost function Vol(): (v: Volume)
      requires Wired() && OnDisk(m, Disk())
      reads this, dev, dev.shadow
      ensures Shape(v) && v.ty == m.ty && v.clusSize == ClusSize(m)
      ensures |v.fat| == m.clusterCount + 2 && |v.dir| == Slots(m)
    {
      View(m, Disk())
    }

    method Next(c: nat) returns (r: nat)
      requires Ready() && c < m.clusterCount + 2
      modifies `fatLba, `fatValid, dev, dev.shadow, wbuf
      ensures Ready() && Disk() == old(Disk()) && fatValid && fatLba == EntrySector(m, c)
      ensures r == NextOf(m.ty, Vol().fat[c])
    {
      hide EntrySector, SectorEntry, Coherent, Mirrored, OnDisk, TablesFit, EntryEnd, Entry, FirstCopy, View;
      EntryInView(m, Disk(), c);
      r := NextClus(c);
    }

    method Set(c: nat, value: nat) returns (rc: int)
      requires Ready() && c < m.clusterCount + 2
      modifies `secValid, `fatValid, dev, dev.shadow, wbuf
      ensures Ready() && !fatValid && BootKept(m, old(Disk()), Disk())
      ensures rc == 0 && Vol() == old(Vol()).(fat := old(Vol()).fat[c := Stored(m.ty, value)])
    {
      hide Coherent, Mirrored, OnDisk, TablesFit, EntryEnd, Entry, FirstCopy, View, EntrySet, BootKept, Straddles;
      ghost var d := Disk();
      EntryInView(m, d, c);
      rc := SetEntry(c, value);
      EntrySetInView(m, d, Disk(), c, value);
    }

    /** fat_count_free_clusters. */
    method CountFreeClusters() returns (n: nat)
      requires Ready()
      modifies `fatLba, `fatValid, dev, dev.shadow, wbuf
      ensures Ready() && Disk() == old(Disk())
      ensures n == FreeCount(Vol())
    {
      hide Coherent, Mirrored, OnDisk, TablesFit, View;
      var max := m.clusterCount + 2;
      n := 0;
      for c := 2 to max
        invariant Ready() && Disk() == old(Disk())
        invariant n + FreeFrom(Vol().fat, c) == FreeCount(Vol())
      {
        FreeFromNext(Vol().fat, c, max);
        var v := Next(c);
        if v == 0 {
          n := n + 1;
        }
      }
    }

    /** fat_alloc_cluster: the lowest free cluster, marked as the end of a chain, or 0 when the disk is full. */
    method AllocCluster() returns (r: nat)
      requires Ready()
      modifies `secValid, `fatLba, `fatValid, dev, dev.shadow, wbuf
      ensures Ready() && BootKept(m, old(Disk()), Disk())
      ensures var v := old(Vol());
              var c := FirstFree(v.fat, 2);
              if c == |v.fat| then r == 0 && Disk() == old(Disk())
              else r == c && !fatValid && Vol() == v.(fat := v.fat[c := EocMark(m.ty)])
    {
      hide Coherent, Mirrored, OnDisk, TablesFit, View;
      r := 0;
      var max := m.clusterCount + 2;
      for c := 2 to max
        invariant r == 0 && Ready() && Disk() == old(Disk())
        invariant FirstFree(Vol().fat, c) == FirstFree(Vol().fat, 2)
      {
        FreeFromNext(Vol().fat, c, max);
        var v := Next(c);
        if v == 0 {
          var rc := Set(c, EocMark(m.ty));
          if rc != 0 {
            return;
          }
          return c;
        }
      }
    }

    /** fat_free_chain; it ends on every table, because a cluster visited twice reads 0 the second time. */
    method FreeChain(first: nat) returns (rc: int)
      requires Ready()
      modifies `secValid, `fatLba, `fatValid, dev, dev.shadow, wbuf
      ensures Ready() && BootKept(m, old(Disk()), Disk())
      ensures old(!fatValid) ==> !fatValid
      ensures rc == 0 && Vol() == old(Vol()).(fat := Release(m.ty, old(Vol()).fat, first))
    {
      hide Coherent, Mirrored, OnDisk, TablesFit, View;
      var c: nat := first;
      ghost var v0 := Vol();
      while 2 <= c < m.clusterCount + 2
        invariant Ready() && BootKept(m, old(Disk()), Disk()) && (old(!fatValid) ==> !fatValid)
        invariant Vol() == v0.(fat := Vol().fat)
        invariant Release(m.ty, Vol().fat, c) == Release(m.ty, v0.fat, first)
        decreases |v0.fat| - FreeFrom(Vol().fat, 0), c
      {
        ghost var fat := Vol().fat;
        FreeFromUpdate(fat, c, 0, 0);
        var nxt := Next(c);
        rc := Set(c, 0);
        if rc != 0 {
          return -1;
        }
        if nxt == NO_CLUSTER {
          break;
        }
        c := nxt;
      }
      rc := 0;
    }

    // ---------- the root directory ----------

    ghost predicate Walking(it: DirIter)
      requires Wired()
      reads this, dev, dev.shadow, it, it.buf
    {
      && it.buf.Length == SECTOR && it.buf != dev.shadow && it.buf != secBuf && it.buf != wbuf
      && m.firstRootSec <= it.curLba < m.firstRootSec + RootSecs(m) && it.entIdx <= 16
      && (it.bufValid ==> it.bufLba < dev.Sectors() && it.buf[..] == Sector(Disk(), it.bufLba))
    }

    /** The number of slots the walk has passed. */
    ghost function Passed(it: DirIter): int
      reads this, it
    {
      16 * (it.curLba - m.firstRootSec) + it.entIdx
    }

    /** dir_load_sector. */
    method LoadDirSector(it: DirIter) returns (rc: int)
      requires Ready() && Walking(it)
      modifies it`bufLba, it`bufValid, it.buf, dev, dev.shadow
      ensures Ready() && Walking(it) && Disk() == old(Disk())
      ensures rc == 0 && it.buf[..] == Sector(Disk(), it.curLba)
    {
      hide Mirrored, OnDisk, TablesFit, RootSecs, Sector;
      RootSectorFits(m, Disk(), it.curLba - m.firstRootSec);
      if it.bufValid && it.bufLba == it.curLba {
        return 0;
      }
      rc := dev.BlkRead(it.curLba, 1, it.buf);
      if rc != 0 {
        return -1;
      }
      assert it.buf[..] == it.buf[..SECTOR];
      it.bufLba, it.bufValid := it.curLba, true;
      SectorOfDevice(Disk(), it.curLba);
    }

    lemma SectorOfDevice(d: seq<byte>, lba: nat)
      requires lba < |d| / SECTOR
      ensures SECTOR * lba + SECTOR <= |d| && d[SECTOR * lba..SECTOR * lba + SECTOR * 1] == Sector(d, lba)
    {
    }

    /** The slot the walk stands on; the walk moves past it. */
    method TakeSlot(it: DirIter) returns (e: seq<byte>)
      requires Ready() && Walking(it) && it.entIdx < 16 && it.buf[..] == Sector(Disk(), it.curLba)
      modifies it`entIdx
      ensures Ready() && Walking(it) && Disk() == old(Disk())
      ensures 0 <= old(Passed(it)) < Slots(m) && Passed(it) == old(Passed(it)) + 1 && it.entIdx >= 1
      ensures e == Vol().dir[old(Passed(it))] && SlotAt(m, it.curLba, (it.entIdx - 1) * 32, old(Passed(it)))
    {
      hide Mirrored, OnDisk, TablesFit, Sector, Coherent, View;
      ghost var p: nat := Passed(it);
      SlotInSector(m, Disk(), it.curLba, it.entIdx * 32, p);
      e := it.buf[it.entIdx * 32..it.entIdx * 32 + 32];
      assert e == it.buf[..][it.entIdx * 32..it.entIdx * 32 + 32];
      it.entIdx := it.entIdx + 1;
    }

    /** At the end of a sector: on to the next one, unless it was the last. */
    method NextDirSector(it: DirIter) returns (more: bool)
      requires Ready() && Walking(it) && it.entIdx == 16
      modifies it
      ensures Ready() && Walking(it) && Disk() == old(Disk()) && Passed(it) == old(Passed(it))
      ensures 0 <= Passed(it) <= Slots(m) && (more <==> Passed(it) < Slots(m)) && (more ==> it.entIdx == 0)
    {
      hide Mirrored, OnDisk, TablesFit, Sector, Coherent, View;
      more := it.curLba - m.firstRootSec + 1 < RootSecs(m);
      if more {
        it.curLba := it.curLba + 1;
        it.entIdx := 0;
        it.bufValid := false;
      }
    }

    /**
     fat_dirnext on the root, without long names: the next slot that is neither deleted nor a label,
     or 1 at the end of the directory.
     */
    method DirNext(it: DirIter) returns (rc: int, e: seq<byte>)
      requires Ready() && Walking(it)
      modifies it, it.buf, dev, dev.shadow
      ensures Ready() && Walking(it) && Disk() == old(Disk())
      ensures 0 <= old(Passed(it)) <= Slots(m)
      ensures var k := NextInUse(Vol().dir, old(Passed(it)));
              if k == Slots(m) then rc == 1
              else rc == 0 && e == Vol().dir[k] && Passed(it) == k + 1 && it.entIdx >= 1 && SlotAt(m, it.curLba, (it.entIdx - 1) * 32, k)
      ensures rc == 0 || rc == 1
      ensures rc == 0 ==> StopsAt(Vol().dir, old(Passed(it)), Passed(it) - 1) && e == Vol().dir[Passed(it) - 1]
      ensures rc == 1 ==> forall k :: !StopsAt(Vol().dir, old(Passed(it)), k)
    {
      hide Ready, HasAttr, Sector, View, SlotAt, OnDisk, Sound, Mirrored, TablesFit, StopsAt;
      PassedFits(it);
      forall k: int
        ensures StopsAt(Vol().dir, Passed(it), k) <==> k == NextInUse(Vol().dir, Passed(it)) < Slots(m)
      {
        NextInUseIff(Vol().dir, Passed(it), k);
      }
      ghost var dir := Vol().dir;
      ghost var start := Passed(it);
      e := [];
      while true
        invariant Ready() && Walking(it) && Disk() == old(Disk())
        invariant 0 <= start <= Passed(it) <= Slots(m) && NextInUse(dir, Passed(it)) == NextInUse(dir, start)
        decreases Slots(m) - Passed(it), it.entIdx
      {
        rc := LoadDirSector(it);
        if rc != 0 {
          return;
        }
        if it.entIdx >= SECTOR / 32 {
          var more := NextDirSector(it);
          if !more {
            rc := 1;
            return;
          }
          continue;
        }
        e := TakeSlot(it);
        if e[0] == 0 {
          rc := 1;
          return;
        }
        if e[0] != DELETED && !HasAttr(e, 8) {
          rc := 0;
          return;
        }
      }
    }

    lemma PassedFits(it: DirIter)
      requires Ready() && Walking(it)
      ensures OnDisk(m, Disk()) && Wired()
      ensures 0 <= Passed(it) <= Slots(m)
    {
    }

    /** fat_find_dirent: where the slot with the raw name lies. */
    method FindDirent(name: seq<byte>) returns (rc: int, lba: nat, off: nat)
      requires Ready() && |name| == 11
      modifies dev, dev.shadow
      ensures Ready() && Disk() == old(Disk())
      ensures var s := Find(Vol().dir, name, 0);
              if s == Slots(m) then rc == 1 else rc == 0 && SlotAt(m, lba, off, s)
    {
      hide Sector, View, SlotAt, OnDisk, Sound, Mirrored, TablesFit, Coherent, InUse;
      lba, off := 0, 0;
      var it := StartWalk();
      ghost var dir := Vol().dir;
      while true
        invariant Ready() && Walking(it) && fresh(it) && fresh(it.buf) && Disk() == old(Disk())
        invariant 0 <= Passed(it) <= Slots(m) && Find(dir, name, Passed(it)) == Find(dir, name, 0)
        decreases Slots(m) - Passed(it)
      {
        var e;
        rc, e := DirNext(it);
        if rc != 0 {
          return;
        }
        if NameOf(e) == name {
          lba, off := it.curLba, (it.entIdx - 1) * 32;
          return;
        }
      }
    }

    method StartWalk() returns (it: DirIter)
      requires Ready()
      ensures Ready() && Walking(it) && fresh(it) && fresh(it.buf) && Passed(it) == 0
      ensures Disk() == old(Disk())
    {
      hide Sector, View, Mirrored, TablesFit, Coherent;
      it := new DirIter(m.firstRootSec);
    }

    /** The scan of one sector of the root in the scratch sector. */
    method ScanSector(j: nat) returns (found: bool, off: nat)
      requires Ready() && !fatValid && j < RootSecs(m) && m.firstRootSec + j < dev.Sectors()
      requires wbuf[..] == Sector(Disk(), m.firstRootSec + j)
      ensures var s := FirstVacant(Vol().dir, 16 * j);
              if found then s < Slots(m) && SlotAt(m, m.firstRootSec + j, off, s) else s == FirstVacant(Vol().dir, 16 * j + 16)
    {
      hide Sector, View, SlotAt, OnDisk, Sound, Mirrored, TablesFit, Coherent, Vacant;
      ReadyFacts();
      var lba := m.firstRootSec + j;
      ghost var dir := Vol().dir;
      for e := 0 to SECTOR / 32
        invariant FirstVacant(dir, 16 * j + e) == FirstVacant(dir, 16 * j)
      {
        SlotPlace(m, lba, e * 32, 16 * j + e);
        SlotInSector(m, Disk(), lba, e * 32, 16 * j + e);
        SlotVacant(dir, 16 * j + e, wbuf[..], e * 32);
        var first := wbuf[e * 32];
        if first == 0 || first == DELETED {
          return true, e * 32;
        }
      }
      found, off := false, 0;
    }

    /** fat_find_empty_dirent on the fixed root. */
    method FindEmptyDirent() returns (rc: int, lba: nat, off: nat)
      requires Ready()
      modifies `fatValid, dev, dev.shadow, wbuf
      ensures Ready() && Disk() == old(Disk()) && !fatValid
      ensures var s := FirstVacant(Vol().dir, 0);
              if s == Slots(m) then rc == 1 else rc == 0 && SlotAt(m, lba, off, s)
    {
      hide Sector, View, SlotAt, OnDisk, Sound, Mirrored, TablesFit, Coherent, Vacant;
      DropTableCache();
      ghost var dir := Vol().dir;
      for j := 0 to RootSecs(m)
        invariant Ready() && Disk() == old(Disk()) && !fatValid
        invariant FirstVacant(dir, 16 * j) == FirstVacant(dir, 0)
      {
        lba := m.firstRootSec + j;
        RootSectorFits(m, Disk(), j);
        rc := ReadScratch(lba);
        if rc != 0 {
          return;
        }
        var found;
        found, off := ScanSector(j);
        if found {
          rc := 0;
          return;
        }
      }
      rc, lba, off := 1, 0, 0;
    }

    lemma SlotPlace(m: Mount, lba: nat, off: nat, s: nat)
      requires s < Slots(m) && lba == m.firstRootSec + s / 16 && off == s % 16 * 32
      ensures SlotAt(m, lba, off, s)
    {
    }

    lemma SlotVacant(dir: seq<seq<byte>>, s: nat, sector: seq<byte>, off: nat)
      requires (forall k :: 0 <= k < |dir| ==> |dir[k]| == 32) && s < |dir| && off + 32 <= |sector|
      requires sector[off..off + 32] == dir[s]
      ensures Vacant(dir[s]) <==> sector[off] == 0 || sector[off] == DELETED
      ensures FirstVacant(dir, s) == if Vacant(dir[s]) then s else FirstVacant(dir, s + 1)
    {
      assert dir[s][0] == sector[off..off + 32][0];
    }

    /** blk_read of a directory sector into the scratch sector. */
    method ReadSlot(lba: nat, off: nat, ghost s: nat)
      requires Ready() && !fatValid && SlotAt(m, lba, off, s)
      modifies dev, dev.shadow, wbuf
      ensures Ready() && Disk() == old(Disk()) && lba < dev.Sectors() && off + 32 <= SECTOR
      ensures wbuf[..] == Splice(Sector(Disk(), lba), off, Vol().dir[s]) && wbuf[..][off..off + 32] == Vol().dir[s]
    {
      hide View, SlotAt, Mirrored, TablesFit, Coherent;
      SlotInSector(m, Disk(), lba, off, s);
      var rc := ReadScratch(lba);
      SlotStart(Sector(Disk(), lba), off);
    }

    /** write_sec of a directory sector whose slot `s` was edited to `e` in the scratch sector. */
    method WriteSlot(lba: nat, off: nat, ghost s: nat, ghost e: seq<byte>) returns (rc: int)
      requires Ready() && !fatValid && SlotAt(m, lba, off, s) && |e| == 32 && lba < dev.Sectors() && off + 32 <= SECTOR
      requires wbuf[..] == Splice(Sector(Disk(), lba), off, e)
      modifies `secValid, `fatValid, dev, dev.shadow
      ensures Ready() && !fatValid && BootKept(m, old(Disk()), Disk())
      ensures rc == 0 && Vol() == old(Vol()).(dir := old(Vol()).dir[s := e])
    {
      hide View, SlotAt, Mirrored, TablesFit, Coherent, OnDisk, Sound, PutSector, Splice, BootKept, Sector;
      ghost var d := Disk();
      SlotInSector(m, d, lba, off, s);
      StoreSlot(m, d, lba, off, s, e);
      rc := WriteSec(lba);
    }

    /** One 16-bit field of a slot edited in the scratch sector. */
    method EditField16(off: nat, k: nat, w: nat, ghost base: seq<byte>, ghost e: seq<byte>)
      requires Ready() && !fatValid && off + 32 <= SECTOR == |base| && |e| == 32 && k + 2 <= 32
      requires wbuf[..] == Splice(base, off, e)
      modifies wbuf
      ensures Ready() && wbuf[..] == Splice(base, off, Put16(e, k, w))
    {
      hide Mirrored, TablesFit, OnDisk, Sound, Splice, Put16;
      Wr16(wbuf, off + k, w);
      SlotPut16(base, off, e, k, w);
    }

    method EditField32(off: nat, k: nat, w: nat, ghost base: seq<byte>, ghost e: seq<byte>)
      requires Ready() && !fatValid && off + 32 <= SECTOR == |base| && |e| == 32 && k + 4 <= 32
      requires wbuf[..] == Splice(base, off, e)
      modifies wbuf
      ensures Ready() && wbuf[..] == Splice(base, off, Put32(e, k, w))
    {
      hide Mirrored, TablesFit, OnDisk, Sound, Splice, Put32;
      Wr32(wbuf, off + k, w);
      SlotPut32(base, off, e, k, w);
    }

    method EditByte(off: nat, k: nat, b: byte, ghost base: seq<byte>, ghost e: seq<byte>)
      requires Ready() && !fatValid && off + 32 <= SECTOR == |base| && |e| == 32 && k < 32
      requires wbuf[..] == Splice(base, off, e)
      modifies wbuf
      ensures Ready() && wbuf[..] == Splice(base, off, e[k := b])
    {
      hide Mirrored, TablesFit, OnDisk, Sound, Splice;
      wbuf[off + k] := b;
      SlotPutByte(base, off, e, k, b);
    }

    /** blk_read of the sector of a place into the scratch sector. */
    method ReadPlace(lba: nat, off: nat, ghost a: nat)
      requires Ready() && !fatValid && PlaceAt(m, lba, off, a)
      modifies dev, dev.shadow, wbuf
      ensures Ready() && Disk() == old(Disk()) && lba < dev.Sectors() && off + 32 <= SECTOR <= |Disk()| && a <= Slots(m)
      ensures wbuf[..] == Splice(Sector(Disk(), lba), off, EntryAt(m, Disk(), a))
    {
      hide View, SlotAt, Mirrored, TablesFit, Coherent, EntryAt, PlaceAt, OnDisk, Slots, Sound;
      PlaceInSector(m, Disk(), lba, off, a);
      var rc := ReadScratch(lba);
      SlotStart(Sector(Disk(), lba), off);
    }

    /** write_sec of the sector of a place whose entry was edited to `e` in the scratch sector. */
    method WritePlace(lba: nat, off: nat, ghost a: nat, ghost e: seq<byte>) returns (rc: int)
      requires Ready() && !fatValid && PlaceAt(m, lba, off, a) && |e| == 32 && lba < dev.Sectors() && off + 32 <= SECTOR
      requires wbuf[..] == Splice(Sector(Disk(), lba), off, e)
      modifies `secValid, `fatValid, dev, dev.shadow
      ensures Ready() && !fatValid && rc == 0 && |old(Disk())| >= SECTOR
      ensures SlotAt(m, lba, off, a) ==> BootKept(m, old(Disk()), Disk()) && Vol() == old(Vol()).(dir := old(Vol()).dir[a := e])
      ensures a == Slots(m) ==> Vol() == old(Vol()) && Disk() == Splice(old(Disk()), 0, e)
    {
      hide View, SlotAt, Mirrored, TablesFit, Coherent, OnDisk, Sound, PutSector, Splice, BootKept, Sector, PlaceAt, Slots;
      ghost var d := Disk();
      PlaceInSector(m, d, lba, off, a);
      StorePlace(m, d, lba, off, a, e);
      rc := WriteSec(lba);
    }

    /** Entering a file's first cluster at the place its structure holds. */
    method StoreFirst(lba: nat, off: nat, c: nat, ghost a: nat) returns (rc: int)
      requires Ready() && !fatValid && PlaceAt(m, lba, off, a)
      modifies `secValid, `fatValid, dev, dev.shadow, wbuf
      ensures Ready() && !fatValid && rc == 0 && |old(Disk())| >= SECTOR
      ensures SlotAt(m, lba, off, a) ==>
                BootKept(m, old(Disk()), Disk()) && Vol() == old(Vol()).(dir := old(Vol()).dir[a := SetFirst(old(Vol()).dir[a], c)])
      ensures a == Slots(m) ==> Vol() == old(Vol()) && Disk() == Splice(old(Disk()), 0, SetFirst(old(Disk())[..32], c))
    {
      hide Ready, View, SlotAt, PlaceAt, Splice, Put16, BootKept, OnDisk, Sound, Sector, Slots;
      ReadyFacts();
      PlaceFacts(lba, off, a);
      ghost var e := EntryAt(m, Disk(), a);
      ReadPlace(lba, off, a);
      ghost var base := Sector(Disk(), lba);
      EditField16(off, 26, c, base, e);
      EditField16(off, 20, c / 0x1_0000, base, Put16(e, 26, c));
      rc := WritePlace(lba, off, a, SetFirst(e, c));
    }

    lemma PlaceFacts(lba: nat, off: nat, a: nat)
      requires Ready() && PlaceAt(m, lba, off, a)
      ensures Wired() && OnDisk(m, Disk()) && a <= Slots(m) == |Vol().dir| && |Disk()| >= SECTOR && dev.Sectors() == |Disk()| / SECTOR
      ensures (SlotAt(m, lba, off, a) <==> a < Slots(m)) && SECTOR * m.rsvdSec <= |Disk()|
      ensures EntryAt(m, Disk(), a) == if a < Slots(m) then Vol().dir[a] else Disk()[..32]
    {
      PlaceInSector(m, Disk(), lba, off, a);
      AreasFit(m, Disk());
      CopyFits(m, 0);
    }

    lemma VolFacts(s: nat, lba: nat, off: nat)
      requires Ready() && SlotAt(m, lba, off, s)
      ensures Wired() && OnDisk(m, Disk()) && s < |Vol().dir| && |Vol().dir[s]| == 32
    {
    }

    /** fat_fflush: the size, and the first cluster if there is one, at the place the structure holds. */
    method FFlush(fp: FatFile, ghost a: nat) returns (rc: int)
      requires Ready() && fp.inUse && PlaceAt(m, fp.dirLba, fp.dirOff, a)
      modifies `secValid, `fatValid, dev, dev.shadow, wbuf
      ensures Ready() && rc == 0 && |old(Disk())| >= SECTOR
      ensures SlotAt(m, fp.dirLba, fp.dirOff, a) ==>
                BootKept(m, old(Disk()), Disk())
                && Vol() == Flush(old(Vol()), Handle(a, fp.firstClus, fp.curClus, fp.curPos, fp.fileSize))
      ensures a == Slots(m) ==>
                Vol() == old(Vol()) && Disk() == Splice(old(Disk()), 0, Entered(old(Disk())[..32], fp.firstClus, fp.fileSize))
    {
      hide Ready, View, SlotAt, PlaceAt, Splice, Put16, Put32, BootKept, OnDisk, Sound, Sector, Slots;
      ReadyFacts();
      PlaceFacts(fp.dirLba, fp.dirOff, a);
      Invalidate();
      ghost var e := EntryAt(m, Disk(), a);
      var off := fp.dirOff;
      ReadPlace(fp.dirLba, off, a);
      ghost var base := Sector(Disk(), fp.dirLba);
      EditField32(off, 28, fp.fileSize, base, e);
      ghost var e1 := Put32(e, 28, fp.fileSize);
      if fp.firstClus != 0 {
        EditField16(off, 26, fp.firstClus, base, e1);
        EditField16(off, 20, fp.firstClus / 0x1_0000, base, Put16(e1, 26, fp.firstClus));
        e1 := SetFirst(e1, fp.firstClus);
      }
      rc := WritePlace(fp.dirLba, off, a, e1);
    }

    /** `fat_buf_valid = 0` at the head of the write paths. */
    method Invalidate()
      requires Ready()
      modifies `fatValid
      ensures Ready() && !fatValid && Disk() == old(Disk())
    {
      hide Mirrored, TablesFit, OnDisk, Sound;
      fatValid := false;
    }

    // ---------- creating and removing ----------

    ghost function HandleOf(fp: FatFile, s: nat): Handle
      reads fp
    {
      Handle(s, fp.firstClus, fp.curClus, fp.curPos, fp.fileSize)
    }

    /** Zeroing a slot in the scratch sector and entering a name and the archive attribute. */
    method FillSlot(off: nat, raw: seq<byte>, ghost base: seq<byte>, ghost e: seq<byte>)
      requires Ready() && !fatValid && off + 32 <= SECTOR == |base| && |e| == 32 && |raw| == 11
      requires wbuf[..] == Splice(base, off, e)
      modifies wbuf
      ensures Ready() && wbuf[..] == Splice(base, off, NewSlot(raw))
    {
      hide Mirrored, TablesFit, OnDisk, Sound;
      for i := 0 to 32
        invariant forall j :: 0 <= j < SECTOR && !(off <= j < off + 32) ==> wbuf[j] == base[j]
        invariant forall j :: off <= j < off + i ==> wbuf[j] == 0
      {
        wbuf[off + i] := 0;
      }
      for i := 0 to 11
        invariant forall j :: 0 <= j < SECTOR && !(off <= j < off + 32) ==> wbuf[j] == base[j]
        invariant forall j :: off + 11 <= j < off + 32 ==> wbuf[j] == 0
        invariant forall j :: off <= j < off + i ==> wbuf[j] == raw[j - off]
      {
        wbuf[off + i] := raw[i];
      }
      wbuf[off + 11] := ARCHIVE;
    }

    /** Freeing a file's chain: what create and unlink do before they touch the slot. */
    method FreeSlotChain(lba: nat, off: nat, ghost s: nat)
      requires Ready() && !fatValid && SlotAt(m, lba, off, s)
      modifies `secValid, `fatLba, `fatValid, dev, dev.shadow, wbuf
      ensures Ready() && !fatValid && BootKept(m, old(Disk()), Disk())
      ensures Vol() == old(Vol()).(fat := Release(m.ty, old(Vol()).fat, FirstOf(old(Vol()).dir[s])))
    {
      hide Ready, View, SlotAt, Splice, BootKept, OnDisk, Sound, Sector;
      VolFacts(s, lba, off);
      ReadSlot(lba, off, s);
      var e := wbuf[off..off + 32];
      assert e == wbuf[..][off..off + 32];
      var first := FirstOf(e);
      ReleaseLow(m.ty, Vol().fat, first);
      BootKeptSame(m, Disk());
      if first >= 2 {
        var rc := FreeChain(first);
      }
    }

    lemma ReleaseLow(ty: FatType, fat: seq<nat>, c: nat)
      ensures c < 2 ==> Release(ty, fat, c) == fat
    {
    }

    static lemma BootKeptSame(m: Mount, d: seq<byte>)
      ensures BootKept(m, d, d)
    {
    }

    static lemma BootKeptTrans(m: Mount, d: seq<byte>, d1: seq<byte>, d2: seq<byte>)
      requires BootKept(m, d, d1) && BootKept(m, d1, d2)
      ensures BootKept(m, d, d2)
    {
    }

    /** Truncating the file of slot `s`. */
    method TruncateSlot(lba: nat, off: nat, ghost s: nat)
      requires Ready() && !fatValid && SlotAt(m, lba, off, s)
      modifies `secValid, `fatLba, `fatValid, dev, dev.shadow, wbuf
      ensures Ready() && BootKept(m, old(Disk()), Disk())
      ensures Vol() == old(Vol()).(dir := old(Vol()).dir[s := Truncated(old(Vol()).dir[s])],
                                   fat := Release(m.ty, old(Vol()).fat, FirstOf(old(Vol()).dir[s])))
    {
      hide Ready, View, SlotAt, Splice, Put16, Put32, BootKept, OnDisk, Sound, Sector, Release;
      VolFacts(s, lba, off);
      FreeSlotChain(lba, off, s);
      ghost var d1 := Disk();
      VolFacts(s, lba, off);
      ghost var e := Vol().dir[s];
      ReadSlot(lba, off, s);
      ghost var base := Sector(Disk(), lba);
      EditField32(off, 28, 0, base, e);
      ghost var e1 := Put32(e, 28, 0);
      EditField16(off, 20, 0, base, e1);
      ghost var e2 := Put16(e1, 20, 0);
      EditField16(off, 26, 0, base, e2);
      ghost var e3 := Put16(e2, 26, 0);
      EditByte(off, 11, ARCHIVE, base, e3);
      var rc := WriteSlot(lba, off, s, e3[11 := ARCHIVE]);
      BootKeptTrans(m, old(Disk()), d1, Disk());
    }

    /** Entering a new name in a vacant slot. */
    method EnterName(raw: seq<byte>) returns (rc: int, lba: nat, off: nat)
      requires Ready() && |raw| == 11
      modifies `secValid, `fatValid, dev, dev.shadow, wbuf
      ensures Ready() && BootKept(m, old(Disk()), Disk())
      ensures var v := old(Vol());
              var s := FirstVacant(v.dir, 0);
              if s == |v.dir| then rc == 1 && Vol() == v
              else rc == 0 && SlotAt(m, lba, off, s) && Vol() == v.(dir := v.dir[s := NewSlot(raw)])
    {
      hide Ready, View, SlotAt, Splice, BootKept, OnDisk, Sound, Sector, NewSlot;
      ReadyFacts();
      BootKeptSame(m, Disk());
      ghost var s := FirstVacant(Vol().dir, 0);
      rc, lba, off := FindEmptyDirent();
      if rc != 0 {
        return;
      }
      VolFacts(s, lba, off);
      ghost var e := Vol().dir[s];
      ReadSlot(lba, off, s);
      FillSlot(off, raw, Sector(Disk(), lba), e);
      rc := WriteSlot(lba, off, s, NewSlot(raw));
    }

    /** fat_fcreate: create or truncate, and open at the start. */
    method FCreate(path: seq<byte>, fp: FatFile) returns (rc: int, ghost s: nat)
      requires Ready()
      modifies `secValid, `fatLba, `fatValid, dev, dev.shadow, wbuf, fp
      ensures Ready() && BootKept(m, old(Disk()), Disk())
      ensures match Create(old(Vol()), Raw(StripSlash(path)))
              case NoRoom => rc == -1 && Vol() == old(Vol()) && unchanged(fp)
              case Opened(v, h) =>
                && rc == 0 && Vol() == v && SlotAt(m, fp.dirLba, fp.dirOff, s) && HandleOf(fp, s) == h
                && fp.inUse && fp.attr == ARCHIVE
    {
      hide Ready, View, SlotAt, Splice, BootKept, OnDisk, Sound, Sector, Release, Truncated, NewSlot;
      ReadyFacts();
      Invalidate();
      var raw := Raw(StripSlash(path));
      ghost var v0 := Vol();
      s := Find(v0.dir, raw, 0);
      var lba, off;
      rc, lba, off := FindDirent(raw);
      if rc == 0 {
        TruncateSlot(lba, off, s);
      } else {
        s := FirstVacant(v0.dir, 0);
        rc, lba, off := EnterName(raw);
        if rc != 0 {
          rc := -1;
          return;
        }
      }
      OpenAtStart(fp, lba, off);
    }

    /** The handle of a file without clusters. */
    method OpenAtStart(fp: FatFile, lba: nat, off: nat)
      requires Ready()
      modifies fp
      ensures Ready() && Disk() == old(Disk()) && fp.inUse && fp.attr == ARCHIVE && fp.dirLba == lba && fp.dirOff == off
      ensures forall s :: HandleOf(fp, s) == Handle(s, 0, 0, 0, 0)
    {
      fp.inUse := true;
      fp.firstClus, fp.curClus, fp.curPos, fp.fileSize := 0, 0, 0, 0;
      fp.dirLba, fp.dirOff, fp.attr := lba, off, ARCHIVE;
    }

    lemma ReadyFacts()
      requires Ready()
      ensures Wired() && OnDisk(m, Disk())
    {
    }

    /** fat_funlink: free the chain and mark the slot deleted. */
    method FUnlink(path: seq<byte>) returns (rc: int)
      requires Ready()
      modifies `secValid, `fatLba, `fatValid, dev, dev.shadow, wbuf
      ensures Ready() && BootKept(m, old(Disk()), Disk())
      ensures match Unlink(old(Vol()), Raw(StripSlash(path)))
              case Missing => rc == -1 && Vol() == old(Vol())
              case Removed(v) => rc == 0 && Vol() == v
    {
      hide Ready, View, SlotAt, Splice, BootKept, OnDisk, Sound, Sector, Release, Erased;
      ReadyFacts();
      BootKeptSame(m, Disk());
      Invalidate();
      var raw := Raw(StripSlash(path));
      ghost var v0 := Vol();
      ghost var s := Find(v0.dir, raw, 0);
      var lba, off;
      rc, lba, off := FindDirent(raw);
      if rc != 0 {
        rc := -1;
        return;
      }
      VolFacts(s, lba, off);
      FreeSlotChain(lba, off, s);
      ghost var d1 := Disk();
      VolFacts(s, lba, off);
      ghost var e := Vol().dir[s];
      ReadSlot(lba, off, s);
      EditByte(off, 0, DELETED, Sector(Disk(), lba), e);
      ErasedAs(e);
      rc := WriteSlot(lba, off, s, Erased(e));
      BootKeptTrans(m, old(Disk()), d1, Disk());
    }

    lemma ErasedAs(e: seq<byte>)
      requires |e| == 32
      ensures Erased(e) == e[0 := DELETED]
    {
    }

    // ---------- writing ----------

    /** All of Ready but for the table-sector cache, whose buffer the write path uses for data. */
    ghost predicate Intact()
      reads this, dev, dev.shadow, secBuf
    {
      valid && Wired() && SecTruthful() && OnDisk(m, Disk()) && TablesFit(m, Disk()) && Mirrored(m, Disk())
    }

    lemma IntactFacts()
      requires Intact()
      ensures Wired() && OnDisk(m, Disk())
    {
    }

    lemma ReadyIsIntact()
      requires Ready()
      ensures Intact()
    {
    }

    /**
     Read-modify-write of the bytes of one data sector. The buffer holds that sector afterwards, so the flag of the
     table-sector cache stays truthful when it was not set.
     */
    method PutPiece(c: nat, o: nat, t: seq<byte>) returns (rc: int)
      requires Intact() && 2 <= c < m.clusterCount + 2
      requires o % SECTOR + |t| <= SECTOR && o < ClusSize(m)
      modifies `secValid, `fatValid, dev, dev.shadow, wbuf
      ensures Intact() && BootKept(m, old(Disk()), Disk()) && (old(!fatValid) ==> Ready() && !fatValid)
      ensures o + |t| <= ClusSize(m)
      ensures rc == 0 && Vol() == Placed(old(Vol()), c, o, t)
      ensures var lba := ClusToLba(m, c) + o / SECTOR;
              lba < dev.Sectors() && wbuf[..] == Sector(Disk(), lba) && fatValid == (old(fatValid) && fatLba != lba)
    {
      hide View, Mirrored, TablesFit, OnDisk, Sound, PutSector, Splice, BootKept, Sector, ClusToLba;
      ghost var d := Disk();
      var j, i := o / SECTOR, o % SECTOR;
      var lba := ClusToLba(m, c) + j;
      DataSector(m, d, c, j);
      StoreSector(m, d, c, j, i, t);
      rc := ReadScratch(lba);
      if rc != 0 {
        return;
      }
      CopyIn(i, t);
      rc := WriteSec(lba);
      SectorAfterPut(d, lba, wbuf[..], lba);
    }

    /** The copy loop of a write into the scratch sector. */
    method CopyIn(i: nat, t: seq<byte>)
      requires Wired() && i + |t| <= SECTOR
      modifies wbuf
      ensures wbuf[..] == Splice(old(wbuf[..]), i, t) && (old(Coherent()) && !fatValid ==> Coherent())
    {
      ghost var was := wbuf[..];
      for k := 0 to |t|
        invariant forall x :: i <= x < i + k ==> wbuf[x] == t[x - i]
        invariant forall x :: 0 <= x < SECTOR && !(i <= x < i + k) ==> wbuf[x] == was[x]
      {
        wbuf[i + k] := t[k];
      }
    }

    lemma SectorPiece(cs: nat, pos: nat, left: nat)
      requires cs > 0 && cs % SECTOR == 0 && left > 0
      ensures var o := pos % cs;
              var n := if left < SECTOR - o % SECTOR then left else SECTOR - o % SECTOR;
              o < cs && 0 < n <= left && o % SECTOR + n <= SECTOR && o + n <= cs && (n == left || (o + n) % SECTOR == 0)
    {
      var o := pos % cs;
      assert cs == SECTOR * (cs / SECTOR) && o == SECTOR * (o / SECTOR) + o % SECTOR;
      assert o + (SECTOR - o % SECTOR) == SECTOR * (o / SECTOR + 1);
    }

    /** Taking the first cluster of an empty file and entering it in its slot. */
    method StartFile(fp: FatFile, ghost a: nat) returns (nc: nat)
      requires Ready() && PlaceAt(m, fp.dirLba, fp.dirOff, a) && fp.firstClus == 0
      modifies `secValid, `fatLba, `fatValid, dev, dev.shadow, wbuf, fp`firstClus, fp`curClus
      ensures Ready() && |old(Disk())| >= SECTOR && (nc == 0 || SlotAt(m, fp.dirLba, fp.dirOff, a) ==> BootKept(m, old(Disk()), Disk()))
      ensures var v := old(Vol());
              var c := FirstFree(v.fat, 2);
              if c == |v.fat| then nc == 0 && Vol() == v && HandleOf(fp, a) == old(HandleOf(fp, a))
              else nc == c && !fatValid && HandleOf(fp, a) == old(HandleOf(fp, a)).(first := c, cur := c)
                   && (SlotAt(m, fp.dirLba, fp.dirOff, a) ==> Vol() == Started(v, a, c))
                   && (a == Slots(m) ==> Vol() == v.(fat := v.fat[c := EocMark(v.ty)]))
      ensures a == Slots(m) && nc != 0 ==> Disk()[..SECTOR] == Splice(old(Disk())[..SECTOR], 0, SetFirst(old(Disk())[..32], nc))
    {
      hide Ready, View, SlotAt, PlaceAt, BootKept, OnDisk, Sound, SetFirst, Slots, Splice;
      ReadyFacts();
      PlaceFacts(fp.dirLba, fp.dirOff, a);
      nc := AllocCluster();
      if nc == 0 {
        return;
      }
      ghost var d1 := Disk();
      fp.firstClus := nc;
      fp.curClus := nc;
      var rc := StoreFirst(fp.dirLba, fp.dirOff, nc, a);
      BootStart(m, old(Disk()), d1, Disk(), fp.dirLba, fp.dirOff, a, nc);
    }

    /** The sectors before the tables after a first cluster was entered. */
    static lemma BootStart(m: Mount, d: seq<byte>, d1: seq<byte>, d2: seq<byte>, lba: nat, off: nat, a: nat, c: nat)
      requires |d| >= SECTOR && |d1| == |d| && BootKept(m, d, d1) && PlaceAt(m, lba, off, a) && SECTOR * m.rsvdSec <= |d|
      requires SlotAt(m, lba, off, a) ==> BootKept(m, d1, d2)
      requires a == Slots(m) ==> d2 == Splice(d1, 0, SetFirst(d1[..32], c))
      ensures SlotAt(m, lba, off, a) ==> BootKept(m, d, d2)
      ensures a == Slots(m) ==> |d2| >= SECTOR && d2[..SECTOR] == Splice(d[..SECTOR], 0, SetFirst(d[..32], c))
    {
      hide SetFirst, SlotAt, Slots;
      if SlotAt(m, lba, off, a) {
        BootKeptTrans(m, d, d1, d2);
      } else {
        var b := SECTOR * m.rsvdSec;
        assert d1[..SECTOR] == d1[..b][..SECTOR] == d[..b][..SECTOR] == d[..SECTOR];
        assert d1[..32] == d1[..SECTOR][..32] == d[..SECTOR][..32] == d[..32];
      }
    }

    /** Past the end of a cluster: the chain's next one, or else a new one linked behind it. */
    method ExtendFile(cur: nat) returns (nc: nat)
      requires Ready() && 2 <= cur < m.clusterCount + 2 && Vol().fat[cur] >= Eoc(m.ty)
      modifies `secValid, `fatLba, `fatValid, dev, dev.shadow, wbuf
      ensures Ready() && BootKept(m, old(Disk()), Disk())
      ensures var v := old(Vol());
              var c := FirstFree(v.fat, 2);
              if c == |v.fat| then nc == 0 && Vol() == v
              else nc == c && !fatValid && Vol() == v.(fat := v.fat[c := EocMark(m.ty)][cur := c])
    {
      hide Ready, View, BootKept, OnDisk, Sound;
      ReadyFacts();
      nc := Next(cur);
      if nc != NO_CLUSTER {
        return;
      }
      nc := AllocCluster();
      if nc == 0 {
        return;
      }
      ghost var d1 := Disk();
      ReadyFacts();
      var rc := Set(cur, nc);
      StoredCluster(nc);
      BootKeptTrans(m, old(Disk()), d1, Disk());
    }

    /** Writing bytes of `data` up to the end of a sector, and moving the handle behind them. */
    method StorePiece(fp: FatFile, data: seq<byte>, ghost s: nat) returns (chunk: nat)
      requires Intact() && data != [] && fp.curPos + |data| < U32 && 2 <= fp.curClus < |Vol().fat|
      modifies `secValid, `fatValid, dev, dev.shadow, wbuf, fp`curPos, fp`fileSize
      ensures Intact() && BootKept(m, old(Disk()), Disk()) && (old(!fatValid) ==> Ready() && !fatValid)
      ensures var lba := ClusToLba(m, fp.curClus) + old(fp.curPos) % ClusSize(m) / SECTOR;
              lba < dev.Sectors() && wbuf[..] == Sector(Disk(), lba) && fatValid == (old(fatValid) && fatLba != lba)
      ensures var v, h := old(Vol()), old(HandleOf(fp, s));
              && 0 < chunk <= |data| && h.pos % v.clusSize + chunk <= v.clusSize && h.pos % v.clusSize % SECTOR + chunk <= SECTOR
              && (chunk == |data| || (h.pos % v.clusSize + chunk) % SECTOR == 0)
              && Vol() == Placed(v, h.cur, h.pos % v.clusSize, data[..chunk])
              && HandleOf(fp, s) == Moved(h, h.cur, chunk)
    {
      hide InCluster, Ready, Intact, View, BootKept, OnDisk, Sound, Placed, Mirrored, TablesFit, Sector, ClusToLba;
      IntactFacts();
      var clusSize := ClusSize(m);
      SectorPiece(clusSize, fp.curPos, |data|);
      OffsetIs(fp.curPos);
      var inClus := InCluster(m, fp.curPos);
      var inSec := inClus % SECTOR;
      chunk := if |data| < SECTOR - inSec then |data| else SECTOR - inSec;
      var rc := PutPiece(fp.curClus, inClus, data[..chunk]);
      fp.curPos := fp.curPos + chunk;
      if fp.curPos > fp.fileSize {
        fp.fileSize := fp.curPos;
      }
    }

    /** One turn of the write loop: a piece, then the next cluster if this one is full and there is more to write. */
    method WriteTurn(fp: FatFile, data: seq<byte>, ghost s: nat) returns (chunk: nat, full: bool)
      requires Ready() && !fatValid && s < |Vol().dir| && data != [] && fp.curPos + |data| < U32
      requires fp.firstClus != 0 && Writable(Vol(), HandleOf(fp, s), data)
      modifies `secValid, `fatLba, `fatValid, dev, dev.shadow, wbuf, fp`curClus, fp`curPos, fp`fileSize
      ensures Ready() && BootKept(m, old(Disk()), Disk()) && 0 < chunk <= |data|
      ensures old(Writable(Vol(), HandleOf(fp, s), data)) && (!full ==> !fatValid && Writable(Vol(), HandleOf(fp, s), data[chunk..]))
      ensures fp.curPos == old(fp.curPos) + chunk
      ensures Write(old(Vol()), old(HandleOf(fp, s)), data)
              == if full then (Vol(), HandleOf(fp, s), chunk)
                 else Plus(Write(Vol(), HandleOf(fp, s), data[chunk..]), chunk)
    {
      hide InCluster, Ready, View, BootKept, OnDisk, Sound, Write, Placed;
      ReadyFacts();
      ghost var v0, h0 := Vol(), HandleOf(fp, s);
      full := false;
      ReadyIsIntact();
      chunk := StorePiece(fp, data, s);
      ReadyFacts();
      ghost var d1 := Disk();
      NextOffset(v0.clusSize, h0.pos, chunk);
      OffsetIs(fp.curPos);
      if InCluster(m, fp.curPos) == 0 && chunk < |data| {
        PastCluster(v0, h0, data, chunk);
        WriteCrosses(v0, h0, data, chunk);
        var nc := ExtendFile(fp.curClus);
        BootKeptTrans(m, old(Disk()), d1, Disk());
        ReadyFacts();
        if nc == 0 {
          full := true;
          return;
        }
        fp.curClus := nc;
      } else {
        WritePauses(v0, h0, data, chunk);
      }
    }

    lemma NothingLeft(v: Volume, h: Handle, data: seq<byte>, n: nat)
      requires Shape(v) && h.slot < |v.dir| && n == |data| && Writable(v, h, data[n..])
      ensures Plus(Write(v, h, data[n..]), n) == (v, h, n)
    {
    }

    /** The mask of a sound volume takes the offset. */
    lemma OffsetIs(pos: nat)
      requires Wired() && OnDisk(m, Disk())
      ensures m.secPerClus > 0 && InCluster(m, pos) == pos % ClusSize(m)
    {
      InClusterIff(m);
      assert InCluster(m, pos) == pos % ClusSize(m);
    }

    lemma PositiveCluster()
      requires Wired() && OnDisk(m, Disk())
      ensures ClusSize(m) > 0 && ClusSize(m) % SECTOR == 0
    {
    }

    /** fat_fwrite at the end of a chain, or ending in the cluster it starts in. */
    method FWrite(fp: FatFile, data: seq<byte>, ghost s: nat) returns (written: nat)
      requires Ready() && fp.inUse && (fp.firstClus != 0 || SlotAt(m, fp.dirLba, fp.dirOff, s)) && fp.curPos + |data| < U32
      requires s < |Vol().dir| && Writable(Vol(), HandleOf(fp, s), data)
      modifies `secValid, `fatLba, `fatValid, dev, dev.shadow, wbuf, fp`firstClus, fp`curClus, fp`curPos, fp`fileSize
      ensures Ready() && BootKept(m, old(Disk()), Disk()) && old(Writable(Vol(), HandleOf(fp, s), data))
      ensures (Vol(), HandleOf(fp, s), written) == Write(old(Vol()), old(HandleOf(fp, s)), data)
    {
      hide Ready, View, SlotAt, BootKept, OnDisk, Sound, Write, Started, AtEnd, Slots;
      ReadyFacts();
      BootKeptSame(m, Disk());
      Invalidate();
      written := 0;
      ghost var v0, h0 := Vol(), HandleOf(fp, s);
      assert data[0..] == data;
      while written < |data|
        invariant Ready() && !fatValid && BootKept(m, old(Disk()), Disk()) && written <= |data|
        invariant Wired() && OnDisk(m, Disk()) && Vol().dir != [] && |Vol().dir| == |v0.dir|
        invariant fp.firstClus != 0 || SlotAt(m, fp.dirLba, fp.dirOff, s)
        invariant Writable(Vol(), HandleOf(fp, s), data[written..])
        invariant fp.curPos + |data| - written < U32
        invariant Plus(Write(Vol(), HandleOf(fp, s), data[written..]), written) == Write(v0, h0, data)
      {
        ghost var d := Disk();
        ghost var rest := data[written..];
        if fp.firstClus == 0 {
          WriteStarts(Vol(), HandleOf(fp, s), rest);
          var nc := StartFile(fp, s);
          BootKeptTrans(m, old(Disk()), d, Disk());
          if nc == 0 {
            return;
          }
        }
        d := Disk();
        ReadyFacts();
        var chunk, full := WriteTurn(fp, data[written..], s);
        BootKeptTrans(m, old(Disk()), d, Disk());
        ReadyFacts();
        assert rest[chunk..] == data[written + chunk..];
        written := written + chunk;
        if full {
          return;
        }
      }
      NothingLeft(Vol(), HandleOf(fp, s), data, written);
    }

    lemma StoredCluster(c: nat)
      requires Wired() && OnDisk(m, Disk()) && c < m.clusterCount + 2
      ensures Stored(m.ty, c) == c
    {
    }

    // ---------- reading ----------

    /** A caller's buffer. */
    ghost predicate Outside(dst: array<byte>) {
      dst != secBuf && dst != wbuf && dst != dev.shadow
    }

    /** A data sector through the data-sector cache into the scratch sector. */
    method ReadData(lba: nat) returns (rc: int)
      requires Ready() && lba < dev.Sectors()
      modifies `secLba, `secValid, `fatValid, dev, dev.shadow, secBuf, wbuf
      ensures Ready() && Disk() == old(Disk())
      ensures rc == 0 && wbuf[..] == Sector(Disk(), lba)
    {
      hide Mirrored, TablesFit, OnDisk, Sound, Sector;
      SectorNumbers();
      fatValid := false;
      rc := ReadSec(lba, wbuf);
    }

    lemma SectorNumbers()
      requires Ready()
      ensures dev.Sectors() < U32
    {
    }

    /** Copying file bytes, up to the end of a sector, out of the cluster the handle stands on. */
    method ReadPiece(fp: FatFile, dst: array<byte>, at: nat, left: nat, ghost ch: seq<nat>, ghost k: nat)
      returns (rc: int, chunk: nat)
      requires Ready() && Outside(dst) && left > 0 && at + left <= dst.Length
      requires OnChain(Vol(), ch, k, fp.curClus)
      modifies `secLba, `secValid, `fatValid, dev, dev.shadow, secBuf, wbuf, dst, fp`curPos
      ensures Ready() && Disk() == old(Disk()) && fp.curPos == old(fp.curPos) + chunk
      ensures rc == 0 && 0 < chunk <= left && old(fp.curPos) % ClusSize(m) + chunk <= ClusSize(m)
      ensures var from := Span(ClusSize(m), k) + old(fp.curPos) % ClusSize(m);
              from + chunk <= |Flat(Vol().data, ch)|
              && dst[..] == Splice(old(dst[..]), at, Flat(Vol().data, ch)[from..from + chunk])
    {
      hide InCluster, Ready, View, OnDisk, Sound, Flat, Splice, IsChain, Sector, ClusToLba;
      ReadyFacts();
      PositiveCluster();
      var clusSize := ClusSize(m);
      SectorPiece(clusSize, fp.curPos, left);
      OffsetIs(fp.curPos);
      var inClus := InCluster(m, fp.curPos);
      var j, inSec := inClus / SECTOR, inClus % SECTOR;
      chunk := if left < SECTOR - inSec then left else SECTOR - inSec;
      ghost var v := Vol();
      ChainStep(v.ty, v.fat, ch, k);
      DataSector(m, Disk(), fp.curClus, j);
      FilePiece(v, ch, k, inClus, chunk);
      WindowInside(v.data[fp.curClus - 2], SECTOR * j, SECTOR, inSec, chunk);
      rc := ReadData(ClusToLba(m, fp.curClus) + j);
      if rc != 0 {
        return;
      }
      assert wbuf[inSec..inSec + chunk] == wbuf[..][inSec..inSec + chunk];
      CopyBytes(wbuf, inSec, dst, at, chunk);
      fp.curPos := fp.curPos + chunk;
    }

    /**
     fat_fread. Byte `pos` is read from offset `pos % clusSize` of the cluster the handle stands on, number `i`
     of the chain, and the bytes behind it from there on along the chain. The handle ends on the cluster of the
     last byte read, number `j`.
     */
    method FRead(fp: FatFile, dst: array<byte>, at: nat, max: nat, ghost ch: seq<nat>, ghost i: nat)
      returns (rc: int, ghost j: nat)
      requires Ready() && Outside(dst) && at + max <= dst.Length
      requires var n := Left(fp.curPos, fp.fileSize, max);
               n > 0 ==> OnChain(Vol(), ch, i, fp.curClus)
                         && Span(ClusSize(m), i) + fp.curPos % ClusSize(m) + n <= Span(ClusSize(m), |ch|)
      modifies `secLba, `secValid, `fatLba, `fatValid, dev, dev.shadow, secBuf, wbuf, dst, fp`curPos, fp`curClus
      ensures Ready() && Disk() == old(Disk())
      ensures rc == if fp.inUse then Left(old(fp.curPos), fp.fileSize, max) else -1
      ensures rc <= 0 ==> dst[..] == old(dst[..]) && fp.curPos == old(fp.curPos) && fp.curClus == old(fp.curClus)
      ensures rc > 0 ==>
                var from := Span(ClusSize(m), i) + old(fp.curPos) % ClusSize(m);
                && from + rc <= |Flat(Vol().data, ch)|
                && dst[..] == Splice(old(dst[..]), at, Flat(Vol().data, ch)[from..from + rc])
                && fp.curPos == old(fp.curPos) + rc
                && OnChain(Vol(), ch, j, fp.curClus) && Span(ClusSize(m), j) < from + rc <= Span(ClusSize(m), j + 1)
    {
      hide Ready, View, OnDisk, Sound, Flat, Splice, IsChain, Span;
      j := i;
      if !fp.inUse {
        return -1, i;
      }
      if fp.curPos >= fp.fileSize {
        return 0, i;
      }
      var remaining := fp.fileSize - fp.curPos;
      var n := if max > remaining then remaining else max;
      if n == 0 {
        return 0, i;
      }
      rc, j := ReadLoop(fp, dst, at, n, ch, i);
    }

    /** The loop of fat_fread. */
    method ReadLoop(fp: FatFile, dst: array<byte>, at: nat, n: nat, ghost ch: seq<nat>, ghost i: nat)
      returns (produced: nat, ghost j: nat)
      requires Ready() && Outside(dst) && at + n <= dst.Length && n > 0 && OnChain(Vol(), ch, i, fp.curClus)
      requires Span(ClusSize(m), i) + fp.curPos % ClusSize(m) + n <= Span(ClusSize(m), |ch|)
      modifies `secLba, `secValid, `fatLba, `fatValid, dev, dev.shadow, secBuf, wbuf, dst, fp`curPos, fp`curClus
      ensures Ready() && Disk() == old(Disk()) && produced == n && fp.curPos == old(fp.curPos) + n
      ensures var from := Span(ClusSize(m), i) + old(fp.curPos) % ClusSize(m);
              && from + n <= |Flat(Vol().data, ch)|
              && dst[..] == Splice(old(dst[..]), at, Flat(Vol().data, ch)[from..from + n])
              && OnChain(Vol(), ch, j, fp.curClus) && Span(ClusSize(m), j) < from + n <= Span(ClusSize(m), j + 1)
    {
      hide InCluster, Ready, View, OnDisk, Sound, Flat, Splice, IsChain, Span;
      ReadyFacts();
      PositiveCluster();
      var clusSize := ClusSize(m);
      ghost var from := Span(clusSize, i) + fp.curPos % clusSize;
      ghost var bytes := Flat(Vol().data, ch);
      ChainFlat(Vol(), ch);
      TwoPieces(dst[..], at, bytes, from, from, from);
      j := i;
      produced := 0;
      while produced < n
        invariant Ready() && Disk() == old(Disk()) && produced <= n && fp.curPos == old(fp.curPos) + produced
        invariant OnChain(Vol(), ch, j, fp.curClus) && Standing(clusSize, fp.curPos, j, from, produced, n)
        invariant dst[..] == Splice(old(dst[..]), at, bytes[from..from + produced])
      {
        var rc, chunk := ReadPiece(fp, dst, at + produced, n - produced, ch, j);
        PieceStands(clusSize, fp.curPos - chunk, j, from, produced, n, chunk);
        TwoPieces(old(dst[..]), at, bytes, from, from + produced, from + produced + chunk);
        produced := produced + chunk;
        OffsetIs(fp.curPos);
        if InCluster(m, fp.curPos) == 0 && produced < n {
          InsideChain(clusSize, j + 1, |ch|);
          ChainStep(m.ty, Vol().fat, ch, j);
          ChainStep(m.ty, Vol().fat, ch, j + 1);
          var nxt := Next(fp.curClus);
          if nxt == NO_CLUSTER {
            break;
          }
          fp.curClus := nxt;
          j := j + 1;
        }
      }
    }

    /** fat_fseek: the cluster of byte `pos` is looked up again from the start of the chain. */
    method FSeek(fp: FatFile, bytePos: nat, ghost ch: seq<nat>) returns (rc: int, ghost k: nat)
      requires Ready() && fp.fileSize <= Span(ClusSize(m), |ch|)
      requires ch != [] ==> IsChain(m.ty, Vol().fat, ch) && fp.firstClus == ch[0]
      modifies `fatLba, `fatValid, dev, dev.shadow, wbuf, fp`curPos, fp`curClus
      ensures Ready() && Disk() == old(Disk())
      ensures !fp.inUse ==> rc == -1 && fp.curPos == old(fp.curPos) && fp.curClus == old(fp.curClus)
      ensures fp.inUse ==>
                var p := if bytePos > fp.fileSize then fp.fileSize else bytePos;
                && fp.curPos == p && (rc == 0 || rc == -1)
                && (rc == 0 <==> p == 0 || p < Span(ClusSize(m), |ch|))
                && (rc == 0 && ch == [] ==> fp.curClus == fp.firstClus)
                && (rc == 0 && ch != [] ==>
                      OnChain(Vol(), ch, k, fp.curClus) && Span(ClusSize(m), k) + p % ClusSize(m) == p)
    {
      hide Ready, View, OnDisk, Sound, IsChain, Span;
      k := 0;
      if !fp.inUse {
        return -1, 0;
      }
      ReadyFacts();
      PositiveCluster();
      var p := if bytePos > fp.fileSize then fp.fileSize else bytePos;
      fp.curPos := p;
      fp.curClus := fp.firstClus;
      var clusSize := ClusSize(m);
      BytePlace(clusSize, p, |ch|);
      var skip := p / clusSize;
      k := skip;
      for i := 0 to skip
        invariant Ready() && Disk() == old(Disk()) && fp.curPos == p
        invariant if ch == [] then i == 0 && fp.curClus == fp.firstClus else i < |ch| && fp.curClus == ch[i]
      {
        ChainStep(m.ty, Vol().fat, ch, i);
        if i + 1 < |ch| {
          ChainStep(m.ty, Vol().fat, ch, i + 1);
        }
        var nxt := Next(fp.curClus);
        if nxt == NO_CLUSTER {
          return -1, 0;
        }
        fp.curClus := nxt;
      }
      rc := 0;
    }

    // ---------- opening ----------

    /** fat_fopen of a file in the root. */
    method FOpen(path: seq<byte>, fp: FatFile) returns (rc: int, ghost s: nat)
      requires Ready() && SLASH !in StripSlash(path)
      modifies dev, dev.shadow, fp
      ensures Ready() && Disk() == old(Disk())
      ensures var dir := Vol().dir;
              var want := FirstName(StripSlash(path));
              && s == FindShown(dir, want, 0)
              && rc == (if want == [] || s == |dir| then -2 else if HasAttr(dir[s], 16) then -4 else 0)
              && (rc == 0 ==> fp.inUse && fp.attr == dir[s][11]
                              && HandleOf(fp, s) == Handle(s, FirstOf(dir[s]), FirstOf(dir[s]), 0, SizeOf(dir[s])))
      ensures fp.dirLba == old(fp.dirLba) && fp.dirOff == old(fp.dirOff) && (rc != 0 ==> unchanged(fp))
    {
      hide Ready, View, SlotAt, OnDisk, Sound, Matches, FirstName;
      ReadyFacts();
      ghost var dir := Vol().dir;
      var want := FirstName(StripSlash(path));
      s := FindShown(dir, want, 0);
      if want == [] {
        return -2, s;
      }
      var it := StartWalk();
      var e;
      rc, e := FindEntry(it, want);
      if rc != 0 {
        return -2, s;
      }
      if HasAttr(e, 16) {
        return -4, s;
      }
      fp.inUse := true;
      fp.firstClus := FirstOf(e);
      fp.curClus := fp.firstClus;
      fp.curPos := 0;
      fp.fileSize := SizeOf(e);
      fp.attr := e[11];
    }

    /** find_entry_in_dir on the root, among names without long forms. */
    method FindEntry(it: DirIter, want: seq<byte>) returns (rc: int, e: seq<byte>)
      requires Ready() && Walking(it) && Passed(it) == 0
      modifies it, it.buf, dev, dev.shadow
      ensures Ready() && Disk() == old(Disk())
      ensures var s := FindShown(Vol().dir, want, 0);
              if s == Slots(m) then rc == 1 else rc == 0 && e == Vol().dir[s]
    {
      hide Ready, Sector, View, SlotAt, OnDisk, Sound, Mirrored, TablesFit, Coherent, InUse, Matches;
      PassedFits(it);
      ghost var dir := Vol().dir;
      while true
        invariant Ready() && Walking(it) && Disk() == old(Disk())
        invariant 0 <= Passed(it) <= Slots(m) && FindShown(dir, want, Passed(it)) == FindShown(dir, want, 0)
        decreases Slots(m) - Passed(it)
      {
        rc, e := DirNext(it);
        if rc != 0 {
          rc := 1;
          return;
        }
        ReadyFacts();
        if Matches(NameOf(e), want) {
          return;
        }
      }
    }
  }

  /** A path without its leading slash. */
  function StripSlash(path: seq<byte>): seq<byte> {
    if path != [] && path[0] == SLASH then path[1..] else path
  }

  /** At most 15 characters of a path: what fat_fopen takes as a name when no slash follows. */
  function FirstName(path: seq<byte>): seq<byte> {
    if |path| <= 15 then path else path[..15]
  }

  const SLASH: byte := 0x2F
}
