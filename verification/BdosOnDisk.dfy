/** The whole-file calls and deletion, told in bytes of the disk as the FAT specification reads them. */
module BdosOnDisk {
  import opened Bytes
  import opened Wrappers
  import opened FatVolume
  import opened FatFiles
  import opened FatOps
  import opened FatSave
  import opened FatNames
  import opened FatLayout
  import opened FatMount
  import opened FatDriver
  import opened FatOnDisk
  import opened BdosFiles
  import opened BdosRecords
  import F = FatFormat

  /** A mounted, well-formed volume whose tables do not start in its boot sector. */
  ghost predicate InOrder(fat: Driver)
    reads fat, fat.dev, fat.dev.shadow, fat.secBuf, fat.wbuf
  {
    && fat.Ready() && MountedFrom(fat.m, fat.Disk()) && F.Word(fat.Disk(), 14) >= 1
    && Sane(fat.Vol()) && CanonicalNames(fat.Vol().dir)
  }

  /** `p` is the packed form of a file name. */
  predicate PackedName(p: seq<byte>, name: seq<byte>, base: seq<byte>, ext: seq<byte>) {
    FileName(name) && Parts(name, base, ext) && Spells(p, base, ext)
  }

  lemma PackedIsRaw(p: seq<byte>, name: seq<byte>, base: seq<byte>, ext: seq<byte>)
    requires PackedName(p, name, base, ext)
    ensures p == Raw(name) && |p| == 11
  {
    RawSpells(name, base, ext);
    SpelledOnce(p, Raw(name), base, ext);
  }

  /** The boot sector is kept, and with it the geometry. */
  lemma StillMounted(m: Mount, d: seq<byte>, d': seq<byte>)
    requires MountedFrom(m, d) && OnDisk(m, d') && BootKept(m, d, d') && F.Word(d, 14) >= 1
    ensures MountedFrom(m, d') && F.Word(d', 14) >= 1
  {
    hide Geometry, Sound, F.RootStart, F.DataStart, F.ClusterBytes, F.DataClusters, F.Is12, Slots, ClusSize;
    GeometryIsFormat(m, d);
    AreasFit(m, d);
    BootSectorKept(m, d, d');
    GeometryIsFormat(m, d');
  }

  /** Every file but one is on the disk as it was. */
  ghost predicate OthersOnDisk(d: seq<byte>, d': seq<byte>, p: seq<byte>) {
    forall n, attr, bytes :: |n| == 11 && n != p ==> (F.Holds(d', n, attr, bytes) <==> F.Holds(d, n, attr, bytes))
  }

  lemma OthersAreOnDisk(m: Mount, d: seq<byte>, d': seq<byte>, p: seq<byte>)
    requires MountedFrom(m, d) && MountedFrom(m, d') && Sane(View(m, d)) && Sane(View(m, d'))
    requires OthersKept(View(m, d), View(m, d'), p)
    ensures OthersOnDisk(d, d', p)
  {
    hide View, Sane, Lookup, F.Holds, MountedFrom;
    forall n, attr, bytes | |n| == 11 && n != p
      ensures F.Holds(d', n, attr, bytes) <==> F.Holds(d, n, attr, bytes)
    {
      LookupIsFormat(m, d, n, attr, bytes);
      LookupIsFormat(m, d', n, attr, bytes);
    }
  }

  /** BDOS 120: the disk then holds the file, if there was room for it, and every other file as it was. */
  method SaveOnDisk(fat: Driver, name: seq<byte>, data: seq<byte>, ghost p: seq<byte>, ghost base: seq<byte>, ghost ext: seq<byte>)
    returns (rc: nat)
    requires InOrder(fat) && PackedName(p, name, base, ext) && |data| < U32
    modifies fat`secValid, fat`fatLba, fat`fatValid, fat.dev, fat.dev.shadow, fat.wbuf
    ensures InOrder(fat) && rc == if F.HasRoom(old(fat.Disk()), p, |data|) then 0 else 0xFFFF_FFFF
    ensures rc == 0 ==> F.Holds(fat.Disk(), p, 0x20, data)
    ensures OthersOnDisk(old(fat.Disk()), fat.Disk(), p)
  {
    hide View, Geometry, Sound, Mirrored, TablesFit, Sane, CanonicalNames, Raw, Lookup, Save, FileName, BootKept, OthersKept, Parts,
         Spells, Sector, F.HasRoom, F.Holds, F.Named, OthersOnDisk, OwnedBy, Slots, FreeCount;
    ghost var m, d := fat.m, fat.Disk();
    PackedIsRaw(p, name, base, ext);
    FileNameIs(name);
    SaveMeaning(fat.Vol(), name, data);
    RoomIsFormat(m, d, p, |data|);
    assert data[..|data|] == data;
    rc := SaveFile(fat, name, data);
    StillMounted(m, d, fat.Disk());
    OthersAreOnDisk(m, d, fat.Disk(), p);
    LookupIsFormat(m, fat.Disk(), p, 0x20, data);
  }

  /** BDOS 121: what the disk holds under the name goes into the buffer, as much of it as fits. */
  method LoadOnDisk(fat: Driver, name: seq<byte>, dst: array<byte>, max: nat, ghost p: seq<byte>, ghost base: seq<byte>, ghost ext: seq<byte>)
    returns (rc: nat)
    requires InOrder(fat) && PackedName(p, name, base, ext) && fat.Outside(dst) && max <= dst.Length && max < U32
    modifies fat`secLba, fat`secValid, fat`fatLba, fat`fatValid, fat.dev, fat.dev.shadow, fat.secBuf, fat.wbuf, dst
    ensures InOrder(fat) && fat.Disk() == old(fat.Disk())
    ensures !F.Named(fat.Disk(), p) ==> rc == 0xFFFF_FFFF
    ensures forall attr, bytes :: F.Holds(fat.Disk(), p, attr, bytes) ==>
              if max == 0 || attr as int / 16 % 2 == 1 then rc == 0xFFFF_FFFF
              else
                var n := if |bytes| <= max then |bytes| else max;
                rc == (if n < 0x8000_0000 then n else 0) && dst[..] == bytes[..n] + old(dst[n..])
  {
    hide View, Geometry, Sound, Mirrored, TablesFit, Sane, CanonicalNames, Raw, Lookup, FileName, Parts, Spells, Sector, F.Holds, F.Named,
         FirstName, PathOf, Slots;
    ghost var m, d := fat.m, fat.Disk();
    PackedIsRaw(p, name, base, ext);
    MeantFile(fat.Vol(), name);
    rc := LoadFile(fat, name, dst, max);
    LookupIsFormat(m, d, p, 0, []);
    forall attr, bytes | F.Holds(d, p, attr, bytes)
      ensures Lookup(fat.Vol(), p) == Some(File(attr, bytes))
    {
      LookupIsFormat(m, d, p, attr, bytes);
    }
  }

  /** BDOS 19: the name is struck out of the slot that carried it, and of nothing else; labels are left alone. */
  method DeleteOnDisk(fat: Driver, fcb: array<byte>, ghost name: seq<byte>, ghost base: seq<byte>, ghost ext: seq<byte>) returns (rc: nat)
    requires InOrder(fat) && fat.Outside(fcb) && fcb.Length >= 36 && fcb[0] == 0 && PackedName(fcb[1..12], name, base, ext)
    modifies fat`secValid, fat`fatLba, fat`fatValid, fat.dev, fat.dev.shadow, fat.wbuf
    ensures InOrder(fat) && rc == if F.Named(old(fat.Disk()), fcb[1..12]) then 0 else 0xFF
    ensures !F.Named(fat.Disk(), fcb[1..12]) && OthersOnDisk(old(fat.Disk()), fat.Disk(), fcb[1..12])
    ensures Struck(old(fat.Vol()).dir, fat.Vol().dir, fcb[1..12])
  {
    hide View, Geometry, Sound, Mirrored, TablesFit, Sane, CanonicalNames, Raw, Lookup, FileName, Parts, Spells, Sector, F.Holds, F.Named,
         OthersKept, OthersOnDisk, Struck, OwnedBy, FatVolume.FreeFrom, Slots, BootKept;
    ghost var m, d, v, p := fat.m, fat.Disk(), fat.Vol(), fcb[1..12];
    PackedIsRaw(p, name, base, ext);
    rc := DeleteFcb(fat, fcb, name);
    StillMounted(m, d, fat.Disk());
    OthersAreOnDisk(m, d, fat.Disk(), p);
    LookupIsFormat(m, d, p, 0, []);
    LookupIsFormat(m, fat.Disk(), p, 0, []);
    NamesStay(v, fat.Vol(), p);
  }

  /** No name appears that was not there. */
  lemma NamesStay(v: Volume, v': Volume, p: seq<byte>)
    requires Sane(v) && Sane(v') && CanonicalNames(v.dir) && Struck(v.dir, v'.dir, p)
    ensures CanonicalNames(v'.dir)
  {
    hide Canonical;
    forall i: nat | Used(v'.dir, i)
      ensures Canonical(NameOf(v'.dir[i]))
    {
      assert Used(v.dir, i);
    }
  }
}
