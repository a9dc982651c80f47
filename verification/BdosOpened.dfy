/**
 Record writes through control blocks that were opened (BDOS 15) rather than made. Opening does not enter where the
 file's directory slot lies, so the size and first cluster go wherever the handle's last made file lay.
 */
module BdosOpened {
  import opened Bytes
  import opened Wrappers
  import opened FatVolume
  import opened FatFiles
  import opened FatWrites
  import opened FatNames
  import opened FatLayout
  import opened FatMount
  import opened FatDriver
  import opened FatPlaces
  import opened BdosFiles
  import opened BdosHandles
  import opened BdosRecords
  import opened BdosWrites

  /** Every file of that name has a chain as long as its size needs. */
  ghost predicate NameTight(v: Volume, name: seq<byte>) {
    forall i: nat :: Used(v.dir, i) && NameOf(v.dir[i]) == name ==> Tight(v, i)
  }

  /** What a call that took the record has done, and when that is right. */
  ghost predicate PutBy(v: Volume, v': Volume, s: nat, a: nat, r: nat, rec: seq<byte>)
    requires Sane(v) && Used(v.dir, s) && a <= |v.dir| && v.clusSize > 0
  {
    Shape(v) && PutThrough(v, v', s, a, r, rec) && (RecordPut(v, v', s, r, rec) <==> PlaceFits(v, s, a, r))
  }

  lemma OpenShape(fat: Driver, fp: FatFile, s: nat, a: nat)
    requires fat.Ready() && OpenFile(fat, fp, s) && PlaceAt(fat.m, fp.dirLba, fp.dirOff, a)
    ensures var v := fat.Vol(); Used(v.dir, s) && Tight(v, s) && v.clusSize > 0 && a <= Slots(fat.m) == |v.dir|
  {
    hide View, Sound, Mirrored, TablesFit, SlotAt, PlaceAt, Slots;
    fat.PlaceFacts(fp.dirLba, fp.dirOff, a);
    fat.PositiveCluster();
  }

  /** Going to record `r` of an open file and writing it. */
  method WriteRecordAt(fat: Driver, hs: Handles, fcb: array<byte>, dma: array<byte>, r: nat, ghost s: nat, ghost a: nat) returns (rc: nat)
    requires fat.Ready() && Sane(fat.Vol()) && hs.Valid() && fcb.Length >= 36 && fat.Outside(fcb) && r < RECORDS
    requires fat.Outside(dma) && dma.Length >= RECORD && dma != fcb
    requires hs.Target(fcb[..]).Some?
    requires var fp := hs.files[hs.Target(fcb[..]).value]; OpenFile(fat, fp, s) && PlaceAt(fat.m, fp.dirLba, fp.dirOff, a)
    modifies fat`secValid, fat`fatLba, fat`fatValid, fat.dev, fat.dev.shadow, fat.wbuf, fcb
    modifies hs.files`firstClus, hs.files`curClus, hs.files`curPos, hs.files`fileSize
    ensures fat.Ready() && hs.Target(fcb[..]) == old(hs.Target(fcb[..])) && (rc == 0 || rc == 0xFF) && a <= Slots(fat.m)
    ensures var v := old(fat.Vol());
            && Used(v.dir, s) && Tight(v, s) && v.clusSize > 0 && |v.dir| == Slots(fat.m)
            && (rc == 0 <==> CanPut(v, s, r)) && (rc == 0 ==> PutBy(v, fat.Vol(), s, a, r, old(dma[..RECORD])))
    ensures rc == 0 && a == Slots(fat.m) ==>
              var fp := hs.files[hs.Target(fcb[..]).value];
              && |old(fat.Disk())| >= SECTOR
              && fat.Disk()[..SECTOR] == Splice(old(fat.Disk())[..SECTOR], 0, Entered(old(fat.Disk())[..32], fp.firstClus, fp.fileSize))
  {
    hide View, OnDisk, Sound, Mirrored, TablesFit, Sane, SlotAt, PlaceAt, Content, Lookup, RecordOf, CanPut, SlotKept, RecordPut,
         OwnKept, PutThrough, PlaceFits, BootKept, Splice, Entered, Slots, Normal, Tight, Writing, RecordHandle, MidCluster;
    ghost var fp := hs.files[hs.Target(fcb[..]).value];
    OpenShape(fat, fp, s, a);
    ghost var f := fcb[..];
    SetRecord(fcb, r);
    TargetKept(hs, f, fcb[..]);
    rc := WriteSeq(fat, hs, fcb, dma, s, a);
  }

  /**
   A program that opens a file, goes to record `r`, and writes it. The place `a` is what the handle's structure held
   before. The call says 0 whatever the place is, but the record is written rightly exactly when the place fits.
   */
  method OpenAndWrite(fat: Driver, hs: Handles, fcb: array<byte>, dma: array<byte>, r: nat, ghost name: seq<byte>, ghost a: nat)
    returns (ok: bool, rc: nat, ghost s: nat)
    requires fat.Ready() && Sane(fat.Vol()) && CanonicalNames(fat.Vol().dir) && hs.Valid() && r < RECORDS
    requires fat.Outside(fcb) && fcb.Length >= 36 && fcb[0] == 0 && FileName(name) && fcb[1..12] == Raw(name)
    requires fat.Outside(dma) && dma.Length >= RECORD && dma != fcb && NameTight(fat.Vol(), Raw(name))
    requires var i := FreeEntry(hs.inUse, 0); i < MAX_OPEN ==> PlaceAt(fat.m, hs.files[i].dirLba, hs.files[i].dirOff, a)
    modifies hs`inUse, hs`gen, hs`nextGeneration, hs.files, fcb
    modifies fat`secValid, fat`fatLba, fat`fatValid, fat.dev, fat.dev.shadow, fat.wbuf
    ensures fat.Ready() && old(Sane(fat.Vol()))
    ensures var f := Lookup(old(fat.Vol()), Raw(name));
            ok <==> FreeEntry(old(hs.inUse), 0) < MAX_OPEN && f.Some? && f.value.attr as int / 16 % 2 == 0
    ensures !ok ==> fat.Disk() == old(fat.Disk())
    ensures ok ==>
              var v := old(fat.Vol());
              && Used(v.dir, s) && NameOf(v.dir[s]) == Raw(name) && Tight(v, s) && v.clusSize > 0 && a <= |v.dir| == Slots(fat.m)
              && (rc == 0 || rc == 0xFF) && (rc == 0 <==> CanPut(v, s, r)) && (rc == 0 ==> PutBy(v, fat.Vol(), s, a, r, old(dma[..RECORD])))
    ensures ok && rc == 0 && a == Slots(fat.m) ==>
              var fp := hs.files[FreeEntry(old(hs.inUse), 0)];
              && |old(fat.Disk())| >= SECTOR
              && fat.Disk()[..SECTOR] == Splice(old(fat.Disk())[..SECTOR], 0, Entered(old(fat.Disk())[..32], fp.firstClus, fp.fileSize))
  {
    hide View, OnDisk, Sound, Mirrored, TablesFit, Sane, SlotAt, PlaceAt, Content, Lookup, Tight, RecordOf, CanPut, PutBy, BootKept, Splice,
         Entered, Slots, Raw, FileName, CanonicalNames, Normal, OpenedAt;
    rc := 0;
    var code;
    code, s := OpenFcb(fat, hs, fcb, name);
    ok := code == 0;
    if !ok {
      return;
    }
    rc := WriteRecordAt(fat, hs, fcb, dma, r, s, a);
  }

  // ---------- a handle that was never used to make a file ----------

  /** Its place is sector 0, which is no slot's. */
  lemma FreshPlace(m: Mount, n: nat)
    requires Sound(m, n) && m.rsvdSec >= 1
    ensures PlaceAt(m, 0, 0, Slots(m)) && forall s :: !SlotAt(m, 0, 0, s)
  {
    hide Slots;
  }

  /** There the entry overwrites fields of the boot sector: the volume's 16-bit sector count loses its high byte. */
  lemma BootShrinks(b: seq<byte>, first: nat, size: nat)
    requires |b| == SECTOR && 0 < first < 0x1_0000
    ensures var b' := Splice(b, 0, Entered(b[..32], first, size));
            && Le16(b', 19) == Le16(b, 19) % 0x100
            && (Le16(b, 19) % 0x100 > 0 && Geometry(b).Good? && Geometry(b').Good? ==>
                  Geometry(b').m.totalSec == Geometry(b).m.totalSec % 0x100)
  {
    hide Put32;
    var e := b[..32];
    var e' := Entered(e, first, size);
    HighByteGone(Put32(e, 28, size), first);
    var b' := Splice(b, 0, e');
    assert b'[19] == e'[19] && b'[20] == e'[20];
  }

  lemma HighByteGone(e: seq<byte>, first: nat)
    requires |e| == 32 && first < 0x1_0000
    ensures SetFirst(e, first)[20] == 0 && SetFirst(e, first)[19] == e[19]
  {
  }

  // ---------- a handle that was last used to make another file ----------

  /** BDOS 16. */
  method CloseFcb(hs: Handles, fcb: array<byte>) returns (rc: nat)
    requires hs.Valid() && fcb.Length >= 36
    modifies hs`inUse, hs.files`inUse, fcb
    ensures hs.Valid()
    ensures match old(hs.Target(fcb[..]))
            case None => rc == 0xFF && hs.inUse == old(hs.inUse) && fcb[..] == old(fcb[..])
            case Some(i) => rc == 0 && i < MAX_OPEN && hs.inUse == old(hs.inUse)[i := false] && !hs.files[i].inUse && hs.Target(fcb[..]) == None
    ensures forall k :: 0 <= k < fcb.Length && k != 16 ==> fcb[k] == old(fcb[k])
  {
    var h := hs.ResolveFcb(fcb);
    if h.None? {
      return 0xFF;
    }
    hs.files[h.value].inUse := false;
    hs.Release(h.value);
    fcb[16] := 0;
    rc := 0;
  }

  /** A write that enters a file's first cluster in another file's slot leaves two files of one chain. */
  lemma PutBreaks(v: Volume, v': Volume, s: nat, a: nat, r: nat, rec: seq<byte>)
    requires Sane(v) && Tight(v, s) && |rec| == RECORD && r < RECORDS && v.clusSize > 0 && v.clusSize % SECTOR == 0 && |v.fat| < U32
    requires Used(v.dir, a) && a != s && Shape(v) && Used(v.dir, s) && FirstOf(v.dir[s]) != 0
    requires RECORD * r < SizeOf(v.dir[s]) && PutThrough(v, v', s, a, r, rec)
    ensures !Sane(v')
  {
    hide Sane, EnteredAt, Write, Flush, SlotKept, OwnKept, Tight, RecordHandle, Writable, RecordPut, PlaceFits, WriteAt, CanPut;
    RecordFlush(v, s, r, rec);
    var h := RecordHandle(v, s, RECORD * r);
    OtherPlace(v, a, h, rec);
    FirstSmall(v, s);
    var (v2, h2, _) := Write(v, h, rec);
    KeptSane(v, v2, s);
    TwoOwners(v2, a, h2);
  }

  /** The slot that opening finds after another file was made is the one that was there before. */
  lemma OtherName(v: Volume, v1: Volume, nameA: seq<byte>, nameB: seq<byte>, a: nat)
    requires Sane(v) && Made(v, v1, nameA, a) && nameA != nameB && NameTight(v, nameB)
    ensures NameTight(v1, nameB) && Lookup(v1, nameB) == Lookup(v, nameB)
  {
    hide Lookup, Tight, CanonicalNames;
    forall i: nat | Used(v1.dir, i) && NameOf(v1.dir[i]) == nameB
      ensures Tight(v1, i)
    {
      assert i != a;
      assert v1.dir[i] == v.dir[i];
    }
  }

  /** Making a file and closing it again: the handle is free, and its structure keeps the place of the new slot. */
  method MakeAndClose(fat: Driver, hs: Handles, fcb: array<byte>, ghost name: seq<byte>) returns (ghost a: nat)
    requires fat.Ready() && Sane(fat.Vol()) && CanonicalNames(fat.Vol().dir) && hs.Valid()
    requires fat.Outside(fcb) && fcb.Length >= 36 && fcb[0] == 0 && FileName(name) && fcb[1..12] == Raw(name)
    requires FreeEntry(hs.inUse, 0) < MAX_OPEN && Creatable(fat.Vol(), Raw(name))
    modifies hs`inUse, hs`gen, hs`nextGeneration, hs.files, fcb
    modifies fat`secValid, fat`fatLba, fat`fatValid, fat.dev, fat.dev.shadow, fat.wbuf
    ensures fat.Ready() && old(Sane(fat.Vol())) && hs.Valid() && hs.inUse == old(hs.inUse) && Made(old(fat.Vol()), fat.Vol(), Raw(name), a)
    ensures var fp := hs.files[FreeEntry(hs.inUse, 0)]; PlaceAt(fat.m, fp.dirLba, fp.dirOff, a)
  {
    hide View, OnDisk, Sound, Mirrored, TablesFit, Sane, SlotAt, Tight, RecordOf, Slots, Raw, FileName, CanonicalNames, Made, Creatable;
    var rc;
    rc, a := MakeFcb(fat, hs, fcb, name);
    rc := CloseFcb(hs, fcb);
    FreeAgain(old(hs.inUse), hs.inUse);
  }

  lemma FreeAgain(before: seq<bool>, after: seq<bool>)
    requires |before| == MAX_OPEN && FreeEntry(before, 0) < MAX_OPEN
    requires after == before[FreeEntry(before, 0) := true][FreeEntry(before, 0) := false]
    ensures after == before
  {
  }

  /** What writing the first record of file B through A's slot comes to. */
  lemma StaleWriteBreaks(v: Volume, v': Volume, s: nat, a: nat, nameA: seq<byte>, nameB: seq<byte>, rec: seq<byte>)
    requires Sane(v) && Used(v.dir, a) && NameOf(v.dir[a]) == nameA && Used(v.dir, s) && NameOf(v.dir[s]) == nameB && nameA != nameB
    requires Tight(v, s) && v.clusSize > 0 && v.clusSize % SECTOR == 0 && |v.fat| < U32 && |rec| == RECORD
    requires Lookup(v, nameB).Some? && Lookup(v, nameB).value.bytes != []
    ensures CanPut(v, s, 0) && (PutBy(v, v', s, a, 0, rec) ==> !Sane(v'))
  {
    hide RecordPut, PlaceFits, Lookup, Content;
    LookupSlot(v, s);
    SizeIsLength(v, s);
    SaneShape(v);
    NoChainAtZero(v.ty, v.fat);
    if PutBy(v, v', s, a, 0, rec) {
      PutBreaks(v, v', s, a, 0, rec);
    }
  }

  /**
   Making file A, closing it, opening file B and writing its first record: B is opened on the handle A was made with,
   and the flush enters B's chain in A's slot. Every call says 0, and the volume is no longer well formed.
   */
  method MakeThenOpen(fat: Driver, hs: Handles, fcbA: array<byte>, fcbB: array<byte>, dma: array<byte>,
                      ghost nameA: seq<byte>, ghost nameB: seq<byte>)
    returns (rc: nat)
    requires fat.Ready() && Sane(fat.Vol()) && CanonicalNames(fat.Vol().dir) && hs.Valid() && fcbA != fcbB
    requires fat.Outside(fcbA) && fcbA.Length >= 36 && fcbA[0] == 0 && FileName(nameA) && fcbA[1..12] == Raw(nameA)
    requires fat.Outside(fcbB) && fcbB.Length >= 36 && fcbB[0] == 0 && FileName(nameB) && fcbB[1..12] == Raw(nameB)
    requires fat.Outside(dma) && dma.Length >= RECORD && dma != fcbA && dma != fcbB
    requires FreeEntry(hs.inUse, 0) < MAX_OPEN && Raw(nameA) != Raw(nameB) && Creatable(fat.Vol(), Raw(nameA))
    requires NameTight(fat.Vol(), Raw(nameB)) && Lookup(fat.Vol(), Raw(nameB)).Some?
    requires var f := Lookup(fat.Vol(), Raw(nameB)).value; f.attr as int / 16 % 2 == 0 && f.bytes != []
    modifies hs`inUse, hs`gen, hs`nextGeneration, hs.files, fcbA, fcbB
    modifies fat`secValid, fat`fatLba, fat`fatValid, fat.dev, fat.dev.shadow, fat.wbuf
    ensures fat.Ready() && rc == 0 && !Sane(fat.Vol())
  {
    hide View, OnDisk, Sound, Mirrored, TablesFit, Sane, PlaceAt, Lookup, Tight, CanPut, PutBy, Slots, Raw, FileName, CanonicalNames,
         Creatable, Splice, Entered;
    ghost var v0 := fat.Vol();
    ghost var a := MakeAndClose(fat, hs, fcbA, nameA);
    ghost var v1 := fat.Vol();
    OtherName(v0, v1, Raw(nameA), Raw(nameB), a);
    fat.PositiveCluster();
    FewClusters(fat.m, fat.Disk());
    TightUsed(v1, a);
    ghost var s;
    var ok;
    ok, rc, s := OpenAndWrite(fat, hs, fcbB, dma, 0, nameB, a);
    StaleWriteBreaks(v1, fat.Vol(), s, a, Raw(nameA), Raw(nameB), old(dma[..RECORD]));
  }
}
