/** The whole-file calls of the kernel (bdos.c): save and load on drive A, user 0. */
module BdosFiles {
  import opened Bytes
  import opened Numbers
  import opened Wrappers
  import opened FatVolume
  import opened FatChains
  import opened FatFiles
  import opened FatOps
  import opened FatWrites
  import opened FatSave
  import opened FatReads
  import opened FatNames
  import opened FatLayout
  import opened FatDriver

  /** What the calls return on failure. */
  const FAILED: nat := 0xFFFF_FFFF

  /** build_path for the root of drive A; the buffer holds 39 characters. */
  function PathOf(name: seq<byte>): seq<byte> {
    if name == [] then [] else [SLASH] + if |name| <= 38 then name else name[..38]
  }

  /** A name a caller may save under and find again: 8.3, no slash, not starting with the deletion mark. */
  predicate FileName(name: seq<byte>) {
    WellFormed(name) && name != [] && name[0] != DELETED && 0 !in name && SLASH !in name
  }

  lemma FileNameIs(name: seq<byte>)
    requires FileName(name)
    ensures StripSlash(PathOf(name)) == name && FirstName(name) == name && Nameable(Raw(name))
  {
    if BaseLen(name, 8) > 0 {
      assert Raw(name)[0] == UpperByte(name[0]);
    }
  }

  /** BDOS 120: 0 when every byte was stored. */
  method SaveFile(fat: Driver, name: seq<byte>, data: seq<byte>) returns (rc: nat)
    requires fat.Ready() && |data| < U32
    modifies fat`secValid, fat`fatLba, fat`fatValid, fat.dev, fat.dev.shadow, fat.wbuf
    ensures fat.Ready() && BootKept(fat.m, old(fat.Disk()), fat.Disk())
    ensures match Save(old(fat.Vol()), Raw(StripSlash(PathOf(name))), data)
            case Refused => rc == FAILED && fat.Vol() == old(fat.Vol())
            case Stored(v, kept) => fat.Vol() == v && rc == if kept == |data| then 0 else FAILED
  {
    hide Create, Write, Flush, Raw, View, OnDisk, Sound, BootKept, Mirrored, TablesFit, SlotAt;
    var fp := new FatFile();
    ghost var s;
    var code;
    ghost var d0 := fat.Disk();
    code, s := fat.FCreate(PathOf(name), fp);
    if code != 0 {
      return FAILED;
    }
    ghost var d1 := fat.Disk();
    var wrote := fat.FWrite(fp, data, s);
    ghost var d2 := fat.Disk();
    code := fat.FFlush(fp, s);
    fp.inUse := false;
    fat.BootKeptTrans(fat.m, d0, d1, d2);
    fat.BootKeptTrans(fat.m, d0, d2, fat.Disk());
    rc := if wrote == |data| then 0 else FAILED;
  }

  /** What a file of a well-formed volume offers a reader. */
  lemma FileForReader(v: Volume, s: nat) returns (ch: seq<nat>)
    requires Sane(v) && Used(v.dir, s)
    ensures SlotOk(v, s) && ch == Owned(v, s)
    ensures ch != [] ==> IsChain(v.ty, v.fat, ch) && ch[0] == FirstOf(v.dir[s])
    ensures SizeOf(v.dir[s]) <= Span(v.clusSize, |ch|) == |Flat(v.data, ch)|
    ensures Content(v, s) == Flat(v.data, ch)[..SizeOf(v.dir[s])]
  {
    ch := Owned(v, s);
    assert SlotOk(v, s);
    OwnedFlat(v, s);
  }

  /** What a name stands for when it is opened: nothing, unless it is an 8.3 name. */
  ghost function Meant(v: Volume, name: seq<byte>): Option<File>
    requires Sane(v)
  {
    if name != [] && WellFormed(name) then Lookup(v, Raw(name)) else None
  }

  /** A name cut to the 15 characters the driver takes is no 8.3 name unless the whole is. */
  lemma CutNames(name: seq<byte>)
    ensures WellFormed(FirstName(name)) <==> WellFormed(name)
    ensures WellFormed(name) ==> FirstName(name) == name && |name| <= 12
  {
  }

  lemma NameOfPath(name: seq<byte>)
    requires SLASH !in name
    ensures SLASH !in StripSlash(PathOf(name)) && FirstName(StripSlash(PathOf(name))) == FirstName(name)
  {
  }

  lemma MeantFile(v: Volume, name: seq<byte>)
    requires Sane(v) && FileName(name)
    ensures FirstName(name) == name && Meant(v, name) == Lookup(v, Raw(name)) && SLASH !in name
  {
    FileNameIs(name);
    hide Lookup, Raw, Sane;
  }

  /** fat_fopen of a name: it succeeds on exactly the names that stand for a file that is no directory. */
  method OpenNamed(fat: Driver, name: seq<byte>, fp: FatFile) returns (ok: bool, ghost s: nat)
    requires fat.Ready() && Sane(fat.Vol()) && CanonicalNames(fat.Vol().dir) && SLASH !in name
    modifies fat.dev, fat.dev.shadow, fp
    ensures fat.Ready() && fat.Disk() == old(fat.Disk())
    ensures match Meant(fat.Vol(), name)
            case None => !ok
            case Some(f) =>
              && (ok <==> f.attr as int / 16 % 2 == 0)
              && Used(fat.Vol().dir, s) && NameOf(fat.Vol().dir[s]) == Raw(name) && SlotOk(fat.Vol(), s)
              && f == File(fat.Vol().dir[s][11], Content(fat.Vol(), s))
    ensures ok ==> Meant(fat.Vol(), name).Some? && fp.inUse
                   && fat.HandleOf(fp, s) == Handle(s, FirstOf(fat.Vol().dir[s]), FirstOf(fat.Vol().dir[s]), 0, SizeOf(fat.Vol().dir[s]))
    ensures fp.dirLba == old(fp.dirLba) && fp.dirOff == old(fp.dirOff)
  {
    hide View, OnDisk, Sound, Mirrored, TablesFit, Flat, Raw, CanonicalNames, Content, PathOf, StripSlash, FirstName, WellFormed;
    NameOfPath(name);
    CutNames(name);
    EmptyPath();
    FindAgrees(fat.Vol().dir, FirstName(name), 0);
    var code;
    code, s := fat.FOpen(PathOf(name), fp);
    ok := code == 0;
  }

  lemma EmptyPath()
    ensures forall name: seq<byte> :: FirstName(name) == [] <==> name == []
  {
  }

  const SIGNED := 0x8000_0000

  /** A 32-bit count returned as a signed number. */
  function Signed(n: nat): (r: int)
    requires n < U32
    ensures r > 0 <==> 0 < n < SIGNED
  {
    if n < SIGNED then n else n - U32
  }

  /** What the load call returns for `n` bytes read: a count from 2^31 on looks like an error to its loop. */
  function Reported(n: nat): nat {
    if n < SIGNED then n else 0
  }

  /** BDOS 121: the length of the file, or the failure value. */
  method LoadFile(fat: Driver, name: seq<byte>, dst: array<byte>, max: nat) returns (rc: nat)
    requires fat.Ready() && fat.Outside(dst) && Sane(fat.Vol()) && CanonicalNames(fat.Vol().dir) && SLASH !in name
    requires max <= dst.Length && max < U32
    modifies fat`secLba, fat`secValid, fat`fatLba, fat`fatValid, fat.dev, fat.dev.shadow, fat.secBuf, fat.wbuf, dst
    ensures fat.Ready() && fat.Disk() == old(fat.Disk())
    ensures match Meant(old(fat.Vol()), name)
            case None => rc == FAILED
            case Some(f) =>
              if max == 0 || f.attr as int / 16 % 2 == 1 then rc == FAILED
              else
                var n := Least(|f.bytes|, max);
                rc == Reported(n) && dst[..] == Splice(old(dst[..]), 0, f.bytes[..n])
  {
    hide View, OnDisk, Sound, Mirrored, TablesFit, Flat, Sane, Meant, Splice, CanonicalNames, Span, Content, Reported, IsChain;
    if max == 0 {
      return FAILED;
    }
    var fp := new FatFile();
    var ok;
    ghost var s;
    ok, s := OpenNamed(fat, name, fp);
    if !ok {
      return FAILED;
    }
    ghost var v := fat.Vol();
    ghost var ch := FileForReader(v, s);
    rc := ReadToEnd(fat, fp, dst, max, ch);
    PrefixOfPrefix(Flat(v.data, ch), fp.fileSize, Least(fp.fileSize, max));
    fp.inUse := false;
  }

  lemma PrefixOfPrefix(s: seq<byte>, m: nat, n: nat)
    requires n <= m <= |s|
    ensures s[..m][..n] == s[..n]
  {
  }

  /** Reading until the file or the buffer ends. */
  method ReadToEnd(fat: Driver, fp: FatFile, dst: array<byte>, max: nat, ghost ch: seq<nat>) returns (total: nat)
    requires fat.Ready() && fat.Outside(dst) && max <= dst.Length && max < U32 && fp.inUse && fp.curPos == 0
    requires ch != [] ==> IsChain(fat.m.ty, fat.Vol().fat, ch) && fp.curClus == ch[0]
    requires fp.fileSize <= Span(ClusSize(fat.m), |ch|) == |Flat(fat.Vol().data, ch)|
    modifies fat`secLba, fat`secValid, fat`fatLba, fat`fatValid, fat.dev, fat.dev.shadow, fat.secBuf, fat.wbuf, dst
    modifies fp`curPos, fp`curClus
    ensures fat.Ready() && fat.Disk() == old(fat.Disk()) && total == Reported(Least(fp.fileSize, max))
    ensures dst[..] == Splice(old(dst[..]), 0, Flat(fat.Vol().data, ch)[..Least(fp.fileSize, max)])
  {
    hide View, OnDisk, Sound, Mirrored, TablesFit, Flat, Splice, IsChain, Span;
    fat.ReadyFacts();
    fat.PositiveCluster();
    ghost var n := Least(fp.fileSize, max);
    ghost var bytes := Flat(fat.Vol().data, ch);
    TwoPieces(dst[..], 0, bytes, 0, 0, n);
    assert bytes[..0] == bytes[0..0] && bytes[..n] == bytes[0..n];
    total := 0;
    while total < max
      invariant (total == 0 || total == n < SIGNED) && fp.curPos == total
      invariant fat.Ready() && fat.Disk() == old(fat.Disk())
      invariant total == 0 && ch != [] ==> fp.curClus == ch[0]
      invariant dst[..] == Splice(old(dst[..]), 0, bytes[..total])
      decreases n - total
    {
      Origin(ClusSize(fat.m), |ch|);
      var produced, j := fat.FRead(fp, dst, total, max - total, ch, 0);
      var k := Signed(produced);
      if k <= 0 {
        break;
      }
      total := total + k;
    }
  }

  lemma Origin(cs: nat, n: nat)
    requires cs > 0
    ensures Span(cs, 0) + 0 % cs == 0 && (n == 0 ==> Span(cs, n) == 0)
  {
  }

  /** Names that were canonical stay so, because every listed name is either an old one or the one saved. */
  lemma SaveNames(v: Volume, name: seq<byte>, v': Volume)
    requires Sane(v) && CanonicalNames(v.dir) && Sane(v') && OthersKept(v, v', name) && Canonical(name)
    ensures CanonicalNames(v'.dir)
  {
    hide Sane, Lookup, Canonical;
    forall i: nat | Used(v'.dir, i)
      ensures Canonical(NameOf(v'.dir[i]))
    {
      var n := NameOf(v'.dir[i]);
      LookupSlot(v', i);
      if n != name {
        assert Lookup(v', n) == Lookup(v, n);
        LookupNone(v, n);
        var k: nat :| Used(v.dir, k) && NameOf(v.dir[k]) == n;
      }
    }
  }

  lemma SameRaw(a: seq<byte>, b: seq<byte>)
    requires FileName(a) && FileName(b) && SameButCase(a, b)
    ensures Raw(a) == Raw(b) && Canonical(Raw(a)) && Nameable(Raw(a))
  {
    RawIgnoresCase(a, b);
    RawIsCanonical(a);
    FileNameIs(a);
  }

  /** Whether a save of `n` bytes under `name` has a slot and clusters enough. */
  ghost predicate HasRoom(v: Volume, name: seq<byte>, n: nat)
    requires Sane(v)
  {
    && (Lookup(v, name).Some? || FirstVacant(v.dir, 0) < |v.dir|)
    && n <= Span(v.clusSize, FreeCount(v) + |OwnedBy(v, name)|)
  }

  lemma SaveMeaning(v: Volume, name: seq<byte>, data: seq<byte>)
    requires Sane(v) && CanonicalNames(v.dir) && FileName(name) && |data| < U32
    ensures Nameable(Raw(name))
    ensures match Save(v, Raw(name), data)
            case Refused => !HasRoom(v, Raw(name), |data|)
            case Stored(v', kept) =>
              && Sane(v') && CanonicalNames(v'.dir) && OthersKept(v, v', Raw(name))
              && (kept == |data| <==> HasRoom(v, Raw(name), |data|))
              && kept <= |data| && Lookup(v', Raw(name)) == Some(File(ARCHIVE, data[..kept]))
    ensures OthersKept(v, v, Raw(name))
  {
    hide Sane, Lookup, Save, CanonicalNames, Raw, Canonical, OwnedBy, Span;
    SaneShape(v);
    FileNameIs(name);
    SameRaw(name, name);
    SaveKeeps(v, Raw(name), data);
    if Save(v, Raw(name), data).Stored? {
      SaveNames(v, Raw(name), Save(v, Raw(name), data).vol);
    }
  }

  /**
   Saving and loading again, under any spelling of the name that differs only in case, returns the bytes saved.
   Saving works exactly when the name exists or a slot is vacant, and the bytes fit in the free clusters
   together with those the old file gives back.
   */
  method SaveThenLoad(fat: Driver, name: seq<byte>, data: seq<byte>, again: seq<byte>, dst: array<byte>)
    returns (saved: nat, loaded: nat)
    requires fat.Ready() && fat.Outside(dst) && Sane(fat.Vol()) && CanonicalNames(fat.Vol().dir)
    requires FileName(name) && FileName(again) && SameButCase(again, name)
    requires 0 < dst.Length && |data| <= dst.Length < U32
    modifies fat`secLba, fat`secValid, fat`fatLba, fat`fatValid, fat.dev, fat.dev.shadow, fat.secBuf, fat.wbuf, dst
    ensures fat.Ready() && Sane(fat.Vol()) && CanonicalNames(fat.Vol().dir) && old(Sane(fat.Vol()))
    ensures saved == 0 <==> old(HasRoom(fat.Vol(), Raw(name), |data|))
    ensures saved == 0 || saved == 0xFFFF_FFFF
    ensures saved == 0 ==> loaded == (if |data| < 0x8000_0000 then |data| else 0) && dst[..|data|] == data
    ensures OthersKept(old(fat.Vol()), fat.Vol(), Raw(name))
  {
    hide View, OnDisk, Sound, Mirrored, TablesFit, Sane, Raw, CanonicalNames, Lookup, Save, FileName, Canonical, BootKept,
         HasRoom, OthersKept, Splice, Meant;
    SameRaw(again, name);
    FileNameIs(name);
    SaveMeaning(fat.Vol(), name, data);
    assert data[..|data|] == data;
    saved := SaveFile(fat, name, data);
    ghost var v := fat.Vol();
    assert saved == 0 ==> Lookup(v, Raw(name)) == Some(File(ARCHIVE, data));
    MeantFile(v, again);
    SpliceStart(dst[..], data);
    loaded := LoadFile(fat, again, dst, dst.Length);
  }
}
