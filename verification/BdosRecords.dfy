/** Sequential record calls on a control block (bdos.c): open, read, and what a program that reads to the end sees. */
module BdosRecords {
  import opened Bytes
  import opened Numbers
  import opened Wrappers
  import opened FatVolume
  import opened FatChains
  import opened FatFiles
  import opened FatOps
  import opened FatReads
  import opened FatNames
  import opened FatLayout
  import opened FatDriver
  import opened BdosFiles
  import opened BdosHandles

  const RECORD := 128
  const CPM_EOF: byte := 0x1A
  /** One past the largest record number the extent fields can hold. */
  const RECORDS := 0x10_0000

  // ---------- what a reader sees ----------

  /** `n` end-of-file characters. */
  function Filling(n: nat): (f: seq<byte>)
    ensures |f| == n
  {
    seq(n, _ => CPM_EOF)
  }

  /** Record `r` of a file, filled up with end-of-file characters, if the file reaches that far. */
  function RecordAt(bytes: seq<byte>, r: nat): (o: Option<seq<byte>>)
    ensures o.Some? ==> |o.value| == RECORD
  {
    var at := RECORD * r;
    if at >= |bytes| then None
    else if |bytes| - at >= RECORD then Some(bytes[at..at + RECORD])
    else Some(bytes[at..] + Filling(RECORD - (|bytes| - at)))
  }

  /** The number of records of a file. */
  function RecordCount(size: nat): nat {
    (size + 127) / RECORD
  }

  /** A file filled up to a whole number of records. */
  function Padded(bytes: seq<byte>): (p: seq<byte>)
    ensures |p| == RECORD * RecordCount(|bytes|)
  {
    bytes + Filling(RECORD * RecordCount(|bytes|) - |bytes|)
  }

  /** What `n` sequential reads from record `r` deliver, and whether end of file was reported. */
  function Drain(bytes: seq<byte>, r: nat, n: nat): (d: (seq<byte>, bool))
    decreases n
  {
    if n == 0 then ([], false)
    else match RecordAt(bytes, r)
      case None => ([], true)
      case Some(rec) =>
        var (rest, eof) := Drain(bytes, (r + 1) % RECORDS, n - 1);
        (rec + rest, eof)
  }

  /** By the bytes: record `r` is the 128 bytes from 128 * r on, filled up with 0x1A, and there is none behind the end. */
  lemma RecordBytes(bytes: seq<byte>, r: nat)
    ensures RecordAt(bytes, r).Some? <==> 128 * r < |bytes|
    ensures RecordAt(bytes, r).Some? ==>
              |RecordAt(bytes, r).value| == 128 &&
              forall i :: 0 <= i < 128 ==> RecordAt(bytes, r).value[i] == if 128 * r + i < |bytes| then bytes[128 * r + i] else 0x1A
  {
  }

  lemma RecordIs(bytes: seq<byte>, r: nat)
    ensures RecordAt(bytes, r).Some? <==> r < RecordCount(|bytes|)
    ensures r < RecordCount(|bytes|) ==>
              && RECORD * r + RECORD <= |Padded(bytes)|
              && RecordAt(bytes, r).value == Padded(bytes)[RECORD * r..RECORD * r + RECORD]
  {
  }

  /** Reading on from record `r` of a file the fields can number: the rest of it, and then the end. */
  lemma {:induction false} DrainRest(bytes: seq<byte>, r: nat, n: nat)
    requires RecordCount(|bytes|) < RECORDS && r <= RecordCount(|bytes|)
    ensures RECORD * r <= |Padded(bytes)|
    ensures n > RecordCount(|bytes|) - r ==> Drain(bytes, r, n) == (Padded(bytes)[RECORD * r..], true)
    decreases n
  {
    hide Padded, RecordAt, RecordCount;
    RecordIs(bytes, r);
    if n > RecordCount(|bytes|) - r {
      if r < RecordCount(|bytes|) {
        DrainRest(bytes, r + 1, n - 1);
        var p := Padded(bytes);
        assert p[RECORD * r..RECORD * r + RECORD] + p[RECORD * (r + 1)..] == p[RECORD * r..];
      } else {
        assert Padded(bytes)[RECORD * r..] == [];
      }
    }
  }

  /** On a file with as many records as the fields can number, or more, no number of reads reports the end. */
  lemma {:induction false} DrainNeverEnds(bytes: seq<byte>, r: nat, n: nat)
    requires RecordCount(|bytes|) >= RECORDS && r < RECORDS
    ensures !Drain(bytes, r, n).1
    decreases n
  {
    RecordIs(bytes, r);
    if n > 0 {
      DrainNeverEnds(bytes, (r + 1) % RECORDS, n - 1);
    }
  }

  /** Reading from the start delivers the padded file and reports the end exactly for files of at most 2^27 - 128 bytes. */
  lemma DrainWhole(bytes: seq<byte>)
    ensures (exists n :: Drain(bytes, 0, n) == (Padded(bytes), true)) <==> |bytes| <= RECORD * (RECORDS - 1)
  {
    if |bytes| <= RECORD * (RECORDS - 1) {
      var n := RecordCount(|bytes|) + 1;
      DrainRest(bytes, 0, n);
      assert Drain(bytes, 0, n) == (Padded(bytes), true);
    } else {
      forall n: nat
        ensures !Drain(bytes, 0, n).1
      {
        DrainNeverEnds(bytes, 0, n);
      }
    }
  }

  /** The record a freshly opened control block stands at: its extent fields come from the file's size. */
  function OpenedAt(size: nat): nat {
    RecordCount(size) / 0x80 % 0x20 * 0x80 + RecordCount(size) / 0x1000 % 0x100 * 0x1000
  }

  /**
   A program that opens a file and reads to the end gets the whole file exactly when the file has fewer than
   128 records; of a longer one, it gets the records of the last extent only.
   */
  lemma OpenThenDrain(bytes: seq<byte>, n: nat)
    requires RecordCount(|bytes|) < RECORDS && n > RecordCount(|bytes|)
    ensures OpenedAt(|bytes|) == RecordCount(|bytes|) / 0x80 * 0x80 && RECORD * OpenedAt(|bytes|) <= |Padded(bytes)|
    ensures Drain(bytes, OpenedAt(|bytes|), n) == (Padded(bytes)[RECORD * OpenedAt(|bytes|)..], true)
    ensures Drain(bytes, OpenedAt(|bytes|), n).0 == Padded(bytes) <==> RecordCount(|bytes|) < 128
  {
    ExtentParts(RecordCount(|bytes|));
    DrainRest(bytes, OpenedAt(|bytes|), n);
  }

  lemma ExtentParts(c: nat)
    requires c < RECORDS
    ensures c / 0x80 % 0x20 * 0x80 + c / 0x1000 % 0x100 * 0x1000 == c / 0x80 * 0x80 <= c
  {
    var q := c / 0x80;
    assert c / 0x1000 == q / 0x20;
  }

  // ---------- the control block ----------

  /** The fields as the kernel itself leaves them. */
  predicate Normal(f: seq<byte>) {
    |f| >= 36 && f[12] < 0x20 && f[32] < 0x80
  }

  /** The record number in a control block's fields, whatever they hold. */
  function RecordOf(f: seq<byte>): (r: nat)
    requires |f| >= 36
    ensures r < RECORDS
  {
    RecordBelow(f[14], f[12], f[32]);
    Or(Or(f[14] as nat * 0x1000, f[12] as nat * 0x80), f[32])
  }

  lemma RecordBelow(s2: byte, ex: byte, cr: byte)
    ensures Or(Or(s2 as nat * 0x1000, ex as nat * 0x80), cr) < RECORDS
  {
    assert Pow2(20) == RECORDS by { assert Pow2(4) == 16; assert Pow2(8) == 256; assert Pow2(12) == 4096; assert Pow2(16) == 65536; }
    OrBelow(s2 as nat * 0x1000, ex as nat * 0x80, 20);
    OrBelow(Or(s2 as nat * 0x1000, ex as nat * 0x80), cr, 20);
  }

  /** Whatever the fields hold, the record number has a bit exactly where S2, EX or CR has it in its place. */
  lemma RecordBits(f: seq<byte>, k: nat)
    requires |f| >= 36
    ensures BitSet(RecordOf(f), k) <==> BitSet(f[14] as nat * 4096, k) || BitSet(f[12] as nat * 128, k) || BitSet(f[32] as nat, k)
  {
    hide Or, BitSet;
    OrBits(f[14] as nat * 0x1000, f[12] as nat * 0x80, k);
    OrBits(Or(f[14] as nat * 0x1000, f[12] as nat * 0x80), f[32], k);
  }

  lemma NormalRecord(f: seq<byte>)
    requires Normal(f)
    ensures RecordOf(f) == f[14] as nat * 0x1000 + f[12] as nat * 0x80 + f[32] as nat
  {
    var s2, ex, cr := f[14] as nat, f[12] as nat, f[32] as nat;
    assert Pow2(7) == 0x80 && Pow2(12) == 0x1000 by { assert Pow2(4) == 16; assert Pow2(8) == 256; }
    AndApart(s2, 12, ex * 0x80);
    AndApart(s2 * 0x20 + ex, 7, cr);
  }

  lemma RecordParts(r: nat)
    ensures r / 0x1000 % 0x100 * 0x1000 + r / 0x80 % 0x20 * 0x80 + r % 0x80 == r % RECORDS
  {
    var q := r / 0x80;
    var p := q / 0x20;
    assert r / 0x1000 == p;
    assert r == p / 0x100 * RECORDS + (p % 0x100 * 0x1000 + q % 0x20 * 0x80 + r % 0x80);
  }

  /** By the bytes: the extent fields name record `r`, and but for them and the record count the block is as it was. */
  predicate StandsAt(f: seq<byte>, g: seq<byte>, r: nat) {
    && |g| == |f| >= 36
    && g[12] as int == r / 128 % 32 && g[14] as int == r / 4096 % 256 && g[32] as int == r % 128
    && forall i :: 0 <= i < |f| && i !in {12, 14, 15, 32} ==> g[i] == f[i]
  }

  /** Among fields in their ranges, a record number below 2^20 is named by one set of fields only. */
  lemma FieldsName(f: seq<byte>, r: nat)
    requires |f| >= 36 && f[12] < 32 && f[32] < 128 && r < 0x10_0000
    ensures RecordOf(f) == r <==> f[12] as int == r / 128 % 32 && f[14] as int == r / 4096 % 256 && f[32] as int == r % 128
  {
    hide RecordOf;
    NormalRecord(f);
    RecordParts(r);
    var q := f[14] as int * 32 + f[12] as int;
    assert RecordOf(f) == q * 128 + f[32] as int;
    assert RecordOf(f) / 128 == q && RecordOf(f) % 128 == f[32] as int;
    assert q / 32 == f[14] as int && q % 32 == f[12] as int;
    assert RecordOf(f) / 4096 == q / 32;
  }

  /** Storing a record number in the extent fields. */
  method SetRecord(fcb: array<byte>, r: nat)
    requires fcb.Length >= 36
    modifies fcb
    ensures Normal(fcb[..]) && RecordOf(fcb[..]) == r % RECORDS
    ensures StandsAt(old(fcb[..]), fcb[..], r) && fcb[15] == old(fcb[15])
    ensures forall i :: 0 <= i < fcb.Length && i !in {12, 14, 32} ==> fcb[i] == old(fcb[i])
  {
    fcb[32] := r % 0x80;
    fcb[12] := r / 0x80 % 0x20;
    fcb[14] := r / 0x1000 % 0x100;
    RecordParts(r);
    NormalRecord(fcb[..]);
  }

  /** An open file of the kernel that stands for slot `s`. */
  ghost predicate Reading(fat: Driver, fp: FatFile, s: nat)
    requires fat.Wired() && OnDisk(fat.m, fat.Disk())
    reads fat, fat.dev, fat.dev.shadow, fp
  {
    && fp.inUse && Used(fat.Vol().dir, s)
    && fp.firstClus == FirstOf(fat.Vol().dir[s]) && fp.fileSize == SizeOf(fat.Vol().dir[s])
  }

  /** The transfer of record `r`: the bytes there and a filling of end-of-file characters. */
  method ReadRecord(fat: Driver, fp: FatFile, r: nat, dma: array<byte>, ghost s: nat) returns (rc: nat)
    requires fat.Ready() && fat.Outside(dma) && dma.Length >= RECORD && r < RECORDS
    requires Sane(fat.Vol()) && Reading(fat, fp, s)
    modifies fat`secLba, fat`secValid, fat`fatLba, fat`fatValid, fat.dev, fat.dev.shadow, fat.secBuf, fat.wbuf, dma
    modifies fp`curPos, fp`curClus
    ensures fat.Ready() && fat.Disk() == old(fat.Disk()) && SlotOk(fat.Vol(), s)
    ensures match RecordAt(Content(fat.Vol(), s), r)
            case None => rc == 1 && dma[..] == old(dma[..])
            case Some(rec) => rc == 0 && dma[..] == Splice(old(dma[..]), 0, rec)
  {
    hide View, OnDisk, Sound, Mirrored, TablesFit, Flat, Splice, IsChain, Span, Sane, Content, FindShown;
    ghost var v := fat.Vol();
    ghost var ch := FileForReader(v, s);
    var byteOff := r * RECORD;
    if byteOff >= fp.fileSize {
      return 1;
    }
    SizeIsLength(v, s);
    var code;
    ghost var k;
    rc := 0xFF;
    code, k := fat.FSeek(fp, byteOff, ch);
    if code != 0 {
      return;
    }
    var got;
    ghost var j;
    rc := 1;
    got, j := fat.FRead(fp, dma, 0, RECORD, ch, k);
    if got <= 0 {
      return;
    }
    FillEnd(dma, got);
    RecordFilled(old(dma[..]), Flat(v.data, ch), fp.fileSize, r, got);
    rc := 0;
  }

  lemma SizeIsLength(v: Volume, s: nat)
    requires Sane(v) && Used(v.dir, s)
    ensures SlotOk(v, s) && |Content(v, s)| == SizeOf(v.dir[s])
  {
    assert SlotOk(v, s);
    ContentFits(v, s);
  }

  /** File bytes followed by the filling are the record. */
  lemma RecordFilled(d: seq<byte>, flat: seq<byte>, size: nat, r: nat, got: nat)
    requires size <= |flat| && RECORD * r < size && got == Left(RECORD * r, size, RECORD) && RECORD <= |d|
    ensures RecordAt(flat[..size], r) == Some(flat[RECORD * r..RECORD * r + got] + Filling(RECORD - got))
    ensures Splice(Splice(d, 0, flat[RECORD * r..RECORD * r + got]), got, Filling(RECORD - got))
            == Splice(d, 0, RecordAt(flat[..size], r).value)
  {
    var here := flat[RECORD * r..RECORD * r + got];
    SpliceAdjacent(d, 0, here, Filling(RECORD - got));
    if got == RECORD {
      assert flat[..size][RECORD * r..RECORD * r + RECORD] == here && here + [] == here;
    } else {
      assert flat[..size][RECORD * r..] == here;
    }
  }

  /** The padding loop. */
  method FillEnd(dma: array<byte>, got: nat)
    requires dma.Length >= RECORD && got <= RECORD
    modifies dma
    ensures dma[..] == Splice(old(dma[..]), got, Filling(RECORD - got))
  {
    for i := got to RECORD
      invariant forall k :: got <= k < i ==> dma[k] == CPM_EOF
      invariant forall k :: 0 <= k < dma.Length && !(got <= k < i) ==> dma[k] == old(dma[k])
    {
      dma[i] := CPM_EOF;
    }
  }

  /** BDOS 20: the next record, or 1 at the end of the file. */
  method ReadSeq(fat: Driver, hs: Handles, fcb: array<byte>, dma: array?<byte>, ghost s: nat) returns (rc: nat)
    requires fat.Ready() && Sane(fat.Vol()) && hs.Valid() && fcb.Length >= 36
    requires dma != null ==> fat.Outside(dma) && dma.Length >= RECORD && dma != fcb
    requires fat.Outside(fcb)
    requires hs.Target(fcb[..]).Some? ==> Reading(fat, hs.files[hs.Target(fcb[..]).value], s)
    modifies fat`secLba, fat`secValid, fat`fatLba, fat`fatValid, fat.dev, fat.dev.shadow, fat.secBuf, fat.wbuf, dma, fcb
    modifies hs.files`curPos, hs.files`curClus
    ensures fat.Ready() && fat.Disk() == old(fat.Disk()) && (hs.Target(old(fcb[..])).Some? ==> SlotOk(fat.Vol(), s))
    ensures hs.Target(fcb[..]) == hs.Target(old(fcb[..]))
    ensures match hs.Target(old(fcb[..]))
            case None => rc == 1 && fcb[..] == old(fcb[..])
            case Some(_) =>
              if dma == null then rc == 0xFF && fcb[..] == old(fcb[..])
              else match RecordAt(Content(fat.Vol(), s), RecordOf(old(fcb[..])))
                case None => rc == 1 && fcb[..] == old(fcb[..]) && dma[..] == old(dma[..])
                case Some(rec) =>
                  && rc == 0 && dma[..] == Splice(old(dma[..]), 0, rec) && Normal(fcb[..])
                  && RecordOf(fcb[..]) == (RecordOf(old(fcb[..])) + 1) % RECORDS
                  && StandsAt(old(fcb[..]), fcb[..], RecordOf(old(fcb[..])) + 1) && fcb[15] == old(fcb[15])
  {
    hide View, OnDisk, Sound, Mirrored, TablesFit, Flat, Splice, Sane, Content, RecordAt;
    var h := hs.ResolveFcb(fcb);
    if h.None? {
      return 1;
    }
    SizeIsLength(fat.Vol(), s);
    if dma == null {
      return 0xFF;
    }
    var r := RecordOf(fcb[..]);
    rc := ReadRecord(fat, hs.files[h.value], r, dma, s);
    if rc != 0 {
      return;
    }
    SetRecord(fcb, r + 1);
  }

  /** Bytes in front of what is still to come. */
  function Joined(got: seq<byte>, d: (seq<byte>, bool)): (seq<byte>, bool) {
    (got + d.0, d.1)
  }

  lemma JoinedTwice(a: seq<byte>, b: seq<byte>, d: (seq<byte>, bool))
    ensures Joined(a, Joined(b, d)) == Joined(a + b, d)
  {
    assert a + (b + d.0) == a + b + d.0;
  }

  lemma JoinedNothing(a: seq<byte>, d: (seq<byte>, bool))
    ensures Joined([], d) == d
    ensures d.0 == [] ==> Joined(a, d) == (a, d.1)
  {
    assert [] + d.0 == d.0 && a + [] == a;
  }

  lemma DrainStep(bytes: seq<byte>, r: nat, n: nat)
    ensures n == 0 ==> Drain(bytes, r, n) == ([], false)
    ensures n > 0 && RecordAt(bytes, r).None? ==> Drain(bytes, r, n) == ([], true)
    ensures n > 0 && RecordAt(bytes, r).Some? ==>
              Drain(bytes, r, n) == Joined(RecordAt(bytes, r).value, Drain(bytes, (r + 1) % RECORDS, n - 1))
  {
  }

  /** A program that reads on and on, at most `n` times: what it is given, and whether the end was reported. */
  method ReadRecords(fat: Driver, hs: Handles, fcb: array<byte>, dma: array<byte>, n: nat, ghost s: nat)
    returns (got: seq<byte>, eof: bool)
    requires fat.Ready() && Sane(fat.Vol()) && hs.Valid() && fcb.Length >= 36 && fat.Outside(fcb)
    requires fat.Outside(dma) && dma.Length >= RECORD && dma != fcb
    requires hs.Target(fcb[..]).Some? && Reading(fat, hs.files[hs.Target(fcb[..]).value], s)
    modifies fat`secLba, fat`secValid, fat`fatLba, fat`fatValid, fat.dev, fat.dev.shadow, fat.secBuf, fat.wbuf, dma, fcb
    modifies hs.files`curPos, hs.files`curClus
    ensures fat.Ready() && fat.Disk() == old(fat.Disk()) && SlotOk(fat.Vol(), s)
    ensures (got, eof) == Drain(Content(fat.Vol(), s), old(RecordOf(fcb[..])), n)
  {
    hide View, OnDisk, Sound, Mirrored, TablesFit, Sane, Content, RecordAt, RecordOf, Drain, Splice;
    SizeIsLength(fat.Vol(), s);
    ghost var bytes := Content(fat.Vol(), s);
    got, eof := [], false;
    JoinedNothing(got, Drain(bytes, RecordOf(fcb[..]), n));
    for i := 0 to n
      invariant !eof && fat.Ready() && fat.Disk() == old(fat.Disk())
      invariant hs.Target(fcb[..]) == old(hs.Target(fcb[..])) && Reading(fat, hs.files[hs.Target(fcb[..]).value], s)
      invariant Joined(got, Drain(bytes, RecordOf(fcb[..]), n - i)) == Drain(bytes, old(RecordOf(fcb[..])), n)
    {
      ghost var r := RecordOf(fcb[..]);
      ghost var was := dma[..];
      DrainStep(bytes, r, n - i);
      var rc := ReadSeq(fat, hs, fcb, dma, s);
      if rc != 0 {
        JoinedNothing(got, ([], true));
        eof := true;
        return;
      }
      SpliceStart(was, RecordAt(bytes, r).value);
      var rec := dma[..RECORD];
      assert rec == dma[..][..RECORD];
      JoinedTwice(got, rec, Drain(bytes, RecordOf(fcb[..]), n - i - 1));
      got := got + rec;
    }
    DrainStep(bytes, RecordOf(fcb[..]), 0);
    JoinedNothing(got, ([], false));
  }

  // ---------- opening ----------

  /** The name in a control block as text: fcb_to_name. */
  function NameText(raw: seq<byte>): seq<byte>
    requires |raw| == 11
  {
    Trim(raw[..8]) + if raw[8..] == [SPACE, SPACE, SPACE] then [] else [DOT] + Trim(raw[8..])
  }

  lemma {:induction false} UpperSpecial(name: seq<byte>, c: byte)
    requires !(0x41 <= c <= 0x5A) && !(0x61 <= c <= 0x7A)
    ensures c in Upper(name) <==> c in name
  {
    if c in name {
      var i :| 0 <= i < |name| && name[i] == c;
      assert Upper(name)[i] == c;
    }
  }

  /** The text of a packed file name is the name in capitals, and packs to the same bytes. */
  lemma NameTextIs(name: seq<byte>)
    requires FileName(name)
    ensures NameText(Raw(name)) == Upper(name) && FileName(Upper(name)) && Raw(Upper(name)) == Raw(name)
  {
    WellFormedMatches(name);
    UpperConcat(name, []);
    UpperSameIff(Upper(name), name);
    RawIgnoresCase(Upper(name), name);
    UpperSpecial(name, 0);
    UpperSpecial(name, SLASH);
    UpperShown(name);
    ExtStart(name);
  }

  lemma ExtStart(name: seq<byte>)
    requires WellFormed(name)
    ensures if ExtPart(name) == [] then Raw(name)[8..] == [SPACE, SPACE, SPACE] else Raw(name)[8] != SPACE
  {
    assert Raw(name)[8..] == Pad(Upper(ExtPart(name)), 3);
    if ExtPart(name) != [] {
      assert ExtPart(name)[0] in name;
      assert Raw(name)[8..][0] == UpperByte(ExtPart(name)[0]);
    }
  }

  lemma UpperShown(name: seq<byte>)
    requires WellFormed(name)
    ensures WellFormed(Upper(name))
  {
    UpperConcat(name, []);
    UpperSameIff(Upper(name), name);
    RawIgnoresCase(Upper(name), name);
    WellFormedMatches(name);
    assert Matches(Raw(Upper(name)), Upper(name));
    MatchesWellFormed(Upper(name));
  }

  /** The path the kernel builds from the name in a control block. */
  lemma PathOfBlock(name: seq<byte>)
    requires FileName(name)
    ensures Raw(StripSlash(PathOf(NameText(Raw(name))))) == Raw(name)
  {
    hide Raw, FileName, Upper, NameText;
    NameTextIs(name);
    FileNameIs(Upper(name));
  }

  /** BDOS 19: 0 when the file named in the control block was there, and then it is gone. */
  method DeleteFcb(fat: Driver, fcb: array<byte>, ghost name: seq<byte>) returns (rc: nat)
    requires fat.Ready() && Sane(fat.Vol()) && fat.Outside(fcb) && fcb.Length >= 36 && fcb[0] == 0
    requires FileName(name) && fcb[1..12] == Raw(name)
    modifies fat`secValid, fat`fatLba, fat`fatValid, fat.dev, fat.dev.shadow, fat.wbuf
    ensures fat.Ready() && old(Sane(fat.Vol())) && Sane(fat.Vol()) && (rc == 0 || rc == 0xFF)
    ensures rc == 0 <==> Lookup(old(fat.Vol()), Raw(name)).Some?
    ensures Lookup(fat.Vol(), Raw(name)) == None && OthersKept(old(fat.Vol()), fat.Vol(), Raw(name))
    ensures FreeCount(fat.Vol()) == FreeCount(old(fat.Vol())) + |OwnedBy(old(fat.Vol()), Raw(name))|
    ensures Struck(old(fat.Vol()).dir, fat.Vol().dir, Raw(name)) && BootKept(fat.m, old(fat.Disk()), fat.Disk())
  {
    hide View, OnDisk, Sound, Mirrored, TablesFit, Sane, Lookup, Raw, FileName, Unlink, NameText, PathOf, StripSlash, OwnedBy, FreeFrom,
         BootKept, Struck;
    ghost var v := fat.Vol();
    PathOfBlock(name);
    UnlinkKeeps(v, Raw(name));
    NothingOwned(v, Raw(name));
    var code := fat.FUnlink(PathOf(NameText(fcb[1..12])));
    rc := if code == 0 then 0 else 0xFF;
  }

  lemma NothingOwned(v: Volume, name: seq<byte>)
    requires Sane(v)
    ensures Lookup(v, name) == None ==> OwnedBy(v, name) == [] && Struck(v.dir, v.dir, name)
    ensures OthersKept(v, v, name)
  {
    if Lookup(v, name) == None {
      NothingStruck(v, name);
    }
  }

  /** By the bytes: the block stands for entry `idx` and for a file of `n` records, at the start of its last extent. */
  predicate BoundTo(f: seq<byte>, g: seq<byte>, idx: nat, gen: byte, n: nat) {
    && |g| == |f| >= 36
    && g[12] as int == n / 128 % 32 && g[13] == 0 && g[14] as int == n / 4096 % 256 && g[15] as int == n % 128 && g[32] == 0
    && g[16] == 0x58 && g[17] == 0x46 && g[18] == 0 && g[19] == 0 && g[20] as int == idx && g[21] == gen
    && forall i :: 0 <= i < |f| && !(12 <= i < 22) && i != 32 ==> g[i] == f[i]
  }

  /** The extent fields of a freshly opened control block. */
  method SetOpened(fcb: array<byte>, size: nat)
    requires fcb.Length >= 36
    modifies fcb
    ensures Normal(fcb[..]) && RecordOf(fcb[..]) == OpenedAt(size)
    ensures var n := (size + 127) / 128;
            fcb[12] as int == n / 128 % 32 && fcb[13] == 0 && fcb[14] as int == n / 4096 % 256 && fcb[15] as int == n % 128 && fcb[32] == 0
    ensures forall i :: 0 <= i < fcb.Length && i !in {12, 13, 14, 15, 32} ==> fcb[i] == old(fcb[i])
  {
    var records := (size + 127) / RECORD;
    fcb[12] := records / 0x80 % 0x20;
    fcb[13] := 0;
    fcb[14] := records / 0x1000 % 0x100;
    fcb[15] := records % 0x80;
    fcb[32] := 0;
    NormalRecord(fcb[..]);
  }

  /** Making a control block stand for entry `idx`. */
  method Attach(hs: Handles, fcb: array<byte>, idx: nat, size: nat)
    requires hs.Valid() && fcb.Length >= 36 && idx < MAX_OPEN && hs.inUse[idx]
    modifies fcb
    ensures Normal(fcb[..]) && hs.Target(fcb[..]) == Some(idx) && RecordOf(fcb[..]) == OpenedAt(size)
    ensures BoundTo(old(fcb[..]), fcb[..], idx, hs.gen[idx], (size + 127) / 128)
  {
    hide OpenedAt, RecordOf;
    hs.StashHandle(fcb, idx);
    SetOpened(fcb, size);
  }

  /** Opening the file whose packed name a control block holds. */
  method OpenRaw(fat: Driver, raw: seq<byte>, fp: FatFile, ghost name: seq<byte>) returns (ok: bool, ghost s: nat)
    requires fat.Ready() && Sane(fat.Vol()) && CanonicalNames(fat.Vol().dir) && FileName(name) && raw == Raw(name)
    modifies fat.dev, fat.dev.shadow, fp
    ensures fat.Ready() && fat.Disk() == old(fat.Disk()) && fp.dirLba == old(fp.dirLba) && fp.dirOff == old(fp.dirOff)
    ensures match Lookup(fat.Vol(), Raw(name))
            case None => !ok
            case Some(f) =>
              && (ok <==> f.attr as int / 16 % 2 == 0)
              && (ok ==>
                    && Reading(fat, fp, s) && NameOf(fat.Vol().dir[s]) == Raw(name) && SlotOk(fat.Vol(), s)
                    && Content(fat.Vol(), s) == f.bytes && fp.fileSize == |f.bytes|)
  {
    hide View, OnDisk, Sound, Mirrored, TablesFit, Sane, Content, Lookup, Raw, FileName, CanonicalNames, Meant, FirstName;
    NameTextIs(name);
    MeantFile(fat.Vol(), NameText(raw));
    ok, s := OpenNamed(fat, NameText(raw), fp);
    if ok {
      SizeIsLength(fat.Vol(), s);
    }
  }

  /**
   BDOS 15: 0 and a control block that stands for the file, or 0xFF and nothing changed but the generation. Where the
   directory entry of the file lies is not entered: every file structure keeps the place it had.
   */
  method OpenFcb(fat: Driver, hs: Handles, fcb: array<byte>, ghost name: seq<byte>) returns (rc: nat, ghost s: nat)
    requires fat.Ready() && Sane(fat.Vol()) && CanonicalNames(fat.Vol().dir) && hs.Valid()
    requires fat.Outside(fcb) && fcb.Length >= 36 && fcb[0] == 0 && FileName(name) && fcb[1..12] == Raw(name)
    modifies hs`inUse, hs`gen, hs`nextGeneration, hs.files, fcb, fat.dev, fat.dev.shadow
    ensures fat.Ready() && fat.Disk() == old(fat.Disk()) && hs.Valid()
    ensures var i := FreeEntry(old(hs.inUse), 0);
            match Lookup(fat.Vol(), Raw(name))
            case None => rc == 0xFF
            case Some(f) =>
              if i == MAX_OPEN || f.attr as int / 16 % 2 == 1 then rc == 0xFF
              else
                && rc == 0 && Normal(fcb[..]) && hs.Target(fcb[..]) == Some(i) && Reading(fat, hs.files[i], s)
                && NameOf(fat.Vol().dir[s]) == Raw(name)
                && SlotOk(fat.Vol(), s) && Content(fat.Vol(), s) == f.bytes && RecordOf(fcb[..]) == OpenedAt(|f.bytes|)
                && BoundTo(old(fcb[..]), fcb[..], i, hs.gen[i], (|f.bytes| + 127) / 128)
    ensures rc != 0 ==> hs.inUse == old(hs.inUse) && fcb[..] == old(fcb[..])
    ensures forall i :: 0 <= i < |hs.files| ==>
              hs.files[i].dirLba == old(hs.files[i].dirLba) && hs.files[i].dirOff == old(hs.files[i].dirOff)
  {
    hide View, OnDisk, Sound, Mirrored, TablesFit, Sane, Content, Lookup, Raw, FileName, CanonicalNames, OpenedAt, RecordOf, Used,
         BoundTo, Normal, Reading;
    s := 0;
    var code, idx := hs.AllocHandle();
    if code != 0 {
      return 0xFF, s;
    }
    rc, s := OpenEntry(fat, hs, fcb, idx, name);
  }

  /** Opening into an entry just taken, which is given back on failure. */
  method OpenEntry(fat: Driver, hs: Handles, fcb: array<byte>, idx: nat, ghost name: seq<byte>) returns (rc: nat, ghost s: nat)
    requires fat.Ready() && Sane(fat.Vol()) && CanonicalNames(fat.Vol().dir) && hs.Valid() && idx < MAX_OPEN && hs.inUse[idx]
    requires fat.Outside(fcb) && fcb.Length >= 36 && fcb[0] == 0 && FileName(name) && fcb[1..12] == Raw(name)
    modifies hs`inUse, hs.files[idx], fcb, fat.dev, fat.dev.shadow
    ensures fat.Ready() && fat.Disk() == old(fat.Disk()) && hs.Valid()
    ensures match Lookup(fat.Vol(), Raw(name))
            case None => rc == 0xFF
            case Some(f) =>
              if f.attr as int / 16 % 2 == 1 then rc == 0xFF
              else
                && rc == 0 && Normal(fcb[..]) && hs.Target(fcb[..]) == Some(idx) && Reading(fat, hs.files[idx], s)
                && NameOf(fat.Vol().dir[s]) == Raw(name)
                && SlotOk(fat.Vol(), s) && Content(fat.Vol(), s) == f.bytes && RecordOf(fcb[..]) == OpenedAt(|f.bytes|)
                && BoundTo(old(fcb[..]), fcb[..], idx, hs.gen[idx], (|f.bytes| + 127) / 128)
    ensures rc == 0 ==> hs.inUse == old(hs.inUse)
    ensures rc != 0 ==> hs.inUse == old(hs.inUse)[idx := false] && fcb[..] == old(fcb[..])
    ensures hs.files[idx].dirLba == old(hs.files[idx].dirLba) && hs.files[idx].dirOff == old(hs.files[idx].dirOff)
  {
    hide View, OnDisk, Sound, Mirrored, TablesFit, Sane, Content, Lookup, Raw, FileName, CanonicalNames, OpenedAt, RecordOf, Used,
         BoundTo, Normal;
    var ok;
    ok, s := OpenRaw(fat, fcb[1..12], hs.files[idx], name);
    if !ok {
      hs.Release(idx);
      return 0xFF, s;
    }
    Attach(hs, fcb, idx, hs.files[idx].fileSize);
    rc := 0;
  }

  lemma TargetKept(hs: Handles, f: seq<byte>, g: seq<byte>)
    requires |f| >= 36 && |g| >= 36 && f[16] == g[16] && f[17] == g[17] && f[20] == g[20] && f[21] == g[21]
    ensures hs.Target(f) == hs.Target(g)
  {
  }

  /**
   A program that opens a file and reads until it is told the end, or gives up after `n` calls. If it rewinds first,
   it gets the file filled up to whole records and then the end, for files of at most 2^27 - 128 bytes; a longer file
   never ends. If it does not, it gets the last extent only, which is the whole file exactly for fewer than 128
   records.
   */
  method OpenAndRead(fat: Driver, hs: Handles, fcb: array<byte>, dma: array<byte>, rewind: bool, n: nat, ghost name: seq<byte>)
    returns (rc: nat, got: seq<byte>, eof: bool)
    requires fat.Ready() && Sane(fat.Vol()) && CanonicalNames(fat.Vol().dir) && hs.Valid()
    requires fat.Outside(fcb) && fcb.Length >= 36 && fcb[0] == 0 && FileName(name) && fcb[1..12] == Raw(name)
    requires fat.Outside(dma) && dma.Length >= RECORD && dma != fcb
    modifies hs`inUse, hs`gen, hs`nextGeneration, hs.files, fcb, dma
    modifies fat`secLba, fat`secValid, fat`fatLba, fat`fatValid, fat.dev, fat.dev.shadow, fat.secBuf, fat.wbuf
    ensures fat.Ready() && fat.Disk() == old(fat.Disk())
    ensures rc == 0 ==> Lookup(fat.Vol(), Raw(name)).Some?
    ensures rc == 0 ==>
              var bytes := Lookup(fat.Vol(), Raw(name)).value.bytes;
              && (rewind && |bytes| <= RECORD * (RECORDS - 1) && n > RecordCount(|bytes|) ==> (got, eof) == (Padded(bytes), true))
              && (rewind && |bytes| > RECORD * (RECORDS - 1) ==> !eof)
              && (!rewind && RecordCount(|bytes|) < RECORDS && n > RecordCount(|bytes|) ==>
                    && RECORD * OpenedAt(|bytes|) <= |Padded(bytes)|
                    && (got, eof) == (Padded(bytes)[RECORD * OpenedAt(|bytes|)..], true)
                    && (got == Padded(bytes) <==> RecordCount(|bytes|) < 128))
  {
    hide View, OnDisk, Sound, Mirrored, TablesFit, Sane, Content, Lookup, Raw, FileName, CanonicalNames, OpenedAt, RecordOf, Drain,
         Padded, RecordCount;
    ghost var s;
    got, eof := [], false;
    rc, s := OpenFcb(fat, hs, fcb, name);
    if rc != 0 {
      return;
    }
    ghost var bytes := Lookup(fat.Vol(), Raw(name)).value.bytes;
    if rewind {
      ghost var f := fcb[..];
      SetRecord(fcb, 0);
      TargetKept(hs, f, fcb[..]);
    }
    got, eof := ReadRecords(fat, hs, fcb, dma, n, s);
    WholeOrNever(bytes, n);
    if !rewind && RecordCount(|bytes|) < RECORDS && n > RecordCount(|bytes|) {
      OpenThenDrain(bytes, n);
    }
  }

  lemma WholeOrNever(bytes: seq<byte>, n: nat)
    ensures |bytes| <= RECORD * (RECORDS - 1) && n > RecordCount(|bytes|) ==> Drain(bytes, 0, n) == (Padded(bytes), true)
    ensures |bytes| > RECORD * (RECORDS - 1) ==> !Drain(bytes, 0, n).1
  {
    if |bytes| <= RECORD * (RECORDS - 1) {
      DrainRest(bytes, 0, n);
    } else {
      DrainNeverEnds(bytes, 0, n);
    }
  }
}
