/** Sequential record writes on a control block (bdos.c): each one seeks, writes, and flushes. */
module BdosWrites {
  import opened Bytes
  import opened Numbers
  import opened Wrappers
  import opened FatVolume
  import opened FatChains
  import opened FatFiles
  import opened FatOps
  import opened FatWrites
  import opened FatSave
  import opened FatSteps
  import opened FatOverwrite
  import FatRuns
  import opened FatPlaces
  import opened FatReads
  import opened FatNames
  import opened FatLayout
  import opened FatDriver
  import opened BdosFiles
  import opened BdosHandles
  import opened BdosRecords

  /** The handle a writer of slot `s` has at the end of its file. */
  ghost function EndHandle(v: Volume, s: nat): Handle
    requires Used(v.dir, s)
  {
    var ch := Owned(v, s);
    Handle(s, FirstOf(v.dir[s]), if ch == [] then 0 else ch[|ch| - 1], SizeOf(v.dir[s]), SizeOf(v.dir[s]))
  }

  /** A file whose chain is exactly as long as its size needs, as the write calls leave it. */
  ghost predicate Tight(v: Volume, s: nat)
  {
    Used(v.dir, s) && Open(v, EndHandle(v, s))
  }

  /** Where a write at the end of a tight file can go on: not at a cluster's end. */
  predicate MidCluster(v: Volume, size: nat)
    requires v.clusSize > 0
  {
    size == 0 || size % v.clusSize != 0
  }

  /** Appending and flushing: the file is its old contents and what fitted of the data. */
  lemma AppendFlush(v: Volume, s: nat, data: seq<byte>)
    requires Sane(v) && Tight(v, s) && MidCluster(v, SizeOf(v.dir[s])) && data != [] && SizeOf(v.dir[s]) + |data| < U32
    ensures SlotOk(v, s) && AtEnd(v, EndHandle(v, s))
    ensures var h := EndHandle(v, s);
            var (v2, h2, k) := Write(v, h, data);
            var v3 := Flush(v2, h2);
            && k == Room(v, h, |data|) && h2.slot == s && SlotKept(v, v2, s) && SlotKept(v, v3, s)
            && Lookup(v3, NameOf(v.dir[s])) == Some(File(v.dir[s][11], Content(v, s) + data[..k]))
            && Tight(v3, s) && SizeOf(v3.dir[s]) == SizeOf(v.dir[s]) + k == h2.size && FirstOf(v3.dir[s]) == h2.first
  {
    hide Sane, Flat, OthersKept, OwnersKept, Lookup, Write;
    SaneShape(v);
    var h := EndHandle(v, s);
    SizeIsLength(v, s);
    WriteAppends(v, h, data);
    var (v2, h2, k) := Write(v, h, data);
    SaneShape(v2);
    FlushKeeps(v2, h2);
    FlushedSlot(v2, h2);
    SlotKeptTrans(v, v2, Flush(v2, h2), s);
  }

  /** The end of a tight file lies inside its last cluster unless the file fills it. */
  lemma EndPlace(cs: nat, size: nat, n: nat, k: nat)
    requires cs > 0 && if n == 0 then size == 0 else Span(cs, n - 1) < size <= Span(cs, n)
    ensures size == 0 || size % cs != 0 <==> size == 0 || size < Span(cs, n)
    ensures n > 0 && size < Span(cs, n) && Span(cs, k) + size % cs == size ==> k == n - 1
  {
    BytePlace(cs, size, n);
    if n > 0 && size == Span(cs, n) {
      SpanDivMod(cs, n, 0);
    } else if n > 0 {
      var o := size - Span(cs, n - 1);
      SpanDivMod(cs, n - 1, o);
      if Span(cs, k) + size % cs == size {
        SpanDivMod(cs, k, size % cs);
      }
    }
  }

  // ---------- writing inside a file ----------

  /** A handle that stands in cluster number `k` of its file, `o` bytes behind the cluster's start. */
  ghost function InsideHandle(v: Volume, s: nat, k: nat, o: nat): Handle
    requires Used(v.dir, s) && k < |Owned(v, s)|
  {
    Handle(s, FirstOf(v.dir[s]), Owned(v, s)[k], Span(v.clusSize, k) + o, SizeOf(v.dir[s]))
  }

  lemma InsideWrite(v: Volume, s: nat, k: nat, o: nat, t: seq<byte>)
    requires Sane(v) && Used(v.dir, s) && k < |Owned(v, s)| && o < v.clusSize && t != [] && o + |t| <= v.clusSize
    ensures 2 <= Owned(v, s)[k] < |v.fat|
    ensures var h := InsideHandle(v, s, k, o);
            && Writable(v, h, t)
            && Write(v, h, t) == (Placed(v, Owned(v, s)[k], o, t), Moved(h, h.cur, |t|), |t|)
  {
    hide Splice, Fill, Placed, IsChain;
    var ch := Owned(v, s);
    var h := InsideHandle(v, s, k, o);
    assert SlotOk(v, s);
    NoChainAtZero(v.ty, v.fat);
    ChainStep(v.ty, v.fat, ch, k);
    SpanDivMod(v.clusSize, k, o);
    if AtEnd(v, h) {
      WriteEnds(v, h, t);
    }
  }

  lemma OverIs(flat: seq<byte>, size: nat, p: nat, t: seq<byte>)
    requires p <= size <= |flat| && p + |t| <= |flat|
    ensures Splice(flat, p, t)[..if p + |t| > size then p + |t| else size] == Over(flat[..size], p, t)
  {
  }

  /** The handle after a write inside the file, put back to the end of it. */
  ghost function BackAtEnd(v: Volume, s: nat, k: nat, o: nat, n: nat): Handle
    requires Used(v.dir, s) && k < |Owned(v, s)|
  {
    var h := Moved(InsideHandle(v, s, k, o), Owned(v, s)[k], n);
    h.(cur := Owned(v, s)[|Owned(v, s)| - 1], pos := h.size)
  }

  /** A tight file stays open at its end, with the bytes replaced. */
  lemma InsideOpen(v: Volume, s: nat, k: nat, o: nat, t: seq<byte>)
    requires Sane(v) && Tight(v, s) && k < |Owned(v, s)| && o < v.clusSize && o + |t| <= v.clusSize
    requires Span(v.clusSize, k) + o < SizeOf(v.dir[s])
    ensures SlotOk(v, s) && |Content(v, s)| == SizeOf(v.dir[s]) && 2 <= Owned(v, s)[k] < |v.fat|
    ensures var v2 := Placed(v, Owned(v, s)[k], o, t);
            var h := BackAtEnd(v, s, k, o, |t|);
            Open(v2, h) && Written(v2, h) == Over(Content(v, s), Span(v.clusSize, k) + o, t)
  {
    hide Sane, Flat, Splice, Over, IsChain, SlotKept, OnlySlot, HasChain;
    SaneShape(v);
    SizeIsLength(v, s);
    PlacedKeeps(v, s, k, o, t);
    SpanGrows(v.clusSize, k + 1, |Owned(v, s)|);
    OwnedFlat(v, s);
    OverIs(Flat(v.data, Owned(v, s)), SizeOf(v.dir[s]), Span(v.clusSize, k) + o, t);
  }

  lemma SameFlush(v: Volume, h: Handle, h': Handle)
    requires Shape(v) && h.slot < |v.dir| && h'.slot == h.slot && h'.first == h.first && h'.size == h.size
    ensures Flush(v, h') == Flush(v, h)
  {
  }

  /** Writing inside a file and flushing: those bytes are replaced, and nothing else changes. */
  lemma InsideFlush(v: Volume, s: nat, k: nat, o: nat, t: seq<byte>)
    requires Sane(v) && Tight(v, s) && k < |Owned(v, s)| && o < v.clusSize && t != [] && o + |t| <= v.clusSize
    requires Span(v.clusSize, k) + o < SizeOf(v.dir[s]) && Span(v.clusSize, k) + o + |t| < U32
    ensures SlotOk(v, s) && |Content(v, s)| == SizeOf(v.dir[s]) && Writable(v, InsideHandle(v, s, k, o), t)
    ensures var (v2, h2, n) := Write(v, InsideHandle(v, s, k, o), t);
            var v3 := Flush(v2, h2);
            && n == |t| && h2.slot == s && SlotKept(v, v2, s) && SlotKept(v, v3, s)
            && Lookup(v3, NameOf(v.dir[s])) == Some(File(v.dir[s][11], Over(Content(v, s), Span(v.clusSize, k) + o, t)))
            && Tight(v3, s) && SizeOf(v3.dir[s]) == h2.size && FirstOf(v3.dir[s]) == h2.first
  {
    hide Sane, Flat, OthersKept, OwnersKept, Lookup, Write, Splice, Placed, Over, Flush, Open, Content, OnlySlot;
    SaneShape(v);
    InsideWrite(v, s, k, o, t);
    PlacedKeeps(v, s, k, o, t);
    InsideOpen(v, s, k, o, t);
    var v2 := Placed(v, Owned(v, s)[k], o, t);
    var h' := BackAtEnd(v, s, k, o, |t|);
    SaneShape(v2);
    FlushKeeps(v2, h');
    FlushedSlot(v2, h');
    TightAfter(v2, h');
    SameFlush(v2, Moved(InsideHandle(v, s, k, o), Owned(v, s)[k], |t|), h');
    SlotKeptTrans(v, v2, Flush(v2, h'), s);
  }

  /** A flushed file is as tight as it was open. */
  lemma TightAfter(v: Volume, h: Handle)
    requires Sane(v) && Open(v, h) && h.size < U32
    ensures Tight(Flush(v, h), h.slot)
  {
    hide Flat, IsChain, HasChain;
    FlushSane(v, h);
    FlushedSlot(v, h);
  }

  // ---------- files open for records ----------

  /** An open file of the kernel that is read and written record by record. */
  ghost predicate OpenFile(fat: Driver, fp: FatFile, s: nat)
    requires fat.Wired() && OnDisk(fat.m, fat.Disk())
    reads fat, fat.dev, fat.dev.shadow, fp
  {
    Reading(fat, fp, s) && Tight(fat.Vol(), s)
  }

  /** One that was made, so that its structure holds the place of its own slot. */
  ghost predicate Writing(fat: Driver, fp: FatFile, s: nat)
    requires fat.Wired() && OnDisk(fat.m, fat.Disk())
    reads fat, fat.dev, fat.dev.shadow, fp
  {
    OpenFile(fat, fp, s) && SlotAt(fat.m, fp.dirLba, fp.dirOff, s)
  }

  /** Records do not lie across clusters. */
  lemma RecordInCluster(cs: nat, r: nat)
    requires cs > 0 && cs % SECTOR == 0
    ensures RECORD * r % cs + RECORD <= cs
  {
    var n := cs / RECORD;
    assert cs == RECORD * n;
    var q, i := r / n, r % n;
    assert r == q * n + i;
    assert RECORD * r == q * cs + RECORD * i;
    DivUnique(RECORD * r, cs, q, RECORD * i);
  }

  /** The cluster of a byte position and the offset in it. */
  lemma ClusterOf(cs: nat, at: nat, n: nat)
    requires cs > 0
    ensures Span(cs, at / cs) + at % cs == at
    ensures at < Span(cs, n) ==> at / cs < n
    ensures forall k :: Span(cs, k) + at % cs == at ==> k == at / cs
  {
    SpanIsProduct(cs, at / cs);
    SpanIsProduct(cs, n);
    if at < Span(cs, n) && at / cs >= n {
      SpanGrows(cs, n, at / cs);
    }
    forall k: nat | Span(cs, k) + at % cs == at
      ensures k == at / cs
    {
      SpanDivMod(cs, k, at % cs);
    }
  }

  /** The handle a seek to `at` leaves: inside the file, or at its end. */
  ghost function RecordHandle(v: Volume, s: nat, at: nat): (h: Handle)
    requires Used(v.dir, s) && v.clusSize > 0
    ensures h.slot == s && h.first == FirstOf(v.dir[s]) && h.size == SizeOf(v.dir[s])
  {
    if at < SizeOf(v.dir[s]) && at / v.clusSize < |Owned(v, s)| then InsideHandle(v, s, at / v.clusSize, at % v.clusSize) else EndHandle(v, s)
  }

  /** The seek of a write: it fails exactly at the end of a file that fills its clusters. */
  method SeekRecord(fat: Driver, fp: FatFile, byteOff: nat, ghost s: nat) returns (rc: int)
    requires fat.Ready() && Sane(fat.Vol()) && OpenFile(fat, fp, s)
    modifies fat`fatLba, fat`fatValid, fat.dev, fat.dev.shadow, fat.wbuf, fp`curPos, fp`curClus
    ensures fat.Ready() && fat.Disk() == old(fat.Disk()) && fat.Vol().clusSize > 0
    ensures rc == 0 <==> byteOff < fp.fileSize || MidCluster(fat.Vol(), fp.fileSize)
    ensures fp.curPos == Least(byteOff, fp.fileSize)
    ensures rc == 0 ==> fat.HandleOf(fp, s) == RecordHandle(fat.Vol(), s, byteOff)
  {
    hide View, OnDisk, Sound, Mirrored, TablesFit, Flat, Sane, IsChain, SlotAt, Span, Content;
    ghost var v := fat.Vol();
    SaneShape(v);
    ghost var ch := FileForReader(v, s);
    ghost var k;
    rc, k := fat.FSeek(fp, byteOff, ch);
    EndPlace(v.clusSize, fp.fileSize, |ch|, k);
    ClusterOf(v.clusSize, byteOff, |ch|);
  }

  /** Where a record is written: at its place, or at the end of a file that does not reach so far. */
  function PlaceOf(size: nat, r: nat): (at: nat)
    ensures at <= size
  {
    Least(RECORD * r, size)
  }

  /** Whether a record can be written there: inside the file always, at its end when there is room in its cluster. */
  ghost predicate CanPut(v: Volume, s: nat, r: nat)
    requires Shape(v) && Tight(v, s)
  {
    || RECORD * r < SizeOf(v.dir[s])
    || (MidCluster(v, SizeOf(v.dir[s])) && Room(v, EndHandle(v, s), RECORD) == RECORD)
  }

  lemma TightUsed(v: Volume, s: nat)
    requires Tight(v, s)
    ensures Used(v.dir, s)
  {
  }

  /** The record is written: at its place or at the end, with all else of the file and all other files as before. */
  ghost predicate RecordPut(v: Volume, v': Volume, s: nat, r: nat, rec: seq<byte>)
    requires Sane(v) && Used(v.dir, s)
  {
    && SlotOk(v, s) && |Content(v, s)| == SizeOf(v.dir[s]) && SlotKept(v, v', s) && Tight(v', s)
    && Lookup(v', NameOf(v.dir[s]))
       == Some(File(v.dir[s][11], Over(Content(v, s), PlaceOf(SizeOf(v.dir[s]), r), rec)))
  }

  /** The file of slot `s` has the contents it had. */
  ghost predicate OwnKept(v: Volume, v': Volume, s: nat)
    requires Sane(v) && Used(v.dir, s)
  {
    Sane(v') && Lookup(v', NameOf(v.dir[s])) == Lookup(v, NameOf(v.dir[s]))
  }

  lemma RecordPutKeeps(v: Volume, v': Volume, s: nat, r: nat, rec: seq<byte>)
    requires Sane(v) && Used(v.dir, s) && RecordPut(v, v', s, r, rec)
    ensures SlotKept(v, v', s) && Tight(v', s) && Used(v'.dir, s) && Sane(v')
  {
    hide Sane, Tight, Content;
  }

  /** A record that did not fit whole is not flushed, and does not show under the file's name. */
  lemma RefusedHidden(v: Volume, s: nat, data: seq<byte>)
    requires Sane(v) && Tight(v, s) && MidCluster(v, SizeOf(v.dir[s])) && data != []
    ensures Used(v.dir, s) && AtEnd(v, EndHandle(v, s)) && OwnKept(v, Write(v, EndHandle(v, s), data).0, s)
  {
    hide Sane, Write, Lookup, Owned, Open, EndHandle, MidCluster, FatRuns.HandleOk, Continues, OthersKept;
    SaneShape(v);
    EndIsOk(v, s);
    FatRuns.WriteHidden(v, EndHandle(v, s), data);
  }

  lemma EndIsOk(v: Volume, s: nat)
    requires Shape(v) && Tight(v, s)
    ensures Used(v.dir, s) && EndHandle(v, s).slot == s && FatRuns.HandleOk(v, EndHandle(v, s))
    ensures forall data: seq<byte> :: MidCluster(v, SizeOf(v.dir[s])) ==> Continues(v, EndHandle(v, s), data)
  {
    hide Open, Owned;
  }

  /** Inside a file the seek finds the cluster of the record. */
  lemma InsideIs(v: Volume, s: nat, at: nat)
    requires Sane(v) && Used(v.dir, s) && at < SizeOf(v.dir[s]) && v.clusSize > 0
    ensures at / v.clusSize < |Owned(v, s)| && Span(v.clusSize, at / v.clusSize) + at % v.clusSize == at
    ensures RecordHandle(v, s, at) == InsideHandle(v, s, at / v.clusSize, at % v.clusSize)
  {
    hide Span;
    assert SlotOk(v, s);
    ClusterOf(v.clusSize, at, |Owned(v, s)|);
  }

  /** What seek, write and flush of a record do to the volume. */
  lemma RecordFlush(v: Volume, s: nat, r: nat, data: seq<byte>)
    requires Sane(v) && Tight(v, s) && |data| == RECORD && r < RECORDS && v.clusSize > 0 && v.clusSize % SECTOR == 0
    requires RECORD * r < SizeOf(v.dir[s]) || MidCluster(v, SizeOf(v.dir[s]))
    ensures Used(v.dir, s)
    ensures var h := RecordHandle(v, s, RECORD * r);
            && Writable(v, h, data)
            && var (v2, h2, n) := Write(v, h, data);
               var v3 := Flush(v2, h2);
               && h2.slot == s && (n == RECORD <==> CanPut(v, s, r)) && SlotKept(v, v2, s) && (n != RECORD ==> OwnKept(v, v2, s))
               && (n == RECORD ==>
                     && RecordPut(v, v3, s, r, data) && Used(v3.dir, s) && SizeOf(v3.dir[s]) == h2.size && FirstOf(v3.dir[s]) == h2.first
                     && (RECORD * (r + 1) <= SizeOf(v.dir[s]) ==> h2.size == SizeOf(v.dir[s])))
  {
    hide Sane, Flat, OthersKept, OwnersKept, Lookup, Write, Flush, Room, Tight, EndHandle, Owned, Placed, SlotKept, MidCluster, Content, OwnKept;
    SaneShape(v);
    TightUsed(v, s);
    SizeIsLength(v, s);
    if RECORD * r < SizeOf(v.dir[s]) {
      var k, o := RECORD * r / v.clusSize, RECORD * r % v.clusSize;
      RecordInCluster(v.clusSize, r);
      InsideIs(v, s, RECORD * r);
      InsideFlush(v, s, k, o, data);
      InsideWrite(v, s, k, o, data);
      var (v2, h2, _) := Write(v, InsideHandle(v, s, k, o), data);
      TightUsed(Flush(v2, h2), s);
    } else {
      AppendFlush(v, s, data);
      RefusedHidden(v, s, data);
      var (v2, h2, _) := Write(v, EndHandle(v, s), data);
      TightUsed(Flush(v2, h2), s);
      OverEnd(Content(v, s), data);
      assert data[..RECORD] == data;
    }
  }

  // ---------- through another place ----------

  /** Where the structure's place must be for a record to be written rightly. */
  ghost predicate PlaceFits(v: Volume, s: nat, a: nat, r: nat)
    requires s < |v.dir| && |v.dir[s]| == 32
  {
    a == s || (!Used(v.dir, a) && RECORD * (r + 1) <= SizeOf(v.dir[s]))
  }

  /** A record that makes the file longer is not put where its own slot stays as it was. */
  lemma NotLonger(v: Volume, v': Volume, s: nat, r: nat, rec: seq<byte>)
    requires Sane(v) && Used(v.dir, s) && |rec| == RECORD && s < |v'.dir| && v'.dir[s] == v.dir[s]
    requires RECORD * (r + 1) > SizeOf(v.dir[s])
    ensures !RecordPut(v, v', s, r, rec)
  {
    hide Sane, Tight, Content, OthersKept, OwnersKept;
    if RecordPut(v, v', s, r, rec) {
      LookupSlot(v', s);
      SizeIsLength(v', s);
    }
  }

  /** Slots that are not in use do not matter to a record put. */
  lemma PutUnseen(v: Volume, v2: Volume, s: nat, a: nat, h: Handle, r: nat, rec: seq<byte>)
    requires Sane(v) && Used(v.dir, s) && RecordPut(v, v2, s, r, rec) && a <= |v2.dir| && !Used(v2.dir, a) && h.first < U32
    ensures RecordPut(v, EnteredAt(v2, a, h), s, r, rec)
  {
    hide Content, Lookup, Flat, Entered;
    UnusedEntry(v2, a, h);
    var v3 := EnteredAt(v2, a, h);
    assert v3.dir[s] == v2.dir[s];
    forall i: nat | i != s
      ensures (Used(v3.dir, i) <==> Used(v.dir, i)) && OwnCount(v3, i) == OwnCount(v, i)
    {
      assert OwnCount(v3, i) == OwnCount(v2, i);
    }
  }

  /** A first cluster is enough for a record, whatever slot it is entered in. */
  lemma FirstHolds(v: Volume, a: nat, h: Handle, data: seq<byte>)
    requires Shape(v) && h.slot < |v.dir| && a <= |v.dir| && h.first == 0 && h.pos == 0 && |data| == RECORD && v.clusSize >= RECORD
    ensures Writable(v, h, data)
    ensures var (v2, h2, n) := WriteAt(v, a, h, data);
            if FirstFree(v.fat, 2) == |v.fat| then (v2, h2, n) == (v, h, 0) else n == RECORD
  {
    hide Splice;
    var c := FirstFree(v.fat, 2);
    if c < |v.fat| {
      StartedEnds(v, a, c);
    }
  }

  /**
   A record written through a structure whose place is `a`. Whether it is taken does not depend on the place. It is
   written rightly exactly when the place is the file's own slot, or is in no slot in use and the record lies within the
   file, so that its slot need not change.
   */
  lemma PutAtIff(v: Volume, s: nat, a: nat, r: nat, data: seq<byte>)
    requires Sane(v) && Tight(v, s) && |data| == RECORD && r < RECORDS && v.clusSize > 0 && v.clusSize % SECTOR == 0 && |v.fat| < U32
    requires RECORD * r < SizeOf(v.dir[s]) || MidCluster(v, SizeOf(v.dir[s]))
    requires a <= |v.dir|
    ensures Shape(v) && Used(v.dir, s) && Writable(v, RecordHandle(v, s, RECORD * r), data)
    ensures var (v2, h2, n) := WriteAt(v, a, RecordHandle(v, s, RECORD * r), data);
            && (n == RECORD <==> CanPut(v, s, r))
            && (n == RECORD ==> (RecordPut(v, EnteredAt(v2, a, h2), s, r, data) <==> PlaceFits(v, s, a, r)))
            && (n != RECORD ==> SlotKept(v, v2, s) && OwnKept(v, v2, s))
  {
    hide Sane, WriteAt, EnteredAt, Write, Flush, RecordPut, CanPut, SlotKept, OwnKept, Tight, MidCluster, RecordHandle, Writable;
    SaneShape(v);
    TightUsed(v, s);
    RecordFlush(v, s, r, data);
    var h := RecordHandle(v, s, RECORD * r);
    OwnPlace(v, h, data);
    if a == s {
    } else if h.first == 0 {
      EmptyFile(v, s, RECORD * r);
      FirstHolds(v, a, h, data);
      FirstHolds(v, s, h, data);
      OtherPlace(v, a, h, data);
      SlotKeptRefl(v, s);
      NotLonger(v, EnteredAt(WriteAt(v, a, h, data).0, a, WriteAt(v, a, h, data).1), s, r, data);
    } else {
      HasClusterPut(v, s, a, r, data);
    }
  }

  lemma EmptyFile(v: Volume, s: nat, at: nat)
    requires Sane(v) && Tight(v, s) && FirstOf(v.dir[s]) == 0 && v.clusSize > 0 && v.clusSize % SECTOR == 0
    ensures Used(v.dir, s) && SizeOf(v.dir[s]) == 0 && RecordHandle(v, s, at).pos == 0 && v.clusSize >= RECORD
  {
    NoChainAtZero(v.ty, v.fat);
  }

  /** The entry of a file that has a cluster, at another place. */
  lemma ThroughIff(v: Volume, v2: Volume, h: Handle, s: nat, a: nat, r: nat, rec: seq<byte>)
    requires Sane(v) && Used(v.dir, s) && SlotKept(v, v2, s) && v2.dir == v.dir && a != s && a <= |v.dir| && |rec| == RECORD
    requires Shape(v2) && h.slot == s && h.first == FirstOf(v.dir[s]) != 0 && h.first < U32
    requires RecordPut(v, Flush(v2, h), s, r, rec) && (RECORD * (r + 1) <= SizeOf(v.dir[s]) ==> h.size == SizeOf(v.dir[s]))
    ensures RecordPut(v, EnteredAt(v2, a, h), s, r, rec) <==> PlaceFits(v, s, a, r)
  {
    hide Sane, EnteredAt, Flush, SlotKept, RecordPut, Tight, FirstOf, SizeOf;
    KeptSane(v, v2, s);
    if RECORD * (r + 1) > SizeOf(v.dir[s]) {
      NotLonger(v, EnteredAt(v2, a, h), s, r, rec);
    } else if Used(v.dir, a) {
      TwoOwners(v2, a, h);
      if RecordPut(v, EnteredAt(v2, a, h), s, r, rec) {
        RecordPutKeeps(v, EnteredAt(v2, a, h), s, r, rec);
      }
    } else {
      FlushedSame(v2, h);
      PutUnseen(v, v2, s, a, h, r, rec);
    }
  }

  /** The same for a file that has a cluster. */
  lemma HasClusterPut(v: Volume, s: nat, a: nat, r: nat, data: seq<byte>)
    requires Sane(v) && Tight(v, s) && |data| == RECORD && r < RECORDS && v.clusSize > 0 && v.clusSize % SECTOR == 0 && |v.fat| < U32
    requires RECORD * r < SizeOf(v.dir[s]) || MidCluster(v, SizeOf(v.dir[s]))
    requires a <= |v.dir| && a != s && FirstOf(v.dir[s]) != 0
    ensures Shape(v) && Used(v.dir, s) && Writable(v, RecordHandle(v, s, RECORD * r), data)
    ensures var (v2, h2, n) := WriteAt(v, a, RecordHandle(v, s, RECORD * r), data);
            && (n == RECORD <==> CanPut(v, s, r))
            && (n == RECORD ==> (RecordPut(v, EnteredAt(v2, a, h2), s, r, data) <==> PlaceFits(v, s, a, r)))
            && (n != RECORD ==> SlotKept(v, v2, s) && OwnKept(v, v2, s))
  {
    hide Sane, WriteAt, EnteredAt, Write, Flush, CanPut, SlotKept, OwnKept, Tight, MidCluster, RecordHandle, Writable, RecordPut, PlaceFits,
         FirstOf, SizeOf;
    SaneShape(v);
    TightUsed(v, s);
    RecordFlush(v, s, r, data);
    var h := RecordHandle(v, s, RECORD * r);
    OtherPlace(v, a, h, data);
    FirstSmall(v, s);
    var (v2, h2, n) := Write(v, h, data);
    if n == RECORD {
      ThroughIff(v, v2, h2, s, a, r, data);
    }
  }

  lemma FirstSmall(v: Volume, s: nat)
    requires Sane(v) && Used(v.dir, s) && FirstOf(v.dir[s]) != 0 && |v.fat| < U32
    ensures FirstOf(v.dir[s]) < U32
  {
    assert SlotOk(v, s);
    ChainMembers(v.ty, v.fat, Owned(v, s));
  }

  lemma KeptSane(v: Volume, v': Volume, s: nat)
    requires Sane(v) && Used(v.dir, s) && SlotKept(v, v', s)
    ensures Sane(v')
  {
  }

  /** Flushing what the slot says already changes nothing. */
  lemma FlushedSame(v: Volume, h: Handle)
    requires Shape(v) && h.slot < |v.dir| && h.first == FirstOf(v.dir[h.slot]) && h.size == SizeOf(v.dir[h.slot])
    ensures Flush(v, h) == v
  {
    hide Entered, FirstOf, SizeOf;
    EnteredSame(v.dir[h.slot]);
  }

  // ---------- the calls ----------

  /** The start of a file without a cluster, in the first turn of a write. */
  method BeginFile(fat: Driver, fp: FatFile, ghost s: nat, ghost a: nat) returns (nc: nat)
    requires fat.Ready() && PlaceAt(fat.m, fp.dirLba, fp.dirOff, a) && fp.firstClus == 0
    modifies fat`secValid, fat`fatLba, fat`fatValid, fat.dev, fat.dev.shadow, fat.wbuf, fp`firstClus, fp`curClus
    ensures fat.Ready() && a <= Slots(fat.m) && |old(fat.Disk())| >= SECTOR && SECTOR * fat.m.rsvdSec <= |fat.Disk()| == |old(fat.Disk())|
    ensures var v := old(fat.Vol());
            var c := FirstFree(v.fat, 2);
            if c == |v.fat| then nc == 0 && fat.Vol() == v && fat.HandleOf(fp, s) == old(fat.HandleOf(fp, s))
            else 2 <= nc == c < |v.fat| && fat.Vol() == StartedAt(v, a, c) && fat.HandleOf(fp, s) == old(fat.HandleOf(fp, s)).(first := c, cur := c)
    ensures a < Slots(fat.m) || nc == 0 ==> BootKept(fat.m, old(fat.Disk()), fat.Disk())
    ensures a == Slots(fat.m) && nc != 0 ==> fat.Disk()[..SECTOR] == Splice(old(fat.Disk())[..SECTOR], 0, SetFirst(old(fat.Disk())[..32], nc))
  {
    hide View, OnDisk, Sound, Mirrored, TablesFit, SlotAt, PlaceAt, BootKept, SetFirst, Splice, Slots, Started;
    fat.ReadyFacts();
    fat.PlaceFacts(fp.dirLba, fp.dirOff, a);
    nc := fat.StartFile(fp, a);
    fat.PlaceFacts(fp.dirLba, fp.dirOff, a);
  }

  lemma Begun(v: Volume, a: nat, h: Handle, data: seq<byte>)
    requires Shape(v) && h.slot < |v.dir| && a <= |v.dir| && data != [] && h.first == 0 && Writable(v, h, data)
    ensures var c := FirstFree(v.fat, 2);
            if c == |v.fat| then WriteAt(v, a, h, data) == (v, h, 0)
            else
              var h1 := h.(first := c, cur := c);
              Writable(StartedAt(v, a, c), h1, data) && WriteAt(v, a, h, data) == Write(StartedAt(v, a, c), h1, data)
              && Write(StartedAt(v, a, c), h1, data).1.first == c
  {
    hide Write;
    var c := FirstFree(v.fat, 2);
    if c < |v.fat| {
      StartedEnds(v, a, c);
      WriteKeepsFirst(StartedAt(v, a, c), h.(first := c, cur := c), data);
    }
  }

  lemma Going(v: Volume, a: nat, h: Handle, data: seq<byte>)
    requires Shape(v) && h.slot < |v.dir| && a <= |v.dir| && h.first != 0 && Writable(v, h, data)
    ensures WriteAt(v, a, h, data) == Write(v, h, data) && Write(v, h, data).1.first == h.first
  {
    WriteKeepsFirst(v, h, data);
  }

  /**
   fat_fwrite of a structure whose place is `a`: the first turn of a file without a cluster starts it and enters it
   there; from then on the place is not looked at.
   */
  method WriteThrough(fat: Driver, fp: FatFile, data: seq<byte>, ghost s: nat, ghost a: nat) returns (written: nat)
    requires fat.Ready() && fp.inUse && PlaceAt(fat.m, fp.dirLba, fp.dirOff, a) && fp.curPos + |data| < U32 && data != []
    requires s < |fat.Vol().dir| && Writable(fat.Vol(), fat.HandleOf(fp, s), data)
    modifies fat`secValid, fat`fatLba, fat`fatValid, fat.dev, fat.dev.shadow, fat.wbuf
    modifies fp`firstClus, fp`curClus, fp`curPos, fp`fileSize
    ensures fat.Ready() && a <= Slots(fat.m) && SECTOR <= |fat.Disk()| == |old(fat.Disk())|
    ensures old(Writable(fat.Vol(), fat.HandleOf(fp, s), data))
    ensures (fat.Vol(), fat.HandleOf(fp, s), written) == WriteAt(old(fat.Vol()), a, old(fat.HandleOf(fp, s)), data)
    ensures a < Slots(fat.m) ==> BootKept(fat.m, old(fat.Disk()), fat.Disk())
    ensures a == Slots(fat.m) ==>
              fat.Disk()[..SECTOR] == if old(fp.firstClus) == 0 && fp.firstClus != 0
                                      then Splice(old(fat.Disk())[..SECTOR], 0, SetFirst(old(fat.Disk())[..32], fp.firstClus))
                                      else old(fat.Disk())[..SECTOR]
  {
    hide View, OnDisk, Sound, Mirrored, TablesFit, SlotAt, PlaceAt, BootKept, Write, SetFirst, Splice, Slots, StartedAt, WriteAt, Writable;
    fat.ReadyFacts();
    fat.PlaceFacts(fp.dirLba, fp.dirOff, a);
    ghost var v, h, d0 := fat.Vol(), fat.HandleOf(fp, s), fat.Disk();
    fat.BootKeptSame(fat.m, d0);
    if fp.firstClus == 0 {
      Begun(v, a, h, data);
      var nc := BeginFile(fat, fp, s, a);
      if nc == 0 {
        StartKept(fat.m, d0, d0, fat.Disk(), a, fp.dirLba, fp.dirOff);
        return 0;
      }
    } else {
      Going(v, a, h, data);
    }
    fat.ReadyFacts();
    ghost var d1 := fat.Disk();
    written := fat.FWrite(fp, data, s);
    StartKept(fat.m, d0, d1, fat.Disk(), a, fp.dirLba, fp.dirOff);
  }

  lemma WriteKeepsFirst(v: Volume, h: Handle, data: seq<byte>)
    requires Shape(v) && h.slot < |v.dir| && Writable(v, h, data) && h.first != 0
    ensures Write(v, h, data).1.first == h.first
  {
    hide Fill;
  }

  /** Sector 0 through the steps of a write. */
  lemma StartKept(m: Mount, d0: seq<byte>, d1: seq<byte>, d2: seq<byte>, a: nat, lba: nat, off: nat)
    requires PlaceAt(m, lba, off, a) && BootKept(m, d1, d2) && |d0| == |d1| && SECTOR * m.rsvdSec <= |d1|
    ensures BootKept(m, d0, d1) ==> BootKept(m, d0, d2)
    ensures a == Slots(m) ==> |d1| >= SECTOR && |d2| == |d1| && d2[..SECTOR] == d1[..SECTOR]
  {
    hide SlotAt, Slots;
    if a == Slots(m) {
      var b := SECTOR * m.rsvdSec;
      assert d2[..SECTOR] == d2[..b][..SECTOR] == d1[..b][..SECTOR] == d1[..SECTOR];
    }
  }

  lemma EnteredTwice(e: seq<byte>, c: nat, size: nat)
    requires |e| == 32 && c != 0
    ensures Entered(SetFirst(e, c), c, size) == Entered(e, c, size)
  {
    var x, y := Entered(SetFirst(e, c), c, size), Entered(e, c, size);
    assert forall i :: 0 <= i < 32 ==> x[i] == y[i];
  }

  /** Sector 0 after the first cluster and then the size were entered there. */
  lemma StartEntered(d0: seq<byte>, d1: seq<byte>, d2: seq<byte>, c: nat, size: nat)
    requires |d0| >= SECTOR && |d1| >= SECTOR && d2 == Splice(d1, 0, Entered(d1[..32], c, size))
    requires d1[..SECTOR] == d0[..SECTOR] || (c != 0 && d1[..SECTOR] == Splice(d0[..SECTOR], 0, SetFirst(d0[..32], c)))
    ensures d2[..SECTOR] == Splice(d0[..SECTOR], 0, Entered(d0[..32], c, size))
  {
    hide SetFirst, Entered;
    assert d1[..32] == d1[..SECTOR][..32] && d0[..32] == d0[..SECTOR][..32];
    if d1[..SECTOR] != d0[..SECTOR] {
      assert d1[..32] == SetFirst(d0[..32], c);
      EnteredTwice(d0[..32], c, size);
    }
  }

  /** fat_fflush of a structure whose place is `a`. */
  method FlushThrough(fat: Driver, fp: FatFile, ghost s: nat, ghost a: nat)
    requires fat.Ready() && fp.inUse && PlaceAt(fat.m, fp.dirLba, fp.dirOff, a)
    modifies fat`secValid, fat`fatValid, fat.dev, fat.dev.shadow, fat.wbuf
    ensures fat.Ready() && a <= Slots(fat.m) && SECTOR <= |old(fat.Disk())|
    ensures fat.Vol() == EnteredAt(old(fat.Vol()), a, fat.HandleOf(fp, s))
    ensures a < Slots(fat.m) ==> BootKept(fat.m, old(fat.Disk()), fat.Disk())
    ensures a == Slots(fat.m) ==> fat.Disk() == Splice(old(fat.Disk()), 0, Entered(old(fat.Disk())[..32], fp.firstClus, fp.fileSize))
  {
    hide View, OnDisk, Sound, Mirrored, TablesFit, SlotAt, PlaceAt, BootKept, Splice, Slots, Entered;
    fat.ReadyFacts();
    fat.PlaceFacts(fp.dirLba, fp.dirOff, a);
    var code := fat.FFlush(fp, a);
  }

  /** Writing and, when all was written, flushing. */
  method StoreData(fat: Driver, fp: FatFile, data: seq<byte>, ghost s: nat, ghost a: nat) returns (ok: bool)
    requires fat.Ready() && fp.inUse && PlaceAt(fat.m, fp.dirLba, fp.dirOff, a) && fp.curPos + |data| < U32 && data != []
    requires s < |fat.Vol().dir| && Writable(fat.Vol(), fat.HandleOf(fp, s), data)
    modifies fat`secValid, fat`fatLba, fat`fatValid, fat.dev, fat.dev.shadow, fat.wbuf
    modifies fp`firstClus, fp`curClus, fp`curPos, fp`fileSize
    ensures fat.Ready() && a <= Slots(fat.m) && SECTOR <= |fat.Disk()| == |old(fat.Disk())|
    ensures old(Writable(fat.Vol(), fat.HandleOf(fp, s), data))
    ensures var (v2, h2, n) := WriteAt(old(fat.Vol()), a, old(fat.HandleOf(fp, s)), data);
            ok == (n == |data|) && fat.HandleOf(fp, s) == h2 && fat.Vol() == if ok then EnteredAt(v2, a, h2) else v2
    ensures a < Slots(fat.m) ==> BootKept(fat.m, old(fat.Disk()), fat.Disk())
    ensures a == Slots(fat.m) && ok ==>
              fat.Disk()[..SECTOR] == Splice(old(fat.Disk())[..SECTOR], 0, Entered(old(fat.Disk())[..32], fp.firstClus, fp.fileSize))
  {
    hide View, OnDisk, Sound, Mirrored, TablesFit, SlotAt, PlaceAt, BootKept, WriteAt, SetFirst, Splice, Slots, Entered, EnteredAt, Flush,
         Writable;
    fat.ReadyFacts();
    ghost var d0 := fat.Disk();
    var written := WriteThrough(fat, fp, data, s, a);
    ok := written == |data|;
    if !ok {
      return;
    }
    ghost var d1 := fat.Disk();
    FlushThrough(fat, fp, s, a);
    if a < Slots(fat.m) {
      fat.BootKeptTrans(fat.m, d0, d1, fat.Disk());
    } else {
      StartEntered(d0, d1, fat.Disk(), fp.firstClus, fp.fileSize);
    }
  }

  /**
   The transfer of one record into a file. It works exactly inside the file, and at its end when the file does not
   fill its last cluster and a record fits; then those bytes are replaced or appended and nothing else changes, exactly
   when the structure's place fits. A record that is refused changes no file, although part of it may have been written.
   */
  method PutRecord(fat: Driver, fp: FatFile, r: nat, dma: array<byte>, ghost s: nat, ghost a: nat) returns (rc: nat)
    requires fat.Ready() && fat.Outside(dma) && dma.Length >= RECORD && r < RECORDS
    requires Sane(fat.Vol()) && OpenFile(fat, fp, s) && PlaceAt(fat.m, fp.dirLba, fp.dirOff, a)
    modifies fat`secValid, fat`fatLba, fat`fatValid, fat.dev, fat.dev.shadow, fat.wbuf
    modifies fp`firstClus, fp`curClus, fp`curPos, fp`fileSize
    ensures fat.Ready() && (rc == 0 || rc == 0xFF) && a <= Slots(fat.m) && |old(fat.Disk())| >= SECTOR
    ensures rc == 0 <==> CanPut(old(fat.Vol()), s, r)
    ensures rc == 0 ==> PutThrough(old(fat.Vol()), fat.Vol(), s, a, r, old(dma[..RECORD]))
    ensures rc == 0 ==> (RecordPut(old(fat.Vol()), fat.Vol(), s, r, old(dma[..RECORD])) <==> PlaceFits(old(fat.Vol()), s, a, r))
    ensures rc == 0 && a == s ==> Writing(fat, fp, s)
    ensures rc != 0 ==> SlotKept(old(fat.Vol()), fat.Vol(), s) && OwnKept(old(fat.Vol()), fat.Vol(), s)
    ensures rc != 0 && !MidCluster(old(fat.Vol()), SizeOf(old(fat.Vol()).dir[s])) ==> fat.Vol() == old(fat.Vol()) && OpenFile(fat, fp, s)
    ensures a < Slots(fat.m) ==> BootKept(fat.m, old(fat.Disk()), fat.Disk())
    ensures a == Slots(fat.m) && rc == 0 ==>
              fat.Disk()[..SECTOR] == Splice(old(fat.Disk())[..SECTOR], 0, Entered(old(fat.Disk())[..32], fp.firstClus, fp.fileSize))
  {
    hide View, OnDisk, Sound, Mirrored, TablesFit, Flat, Sane, IsChain, SlotAt, PlaceAt, Span, Content, Room, Lookup, Write, Flush, Tight,
         RecordHandle, Owned, MidCluster, SlotKept, RecordPut, OwnKept, WriteAt, EnteredAt, Slots, BootKept, Splice, Entered, Writable,
         PlaceFits, CanPut, FirstOf, SizeOf;
    ghost var v, d0 := fat.Vol(), fat.Disk();
    OpenFacts(fat, fp, s, a, r, dma[..RECORD]);
    fat.BootKeptSame(fat.m, d0);
    var code := SeekRecord(fat, fp, r * RECORD, s);
    if code != 0 {
      NotPut(v, s, r);
      return 0xFF;
    }
    var data := dma[..RECORD];
    var ok := StoreData(fat, fp, data, s, a);
    if !ok {
      return 0xFF;
    }
    if a == s {
      RecordPutKeeps(v, fat.Vol(), s, r, data);
      OwnSlotAt(fat, fp, s);
      WritingNow(fat, fp, s);
    }
    rc := 0;
  }

  /** What the steps of a record write need to know. */
  lemma OpenFacts(fat: Driver, fp: FatFile, s: nat, a: nat, r: nat, data: seq<byte>)
    requires fat.Ready() && Sane(fat.Vol()) && OpenFile(fat, fp, s) && PlaceAt(fat.m, fp.dirLba, fp.dirOff, a) && |data| == RECORD && r < RECORDS
    ensures var v := fat.Vol();
            && fat.Wired() && OnDisk(fat.m, fat.Disk()) && a <= Slots(fat.m) == |v.dir| && |fat.Disk()| >= SECTOR
            && Used(v.dir, s) && fp.inUse && fp.fileSize == SizeOf(v.dir[s]) && fp.fileSize < U32 && v.clusSize > 0
            && SlotKept(v, v, s) && OwnKept(v, v, s) && Tight(v, s)
            && (RECORD * r < SizeOf(v.dir[s]) ==> CanPut(v, s, r)) && (a == s ==> PlaceFits(v, s, a, r))
            && (RECORD * r < SizeOf(v.dir[s]) || MidCluster(v, SizeOf(v.dir[s])) ==> PutFacts(v, s, a, r, data))
  {
    hide View, OnDisk, Sound, Mirrored, TablesFit, Sane, SlotAt, PlaceAt, Write, Flush, Tight, RecordHandle, MidCluster, SlotKept, RecordPut,
         OwnKept, WriteAt, EnteredAt, Slots, Writable, Room;
    var v := fat.Vol();
    SaneShape(v);
    TightUsed(v, s);
    SizeIsLength(v, s);
    SlotKeptRefl(v, s);
    fat.PositiveCluster();
    fat.PlaceFacts(fp.dirLba, fp.dirOff, a);
    FewClusters(fat.m, fat.Disk());
    if RECORD * r < SizeOf(v.dir[s]) || MidCluster(v, SizeOf(v.dir[s])) {
      PutAtIff(v, s, a, r, data);
      RecordFlush(v, s, r, data);
      OwnPlace(v, RecordHandle(v, s, RECORD * r), data);
    }
  }

  /** A record written at place `a`: whether it is taken, whether rightly, and what the handle says afterwards. */
  ghost predicate PutFacts(v: Volume, s: nat, a: nat, r: nat, data: seq<byte>)
    requires Sane(v) && Used(v.dir, s) && v.clusSize > 0 && a <= |v.dir| && |data| == RECORD
  {
    && Shape(v) && Tight(v, s) && Writable(v, RecordHandle(v, s, RECORD * r), data)
    && var (v2, h2, n) := WriteAt(v, a, RecordHandle(v, s, RECORD * r), data);
       var v3 := EnteredAt(v2, a, h2);
       && (n == RECORD <==> CanPut(v, s, r))
       && (n == RECORD ==> (RecordPut(v, v3, s, r, data) <==> PlaceFits(v, s, a, r)))
       && (n == RECORD && a == s ==> Used(v3.dir, s) && SizeOf(v3.dir[s]) == h2.size && FirstOf(v3.dir[s]) == h2.first)
       && (n != RECORD ==> SlotKept(v, v2, s) && OwnKept(v, v2, s))
  }

  lemma OpenUsed(fat: Driver, fp: FatFile, s: nat)
    requires fat.Ready() && OpenFile(fat, fp, s)
    ensures Used(fat.Vol().dir, s) && Tight(fat.Vol(), s)
  {
  }

  lemma OwnSlotAt(fat: Driver, fp: FatFile, s: nat)
    requires fat.Ready() && PlaceAt(fat.m, fp.dirLba, fp.dirOff, s) && s < |fat.Vol().dir|
    ensures SlotAt(fat.m, fp.dirLba, fp.dirOff, s)
  {
    fat.PlaceFacts(fp.dirLba, fp.dirOff, s);
  }

  lemma NotPut(v: Volume, s: nat, r: nat)
    requires Shape(v) && Tight(v, s) && RECORD * r >= SizeOf(v.dir[s]) && !MidCluster(v, SizeOf(v.dir[s]))
    ensures !CanPut(v, s, r)
  {
  }

  lemma FewClusters(m: Mount, d: seq<byte>)
    requires OnDisk(m, d)
    ensures |View(m, d).fat| < U32
  {
    hide View;
    AreasFit(m, d);
  }

  /** Where a write through place `a` leaves the volume. */
  ghost predicate PutThrough(v: Volume, v': Volume, s: nat, a: nat, r: nat, rec: seq<byte>)
    requires Shape(v) && Used(v.dir, s) && a <= |v.dir| && v.clusSize > 0
  {
    var h := RecordHandle(v, s, RECORD * r);
    Writable(v, h, rec) && var (v2, h2, _) := WriteAt(v, a, h, rec); v' == EnteredAt(v2, a, h2)
  }

  lemma WritingNow(fat: Driver, fp: FatFile, s: nat)
    requires fat.Ready() && fp.inUse && SlotAt(fat.m, fp.dirLba, fp.dirOff, s) && Tight(fat.Vol(), s)
    requires fp.firstClus == FirstOf(fat.Vol().dir[s]) && fp.fileSize == SizeOf(fat.Vol().dir[s])
    ensures Writing(fat, fp, s)
  {
  }

  lemma SlotKeptRefl(v: Volume, s: nat)
    requires Sane(v) && Used(v.dir, s)
    ensures SlotKept(v, v, s) && OwnKept(v, v, s)
  {
  }

  /**
   BDOS 21, for every record number and every place the file structure holds: 0 and the next record number, or 0xFF. With
   the place of another slot, or none, it still says 0.
   */
  method WriteSeq(fat: Driver, hs: Handles, fcb: array<byte>, dma: array?<byte>, ghost s: nat, ghost a: nat) returns (rc: nat)
    requires fat.Ready() && Sane(fat.Vol()) && hs.Valid() && fcb.Length >= 36 && fat.Outside(fcb)
    requires dma != null ==> fat.Outside(dma) && dma.Length >= RECORD
    requires var h := hs.Target(fcb[..]);
             h.Some? ==> OpenFile(fat, hs.files[h.value], s) && PlaceAt(fat.m, hs.files[h.value].dirLba, hs.files[h.value].dirOff, a)
    modifies fat`secValid, fat`fatLba, fat`fatValid, fat.dev, fat.dev.shadow, fat.wbuf, fcb
    modifies hs.files`firstClus, hs.files`curClus, hs.files`curPos, hs.files`fileSize
    ensures fat.Ready() && hs.Valid() && hs.Target(fcb[..]) == hs.Target(old(fcb[..])) && (rc == 0 || rc == 0xFF)
    ensures hs.Target(fcb[..]).Some? ==> hs.Target(fcb[..]).value < |hs.files|
    ensures hs.Target(old(fcb[..])).None? || dma == null ==> rc == 0xFF && fat.Disk() == old(fat.Disk())
    ensures hs.Target(old(fcb[..])).Some? && dma != null ==>
              (rc == 0 <==> CanPut(old(fat.Vol()), s, RecordOf(old(fcb[..]))))
    ensures rc == 0 ==>
              && hs.Target(fcb[..]).Some? && a <= Slots(fat.m)
              && PutThrough(old(fat.Vol()), fat.Vol(), s, a, RecordOf(old(fcb[..])), old(dma[..RECORD]))
              && (RecordPut(old(fat.Vol()), fat.Vol(), s, RecordOf(old(fcb[..])), old(dma[..RECORD]))
                  <==> PlaceFits(old(fat.Vol()), s, a, RecordOf(old(fcb[..]))))
              && (a == s ==> Writing(fat, hs.files[hs.Target(fcb[..]).value], s))
              && Normal(fcb[..]) && RecordOf(fcb[..]) == (RecordOf(old(fcb[..])) + 1) % RECORDS
              && StandsAt(old(fcb[..]), fcb[..], RecordOf(old(fcb[..])) + 1)
              && fcb[15] as int == (hs.files[hs.Target(fcb[..]).value].fileSize + 127) / 128 % 128
    ensures rc == 0 && a == Slots(fat.m) ==>
              var fp := hs.files[hs.Target(fcb[..]).value];
              && |old(fat.Disk())| >= SECTOR
              && fat.Disk()[..SECTOR] == Splice(old(fat.Disk())[..SECTOR], 0, Entered(old(fat.Disk())[..32], fp.firstClus, fp.fileSize))
    ensures a < Slots(fat.m) ==> BootKept(fat.m, old(fat.Disk()), fat.Disk())
    ensures rc != 0 ==> fcb[..] == old(fcb[..])
    ensures rc != 0 && hs.Target(old(fcb[..])).Some? ==>
              SlotKept(old(fat.Vol()), fat.Vol(), s) && OwnKept(old(fat.Vol()), fat.Vol(), s)
    ensures var h := hs.Target(old(fcb[..]));
            rc != 0 && h.Some? && (dma == null || !MidCluster(old(fat.Vol()), SizeOf(old(fat.Vol()).dir[s]))) ==>
              fat.Vol() == old(fat.Vol()) && OpenFile(fat, hs.files[h.value], s)
    ensures var h := hs.Target(old(fcb[..]));
            forall i :: 0 <= i < |hs.files| && (h.Some? ==> hs.files[i] != hs.files[h.value]) ==> unchanged(hs.files[i])
  {
    hide View, OnDisk, Sound, Mirrored, TablesFit, Flat, Sane, SlotAt, PlaceAt, Content, Room, Lookup, Tight, EndHandle, MidCluster,
         OthersKept, OwnersKept, RecordOf, CanPut, SlotKept, RecordPut, OwnKept, PutThrough, PlaceFits, BootKept, Splice, Entered, Slots, RecordHandle, Normal, SizeOf, Reading,
         StandsAt;
    fat.BootKeptSame(fat.m, fat.Disk());
    var h := hs.ResolveFcb(fcb);
    if h.None? {
      return 0xFF;
    }
    OpenUsed(fat, hs.files[h.value], s);
    SizeIsLength(fat.Vol(), s);
    SlotKeptRefl(fat.Vol(), s);
    if dma == null {
      return 0xFF;
    }
    var fp := hs.files[h.value];
    var r := RecordOf(fcb[..]);
    rc := PutRecord(fat, fp, r, dma, s, a);
    if rc != 0 {
      return;
    }
    StepOn(hs, fcb, r, (fp.fileSize + 127) / RECORD);
  }

  /** The control block moves on to the next record. */
  method StepOn(hs: Handles, fcb: array<byte>, r: nat, records: nat)
    requires hs.Valid() && fcb.Length >= 36
    modifies fcb
    ensures hs.Target(fcb[..]) == old(hs.Target(fcb[..])) && Normal(fcb[..]) && RecordOf(fcb[..]) == (r + 1) % RECORDS
    ensures StandsAt(old(fcb[..]), fcb[..], r + 1) && fcb[15] as int == records % 128
  {
    SetRecord(fcb, r + 1);
    SetCount(fcb, records);
  }

  /** BDOS 21 on a control block that was made: the record is written rightly whenever it is taken. */
  method WriteMade(fat: Driver, hs: Handles, fcb: array<byte>, dma: array<byte>, ghost s: nat) returns (rc: nat)
    requires fat.Ready() && Sane(fat.Vol()) && hs.Valid() && fcb.Length >= 36 && fat.Outside(fcb)
    requires fat.Outside(dma) && dma.Length >= RECORD
    requires hs.Target(fcb[..]).Some? && Writing(fat, hs.files[hs.Target(fcb[..]).value], s)
    modifies fat`secValid, fat`fatLba, fat`fatValid, fat.dev, fat.dev.shadow, fat.wbuf, fcb
    modifies hs.files`firstClus, hs.files`curClus, hs.files`curPos, hs.files`fileSize
    ensures fat.Ready() && hs.Target(fcb[..]) == hs.Target(old(fcb[..])) && (rc == 0 || rc == 0xFF)
    ensures BootKept(fat.m, old(fat.Disk()), fat.Disk()) && SlotKept(old(fat.Vol()), fat.Vol(), s)
    ensures rc == 0 <==> CanPut(old(fat.Vol()), s, RecordOf(old(fcb[..])))
    ensures rc == 0 ==>
              && Writing(fat, hs.files[hs.Target(fcb[..]).value], s)
              && RecordPut(old(fat.Vol()), fat.Vol(), s, RecordOf(old(fcb[..])), old(dma[..RECORD]))
              && Normal(fcb[..]) && RecordOf(fcb[..]) == (RecordOf(old(fcb[..])) + 1) % RECORDS
    ensures rc != 0 ==> fcb[..] == old(fcb[..]) && OwnKept(old(fat.Vol()), fat.Vol(), s)
  {
    hide View, OnDisk, Sound, Mirrored, TablesFit, Sane, SlotAt, PlaceAt, Tight, MidCluster, RecordOf, CanPut, SlotKept, RecordPut, OwnKept,
         PutThrough, BootKept, Splice, Entered, Slots, RecordHandle, Normal;
    OwnPlaceAt(fat, hs.files[hs.Target(fcb[..]).value], s);
    ghost var v := fat.Vol();
    rc := WriteSeq(fat, hs, fcb, dma, s, s);
    if rc == 0 {
      RecordPutKeeps(v, fat.Vol(), s, RecordOf(old(fcb[..])), old(dma[..RECORD]));
    }
  }

  /** The record count of the extent, which no other call looks at. */
  method SetCount(fcb: array<byte>, records: nat)
    requires fcb.Length >= 36
    modifies fcb
    ensures fcb[15] == records % 0x80 && forall i :: 0 <= i < fcb.Length && i != 15 ==> fcb[i] == old(fcb[i])
    ensures RecordOf(fcb[..]) == RecordOf(old(fcb[..]))
  {
    hide Or;
    fcb[15] := records % 0x80;
  }

  // ---------- making a file ----------

  /** A file just created is one that can be written record by record. */
  lemma FreshIsTight(v: Volume, s: nat, name: seq<byte>)
    requires Sane(v) && Fresh(v, Handle(s, 0, 0, 0, 0), name)
    ensures Tight(v, s) && Lookup(v, name) == Some(File(ARCHIVE, []))
  {
    FreshIsOpen(v, Handle(s, 0, 0, 0, 0), name);
    LookupSlot(v, s);
  }

  /** No slot but `s` changes, and the chains of the other files stay as they are. */
  ghost predicate RestKept(v: Volume, v': Volume, s: nat) {
    |v'.dir| == |v.dir| && forall i: nat :: i < |v.dir| && i != s ==> v'.dir[i] == v.dir[i] && (Tight(v, i) ==> Tight(v', i))
  }

  lemma OneSlotRest(v: Volume, v': Volume, s: nat)
    requires Sane(v) && Sane(v') && OnlySlot(v, v', s)
    ensures RestKept(v, v', s)
  {
    hide Sane, OnlySlot, Open;
    forall i: nat | i < |v.dir| && i != s
      ensures |v'.dir| == |v.dir| && v'.dir[i] == v.dir[i] && (Tight(v, i) ==> Tight(v', i))
    {
      SameSlot(v, v', s, i);
      if Tight(v, i) {
        SaneShape(v);
        EndIsOk(v, i);
        FatRuns.OtherHandleKept(v, v', s, EndHandle(v, i));
        OtherSlotKept(v, v', s, i);
      }
    }
    SameSlot(v, v', s, 0);
  }

  /** The file of slot `s` is new, empty and named so, and all other files are as they were. */
  ghost predicate Made(v: Volume, v': Volume, name: seq<byte>, s: nat)
    requires Sane(v)
  {
    && Sane(v') && CanonicalNames(v'.dir) && OthersKept(v, v', name) && Lookup(v', name) == Some(File(ARCHIVE, []))
    && Tight(v', s) && NameOf(v'.dir[s]) == name && FirstOf(v'.dir[s]) == 0 && SizeOf(v'.dir[s]) == 0 && RestKept(v, v', s)
  }

  /** Whether a name can be created: it exists, or a slot is vacant. */
  ghost predicate Creatable(v: Volume, name: seq<byte>)
    requires Sane(v)
  {
    Lookup(v, name).Some? || FirstVacant(v.dir, 0) < |v.dir|
  }

  /** What creating under a file name does. */
  lemma MakeMeaning(v: Volume, name: seq<byte>)
    requires Sane(v) && CanonicalNames(v.dir) && FileName(name)
    ensures Create(v, Raw(name)).Opened? <==> Creatable(v, Raw(name))
    ensures match Create(v, Raw(name))
            case NoRoom => true
            case Opened(v', h) => h == Handle(h.slot, 0, 0, 0, 0) && Made(v, v', Raw(name), h.slot)
  {
    hide Sane, Create, CanonicalNames, Raw, Canonical, Tight, FileName, OthersKept, Lookup, OnlySlot, RestKept;
    SaneShape(v);
    FileNameIs(name);
    SameRaw(name, name);
    CreateKeeps(v, Raw(name));
    match Create(v, Raw(name)) {
      case NoRoom =>
      case Opened(v', h) =>
        SaveNames(v, Raw(name), v');
        FatRuns.CreateOneSlot(v, Raw(name));
        OneSlotRest(v, v', h.slot);
        FreshIsTight(v', h.slot, Raw(name));
    }
  }

  lemma MadeWriting(fat: Driver, v: Volume, name: seq<byte>, fp: FatFile, s: nat)
    requires fat.Ready() && Sane(v) && Made(v, fat.Vol(), name, s) && SlotAt(fat.m, fp.dirLba, fp.dirOff, s)
    requires fp.inUse && fp.firstClus == 0 && fp.fileSize == 0
    ensures Writing(fat, fp, s)
  {
  }

  /** fat_fcreate under the name in a control block. */
  method CreateNamed(fat: Driver, raw: seq<byte>, fp: FatFile, ghost name: seq<byte>) returns (ok: bool, ghost s: nat)
    requires fat.Ready() && Sane(fat.Vol()) && CanonicalNames(fat.Vol().dir) && FileName(name) && raw == Raw(name)
    modifies fat`secValid, fat`fatLba, fat`fatValid, fat.dev, fat.dev.shadow, fat.wbuf, fp
    ensures fat.Ready() && old(Sane(fat.Vol())) && (ok <==> Creatable(old(fat.Vol()), raw))
    ensures ok ==> Made(old(fat.Vol()), fat.Vol(), raw, s) && Writing(fat, fp, s)
    ensures !ok ==> fat.Vol() == old(fat.Vol())
  {
    hide View, OnDisk, Sound, Mirrored, TablesFit, Sane, Raw, FileName, CanonicalNames, Create, SlotAt, BootKept, Made, Creatable,
         Writing, NameText, PathOf, StripSlash;
    MakeMeaning(fat.Vol(), name);
    PathOfBlock(name);
    ghost var v := fat.Vol();
    var code;
    code, s := fat.FCreate(PathOf(NameText(raw)), fp);
    ok := code == 0;
    if ok {
      MadeWriting(fat, v, raw, fp, s);
    }
  }

  /** BDOS 22: 0 and a control block that stands for the empty file, ready to be written from record 0, or 0xFF. */
  method MakeFcb(fat: Driver, hs: Handles, fcb: array<byte>, ghost name: seq<byte>) returns (rc: nat, ghost s: nat)
    requires fat.Ready() && Sane(fat.Vol()) && CanonicalNames(fat.Vol().dir) && hs.Valid()
    requires fat.Outside(fcb) && fcb.Length >= 36 && fcb[0] == 0 && FileName(name) && fcb[1..12] == Raw(name)
    modifies hs`inUse, hs`gen, hs`nextGeneration, hs.files, fcb
    modifies fat`secValid, fat`fatLba, fat`fatValid, fat.dev, fat.dev.shadow, fat.wbuf
    ensures fat.Ready() && hs.Valid() && old(Sane(fat.Vol()))
    ensures rc == 0 <==> FreeEntry(old(hs.inUse), 0) < MAX_OPEN && Creatable(old(fat.Vol()), Raw(name))
    ensures rc == 0 ==>
              var i := FreeEntry(old(hs.inUse), 0);
              && hs.Target(fcb[..]) == Some(i) && RecordOf(fcb[..]) == 0 && hs.inUse == old(hs.inUse)[i := true]
              && BoundTo(old(fcb[..]), fcb[..], i, hs.gen[i], 0)
              && Made(old(fat.Vol()), fat.Vol(), Raw(name), s) && Writing(fat, hs.files[i], s)
    ensures rc != 0 ==> rc == 0xFF && hs.inUse == old(hs.inUse) && fcb[..] == old(fcb[..]) && fat.Vol() == old(fat.Vol())
  {
    hide View, OnDisk, Sound, Mirrored, TablesFit, Sane, Raw, FileName, CanonicalNames, RecordOf, Made, Creatable, Tight, SlotAt,
         OpenedAt, BoundTo, Normal, Writing, FreeEntry;
    s := 0;
    var code, idx := hs.AllocHandle();
    if code != 0 {
      return 0xFF, s;
    }
    var ok;
    ok, s := CreateNamed(fat, fcb[1..12], hs.files[idx], name);
    if !ok {
      hs.Release(idx);
      return 0xFF, s;
    }
    Attach(hs, fcb, idx, 0);
    NothingOpened();
    rc := 0;
  }

  lemma NothingOpened()
    ensures OpenedAt(0) == 0
  {
  }

  // ---------- writing a file from its start ----------

  /** In the last cluster of a file of whole records there is room for another one, unless the file fills it. */
  lemma RoomForOne(cs: nat, m: nat, size: nat)
    requires cs > 0 && size % cs + RECORD <= cs && m > 0 && Span(cs, m - 1) < size <= Span(cs, m)
    ensures size % cs != 0 ==> Span(cs, m) - size >= RECORD
  {
    hide Span;
    SpanStep(cs, m);
    var o := size - Span(cs, m - 1);
    if o < cs {
      SpanDivMod(cs, m - 1, o);
    } else {
      SpanDivMod(cs, m, 0);
    }
  }

  lemma SpanStep(cs: nat, m: nat)
    ensures m > 0 ==> Span(cs, m) == Span(cs, m - 1) + cs
  {
  }

  lemma TightPlace(v: Volume, s: nat)
    requires Tight(v, s)
    ensures var (m, size) := (|Owned(v, s)|, SizeOf(v.dir[s]));
            if m == 0 then size == 0 else Span(v.clusSize, m - 1) < size <= Span(v.clusSize, m)
  {
  }

  /**
   The next record of a file of `j` records: the first one needs a free cluster, and a later one must not start a new
   cluster.
   */
  lemma CanPutNextIff(v: Volume, s: nat, j: nat)
    requires Sane(v) && Tight(v, s) && SizeOf(v.dir[s]) == RECORD * j && v.clusSize > 0 && v.clusSize % SECTOR == 0
    ensures CanPut(v, s, j) <==> if j == 0 then FreeCount(v) > 0 else RECORD * j % v.clusSize != 0
  {
    hide Sane, Tight, FreeFrom, Owned;
    SaneShape(v);
    TightUsed(v, s);
    TightPlace(v, s);
    OneSpan(v.clusSize, FreeCount(v));
    RecordInCluster(v.clusSize, j);
    if j > 0 {
      RoomForOne(v.clusSize, |Owned(v, s)|, SizeOf(v.dir[s]));
    }
    RoomIs(v, s);
  }

  lemma RoomIs(v: Volume, s: nat)
    requires Sane(v) && Tight(v, s)
    ensures var left := Span(v.clusSize, |Owned(v, s)|) - SizeOf(v.dir[s]) + Span(v.clusSize, FreeCount(v));
            Room(v, EndHandle(v, s), RECORD) == if RECORD < left then RECORD else left
  {
  }

  lemma OneSpan(cs: nat, n: nat)
    requires cs > 0
    ensures if n == 0 then Span(cs, n) == 0 else Span(cs, n) >= cs
  {
    if n > 0 {
      SpanGrows(cs, 1, n);
      assert Span(cs, 1) == Span(cs, 0) + cs;
    }
  }

  /** Records end to end. */
  function Records(rs: seq<seq<byte>>): seq<byte>
    decreases |rs|
  {
    if rs == [] then [] else Records(rs[..|rs| - 1]) + rs[|rs| - 1]
  }

  /** How many of `n` records a new file takes one by one: those of its first cluster. */
  function Taken(v: Volume, n: nat): nat
    requires |v.fat| >= 2
  {
    if FreeCount(v) == 0 then 0 else Least(n, v.clusSize / RECORD)
  }

  /** The file of slot `s` holds the first `i` records. */
  ghost predicate Holding(v: Volume, s: nat, name: seq<byte>, attr: byte, rs: seq<seq<byte>>, i: nat)
    requires Sane(v)
  {
    i <= |rs| && Tight(v, s) && NameOf(v.dir[s]) == name && v.dir[s][11] == attr
    && SizeOf(v.dir[s]) == RECORD * i && Lookup(v, name) == Some(File(attr, Records(rs[..i])))
  }

  lemma HoldingContent(v: Volume, s: nat, name: seq<byte>, attr: byte, rs: seq<seq<byte>>, i: nat)
    requires Sane(v) && Holding(v, s, name, attr, rs, i)
    ensures SlotOk(v, s) && Content(v, s) == Records(rs[..i]) && |Content(v, s)| == RECORD * i == SizeOf(v.dir[s])
  {
    LookupSlot(v, s);
    SizeIsLength(v, s);
  }

  /** One more record at the end. */
  lemma HoldingNext(v: Volume, v': Volume, s: nat, name: seq<byte>, attr: byte, rs: seq<seq<byte>>, i: nat)
    requires Sane(v) && Holding(v, s, name, attr, rs, i) && i < |rs| && |rs[i]| == RECORD
    requires Used(v.dir, s) && RecordPut(v, v', s, i, rs[i])
    ensures Holding(v', s, name, attr, rs, i + 1)
  {
    hide Sane, Content, Tight, Lookup, OthersKept, OwnersKept;
    SaneShape(v);
    TightUsed(v, s);
    HoldingContent(v, s, name, attr, rs, i);
    OverEnd(Content(v, s), rs[i]);
    assert rs[..i + 1] == rs[..i] + [rs[i]];
    assert rs[..i + 1][..i] == rs[..i];
    TightUsed(v', s);
    NameSlot(v', s);
    SizeIsLength(v', s);
  }

  lemma NameSlot(v: Volume, s: nat)
    requires Sane(v) && Used(v.dir, s)
    ensures SlotOk(v, s) && Lookup(v, NameOf(v.dir[s])) == Some(File(v.dir[s][11], Content(v, s)))
  {
    LookupSlot(v, s);
  }

  lemma HoldingNone(v: Volume, s: nat, rs: seq<seq<byte>>)
    requires Sane(v) && Tight(v, s) && SizeOf(v.dir[s]) == 0
    ensures Holding(v, s, NameOf(v.dir[s]), v.dir[s][11], rs, 0) && 0 <= Taken(v, |rs|) <= |rs|
  {
    hide Sane, Content;
    TightUsed(v, s);
    LookupSlot(v, s);
    SizeIsLength(v, s);
  }

  lemma HoldingAll(v: Volume, s: nat, name: seq<byte>, attr: byte, rs: seq<seq<byte>>)
    requires Sane(v) && Holding(v, s, name, attr, rs, |rs|)
    ensures Lookup(v, name) == Some(File(attr, Records(rs)))
  {
    assert rs[..|rs|] == rs;
  }

  /** Records fill a cluster exactly. */
  lemma WholeRecords(cs: nat, i: nat)
    requires cs > 0 && cs % SECTOR == 0 && 0 < i <= cs / RECORD
    ensures RECORD * i % cs != 0 <==> i < cs / RECORD
  {
    var q := cs / RECORD;
    assert cs == RECORD * q;
    if i < q {
      DivUnique(RECORD * i, cs, 0, RECORD * i);
    } else {
      DivUnique(RECORD * i, cs, 1, 0);
    }
  }

  lemma HoldingIs(v: Volume, s: nat, name: seq<byte>, attr: byte, rs: seq<seq<byte>>, i: nat)
    requires Sane(v) && Holding(v, s, name, attr, rs, i)
    ensures Tight(v, s) && Used(v.dir, s) && SizeOf(v.dir[s]) == RECORD * i
  {
  }

  lemma TakenIs(v: Volume, n: nat)
    requires |v.fat| >= 2 && v.clusSize > 0 && v.clusSize % SECTOR == 0
    ensures Taken(v, n) == if FreeCount(v) == 0 then 0 else Least(n, v.clusSize / RECORD)
    ensures v.clusSize / RECORD >= 4
  {
  }

  /** The next record is written exactly when it is one of those a new file takes. */
  lemma NextTaken(v0: Volume, v: Volume, s: nat, name: seq<byte>, attr: byte, rs: seq<seq<byte>>, i: nat)
    requires Shape(v0) && Sane(v) && Holding(v, s, name, attr, rs, i) && i < |rs| && i <= Taken(v0, |rs|)
    requires v.clusSize == v0.clusSize > 0 && v.clusSize % SECTOR == 0 && (i == 0 ==> v == v0)
    ensures Tight(v, s) && (CanPut(v, s, i) <==> i + 1 <= Taken(v0, |rs|))
  {
    hide Sane, CanPut, Holding, Tight, Taken, FreeFrom;
    HoldingIs(v, s, name, attr, rs, i);
    TakenIs(v0, |rs|);
    CanPutNextIff(v, s, i);
    if i > 0 {
      WholeRecords(v.clusSize, i);
    }
  }

  /** What a program puts at its transfer address. */
  method FillRecord(dma: array<byte>, rec: seq<byte>)
    requires |rec| <= dma.Length
    modifies dma
    ensures dma[..|rec|] == rec
  {
    for i := 0 to |rec|
      invariant forall k :: 0 <= k < i ==> dma[k] == rec[k]
    {
      dma[i] := rec[i];
    }
  }

  /** The volume `v` after `i` of the records were written to the new file of slot `s` of `v0`. */
  ghost predicate Progress(v0: Volume, v: Volume, s: nat, rs: seq<seq<byte>>, i: nat)
    requires Sane(v0) && Used(v0.dir, s)
  {
    && SlotKept(v0, v, s) && Holding(v, s, NameOf(v0.dir[s]), v0.dir[s][11], rs, i)
    && (i == 0 ==> v == v0) && i <= Taken(v0, |rs|) && v.clusSize == v0.clusSize
  }

  lemma ProgressStarts(v: Volume, s: nat, rs: seq<seq<byte>>)
    requires Sane(v) && Tight(v, s) && SizeOf(v.dir[s]) == 0
    ensures Progress(v, v, s, rs, 0) && Taken(v, |rs|) <= |rs|
  {
    hide Sane, Holding, SlotKept;
    TightUsed(v, s);
    SlotKeptRefl(v, s);
    HoldingNone(v, s, rs);
  }

  lemma ProgressCan(v0: Volume, v: Volume, s: nat, rs: seq<seq<byte>>, i: nat)
    requires Sane(v0) && Used(v0.dir, s) && Progress(v0, v, s, rs, i) && i < |rs| && v.clusSize > 0 && v.clusSize % SECTOR == 0
    ensures Sane(v) && Used(v.dir, s) && Tight(v, s) && (CanPut(v, s, i) <==> i + 1 <= Taken(v0, |rs|))
  {
    hide Sane, Holding, CanPut, Tight, Taken;
    SaneShape(v0);
    NextTaken(v0, v, s, NameOf(v0.dir[s]), v0.dir[s][11], rs, i);
  }

  /** What a successful write of the next record does. */
  lemma ProgressOn(v0: Volume, v: Volume, v': Volume, s: nat, rs: seq<seq<byte>>, i: nat)
    requires Sane(v0) && Used(v0.dir, s) && Progress(v0, v, s, rs, i) && i < |rs| && |rs[i]| == RECORD && i + 1 <= Taken(v0, |rs|)
    requires Sane(v) && Used(v.dir, s) && RecordPut(v, v', s, i, rs[i]) && v'.clusSize == v.clusSize
    ensures Progress(v0, v', s, rs, i + 1) && Sane(v')
  {
    hide Sane, Holding, Tight, Taken, Content, Lookup, Over, PlaceOf, OthersKept, OwnersKept;
    HoldingNext(v, v', s, NameOf(v0.dir[s]), v0.dir[s][11], rs, i);
    SlotKeptTrans(v0, v, v', s);
  }

  lemma ProgressKept(v0: Volume, v: Volume, s: nat, rs: seq<seq<byte>>, i: nat)
    requires Sane(v0) && Used(v0.dir, s) && Progress(v0, v, s, rs, i)
    ensures SlotKept(v0, v, s) && Sane(v) && Used(v.dir, s) && i <= Taken(v0, |rs|)
    ensures i == |rs| ==> Lookup(v, NameOf(v0.dir[s])) == Some(File(v0.dir[s][11], Records(rs)))
  {
    hide Sane, Taken, Tight;
    if i == |rs| {
      HoldingAll(v, s, NameOf(v0.dir[s]), v0.dir[s][11], rs);
    }
  }

  /** One turn of a program that writes records. */
  method WriteNext(fat: Driver, hs: Handles, fcb: array<byte>, dma: array<byte>, rs: seq<seq<byte>>, i: nat, ghost s: nat, ghost v0: Volume)
    returns (ok: bool)
    requires fat.Ready() && Sane(v0) && Used(v0.dir, s) && Progress(v0, fat.Vol(), s, rs, i) && i < |rs| < RECORDS && |rs[i]| == RECORD
    requires Sane(fat.Vol()) && hs.Valid() && fcb.Length >= 36 && RecordOf(fcb[..]) == i
    requires hs.Target(fcb[..]).Some? && Writing(fat, hs.files[hs.Target(fcb[..]).value], s)
    requires fat.Outside(fcb) && fat.Outside(dma) && dma.Length >= RECORD && dma != fcb
    modifies fat`secValid, fat`fatLba, fat`fatValid, fat.dev, fat.dev.shadow, fat.wbuf, fcb, dma
    modifies hs.files`firstClus, hs.files`curClus, hs.files`curPos, hs.files`fileSize
    ensures fat.Ready() && (ok <==> i + 1 <= Taken(v0, |rs|)) && hs.Target(fcb[..]) == old(hs.Target(fcb[..]))
    ensures ok ==>
              && Progress(v0, fat.Vol(), s, rs, i + 1) && Sane(fat.Vol()) && RecordOf(fcb[..]) == i + 1
              && Writing(fat, hs.files[hs.Target(fcb[..]).value], s)
    ensures !ok ==> SlotKept(v0, fat.Vol(), s)
  {
    hide View, OnDisk, Sound, Mirrored, TablesFit, Sane, SlotAt, Tight, CanPut, RecordOf, SlotKept, Progress, Taken, RecordPut;
    ghost var v := fat.Vol();
    fat.ReadyFacts();
    fat.PositiveCluster();
    FillRecord(dma, rs[i]);
    ProgressCan(v0, v, s, rs, i);
    ProgressKept(v0, v, s, rs, i);
    var rc := WriteMade(fat, hs, fcb, dma, s);
    SlotKeptTrans(v0, v, fat.Vol(), s);
    if rc == 0 {
      NextNumber(i);
      ProgressOn(v0, v, fat.Vol(), s, rs, i);
    }
    ok := rc == 0;
  }

  lemma NextNumber(i: nat)
    requires i + 1 < RECORDS
    ensures (i + 1) % RECORDS == i + 1
  {
  }

  lemma WritingFacts(fat: Driver, fp: FatFile, s: nat)
    requires fat.Ready() && Writing(fat, fp, s)
    ensures Tight(fat.Vol(), s)
  {
  }

  lemma OwnPlaceAt(fat: Driver, fp: FatFile, s: nat)
    requires fat.Ready() && Writing(fat, fp, s)
    ensures OpenFile(fat, fp, s) && PlaceAt(fat.m, fp.dirLba, fp.dirOff, s) && s < Slots(fat.m)
  {
  }

  /**
   A program that makes a file and writes records one after the other until one is refused. It gets one cluster full,
   however much is free: behind a full cluster the seek of the next call fails. The file holds the records written,
   and every other file is as it was.
   */
  method WriteRecords(fat: Driver, hs: Handles, fcb: array<byte>, dma: array<byte>, rs: seq<seq<byte>>, ghost s: nat)
    returns (n: nat)
    requires fat.Ready() && Sane(fat.Vol()) && hs.Valid() && fcb.Length >= 36 && fat.Outside(fcb)
    requires fat.Outside(dma) && dma.Length >= RECORD && dma != fcb
    requires hs.Target(fcb[..]).Some? && Writing(fat, hs.files[hs.Target(fcb[..]).value], s)
    requires RecordOf(fcb[..]) == 0 && SizeOf(fat.Vol().dir[s]) == 0
    requires |rs| < RECORDS && forall i :: 0 <= i < |rs| ==> |rs[i]| == RECORD
    modifies fat`secValid, fat`fatLba, fat`fatValid, fat.dev, fat.dev.shadow, fat.wbuf, fcb, dma
    modifies hs.files`firstClus, hs.files`curClus, hs.files`curPos, hs.files`fileSize
    ensures fat.Ready() && n == Taken(old(fat.Vol()), |rs|) <= |rs|
    ensures SlotKept(old(fat.Vol()), fat.Vol(), s)
    ensures var v := old(fat.Vol());
            n == |rs| ==> Lookup(fat.Vol(), NameOf(v.dir[s])) == Some(File(v.dir[s][11], Records(rs)))
  {
    hide View, OnDisk, Sound, Mirrored, TablesFit, Sane, SlotAt, Content, Lookup, Tight, RecordOf, SlotKept, Progress, Taken, NameOf;
    ghost var v := fat.Vol();
    WritingFacts(fat, hs.files[hs.Target(fcb[..]).value], s);
    TightUsed(v, s);
    ProgressStarts(v, s, rs);
    n := 0;
    for i := 0 to |rs|
      invariant n == i && fat.Ready() && Progress(v, fat.Vol(), s, rs, i)
      invariant Sane(fat.Vol()) && hs.Valid() && RecordOf(fcb[..]) == i
      invariant hs.Target(fcb[..]).Some? && Writing(fat, hs.files[hs.Target(fcb[..]).value], s)
    {
      ProgressKept(v, fat.Vol(), s, rs, i);
      var ok := WriteNext(fat, hs, fcb, dma, rs, i, s, v);
      if !ok {
        return;
      }
      n := n + 1;
    }
    ProgressKept(v, fat.Vol(), s, rs, n);
  }
}
