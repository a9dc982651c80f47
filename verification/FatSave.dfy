/** Whole-file operations: flushing, saving, and saving and erasing again. */
module FatSave {
  import opened Bytes
  import opened Wrappers
  import opened FatVolume
  import opened FatChains
  import opened FatFiles
  import opened FatOps
  import opened FatWrites

  // ---------- flushing ----------

  lemma FlushedSlot(v: Volume, h: Handle)
    requires Sane(v) && Open(v, h) && h.size < U32
    ensures var t := Flush(v, h).dir[h.slot];
            var e := v.dir[h.slot];
            |t| == 32 && NameOf(t) == NameOf(e) && FirstOf(t) == h.first && SizeOf(t) == h.size && t[0] == e[0] && t[11] == e[11]
  {
    var e := v.dir[h.slot];
    SetSizeIs(e, h.size);
    SetFirstIs(Put32(e, 28, h.size), FirstOf(e));
  }

  /** Flushing makes the bytes written the contents of the file's name. */
  lemma FlushKeeps(v: Volume, h: Handle)
    requires Sane(v) && Open(v, h) && h.size < U32
    ensures var v' := Flush(v, h);
            && SlotKept(v, v', h.slot) && FreeCount(v') == FreeCount(v) && OwnCount(v', h.slot) == OwnCount(v, h.slot)
            && Lookup(v', NameOf(v.dir[h.slot])) == Some(File(v.dir[h.slot][11], Written(v, h)))
            && |OwnedBy(v', NameOf(v.dir[h.slot]))| == OwnCount(v, h.slot)
  {
    var s := h.slot;
    var v' := Flush(v, h);
    FlushedSlot(v, h);
    NoChainAtZero(v.ty, v.fat);
    forall i: nat | Used(v.dir, i) && i != s
      ensures Apart(Owned(v, s), Owned(v, i)) && NameOf(v.dir[s]) != NameOf(v.dir[i])
    {
      assert SlotsApart(v, s, i);
    }
    FlushSane(v, h);
    OthersFromSlot(v, v', s);
    LookupSlot(v', s);
  }

  lemma FlushSane(v: Volume, h: Handle)
    requires Sane(v) && Open(v, h) && h.size < U32
    ensures var v' := Flush(v, h); Sane(v') && OnlySlot(v, v', h.slot) && Used(v'.dir, h.slot)
  {
    var s := h.slot;
    var v' := Flush(v, h);
    FlushedSlot(v, h);
    NoChainAtZero(v.ty, v.fat);
    forall i: nat | Used(v.dir, i) && i != s
      ensures Apart(Owned(v, s), Owned(v, i)) && NameOf(v.dir[s]) != NameOf(v.dir[i])
    {
      assert SlotsApart(v, s, i);
    }
    assert SlotOk(v, s);
    assert OnlySlot(v, v', s);
    assert SlotFitsIn(v, v', s);
    OneSlotSane(v, v', s);
  }

  // ---------- saving ----------

  datatype Saved = Refused | Stored(vol: Volume, kept: nat)

  /** BDOS 120: create or truncate, one write, flush. */
  function Save(v: Volume, name: seq<byte>, data: seq<byte>): (r: Saved)
    requires Shape(v) && |name| == 11
  {
    match Create(v, name)
    case NoRoom => Refused
    case Opened(v1, h) =>
      var (v2, h2, k) := Write(v1, h, data);
      Stored(Flush(v2, h2), k)
  }

  /** The clusters `n` bytes need. */
  function Clusters(cs: nat, n: nat): nat
    requires cs > 0
  {
    (n + cs - 1) / cs
  }

  lemma ClustersIs(cs: nat, m: nat, n: nat)
    requires cs > 0 && n <= Span(cs, m) && (m > 0 ==> Span(cs, m - 1) < n)
    ensures Clusters(cs, n) == m
  {
    if m > 0 {
      var o := n - 1 - Span(cs, m - 1);
      SpanDivMod(cs, m - 1, o);
      assert n + cs - 1 == Span(cs, m) + o;
      SpanDivMod(cs, m, o);
    } else {
      SpanDivMod(cs, 0, cs - 1);
    }
  }

  /** How many of `n` bytes a save under `name` can store: what is free plus what the old file gives back. */
  ghost function Capacity(v: Volume, name: seq<byte>, n: nat): nat
    requires Sane(v)
  {
    var room := Span(v.clusSize, FreeCount(v) + |OwnedBy(v, name)|);
    if n < room then n else room
  }

  /** What a save promises in full. */
  ghost predicate SaveDone(v: Volume, name: seq<byte>, data: seq<byte>, v': Volume, kept: nat)
    requires Sane(v)
  {
    && Sane(v') && kept == Capacity(v, name, |data|) && kept <= |data|
    && Lookup(v', name) == Some(File(ARCHIVE, data[..kept]))
    && OthersKept(v, v', name)
    && Accounted(v') == Accounted(v)
    && |OwnedBy(v', name)| == Clusters(v.clusSize, kept)
    && FreeCount(v') + Clusters(v.clusSize, kept) == FreeCount(v) + |OwnedBy(v, name)|
  }

  lemma AppendFresh(v: Volume, h: Handle, name: seq<byte>, data: seq<byte>)
    requires Sane(v) && Fresh(v, h, name) && |data| < U32
    ensures var (v2, h2, k) := Write(v, h, data);
            && SlotKept(v, v2, h.slot) && Open(v2, h2) && h2.slot == h.slot && h2.size == k <= |data|
            && Written(v2, h2) == data[..k]
            && k == (var room := Span(v.clusSize, FreeCount(v)); if |data| < room then |data| else room)
            && FreeCount(v2) + OwnCount(v2, h.slot) == FreeCount(v) && OwnCount(v, h.slot) == 0
            && OwnCount(v2, h.slot) == Clusters(v.clusSize, k)
  {
    hide Sane, Write, Flat, OthersKept, OwnersKept;
    SaneShape(v);
    FreshIsOpen(v, h, name);
    NoChainAtZero(v.ty, v.fat);
    WriteAppends(v, h, data);
    var (v2, h2, k) := Write(v, h, data);
    SaneShape(v2);
    KeptSize(v, h, data, v2, h2, k);
    ClustersIs(v.clusSize, |Owned(v2, h2.slot)|, k);
  }

  lemma KeptSize(v: Volume, h: Handle, data: seq<byte>, v': Volume, h': Handle, k: nat)
    requires Sane(v) && Open(v, h) && Written(v, h) == [] && Appends(v, h, data, v', h', k)
    ensures h'.size == k && Written(v', h') == data[..k]
  {
  }

  /** Writing and flushing a fresh file. */
  lemma StoreFresh(v: Volume, h: Handle, name: seq<byte>, data: seq<byte>)
    requires Sane(v) && Fresh(v, h, name) && |data| < U32
    ensures var (v2, h2, k) := Write(v, h, data);
            var v3 := Flush(v2, h2);
            && Sane(v3) && k <= |data| && Lookup(v3, name) == Some(File(ARCHIVE, data[..k]))
            && OthersKept(v, v3, name) && Accounted(v3) == Accounted(v)
            && k == (var room := Span(v.clusSize, FreeCount(v)); if |data| < room then |data| else room)
            && |OwnedBy(v3, name)| == Clusters(v.clusSize, k)
            && FreeCount(v3) + Clusters(v.clusSize, k) == FreeCount(v)
  {
    hide Sane, Write, Flush, Flat, OthersKept, OwnersKept, Lookup, OwnedBy;
    SaneShape(v);
    AppendFresh(v, h, name, data);
    var (v2, h2, k) := Write(v, h, data);
    FlushKeeps(v2, h2);
    var v3 := Flush(v2, h2);
    SaneShape(v3);
    SlotKeptTrans(v, v2, v3, h.slot);
    OwnersLength(v, v3, h.slot);
    AccountedOneSlot(v, v3, h.slot);
  }

  lemma OwnersLength(v: Volume, v': Volume, s: nat)
    requires OwnersKept(v, v', s)
    ensures |v'.dir| == |v.dir|
  {
  }

  lemma OthersTrans(v: Volume, v1: Volume, v2: Volume, name: seq<byte>)
    requires Sane(v) && Sane(v1) && Sane(v2) && OthersKept(v, v1, name) && OthersKept(v1, v2, name)
    ensures OthersKept(v, v2, name)
  {
    hide Sane, Lookup;
    forall n | n != name
      ensures Lookup(v2, n) == Lookup(v, n)
    {
      assert Lookup(v1, n) == Lookup(v, n);
    }
  }

  /** Saving: the name now stands for the data, or for as much of it as fits, and nothing else changed. */
  lemma SaveKeeps(v: Volume, name: seq<byte>, data: seq<byte>)
    requires Sane(v) && Nameable(name) && |data| < U32
    ensures var r := Save(v, name, data);
            && (r.Refused? <==> Lookup(v, name) == None && FirstVacant(v.dir, 0) == |v.dir|)
            && (r.Stored? ==> SaveDone(v, name, data, r.vol, r.kept))
  {
    hide Sane, Write, Flush, OthersKept, Lookup, Create, Fresh, OwnedBy;
    SaneShape(v);
    CreateKeeps(v, name);
    if Create(v, name).Opened? {
      var v1, h := Create(v, name).vol, Create(v, name).h;
      StoreFresh(v1, h, name, data);
      OthersTrans(v, v1, Save(v, name, data).vol, name);
    }
  }

  /** A file saved under a new name and erased again gives back exactly the clusters it took. */
  lemma SaveThenErase(v: Volume, name: seq<byte>, data: seq<byte>)
    requires Sane(v) && Nameable(name) && |data| < U32 && Lookup(v, name) == None && FirstVacant(v.dir, 0) < |v.dir|
    ensures var r := Save(v, name, data);
            && r.Stored? && Sane(r.vol) && FreeCount(r.vol) + Clusters(v.clusSize, r.kept) == FreeCount(v)
            && var u := Unlink(r.vol, name);
               u.Removed? && Sane(u.vol) && FreeCount(u.vol) == FreeCount(v) && Lookup(u.vol, name) == None
               && OthersKept(v, u.vol, name)
  {
    SaveKeeps(v, name, data);
    var r := Save(v, name, data);
    UnlinkKeeps(r.vol, name);
    OthersTrans(v, r.vol, Unlink(r.vol, name).vol, name);
  }
}
