/** Appending to an open file and making its new size durable. */
module FatWrites {
  import opened Bytes
  import opened Numbers
  import opened FatTable
  import opened FatVolume
  import opened FatChains
  import opened FatFiles
  import opened FatOps

  lemma {:induction false} SpanGrows(cs: nat, m: nat, n: nat)
    requires m <= n
    ensures Span(cs, m) <= Span(cs, n)
    decreases n - m
  {
    if m < n {
      SpanGrows(cs, m, n - 1);
    }
  }

  /** Position arithmetic: byte `o` of cluster number `i`. */
  lemma SpanDivMod(cs: nat, i: nat, o: nat)
    requires o < cs
    ensures (Span(cs, i) + o) / cs == i && (Span(cs, i) + o) % cs == o
  {
    SpanIsProduct(cs, i);
    DivUnique(Span(cs, i) + o, cs, i, o);
  }

  // ---------- growing a chain inside a volume ----------

  /** A write that grows slot `s`'s chain touches no cluster of another slot. */
  lemma GrewApart(v: Volume, s: nat, fat': seq<nat>, ch': seq<nat>, i: nat)
    requires Sane(v) && Used(v.dir, s) && Owned(v, s) != [] && Used(v.dir, i) && i != s
    requires Grew(v.ty, v.fat, Owned(v, s), fat', ch')
    ensures Apart(ch', Owned(v, i))
  {
    assert SlotsApart(v, s, i);
    if HasChain(v.ty, v.fat, FirstOf(v.dir[i])) {
      ChainMembers(v.ty, v.fat, Owned(v, i));
    }
  }

  /** What a Fill on slot `s`'s chain does to the volume. */
  lemma FillKeeps(v: Volume, s: nat, o: nat, data: seq<byte>)
    requires Sane(v) && Used(v.dir, s) && Owned(v, s) != [] && o < v.clusSize && data != []
    ensures var ch := Owned(v, s);
            var v' := Fill(v, ch[|ch| - 1], o, data).0;
            && Sane(v') && OnlySlot(v, v', s) && v'.dir == v.dir
            && Owned(v', s) == FillChain(v.ty, v.clusSize, v.fat, ch, o, |data|)
  {
    var ch := Owned(v, s);
    var ch' := FillChain(v.ty, v.clusSize, v.fat, ch, o, |data|);
    FillTable(v, ch, o, data);
    FillData(v, ch, o, data);
    var v' := Fill(v, ch[|ch| - 1], o, data).0;
    FillPlaced(v, s, v', ch');
  }

  lemma FillPlaced(v: Volume, s: nat, v': Volume, ch': seq<nat>)
    requires Sane(v) && Used(v.dir, s) && Owned(v, s) != []
    requires Shape(v') && v' == v.(fat := v'.fat, data := v'.data)
    requires Grew(v.ty, v.fat, Owned(v, s), v'.fat, ch') && DataKept(v.data, ch', v'.data)
    ensures Sane(v') && OnlySlot(v, v', s) && Owned(v', s) == ch'
  {
    hide IsChain;
    var ch := Owned(v, s);
    assert ch'[0] == ch[0];
    ChainOfIs(v.ty, v'.fat, ch');
    assert Owned(v', s) == ch';
    forall i: nat | Used(v.dir, i) && i != s
      ensures Apart(ch', Owned(v, i)) && NameOf(v.dir[s]) != NameOf(v.dir[i])
    {
      GrewApart(v, s, v'.fat, ch', i);
      assert SlotsApart(v, s, i);
    }
    assert OnlySlot(v, v', s);
    assert SlotOk(v, s);
    SpanGrows(v.clusSize, |ch|, |ch'|);
    assert SlotFitsIn(v, v', s);
    OneSlotSane(v, v', s);
  }

  // ---------- open files ----------

  /** The chain and position part of an open file that is being appended to. */
  ghost predicate PositionOk(cs: nat, ch: seq<nat>, h: Handle) {
    && h.pos == h.size
    && if ch == [] then h.size == 0 && h.first == 0
       else h.first == ch[0] && h.cur == ch[|ch| - 1] && Span(cs, |ch| - 1) < h.size <= Span(cs, |ch|)
  }

  /** An open file of a well-formed volume, positioned at its end. */
  ghost predicate Open(v: Volume, h: Handle) {
    && Used(v.dir, h.slot) && h.first == FirstOf(v.dir[h.slot])
    && PositionOk(v.clusSize, Owned(v, h.slot), h)
  }

  /** What has been written to an open file. */
  ghost function Written(v: Volume, h: Handle): (s: seq<byte>)
    requires Shape(v) && Open(v, h)
    ensures |s| == h.size
  {
    OwnedFlat(v, h.slot);
    Flat(v.data, Owned(v, h.slot))[..h.size]
  }

  lemma OwnedFlat(v: Volume, s: nat)
    requires Shape(v) && Used(v.dir, s)
    ensures |Flat(v.data, Owned(v, s))| == Span(v.clusSize, |Owned(v, s)|)
  {
    if Owned(v, s) != [] {
      ChainMembers(v.ty, v.fat, Owned(v, s));
    }
    FlatLength(v, Owned(v, s));
  }

  lemma FreshIsOpen(v: Volume, h: Handle, name: seq<byte>)
    requires Sane(v) && Fresh(v, h, name)
    ensures Open(v, h) && Written(v, h) == []
  {
    NoChainAtZero(v.ty, v.fat);
  }

  /** How many of `n` more bytes an open file can take. */
  ghost function Room(v: Volume, h: Handle, n: nat): nat
    requires Shape(v) && Open(v, h)
  {
    var m := |Owned(v, h.slot)|;
    var left := Span(v.clusSize, m) - h.size + Span(v.clusSize, FreeCount(v));
    if n < left then n else left
  }

  /**
   The next write continues where the last one stopped. A write that stopped exactly at the end of a
   cluster leaves the handle on that cluster, and the next one would start over at its first byte.
   */
  predicate Continues(v: Volume, h: Handle, data: seq<byte>)
    requires Shape(v)
  {
    data == [] || h.size == 0 || h.size % v.clusSize != 0
  }

  /** The first cluster of an empty file is taken, marked as the end, and entered in its slot. */
  function Started(v: Volume, s: nat, c: nat): Volume
    requires Shape(v) && s < |v.dir| && c < |v.fat|
  {
    v.(fat := v.fat[c := EocMark(v.ty)], dir := v.dir[s := SetFirst(v.dir[s], c)])
  }

  lemma StartKeeps(v: Volume, s: nat, c: nat)
    requires Sane(v) && Used(v.dir, s) && FirstOf(v.dir[s]) == 0 && 2 <= c < |v.fat| && v.fat[c] == 0
    ensures var v' := Started(v, s, c);
            && Sane(v') && OnlySlot(v, v', s) && Used(v'.dir, s) && FirstOf(v'.dir[s]) == c && Owned(v', s) == [c]
            && NameOf(v'.dir[s]) == NameOf(v.dir[s]) && v'.dir[s][11] == v.dir[s][11]
            && FreeCount(v') + 1 == FreeCount(v)
  {
    var v' := Started(v, s, c);
    SetFirstIs(v.dir[s], c);
    FreeFromUpdate(v.fat, c, EocMark(v.ty), 2);
    assert IsChain(v.ty, v'.fat, [c]);
    ChainOfIs(v.ty, v'.fat, [c]);
    assert SlotOk(v, s);
    NoChainAtZero(v.ty, v.fat);
    forall i: nat | Used(v.dir, i) && i != s
      ensures Apart([c], Owned(v, i)) && NameOf(v.dir[s]) != NameOf(v.dir[i])
    {
      assert SlotsApart(v, s, i);
      if HasChain(v.ty, v.fat, FirstOf(v.dir[i])) {
        ChainMembers(v.ty, v.fat, Owned(v, i));
      }
    }
    assert OnlySlot(v, v', s);
    assert SlotFitsIn(v, v', s);
    OneSlotSane(v, v', s);
  }

  lemma OthersFromSlot(v: Volume, v': Volume, s: nat)
    requires Sane(v) && Sane(v') && OnlySlot(v, v', s) && Used(v.dir, s) && Used(v'.dir, s)
    requires NameOf(v'.dir[s]) == NameOf(v.dir[s])
    ensures OthersKept(v, v', NameOf(v.dir[s])) && OwnersKept(v, v', s)
  {
    OwnersFromSlot(v, v', s);
    forall n | n != NameOf(v.dir[s])
      ensures Lookup(v', n) == Lookup(v, n)
    {
      OneSlotLookup(v, v', s, n);
    }
  }

  lemma SaneShape(v: Volume)
    requires Sane(v)
    ensures Shape(v)
  {
  }

  lemma GrewFacts(ty: FatType, fat: seq<nat>, ch: seq<nat>, fat': seq<nat>, ch': seq<nat>)
    requires Grew(ty, fat, ch, fat', ch')
    ensures ch' != [] && ch'[0] == ch[0] && FreeFrom(fat', 2) + |ch'| == FreeFrom(fat, 2) + |ch|
  {
  }

  /** A handle positioned at offset `o` inside the last cluster of its file's chain. */
  ghost predicate Poised(v: Volume, h: Handle, o: nat) {
    && Used(v.dir, h.slot) && o < v.clusSize
    && var ch := Owned(v, h.slot);
       && ch != [] && h.first == FirstOf(v.dir[h.slot]) == ch[0] && h.cur == ch[|ch| - 1]
       && h.pos == h.size == Span(v.clusSize, |ch| - 1) + o
  }

  /** What stays of the slot and of the other files when one file is written. */
  ghost predicate SlotKept(v: Volume, v': Volume, s: nat)
    requires Sane(v) && Used(v.dir, s)
  {
    && Sane(v') && Used(v'.dir, s)
    && NameOf(v'.dir[s]) == NameOf(v.dir[s]) && v'.dir[s][11] == v.dir[s][11]
    && OthersKept(v, v', NameOf(v.dir[s])) && OwnersKept(v, v', s)
  }

  lemma SlotKeptTrans(v: Volume, v1: Volume, v2: Volume, s: nat)
    requires Sane(v) && Used(v.dir, s) && SlotKept(v, v1, s) && SlotKept(v1, v2, s)
    ensures SlotKept(v, v2, s)
  {
    hide Sane, Lookup, OwnCount;
    forall n | n != NameOf(v.dir[s])
      ensures Lookup(v2, n) == Lookup(v, n)
    {
      assert Lookup(v1, n) == Lookup(v, n);
    }
  }

  lemma PoisedAtEnd(v: Volume, h: Handle, o: nat)
    requires Sane(v) && Poised(v, h, o)
    ensures Shape(v) && AtEnd(v, h) && h.first != 0
  {
    ChainMembers(v.ty, v.fat, Owned(v, h.slot));
  }

  lemma FillAppends(v: Volume, h: Handle, o: nat, data: seq<byte>)
    requires Sane(v) && Poised(v, h, o) && data != []
    ensures Shape(v) && AtEnd(v, h) && h.first != 0
    ensures var (v', cur, k) := Fill(v, h.cur, o, data);
            var h' := Moved(h, cur, k);
            && SlotKept(v, v', h.slot) && Open(v', h') && k == Fits(v.clusSize, FreeCount(v), o, |data|)
            && Appended(Flat(v.data, Owned(v, h.slot)), h.size, data[..k], Flat(v'.data, Owned(v', h.slot)))
            && FreeCount(v') + |Owned(v', h.slot)| == FreeCount(v) + |Owned(v, h.slot)|
  {
    hide Sane, Fill, Grew, OnlySlot, DataKept, IsChain, Flat, OthersKept, OwnersKept, Appended;
    PoisedAtEnd(v, h, o);
    var s := h.slot;
    var ch := Owned(v, s);
    var ch' := FillChain(v.ty, v.clusSize, v.fat, ch, o, |data|);
    FillKeeps(v, s, o, data);
    FillTable(v, ch, o, data);
    FillBytes(v, ch, o, data);
    FillCount(v, ch, o, data);
    FillChainTight(v.ty, v.clusSize, v.fat, ch, o, |data|);
    var (v', cur, k) := Fill(v, h.cur, o, data);
    GrewFacts(v.ty, v.fat, ch, v'.fat, ch');
    OthersFromSlot(v, v', s);
  }

  /** Everything one write promises: a prefix of the data is appended, as much as there is room for. */
  ghost predicate Appends(v: Volume, h: Handle, data: seq<byte>, v': Volume, h': Handle, k: nat)
    requires Sane(v) && Open(v, h)
  {
    && SlotKept(v, v', h.slot) && Open(v', h') && h'.slot == h.slot
    && k == Room(v, h, |data|) && k <= |data| && Written(v', h') == Written(v, h) + data[..k]
    && FreeCount(v') + |Owned(v', h.slot)| == FreeCount(v) + |Owned(v, h.slot)|
  }

  lemma WrittenAppended(v: Volume, h: Handle, t: seq<byte>, v': Volume, h': Handle)
    requires Shape(v) && Open(v, h) && Shape(v') && Open(v', h') && h'.size == h.size + |t|
    requires Appended(Flat(v.data, Owned(v, h.slot)), h.size, t, Flat(v'.data, Owned(v', h'.slot)))
    ensures Written(v', h') == Written(v, h) + t
  {
    hide Flat;
  }

  /** An open file that is not at a cluster's end is poised inside its last cluster. */
  lemma OpenIsPoised(v: Volume, h: Handle)
    requires Sane(v) && Open(v, h) && h.first != 0 && h.size % v.clusSize != 0
    ensures var o := h.pos % v.clusSize; Poised(v, h, o)
    ensures var o := h.pos % v.clusSize;
            Span(v.clusSize, |Owned(v, h.slot)|) - h.size == v.clusSize - o
  {
    var m := |Owned(v, h.slot)|;
    var o := h.size - Span(v.clusSize, m - 1);
    if o == v.clusSize {
      SpanDivMod(v.clusSize, m, 0);
    } else {
      SpanDivMod(v.clusSize, m - 1, o);
    }
  }

  lemma NoWrite(v: Volume, h: Handle, data: seq<byte>)
    requires Sane(v) && Open(v, h) && Room(v, h, |data|) == 0
    ensures Appends(v, h, data, v, h, 0)
  {
    assert data[..0] == [];
  }

  lemma AppendMore(v: Volume, h: Handle, data: seq<byte>)
    requires Sane(v) && Open(v, h) && h.first != 0 && data != [] && h.size % v.clusSize != 0
    ensures AtEnd(v, h) && h.slot < |v.dir|
    ensures var (v', h', k) := Write(v, h, data); Appends(v, h, data, v', h', k)
  {
    hide Sane, Flat, Fill, IsChain, OthersKept, OwnersKept;
    SaneShape(v);
    OpenIsPoised(v, h);
    var o := h.pos % v.clusSize;
    FillAppends(v, h, o, data);
    var (v', cur, k) := Fill(v, h.cur, o, data);
    SaneShape(v');
    WrittenAppended(v, h, data[..k], v', Moved(h, cur, k));
  }

  lemma AppendFirst(v: Volume, h: Handle, data: seq<byte>)
    requires Sane(v) && Open(v, h) && h.first == 0 && data != [] && FirstFree(v.fat, 2) < |v.fat|
    ensures var (v', h', k) := Write(v, h, data); Appends(v, h, data, v', h', k)
  {
    hide Sane, Flat, Fill, IsChain, OthersKept, OwnersKept, FirstFree, SetFirst;
    SaneShape(v);
    NoChainAtZero(v.ty, v.fat);
    var c := FirstFree(v.fat, 2);
    StartKeeps(v, h.slot, c);
    var v1 := Started(v, h.slot, c);
    var h1 := h.(first := c, cur := c);
    OthersFromSlot(v, v1, h.slot);
    assert Poised(v1, h1, 0);
    FillAppends(v1, h1, 0, data);
    var (v', cur, k) := Fill(v1, c, 0, data);
    SaneShape(v');
    SlotKeptTrans(v, v1, v', h.slot);
    FirstWritten(v, h, v1, h1, data[..k], v', Moved(h1, cur, k));
  }

  lemma FirstWritten(v: Volume, h: Handle, v1: Volume, h1: Handle, t: seq<byte>, v': Volume, h': Handle)
    requires Shape(v) && Open(v, h) && h.size == 0 && Shape(v') && Open(v', h') && h'.size == |t|
    requires Used(v1.dir, h1.slot)
    requires Appended(Flat(v1.data, Owned(v1, h1.slot)), 0, t, Flat(v'.data, Owned(v', h'.slot)))
    ensures Written(v', h') == Written(v, h) + t
  {
    hide Flat;
  }

  /** A write that continues where the last one stopped appends what fits and changes nothing else. */
  lemma WriteAppends(v: Volume, h: Handle, data: seq<byte>)
    requires Sane(v) && Open(v, h) && Continues(v, h, data)
    ensures AtEnd(v, h) && h.slot < |v.dir|
    ensures var (v', h', k) := Write(v, h, data); Appends(v, h, data, v', h', k)
  {
    if data == [] {
      NoWrite(v, h, data);
    } else if h.first != 0 {
      AppendMore(v, h, data);
    } else if FirstFree(v.fat, 2) < |v.fat| {
      AppendFirst(v, h, data);
    } else {
      FreeIffCount(v.fat, 2);
      NoWrite(v, h, data);
    }
  }

  lemma AtClusterEnd(v: Volume, h: Handle)
    requires Sane(v) && Open(v, h) && h.size != 0 && h.size % v.clusSize == 0
    ensures Owned(v, h.slot) != [] && h.size == Span(v.clusSize, |Owned(v, h.slot)|)
    ensures Poised(v, h.(pos := Span(v.clusSize, |Owned(v, h.slot)| - 1), size := Span(v.clusSize, |Owned(v, h.slot)| - 1)), 0)
  {
    var m := |Owned(v, h.slot)|;
    NoChainAtZero(v.ty, v.fat);
    var o := h.size - Span(v.clusSize, m - 1);
    if o < v.clusSize {
      SpanDivMod(v.clusSize, m - 1, o);
    }
  }

  /**
   A write that starts at a cluster's end leaves a file longer than its chain: the handle still names the
   cluster before, so the bytes start over there instead of in a new cluster.
   */
  lemma WriteAtClusterEnd(v: Volume, h: Handle, data: seq<byte>)
    requires Sane(v) && Open(v, h) && !Continues(v, h, data)
    ensures AtEnd(v, h) && h.slot < |v.dir|
    ensures var (v', h', k) := Write(v, h, data);
            Sane(v') && Used(v'.dir, h'.slot) && Span(v.clusSize, |Owned(v', h'.slot)|) < h'.size
  {
    hide Sane, Grew, Flat, Fill, SlotKept, Appended;
    SaneShape(v);
    AtClusterEnd(v, h);
    var ch := Owned(v, h.slot);
    var back := Span(v.clusSize, |ch| - 1);
    PoisedAtEnd(v, h.(pos := back, size := back), 0);
    FillKeeps(v, h.slot, 0, data);
    FillCount(v, ch, 0, data);
    FillChainTight(v.ty, v.clusSize, v.fat, ch, 0, |data|);
  }

  /** Appending works exactly when the write continues inside a cluster or at the start of an empty file. */
  lemma WriteAppendsIff(v: Volume, h: Handle, data: seq<byte>)
    requires Sane(v) && Open(v, h)
    ensures AtEnd(v, h) && h.slot < |v.dir|
    ensures var (v', h', _) := Write(v, h, data); Continues(v, h, data) <==> Open(v', h')
  {
    if Continues(v, h, data) {
      WriteAppends(v, h, data);
    } else {
      WriteAtClusterEnd(v, h, data);
    }
  }
}
