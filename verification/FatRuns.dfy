/** Runs of the driver's calls with several files open at a time, and the file system they refine. */
module FatRuns {
  import opened Bytes
  import opened Wrappers
  import opened FatVolume
  import opened FatChains
  import opened FatFiles
  import opened FatOps
  import opened FatWrites
  import opened FatSave

  // ---------- one file changes, the others stay open ----------

  lemma OnlySlotTrans(v: Volume, v1: Volume, v2: Volume, s: nat)
    requires Sane(v) && OnlySlot(v, v1, s) && Sane(v1) && OnlySlot(v1, v2, s)
    ensures OnlySlot(v, v2, s)
  {
    hide Owned;
    forall i, c | Used(v.dir, i) && i != s && c in Owned(v, i) && 2 <= c < |v.fat|
      ensures v2.fat[c] == v.fat[c] && v2.data[c - 2] == v.data[c - 2]
    {
      OtherSlotKept(v, v1, s, i);
      assert c in Owned(v1, i);
    }
  }

  /** Growing a chain from inside its last cluster. */
  lemma MoreOnlySlot(v: Volume, h: Handle, data: seq<byte>)
    requires Sane(v) && Open(v, h) && h.first != 0 && data != [] && h.size % v.clusSize != 0
    ensures AtEnd(v, h) && h.slot < |v.dir|
    ensures var v' := Write(v, h, data).0; OnlySlot(v, v', h.slot) && v'.dir == v.dir
  {
    hide Sane, Flat, Fill, IsChain, OnlySlot, HasChain;
    SaneShape(v);
    AppendMore(v, h, data);
    OpenIsPoised(v, h);
    FillKeeps(v, h.slot, h.pos % v.clusSize, data);
  }

  /** Starting a chain. */
  lemma FirstOnlySlot(v: Volume, h: Handle, data: seq<byte>)
    requires Sane(v) && Open(v, h) && h.first == 0 && data != [] && FirstFree(v.fat, 2) < |v.fat|
    ensures AtEnd(v, h) && h.slot < |v.dir|
    ensures var v' := Write(v, h, data).0; OnlySlot(v, v', h.slot) && SizeOf(v'.dir[h.slot]) == SizeOf(v.dir[h.slot])
  {
    hide Sane, Flat, Fill, IsChain, OnlySlot, HasChain, SetFirst, FirstFree;
    SaneShape(v);
    NoChainAtZero(v.ty, v.fat);
    var c := FirstFree(v.fat, 2);
    StartKeeps(v, h.slot, c);
    SetFirstIs(v.dir[h.slot], c);
    var v1 := Started(v, h.slot, c);
    FillKeeps(v1, h.slot, 0, data);
    OnlySlotTrans(v, v1, Fill(v1, c, 0, data).0, h.slot);
  }

  /** A write changes the slot of its file and clusters of no other file. */
  lemma WriteOnlySlot(v: Volume, h: Handle, data: seq<byte>)
    requires Sane(v) && Open(v, h) && Continues(v, h, data)
    ensures AtEnd(v, h) && h.slot < |v.dir|
    ensures var v' := Write(v, h, data).0; OnlySlot(v, v', h.slot) && SizeOf(v'.dir[h.slot]) == SizeOf(v.dir[h.slot])
  {
    hide Sane, Flat, Fill, IsChain, OnlySlot, HasChain;
    SaneShape(v);
    SameVolume(v, h.slot);
    if data != [] && h.first != 0 {
      MoreOnlySlot(v, h, data);
    } else if data != [] && FirstFree(v.fat, 2) < |v.fat| {
      FirstOnlySlot(v, h, data);
    }
  }

  lemma SameVolume(v: Volume, s: nat)
    requires Sane(v) && s < |v.dir|
    ensures OnlySlot(v, v, s)
  {
  }

  /** What an open file of another slot keeps. */
  lemma OtherHandleKept(v: Volume, v': Volume, s: nat, h: Handle)
    requires Sane(v) && OnlySlot(v, v', s) && HandleOk(v, h) && h.slot != s
    ensures HandleOk(v', h) && Written(v', h) == Written(v, h) && v'.dir[h.slot] == v.dir[h.slot]
  {
    hide Sane, Flat;
    SaneShape(v);
    SameSlot(v, v', s, h.slot);
    OtherSlotKept(v, v', s, h.slot);
    OtherFlat(v, v', s, h.slot);
  }

  lemma OtherFlat(v: Volume, v': Volume, s: nat, i: nat)
    requires Sane(v) && OnlySlot(v, v', s) && Used(v.dir, i) && i != s
    ensures Flat(v'.data, Owned(v, i)) == Flat(v.data, Owned(v, i))
  {
    var ch := Owned(v, i);
    if ch != [] {
      ChainMembers(v.ty, v.fat, ch);
    }
    FlatFrame(v.data, v'.data, ch);
  }

  // ---------- states and steps ----------

  /** An open file whose entry in its slot does not run ahead of what was written. */
  ghost predicate HandleOk(v: Volume, h: Handle) {
    Open(v, h) && SizeOf(v.dir[h.slot]) <= h.size
  }

  /** A volume and the files open on it. */
  datatype State = State(vol: Volume, open: map<nat, Handle>)

  datatype Op =
    | Creating(id: nat, name: seq<byte>)
    | Writing(id: nat, data: seq<byte>)
    | Flushing(id: nat)
    | Unlinking(name: seq<byte>)
    | Closing(id: nat)

  /** What the caller is told. */
  datatype Outcome = Failed | Done(count: nat)

  predicate OpOk(op: Op) {
    (op.Creating? || op.Unlinking?) ==> Nameable(op.name)
  }

  /** The calls are defined on the volume; writing is, on handles the driver itself could write with. */
  ghost predicate Callable(st: State, op: Op) {
    && Shape(st.vol) && OpOk(op) && (forall id :: id in st.open ==> st.open[id].slot < |st.vol.dir|)
    && (op.Writing? && op.id in st.open ==> Writable(st.vol, st.open[op.id], op.data))
  }

  /** One call; `id` is the file structure the caller passes. */
  function Step(st: State, op: Op): (r: (State, Outcome))
    requires Callable(st, op)
  {
    match op
    case Creating(id, name) =>
      (match Create(st.vol, name)
       case NoRoom => (st, Failed)
       case Opened(v, h) => (State(v, st.open[id := h]), Done(0)))
    case Writing(id, data) =>
      if id !in st.open then (st, Failed)
      else
        var (v, h, k) := Write(st.vol, st.open[id], data);
        (State(v, st.open[id := h]), Done(k))
    case Flushing(id) =>
      if id !in st.open then (st, Failed) else (st.(vol := Flush(st.vol, st.open[id])), Done(0))
    case Unlinking(name) =>
      (match Unlink(st.vol, name)
       case Missing => (st, Failed)
       case Removed(v) => (st.(vol := v), Done(0)))
    case Closing(id) => (st.(open := st.open - {id}), Done(0))
  }

  /** Everything in order: the volume well formed, every open file open on it, and no two on the same slot. */
  ghost predicate Good(st: State) {
    && Sane(st.vol) && Small(st.vol)
    && (forall id :: id in st.open ==> HandleOk(st.vol, st.open[id]))
    && (forall i, j :: i in st.open && j in st.open && i != j ==> st.open[i].slot != st.open[j].slot)
  }

  /**
   What a caller must look at: a file that another structure has open is neither created anew nor unlinked, and
   a write goes on inside a cluster or starts an empty file.
   */
  predicate Allowed(st: State, op: Op)
    requires Shape(st.vol)
  {
    match op
    case Creating(id, name) => forall j :: j in st.open && j != id ==> st.open[j].slot != Find(st.vol.dir, name, 0)
    case Writing(id, data) => id in st.open ==> Continues(st.vol, st.open[id], data)
    case Flushing(id) => true
    case Unlinking(name) => forall j :: j in st.open ==> st.open[j].slot != Find(st.vol.dir, name, 0)
    case Closing(id) => true
  }

  lemma GoodCallable(st: State, op: Op)
    requires Good(st) && OpOk(op)
    ensures Callable(st, op) && Shape(st.vol)
  {
    hide Sane, IsChain, Small;
    SaneShape(st.vol);
    forall id | id in st.open
      ensures st.open[id].slot < |st.vol.dir| && AtEnd(st.vol, st.open[id])
    {
      assert HandleOk(st.vol, st.open[id]);
      WriteAppendsIff(st.vol, st.open[id], []);
    }
  }

  /** A file's size fits its 32-bit field. */
  lemma SizeFits(v: Volume, h: Handle)
    requires Sane(v) && Small(v) && Open(v, h)
    ensures h.size < U32
  {
    var ch := Owned(v, h.slot);
    if ch != [] {
      ReleaseChain(v.ty, v.fat, ch);
      SpanIsProduct(v.clusSize, |ch|);
      SmallProduct(|ch|, v.clusSize);
    }
  }

  lemma SmallProduct(n: nat, cs: nat)
    requires n <= 0xFFF6 && cs <= 0x1_0000
    ensures n * cs < U32
  {
    assert n * cs <= n * 0x1_0000;
  }

  // ---------- each step keeps order exactly when it is allowed ----------

  lemma GoodAt(st: State, id: nat)
    requires Good(st) && id in st.open
    ensures Sane(st.vol) && Small(st.vol) && Shape(st.vol) && HandleOk(st.vol, st.open[id]) && Open(st.vol, st.open[id])
    ensures Used(st.vol.dir, st.open[id].slot) && st.open[id].size < U32
  {
    hide Sane;
    SaneShape(st.vol);
    SizeFits(st.vol, st.open[id]);
  }

  /** A change of one slot leaves order when the files open on other slots are all there are, or the one there is open. */
  lemma GoodAfter(st: State, v': Volume, s: nat, open': map<nat, Handle>)
    requires Good(st) && OnlySlot(st.vol, v', s) && Sane(v')
    requires forall id :: id in open' ==> if open'[id].slot == s then HandleOk(v', open'[id]) else id in st.open && open'[id] == st.open[id]
    requires forall i, j :: i in open' && j in open' && open'[i].slot == s == open'[j].slot ==> i == j
    ensures Good(State(v', open'))
  {
    hide Sane, HandleOk, OnlySlot;
    SameKind(st.vol, v', s);
    forall id | id in open'
      ensures HandleOk(v', open'[id])
    {
      if open'[id].slot != s {
        OtherHandleKept(st.vol, v', s, st.open[id]);
      }
    }
  }

  lemma SameKind(v: Volume, v': Volume, s: nat)
    requires Sane(v) && OnlySlot(v, v', s)
    ensures Small(v') == Small(v)
  {
  }

  lemma FreshIsOk(v: Volume, h: Handle, name: seq<byte>)
    requires Sane(v) && Fresh(v, h, name)
    ensures HandleOk(v, h) && Written(v, h) == []
  {
    hide Sane;
    SaneShape(v);
    FreshIsOpen(v, h, name);
  }

  /** Creating changes one slot: the one found, or a vacant one. */
  lemma CreateOneSlot(v: Volume, name: seq<byte>)
    requires Sane(v) && Nameable(name) && Create(v, name).Opened?
    ensures var (v', h) := (Create(v, name).vol, Create(v, name).h);
            && Sane(v') && OnlySlot(v, v', h.slot) && Fresh(v', h, name)
            && (Find(v.dir, name, 0) < |v.dir| ==> h.slot == Find(v.dir, name, 0))
            && (Find(v.dir, name, 0) == |v.dir| ==> h.slot < |v.dir| && !Used(v.dir, h.slot))
  {
    hide Lookup, FreeFrom, IsChain, TotalOwned;
    CreateKeeps(v, name);
    var s := Find(v.dir, name, 0);
    if s < |v.dir| {
      ResetOnlySlot(v, s, Truncated(v.dir[s]));
    } else {
      NewOnlySlot(v, FirstVacant(v.dir, 0), NewSlot(name));
    }
  }

  lemma NewOnlySlot(v: Volume, s: nat, e: seq<byte>)
    requires Sane(v) && s < |v.dir| && |e| == 32
    ensures OnlySlot(v, v.(dir := v.dir[s := e]), s)
  {
  }

  lemma CreateGood(st: State, id: nat, name: seq<byte>)
    requires Good(st) && Nameable(name) && Shape(st.vol) && Create(st.vol, name).Opened?
    ensures var st' := State(Create(st.vol, name).vol, st.open[id := Create(st.vol, name).h]);
            Good(st') <==> Allowed(st, Creating(id, name))
  {
    hide Sane, Create, Find, OnlySlot, HandleOk, Fresh;
    var (v', h) := (Create(st.vol, name).vol, Create(st.vol, name).h);
    CreateOneSlot(st.vol, name);
    FreshIsOk(v', h, name);
    var open' := st.open[id := h];
    forall j | j in st.open
      ensures Used(st.vol.dir, st.open[j].slot)
    {
      GoodAt(st, j);
    }
    if Allowed(st, Creating(id, name)) {
      GoodAfter(st, v', h.slot, open');
    } else {
      var j :| j in st.open && j != id && st.open[j].slot == Find(st.vol.dir, name, 0);
      assert open'[j].slot == open'[id].slot;
    }
  }

  lemma WriteGood(st: State, id: nat, data: seq<byte>)
    requires Good(st) && id in st.open && Shape(st.vol) && st.open[id].slot < |st.vol.dir| && Writable(st.vol, st.open[id], data)
    ensures var (v', h', _) := Write(st.vol, st.open[id], data);
            Good(State(v', st.open[id := h'])) <==> Continues(st.vol, st.open[id], data)
  {
    hide Sane, Write, OnlySlot, Open, Written, SlotKept, Continues;
    var v, h := st.vol, st.open[id];
    var (v', h', k) := Write(v, h, data);
    GoodAt(st, id);
    WriteAppendsIff(v, h, data);
    if Continues(v, h, data) {
      WriteOnlySlot(v, h, data);
      WriteAppends(v, h, data);
      WriteSize(v, h, data);
      GoodAfter(st, v', h.slot, st.open[id := h']);
    } else {
      assert !HandleOk(v', st.open[id := h'][id]);
    }
  }

  lemma WriteSize(v: Volume, h: Handle, data: seq<byte>)
    requires Sane(v) && Open(v, h) && Shape(v) && h.slot < |v.dir| && Writable(v, h, data)
    ensures Write(v, h, data).1.slot == h.slot && Write(v, h, data).1.size >= h.size
    ensures Continues(v, h, data) ==> Sane(Write(v, h, data).0)
  {
    hide Sane, Fill;
    if Continues(v, h, data) {
      WriteAppends(v, h, data);
    }
  }

  lemma FlushGood(st: State, id: nat)
    requires Good(st) && id in st.open && Shape(st.vol) && st.open[id].slot < |st.vol.dir|
    ensures Good(st.(vol := Flush(st.vol, st.open[id])))
  {
    hide Sane, OnlySlot;
    var v, h := st.vol, st.open[id];
    GoodAt(st, id);
    FlushStaysOpen(v, h);
    FlushSane(v, h);
    GoodAfter(st, Flush(v, h), h.slot, st.open);
  }

  lemma FlushStaysOpen(v: Volume, h: Handle)
    requires Sane(v) && Open(v, h) && h.size < U32
    ensures Sane(Flush(v, h)) && HandleOk(Flush(v, h), h) && Written(Flush(v, h), h) == Written(v, h)
  {
    hide Flat, HasChain;
    FlushSane(v, h);
    FlushedSlot(v, h);
  }

  lemma UnlinkOneSlot(v: Volume, name: seq<byte>)
    requires Sane(v) && |name| == 11 && Unlink(v, name).Removed?
    ensures var (v', s) := (Unlink(v, name).vol, Find(v.dir, name, 0));
            Sane(v') && s < |v.dir| == |v'.dir| && OnlySlot(v, v', s) && !Used(v'.dir, s)
  {
    hide Lookup, FreeFrom, IsChain, TotalOwned;
    UnlinkKeeps(v, name);
    var s := Find(v.dir, name, 0);
    ErasedIs(v.dir[s]);
    ResetOnlySlot(v, s, Erased(v.dir[s]));
  }

  lemma UnlinkGood(st: State, name: seq<byte>)
    requires Good(st) && |name| == 11 && Shape(st.vol) && Unlink(st.vol, name).Removed?
    ensures Good(st.(vol := Unlink(st.vol, name).vol)) <==> Allowed(st, Unlinking(name))
  {
    hide Sane, Unlink, Find, OnlySlot;
    UnlinkOneSlot(st.vol, name);
    var v' := Unlink(st.vol, name).vol;
    if Allowed(st, Unlinking(name)) {
      GoodAfter(st, v', Find(st.vol.dir, name, 0), st.open);
    } else {
      var j :| j in st.open && st.open[j].slot == Find(st.vol.dir, name, 0);
      assert !HandleOk(v', st.open[j]);
    }
  }

  /** A call leaves everything in order exactly when the caller was allowed to make it. */
  lemma StepGoodIff(st: State, op: Op)
    requires Good(st) && OpOk(op)
    ensures Callable(st, op) && Shape(st.vol)
    ensures Good(Step(st, op).0) <==> Allowed(st, op)
  {
    hide Sane, Create, Unlink, Write, Flush, HandleOk, Small;
    GoodCallable(st, op);
    match op {
      case Creating(id, name) =>
        if Create(st.vol, name).Opened? {
          CreateGood(st, id, name);
        } else {
          NotFound(st, name);
        }
      case Writing(id, data) =>
        if id in st.open {
          WriteGood(st, id, data);
        }
      case Flushing(id) =>
        if id in st.open {
          FlushGood(st, id);
        }
      case Unlinking(name) =>
        if Unlink(st.vol, name).Removed? {
          UnlinkGood(st, name);
        } else {
          NotFound(st, name);
        }
      case Closing(id) =>
    }
  }

  lemma NotFound(st: State, name: seq<byte>)
    requires Good(st) && Shape(st.vol) && |name| == 11 && (Create(st.vol, name).NoRoom? || Unlink(st.vol, name).Missing?)
    ensures forall j :: j in st.open ==> st.open[j].slot != Find(st.vol.dir, name, 0)
  {
    hide Sane;
    forall j | j in st.open
      ensures st.open[j].slot < |st.vol.dir|
    {
      GoodAt(st, j);
    }
  }

  // ---------- the file system the calls refine ----------

  /** A file being written: its name, and what has been written to it so far. */
  datatype Pending = Pending(name: seq<byte>, bytes: seq<byte>)

  /** What names stand for, and the files open. What is written shows under the name only when it is flushed. */
  datatype Files = Files(stored: map<seq<byte>, File>, pending: map<nat, Pending>)

  /** The same call on files; `o` is what the driver reported. */
  function FilesStep(a: Files, op: Op, o: Outcome): Files {
    match op
    case Creating(id, name) =>
      if o.Failed? then a else Files(a.stored[name := File(ARCHIVE, [])], a.pending[id := Pending(name, [])])
    case Writing(id, data) =>
      if o.Failed? || id !in a.pending || o.count > |data| then a
      else a.(pending := a.pending[id := Pending(a.pending[id].name, a.pending[id].bytes + data[..o.count])])
    case Flushing(id) =>
      if o.Failed? || id !in a.pending || a.pending[id].name !in a.stored then a
      else
        var p := a.pending[id];
        a.(stored := a.stored[p.name := File(a.stored[p.name].attr, p.bytes)])
    case Unlinking(name) => if o.Failed? then a else a.(stored := a.stored - {name})
    case Closing(id) => a.(pending := a.pending - {id})
  }

  /** The volume holds exactly the files of the map. */
  ghost predicate Holds(v: Volume, m: map<seq<byte>, File>)
    requires Sane(v)
  {
    forall n :: Lookup(v, n) == if n in m then Some(m[n]) else None
  }

  ghost predicate PendingIs(v: Volume, h: Handle, p: Pending)
    requires Shape(v)
  {
    Open(v, h) && NameOf(v.dir[h.slot]) == p.name && Written(v, h) == p.bytes
  }

  ghost predicate Refines(st: State, a: Files)
    requires Good(st)
  {
    && Holds(st.vol, a.stored) && a.pending.Keys == st.open.Keys
    && forall id :: id in st.open ==> PendingIs(st.vol, st.open[id], a.pending[id])
  }

  /** What the caller is told, in terms of the files. */
  ghost predicate Told(st: State, a: Files, op: Op, o: Outcome)
    requires Good(st)
  {
    match op
    case Creating(id, name) => o.Done? <==> name in a.stored || FirstVacant(st.vol.dir, 0) < |st.vol.dir|
    case Writing(id, data) =>
      && (o.Done? <==> id in a.pending)
      && (id in st.open && Open(st.vol, st.open[id]) && o.Done? ==> o.count == Room(st.vol, st.open[id], |data|) <= |data|)
    case Flushing(id) => o.Done? <==> id in a.pending
    case Unlinking(name) => o.Done? <==> name in a.stored
    case Closing(id) => o.Done?
  }

  /** The other files that are open keep what was written to them. */
  lemma OthersPending(st: State, a: Files, v': Volume, s: nat, id: nat)
    requires Good(st) && Refines(st, a) && OnlySlot(st.vol, v', s) && id in st.open && st.open[id].slot != s
    ensures Shape(v') && PendingIs(v', st.open[id], a.pending[id])
  {
    hide Sane, OnlySlot, Written, Open;
    GoodAt(st, id);
    assert PendingIs(st.vol, st.open[id], a.pending[id]);
    OtherHandleKept(st.vol, v', s, st.open[id]);
    ShapeAfter(st.vol, v', s);
  }

  lemma ShapeAfter(v: Volume, v': Volume, s: nat)
    requires Sane(v) && OnlySlot(v, v', s)
    ensures Shape(v')
  {
  }

  /** A map changed at one name. */
  lemma HoldsChanged(v: Volume, v': Volume, m: map<seq<byte>, File>, name: seq<byte>)
    requires Sane(v) && Sane(v') && Holds(v, m) && OthersKept(v, v', name)
    ensures Lookup(v', name).Some? ==> Holds(v', m[name := Lookup(v', name).value])
    ensures Lookup(v', name).None? ==> Holds(v', m - {name})
  {
    hide Sane, Lookup;
    forall n | n != name
      ensures Lookup(v', n) == if n in m then Some(m[n]) else None
    {
      assert Lookup(v', n) == Lookup(v, n);
    }
  }

  /** What has been written but not flushed does not show under the name. */
  lemma WriteHidden(v: Volume, h: Handle, data: seq<byte>)
    requires Sane(v) && HandleOk(v, h) && Continues(v, h, data)
    ensures AtEnd(v, h) && h.slot < |v.dir|
    ensures var (v', h', k) := Write(v, h, data);
            && Sane(v') && OthersKept(v, v', NameOf(v.dir[h.slot]))
            && Lookup(v', NameOf(v.dir[h.slot])) == Lookup(v, NameOf(v.dir[h.slot]))
  {
    hide Sane, Flat, Write, Lookup, OthersKept, OwnersKept, OnlySlot, Continues;
    SaneShape(v);
    WriteAppends(v, h, data);
    WriteOnlySlot(v, h, data);
    var (v', h', k) := Write(v, h, data);
    SaneShape(v');
    SlotStored(v, h);
    WriteSize(v, h, data);
    SlotStored(v', h');
    var n := SizeOf(v.dir[h.slot]);
    assert (Written(v, h) + data[..k])[..n] == Written(v, h)[..n];
  }

  /** What a name stands for is the flushed part of what was written to its open file. */
  lemma SlotStored(v: Volume, h: Handle)
    requires Sane(v) && Open(v, h) && SizeOf(v.dir[h.slot]) <= h.size
    ensures Lookup(v, NameOf(v.dir[h.slot])) == Some(File(v.dir[h.slot][11], Written(v, h)[..SizeOf(v.dir[h.slot])]))
  {
    hide Flat;
    LookupSlot(v, h.slot);
    OwnedFlat(v, h.slot);
    var n := SizeOf(v.dir[h.slot]);
    assert Flat(v.data, Owned(v, h.slot))[..h.size][..n] == Flat(v.data, Owned(v, h.slot))[..n];
  }

  lemma AccountedWrite(v: Volume, h: Handle, data: seq<byte>)
    requires Sane(v) && Open(v, h) && Continues(v, h, data)
    ensures AtEnd(v, h) && h.slot < |v.dir|
    ensures Accounted(Write(v, h, data).0) == Accounted(v)
  {
    hide Sane, Flat, Write, Lookup, OthersKept, Continues;
    SaneShape(v);
    WriteAppends(v, h, data);
    AccountedOneSlot(v, Write(v, h, data).0, h.slot);
  }

  lemma AccountedFlush(v: Volume, h: Handle)
    requires Sane(v) && Open(v, h) && h.size < U32
    ensures Accounted(Flush(v, h)) == Accounted(v)
  {
    hide Sane, Flat, Flush, Lookup, OthersKept;
    SaneShape(v);
    FlushKeeps(v, h);
    SaneShape(Flush(v, h));
    AccountedOneSlot(v, Flush(v, h), h.slot);
  }

  // ---------- each call refines ----------

  lemma CreateRefines(st: State, a: Files, id: nat, name: seq<byte>)
    requires Good(st) && Refines(st, a) && Nameable(name) && Shape(st.vol) && Create(st.vol, name).Opened?
    requires Allowed(st, Creating(id, name))
    ensures var st' := State(Create(st.vol, name).vol, st.open[id := Create(st.vol, name).h]);
            Good(st') && Refines(st', FilesStep(a, Creating(id, name), Done(0))) && Accounted(st'.vol) == Accounted(st.vol)
  {
    hide Sane, Create, Find, OnlySlot, Fresh, Lookup, Holds, OthersKept, Accounted, PendingIs, HandleOk;
    var (v', h) := (Create(st.vol, name).vol, Create(st.vol, name).h);
    var st', a' := State(v', st.open[id := h]), FilesStep(a, Creating(id, name), Done(0));
    CreateGood(st, id, name);
    CreateOneSlot(st.vol, name);
    CreateKeeps(st.vol, name);
    HoldsChanged(st.vol, v', a.stored, name);
    FreshStands(v', h, name);
    forall j | j in st'.open
      ensures PendingIs(v', st'.open[j], a'.pending[j])
    {
      if j != id {
        GoodAt(st, j);
        assert st'.open[j].slot != st'.open[id].slot;
        OthersPending(st, a, v', h.slot, j);
      }
    }
  }

  lemma FreshStands(v: Volume, h: Handle, name: seq<byte>)
    requires Sane(v) && Fresh(v, h, name)
    ensures Lookup(v, name) == Some(File(ARCHIVE, [])) && PendingIs(v, h, Pending(name, []))
  {
    FreshIsOpen(v, h, name);
    LookupSlot(v, h.slot);
  }

  /** A name that stands for something is in the map with it. */
  lemma HoldsAt(v: Volume, m: map<seq<byte>, File>, name: seq<byte>)
    requires Sane(v) && Holds(v, m)
    ensures name in m <==> Lookup(v, name).Some?
    ensures name in m ==> Lookup(v, name) == Some(m[name]) && m[name := m[name]] == m
  {
    hide Sane, Lookup;
    assert Lookup(v, name) == if name in m then Some(m[name]) else None;
  }

  lemma WriteRefines(st: State, a: Files, id: nat, data: seq<byte>)
    requires Good(st) && Refines(st, a) && id in st.open && Continues(st.vol, st.open[id], data)
    ensures Shape(st.vol) && st.open[id].slot < |st.vol.dir| && Writable(st.vol, st.open[id], data) && Open(st.vol, st.open[id])
    ensures var (v', h', k) := Write(st.vol, st.open[id], data);
            var st' := State(v', st.open[id := h']);
            && Good(st') && Refines(st', FilesStep(a, Writing(id, data), Done(k))) && Accounted(v') == Accounted(st.vol)
            && k == Room(st.vol, st.open[id], |data|) <= |data|
  {
    hide Sane, Write, OnlySlot, Lookup, Holds, OthersKept, OwnersKept, Accounted, Continues, Written, Room, Open;
    var v, h := st.vol, st.open[id];
    GoodAt(st, id);
    WriteHidden(v, h, data);
    AccountedWrite(v, h, data);
    WriteGood(st, id, data);
    WriteOnlySlot(v, h, data);
    WriteAppends(v, h, data);
    var (v', h', k) := Write(v, h, data);
    var st', a' := State(v', st.open[id := h']), FilesStep(a, Writing(id, data), Done(k));
    StoredSame(v, v', h, a.stored);
    assert PendingIs(v, h, a.pending[id]);
    forall j | j in st'.open
      ensures PendingIs(v', st'.open[j], a'.pending[j])
    {
      if j != id {
        assert st.open[j].slot != st.open[id].slot;
        OthersPending(st, a, v', h.slot, j);
      }
    }
  }

  lemma StoredSame(v: Volume, v': Volume, h: Handle, m: map<seq<byte>, File>)
    requires Sane(v) && Sane(v') && Holds(v, m) && HandleOk(v, h) && OthersKept(v, v', NameOf(v.dir[h.slot]))
    requires Lookup(v', NameOf(v.dir[h.slot])) == Lookup(v, NameOf(v.dir[h.slot]))
    ensures Holds(v', m)
  {
    hide Sane, Lookup, Holds, OthersKept, Written;
    SlotStored(v, h);
    HoldsAt(v, m, NameOf(v.dir[h.slot]));
    HoldsChanged(v, v', m, NameOf(v.dir[h.slot]));
  }

  lemma FlushRefines(st: State, a: Files, id: nat)
    requires Good(st) && Refines(st, a) && id in st.open && Shape(st.vol) && st.open[id].slot < |st.vol.dir|
    ensures var v' := Flush(st.vol, st.open[id]);
            var st' := st.(vol := v');
            Good(st') && Refines(st', FilesStep(a, Flushing(id), Done(0))) && Accounted(v') == Accounted(st.vol)
  {
    hide Sane, Flush, OnlySlot, Lookup, Holds, OthersKept, OwnersKept, Accounted, Written, Open, Small;
    var v, h := st.vol, st.open[id];
    GoodAt(st, id);
    AccountedFlush(v, h);
    FlushGood(st, id);
    FlushSane(v, h);
    FlushStaysOpen(v, h);
    FlushKeeps(v, h);
    var v' := Flush(v, h);
    var st', a' := st.(vol := v'), FilesStep(a, Flushing(id), Done(0));
    assert PendingIs(v, h, a.pending[id]);
    SlotStored(v, h);
    HoldsAt(v, a.stored, NameOf(v.dir[h.slot]));
    HoldsChanged(v, v', a.stored, NameOf(v.dir[h.slot]));
    forall j | j in st'.open
      ensures PendingIs(v', st'.open[j], a'.pending[j])
    {
      if j != id {
        assert st.open[j].slot != st.open[id].slot;
        OthersPending(st, a, v', h.slot, j);
      }
    }
  }

  lemma UnlinkRefines(st: State, a: Files, name: seq<byte>)
    requires Good(st) && Refines(st, a) && Nameable(name) && Shape(st.vol) && Unlink(st.vol, name).Removed?
    requires Allowed(st, Unlinking(name))
    ensures var st' := st.(vol := Unlink(st.vol, name).vol);
            Good(st') && Refines(st', FilesStep(a, Unlinking(name), Done(0))) && Accounted(st'.vol) == Accounted(st.vol)
  {
    hide Sane, Unlink, Find, OnlySlot, Lookup, Holds, OthersKept, Accounted, PendingIs, Small;
    var v' := Unlink(st.vol, name).vol;
    UnlinkGood(st, name);
    UnlinkOneSlot(st.vol, name);
    UnlinkKeeps(st.vol, name);
    HoldsChanged(st.vol, v', a.stored, name);
    forall j | j in st.open
      ensures PendingIs(v', st.open[j], a.pending[j])
    {
      OthersPending(st, a, v', Find(st.vol.dir, name, 0), j);
    }
  }

  /**
   One call: the volume goes on refining the files, the caller is told the truth, and no cluster is lost or invented.
   */
  lemma StepRefines(st: State, a: Files, op: Op)
    requires Good(st) && Refines(st, a) && OpOk(op) && Shape(st.vol) && Allowed(st, op)
    ensures Callable(st, op)
    ensures var (st', o) := Step(st, op);
            && Good(st') && Refines(st', FilesStep(a, op, o)) && Told(st, a, op, o)
            && Accounted(st'.vol) == Accounted(st.vol)
  {
    hide Sane, Create, Unlink, Write, Flush, Small, Accounted, PendingIs, Lookup, Holds, OthersKept, HandleOk, Room, Continues;
    StepGoodIff(st, op);
    match op {
      case Creating(id, name) =>
        CreateKeeps(st.vol, name);
        HoldsAt(st.vol, a.stored, name);
        if Create(st.vol, name).Opened? {
          CreateRefines(st, a, id, name);
        }
      case Writing(id, data) =>
        if id in st.open {
          WriteRefines(st, a, id, data);
        }
      case Flushing(id) =>
        if id in st.open {
          FlushRefines(st, a, id);
        }
      case Unlinking(name) =>
        UnlinkKeeps(st.vol, name);
        HoldsAt(st.vol, a.stored, name);
        if Unlink(st.vol, name).Removed? {
          UnlinkRefines(st, a, name);
        }
      case Closing(id) =>
    }
  }

  // ---------- runs ----------

  /** The state after each call of a run is in order. */
  ghost predicate GoodRun(st: State, ops: seq<Op>)
    requires forall i :: 0 <= i < |ops| ==> OpOk(ops[i])
    decreases |ops|
  {
    Good(st) && (ops != [] ==> (StepGoodIff(st, ops[0]); GoodRun(Step(st, ops[0]).0, ops[1..])))
  }

  /** Each call of a run is one the caller was allowed to make. */
  ghost predicate AllowedRun(st: State, ops: seq<Op>)
    requires Good(st) && forall i :: 0 <= i < |ops| ==> OpOk(ops[i])
    decreases |ops|
  {
    ops != [] ==> (StepGoodIff(st, ops[0]); Allowed(st, ops[0]) && AllowedRun(Step(st, ops[0]).0, ops[1..]))
  }

  /** A run stays in order all the way exactly when every call in it is allowed. */
  lemma {:induction false} RunGoodIff(st: State, ops: seq<Op>)
    requires Good(st) && forall i :: 0 <= i < |ops| ==> OpOk(ops[i])
    ensures GoodRun(st, ops) <==> AllowedRun(st, ops)
    decreases |ops|
  {
    hide Good, Allowed, Step, Callable;
    if ops != [] {
      StepGoodIff(st, ops[0]);
      var st1 := Step(st, ops[0]).0;
      if Good(st1) {
        RunGoodIff(st1, ops[1..]);
      }
    }
  }

  /** The end of a run, and what each call reported. */
  ghost function Run(st: State, ops: seq<Op>): (r: (State, seq<Outcome>))
    requires Good(st) && (forall i :: 0 <= i < |ops| ==> OpOk(ops[i])) && AllowedRun(st, ops)
    ensures |r.1| == |ops| && Good(r.0)
    decreases |ops|
  {
    if ops == [] then (st, [])
    else
      StepGoodIff(st, ops[0]);
      var (st1, o) := Step(st, ops[0]);
      var (st2, os) := Run(st1, ops[1..]);
      (st2, [o] + os)
  }

  /** The files after the same run. */
  function FilesRun(a: Files, ops: seq<Op>, os: seq<Outcome>): Files
    requires |os| == |ops|
    decreases |ops|
  {
    if ops == [] then a else FilesRun(FilesStep(a, ops[0], os[0]), ops[1..], os[1..])
  }

  /**
   Every interleaving of creating, writing, flushing, unlinking and closing, in which no file is created anew or
   unlinked while another structure has it open and no write starts at a cluster's end, keeps the volume well formed
   and every open file open on its own chain; it leaves exactly the files, stored and pending, that the same run
   leaves of an abstract file system; and it neither loses nor invents a cluster.
   */
  lemma {:induction false} RunRefines(st: State, a: Files, ops: seq<Op>)
    requires Good(st) && Refines(st, a) && (forall i :: 0 <= i < |ops| ==> OpOk(ops[i])) && AllowedRun(st, ops)
    ensures var (st', os) := Run(st, ops);
            Good(st') && Refines(st', FilesRun(a, ops, os)) && Accounted(st'.vol) == Accounted(st.vol)
    decreases |ops|
  {
    hide Sane, Refines, Allowed, Accounted, Step, Callable, HandleOk, FilesStep, Told;
    if ops != [] {
      SaneShape(st.vol);
      StepGoodIff(st, ops[0]);
      StepRefines(st, a, ops[0]);
      var (st1, o) := Step(st, ops[0]);
      RunRefines(st1, FilesStep(a, ops[0], o), ops[1..]);
      var (st2, os) := Run(st1, ops[1..]);
      assert ([o] + os)[1..] == os;
    }
  }

  // ---------- a save as a run ----------

  lemma EmptyGood(v: Volume)
    requires Sane(v) && Small(v)
    ensures Good(State(v, map[])) && Shape(v)
  {
  }

  lemma AlwaysAllowed(st: State, id: nat)
    requires Shape(st.vol)
    ensures Allowed(st, Flushing(id)) && Allowed(st, Closing(id))
  {
  }

  lemma FirstCreate(st: State, name: seq<byte>)
    requires Good(st) && Shape(st.vol) && st.open == map[]
    ensures forall id :: Allowed(st, Creating(id, name))
  {
  }

  /** The first write to a file just created. */
  lemma FirstWrite(st: State, name: seq<byte>, data: seq<byte>)
    requires Good(st) && st.open == map[] && Nameable(name) && Callable(st, Creating(0, name))
    ensures var st1 := Step(st, Creating(0, name)).0; Shape(st1.vol) && Allowed(st1, Writing(0, data))
  {
    hide Good;
  }

  lemma EndOfRun(st: State)
    requires Good(st)
    ensures AllowedRun(st, []) && Run(st, []).0 == st
  {
    hide Good;
  }

  lemma OneRun(st: State, op: Op, rest: seq<Op>)
    requires Good(st) && OpOk(op) && forall i :: 0 <= i < |rest| ==> OpOk(rest[i])
    requires Callable(st, op) && Shape(st.vol) && Allowed(st, op) && Good(Step(st, op).0) && AllowedRun(Step(st, op).0, rest)
    ensures AllowedRun(st, [op] + rest) && Run(st, [op] + rest).0 == Run(Step(st, op).0, rest).0
  {
    hide Good, Callable, Step, Allowed;
    var ops := [op] + rest;
    assert ops[1..] == rest && ops[0] == op;
    StepGoodIff(st, op);
  }

  /** A save is the run of creating, writing, flushing and closing. */
  lemma SaveIsRun(v: Volume, name: seq<byte>, data: seq<byte>)
    requires Sane(v) && Small(v) && Nameable(name) && |data| < U32
    ensures var (st, ops) := (State(v, map[]), [Creating(0, name), Writing(0, data), Flushing(0), Closing(0)]);
            && Good(st) && AllowedRun(st, ops)
            && match Save(v, name, data)
               case Refused => Run(st, ops).0 == st
               case Stored(v', _) => Run(st, ops).0 == State(v', map[])
  {
    hide Sane, Create, Write, Flush, Small, Allowed, Callable, Good, AllowedRun, Run;
    var st0 := State(v, map[]);
    var o1, o2, o3, o4 := Creating(0, name), Writing(0, data), Flushing(0), Closing(0);
    EmptyGood(v);
    StepGoodIff(st0, o1);
    FirstCreate(st0, name);
    var st1 := Step(st0, o1).0;
    StepGoodIff(st1, o2);
    FirstWrite(st0, name, data);
    var st2 := Step(st1, o2).0;
    StepGoodIff(st2, o3);
    AlwaysAllowed(st2, 0);
    var st3 := Step(st2, o3).0;
    StepGoodIff(st3, o4);
    AlwaysAllowed(st3, 0);
    var st4 := Step(st3, o4).0;
    assert [o4] + [] == [o4] && [o3] + [o4] == [o3, o4] && [o2] + [o3, o4] == [o2, o3, o4] && [o1] + [o2, o3, o4] == [o1, o2, o3, o4];
    EndOfRun(st4);
    OneRun(st3, o4, []);
    OneRun(st2, o3, [o4]);
    OneRun(st1, o2, [o3, o4]);
    OneRun(st0, o1, [o2, o3, o4]);
  }

  // ---------- what goes wrong otherwise ----------

  /** The lowest vacant slot is that of a file taken out of it again. */
  lemma {:induction false} VacantAgain(dir: seq<seq<byte>>, dir': seq<seq<byte>>, i: nat, s: nat)
    requires |dir'| == |dir| && (forall k :: 0 <= k < |dir| ==> |dir[k]| == 32 && |dir'[k]| == 32)
    requires i <= s < |dir| && FirstVacant(dir, i) == s && Vacant(dir'[s]) && forall k :: 0 <= k < s ==> dir'[k] == dir[k]
    ensures FirstVacant(dir', i) == s
    decreases s - i
  {
    if i < s {
      VacantAgain(dir, dir', i + 1, s);
    }
  }

  /** Creating under a new name takes the lowest vacant slot. */
  lemma NewAt(v: Volume, name: seq<byte>)
    requires Sane(v) && Nameable(name) && Lookup(v, name) == None && FirstVacant(v.dir, 0) < |v.dir|
    ensures Create(v, name) == Opened(v.(dir := v.dir[FirstVacant(v.dir, 0) := NewSlot(name)]), Handle(FirstVacant(v.dir, 0), 0, 0, 0, 0))
  {
    hide Content;
  }

  /** A file with bytes written to it has a first cluster, which its slot names. */
  lemma WrittenHasChain(v: Volume, h: Handle)
    requires Sane(v) && Open(v, h) && h.size > 0
    ensures Owned(v, h.slot) != [] && h.first == FirstOf(v.dir[h.slot]) == Owned(v, h.slot)[0] && 2 <= h.first < |v.fat|
  {
  }

  /** Unlinking frees the first cluster. */
  lemma UnlinkFrees(v: Volume, name: seq<byte>, s: nat)
    requires Sane(v) && |name| == 11 && Used(v.dir, s) && NameOf(v.dir[s]) == name && Owned(v, s) != []
    ensures Unlink(v, name).Removed? && Unlink(v, name).vol == Reset(v, s, Erased(v.dir[s]))
    ensures 2 <= Owned(v, s)[0] < |v.fat| && Unlink(v, name).vol.fat[Owned(v, s)[0]] == 0
  {
    hide Content, Release;
    LookupSlot(v, s);
    ReleaseChain(v.ty, v.fat, Owned(v, s));
    assert Owned(v, s)[0] in Owned(v, s);
  }

  /** An entry for a cluster that is free makes the volume unsound. */
  lemma FreeClusterBreaks(v: Volume, s: nat)
    requires Used(v.dir, s) && 2 <= FirstOf(v.dir[s]) < |v.fat| && v.fat[FirstOf(v.dir[s])] == 0
    ensures !Sane(v)
  {
    var first := FirstOf(v.dir[s]);
    if HasChain(v.ty, v.fat, first) {
      ChainMembers(v.ty, v.fat, ChainOf(v.ty, v.fat, first));
    }
    assert !SlotOk(v, s);
  }

  /** Flushing enters the file structure's first cluster, whatever file the slot now belongs to. */
  lemma FlushEnters(v: Volume, h: Handle)
    requires Shape(v) && Used(v.dir, h.slot) && 0 < h.first < U32
    ensures var v' := Flush(v, h); Used(v'.dir, h.slot) && FirstOf(v'.dir[h.slot]) == h.first && v'.fat == v.fat
  {
    SetSizeIs(v.dir[h.slot], h.size % U32);
    FlushSizeMod(v.dir[h.slot], h.size);
    SetFirstIs(Put32(v.dir[h.slot], 28, h.size), h.first);
  }

  lemma FlushSizeMod(e: seq<byte>, n: nat)
    requires |e| == 32
    ensures var t := Put32(e, 28, n); t[0] == e[0] && t[11] == e[11]
  {
  }

  /**
   A file structure used after its file was unlinked: another file takes the vacant slot, and flushing the old
   structure enters its freed cluster there. The run is out of order from the unlinking on, where it was not allowed;
   the volume itself stays well formed until the flush.
   */
  lemma StaleHandleBreaks(v: Volume, a: seq<byte>, b: seq<byte>, data: seq<byte>)
    requires Sane(v) && Small(v) && Nameable(a) && Nameable(b) && a != b && Lookup(v, a) == None && Lookup(v, b) == None
    requires FirstVacant(v.dir, 0) < |v.dir| && FreeCount(v) > 0 && data != []
    ensures Create(v, a).Opened? && Shape(Create(v, a).vol)
    ensures var (v1, h1) := (Create(v, a).vol, Create(v, a).h);
            && h1.slot < |v1.dir| && Writable(v1, h1, data)
            && var (v2, h2, _) := Write(v1, h1, data);
               && Good(State(v2, map[0 := h2])) && !Allowed(State(v2, map[0 := h2]), Unlinking(a))
               && Unlink(v2, a).Removed?
               && var v3 := Unlink(v2, a).vol;
                  && Sane(v3) && Create(v3, b).Opened?
                  && var (v4, h4) := (Create(v3, b).vol, Create(v3, b).h);
                     && Sane(v4) && h4.slot == h2.slot < |v4.dir|
                     && !Sane(Flush(v4, h2))
  {
    hide Sane, Write, Unlink, Find, OnlySlot, Lookup, OthersKept, OwnersKept, Accounted, Release;
    SaneShape(v);
    var s := FirstVacant(v.dir, 0);
    NewAt(v, a);
    CreateKeeps(v, a);
    CreateOneSlot(v, a);
    var (v1, h1) := (Create(v, a).vol, Create(v, a).h);
    SaneShape(v1);
    FreshIsOk(v1, h1, a);
    WriteFresh(v, v1, h1, a, data);
    var (v2, h2, k) := Write(v1, h1, data);
    WrittenHasChain(v2, h2);
    UnlinkFrees(v2, a, s);
    UnlinkOneSlot(v2, a);
    UnlinkKeeps(v2, a);
    var v3 := Unlink(v2, a).vol;
    OtherName(v, v1, a, b);
    OtherName(v1, v2, a, b);
    OtherName(v2, v3, a, b);
    ErasedIs(v2.dir[s]);
    VacantAgain(v.dir, v3.dir, 0, s);
    NewAt(v3, b);
    CreateOneSlot(v3, b);
    var v4 := Create(v3, b).vol;
    SaneShape(v4);
    FlushEnters(v4, h2);
    FreeClusterBreaks(Flush(v4, h2), s);
  }

  /** The first write to a new file, when a cluster is free. */
  lemma WriteFresh(v: Volume, v1: Volume, h1: Handle, a: seq<byte>, data: seq<byte>)
    requires Sane(v) && Small(v) && Sane(v1) && Fresh(v1, h1, a) && data != [] && FreeCount(v1) > 0 && Small(v1)
    ensures Shape(v1) && h1.slot < |v1.dir| && Writable(v1, h1, data)
    ensures var (v2, h2, _) := Write(v1, h1, data);
            && Sane(v2) && Open(v2, h2) && h2.size > 0 && h2.slot == h1.slot && Used(v2.dir, h2.slot) && NameOf(v2.dir[h2.slot]) == a
            && Good(State(v2, map[0 := h2])) && !Allowed(State(v2, map[0 := h2]), Unlinking(a))
            && OthersKept(v1, v2, a) && (forall i :: 0 <= i < |v1.dir| && i != h1.slot ==> v2.dir[i] == v1.dir[i]) && |v2.dir| == |v1.dir|
  {
    hide Sane, Write, Flat, Lookup, OthersKept, OwnersKept, FreeFrom;
    SaneShape(v1);
    FreshIsOk(v1, h1, a);
    WriteAppends(v1, h1, data);
    WriteOnlySlot(v1, h1, data);
    var (v2, h2, k) := Write(v1, h1, data);
    var st := State(v1, map[0 := h1]);
    assert Good(st);
    WriteGood(st, 0, data);
    assert st.open[0 := h2] == map[0 := h2];
    SpanGrows(v1.clusSize, 1, FreeCount(v1));
    assert Span(v1.clusSize, 1) == Span(v1.clusSize, 0) + v1.clusSize;
    SlotFound(v2, h2.slot);
    var st2 := State(v2, map[0 := h2]);
    assert 0 in st2.open && st2.open[0].slot == Find(v2.dir, a, 0);
  }

  lemma OtherName(v: Volume, v': Volume, name: seq<byte>, n: seq<byte>)
    requires Sane(v) && Sane(v') && OthersKept(v, v', name) && n != name
    ensures Lookup(v', n) == Lookup(v, n)
  {
    hide Sane, Lookup;
  }

  lemma SlotFound(v: Volume, s: nat)
    requires Sane(v) && Used(v.dir, s)
    ensures Shape(v) && Find(v.dir, NameOf(v.dir[s]), 0) == s
  {
    LookupSlot(v, s);
  }
}
