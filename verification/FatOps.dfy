/** What creating, writing, flushing, removing and reading a file do to the abstract file system. */
module FatOps {
  import opened Bytes
  import opened Wrappers
  import opened FatVolume
  import opened FatChains
  import opened FatFiles

  predicate Nameable(name: seq<byte>) {
    |name| == 11 && name[0] != 0 && name[0] != DELETED
  }

  // ---------- slot fields ----------

  lemma TruncatedIs(e: seq<byte>)
    requires |e| == 32 && InUse(e)
    ensures var t := Truncated(e);
            InUse(t) && NameOf(t) == NameOf(e) && FirstOf(t) == 0 && SizeOf(t) == 0 && t[11] == ARCHIVE
  {
    var t := Truncated(e);
    assert forall i :: 0 <= i < 11 ==> t[i] == e[i];
  }

  lemma NewSlotIs(name: seq<byte>)
    requires Nameable(name)
    ensures var t := NewSlot(name);
            InUse(t) && NameOf(t) == name && FirstOf(t) == 0 && SizeOf(t) == 0 && t[11] == ARCHIVE
  {
  }

  lemma SetFirstIs(e: seq<byte>, c: nat)
    requires |e| == 32 && c < U32
    ensures var t := SetFirst(e, c);
            NameOf(t) == NameOf(e) && FirstOf(t) == c && SizeOf(t) == SizeOf(e) && t[0] == e[0] && t[11] == e[11]
  {
    var t := SetFirst(e, c);
    assert forall i :: 0 <= i < 11 ==> t[i] == e[i];
  }

  lemma SetSizeIs(e: seq<byte>, n: nat)
    requires |e| == 32 && n < U32
    ensures var t := Put32(e, 28, n);
            NameOf(t) == NameOf(e) && FirstOf(t) == FirstOf(e) && SizeOf(t) == n && t[0] == e[0] && t[11] == e[11]
  {
    var t := Put32(e, 28, n);
    assert forall i :: 0 <= i < 11 ==> t[i] == e[i];
  }

  // ---------- creating and removing ----------

  /** Freeing one slot's chain leaves the clusters of every other slot alone. */
  lemma ReleaseSlot(v: Volume, s: nat)
    requires Sane(v) && Used(v.dir, s)
    ensures var fat' := Release(v.ty, v.fat, FirstOf(v.dir[s]));
            && FreeFrom(fat', 2) == FreeFrom(v.fat, 2) + |Owned(v, s)|
            && forall i, c :: Used(v.dir, i) && i != s && c in Owned(v, i) && 2 <= c < |v.fat| ==> fat'[c] == v.fat[c]
  {
    assert SlotOk(v, s);
    var first := FirstOf(v.dir[s]);
    if first == 0 {
      NoChainAtZero(v.ty, v.fat);
    } else {
      ReleaseChain(v.ty, v.fat, Owned(v, s));
      forall i, c | Used(v.dir, i) && i != s && c in Owned(v, i)
        ensures c !in Owned(v, s)
      {
        assert SlotsApart(v, i, s);
      }
    }
  }

  /** Slot `s` rewritten to `e` and its chain freed. */
  function Reset(v: Volume, s: nat, e: seq<byte>): Volume
    requires Shape(v) && s < |v.dir|
  {
    v.(dir := v.dir[s := e], fat := Release(v.ty, v.fat, FirstOf(v.dir[s])))
  }

  lemma ResetOnlySlot(v: Volume, s: nat, e: seq<byte>)
    requires Sane(v) && Used(v.dir, s) && |e| == 32
    ensures OnlySlot(v, Reset(v, s, e), s)
    ensures FreeCount(Reset(v, s, e)) == FreeCount(v) + |Owned(v, s)|
  {
    ReleaseSlot(v, s);
    ReleaseShape(v.(dir := v.dir[s := e]), FirstOf(v.dir[s]));
  }

  lemma ResetSane(v: Volume, s: nat, e: seq<byte>)
    requires Sane(v) && Used(v.dir, s) && |e| == 32 && e[0] != 0
    requires InUse(e) ==> NameOf(e) == NameOf(v.dir[s]) && FirstOf(e) == 0 && SizeOf(e) == 0
    ensures Sane(Reset(v, s, e)) && OnlySlot(v, Reset(v, s, e), s)
  {
    ResetOnlySlot(v, s, e);
    var v' := Reset(v, s, e);
    NoChainAtZero(v.ty, v'.fat);
    forall i: nat | Used(v.dir, i) && i != s
      ensures NameOf(v.dir[s]) != NameOf(v.dir[i])
    {
      assert SlotsApart(v, s, i);
    }
    assert SlotFitsIn(v, v', s);
    OneSlotSane(v, v', s);
  }

  /** A freshly created or truncated file, open at its start. */
  ghost predicate Fresh(v: Volume, h: Handle, name: seq<byte>) {
    && Used(v.dir, h.slot) && NameOf(v.dir[h.slot]) == name && v.dir[h.slot][11] == ARCHIVE
    && FirstOf(v.dir[h.slot]) == 0 && SizeOf(v.dir[h.slot]) == 0
    && h == Handle(h.slot, 0, 0, 0, 0)
  }

  /** Every name but one means the same in both volumes. */
  ghost predicate OthersKept(v: Volume, v': Volume, name: seq<byte>)
    requires Sane(v) && Sane(v')
  {
    forall n :: n != name ==> Lookup(v', n) == Lookup(v, n)
  }

  /** Every slot but one owns as many clusters in both volumes. */
  ghost predicate OwnersKept(v: Volume, v': Volume, s: nat) {
    && |v'.dir| == |v.dir|
    && forall i: nat :: i != s ==> (Used(v'.dir, i) <==> Used(v.dir, i)) && OwnCount(v', i) == OwnCount(v, i)
  }

  ghost function OwnCount(v: Volume, i: nat): nat {
    if Used(v.dir, i) then |Owned(v, i)| else 0
  }

  lemma OwnersFromSlot(v: Volume, v': Volume, s: nat)
    requires Sane(v) && OnlySlot(v, v', s)
    ensures OwnersKept(v, v', s)
  {
    hide Sane, OnlySlot;
    SameSlot(v, v', s, s);
    forall i: nat | i != s
      ensures (Used(v'.dir, i) <==> Used(v.dir, i)) && OwnCount(v', i) == OwnCount(v, i)
    {
      SameSlot(v, v', s, i);
      if Used(v.dir, i) {
        OtherSlotKept(v, v', s, i);
      }
    }
  }

  /** The clusters of all files. */
  ghost function TotalOwned(v: Volume, n: nat): nat {
    if n == 0 then 0 else TotalOwned(v, n - 1) + OwnCount(v, n - 1)
  }

  lemma {:induction false} TotalOneSlot(v: Volume, v': Volume, s: nat, n: nat)
    requires OwnersKept(v, v', s)
    ensures TotalOwned(v', n) + (if s < n then OwnCount(v, s) else 0) ==
            TotalOwned(v, n) + (if s < n then OwnCount(v', s) else 0)
  {
    if n > 0 {
      TotalOneSlot(v, v', s, n - 1);
    }
  }

  /** Free clusters and clusters owned by files, together. */
  ghost function Accounted(v: Volume): nat
    requires Shape(v)
  {
    FreeCount(v) + TotalOwned(v, |v.dir|)
  }

  lemma AccountedOneSlot(v: Volume, v': Volume, s: nat)
    requires Shape(v) && Shape(v') && OwnersKept(v, v', s) && s < |v.dir|
    requires FreeCount(v') + OwnCount(v', s) == FreeCount(v) + OwnCount(v, s)
    ensures Accounted(v') == Accounted(v)
  {
    TotalOneSlot(v, v', s, |v.dir|);
  }

  /** The clusters a name's file occupies. */
  ghost function OwnedBy(v: Volume, name: seq<byte>): seq<nat>
    requires Sane(v)
  {
    var s := Find(v.dir, name, 0);
    if s == |v.dir| then [] else Owned(v, s)
  }

  lemma ResetAccounted(v: Volume, s: nat, e: seq<byte>)
    requires Sane(v) && Used(v.dir, s) && |e| == 32 && (InUse(e) ==> FirstOf(e) == 0)
    ensures Shape(Reset(v, s, e)) && Accounted(Reset(v, s, e)) == Accounted(v)
  {
    ResetOnlySlot(v, s, e);
    var v' := Reset(v, s, e);
    OwnersFromSlot(v, v', s);
    NoChainAtZero(v.ty, v'.fat);
    AccountedOneSlot(v, v', s);
  }

  lemma CreateOver(v: Volume, s: nat)
    requires Sane(v) && Used(v.dir, s)
    ensures var v' := Reset(v, s, Truncated(v.dir[s]));
            && Sane(v') && Fresh(v', Handle(s, 0, 0, 0, 0), NameOf(v.dir[s]))
            && OthersKept(v, v', NameOf(v.dir[s])) && Accounted(v') == Accounted(v)
            && FreeCount(v') == FreeCount(v) + |Owned(v, s)|
  {
    var v' := Reset(v, s, Truncated(v.dir[s]));
    TruncatedIs(v.dir[s]);
    ResetSane(v, s, Truncated(v.dir[s]));
    ResetOnlySlot(v, s, Truncated(v.dir[s]));
    ResetAccounted(v, s, Truncated(v.dir[s]));
    forall n | n != NameOf(v.dir[s])
      ensures Lookup(v', n) == Lookup(v, n)
    {
      OneSlotLookup(v, v', s, n);
    }
  }

  lemma CreateNew(v: Volume, name: seq<byte>, s: nat)
    requires Sane(v) && Nameable(name) && Find(v.dir, name, 0) == |v.dir| && s == FirstVacant(v.dir, 0) < |v.dir|
    ensures var v' := v.(dir := v.dir[s := NewSlot(name)]);
            && Sane(v') && Fresh(v', Handle(s, 0, 0, 0, 0), name) && OthersKept(v, v', name)
            && Accounted(v') == Accounted(v)
  {
    var v' := v.(dir := v.dir[s := NewSlot(name)]);
    NewSlotIs(name);
    NoChainAtZero(v.ty, v.fat);
    LookupNone(v, name);
    assert OnlySlot(v, v', s);
    assert SlotFitsIn(v, v', s);
    OneSlotSane(v, v', s);
    OwnersFromSlot(v, v', s);
    AccountedOneSlot(v, v', s);
    forall n | n != name
      ensures Lookup(v', n) == Lookup(v, n)
    {
      OneSlotLookup(v, v', s, n);
    }
  }

  /**
   Creating a file keeps the volume well formed and every other file; it fails only when the name is new
   and no slot is vacant, and truncating gives back exactly the clusters the old file had.
   */
  lemma CreateKeeps(v: Volume, name: seq<byte>)
    requires Sane(v) && Nameable(name)
    ensures Create(v, name).NoRoom? <==> Lookup(v, name) == None && FirstVacant(v.dir, 0) == |v.dir|
    ensures var r := Create(v, name);
            r.Opened? ==>
              && Sane(r.vol) && Fresh(r.vol, r.h, name) && OthersKept(v, r.vol, name)
              && Accounted(r.vol) == Accounted(v)
              && FreeCount(r.vol) == FreeCount(v) + |OwnedBy(v, name)|
  {
    var s := Find(v.dir, name, 0);
    if s < |v.dir| {
      CreateOver(v, s);
    } else if FirstVacant(v.dir, 0) < |v.dir| {
      CreateNew(v, name, FirstVacant(v.dir, 0));
    }
  }

  lemma ErasedIs(e: seq<byte>)
    requires |e| == 32
    ensures !InUse(Erased(e)) && Vacant(Erased(e)) && Erased(e)[0] != 0
  {
  }

  /** By the bytes: a slot that carries the name, is not deleted and no label is marked deleted, and all others are as they were. */
  predicate Struck(dir: seq<seq<byte>>, dir': seq<seq<byte>>, name: seq<byte>)
    requires forall k :: 0 <= k < |dir| ==> |dir[k]| == 32
  {
    && |dir'| == |dir|
    && forall k :: 0 <= k < |dir| ==>
         dir'[k] == if dir[k][..11] == name && dir[k][0] != 0x00 && dir[k][0] != 0xE5 && dir[k][11] as int / 8 % 2 == 0
                    then dir[k][0 := 0xE5] else dir[k]
  }

  /** Unlinking removes the name, keeps every other file and slot, labels included, and frees exactly the file's clusters. */
  lemma UnlinkKeeps(v: Volume, name: seq<byte>)
    requires Sane(v) && |name| == 11
    ensures Unlink(v, name).Missing? <==> Lookup(v, name) == None
    ensures var r := Unlink(v, name);
            r.Removed? ==>
              && Sane(r.vol) && Lookup(r.vol, name) == None && OthersKept(v, r.vol, name) && Struck(v.dir, r.vol.dir, name)
              && Accounted(r.vol) == Accounted(v)
              && FreeCount(r.vol) == FreeCount(v) + |OwnedBy(v, name)|
  {
    var s := Find(v.dir, name, 0);
    if s < |v.dir| {
      var v' := Reset(v, s, Erased(v.dir[s]));
      ErasedIs(v.dir[s]);
      ResetSane(v, s, Erased(v.dir[s]));
      ResetOnlySlot(v, s, Erased(v.dir[s]));
      ResetAccounted(v, s, Erased(v.dir[s]));
      forall n | n != name
        ensures Lookup(v', n) == Lookup(v, n)
      {
        OneSlotLookup(v, v', s, n);
      }
      forall k: nat | Used(v'.dir, k)
        ensures NameOf(v'.dir[k]) != name
      {
        SameSlot(v, v', s, k);
        assert k != s ==> SlotsApart(v, k, s);
      }
      LookupNone(v', name);
      StruckAt(v, s);
    }
  }

  lemma StruckAt(v: Volume, s: nat)
    requires Sane(v) && Used(v.dir, s)
    ensures Struck(v.dir, v.dir[s := Erased(v.dir[s])], NameOf(v.dir[s]))
  {
    forall k | 0 <= k < |v.dir| && k != s && v.dir[k][..11] == NameOf(v.dir[s])
      ensures v.dir[k][0] == 0x00 || v.dir[k][0] == 0xE5 || v.dir[k][11] as int / 8 % 2 == 1
    {
      assert Used(v.dir, k) ==> SlotsApart(v, k, s);
    }
  }

  /** Nothing is struck out when no slot carries the name. */
  lemma NothingStruck(v: Volume, name: seq<byte>)
    requires Sane(v) && Lookup(v, name) == None
    ensures Struck(v.dir, v.dir, name)
  {
    LookupNone(v, name);
    forall k | 0 <= k < |v.dir| && v.dir[k][..11] == name
      ensures v.dir[k][0] == 0x00 || v.dir[k][0] == 0xE5 || v.dir[k][11] as int / 8 % 2 == 1
    {
      assert !Used(v.dir, k);
    }
  }
}
