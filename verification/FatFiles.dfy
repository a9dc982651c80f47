/** The files of a volume: which clusters each slot owns, what a name means, and what one slot's change keeps. */
module FatFiles {
  import opened Bytes
  import opened Wrappers
  import opened FatTable
  import opened FatVolume
  import opened FatChains

  /** What a name stands for: the attribute byte and the file's bytes. */
  datatype File = File(attr: byte, bytes: seq<byte>)

  ghost predicate HasChain(ty: FatType, fat: seq<nat>, first: nat) {
    exists ch :: IsChain(ty, fat, ch) && ch[0] == first
  }

  /** The chain that starts at `first`, empty when there is none. */
  ghost function ChainOf(ty: FatType, fat: seq<nat>, first: nat): (ch: seq<nat>)
    ensures HasChain(ty, fat, first) ==> IsChain(ty, fat, ch) && ch[0] == first
    ensures !HasChain(ty, fat, first) ==> ch == []
  {
    if HasChain(ty, fat, first) then
      var ch :| IsChain(ty, fat, ch) && ch[0] == first;
      ch
    else []
  }

  lemma ChainOfIs(ty: FatType, fat: seq<nat>, ch: seq<nat>)
    requires IsChain(ty, fat, ch)
    ensures HasChain(ty, fat, ch[0]) && ChainOf(ty, fat, ch[0]) == ch
  {
    ChainUnique(ty, fat, ch, ChainOf(ty, fat, ch[0]));
  }

  lemma NoChainAtZero(ty: FatType, fat: seq<nat>)
    ensures !HasChain(ty, fat, 0) && ChainOf(ty, fat, 0) == []
  {
  }

  /** A table that agrees on the clusters of a chain has the same chain. */
  lemma ChainOfFrame(ty: FatType, fat: seq<nat>, fat': seq<nat>, first: nat)
    requires |fat'| == |fat| && HasChain(ty, fat, first)
    requires forall c :: c in ChainOf(ty, fat, first) && c < |fat| ==> fat'[c] == fat[c]
    ensures HasChain(ty, fat', first) && ChainOf(ty, fat', first) == ChainOf(ty, fat, first)
  {
    var ch := ChainOf(ty, fat, first);
    ChainMembers(ty, fat, ch);
    ChainFrame(ty, fat, fat', ch);
    ChainOfIs(ty, fat', ch);
  }

  predicate Used(dir: seq<seq<byte>>, i: nat) {
    i < |dir| && |dir[i]| == 32 && InUse(dir[i])
  }

  /** The clusters slot `i` owns. */
  ghost function Owned(v: Volume, i: nat): seq<nat>
    requires Used(v.dir, i)
  {
    ChainOf(v.ty, v.fat, FirstOf(v.dir[i]))
  }

  ghost predicate SlotOk(v: Volume, i: nat)
    requires Used(v.dir, i)
  {
    && (FirstOf(v.dir[i]) != 0 ==> HasChain(v.ty, v.fat, FirstOf(v.dir[i])))
    && SizeOf(v.dir[i]) <= Span(v.clusSize, |Owned(v, i)|)
  }

  ghost predicate Apart(a: seq<nat>, b: seq<nat>) {
    forall c :: c in a ==> c !in b
  }

  /** Nothing but never-used slots follows a never-used slot. */
  ghost predicate Tidy(dir: seq<seq<byte>>) {
    forall i, j :: 0 <= i < j < |dir| && |dir[i]| == |dir[j]| == 32 && dir[i][0] == 0 ==> dir[j][0] == 0
  }

  ghost predicate SlotsApart(v: Volume, i: nat, j: nat)
    requires Used(v.dir, i) && Used(v.dir, j)
  {
    Apart(Owned(v, i), Owned(v, j)) && NameOf(v.dir[i]) != NameOf(v.dir[j])
  }

  /**
   A well-formed volume: every file has a chain that ends and is long enough for its size, chains of
   different files are disjoint, and names are unique.
   */
  ghost predicate Sane(v: Volume) {
    && Shape(v) && Tidy(v.dir)
    && (forall i: nat :: Used(v.dir, i) ==> SlotOk(v, i))
    && (forall i, j :: Used(v.dir, i) && Used(v.dir, j) && i != j ==> SlotsApart(v, i, j))
  }

  ghost function Content(v: Volume, i: nat): seq<byte>
    requires Shape(v) && Used(v.dir, i) && SlotOk(v, i)
  {
    ContentFits(v, i);
    Flat(v.data, Owned(v, i))[..SizeOf(v.dir[i])]
  }

  lemma ContentFits(v: Volume, i: nat)
    requires Shape(v) && Used(v.dir, i) && SlotOk(v, i)
    ensures SizeOf(v.dir[i]) <= |Flat(v.data, Owned(v, i))|
  {
    var ch := Owned(v, i);
    if ch != [] {
      ChainMembers(v.ty, v.fat, ch);
    }
    FlatLength(v, ch);
  }

  /** The abstract value of a volume: what each name stands for. */
  ghost function Lookup(v: Volume, name: seq<byte>): Option<File>
    requires Sane(v)
  {
    var s := Find(v.dir, name, 0);
    if s == |v.dir| then None else Some(File(v.dir[s][11], Content(v, s)))
  }

  // ---------- finding ----------

  lemma {:induction false} NextInUseSkips(dir: seq<seq<byte>>, i: nat, k: nat)
    requires (forall k :: 0 <= k < |dir| ==> |dir[k]| == 32) && Tidy(dir) && i <= k && Used(dir, k)
    ensures NextInUse(dir, i) <= k
    decreases |dir| - i
  {
    if i < k && dir[i][0] != 0 && !InUse(dir[i]) {
      NextInUseSkips(dir, i + 1, k);
    }
  }

  /** A used slot whose name no other used slot carries is the one found. */
  lemma {:induction false} FindIs(dir: seq<seq<byte>>, i: nat, s: nat)
    requires (forall k :: 0 <= k < |dir| ==> |dir[k]| == 32) && Tidy(dir) && i <= s && Used(dir, s)
    requires forall k :: i <= k < s && Used(dir, k) ==> NameOf(dir[k]) != NameOf(dir[s])
    ensures Find(dir, NameOf(dir[s]), i) == s
    decreases |dir| - i
  {
    NextInUseSkips(dir, i, s);
    var k := NextInUse(dir, i);
    if k < s {
      assert Used(dir, k);
      FindIs(dir, k + 1, s);
    }
  }

  lemma {:induction false} FindNone(dir: seq<seq<byte>>, i: nat, name: seq<byte>)
    requires (forall k :: 0 <= k < |dir| ==> |dir[k]| == 32) && i <= |dir|
    requires forall k :: i <= k < |dir| && Used(dir, k) ==> NameOf(dir[k]) != name
    ensures Find(dir, name, i) == |dir|
    decreases |dir| - i
  {
    var k := NextInUse(dir, i);
    if k < |dir| {
      assert Used(dir, k);
      FindNone(dir, k + 1, name);
    }
  }

  lemma LookupSlot(v: Volume, s: nat)
    requires Sane(v) && Used(v.dir, s)
    ensures Lookup(v, NameOf(v.dir[s])) == Some(File(v.dir[s][11], Content(v, s)))
    ensures Find(v.dir, NameOf(v.dir[s]), 0) == s
  {
    forall k | 0 <= k < s && Used(v.dir, k)
      ensures NameOf(v.dir[k]) != NameOf(v.dir[s])
    {
      assert SlotsApart(v, k, s);
    }
    FindIs(v.dir, 0, s);
  }

  lemma LookupNone(v: Volume, name: seq<byte>)
    requires Sane(v)
    ensures Lookup(v, name) == None <==> forall k: nat :: Used(v.dir, k) ==> NameOf(v.dir[k]) != name
  {
    if forall k: nat :: Used(v.dir, k) ==> NameOf(v.dir[k]) != name {
      FindNone(v.dir, 0, name);
    } else {
      var k: nat :| Used(v.dir, k) && NameOf(v.dir[k]) == name;
      LookupSlot(v, k);
    }
  }

  // ---------- changing one slot ----------

  /** `v'` differs from `v` in slot `s` and in clusters no other slot owns. */
  ghost predicate OnlySlot(v: Volume, v': Volume, s: nat)
    requires Sane(v)
  {
    && Shape(v') && v'.ty == v.ty && v'.clusSize == v.clusSize && |v'.fat| == |v.fat|
    && |v'.dir| == |v.dir| && s < |v.dir|
    && (forall i :: 0 <= i < |v.dir| && i != s ==> v'.dir[i] == v.dir[i])
    && (forall i, c :: Used(v.dir, i) && i != s && c in Owned(v, i) && 2 <= c < |v.fat| ==>
          v'.fat[c] == v.fat[c] && v'.data[c - 2] == v.data[c - 2])
  }

  lemma OtherSlotKept(v: Volume, v': Volume, s: nat, i: nat)
    requires Sane(v) && OnlySlot(v, v', s) && Used(v.dir, i) && i != s
    ensures Used(v'.dir, i) && Owned(v', i) == Owned(v, i) && SlotOk(v', i) && Content(v', i) == Content(v, i)
  {
    assert SlotOk(v, i);
    var first := FirstOf(v.dir[i]);
    assert v'.dir[i] == v.dir[i];
    if HasChain(v.ty, v.fat, first) {
      ChainMembers(v.ty, v.fat, Owned(v, i));
      ChainOfFrame(v.ty, v.fat, v'.fat, first);
      FlatFrame(v.data, v'.data, Owned(v, i));
    } else {
      NoChainAtZero(v.ty, v.fat);
      NoChainAtZero(v'.ty, v'.fat);
    }
  }

  /** What the changed slot must satisfy for the volume to stay well formed. */
  ghost predicate SlotFitsIn(v: Volume, v': Volume, s: nat)
    requires Sane(v) && OnlySlot(v, v', s)
  {
    && Tidy(v'.dir)
    && (Used(v'.dir, s) ==>
          && SlotOk(v', s)
          && forall i: nat :: Used(v.dir, i) && i != s ==>
               Apart(Owned(v', s), Owned(v, i)) && NameOf(v'.dir[s]) != NameOf(v.dir[i]))
  }

  lemma OneSlotSane(v: Volume, v': Volume, s: nat)
    requires Sane(v) && OnlySlot(v, v', s) && SlotFitsIn(v, v', s)
    ensures Sane(v')
  {
    forall i | Used(v'.dir, i)
      ensures SlotOk(v', i)
    {
      if i != s {
        assert Used(v.dir, i);
        OtherSlotKept(v, v', s, i);
      }
    }
    forall i, j | Used(v'.dir, i) && Used(v'.dir, j) && i != j
      ensures SlotsApart(v', i, j)
    {
      OneSlotPair(v, v', s, i, j);
    }
  }

  lemma OneSlotPair(v: Volume, v': Volume, s: nat, i: nat, j: nat)
    requires Sane(v) && OnlySlot(v, v', s) && SlotFitsIn(v, v', s)
    requires Used(v'.dir, i) && Used(v'.dir, j) && i != j
    ensures SlotsApart(v', i, j)
  {
    if i != s {
      assert v'.dir[i] == v.dir[i];
      OtherSlotKept(v, v', s, i);
    }
    if j != s {
      assert v'.dir[j] == v.dir[j];
      OtherSlotKept(v, v', s, j);
    }
    if i != s && j != s {
      assert SlotsApart(v, i, j);
    }
  }

  /** Every name other than the slot's old and new ones keeps its meaning. */
  lemma OneSlotLookup(v: Volume, v': Volume, s: nat, name: seq<byte>)
    requires Sane(v) && OnlySlot(v, v', s) && Sane(v')
    requires Used(v.dir, s) ==> name != NameOf(v.dir[s])
    requires Used(v'.dir, s) ==> name != NameOf(v'.dir[s])
    ensures Lookup(v', name) == Lookup(v, name)
  {
    hide Lookup, Sane, OnlySlot;
    LookupNone(v, name);
    LookupNone(v', name);
    if k: nat :| Used(v.dir, k) && NameOf(v.dir[k]) == name {
      OtherSlotKept(v, v', s, k);
      SameSlot(v, v', s, k);
      LookupSlot(v, k);
      LookupSlot(v', k);
    } else {
      forall k: nat | Used(v'.dir, k)
        ensures NameOf(v'.dir[k]) != name
      {
        SameSlot(v, v', s, k);
      }
    }
  }

  lemma SameSlot(v: Volume, v': Volume, s: nat, k: nat)
    requires Sane(v) && OnlySlot(v, v', s)
    ensures k != s && k < |v.dir| ==> v'.dir[k] == v.dir[k]
    ensures |v'.dir| == |v.dir|
  {
  }
}
