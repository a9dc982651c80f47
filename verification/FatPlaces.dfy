/**
 A file structure whose directory place is not its file's own slot. Opening a file does not enter the place, so it is
 whatever the structure was last created with: slot `a`, or sector 0 when there was none, which stands here as `|dir|`.
 */
module FatPlaces {
  import opened Bytes
  import opened FatTable
  import opened FatVolume
  import opened FatFiles
  import opened FatOps
  import opened FatWrites

  /** fat_fflush of a structure whose place is `a`. */
  function EnteredAt(v: Volume, a: nat, h: Handle): (v': Volume)
    requires Shape(v) && a <= |v.dir|
    ensures Shape(v') && v' == v.(dir := v'.dir) && |v'.dir| == |v.dir|
    ensures forall i :: 0 <= i < |v.dir| && i != a ==> v'.dir[i] == v.dir[i]
  {
    if a < |v.dir| then Flush(v, h.(slot := a)) else v
  }

  /** A file's first cluster taken and entered at `a`. */
  function StartedAt(v: Volume, a: nat, c: nat): (v': Volume)
    requires Shape(v) && a <= |v.dir| && c < |v.fat|
    ensures Shape(v') && |v'.dir| == |v.dir| && v' == v.(fat := v.fat[c := EocMark(v.ty)], dir := v'.dir)
    ensures forall i :: 0 <= i < |v.dir| && i != a ==> v'.dir[i] == v.dir[i]
  {
    if a < |v.dir| then Started(v, a, c) else v.(fat := v.fat[c := EocMark(v.ty)])
  }

  lemma StartedEnds(v: Volume, a: nat, c: nat)
    requires Shape(v) && a <= |v.dir| && 2 <= c < |v.fat|
    ensures StartedAt(v, a, c).fat[c] >= Eoc(v.ty) && |StartedAt(v, a, c).fat| == |v.fat|
  {
  }

  /** fat_fwrite of a structure whose place is `a`. */
  function WriteAt(v: Volume, a: nat, h: Handle, data: seq<byte>): (r: (Volume, Handle, nat))
    requires Shape(v) && h.slot < |v.dir| && a <= |v.dir| && Writable(v, h, data)
    ensures Shape(r.0) && r.1.slot == h.slot && |r.0.dir| == |v.dir|
  {
    if h.first != 0 || data == [] then Write(v, h, data)
    else
      var c := FirstFree(v.fat, 2);
      if c == |v.fat| then (v, h, 0)
      else
        StartedEnds(v, a, c);
        Write(StartedAt(v, a, c), h.(first := c, cur := c), data)
  }

  /** With the file's own slot that is what it should be. */
  lemma OwnPlace(v: Volume, h: Handle, data: seq<byte>)
    requires Shape(v) && h.slot < |v.dir| && Writable(v, h, data)
    ensures WriteAt(v, h.slot, h, data) == Write(v, h, data)
    ensures var (v2, h2, _) := Write(v, h, data); EnteredAt(v2, h.slot, h2) == Flush(v2, h2)
  {
    hide Fill;
    var c := FirstFree(v.fat, 2);
    if h.first == 0 && c < |v.fat| {
      StartedEnds(v, h.slot, c);
    }
  }

  /** A write through another place leaves the file's own slot as it was; a file that has a cluster, the whole directory. */
  lemma OtherPlace(v: Volume, a: nat, h: Handle, data: seq<byte>)
    requires Shape(v) && h.slot < |v.dir| && a <= |v.dir| && a != h.slot && Writable(v, h, data)
    ensures var (v2, h2, _) := WriteAt(v, a, h, data);
            && v2.dir[h.slot] == v.dir[h.slot] && EnteredAt(v2, a, h2).dir[h.slot] == v.dir[h.slot]
            && (h.first != 0 ==> v2.dir == v.dir && h2.first == h.first && WriteAt(v, a, h, data) == Write(v, h, data))
  {
    hide Fill;
    var c := FirstFree(v.fat, 2);
    if h.first == 0 && c < |v.fat| {
      StartedEnds(v, a, c);
    }
  }

  // ---------- what an entry at another place does ----------

  lemma EnteredIs(e: seq<byte>, first: nat, size: nat)
    requires |e| == 32 && first < U32
    ensures var t := Entered(e, first, size);
            t[0] == e[0] && t[11] == e[11] && NameOf(t) == NameOf(e) && (first != 0 ==> FirstOf(t) == first)
  {
    var e1 := Put32(e, 28, size);
    assert forall i :: 0 <= i < 28 ==> e1[i] == e[i];
    assert NameOf(e1) == NameOf(e);
    SetFirstIs(e1, first);
  }

  lemma Put16Same(e: seq<byte>, k: nat, n: nat)
    requires k + 2 <= |e| && n % 0x1_0000 == Le16(e, k)
    ensures Put16(e, k, n) == e
  {
  }

  lemma Put32Same(e: seq<byte>, k: nat)
    requires k + 4 <= |e|
    ensures Put32(e, k, Le32(e, k)) == e
  {
    hide Put16, Le16;
    var n := Le32(e, k);
    assert n % 0x1_0000 == Le16(e, k) && n / 0x1_0000 == Le16(e, k + 2);
    Put16Same(e, k, n);
    Put16Same(e, k + 2, n / 0x1_0000);
  }

  /** Entering what is there changes nothing. */
  lemma EnteredSame(e: seq<byte>)
    requires |e| == 32
    ensures Entered(e, FirstOf(e), SizeOf(e)) == e
  {
    hide Put16, Put32, Le16, Le32;
    Put32Same(e, 28);
    Put16Same(e, 26, FirstOf(e));
    Put16Same(e, 20, FirstOf(e) / 0x1_0000);
  }

  /** In a slot that is not in use the volume does not show it. */
  lemma UnusedEntry(v: Volume, a: nat, h: Handle)
    requires Sane(v) && a <= |v.dir| && !Used(v.dir, a) && h.first < U32
    ensures Shape(v)
    ensures var v' := EnteredAt(v, a, h);
            && Sane(v') && (forall i :: Used(v'.dir, i) <==> Used(v.dir, i))
            && (forall n :: Lookup(v', n) == Lookup(v, n))
  {
    hide Lookup, Entered, FirstOf;
    var v' := EnteredAt(v, a, h);
    if a < |v.dir| {
      EnteredIs(v.dir[a], h.first, h.size);
      assert OnlySlot(v, v', a);
      StillTidy(v, v', a);
      OneSlotSane(v, v', a);
      forall n
        ensures Lookup(v', n) == Lookup(v, n)
      {
        OneSlotLookup(v, v', a, n);
      }
    }
  }

  lemma StillTidy(v: Volume, v': Volume, a: nat)
    requires Sane(v) && OnlySlot(v, v', a) && v'.dir[a][0] == v.dir[a][0]
    ensures Tidy(v'.dir)
  {
    assert forall i :: 0 <= i < |v.dir| ==> v'.dir[i][0] == v.dir[i][0];
  }

  /** In another file's slot it makes two files of one chain. */
  lemma TwoOwners(v: Volume, a: nat, h: Handle)
    requires Sane(v) && Used(v.dir, a) && Used(v.dir, h.slot) && a != h.slot
    requires h.first == FirstOf(v.dir[h.slot]) != 0 && h.first < U32
    ensures Shape(v) && !Sane(EnteredAt(v, a, h))
  {
    hide Entered;
    var v' := EnteredAt(v, a, h);
    EnteredIs(v.dir[a], h.first, h.size);
    assert SlotOk(v, h.slot);
    assert Used(v'.dir, a) && Used(v'.dir, h.slot);
    assert h.first in Owned(v', a) && h.first in Owned(v', h.slot);
    assert !SlotsApart(v', a, h.slot);
  }
}
