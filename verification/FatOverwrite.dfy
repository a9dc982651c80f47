/** Writing inside a file: the bytes of one of its clusters are replaced. */
module FatOverwrite {
  import opened Bytes
  import opened FatVolume
  import opened FatChains
  import opened FatFiles
  import opened FatOps
  import opened FatWrites

  /** `bytes` with `t` written over it from `at` on, and made longer where it is too short. */
  function Over(bytes: seq<byte>, at: nat, t: seq<byte>): seq<byte>
    requires at <= |bytes|
  {
    bytes[..at] + t + From(bytes, at + |t|)
  }

  lemma OverEnd(bytes: seq<byte>, t: seq<byte>)
    ensures Over(bytes, |bytes|, t) == bytes + t
  {
    assert bytes[..|bytes|] == bytes;
  }

  lemma SpliceLeft(a: seq<byte>, b: seq<byte>, p: nat, t: seq<byte>)
    requires p + |t| <= |a|
    ensures Splice(a, p, t) + b == Splice(a + b, p, t)
  {
  }

  lemma SpliceRight(a: seq<byte>, b: seq<byte>, o: nat, t: seq<byte>)
    requires o + |t| <= |b|
    ensures a + Splice(b, o, t) == Splice(a + b, |a| + o, t)
  {
  }

  lemma {:induction false} PatchPrefix(v: Volume, ch: seq<nat>, m: nat, k: nat, o: nat, t: seq<byte>)
    requires Shape(v) && k < m <= |ch| && o + |t| <= v.clusSize
    requires forall i :: 0 <= i < |ch| ==> 2 <= ch[i] < |v.fat|
    requires forall i, j :: 0 <= i < j < |ch| ==> ch[i] != ch[j]
    ensures Span(v.clusSize, k) + o + |t| <= |Flat(v.data, ch[..m])|
    ensures Flat(Placed(v, ch[k], o, t).data, ch[..m]) == Splice(Flat(v.data, ch[..m]), Span(v.clusSize, k) + o, t)
    decreases m
  {
    hide Splice;
    var d1 := Placed(v, ch[k], o, t).data;
    var before, c := ch[..m - 1], ch[m - 1];
    assert ch[..m] == before + [c];
    FlatSnoc(v.data, before, c);
    FlatSnoc(d1, before, c);
    FlatLength(v, before);
    if k < m - 1 {
      PatchPrefix(v, ch, m - 1, k, o, t);
      SpliceLeft(Flat(v.data, before), ClusterAt(v.data, c), Span(v.clusSize, k) + o, t);
    } else {
      FlatFrame(v.data, d1, before);
      SpliceRight(Flat(v.data, before), ClusterAt(v.data, c), o, t);
    }
  }

  /** Bytes put into cluster number `k` of a chain are put into the file behind `k` clusters. */
  lemma FlatPatch(v: Volume, ch: seq<nat>, k: nat, o: nat, t: seq<byte>)
    requires Shape(v) && IsChain(v.ty, v.fat, ch) && k < |ch| && o + |t| <= v.clusSize
    ensures 2 <= ch[k] < |v.fat| && Span(v.clusSize, k) + o + |t| <= |Flat(v.data, ch)|
    ensures Flat(Placed(v, ch[k], o, t).data, ch) == Splice(Flat(v.data, ch), Span(v.clusSize, k) + o, t)
  {
    ChainMembers(v.ty, v.fat, ch);
    ChainAcyclic(v.ty, v.fat, ch);
    PatchPrefix(v, ch, |ch|, k, o, t);
    assert ch[..|ch|] == ch;
  }

  lemma PlacedKept(v: Volume, ch: seq<nat>, k: nat, o: nat, t: seq<byte>)
    requires Shape(v) && k < |ch| && 2 <= ch[k] < |v.fat| && o + |t| <= v.clusSize
    ensures DataKept(v.data, ch, Placed(v, ch[k], o, t).data)
  {
  }

  /** Bytes put into a cluster of slot `s`'s chain. */
  lemma PlacedKeeps(v: Volume, s: nat, k: nat, o: nat, t: seq<byte>)
    requires Sane(v) && Used(v.dir, s) && k < |Owned(v, s)| && o + |t| <= v.clusSize
    ensures 2 <= Owned(v, s)[k] < |v.fat|
    ensures var v1 := Placed(v, Owned(v, s)[k], o, t);
            && Sane(v1) && OnlySlot(v, v1, s) && SlotKept(v, v1, s) && Owned(v1, s) == Owned(v, s)
            && Span(v.clusSize, k) + o + |t| <= |Flat(v.data, Owned(v, s))|
            && Flat(v1.data, Owned(v, s)) == Splice(Flat(v.data, Owned(v, s)), Span(v.clusSize, k) + o, t)
  {
    hide IsChain, Flat, Splice, Grew, DataKept, OthersKept, OwnersKept, Lookup;
    var ch := Owned(v, s);
    FlatPatch(v, ch, k, o, t);
    GrewRefl(v.ty, v.fat, ch);
    PlacedKept(v, ch, k, o, t);
    FillPlaced(v, s, Placed(v, ch[k], o, t), ch);
    OthersFromSlot(v, Placed(v, ch[k], o, t), s);
  }
}
