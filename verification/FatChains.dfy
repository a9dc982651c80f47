/** Cluster chains: uniqueness, freeing, contents, and what a write adds to them. */
module FatChains {
  import opened Bytes
  import opened FatTable
  import opened FatVolume

  /** `ch` is a whole chain: each entry names the next cluster and the last one ends the chain. */
  ghost predicate IsChain(ty: FatType, fat: seq<nat>, ch: seq<nat>): (b: bool)
    ensures b ==> |ch| > 0 && 2 <= ch[|ch| - 1] < |fat| && fat[ch[|ch| - 1]] >= Eoc(ty)
  {
    && |fat| <= Eoc(ty)
    && |ch| > 0
    && 2 <= ch[0] < |fat|
    && if |ch| == 1 then fat[ch[0]] >= Eoc(ty) else fat[ch[0]] == ch[1] && IsChain(ty, fat, ch[1..])
  }

  /** Every cluster of a chain is in the table and not free. */
  lemma {:induction false} ChainMembers(ty: FatType, fat: seq<nat>, ch: seq<nat>)
    requires IsChain(ty, fat, ch)
    ensures forall i :: 0 <= i < |ch| ==> 2 <= ch[i] < |fat| && fat[ch[i]] != 0
  {
    if |ch| > 1 {
      ChainMembers(ty, fat, ch[1..]);
    }
  }

  lemma {:induction false} ChainUnique(ty: FatType, fat: seq<nat>, a: seq<nat>, b: seq<nat>)
    requires IsChain(ty, fat, a) && IsChain(ty, fat, b) && a[0] == b[0]
    ensures a == b
    decreases |a|
  {
    if |a| > 1 && |b| > 1 {
      ChainUnique(ty, fat, a[1..], b[1..]);
      assert a == [a[0]] + a[1..] && b == [b[0]] + b[1..];
    }
  }

  lemma {:induction false} ChainSuffix(ty: FatType, fat: seq<nat>, ch: seq<nat>, i: nat)
    requires IsChain(ty, fat, ch) && i < |ch|
    ensures IsChain(ty, fat, ch[i..])
    decreases |ch|
  {
    if i > 0 {
      ChainSuffix(ty, fat, ch[1..], i - 1);
      assert ch[1..][i - 1..] == ch[i..];
    } else {
      assert ch[i..] == ch;
    }
  }

  /** A chain that ends is acyclic. */
  lemma ChainAcyclic(ty: FatType, fat: seq<nat>, ch: seq<nat>)
    requires IsChain(ty, fat, ch)
    ensures forall i, j :: 0 <= i < j < |ch| ==> ch[i] != ch[j]
  {
    forall i, j | 0 <= i < j < |ch|
      ensures ch[i] != ch[j]
    {
      ChainSuffix(ty, fat, ch, i);
      ChainSuffix(ty, fat, ch, j);
      if ch[i] == ch[j] {
        ChainUnique(ty, fat, ch[i..], ch[j..]);
      }
    }
  }

  lemma {:induction false} ChainFrame(ty: FatType, fat: seq<nat>, fat': seq<nat>, ch: seq<nat>)
    requires IsChain(ty, fat, ch) && |fat'| == |fat|
    requires forall i :: 0 <= i < |ch| ==> ch[i] < |fat| && fat'[ch[i]] == fat[ch[i]]
    ensures IsChain(ty, fat', ch)
  {
    if |ch| > 1 {
      ChainFrame(ty, fat, fat', ch[1..]);
    }
  }

  // ---------- freeing ----------

  /** Freeing from the head of a chain frees that chain and nothing else. */
  lemma {:induction false} ReleaseChain(ty: FatType, fat: seq<nat>, ch: seq<nat>)
    requires IsChain(ty, fat, ch)
    ensures forall x :: 0 <= x < |fat| ==> Release(ty, fat, ch[0])[x] == if x in ch then 0 else fat[x]
    ensures FreeFrom(Release(ty, fat, ch[0]), 2) == FreeFrom(fat, 2) + |ch|
    decreases |ch|
  {
    var c := ch[0];
    ChainAcyclic(ty, fat, ch);
    ChainMembers(ty, fat, ch);
    FreeFromUpdate(fat, c, 0, 2);
    if |ch| > 1 {
      var fat1 := fat[c := 0];
      assert ch == [c] + ch[1..];
      ChainFrame(ty, fat, fat1, ch[1..]);
      ReleaseChain(ty, fat1, ch[1..]);
    }
  }

  /** A walk along table entries that stays inside the table. */
  ghost predicate IsWalk(ty: FatType, fat: seq<nat>, w: seq<nat>) {
    && |w| > 0
    && (forall i :: 0 <= i < |w| ==> 2 <= w[i] < |fat|)
    && (forall i :: 0 <= i < |w| - 1 ==> fat[w[i]] < Eoc(ty) && fat[w[i]] == w[i + 1])
  }

  ghost predicate Reaches(ty: FatType, fat: seq<nat>, c: nat, x: nat) {
    exists w :: IsWalk(ty, fat, w) && w[0] == c && w[|w| - 1] == x
  }

  /** A walk can be cut down to one that never comes back to its first cluster. */
  lemma {:induction false} LastVisit(ty: FatType, fat: seq<nat>, w: seq<nat>) returns (u: seq<nat>)
    requires IsWalk(ty, fat, w)
    ensures IsWalk(ty, fat, u) && u[0] == w[0] && u[|u| - 1] == w[|w| - 1] && w[0] !in u[1..]
    decreases |w|
  {
    if w[0] in w[1..] {
      var i :| 0 <= i < |w| - 1 && w[1..][i] == w[0];
      u := LastVisit(ty, fat, w[i + 1..]);
    } else {
      u := w;
    }
  }

  lemma StepForward(ty: FatType, fat: seq<nat>, c: nat, x: nat)
    requires 2 <= c < |fat| && x != c && Reaches(ty, fat, c, x)
    ensures fat[c] < Eoc(ty) && Reaches(ty, fat[c := 0], fat[c], x)
  {
    var w :| IsWalk(ty, fat, w) && w[0] == c && w[|w| - 1] == x;
    var u := LastVisit(ty, fat, w);
    assert fat[u[0]] == u[1];
    var t := u[1..];
    assert forall i :: 0 <= i < |t| ==> t[i] != c;
    assert IsWalk(ty, fat[c := 0], t) && t[0] == fat[c] && t[|t| - 1] == x;
  }

  lemma StepBack(ty: FatType, fat: seq<nat>, c: nat, x: nat)
    requires 2 <= c < |fat| && x != c && fat[c] < Eoc(ty) && Reaches(ty, fat[c := 0], fat[c], x)
    ensures Reaches(ty, fat, c, x)
  {
    var fat1 := fat[c := 0];
    var w :| IsWalk(ty, fat1, w) && w[0] == fat[c] && w[|w| - 1] == x;
    forall i | 0 <= i < |w|
      ensures w[i] != c
    {
      assert i < |w| - 1 ==> fat1[w[i]] == w[i + 1];
    }
    var u := [c] + w;
    assert forall i :: 0 <= i < |u| - 1 ==> fat[u[i]] < Eoc(ty) && fat[u[i]] == u[i + 1];
    assert IsWalk(ty, fat, u) && u[0] == c && u[|u| - 1] == x;
  }

  /** On any table, cyclic ones included, freeing ends and zeroes exactly the clusters the walk reaches. */
  lemma {:induction false} ReleaseZeroesReachable(ty: FatType, fat: seq<nat>, c: nat, x: nat)
    requires x < |fat|
    ensures Release(ty, fat, c)[x] == if Reaches(ty, fat, c, x) then 0 else fat[x]
    decreases |fat| - FreeFrom(fat, 0), c
  {
    if c < 2 || c >= |fat| {
      assert !Reaches(ty, fat, c, x);
    } else {
      FreeFromUpdate(fat, c, 0, 0);
      var fat1 := fat[c := 0];
      if x == c {
        assert IsWalk(ty, fat, [c]) && [c][0] == c;
      } else {
        if Reaches(ty, fat, c, x) {
          StepForward(ty, fat, c, x);
        }
        if fat[c] < Eoc(ty) && Reaches(ty, fat1, fat[c], x) {
          StepBack(ty, fat, c, x);
        }
      }
      if fat[c] < Eoc(ty) {
        assert fat[c] == 0 ==> fat1 == fat;
        ReleaseZeroesReachable(ty, fat1, fat[c], x);
      }
    }
  }

  // ---------- contents ----------

  /** The bytes in `n` clusters of `cs` bytes. */
  function Span(cs: nat, n: nat): (b: nat)
    ensures n == 0 ==> b == 0
  {
    if n == 0 then 0 else Span(cs, n - 1) + cs
  }

  lemma {:induction false} SpanIsProduct(cs: nat, n: nat)
    ensures Span(cs, n) == n * cs
  {
    if n > 0 {
      SpanIsProduct(cs, n - 1);
      assert n * cs == (n - 1) * cs + cs;
    }
  }

  function ClusterAt(data: seq<seq<byte>>, c: nat): seq<byte> {
    if 2 <= c < |data| + 2 then data[c - 2] else []
  }

  /** The clusters of `ch` end to end. */
  function Flat(data: seq<seq<byte>>, ch: seq<nat>): seq<byte> {
    if ch == [] then [] else Flat(data, ch[..|ch| - 1]) + ClusterAt(data, ch[|ch| - 1])
  }

  lemma {:induction false} FlatLength(v: Volume, ch: seq<nat>)
    requires Shape(v) && forall i :: 0 <= i < |ch| ==> 2 <= ch[i] < |v.fat|
    ensures |Flat(v.data, ch)| == Span(v.clusSize, |ch|)
    decreases |ch|
  {
    if ch != [] {
      FlatLength(v, ch[..|ch| - 1]);
    }
  }

  lemma {:induction false} FlatFrame(data: seq<seq<byte>>, data': seq<seq<byte>>, ch: seq<nat>)
    requires |data'| == |data|
    requires forall i :: 0 <= i < |ch| ==> ClusterAt(data', ch[i]) == ClusterAt(data, ch[i])
    ensures Flat(data', ch) == Flat(data, ch)
    decreases |ch|
  {
    if ch != [] {
      FlatFrame(data, data', ch[..|ch| - 1]);
    }
  }

  lemma FlatSnoc(data: seq<seq<byte>>, ch: seq<nat>, c: nat)
    ensures Flat(data, ch + [c]) == Flat(data, ch) + ClusterAt(data, c)
  {
    assert (ch + [c])[..|ch|] == ch;
  }

  // ---------- writing ----------

  /** `ch` grew to `ch'` by taking free clusters; no entry outside `ch'` changed. */
  ghost predicate Grew(ty: FatType, fat: seq<nat>, ch: seq<nat>, fat': seq<nat>, ch': seq<nat>) {
    && |fat'| == |fat| >= 2
    && IsChain(ty, fat, ch) && IsChain(ty, fat', ch') && ch <= ch'
    && (forall c :: c in ch' && c !in ch ==> c < |fat| && fat[c] == 0)
    && (forall x :: 0 <= x < |fat| && x !in ch' ==> fat'[x] == fat[x])
    && FreeFrom(fat', 2) + |ch'| == FreeFrom(fat, 2) + |ch|
  }

  /** No cluster outside `ch` changed. */
  ghost predicate DataKept(data: seq<seq<byte>>, ch: seq<nat>, data': seq<seq<byte>>) {
    && |data'| == |data|
    && forall d :: 0 <= d < |data| && d + 2 !in ch ==> data'[d] == data[d]
  }

  /** `f1` keeps the first `at` bytes of `f0` and has `t` behind them. */
  ghost predicate Appended(f0: seq<byte>, at: nat, t: seq<byte>, f1: seq<byte>) {
    at <= |f0| && at + |t| <= |f1| && f1[..at + |t|] == f0[..at] + t
  }

  /** How many of `n` bytes fit after offset `o` of a last cluster. */
  function Fits(cs: nat, free: nat, o: nat, n: nat): nat
    requires o <= cs
  {
    var room := cs - o + Span(cs, free);
    if n < room then n else room
  }

  lemma GrewTrans(ty: FatType, fat: seq<nat>, a: seq<nat>, fat1: seq<nat>, b: seq<nat>, fat2: seq<nat>, c: seq<nat>)
    requires Grew(ty, fat, a, fat1, b) && Grew(ty, fat1, b, fat2, c)
    ensures Grew(ty, fat, a, fat2, c)
  {
    ChainMembers(ty, fat1, b);
    assert forall x :: x in a ==> x in b;
    assert forall x :: x in b ==> x in c;
  }

  lemma GrewRefl(ty: FatType, fat: seq<nat>, ch: seq<nat>)
    requires IsChain(ty, fat, ch)
    ensures Grew(ty, fat, ch, fat, ch)
  {
  }

  /** Two pieces of `data` written one after the other. */
  lemma AppendedGlue(f0: seq<byte>, at: nat, data: seq<byte>, n: nat, f1: seq<byte>, tail: seq<byte>, k: nat, f2: seq<byte>)
    requires n <= |data| && k <= |data| - n && |f1| == at + n
    requires Appended(f0, at, data[..n], f1) && Appended(f1 + tail, at + n, data[n..][..k], f2)
    ensures Appended(f0, at, data[..n + k], f2)
  {
    assert f1[..at + n] == f1 && (f1 + tail)[..at + n] == f1;
    assert data[..n] + data[n..][..k] == data[..n + k];
    assert f0[..at] + data[..n] + data[n..][..k] == f0[..at] + data[..n + k];
  }

  lemma AppendedInLast(before: seq<byte>, x: seq<byte>, o: nat, t: seq<byte>)
    requires o + |t| <= |x|
    ensures Appended(before + x, |before| + o, t, before + Splice(x, o, t))
  {
    assert (before + x)[..|before| + o] == before + x[..o];
    assert (before + Splice(x, o, t))[..|before| + o + |t|] == before + x[..o] + t;
  }

  /** First step of a write: bytes go into the last cluster. */
  lemma WriteLast(v: Volume, ch: seq<nat>, o: nat, t: seq<byte>)
    requires Shape(v) && IsChain(v.ty, v.fat, ch) && o + |t| <= v.clusSize
    ensures var d := ch[|ch| - 1] - 2;
            var data1 := v.data[d := Splice(v.data[d], o, t)];
            && Appended(Flat(v.data, ch), Span(v.clusSize, |ch| - 1) + o, t, Flat(data1, ch))
            && |Flat(data1, ch)| == Span(v.clusSize, |ch|)
  {
    hide Appended, Splice;
    var m := |ch| - 1;
    var d := ch[m] - 2;
    var data1 := v.data[d := Splice(v.data[d], o, t)];
    ChainAcyclic(v.ty, v.fat, ch);
    ChainMembers(v.ty, v.fat, ch);
    FlatFrame(v.data, data1, ch[..m]);
    FlatLength(v, ch[..m]);
    AppendedInLast(Flat(v.data, ch[..m]), v.data[d], o, t);
  }

  /** Second step: a free cluster is marked as the end and linked behind the chain. */
  lemma LinkGrows(ty: FatType, fat: seq<nat>, ch: seq<nat>, c: nat)
    requires IsChain(ty, fat, ch) && 2 <= c < |fat| && fat[c] == 0
    ensures var fat2 := fat[c := EocMark(ty)][ch[|ch| - 1] := c];
            && IsChain(ty, fat2, ch + [c]) && FreeFrom(fat2, 2) + 1 == FreeFrom(fat, 2)
            && Grew(ty, fat, ch, fat2, ch + [c])
  {
    var last := ch[|ch| - 1];
    var fat2 := fat[c := EocMark(ty)][last := c];
    ChainAcyclic(ty, fat, ch);
    ChainMembers(ty, fat, ch);
    LinkChain(ty, fat, fat2, ch, c);
    FreeFromUpdate(fat, c, EocMark(ty), 2);
    FreeFromUpdate(fat[c := EocMark(ty)], last, c, 2);
  }

  /** A chain whose last entry is redirected to a new end mark is one longer. */
  lemma {:induction false} LinkChain(ty: FatType, fat: seq<nat>, fat': seq<nat>, ch: seq<nat>, c: nat)
    requires IsChain(ty, fat, ch) && |fat'| == |fat| && 2 <= c < |fat| && fat'[c] >= Eoc(ty)
    requires forall i :: 0 <= i < |ch| ==> ch[i] < |fat| && fat'[ch[i]] == if i == |ch| - 1 then c else fat[ch[i]]
    ensures IsChain(ty, fat', ch + [c])
  {
    assert (ch + [c])[1..] == ch[1..] + [c];
    if |ch| > 1 {
      LinkChain(ty, fat, fat', ch[1..], c);
    } else {
      assert IsChain(ty, fat', [c]);
    }
  }

  /** The chain after `n` bytes are written from offset `o` of the last cluster of `ch`: lowest free clusters first. */
  ghost function FillChain(ty: FatType, cs: nat, fat: seq<nat>, ch: seq<nat>, o: nat, n: nat): (ch': seq<nat>)
    requires IsChain(ty, fat, ch) && o < cs
    ensures |ch'| > 0
    decreases n
  {
    var c := FirstFree(fat, 2);
    if n <= cs - o || c == |fat| then ch
    else
      LinkGrows(ty, fat, ch, c);
      FillChain(ty, cs, fat[c := EocMark(ty)][ch[|ch| - 1] := c], ch + [c], 0, n - (cs - o))
  }

  /** The volume after the last cluster `last` is filled up from offset `o` and the free cluster `c` linked behind it. */
  function Stepped(v: Volume, last: nat, o: nat, data: seq<byte>, c: nat): Volume
    requires Shape(v) && 2 <= last < |v.fat| && o < v.clusSize < |data| + o && c < |v.fat|
  {
    v.(fat := v.fat[c := EocMark(v.ty)][last := c],
       data := v.data[last - 2 := Splice(v.data[last - 2], o, data[..v.clusSize - o])])
  }

  lemma FillUnfold(v: Volume, last: nat, o: nat, data: seq<byte>)
    requires Shape(v) && 2 <= last < |v.fat| && v.fat[last] >= Eoc(v.ty) && o < v.clusSize < |data| + o
    requires FirstFree(v.fat, 2) < |v.fat|
    ensures var c := FirstFree(v.fat, 2);
            var v2 := Stepped(v, last, o, data, c);
            && Shape(v2) && v2.fat[c] >= Eoc(v.ty) && data[v.clusSize - o..] != []
            && var (v3, cur, k) := Fill(v2, c, 0, data[v.clusSize - o..]);
               Fill(v, last, o, data) == (v3, cur, v.clusSize - o + k)
    ensures DataKept(v.data, [last], Stepped(v, last, o, data, FirstFree(v.fat, 2)).data)
  {
  }

  lemma FillStops(v: Volume, last: nat, o: nat, data: seq<byte>)
    requires Shape(v) && 2 <= last < |v.fat| && v.fat[last] >= Eoc(v.ty) && o < v.clusSize && data != []
    requires |data| <= v.clusSize - o || FirstFree(v.fat, 2) == |v.fat|
    ensures var n := if |data| < v.clusSize - o then |data| else v.clusSize - o;
            Fill(v, last, o, data) == (v.(data := v.data[last - 2 := Splice(v.data[last - 2], o, data[..n])]), last, n)
    ensures DataKept(v.data, [last], Fill(v, last, o, data).0.data)
  {
  }

  predicate Grows(v: Volume, o: nat, data: seq<byte>)
    requires Shape(v)
  {
    o < v.clusSize < |data| + o && FirstFree(v.fat, 2) < |v.fat|
  }

  lemma {:induction false} FillTable(v: Volume, ch: seq<nat>, o: nat, data: seq<byte>)
    requires Shape(v) && IsChain(v.ty, v.fat, ch) && o < v.clusSize && data != []
    ensures var (v', cur', _) := Fill(v, ch[|ch| - 1], o, data);
            var ch' := FillChain(v.ty, v.clusSize, v.fat, ch, o, |data|);
            Grew(v.ty, v.fat, ch, v'.fat, ch') && cur' == ch'[|ch'| - 1]
    decreases |data|
  {
    hide Shape, Fill, Grew, IsChain;
    var last := ch[|ch| - 1];
    if Grows(v, o, data) {
      var c := FirstFree(v.fat, 2);
      LinkGrows(v.ty, v.fat, ch, c);
      FillUnfold(v, last, o, data);
      var v2 := Stepped(v, last, o, data, c);
      FillTable(v2, ch + [c], 0, data[v.clusSize - o..]);
      GrewTrans(v.ty, v.fat, ch, v2.fat, ch + [c], Fill(v2, c, 0, data[v.clusSize - o..]).0.fat,
                FillChain(v.ty, v.clusSize, v2.fat, ch + [c], 0, |data| - (v.clusSize - o)));
    } else {
      FillStops(v, last, o, data);
      GrewRefl(v.ty, v.fat, ch);
    }
  }

  lemma KeptTrans(d: seq<seq<byte>>, last: nat, d1: seq<seq<byte>>, ch: seq<nat>, i: nat, d2: seq<seq<byte>>)
    requires DataKept(d, [last], d1) && (d2 == d1 || DataKept(d1, ch, d2)) && i < |ch| && ch[i] == last
    ensures DataKept(d, ch, d2)
  {
  }

  lemma {:induction false} FillData(v: Volume, ch: seq<nat>, o: nat, data: seq<byte>)
    requires Shape(v) && IsChain(v.ty, v.fat, ch) && o < v.clusSize && data != []
    ensures var v' := Fill(v, ch[|ch| - 1], o, data).0;
            var ch' := FillChain(v.ty, v.clusSize, v.fat, ch, o, |data|);
            ch <= ch' && DataKept(v.data, ch', v'.data)
    decreases |data|
  {
    hide Shape, Fill, Grew, IsChain, DataKept;
    var last := ch[|ch| - 1];
    if Grows(v, o, data) {
      var n := v.clusSize - o;
      var c := FirstFree(v.fat, 2);
      LinkGrows(v.ty, v.fat, ch, c);
      FillUnfold(v, last, o, data);
      var v2 := Stepped(v, last, o, data, c);
      FillData(v2, ch + [c], 0, data[n..]);
      var ch' := FillChain(v.ty, v.clusSize, v2.fat, ch + [c], 0, |data| - n);
      assert ch' == FillChain(v.ty, v.clusSize, v.fat, ch, o, |data|);
      assert ch <= ch + [c] && ch'[|ch| - 1] == (ch + [c])[|ch| - 1] == last;
      KeptTrans(v.data, last, v2.data, ch', |ch| - 1, Fill(v2, c, 0, data[n..]).0.data);
    } else {
      FillStops(v, last, o, data);
      KeptTrans(v.data, last, Fill(v, last, o, data).0.data, ch, |ch| - 1, Fill(v, last, o, data).0.data);
    }
  }

  /** The bytes written follow the bytes that were before the offset, across all the clusters taken. */
  lemma {:induction false} FillBytes(v: Volume, ch: seq<nat>, o: nat, data: seq<byte>)
    requires Shape(v) && IsChain(v.ty, v.fat, ch) && o < v.clusSize && data != []
    ensures var (v', _, k) := Fill(v, ch[|ch| - 1], o, data);
            var ch' := FillChain(v.ty, v.clusSize, v.fat, ch, o, |data|);
            Appended(Flat(v.data, ch), Span(v.clusSize, |ch| - 1) + o, data[..k], Flat(v'.data, ch'))
    decreases |data|
  {
    hide Shape, Fill, Flat, Appended, Grew, IsChain;
    var last := ch[|ch| - 1];
    if Grows(v, o, data) {
      var n := v.clusSize - o;
      var c := FirstFree(v.fat, 2);
      WriteLast(v, ch, o, data[..n]);
      LinkGrows(v.ty, v.fat, ch, c);
      FillUnfold(v, last, o, data);
      var v2 := Stepped(v, last, o, data, c);
      FillBytes(v2, ch + [c], 0, data[n..]);
      var (v3, _, k) := Fill(v2, c, 0, data[n..]);
      var ch' := FillChain(v.ty, v.clusSize, v2.fat, ch + [c], 0, |data| - n);
      FlatSnoc(v2.data, ch, c);
      AppendedGlue(Flat(v.data, ch), Span(v.clusSize, |ch| - 1) + o, data, n, Flat(v2.data, ch), ClusterAt(v2.data, c), k,
                   Flat(v3.data, ch'));
    } else {
      FillStops(v, last, o, data);
      WriteLast(v, ch, o, data[..if |data| < v.clusSize - o then |data| else v.clusSize - o]);
    }
  }

  /** How much is written: all of it, or what the last cluster and the free clusters hold. */
  lemma {:induction false} FillCount(v: Volume, ch: seq<nat>, o: nat, data: seq<byte>)
    requires Shape(v) && IsChain(v.ty, v.fat, ch) && o < v.clusSize && data != []
    ensures Fill(v, ch[|ch| - 1], o, data).2 == Fits(v.clusSize, FreeCount(v), o, |data|)
    decreases |data|
  {
    hide Shape, Fill, Grew, IsChain;
    var last := ch[|ch| - 1];
    FreeIffCount(v.fat, 2);
    if Grows(v, o, data) {
      var c := FirstFree(v.fat, 2);
      LinkGrows(v.ty, v.fat, ch, c);
      FillUnfold(v, last, o, data);
      FillCount(Stepped(v, last, o, data, c), ch + [c], 0, data[v.clusSize - o..]);
    } else {
      FillStops(v, last, o, data);
    }
  }

  lemma FitsMore(cs: nat, free: nat, o: nat, n: nat)
    requires o < cs
    ensures n <= cs - o || free == 0 ==> Fits(cs, free, o, n) == if n < cs - o then n else cs - o
    ensures n > cs - o && free > 0 ==> Fits(cs, free, o, n) == cs - o + Fits(cs, free - 1, 0, n - (cs - o))
    ensures n > 0 ==> 0 < Fits(cs, free, o, n) <= n
  {
  }

  /** The chain is exactly long enough for the bytes written. */
  lemma {:induction false} FillChainTight(ty: FatType, cs: nat, fat: seq<nat>, ch: seq<nat>, o: nat, n: nat)
    requires IsChain(ty, fat, ch) && o < cs && n > 0
    ensures var ch' := FillChain(ty, cs, fat, ch, o, n);
            Span(cs, |ch'| - 1) < Span(cs, |ch| - 1) + o + Fits(cs, FreeFrom(fat, 2), o, n) <= Span(cs, |ch'|)
    decreases n
  {
    hide Grew, IsChain, Fits, EocMark;
    var c := FirstFree(fat, 2);
    FreeIffCount(fat, 2);
    FitsMore(cs, FreeFrom(fat, 2), o, n);
    if cs - o < n && c < |fat| {
      LinkGrows(ty, fat, ch, c);
      FillChainTight(ty, cs, fat[c := EocMark(ty)][ch[|ch| - 1] := c], ch + [c], 0, n - (cs - o));
    }
  }
}
