/** Reading and seeking along a chain. */
module FatReads {
  import opened Bytes
  import opened FatTable
  import opened FatVolume
  import opened FatChains
  import opened FatWrites
  import opened FatSteps

  lemma {:induction false} ChainStep(ty: FatType, fat: seq<nat>, ch: seq<nat>, i: nat)
    requires IsChain(ty, fat, ch) && i < |ch|
    ensures 2 <= ch[i] < |fat| <= Eoc(ty)
    ensures if i == |ch| - 1 then fat[ch[i]] >= Eoc(ty) else fat[ch[i]] == ch[i + 1]
    decreases i
  {
    if i > 0 {
      ChainStep(ty, fat, ch[1..], i - 1);
    }
  }

  /** Cluster number `i` of a chain holds bytes `i * clusSize` on of the file. */
  lemma {:induction false} FlatWindow(v: Volume, ch: seq<nat>, i: nat)
    requires Shape(v) && IsChain(v.ty, v.fat, ch) && i < |ch|
    ensures 2 <= ch[i] < |v.fat| && Span(v.clusSize, i) + v.clusSize <= |Flat(v.data, ch)|
    ensures Flat(v.data, ch)[Span(v.clusSize, i)..Span(v.clusSize, i) + v.clusSize] == v.data[ch[i] - 2]
  {
    ChainMembers(v.ty, v.fat, ch);
    FlatPrefix(v, ch, |ch|, i);
    assert ch[..|ch|] == ch;
  }

  lemma {:induction false} FlatPrefix(v: Volume, ch: seq<nat>, m: nat, i: nat)
    requires Shape(v) && i < m <= |ch| && forall k :: 0 <= k < |ch| ==> 2 <= ch[k] < |v.fat|
    ensures Span(v.clusSize, i) + v.clusSize <= |Flat(v.data, ch[..m])|
    ensures Flat(v.data, ch[..m])[Span(v.clusSize, i)..Span(v.clusSize, i) + v.clusSize] == v.data[ch[i] - 2]
    decreases m
  {
    assert ch[..m][..m - 1] == ch[..m - 1];
    FlatLength(v, ch[..m - 1]);
    if i < m - 1 {
      FlatPrefix(v, ch, m - 1, i);
    }
  }

  /** The part of a read that stays inside one cluster. */
  lemma FilePiece(v: Volume, ch: seq<nat>, i: nat, o: nat, t: nat)
    requires Shape(v) && IsChain(v.ty, v.fat, ch) && i < |ch| && 0 < t <= v.clusSize - o
    ensures var at := Span(v.clusSize, i) + o;
            && at + t <= |Flat(v.data, ch)|
            && 2 <= ch[i] < |v.fat| && o + t <= |v.data[ch[i] - 2]|
            && v.data[ch[i] - 2][o..o + t] == Flat(v.data, ch)[at..at + t]
  {
    hide Flat;
    FlatWindow(v, ch, i);
    WindowInside(Flat(v.data, ch), Span(v.clusSize, i), v.clusSize, o, t);
  }

  lemma ChainFlat(v: Volume, ch: seq<nat>)
    requires Shape(v) && IsChain(v.ty, v.fat, ch)
    ensures |Flat(v.data, ch)| == Span(v.clusSize, |ch|)
  {
    ChainMembers(v.ty, v.fat, ch);
    FlatLength(v, ch);
  }

  /** How many of `max` bytes are left in a file. */
  function Left(pos: nat, size: nat, max: nat): (n: nat)
    ensures n <= max
  {
    if pos >= size then 0 else if max > size - pos then size - pos else max
  }

  /** A read that stopped at byte `from + done` of the chain, with `n - done` bytes to go, stands on cluster number `k`. */
  ghost predicate Standing(cs: nat, pos: nat, k: nat, from: nat, done: nat, n: nat)
    requires cs > 0
  {
    if done < n then from + done == Span(cs, k) + pos % cs
    else Span(cs, k) < from + n <= Span(cs, k + 1)
  }

  /** After a piece: on the same cluster, or with more to come at its end. */
  lemma PieceStands(cs: nat, pos: nat, k: nat, from: nat, done: nat, n: nat, chunk: nat)
    requires cs > 0 && done + chunk <= n && 0 < chunk && Standing(cs, pos, k, from, done, n) && pos % cs + chunk <= cs
    ensures Span(cs, k) + pos % cs == from + done
    ensures done + chunk == n || (pos + chunk) % cs != 0 ==> Standing(cs, pos + chunk, k, from, done + chunk, n)
    ensures done + chunk < n && (pos + chunk) % cs == 0 ==>
              Standing(cs, pos + chunk, k + 1, from, done + chunk, n) && Span(cs, k + 1) < from + n
  {
    NextOffset(cs, pos, chunk);
  }

  lemma TwoPieces(d: seq<byte>, at: nat, bytes: seq<byte>, a: nat, b: nat, c: nat)
    requires a <= b <= c <= |bytes| && at + c - a <= |d|
    ensures Splice(Splice(d, at, bytes[a..b]), at + b - a, bytes[b..c]) == Splice(d, at, bytes[a..c])
    ensures a == b ==> Splice(d, at, bytes[a..b]) == d
  {
    SpliceAdjacent(d, at, bytes[a..b], bytes[b..c]);
    assert bytes[a..b] + bytes[b..c] == bytes[a..c];
  }

  lemma InsideChain(cs: nat, k: nat, n: nat)
    requires Span(cs, k) < Span(cs, n)
    ensures k < n
  {
    if k >= n {
      SpanGrows(cs, n, k);
    }
  }

  /** A handle position: cluster number `i` of the chain, and how many bytes of the file lie behind it. */
  ghost predicate OnChain(v: Volume, ch: seq<nat>, i: nat, cur: nat) {
    Shape(v) && IsChain(v.ty, v.fat, ch) && i < |ch| && cur == ch[i]
  }

  /** Where byte `p` of a chain lies. */
  lemma BytePlace(cs: nat, p: nat, len: nat)
    requires cs > 0 && p <= Span(cs, len)
    ensures Span(cs, p / cs) + p % cs == p
    ensures p / cs < len <==> p < Span(cs, len)
    ensures p / cs <= len && (p == 0 <==> p / cs == 0 && p % cs == 0) && (len == 0 ==> p == 0)
  {
    var q := p / cs;
    SpanIsProduct(cs, q);
    assert p == cs * q + p % cs;
    if q < len {
      SpanGrows(cs, q + 1, len);
    } else {
      SpanGrows(cs, len, q);
      if len < q {
        SpanGrows(cs, len + 1, q);
      }
    }
  }
}
