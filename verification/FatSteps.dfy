/** A write seen sector by sector: each piece leaves a smaller write to do. */
module FatSteps {
  import opened Bytes
  import opened Numbers
  import opened FatTable
  import opened FatVolume
  import opened FatWrites

  /** The result of a write with `n` more bytes counted. */
  function Plus(r: (Volume, Handle, nat), n: nat): (Volume, Handle, nat) {
    (r.0, r.1, r.2 + n)
  }

  /** Filling the cluster exactly to its end. */
  lemma FillToEnd(v: Volume, cur: nat, o: nat, data: seq<byte>, n: nat)
    requires Shape(v) && 2 <= cur < |v.fat| && v.fat[cur] >= Eoc(v.ty)
    requires 0 < n <= |data| && o + n == v.clusSize
    ensures var v1 := Placed(v, cur, o, data[..n]);
            var c := FirstFree(v.fat, 2);
            if n == |data| || c == |v.fat| then Fill(v, cur, o, data) == (v1, cur, n)
            else
              var v2 := v1.(fat := v1.fat[c := EocMark(v.ty)][cur := c]);
              Shape(v2) && v2.fat[c] >= Eoc(v.ty) &&
              var (v', cur', k) := Fill(v2, c, 0, data[n..]);
              Fill(v, cur, o, data) == (v', cur', n + k)
  {
  }

  /** Filling with the last bytes. */
  lemma FillLast(v: Volume, cur: nat, o: nat, data: seq<byte>)
    requires Shape(v) && 2 <= cur < |v.fat| && v.fat[cur] >= Eoc(v.ty)
    requires data != [] && o + |data| <= v.clusSize && o < v.clusSize
    ensures Fill(v, cur, o, data) == (Placed(v, cur, o, data), cur, |data|)
  {
    assert data[..|data|] == data;
  }

  /** A piece that stays inside the cluster. */
  lemma FillPiece(v: Volume, cur: nat, o: nat, data: seq<byte>, n: nat)
    requires Shape(v) && 2 <= cur < |v.fat| && v.fat[cur] >= Eoc(v.ty)
    requires 0 < n < |data| && o + n < v.clusSize
    ensures var (v', cur', k) := Fill(Placed(v, cur, o, data[..n]), cur, o + n, data[n..]);
            Fill(v, cur, o, data) == (v', cur', n + k)
  {
    hide Splice, Fill, Placed, Shape;
    var m := if |data| < v.clusSize - o then |data| else v.clusSize - o;
    var v1 := Placed(v, cur, o, data[..n]);
    TwicePlaced(v, cur, o, data[..n], data[n..][..m - n]);
    assert data[..n] + data[n..][..m - n] == data[..m];
    if |data| <= v.clusSize - o {
      FillLast(v, cur, o, data);
      FillLast(v1, cur, o + n, data[n..]);
      assert data[n..][..m - n] == data[n..] && data[..m] == data;
    } else {
      assert data[n..][m - n..] == data[m..];
      FillToEnd(v, cur, o, data, m);
      FillToEnd(v1, cur, o + n, data[n..], m - n);
    }
  }

  /** Only a write at the end of a chain goes past its cluster. */
  lemma PastCluster(v: Volume, h: Handle, data: seq<byte>, n: nat)
    requires Writable(v, h, data) && n < |data| && h.pos % v.clusSize + n == v.clusSize
    ensures AtEnd(v, h)
  {
  }

  lemma TwicePlaced(v: Volume, cur: nat, o: nat, t: seq<byte>, u: seq<byte>)
    requires Shape(v) && 2 <= cur < |v.fat| && o + |t| + |u| <= v.clusSize
    ensures Placed(Placed(v, cur, o, t), cur, o + |t|, u) == Placed(v, cur, o, t + u)
  {
    SpliceAdjacent(v.data[cur - 2], o, t, u);
    hide Splice;
  }

  lemma NextOffset(cs: nat, pos: nat, n: nat)
    requires cs > 0 && pos % cs + n <= cs
    ensures (pos + n) % cs == if pos % cs + n == cs then 0 else pos % cs + n
  {
    var q, o := pos / cs, pos % cs;
    assert pos == q * cs + o;
    if o + n == cs {
      assert pos + n == (q + 1) * cs + 0;
      DivUnique(pos + n, cs, q + 1, 0);
    } else {
      DivUnique(pos + n, cs, q, o + n);
    }
  }

  /** The write of an empty file starts by taking a cluster. */
  lemma WriteStarts(v: Volume, h: Handle, data: seq<byte>)
    requires Shape(v) && h.slot < |v.dir| && h.first == 0 && data != []
    ensures var c := FirstFree(v.fat, 2);
            if c == |v.fat| then Write(v, h, data) == (v, h, 0)
            else
              var (v1, h1) := (Started(v, h.slot, c), h.(first := c, cur := c));
              AtEnd(v1, h1) && Write(v, h, data) == Write(v1, h1, data)
  {
  }

  lemma WriteIsFill(v: Volume, h: Handle, data: seq<byte>)
    requires Shape(v) && h.slot < |v.dir| && h.first != 0 && AtEnd(v, h) && data != []
    ensures var (v', cur, k) := Fill(v, h.cur, h.pos % v.clusSize, data);
            Write(v, h, data) == (v', Moved(h, cur, k), k)
  {
  }

  /** The piece is all there is to write. */
  lemma WriteEnds(v: Volume, h: Handle, data: seq<byte>)
    requires Shape(v) && h.slot < |v.dir| && h.first != 0 && AtEnd(v, h) && data != []
    requires h.pos % v.clusSize + |data| <= v.clusSize
    ensures Write(v, h, data) == (Placed(v, h.cur, h.pos % v.clusSize, data), Moved(h, h.cur, |data|), |data|)
  {
    hide Fill, Splice, Write;
    FillLast(v, h.cur, h.pos % v.clusSize, data);
    WriteIsFill(v, h, data);
  }

  /** The piece stays inside the cluster and more follows. */
  lemma WriteInside(v: Volume, h: Handle, data: seq<byte>, n: nat)
    requires Shape(v) && h.slot < |v.dir| && h.first != 0 && AtEnd(v, h) && 0 < n < |data|
    requires h.pos % v.clusSize + n < v.clusSize
    ensures var v1 := Placed(v, h.cur, h.pos % v.clusSize, data[..n]);
            var h1 := Moved(h, h.cur, n);
            AtEnd(v1, h1) && Write(v, h, data) == Plus(Write(v1, h1, data[n..]), n)
  {
    hide Fill, Splice, Write;
    NextOffset(v.clusSize, h.pos, n);
    FillPiece(v, h.cur, h.pos % v.clusSize, data, n);
    WriteIsFill(v, h, data);
    WriteIsFill(Placed(v, h.cur, h.pos % v.clusSize, data[..n]), Moved(h, h.cur, n), data[n..]);
  }

  /** A piece of a write that ends in the cluster it starts in. */
  lemma WriteWithin(v: Volume, h: Handle, data: seq<byte>, n: nat)
    requires Shape(v) && h.slot < |v.dir| && h.first != 0 && Writable(v, h, data) && !AtEnd(v, h) && 0 < n <= |data|
    ensures var v1 := Placed(v, h.cur, h.pos % v.clusSize, data[..n]);
            var h1 := Moved(h, h.cur, n);
            Writable(v1, h1, data[n..]) && Write(v, h, data) == Plus(Write(v1, h1, data[n..]), n)
  {
    hide Splice, Placed;
    NextOffset(v.clusSize, h.pos, n);
    if n == |data| {
      assert data[..n] == data;
    } else {
      TwicePlaced(v, h.cur, h.pos % v.clusSize, data[..n], data[n..]);
      assert data[..n] + data[n..] == data;
    }
  }

  /** The piece is the last one or leaves room in the cluster. */
  lemma WritePauses(v: Volume, h: Handle, data: seq<byte>, n: nat)
    requires Shape(v) && h.slot < |v.dir| && h.first != 0 && Writable(v, h, data) && 0 < n <= |data|
    requires h.pos % v.clusSize + n <= v.clusSize && (n == |data| || (h.pos + n) % v.clusSize != 0)
    ensures var v1 := Placed(v, h.cur, h.pos % v.clusSize, data[..n]);
            var h1 := Moved(h, h.cur, n);
            Writable(v1, h1, data[n..]) && Write(v, h, data) == Plus(Write(v1, h1, data[n..]), n)
  {
    hide Placed;
    if !AtEnd(v, h) {
      WriteWithin(v, h, data, n);
    } else if n == |data| {
      assert data[..n] == data;
      WriteEnds(v, h, data);
    } else {
      NextOffset(v.clusSize, h.pos, n);
      WriteInside(v, h, data, n);
    }
  }

  /** The piece ends the cluster and more follows: the next cluster is the lowest free one, if any. */
  lemma WriteCrosses(v: Volume, h: Handle, data: seq<byte>, n: nat)
    requires Shape(v) && h.slot < |v.dir| && h.first != 0 && AtEnd(v, h) && 0 < n < |data|
    requires h.pos % v.clusSize + n == v.clusSize
    ensures var v1 := Placed(v, h.cur, h.pos % v.clusSize, data[..n]);
            var h1 := Moved(h, h.cur, n);
            var c := FirstFree(v.fat, 2);
            h1.pos % v.clusSize == 0 &&
            if c == |v.fat| then Write(v, h, data) == (v1, h1, n)
            else
              var v2 := v1.(fat := v1.fat[c := EocMark(v.ty)][h.cur := c]);
              var h2 := h1.(cur := c);
              Shape(v2) && AtEnd(v2, h2) && Write(v, h, data) == Plus(Write(v2, h2, data[n..]), n)
  {
    hide Fill, Splice, Write;
    NextOffset(v.clusSize, h.pos, n);
    FillToEnd(v, h.cur, h.pos % v.clusSize, data, n);
    WriteIsFill(v, h, data);
    var c := FirstFree(v.fat, 2);
    if c < |v.fat| {
      var v1 := Placed(v, h.cur, h.pos % v.clusSize, data[..n]);
      var v2 := v1.(fat := v1.fat[c := EocMark(v.ty)][h.cur := c]);
      WriteIsFill(v2, Moved(h, h.cur, n).(cur := c), data[n..]);
    }
  }
}
