/** Byte strings: little-endian fields, in-place patches, and cutting an area into equal records. */
module Bytes {
  type byte = x: int | 0 <= x < 256

  /** One past the largest value of the C type u32. */
  const U32 := 0x1_0000_0000

  const SECTOR := 512

  function Le16(s: seq<byte>, o: nat): (v: nat)
    requires o + 2 <= |s|
    ensures v < 0x10000
  {
    s[o] as int + 0x100 * s[o + 1] as int
  }

  function Le32(s: seq<byte>, o: nat): (v: nat)
    requires o + 4 <= |s|
    ensures v < U32
  {
    Le16(s, o) + 0x1_0000 * Le16(s, o + 2)
  }

  lemma Rest16(p: nat, r: nat)
    requires r < 0x1_0000
    ensures (0x1_0000 * p + r) % 0x1_0000 == r
  {
  }

  lemma Rest32(p: nat, r: nat)
    requires r < U32
    ensures (U32 * p + r) % U32 == r
  {
  }

  lemma Split16(v: nat)
    ensures v % 0x1_0000 == v % 0x100 + 0x100 * (v / 0x100 % 0x100)
  {
    var q, lo := v / 0x100, v % 0x100;
    var p, m := q / 0x100, q % 0x100;
    assert v == 0x1_0000 * p + (0x100 * m + lo);
    Rest16(p, 0x100 * m + lo);
  }

  lemma Split32(v: nat)
    ensures v % U32 == v % 0x1_0000 + 0x1_0000 * (v / 0x1_0000 % 0x1_0000)
  {
    var q, lo := v / 0x1_0000, v % 0x1_0000;
    var p, m := q / 0x1_0000, q % 0x1_0000;
    assert v == U32 * p + (0x1_0000 * m + lo);
    Rest32(p, 0x1_0000 * m + lo);
  }

  /** `s` with the low 16 bits of `v` stored at `o`. */
  function Put16(s: seq<byte>, o: nat, v: nat): (r: seq<byte>)
    requires o + 2 <= |s|
    ensures |r| == |s| && Le16(r, o) == v % 0x1_0000
    ensures forall i :: 0 <= i < |s| && !(o <= i < o + 2) ==> r[i] == s[i]
  {
    Split16(v);
    s[o := v % 0x100][o + 1 := v / 0x100 % 0x100]
  }

  /** `s` with the low 32 bits of `v` stored at `o`. */
  function Put32(s: seq<byte>, o: nat, v: nat): (r: seq<byte>)
    requires o + 4 <= |s|
    ensures |r| == |s| && Le32(r, o) == v % U32
    ensures forall i :: 0 <= i < |s| && !(o <= i < o + 4) ==> r[i] == s[i]
  {
    Split32(v);
    Put16(Put16(s, o, v), o + 2, v / 0x1_0000)
  }

  /** `s` with `t` written over it from position `o`. */
  function Splice(s: seq<byte>, o: nat, t: seq<byte>): (r: seq<byte>)
    requires o + |t| <= |s|
    ensures |r| == |s|
  {
    s[..o] + t + s[o + |t|..]
  }

  lemma Regroup(a: seq<byte>, b: seq<byte>, c: seq<byte>)
    ensures a + b + c == a + (b + c)
  {
  }

  /** What is left of `s` from position `i` on. */
  function From(s: seq<byte>, i: nat): seq<byte> {
    if i <= |s| then s[i..] else []
  }

  function Zeros(n: nat): (z: seq<byte>)
    ensures |z| == n
  {
    seq(n, _ => 0)
  }

  lemma SpliceAt(s: seq<byte>, o: nat, t: seq<byte>)
    requires o + |t| <= |s|
    ensures forall i :: 0 <= i < |s| ==> Splice(s, o, t)[i] == if o <= i < o + |t| then t[i - o] else s[i]
  {
  }

  /** A patch leaves every window beside it alone. */
  lemma SpliceBeside(s: seq<byte>, o: nat, t: seq<byte>, a: nat, b: nat)
    requires o + |t| <= |s| && a <= b <= |s| && (b <= o || o + |t| <= a)
    ensures Splice(s, o, t)[a..b] == s[a..b]
  {
    SpliceAt(s, o, t);
    hide Splice;
  }

  /** Two patches one after the other are one patch. */
  lemma SpliceAdjacent(s: seq<byte>, o: nat, t: seq<byte>, u: seq<byte>)
    requires o + |t| + |u| <= |s|
    ensures Splice(Splice(s, o, t), o + |t|, u) == Splice(s, o, t + u)
  {
  }

  /** A patch inside a patched window is a patch of the whole. */
  lemma SpliceWindow(s: seq<byte>, base: nat, len: nat, o: nat, t: seq<byte>)
    requires base + len <= |s| && o + |t| <= len
    ensures Splice(s, base, Splice(s[base..base + len], o, t)) == Splice(s, base + o, t)
    ensures Splice(s, base + o, t)[base..base + len] == Splice(s[base..base + len], o, t)
  {
  }

  lemma WindowInside(s: seq<byte>, base: nat, len: nat, o: nat, t: nat)
    requires base + len <= |s| && o + t <= len
    ensures s[base..base + len][o..o + t] == s[base + o..base + o + t]
  {
    var a, b, c := s[base..base + o], s[base + o..base + o + t], s[base + o + t..base + len];
    assert s[base..base + len] == a + b + c;
    assert (a + b + c)[o..o + t] == b;
  }

  lemma Put16Window(s: seq<byte>, base: nat, len: nat, i: nat, v: nat)
    requires base + len <= |s| && i + 2 <= len
    ensures Put16(s, base + i, v)[base..base + len] == Put16(s[base..base + len], i, v)
  {
  }

  lemma Put32Window(s: seq<byte>, base: nat, len: nat, i: nat, v: nat)
    requires base + len <= |s| && i + 4 <= len
    ensures Put32(s, base + i, v)[base..base + len] == Put32(s[base..base + len], i, v)
  {
    Put16Window(s, base, len, i, v);
    Put16Window(Put16(s, base + i, v), base, len, i + 2, v / 0x1_0000);
  }

  /** The first `n` records of `k` bytes each. */
  function Chunks(a: seq<byte>, k: nat, n: nat): (c: seq<seq<byte>>)
    requires n * k <= |a|
    ensures |c| == n
    decreases n
  {
    if n == 0 then [] else ChunksFit(a, k, n); [a[..k]] + Chunks(a[k..], k, n - 1)
  }

  lemma ChunksFit(a: seq<byte>, k: nat, n: nat)
    requires n > 0 && n * k <= |a|
    ensures k <= |a| && (n - 1) * k <= |a| - k && n * k == (n - 1) * k + k
  {
    assert n * k == (n - 1) * k + k;
    assert 0 <= (n - 1) * k;
  }

  lemma {:induction false} ChunkAt(a: seq<byte>, k: nat, n: nat, i: nat)
    requires i < n && n * k <= |a|
    ensures 0 <= k * i && k * i + k <= |a| && Chunks(a, k, n)[i] == a[k * i..k * i + k]
    decreases n
  {
    ChunksFit(a, k, n);
    if i > 0 {
      ChunkAt(a[k..], k, n - 1, i - 1);
      assert k * i == k * (i - 1) + k;
      assert a[k..][k * (i - 1)..k * (i - 1) + k] == a[k * i..k * i + k];
    }
  }

  lemma SpliceHead(a: seq<byte>, k: nat, o: nat, t: seq<byte>)
    requires o + |t| <= k <= |a|
    ensures Splice(a, o, t)[..k] == Splice(a[..k], o, t) && Splice(a, o, t)[k..] == a[k..]
  {
  }

  lemma SpliceTail(a: seq<byte>, k: nat, o: nat, t: seq<byte>)
    requires k <= o && o + |t| <= |a|
    ensures Splice(a, o, t)[..k] == a[..k] && Splice(a, o, t)[k..] == Splice(a[k..], o - k, t)
  {
  }

  lemma ChunksStep(a: seq<byte>, k: nat, n: nat)
    requires n > 0 && n * k <= |a|
    ensures k <= |a| && (n - 1) * k <= |a[k..]| && Chunks(a, k, n) == [a[..k]] + Chunks(a[k..], k, n - 1)
  {
    ChunksFit(a, k, n);
  }

  lemma Times(k: nat, i: nat)
    ensures i == 0 ==> k * i == 0
    ensures i > 0 ==> k * i == k * (i - 1) + k && k * (i - 1) >= 0
  {
  }

  /** A patch that stays inside record `i` changes that record and no other. */
  lemma {:induction false} ChunkSplice(a: seq<byte>, k: nat, n: nat, i: nat, o: nat, t: seq<byte>)
    requires i < n && n * k <= |a| && o + |t| <= k
    ensures 0 <= k * i && k * i + o + |t| <= |a| && |Chunks(a, k, n)[i]| == k
    ensures Chunks(Splice(a, k * i + o, t), k, n) == Chunks(a, k, n)[i := Splice(Chunks(a, k, n)[i], o, t)]
    decreases n
  {
    hide Splice, Chunks;
    ChunkAt(a, k, n, i);
    ChunksStep(a, k, n);
    ChunksStep(Splice(a, k * i + o, t), k, n);
    Times(k, i);
    if i == 0 {
      SpliceHead(a, k, o, t);
    } else {
      SpliceTail(a, k, k * i + o, t);
      ChunkSplice(a[k..], k, n - 1, i - 1, o, t);
    }
  }

  function Sector(d: seq<byte>, lba: nat): (s: seq<byte>)
    requires SECTOR * lba + SECTOR <= |d|
    ensures |s| == SECTOR
  {
    d[SECTOR * lba..SECTOR * lba + SECTOR]
  }

  function PutSector(d: seq<byte>, lba: nat, s: seq<byte>): (d': seq<byte>)
    requires SECTOR * lba + SECTOR <= |d| && |s| == SECTOR
    ensures |d'| == |d|
  {
    Splice(d, SECTOR * lba, s)
  }

  /** Read a sector, patch it, write it back: the same as patching the disk. */
  lemma SectorPatch(d: seq<byte>, lba: nat, o: nat, t: seq<byte>)
    requires SECTOR * lba + SECTOR <= |d| && o + |t| <= SECTOR
    ensures PutSector(d, lba, Splice(Sector(d, lba), o, t)) == Splice(d, SECTOR * lba + o, t)
  {
    SpliceWindow(d, SECTOR * lba, SECTOR, o, t);
  }

  lemma SectorAfterPut(d: seq<byte>, lba: nat, s: seq<byte>, l: nat)
    requires SECTOR * lba + SECTOR <= |d| && SECTOR * l + SECTOR <= |d| && |s| == SECTOR
    ensures Sector(PutSector(d, lba, s), l) == if l == lba then s else Sector(d, l)
  {
    if l == lba {
      SpliceAt(d, SECTOR * lba, s);
    } else {
      SpliceBeside(d, SECTOR * lba, s, SECTOR * l, SECTOR * l + SECTOR);
    }
  }

  lemma SpliceStart(d: seq<byte>, t: seq<byte>)
    requires |t| <= |d|
    ensures Splice(d, 0, t)[..|t|] == t
  {
  }

  /** The byte at `i`, or 0 behind the end. */
  function OrZero(s: seq<byte>, i: nat): (b: nat)
    ensures b < 0x100
  {
    if i < |s| then s[i] as nat else 0
  }
}
