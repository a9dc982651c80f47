/**
 A mounted FAT12/16 volume as the driver's callers see it: table entries as numbers, 32-byte root
 slots and data clusters. Every driver operation is stated here as a function on volumes.
 */
module FatVolume {
  import opened Bytes
  import opened FatTable

  datatype Volume = Volume(
    ty: FatType,
    clusSize: nat,
    fat: seq<nat>,
    dir: seq<seq<byte>>,
    data: seq<seq<byte>>)

  ghost predicate Shape(v: Volume) {
    && v.clusSize > 0
    && |v.fat| == |v.data| + 2 <= Eoc(v.ty)
    && (forall c :: 0 <= c < |v.fat| ==> v.fat[c] <= EocMark(v.ty))
    && (forall i :: 0 <= i < |v.dir| ==> |v.dir[i]| == 32)
    && (forall c :: 0 <= c < |v.data| ==> |v.data[c]| == v.clusSize)
  }

  /** Sizes as on FAT12 and FAT16 volumes, whose files are all shorter than 2^32 bytes. */
  predicate Small(v: Volume) {
    !v.ty.Fat32? && v.clusSize <= 0x1_0000
  }

  // ---------- directory slots ----------

  const DELETED: byte := 0xE5
  const ARCHIVE: byte := 0x20

  function NameOf(e: seq<byte>): (n: seq<byte>)
    requires |e| == 32
    ensures |n| == 11
  {
    e[..11]
  }

  function FirstOf(e: seq<byte>): nat
    requires |e| == 32
  {
    Le16(e, 20) * 0x1_0000 + Le16(e, 26)
  }

  function SizeOf(e: seq<byte>): nat
    requires |e| == 32
  {
    Le32(e, 28)
  }

  predicate HasAttr(e: seq<byte>, bit: nat)
    requires |e| == 32 && bit > 0
  {
    e[11] as int / bit % 2 == 1
  }

  /** A slot a directory walk returns: not free, not deleted, not a label or long-name piece. */
  predicate InUse(e: seq<byte>)
    requires |e| == 32
  {
    e[0] != 0 && e[0] != DELETED && !HasAttr(e, 8)
  }

  predicate Vacant(e: seq<byte>)
    requires |e| == 32
  {
    e[0] == 0 || e[0] == DELETED
  }

  /** The next slot a walk from `i` returns; the walk stops at a never-used slot. */
  function NextInUse(dir: seq<seq<byte>>, i: nat): (r: nat)
    requires forall k :: 0 <= k < |dir| ==> |dir[k]| == 32
    requires i <= |dir|
    ensures i <= r <= |dir|
    ensures r < |dir| ==> InUse(dir[r])
    decreases |dir| - i
  {
    if i == |dir| || dir[i][0] == 0 then |dir|
    else if InUse(dir[i]) then i
    else NextInUse(dir, i + 1)
  }

  /** By the bytes: from slot `i` on, `k` is the first slot that is not deleted and no label, and no slot up to it was never used. */
  predicate StopsAt(dir: seq<seq<byte>>, i: nat, k: int)
    requires forall k :: 0 <= k < |dir| ==> |dir[k]| == 32
  {
    && i <= k < |dir|
    && (forall j :: i <= j <= k ==> dir[j][0] != 0x00)
    && dir[k][0] != 0xE5 && dir[k][11] as int / 8 % 2 == 0
    && forall j :: i <= j < k ==> dir[j][0] == 0xE5 || dir[j][11] as int / 8 % 2 == 1
  }

  /** The walk stops exactly there. */
  lemma {:induction false} NextInUseIff(dir: seq<seq<byte>>, i: nat, k: int)
    requires (forall k :: 0 <= k < |dir| ==> |dir[k]| == 32) && i <= |dir|
    ensures StopsAt(dir, i, k) <==> k == NextInUse(dir, i) < |dir|
    decreases |dir| - i
  {
    if i < |dir| && dir[i][0] != 0 && !InUse(dir[i]) {
      NextInUseIff(dir, i + 1, k);
    }
  }

  /** The first returned slot that carries `name`, or `|dir|`. */
  function Find(dir: seq<seq<byte>>, name: seq<byte>, i: nat): (r: nat)
    requires forall k :: 0 <= k < |dir| ==> |dir[k]| == 32
    requires i <= |dir|
    ensures i <= r <= |dir|
    ensures r < |dir| ==> InUse(dir[r]) && NameOf(dir[r]) == name
    decreases |dir| - i
  {
    var k := NextInUse(dir, i);
    if k == |dir| || NameOf(dir[k]) == name then k else Find(dir, name, k + 1)
  }

  function FirstVacant(dir: seq<seq<byte>>, i: nat): (r: nat)
    requires forall k :: 0 <= k < |dir| ==> |dir[k]| == 32
    requires i <= |dir|
    ensures i <= r <= |dir|
    ensures r < |dir| ==> Vacant(dir[r])
    ensures forall k :: i <= k < r ==> !Vacant(dir[k])
    decreases |dir| - i
  {
    if i == |dir| || Vacant(dir[i]) then i else FirstVacant(dir, i + 1)
  }

  function SetFirst(e: seq<byte>, c: nat): (r: seq<byte>)
    requires |e| == 32
    ensures |r| == 32
  {
    Put16(Put16(e, 26, c), 20, c / 0x1_0000)
  }

  /** A slot with a file's size entered and, if it has one, its first cluster. */
  function Entered(e: seq<byte>, first: nat, size: nat): (r: seq<byte>)
    requires |e| == 32
    ensures |r| == 32
  {
    var e1 := Put32(e, 28, size);
    if first != 0 then SetFirst(e1, first) else e1
  }

  /** What creating over an existing slot leaves of it. */
  function Truncated(e: seq<byte>): (r: seq<byte>)
    requires |e| == 32
    ensures |r| == 32
  {
    Put16(Put16(Put32(e, 28, 0), 20, 0), 26, 0)[11 := ARCHIVE]
  }

  function Erased(e: seq<byte>): (r: seq<byte>)
    requires |e| == 32
    ensures |r| == 32
  {
    e[0 := DELETED]
  }

  function NewSlot(name: seq<byte>): (r: seq<byte>)
    requires |name| == 11
    ensures |r| == 32
  {
    name + [ARCHIVE] + Zeros(20)
  }

  // ---------- the table ----------

  /** The lowest free cluster from `c` on, or `|fat|`. */
  function FirstFree(fat: seq<nat>, c: nat): (r: nat)
    requires c <= |fat|
    ensures c <= r <= |fat|
    ensures r < |fat| ==> fat[r] == 0
    decreases |fat| - c
  {
    if c == |fat| || fat[c] == 0 then c else FirstFree(fat, c + 1)
  }

  function FreeFrom(fat: seq<nat>, c: nat): (n: nat)
    requires c <= |fat|
    ensures n <= |fat| - c
    decreases |fat| - c
  {
    if c == |fat| then 0 else (if fat[c] == 0 then 1 else 0) + FreeFrom(fat, c + 1)
  }

  function FreeCount(v: Volume): nat
    requires |v.fat| >= 2
  {
    FreeFrom(v.fat, 2)
  }

  lemma {:induction false} FreeFromUpdate(fat: seq<nat>, x: nat, w: nat, c: nat)
    requires c <= |fat| && x < |fat|
    ensures FreeFrom(fat[x := w], c) ==
            FreeFrom(fat, c) + (if x < c then 0 else (if w == 0 then 1 else 0) - (if fat[x] == 0 then 1 else 0))
    decreases |fat| - c
  {
    if c < |fat| {
      FreeFromUpdate(fat, x, w, c + 1);
    }
  }

  lemma {:induction false} FreeIffCount(fat: seq<nat>, c: nat)
    requires c <= |fat|
    ensures FreeFrom(fat, c) == 0 <==> FirstFree(fat, c) == |fat|
    decreases |fat| - c
  {
    if c < |fat| && fat[c] != 0 {
      FreeIffCount(fat, c + 1);
    }
  }

  /** The table after a chain walk from `c` that frees each cluster it visits. */
  function Release(ty: FatType, fat: seq<nat>, c: nat): (r: seq<nat>)
    ensures |r| == |fat|
    decreases |fat| - FreeFrom(fat, 0), c
  {
    if c < 2 || c >= |fat| then fat
    else
      FreeFromUpdate(fat, c, 0, 0);
      if fat[c] >= Eoc(ty) then fat[c := 0]
      else if fat[c] == 0 then assert fat[c := 0] == fat; Release(ty, fat[c := 0], 0)
      else Release(ty, fat[c := 0], fat[c])
  }

  // ---------- open files ----------

  /** The fields of fat_file_t, with the slot number in place of dir_lba and dir_off. */
  datatype Handle = Handle(slot: nat, first: nat, cur: nat, pos: nat, size: nat)

  /** Writing from offset `o` of cluster `cur`, the last of its chain, and growing the chain. */
  function Fill(v: Volume, cur: nat, o: nat, data: seq<byte>): (r: (Volume, nat, nat))
    requires Shape(v) && 2 <= cur < |v.fat| && v.fat[cur] >= Eoc(v.ty) && o < v.clusSize && data != []
    ensures Shape(r.0) && r.0.(fat := v.fat, data := v.data) == v
    ensures |r.0.fat| == |v.fat| && 2 <= r.1 < |v.fat| && r.0.fat[r.1] >= Eoc(v.ty) && 0 < r.2 <= |data|
    decreases |data|
  {
    var n := if |data| < v.clusSize - o then |data| else v.clusSize - o;
    var v1 := v.(data := v.data[cur - 2 := Splice(v.data[cur - 2], o, data[..n])]);
    var c := FirstFree(v1.fat, 2);
    if n == |data| || c == |v1.fat| then (v1, cur, n)
    else
      var v2 := v1.(fat := v1.fat[c := EocMark(v.ty)][cur := c]);
      var (v3, cur', k) := Fill(v2, c, 0, data[n..]);
      (v3, cur', n + k)
  }

  predicate AtEnd(v: Volume, h: Handle) {
    h.first == 0 || (2 <= h.cur < |v.fat| && v.fat[h.cur] >= Eoc(v.ty))
  }

  /** A write at the end of a chain, or one that ends in the cluster it starts in, wherever that is in its chain. */
  predicate Writable(v: Volume, h: Handle, data: seq<byte>) {
    v.clusSize > 0 && (AtEnd(v, h) || (2 <= h.cur < |v.fat| && h.pos % v.clusSize + |data| <= v.clusSize))
  }

  /** `t` put at offset `o` of cluster `cur`. */
  function Placed(v: Volume, cur: nat, o: nat, t: seq<byte>): (v': Volume)
    requires Shape(v) && 2 <= cur < |v.fat| && o + |t| <= v.clusSize
    ensures Shape(v') && v'.(data := v.data) == v
  {
    v.(data := v.data[cur - 2 := Splice(v.data[cur - 2], o, t)])
  }

  /** One fat_fwrite: new volume, new handle, bytes written. */
  function Write(v: Volume, h: Handle, data: seq<byte>): (r: (Volume, Handle, nat))
    requires Shape(v) && h.slot < |v.dir| && Writable(v, h, data)
    ensures Shape(r.0) && r.1.slot == h.slot && |r.0.dir| == |v.dir| && |r.0.fat| == |v.fat|
    ensures AtEnd(v, h) ==> AtEnd(r.0, r.1)
    ensures r.2 <= |data| && r.0.clusSize == v.clusSize && r.0.ty == v.ty
  {
    if data == [] then (v, h, 0)
    else if h.first == 0 then
      var c := FirstFree(v.fat, 2);
      if c == |v.fat| then (v, h, 0)
      else
        var v1 := v.(fat := v.fat[c := EocMark(v.ty)], dir := v.dir[h.slot := SetFirst(v.dir[h.slot], c)]);
        var (v2, cur, k) := Fill(v1, c, h.pos % v.clusSize, data);
        (v2, Moved(h.(first := c), cur, k), k)
    else if AtEnd(v, h) then
      var (v2, cur, k) := Fill(v, h.cur, h.pos % v.clusSize, data);
      (v2, Moved(h, cur, k), k)
    else (Placed(v, h.cur, h.pos % v.clusSize, data), Moved(h, h.cur, |data|), |data|)
  }

  function Moved(h: Handle, cur: nat, k: nat): Handle {
    h.(cur := cur, pos := h.pos + k, size := if h.pos + k > h.size then h.pos + k else h.size)
  }

  /** One fat_fflush. */
  function Flush(v: Volume, h: Handle): (r: Volume)
    requires Shape(v) && h.slot < |v.dir|
    ensures Shape(r)
  {
    v.(dir := v.dir[h.slot := Entered(v.dir[h.slot], h.first, h.size)])
  }

  lemma {:induction false} ReleaseShape(v: Volume, c: nat)
    requires Shape(v)
    ensures Shape(v.(fat := Release(v.ty, v.fat, c)))
    decreases |v.fat| - FreeFrom(v.fat, 0), c
  {
    if 2 <= c < |v.fat| {
      FreeFromUpdate(v.fat, c, 0, 0);
      var v1 := v.(fat := v.fat[c := 0]);
      if v.fat[c] < Eoc(v.ty) {
        ReleaseShape(v1, v.fat[c]);
      }
    }
  }

  datatype Created = NoRoom | Opened(vol: Volume, h: Handle)

  /** One fat_fcreate under the raw name `name`. */
  function Create(v: Volume, name: seq<byte>): (r: Created)
    requires Shape(v) && |name| == 11
    ensures r.Opened? ==> Shape(r.vol) && r.h.slot < |v.dir| == |r.vol.dir| && |r.vol.fat| == |v.fat|
    ensures r.Opened? ==> r.h == Handle(r.h.slot, 0, 0, 0, 0) && r.vol.clusSize == v.clusSize && r.vol.ty == v.ty
  {
    var s := Find(v.dir, name, 0);
    if s < |v.dir| then
      var v1 := v.(dir := v.dir[s := Truncated(v.dir[s])]);
      ReleaseShape(v1, FirstOf(v.dir[s]));
      Opened(v1.(fat := Release(v.ty, v.fat, FirstOf(v.dir[s]))), Handle(s, 0, 0, 0, 0))
    else
      var s := FirstVacant(v.dir, 0);
      if s == |v.dir| then NoRoom
      else Opened(v.(dir := v.dir[s := NewSlot(name)]), Handle(s, 0, 0, 0, 0))
  }

  datatype Unlinked = Missing | Removed(vol: Volume)

  /** One fat_funlink of the raw name `name`. */
  function Unlink(v: Volume, name: seq<byte>): (r: Unlinked)
    requires Shape(v) && |name| == 11
    ensures r.Removed? ==> Shape(r.vol) && |r.vol.dir| == |v.dir| && |r.vol.fat| == |v.fat|
    ensures r.Removed? ==> r.vol.clusSize == v.clusSize && r.vol.ty == v.ty
  {
    var s := Find(v.dir, name, 0);
    if s == |v.dir| then Missing
    else
      var v1 := v.(dir := v.dir[s := Erased(v.dir[s])]);
      ReleaseShape(v1, FirstOf(v.dir[s]));
      Removed(v1.(fat := Release(v.ty, v.fat, FirstOf(v.dir[s]))))
  }

  lemma {:induction false} FreeFromNext(fat: seq<nat>, c: nat, max: nat)
    requires c < max == |fat|
    ensures FreeFrom(fat, c) == (if fat[c] == 0 then 1 else 0) + FreeFrom(fat, c + 1)
    ensures FirstFree(fat, c) == if fat[c] == 0 then c else FirstFree(fat, c + 1)
  {
  }
}
