/** The open-file table of the kernel and the tags it leaves in a caller's control block. */
module BdosHandles {
  import opened Bytes
  import opened Wrappers
  import opened FatDriver

  const MAX_OPEN := 16
  const MAGIC0: byte := 0x58
  const MAGIC1: byte := 0x46

  /** The table without the files: which entries are taken, under which generation, and the next generation. */
  datatype Table = Table(inUse: seq<bool>, gen: seq<byte>, next: nat)

  predicate TableOk(t: Table) {
    |t.inUse| == MAX_OPEN && |t.gen| == MAX_OPEN && 1 <= t.next <= 255
  }

  /** The generation counter runs from 1 to 255 and skips 0. */
  function After(g: nat): (r: nat)
    requires 1 <= g <= 255
    ensures 1 <= r <= 255
  {
    if g == 255 then 1 else g + 1
  }

  /** The lowest free entry from `i` on, or `MAX_OPEN`. */
  function FreeEntry(inUse: seq<bool>, i: nat): (r: nat)
    requires |inUse| == MAX_OPEN && i <= MAX_OPEN
    ensures i <= r <= MAX_OPEN && (r < MAX_OPEN ==> !inUse[r]) && forall k :: i <= k < r ==> inUse[k]
    decreases MAX_OPEN - i
  {
    if i == MAX_OPEN || !inUse[i] then i else FreeEntry(inUse, i + 1)
  }

  /** What a control block remembers of its handle. */
  datatype Tag = Tag(idx: nat, gen: byte)

  predicate Names(t: Table, tag: Tag) {
    tag.idx < |t.inUse| && tag.idx < |t.gen| && t.inUse[tag.idx] && t.gen[tag.idx] == tag.gen
  }

  datatype TableOp = Alloc | Free(idx: nat)

  function TableStep(t: Table, op: TableOp): (r: Table)
    requires TableOk(t)
    ensures TableOk(r)
  {
    match op
    case Alloc =>
      var i := FreeEntry(t.inUse, 0);
      if i == MAX_OPEN then t
      else Table(t.inUse[i := true], t.gen[i := t.next], After(t.next))
    case Free(i) => if i < MAX_OPEN then t.(inUse := t.inUse[i := false]) else t
  }

  function TableRun(t: Table, ops: seq<TableOp>): (r: Table)
    requires TableOk(t)
    ensures TableOk(r)
    decreases |ops|
  {
    if ops == [] then t else TableRun(TableStep(t, ops[0]), ops[1..])
  }

  function Allocs(ops: seq<TableOp>): nat
    decreases |ops|
  {
    if ops == [] then 0 else (if ops[0].Alloc? then 1 else 0) + Allocs(ops[1..])
  }

  /** `k` generations after `g`. */
  function Ahead(g: nat, k: nat): (r: nat)
    requires 1 <= g <= 255
    ensures 1 <= r <= 255
    decreases k
  {
    if k == 0 then g else After(Ahead(g, k - 1))
  }

  lemma {:induction false} AheadIs(g: nat, k: nat)
    requires 1 <= g <= 255 && k <= 255
    ensures Ahead(g, k) == if g + k <= 255 then g + k else g + k - 255
    decreases k
  {
    if k > 0 {
      AheadIs(g, k - 1);
    }
  }

  /** `j` generations after the one in `tag`, with too few handles to come for it to be next again. */
  lemma {:induction false} StaleFrom(t: Table, tag: Tag, j: nat, ops: seq<TableOp>)
    requires TableOk(t) && !Names(t, tag) && 1 <= tag.gen
    requires 1 <= j && j + Allocs(ops) <= 255 && t.next == Ahead(tag.gen as nat, j)
    ensures !Names(TableRun(t, ops), tag)
    decreases |ops|
  {
    if ops != [] {
      var t1 := TableStep(t, ops[0]);
      AheadIs(tag.gen as nat, j);
      StaleFrom(t1, tag, if t1.next == t.next then j else j + 1, ops[1..]);
    }
  }

  /**
   A control block whose file was closed names no open file again until the table has handed out 255 more
   handles, whatever is opened and closed in between.
   */
  lemma StaleTag(t: Table, ops: seq<TableOp>)
    requires TableOk(t) && FreeEntry(t.inUse, 0) < MAX_OPEN && Allocs(ops) <= 254
    ensures var i := FreeEntry(t.inUse, 0);
            var tag := Tag(i, t.next);
            var open := TableStep(t, Alloc);
            Names(open, tag) && !Names(TableRun(TableStep(open, Free(i)), ops), tag)
  {
    var i := FreeEntry(t.inUse, 0);
    var tag := Tag(i, t.next);
    var open := TableStep(t, Alloc);
    assert Ahead(t.next, 1) == open.next by { assert Ahead(t.next, 0) == t.next; }
    StaleFrom(TableStep(open, Free(i)), tag, 1, ops);
  }

  /** Opening and closing the lowest entry `n` times. */
  function Churn(i: nat, n: nat): (ops: seq<TableOp>)
    ensures Allocs(ops) == n
  {
    if n == 0 then [] else
      var rest := Churn(i, n - 1);
      assert ([Alloc, Free(i)] + rest)[1..] == [Free(i)] + rest && ([Free(i)] + rest)[1..] == rest;
      [Alloc, Free(i)] + rest
  }

  lemma {:induction false} ChurnNext(t: Table, n: nat)
    requires TableOk(t) && FreeEntry(t.inUse, 0) < MAX_OPEN
    ensures var i := FreeEntry(t.inUse, 0);
            var t' := TableRun(t, Churn(i, n));
            t'.next == Ahead(t.next, n) && t'.inUse == t.inUse
    decreases n
  {
    var i := FreeEntry(t.inUse, 0);
    if n > 0 {
      var rest := Churn(i, n - 1);
      assert ([Alloc, Free(i)] + rest)[1..] == [Free(i)] + rest && ([Free(i)] + rest)[1..] == rest;
      var t2 := TableStep(TableStep(t, Alloc), Free(i));
      assert t2.inUse == t.inUse;
      ChurnNext(t2, n - 1);
      AheadFirst(t.next, n - 1);
    }
  }

  lemma {:induction false} AheadFirst(g: nat, k: nat)
    requires 1 <= g <= 255
    ensures Ahead(After(g), k) == Ahead(g, k + 1)
    decreases k
  {
    if k > 0 {
      AheadFirst(g, k - 1);
    } else {
      assert Ahead(g, 0) == g;
    }
  }

  /** The bound is exact: the 255th handle after a close can be the closed one's double. */
  lemma StaleTagReturns(t: Table)
    requires TableOk(t) && FreeEntry(t.inUse, 0) < MAX_OPEN
    ensures var i := FreeEntry(t.inUse, 0);
            var closed := TableStep(TableStep(t, Alloc), Free(i));
            Names(TableStep(TableRun(closed, Churn(i, 254)), Alloc), Tag(i, t.next))
  {
    var i := FreeEntry(t.inUse, 0);
    var closed := TableStep(TableStep(t, Alloc), Free(i));
    assert closed.inUse == t.inUse;
    ChurnNext(closed, 254);
    AheadFirst(t.next, 254);
    AheadIs(t.next, 255);
  }

  /** The `fhandles` array and its generation counter. */
  class Handles {
    var inUse: seq<bool>
    var gen: seq<byte>
    var nextGeneration: nat
    const files: seq<FatFile>

    constructor (files: seq<FatFile>)
      requires |files| == MAX_OPEN
      ensures Valid() && this.files == files && inUse == seq(MAX_OPEN, _ => false) && nextGeneration == 1
    {
      inUse := seq(MAX_OPEN, _ => false);
      gen := seq(MAX_OPEN, _ => 0);
      nextGeneration := 1;
      this.files := files;
    }

    ghost predicate Valid()
      reads this
    {
      TableOk(View()) && |files| == MAX_OPEN
    }

    ghost function View(): Table
      reads this
    {
      Table(inUse, gen, nextGeneration)
    }

    /** alloc_handle. */
    method AllocHandle() returns (rc: int, idx: nat)
      requires Valid()
      modifies `inUse, `gen, `nextGeneration
      ensures Valid() && View() == TableStep(old(View()), Alloc)
      ensures idx == FreeEntry(old(inUse), 0) && rc == if idx == MAX_OPEN then -1 else 0
    {
      for i := 0 to MAX_OPEN
        invariant View() == old(View()) && FreeEntry(inUse, 0) == FreeEntry(inUse, i)
      {
        if !inUse[i] {
          inUse := inUse[i := true];
          gen := gen[i := nextGeneration];
          nextGeneration := (nextGeneration + 1) % 256;
          if nextGeneration == 0 {
            nextGeneration := 1;
          }
          return 0, i;
        }
      }
      rc, idx := -1, MAX_OPEN;
    }

    /** Giving an entry back. */
    method Release(idx: nat)
      requires Valid() && idx < MAX_OPEN
      modifies `inUse
      ensures Valid() && View() == TableStep(old(View()), Free(idx))
    {
      inUse := inUse[idx := false];
    }

    /** The entry a control block stands for. */
    ghost function Target(f: seq<byte>): Option<nat>
      requires |f| >= 36
      reads this
    {
      if f[16] == MAGIC0 && f[17] == MAGIC1 && Names(View(), Tag(f[20], f[21])) then Some(f[20]) else None
    }

    /** resolve_fcb: the entry a control block names, if it is still the one that was opened. */
    method ResolveFcb(fcb: array<byte>) returns (r: Option<nat>)
      requires Valid() && fcb.Length >= 36
      ensures r == Target(fcb[..]) && (r.Some? ==> r.value < MAX_OPEN)
      ensures forall i :: r == Some(i) <==>
                fcb[16] == 0x58 && fcb[17] == 0x46 && fcb[20] as int == i < 16 && inUse[i] && gen[i] == fcb[21]
    {
      if fcb[16] != MAGIC0 || fcb[17] != MAGIC1 {
        return None;
      }
      var idx: nat := fcb[20];
      if idx >= MAX_OPEN || !inUse[idx] || gen[idx] != fcb[21] {
        return None;
      }
      r := Some(idx);
    }

    /** stash_handle. */
    method StashHandle(fcb: array<byte>, idx: nat)
      requires Valid() && fcb.Length >= 36 && idx < MAX_OPEN
      modifies fcb
      ensures fcb[16] == 0x58 && fcb[17] == 0x46 && fcb[18] == 0 && fcb[19] == 0 && fcb[20] == idx && fcb[21] == gen[idx]
      ensures forall i :: 0 <= i < fcb.Length && !(16 <= i < 22) ==> fcb[i] == old(fcb[i])
    {
      fcb[16], fcb[17], fcb[18], fcb[19] := MAGIC0, MAGIC1, 0, 0;
      fcb[20], fcb[21] := idx, gen[idx];
    }
  }
}
