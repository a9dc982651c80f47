/** The environment block of the command processor (ccpmain.c): a flat run of NAME=VALUE entries that is a map. */
module Env {
  import opened Bytes
  import opened Wrappers
  import opened FatNames

  const BLOCK_SIZE := 256
  const EQUALS: byte := 0x3D

  datatype Entry = Entry(name: seq<byte>, value: seq<byte>)

  /** A name a command line can set: no end mark and no equals sign in it. */
  predicate NameOk(name: seq<byte>) {
    0 !in name && EQUALS !in name
  }

  predicate EntryOk(e: Entry) {
    NameOk(e.name) && 0 !in e.value
  }

  predicate AllOk(es: seq<Entry>) {
    forall i :: 0 <= i < |es| ==> EntryOk(es[i])
  }

  function Text(e: Entry): (t: seq<byte>)
    ensures |t| == |e.name| + 1 + |e.value| + 1
  {
    e.name + [EQUALS] + e.value + [0]
  }

  function Flat(es: seq<Entry>): (f: seq<byte>)
    decreases |es|
  {
    if es == [] then [] else Flat(es[..|es| - 1]) + Text(es[|es| - 1])
  }

  function Offset(es: seq<Entry>, k: nat): nat
    requires k <= |es|
  {
    |Flat(es[..k])|
  }

  /** The first entry from `k` on that carries the name in any case, or `|es|`. */
  function Index(es: seq<Entry>, name: seq<byte>, k: nat): (i: nat)
    requires k <= |es|
    ensures k <= i <= |es| && (i < |es| ==> SameButCase(es[i].name, name))
    ensures forall j :: k <= j < i ==> !SameButCase(es[j].name, name)
    decreases |es| - k
  {
    if k == |es| || SameButCase(es[k].name, name) then k else Index(es, name, k + 1)
  }

  /** What a name stands for. */
  function Get(es: seq<Entry>, name: seq<byte>): Option<seq<byte>> {
    var i := Index(es, name, 0);
    if i == |es| then None else Some(es[i].value)
  }

  /** No name is bound twice. */
  ghost predicate Distinct(es: seq<Entry>) {
    forall i, j :: 0 <= i < j < |es| ==> !SameButCase(es[i].name, es[j].name)
  }

  function Without(es: seq<Entry>, i: nat): seq<Entry>
    requires i < |es|
  {
    es[..i] + es[i + 1..]
  }

  /** The entries without the name. */
  function Dropped(es: seq<Entry>, name: seq<byte>): seq<Entry> {
    var i := Index(es, name, 0);
    if i == |es| then es else Without(es, i)
  }

  /** One env_set: the old binding goes first, whether or not the new one fits. */
  function SetEntries(es: seq<Entry>, name: seq<byte>, value: seq<byte>): (r: (seq<Entry>, bool)) {
    var es1 := Dropped(es, name);
    if |Flat(es1)| + |name| + |value| + 2 >= BLOCK_SIZE then (es1, false) else (es1 + [Entry(name, value)], true)
  }

  // ---------- the block as a map ----------

  lemma {:induction false} IndexIs(es: seq<Entry>, name: seq<byte>, k: nat, i: nat)
    requires k <= i < |es| && SameButCase(es[i].name, name) && forall j :: k <= j < i ==> !SameButCase(es[j].name, name)
    ensures Index(es, name, k) == i
    decreases i - k
  {
    if k < i {
      IndexIs(es, name, k + 1, i);
    }
  }

  lemma {:induction false} IndexNone(es: seq<Entry>, name: seq<byte>, k: nat)
    requires k <= |es| && forall j :: k <= j < |es| ==> !SameButCase(es[j].name, name)
    ensures Index(es, name, k) == |es|
    decreases |es| - k
  {
    if k < |es| {
      IndexNone(es, name, k + 1);
    }
  }

  lemma DroppedOk(es: seq<Entry>, name: seq<byte>)
    requires AllOk(es) && Distinct(es)
    ensures AllOk(Dropped(es, name)) && Distinct(Dropped(es, name))
    ensures forall j :: 0 <= j < |Dropped(es, name)| ==> !SameButCase(Dropped(es, name)[j].name, name)
  {
    var i := Index(es, name, 0);
    if i < |es| {
      var ds := Without(es, i);
      forall j | 0 <= j < |ds|
        ensures ds[j] == es[if j < i then j else j + 1] && !SameButCase(ds[j].name, name)
      {
      }
    }
  }

  /** Dropping a name leaves every other name's value, and the name itself without one. */
  lemma DroppedGet(es: seq<Entry>, name: seq<byte>, n: seq<byte>)
    requires AllOk(es) && Distinct(es)
    ensures Get(Dropped(es, name), n) == if SameButCase(n, name) then None else Get(es, n)
  {
    DroppedOk(es, name);
    var ds := Dropped(es, name);
    var i := Index(es, name, 0);
    if SameButCase(n, name) {
      IndexNone(ds, n, 0);
    } else if i < |es| {
      var k := Index(es, n, 0);
      if k == |es| {
        IndexNone(ds, n, 0);
      } else {
        IndexIs(ds, n, 0, if k < i then k else k - 1);
      }
    }
  }

  // ---------- the bytes ----------

  lemma FlatSnoc(es: seq<Entry>, e: Entry)
    ensures Flat(es + [e]) == Flat(es) + Text(e)
  {
    assert (es + [e])[..|es|] == es;
  }

  lemma FlatEmpty()
    ensures Flat([]) == []
  {
  }

  lemma {:induction false} FlatConcat(a: seq<Entry>, b: seq<Entry>)
    ensures Flat(a + b) == Flat(a) + Flat(b)
    decreases |b|
  {
    hide Flat, Text;
    if b == [] {
      FlatEmpty();
      assert a + b == a;
    } else {
      var b0, e := b[..|b| - 1], b[|b| - 1];
      assert a + b == (a + b0) + [e] && b == b0 + [e];
      FlatConcat(a, b0);
      FlatSnoc(a + b0, e);
      FlatSnoc(b0, e);
      Regroup(Flat(a), Flat(b0), Text(e));
    }
  }

  lemma FlatThree(a: seq<Entry>, e: Entry, b: seq<Entry>)
    ensures Flat(a + ([e] + b)) == Flat(a) + (Text(e) + Flat(b)) && Flat(a + [e]) == Flat(a) + Text(e)
  {
    hide Flat, Text;
    FlatConcat(a, [e] + b);
    FlatConcat([e], b);
    FlatOne(e);
    FlatSnoc(a, e);
  }

  /** What lies before an entry, the entry, and what lies behind it. */
  lemma FlatSplit(es: seq<Entry>, k: nat)
    requires k < |es|
    ensures Flat(es) == Flat(es[..k]) + (Text(es[k]) + Flat(es[k + 1..]))
    ensures Flat(es[..k + 1]) == Flat(es[..k]) + Text(es[k])
  {
    hide Flat, Text;
    var a, e, b := es[..k], es[k], es[k + 1..];
    assert es == a + ([e] + b);
    assert es[..k + 1] == a + [e];
    FlatThree(a, e, b);
  }

  lemma FlatOne(e: Entry)
    ensures Flat([e]) == Text(e)
  {
    hide Text;
    FlatSnoc([], e);
    assert [] + [e] == [e];
  }

  /** Entry `k` lies at its offset. */
  lemma EntryAt(es: seq<Entry>, k: nat)
    requires k < |es|
    ensures Offset(es, k + 1) == Offset(es, k) + |Text(es[k])| <= |Flat(es)|
    ensures Flat(es)[Offset(es, k)..Offset(es, k + 1)] == Text(es[k])
  {
    hide Flat, Text;
    FlatSplit(es, k);
  }

  /** Closing the gap of entry `k` is taking it out of the list. */
  lemma GapClosed(es: seq<Entry>, k: nat)
    requires k < |es|
    ensures Offset(es, k) + |Text(es[k])| <= |Flat(es)|
    ensures Flat(Without(es, k)) == Flat(es)[..Offset(es, k)] + Flat(es)[Offset(es, k) + |Text(es[k])|..]
  {
    hide Flat, Text;
    FlatSplit(es, k);
    FlatConcat(es[..k], es[k + 1..]);
  }

  // ---------- setting ----------

  /** The bytes the entry with the name takes. */
  function OldSize(es: seq<Entry>, name: seq<byte>): nat {
    match Get(es, name)
    case None => 0
    case Some(v) => |name| + |v| + 2
  }

  lemma DroppedSize(es: seq<Entry>, name: seq<byte>)
    ensures |Flat(Dropped(es, name))| == |Flat(es)| - OldSize(es, name)
  {
    hide Flat;
    var i := Index(es, name, 0);
    if i < |es| {
      SameLength(es[i].name, name);
      GapClosed(es, i);
    }
  }

  /** What a name stands for, as the list has it: the value of the one entry whose name differs at most in case. */
  lemma GetIff(es: seq<Entry>, n: seq<byte>, v: seq<byte>)
    requires Distinct(es)
    ensures Get(es, n) == Some(v) <==> exists i :: 0 <= i < |es| && SameButCase(es[i].name, n) && es[i].value == v
  {
    var k := Index(es, n, 0);
    forall i | 0 <= i < |es| && SameButCase(es[i].name, n)
      ensures i == k
    {
      assert forall a, b, c: seq<byte> :: SameButCase(a, c) && SameButCase(b, c) ==> SameButCase(a, b);
    }
  }

  /**
   A set succeeds exactly when the block has room for the new entry in place of the old one. Then the name, in any
   case, stands for the new value; every other name stands for what it did, and no name is bound twice. A set that
   fails has still removed the old binding.
   */
  lemma SetRefinesMap(es: seq<Entry>, name: seq<byte>, value: seq<byte>, n: seq<byte>)
    requires AllOk(es) && Distinct(es) && EntryOk(Entry(name, value))
    ensures var (es', ok) := SetEntries(es, name, value);
            && AllOk(es') && Distinct(es')
            && (ok <==> |Flat(es)| - OldSize(es, name) + |name| + |value| + 2 < 256)
            && Get(es', n) == if !SameButCase(n, name) then Get(es, n) else if ok then Some(value) else None
  {
    hide Flat;
    DroppedOk(es, name);
    DroppedGet(es, name, n);
    DroppedSize(es, name);
    var ds := Dropped(es, name);
    var (es', ok) := SetEntries(es, name, value);
    if ok {
      if SameButCase(n, name) {
        IndexIs(es', n, 0, |ds|);
      } else {
        var k := Index(ds, n, 0);
        if k < |ds| {
          IndexIs(es', n, 0, k);
        } else {
          IndexNone(es', n, 0);
        }
      }
    }
  }

  /** A binding is lost exactly when the block with the old value exchanged for the new one would be full. */
  lemma BindingLostIff(es: seq<Entry>, name: seq<byte>, value: seq<byte>)
    requires AllOk(es) && Distinct(es) && EntryOk(Entry(name, value)) && Get(es, name).Some?
    ensures Get(SetEntries(es, name, value).0, name) == None
            <==> |Flat(es)| - |Get(es, name).value| + |value| >= 256
  {
    SetRefinesMap(es, name, value, name);
  }

  /** A block full to its last usable byte loses its only binding to a value one byte longer. */
  lemma FullBlock()
    ensures var a := Entry([0x41], seq(252, _ => 0x42));
            var longer := seq(253, _ => 0x43);
            && AllOk([a]) && |Flat([a])| == BLOCK_SIZE - 1 && Get([a], [0x61]) == Some(a.value)
            && SetEntries([a], [0x61], longer) == ([], false)
  {
    var a := Entry([0x41], seq(252, _ => 0x42));
    FlatOne(a);
    assert SameButCase([0x41], [0x61]);
    IndexIs([a], [0x61], 0, 0);
    assert Without([a], 0) == [];
  }

  // ---------- the program ----------

  /** env_block and env_used; `entries` is what the bytes say. */
  class EnvBlock {
    const block: array<byte>
    var used: nat
    ghost var entries: seq<Entry>

    constructor ()
      ensures Valid() && entries == [] && fresh(block)
    {
      block := new byte[BLOCK_SIZE](_ => 0);
      used := 0;
      entries := [];
    }

    /** The entries fill exactly the used bytes, which never reach the end of the block. */
    ghost predicate Valid()
      reads this, block
    {
      && block.Length == BLOCK_SIZE && used < BLOCK_SIZE
      && AllOk(entries) && Distinct(entries) && block[..used] == Flat(entries)
    }

    /** Byte `j` of entry `k`. */
    lemma ByteOf(k: nat, j: nat)
      requires Valid() && k < |entries| && j < |Text(entries[k])|
      ensures Offset(entries, k) + j < used && block[Offset(entries, k) + j] == Text(entries[k])[j]
      ensures Offset(entries, k + 1) == Offset(entries, k) + |Text(entries[k])| <= used
    {
      hide Flat, Text, AllOk, Distinct;
      EntryAt(entries, k);
      assert Text(entries[k])[j] == Flat(entries)[Offset(entries, k)..Offset(entries, k + 1)][j];
      assert block[Offset(entries, k) + j] == block[..used][Offset(entries, k) + j];
    }

    /** The name's length: up to the equals sign. */
    method NameLength(i: nat, ghost k: nat) returns (j: nat)
      requires Valid() && k < |entries| && i == Offset(entries, k)
      ensures j == |entries[k].name| && Text(entries[k])[j] == EQUALS
    {
      hide Offset, Distinct, Flat;
      j := 0;
      assert EntryOk(entries[k]);
      NameBytes(entries[k]);
      ByteOf(k, 0);
      while block[i + j] != 0 && block[i + j] != EQUALS
        invariant j <= |entries[k].name| && i + j < used && block[i + j] == Text(entries[k])[j]
        decreases |entries[k].name| - j
      {
        ByteOf(k, j + 1);
        j := j + 1;
      }
    }

    /** strlen_ of an entry. */
    method EntryLength(i: nat, ghost k: nat) returns (n: nat)
      requires Valid() && k < |entries| && i == Offset(entries, k)
      ensures n + 1 == |Text(entries[k])|
    {
      hide Offset, Distinct, Flat;
      n := 0;
      ByteOf(k, 0);
      assert EntryOk(entries[k]);
      while block[i + n] != 0
        invariant n < |Text(entries[k])| && i + n < used && block[i + n] == Text(entries[k])[n]
        invariant forall m :: 0 <= m < n ==> Text(entries[k])[m] != 0
        decreases |Text(entries[k])| - n
      {
        LastIsZero(entries[k]);
        ByteOf(k, n + 1);
        n := n + 1;
      }
      FirstZero(entries[k], n);
    }

    /** strieqn of an entry's name against a name of the same length. */
    method Matches(i: nat, name: seq<byte>, ghost k: nat) returns (same: bool)
      requires Valid() && k < |entries| && i == Offset(entries, k) && NameOk(name) && |name| == |entries[k].name|
      ensures same == SameButCase(entries[k].name, name)
    {
      hide Offset, Distinct, Flat, UpperByte, SameLetter;
      assert EntryOk(entries[k]);
      for j := 0 to |name|
        invariant forall m :: 0 <= m < j ==> SameLetter(entries[k].name[m], name[m])
      {
        ByteOf(k, j);
        assert Text(entries[k])[j] == entries[k].name[j];
        UpperByteIs(block[i + j], name[j]);
        if UpperByte(block[i + j]) != UpperByte(name[j]) {
          return false;
        }
      }
      same := true;
    }

    /** env_find: where the entry with the name starts. */
    method Find(name: seq<byte>) returns (r: Option<nat>, ghost k: nat)
      requires Valid() && NameOk(name)
      ensures k == Index(entries, name, 0)
      ensures r == if Index(entries, name, 0) == |entries| then None else Some(Offset(entries, Index(entries, name, 0)))
    {
      hide Offset, Distinct, Flat, Text, AllOk;
      var i := 0;
      k := 0;
      OffsetStart(entries);
      OffsetEnd(entries);
      while i < used
        invariant k <= |entries| && i == Offset(entries, k) <= used
        invariant Index(entries, name, k) == Index(entries, name, 0)
        decreases used - i
      {
        OffsetBefore(entries, k);
        var j := NameLength(i, k);
        SameLength(entries[k].name, name);
        if j == |name| {
          var same := Matches(i, name, k);
          if same {
            return Some(i), k;
          }
        }
        var n := EntryLength(i, k);
        EntryAt(entries, k);
        i := i + n + 1;
        k := k + 1;
      }
      OffsetBefore(entries, k);
      r := None;
    }

    /** env_get: where the value of a name starts, and what it is. */
    method GetValue(name: seq<byte>) returns (r: Option<seq<byte>>)
      requires Valid() && NameOk(name)
      ensures r == Get(entries, name)
    {
      hide Offset, Distinct, Flat;
      var e, k := Find(name);
      if e.None? {
        return None;
      }
      var j := NameLength(e.value, k);
      var n := EntryLength(e.value, k);
      ByteOf(k, n);
      var v := block[e.value + j + 1..e.value + n];
      ValueBytes(k, j, n);
      r := Some(v);
    }

    lemma ValueBytes(k: nat, j: nat, n: nat)
      requires Valid() && k < |entries| && j == |entries[k].name| && n + 1 == |Text(entries[k])|
      ensures Offset(entries, k) + n < used && block[Offset(entries, k) + j + 1..Offset(entries, k) + n] == entries[k].value
    {
      hide Flat, Offset, Distinct, AllOk;
      var o := Offset(entries, k);
      ByteOf(k, n);
      var t := Text(entries[k]);
      assert t[j + 1..n] == entries[k].value;
      forall m | j + 1 <= m < n
        ensures block[o + m] == t[m]
      {
        ByteOf(k, m);
      }
      assert block[o + j + 1..o + n] == t[j + 1..n];
    }

    /** The compaction loop: the bytes behind the gap move down over it. */
    method CloseGap(at: nat, len: nat, rem: nat)
      requires at + len + rem <= block.Length
      modifies block
      ensures block[..at + rem] == old(block[..at]) + old(block[at + len..at + len + rem])
    {
      for i := 0 to rem
        invariant forall m :: 0 <= m < at ==> block[m] == old(block[m])
        invariant forall m :: at <= m < at + i ==> block[m] == old(block[m + len])
        invariant len > 0 ==> forall m :: at + i <= m < block.Length ==> block[m] == old(block[m])
        invariant len == 0 ==> block[..] == old(block[..])
      {
        block[at + i] := block[at + len + i];
      }
    }

    /** The head of env_set: an entry with the name is compacted out. */
    method Drop(name: seq<byte>)
      requires Valid() && NameOk(name)
      modifies this, block
      ensures Valid() && entries == Dropped(old(entries), name)
    {
      hide Offset, Flat, Text;
      var e, k := Find(name);
      DroppedOk(entries, name);
      if e.None? {
        return;
      }
      var n := EntryLength(e.value, k);
      GapClosed(entries, k);
      ghost var es, bytes := entries, block[..used];
      var rem := used - e.value - (n + 1);
      CloseGap(e.value, n + 1, rem);
      used := used - (n + 1);
      entries := Without(es, k);
      assert old(block[..e.value]) == bytes[..e.value] && old(block[e.value + n + 1..e.value + n + 1 + rem]) == bytes[e.value + n + 1..];
      OffsetIs(es, k);
    }

    lemma OffsetIs(es: seq<Entry>, k: nat)
      requires k < |es|
      ensures Offset(es, k) == |Flat(es[..k])|
    {
    }

    /** A copy loop. */
    method Put(at: nat, t: seq<byte>)
      requires at + |t| <= block.Length
      modifies block
      ensures block[..] == Splice(old(block[..]), at, t)
    {
      for i := 0 to |t|
        invariant forall m :: at <= m < at + i ==> block[m] == t[m - at]
        invariant forall m :: 0 <= m < block.Length && !(at <= m < at + i) ==> block[m] == old(block[m])
      {
        block[at + i] := t[i];
      }
    }

    /** The name, the equals sign, the value and the end mark, behind the used bytes. */
    method Append(name: seq<byte>, value: seq<byte>)
      requires block.Length == BLOCK_SIZE && used + |name| + |value| + 2 < BLOCK_SIZE
      modifies block
      ensures block[..] == Splice(old(block[..]), used, Text(Entry(name, value)))
    {
      hide Splice;
      ghost var b := block[..];
      Put(used, name);
      SpliceAdjacent(b, used, name, [EQUALS]);
      Put(used + |name|, [EQUALS]);
      SpliceAdjacent(b, used, name + [EQUALS], value);
      Put(used + |name| + 1, value);
      SpliceAdjacent(b, used, name + [EQUALS] + value, [0]);
      Put(used + |name| + 1 + |value|, [0]);
    }

    /** env_set: 1 when the name now has the value, 0 when the block was full. */
    method Set(name: seq<byte>, value: seq<byte>) returns (ok: bool)
      requires Valid() && EntryOk(Entry(name, value))
      modifies this, block
      ensures Valid() && (entries, ok) == SetEntries(old(entries), name, value)
      ensures ok ==> used >= |name| + |value| + 2 && block[used - |name| - |value| - 2..used] == name + [0x3D] + value + [0x00]
    {
      hide Flat, Text, Dropped;
      Drop(name);
      SetKeeps(old(entries), name, value);
      if used + |name| + |value| + 2 >= BLOCK_SIZE {
        return false;
      }
      ghost var b := block[..];
      assert b[..used] == block[..used];
      Append(name, value);
      FlatSnoc(entries, Entry(name, value));
      Extended(b, used, Text(Entry(name, value)));
      used := used + |name| + |value| + 2;
      entries := entries + [Entry(name, value)];
      TextIs(Entry(name, value));
      assert block[used - |name| - |value| - 2..used] == block[..][used - |name| - |value| - 2..used];
      ok := true;
    }

    lemma SetKeeps(es: seq<Entry>, name: seq<byte>, value: seq<byte>)
      requires AllOk(es) && Distinct(es) && EntryOk(Entry(name, value))
      ensures AllOk(SetEntries(es, name, value).0) && Distinct(SetEntries(es, name, value).0)
    {
      SetRefinesMap(es, name, value, name);
    }
  }

  lemma TextIs(e: Entry)
    ensures Text(e) == e.name + [0x3D] + e.value + [0x00]
  {
  }

  lemma NameBytes(e: Entry)
    requires EntryOk(e)
    ensures forall j :: 0 <= j < |e.name| ==> Text(e)[j] != 0 && Text(e)[j] != EQUALS
    ensures Text(e)[|e.name|] == EQUALS
  {
    forall j | 0 <= j < |e.name|
      ensures Text(e)[j] != 0 && Text(e)[j] != EQUALS
    {
      assert Text(e)[j] == e.name[j];
    }
  }

  lemma Extended(b: seq<byte>, used: nat, t: seq<byte>)
    requires used + |t| <= |b|
    ensures Splice(b, used, t)[..used + |t|] == b[..used] + t && Splice(b, used, t)[used..used + |t|] == t
  {
  }

  lemma LastIsZero(e: Entry)
    ensures Text(e)[|Text(e)| - 1] == 0
  {
  }

  lemma FirstZero(e: Entry, n: nat)
    requires EntryOk(e) && n < |Text(e)| && Text(e)[n] == 0
    ensures n == |Text(e)| - 1
  {
    forall m | 0 <= m < |Text(e)| - 1
      ensures Text(e)[m] != 0
    {
      if m < |e.name| {
        assert Text(e)[m] == e.name[m];
      } else if m > |e.name| {
        assert Text(e)[m] == e.value[m - |e.name| - 1];
      }
    }
  }

  lemma SameLength(a: seq<byte>, b: seq<byte>)
    ensures SameButCase(a, b) ==> |a| == |b|
  {
  }

  lemma OffsetStart(es: seq<Entry>)
    ensures Offset(es, 0) == 0
  {
  }

  lemma OffsetEnd(es: seq<Entry>)
    ensures Offset(es, |es|) == |Flat(es)|
  {
    assert es[..|es|] == es;
  }

  /** An offset before the end is an entry's. */
  lemma OffsetBefore(es: seq<Entry>, k: nat)
    requires k <= |es|
    ensures Offset(es, k) < |Flat(es)| <==> k < |es|
  {
    OffsetEnd(es);
    if k < |es| {
      EntryAt(es, k);
    }
  }
}
