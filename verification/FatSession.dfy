/** A program's calls on the driver, with several file structures at a time, are a run of the steps of FatRuns. */
module FatSession {
  import opened Bytes
  import opened Wrappers
  import opened FatVolume
  import opened FatFiles
  import opened FatNames
  import opened FatLayout
  import opened FatDriver
  import opened FatRuns

  /** A call, as the program makes it: by file structure and path. */
  datatype Call =
    | CreateFile(id: nat, path: seq<byte>)
    | WriteFile(id: nat, data: seq<byte>)
    | FlushFile(id: nat)
    | UnlinkFile(path: seq<byte>)
    | CloseFile(id: nat)

  function OpOf(c: Call): Op {
    match c
    case CreateFile(id, path) => Creating(id, Raw(StripSlash(path)))
    case WriteFile(id, data) => Writing(id, data)
    case FlushFile(id) => Flushing(id)
    case UnlinkFile(path) => Unlinking(Raw(StripSlash(path)))
    case CloseFile(id) => Closing(id)
  }

  function OpsOf(cs: seq<Call>): (ops: seq<Op>)
    ensures |ops| == |cs| && forall i :: 0 <= i < |cs| ==> ops[i] == OpOf(cs[i])
  {
    seq(|cs|, i requires 0 <= i < |cs| => OpOf(cs[i]))
  }

  /** The structure is one of the `n` there are, and the path names a file. */
  predicate CallOk(c: Call, n: nat) {
    && (!c.UnlinkFile? ==> c.id < n)
    && OpOk(OpOf(c))
  }

  /** A structure in use stands for its open file. */
  ghost predicate BoundAt(m: Mount, fp: FatFile, open: map<nat, Handle>, id: nat)
    reads fp
  {
    && (fp.inUse <==> id in open)
    && (id in open ==>
          && SlotAt(m, fp.dirLba, fp.dirOff, open[id].slot)
          && open[id] == Handle(open[id].slot, fp.firstClus, fp.curClus, fp.curPos, fp.fileSize))
  }

  ghost predicate Bound(m: Mount, files: seq<FatFile>, open: map<nat, Handle>)
    reads files
  {
    && (forall i, j :: 0 <= i < j < |files| ==> files[i] != files[j])
    && (forall id :: id in open ==> id < |files|)
    && (forall id :: 0 <= id < |files| ==> BoundAt(m, files[id], open, id))
  }

  /** A write's end fits the 32-bit position. */
  predicate PositionFits(open: map<nat, Handle>, op: Op) {
    op.Writing? && op.id in open ==> open[op.id].pos + |op.data| < U32
  }

  method CreateAt(fat: Driver, files: seq<FatFile>, id: nat, path: seq<byte>, ghost open: map<nat, Handle>)
    returns (rc: int, ghost open': map<nat, Handle>)
    requires fat.Ready() && Bound(fat.m, files, open) && id < |files|
    modifies fat`secValid, fat`fatLba, fat`fatValid, fat.dev, fat.dev.shadow, fat.wbuf, files[id]
    ensures fat.Ready() && Bound(fat.m, files, open')
    ensures match Create(old(fat.Vol()), Raw(StripSlash(path)))
            case NoRoom => rc != 0 && fat.Vol() == old(fat.Vol()) && open' == open
            case Opened(v, h) => rc == 0 && fat.Vol() == v && open' == open[id := h]
  {
    hide View, OnDisk, Sound, Mirrored, TablesFit, SlotAt, BootKept, Create, Raw, StripSlash;
    ghost var s;
    rc, s := fat.FCreate(path, files[id]);
    open' := if rc == 0 then open[id := fat.HandleOf(files[id], s)] else open;
  }

  method WriteAt(fat: Driver, files: seq<FatFile>, id: nat, data: seq<byte>, ghost open: map<nat, Handle>)
    returns (written: int, ghost open': map<nat, Handle>)
    requires fat.Ready() && Bound(fat.m, files, open) && id < |files|
    requires id in open ==>
               open[id].pos + |data| < U32 && open[id].slot < |fat.Vol().dir| && Writable(fat.Vol(), open[id], data)
    modifies fat`secValid, fat`fatLba, fat`fatValid, fat.dev, fat.dev.shadow, fat.wbuf, files[id]
    ensures fat.Ready() && Bound(fat.m, files, open')
    ensures if id !in open then written == -1 && fat.Vol() == old(fat.Vol()) && open' == open
            else
              && old(Writable(fat.Vol(), open[id], data) && open[id].slot < |fat.Vol().dir|)
              && var (v, h, k) := Write(old(fat.Vol()), open[id], data);
                 fat.Vol() == v && open' == open[id := h] && written == k
  {
    hide View, OnDisk, Sound, Mirrored, TablesFit, SlotAt, BootKept, Write, Writable;
    assert BoundAt(fat.m, files[id], open, id);
    if !files[id].inUse {
      return -1, open;
    }
    ghost var s := open[id].slot;
    written := fat.FWrite(files[id], data, s);
    open' := open[id := fat.HandleOf(files[id], s)];
  }

  method FlushAt(fat: Driver, files: seq<FatFile>, id: nat, ghost open: map<nat, Handle>) returns (rc: int)
    requires fat.Ready() && Bound(fat.m, files, open) && id < |files|
    requires id in open ==> open[id].slot < |fat.Vol().dir|
    modifies fat`secValid, fat`fatValid, fat.dev, fat.dev.shadow, fat.wbuf
    ensures fat.Ready() && Bound(fat.m, files, open)
    ensures if id !in open then rc == -1 && fat.Vol() == old(fat.Vol()) else rc == 0 && fat.Vol() == Flush(old(fat.Vol()), open[id])
  {
    hide View, OnDisk, Sound, Mirrored, TablesFit, SlotAt, BootKept, Flush;
    assert BoundAt(fat.m, files[id], open, id);
    if !files[id].inUse {
      return -1;
    }
    rc := fat.FFlush(files[id], open[id].slot);
  }

  /** One call on the driver is one step. */
  method Perform(fat: Driver, files: seq<FatFile>, c: Call, ghost open: map<nat, Handle>) returns (o: Outcome, ghost open': map<nat, Handle>)
    requires fat.Ready() && Bound(fat.m, files, open) && CallOk(c, |files|)
    requires Good(State(fat.Vol(), open)) && Allowed(State(fat.Vol(), open), OpOf(c)) && PositionFits(open, OpOf(c))
    modifies fat`secValid, fat`fatLba, fat`fatValid, fat.dev, fat.dev.shadow, fat.wbuf, files
    ensures fat.Ready() && Bound(fat.m, files, open')
    ensures old(Callable(State(fat.Vol(), open), OpOf(c)))
    ensures (State(fat.Vol(), open'), o) == Step(old(State(fat.Vol(), open)), OpOf(c))
  {
    hide View, OnDisk, Sound, Mirrored, TablesFit, SlotAt, BootKept, Good, Create, Write, Flush, Unlink, Raw, StripSlash, HandleOk;
    fat.ReadyFacts();
    ghost var st := State(fat.Vol(), open);
    GoodCallable(st, OpOf(c));
    open' := open;
    match c {
      case CreateFile(id, path) =>
        var rc;
        rc, open' := CreateAt(fat, files, id, path, open);
        o := if rc == 0 then Done(0) else Failed;
      case WriteFile(id, data) =>
        var written;
        written, open' := WriteAt(fat, files, id, data, open);
        o := if written < 0 then Failed else Done(written);
      case FlushFile(id) =>
        var rc := FlushAt(fat, files, id, open);
        o := if rc == 0 then Done(0) else Failed;
      case UnlinkFile(path) =>
        var rc := fat.FUnlink(path);
        o := if rc == 0 then Done(0) else Failed;
      case CloseFile(id) =>
        files[id].inUse := false;
        open' := open - {id};
        o := Done(0);
    }
  }

  /** No write of a run passes the 32-bit position. */
  ghost predicate RunFits(st: State, ops: seq<Op>)
    requires Good(st) && (forall i :: 0 <= i < |ops| ==> OpOk(ops[i])) && AllowedRun(st, ops)
    decreases |ops|
  {
    ops != [] ==> (StepGoodIff(st, ops[0]); PositionFits(st.open, ops[0]) && RunFits(Step(st, ops[0]).0, ops[1..]))
  }

  /** Of a run that is to end in `goal`, `ops` is still to come from `st`, after `os` was reported. */
  ghost predicate Ahead(st: State, ops: seq<Op>, os: seq<Outcome>, goal: (State, seq<Outcome>)) {
    && Good(st) && (forall i :: 0 <= i < |ops| ==> OpOk(ops[i])) && AllowedRun(st, ops) && RunFits(st, ops)
    && (Run(st, ops).0, os + Run(st, ops).1) == goal
  }

  lemma AheadStarts(st: State, ops: seq<Op>)
    requires Good(st) && (forall i :: 0 <= i < |ops| ==> OpOk(ops[i])) && AllowedRun(st, ops) && RunFits(st, ops)
    ensures Ahead(st, ops, [], Run(st, ops))
  {
    hide Good, AllowedRun, RunFits, OpOk;
    var (st', os) := Run(st, ops);
    assert [] + os == os;
  }

  lemma AheadStep(st: State, ops: seq<Op>, os: seq<Outcome>, goal: (State, seq<Outcome>))
    requires Ahead(st, ops, os, goal) && ops != []
    ensures Good(st) && Callable(st, ops[0]) && Allowed(st, ops[0]) && PositionFits(st.open, ops[0])
    ensures var (st', o) := Step(st, ops[0]); Ahead(st', ops[1..], os + [o], goal)
  {
    hide Good, Allowed, Step, Callable, OpOk, PositionFits;
    StepGoodIff(st, ops[0]);
    var (st', o) := Step(st, ops[0]);
    var (st'', rest) := Run(st', ops[1..]);
    assert os + ([o] + rest) == os + [o] + rest;
  }

  lemma AheadEnds(st: State, os: seq<Outcome>, goal: (State, seq<Outcome>))
    requires Ahead(st, [], os, goal)
    ensures goal == (st, os) && Good(st)
  {
    assert os + [] == os;
  }

  predicate RunOk(cs: seq<Call>, n: nat)
    ensures RunOk(cs, n) ==> forall i :: 0 <= i < |cs| ==> OpOk(OpsOf(cs)[i])
  {
    forall i :: 0 <= i < |cs| ==> CallOk(cs[i], n)
  }

  /** The files of a well-formed volume, none of them open. */
  ghost function FilesOf(v: Volume): Files
    requires Sane(v)
  {
    var names := set s | 0 <= s < |v.dir| && Used(v.dir, s) :: NameOf(v.dir[s]);
    Files(map n | n in names && Lookup(v, n).Some? :: Lookup(v, n).value, map[])
  }

  lemma ListedIsUsed(v: Volume, n: seq<byte>) returns (s: nat)
    requires Sane(v) && Lookup(v, n).Some?
    ensures s < |v.dir| && Used(v.dir, s) && NameOf(v.dir[s]) == n
  {
    s := Find(v.dir, n, 0);
  }

  /** Where a session can start: a mounted, well-formed volume with no file open stands for its files. */
  lemma SessionStarts(m: Mount, d: seq<byte>)
    requires OnDisk(m, d) && Sane(View(m, d))
    ensures Good(State(View(m, d), map[])) && Refines(State(View(m, d), map[]), FilesOf(View(m, d)))
  {
    hide View, OnDisk, Sane, Lookup, Small;
    var v := View(m, d);
    ViewIsSmall(m, d);
    EmptyGood(v);
    var a := FilesOf(v);
    forall n
      ensures Lookup(v, n) == if n in a.stored then Some(a.stored[n]) else None
    {
      if Lookup(v, n).Some? {
        var s := ListedIsUsed(v, n);
      }
    }
  }

  /**
   A program's calls one after the other, on the disk image itself: they report what the run of steps reports, and
   leave its volume and its open files. So what the files are afterwards, stored and pending, is what the same calls
   leave of an abstract file system.
   */
  method Session(fat: Driver, files: seq<FatFile>, cs: seq<Call>, ghost open: map<nat, Handle>, ghost a: Files)
    returns (os: seq<Outcome>, ghost open': map<nat, Handle>)
    requires fat.Ready() && Bound(fat.m, files, open) && RunOk(cs, |files|)
    requires Good(State(fat.Vol(), open)) && Refines(State(fat.Vol(), open), a)
    requires AllowedRun(State(fat.Vol(), open), OpsOf(cs)) && RunFits(State(fat.Vol(), open), OpsOf(cs))
    modifies fat`secValid, fat`fatLba, fat`fatValid, fat.dev, fat.dev.shadow, fat.wbuf, files
    ensures fat.Ready() && Bound(fat.m, files, open') && |os| == |cs| && Good(State(fat.Vol(), open'))
    ensures (State(fat.Vol(), open'), os) == old(Run(State(fat.Vol(), open), OpsOf(cs)))
    ensures Refines(State(fat.Vol(), open'), FilesRun(a, OpsOf(cs), os))
  {
    hide View, OnDisk, Sound, Mirrored, TablesFit, Good, Allowed, Step, Refines, CallOk, PositionFits, FilesStep, BoundAt, Callable, OpOk,
         Ahead, AllowedRun, RunFits, Run, FilesRun;
    fat.ReadyFacts();
    ghost var ops := OpsOf(cs);
    ghost var goal := Run(State(fat.Vol(), open), ops);
    RunRefines(State(fat.Vol(), open), a, ops);
    AheadStarts(State(fat.Vol(), open), ops);
    os, open' := [], open;
    for n := 0 to |cs|
      invariant fat.Ready() && Bound(fat.m, files, open') && |os| == n
      invariant fat.Wired() && OnDisk(fat.m, fat.Disk()) && Ahead(State(fat.Vol(), open'), ops[n..], os, goal)
    {
      assert ops[n..][0] == OpOf(cs[n]) && ops[n..][1..] == ops[n + 1..];
      AheadStep(State(fat.Vol(), open'), ops[n..], os, goal);
      var o;
      o, open' := Perform(fat, files, cs[n], open');
      fat.ReadyFacts();
      os := os + [o];
    }
    assert ops[|cs|..] == [];
    AheadEnds(State(fat.Vol(), open'), os, goal);
  }
}
