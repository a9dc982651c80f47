/** The 93C46 serial EEPROM (nvram.c) and its pins on the DUART's output port (duart.c). */
module Nvram {
  import opened Bytes
  import opened Numbers

  const WORDS := 64

  datatype State = Idle | Command | ReadOut | WriteIn

  datatype Eeprom = Eeprom(
    mem: seq<nat>, cs: bool, sk: bool, di: bool,
    state: State, rx: nat, rxCount: nat, tx: nat, txCount: nat, ewen: bool, addr: nat)

  predicate Ok(e: Eeprom) {
    |e.mem| == WORDS && e.addr < WORDS && forall i :: 0 <= i < WORDS ==> e.mem[i] < 0x1_0000
  }

  function Erased(): seq<nat> {
    seq(WORDS, _ => 0xFFFF)
  }

  /** A bit shifted into the receive register. */
  function Shifted(e: Eeprom): Eeprom {
    e.(rx := 2 * e.rx + if e.di then 1 else 0, rxCount := e.rxCount + 1)
  }

  lemma ShiftedIs(e: Eeprom)
    ensures Shifted(e) == e.(rx := Shifted(e).rx, rxCount := Shifted(e).rxCount)
  {
  }

  /** Nine bits with the start bit in front, or 24 bits whatever they are, make a command. */
  function Decoded(e: Eeprom): (r: Eeprom)
    requires Ok(e)
    ensures Ok(r)
  {
    var op, addr := e.rx % 0x100 / 0x40, e.rx % 0x40;
    var e1 := e.(addr := addr);
    match op
    case 2 => e1.(tx := e.mem[addr], txCount := 0, state := ReadOut)
    case 1 => e1.(rx := 0, rxCount := 0, state := WriteIn)
    case 3 => e1.(mem := if e.ewen then e.mem[addr := 0xFFFF] else e.mem, state := Idle)
    case _ =>
      match addr / 0x10
      case 0 => e1.(ewen := false, state := Idle)
      case 2 => e1.(mem := if e.ewen then Erased() else e.mem, state := Idle)
      case 3 => e1.(ewen := true, state := Idle)
      case _ => e1.(state := Idle)
  }

  /** nvram_sk_rise with the chip selected. */
  function Rise(e: Eeprom): (r: Eeprom)
    requires Ok(e)
    ensures Ok(r)
  {
    var e1 :=
      match e.state
      case Command =>
        var s := Shifted(e);
        if s.rxCount < 9 || (s.rx / 0x100 % 2 == 0 && s.rxCount < 24) then s else Decoded(s)
      case WriteIn =>
        var s := Shifted(e);
        if s.rxCount != 16 then s
        else s.(mem := if e.ewen then e.mem[e.addr := s.rx % 0x1_0000] else e.mem, state := Idle)
      case _ => e;
    if e1.state == ReadOut then e1.(txCount := e1.txCount + 1) else e1
  }

  /** nvram_write: the data bit that counts at a rising clock is the one set before. */
  function Pins(e: Eeprom, di: bool, sk: bool, cs: bool): (r: Eeprom)
    requires Ok(e)
    ensures Ok(r)
  {
    var e1 := if cs && !e.cs then e.(state := Command, rx := 0, rxCount := 0, txCount := 0) else e;
    var e2 := if !cs && e.cs then e1.(state := Idle) else e1;
    var e3 := if sk && !e.sk && cs && e2.cs then Rise(e2) else e2;
    e3.(cs := cs, sk := sk, di := di)
  }

  /** nvram_read. */
  function Out(e: Eeprom): (b: bool) {
    if e.state != ReadOut then true
    else if e.txCount == 1 then false
    else if 2 <= e.txCount <= 17 then e.tx / Pow2(17 - e.txCount) % 2 == 1
    else true
  }

  // ---------- what a driver clocks in and out ----------

  /** One bit: set up with the clock low, then clocked. */
  function Clock(e: Eeprom, b: bool): (r: Eeprom)
    requires Ok(e)
    ensures Ok(r)
  {
    Pins(Pins(e, b, false, true), b, true, true)
  }

  function Send(e: Eeprom, bits: seq<bool>): (r: Eeprom)
    requires Ok(e)
    ensures Ok(r)
    decreases |bits|
  {
    if bits == [] then e else Send(Clock(e, bits[0]), bits[1..])
  }

  /** The bits the chip shows after each of `n` more clocks. */
  function Receive(e: Eeprom, n: nat): (r: seq<bool>)
    requires Ok(e)
    ensures |r| == n
    decreases n
  {
    if n == 0 then [] else [Out(Clock(e, false))] + Receive(Clock(e, false), n - 1)
  }

  function Selected(e: Eeprom): (r: Eeprom)
    requires Ok(e)
    ensures Ok(r)
  {
    Pins(e, false, false, true)
  }

  function Deselected(e: Eeprom): (r: Eeprom)
    requires Ok(e)
    ensures Ok(r)
  {
    Pins(e, false, false, false)
  }

  /** The low `n` bits of `v`, highest first. */
  function BitsOf(v: nat, n: nat): (b: seq<bool>)
    ensures |b| == n
  {
    if n == 0 then [] else BitsOf(v / 2, n - 1) + [v % 2 == 1]
  }

  /** The register after the bits are shifted in behind `acc`. */
  function Acc(acc: nat, b: seq<bool>): (r: nat)
    ensures r >= acc
    decreases |b|
  {
    if b == [] then acc else Acc(2 * acc + if b[0] then 1 else 0, b[1..])
  }

  function ZeroBits(n: nat): (b: seq<bool>)
    ensures |b| == n
  {
    seq(n, _ => false)
  }

  /** A command: leading zeros, the start bit, the operation and the address. */
  function CommandBits(zeros: nat, op: nat, addr: nat): seq<bool> {
    ZeroBits(zeros) + [true] + BitsOf(0x40 * op + addr, 8)
  }

  lemma {:induction false} AccAppend(acc: nat, a: seq<bool>, b: seq<bool>)
    ensures Acc(acc, a + b) == Acc(Acc(acc, a), b)
    decreases |a|
  {
    if a == [] {
      assert a + b == b;
    } else {
      assert (a + b)[1..] == a[1..] + b;
      AccAppend(2 * acc + if a[0] then 1 else 0, a[1..], b);
    }
  }

  lemma OneMore(acc: nat, b: bool)
    ensures Acc(acc, [b]) == 2 * acc + if b then 1 else 0
  {
    assert [b][1..] == [];
  }

  lemma Doubled(a: nat, p: nat)
    ensures 2 * (a * p) == a * (2 * p) && a * p >= 0
  {
  }

  lemma {:induction false} AccBits(acc: nat, v: nat, n: nat)
    requires v < Pow2(n)
    ensures Acc(acc, BitsOf(v, n)) == acc * Pow2(n) + v
    decreases n
  {
    if n > 0 {
      AccAppend(acc, BitsOf(v / 2, n - 1), [v % 2 == 1]);
      AccBits(acc, v / 2, n - 1);
      OneMore(acc * Pow2(n - 1) + v / 2, v % 2 == 1);
      Doubled(acc, Pow2(n - 1));
    }
  }

  lemma {:induction false} AccZeros(n: nat)
    ensures Acc(0, ZeroBits(n)) == 0
    decreases n
  {
    if n > 0 {
      assert ZeroBits(n)[1..] == ZeroBits(n - 1);
      AccZeros(n - 1);
    }
  }

  // ---------- clocking ----------

  /** Equal in everything but the pins and the transmit side. */
  predicate Same(r: Eeprom, e: Eeprom) {
    r.mem == e.mem && r.ewen == e.ewen && r.cs == e.cs
  }

  lemma ClockIs(e: Eeprom, b: bool)
    requires Ok(e) && e.cs
    ensures Clock(e, b) == Rise(e.(sk := false, di := b)).(cs := true, sk := true, di := b)
  {
    hide Rise;
  }

  lemma {:induction false} SendAppend(e: Eeprom, a: seq<bool>, b: seq<bool>)
    requires Ok(e)
    ensures Send(e, a + b) == Send(Send(e, a), b)
    decreases |a|
  {
    hide Clock;
    if a == [] {
      assert a + b == b;
    } else {
      assert (a + b)[1..] == a[1..] + b;
      SendAppend(Clock(e, a[0]), a[1..], b);
    }
  }

  /** Bits that do not complete a command only fill the register. */
  lemma {:induction false} ShiftIn(e: Eeprom, bits: seq<bool>)
    requires Ok(e) && e.cs && e.state == Command && Acc(e.rx, bits) < 0x100 && e.rxCount + |bits| < 24
    ensures var r := Send(e, bits);
            Same(r, e) && r.state == Command && r.rx == Acc(e.rx, bits) && r.rxCount == e.rxCount + |bits|
    decreases |bits|
  {
    hide Rise, Clock;
    if bits != [] {
      ClockIs(e, bits[0]);
      RiseShifts(e.(sk := false, di := bits[0]));
      ShiftIn(Clock(e, bits[0]), bits[1..]);
    }
  }

  lemma RiseShifts(e: Eeprom)
    requires Ok(e) && e.state == Command && Shifted(e).rx < 0x100 && Shifted(e).rxCount < 24
    ensures Rise(e) == Shifted(e)
  {
  }

  lemma {:induction false} LastBit(v: nat, n: nat)
    requires n > 0
    ensures BitsOf(v, n) == BitsOf(v / 2, n - 1) + [v % 2 == 1]
  {
  }

  lemma OneSent(e: Eeprom, b: bool)
    requires Ok(e)
    ensures Send(e, [b]) == Clock(e, b)
  {
    hide Clock;
    assert [b][1..] == [];
  }

  /** The chip when the last bit of the command in its register has been clocked in. */
  function Ran(s: Eeprom): (r: Eeprom)
    requires Ok(s)
    ensures Ok(r)
  {
    var d := Decoded(s);
    (if d.state == ReadOut then d.(txCount := d.txCount + 1) else d).(cs := true, sk := true)
  }

  lemma Powers()
    ensures Pow2(7) == 0x80 && Pow2(8) == 0x100 && Pow2(16) == 0x1_0000
  {
    assert Pow2(4) == 16 && Pow2(8) == 256 && Pow2(12) == 4096;
  }

  /** The bits of a command without the last one leave the register one short. */
  lemma HeadAcc(zeros: nat, cmd: nat)
    requires cmd < 0x100
    ensures var head := ZeroBits(zeros) + [true] + BitsOf(cmd / 2, 7);
            Acc(0, head) == 0x80 + cmd / 2 && |head| == zeros + 8
  {
    Powers();
    AccZeros(zeros);
    AccAppend(0, ZeroBits(zeros), [true]);
    AccAppend(0, ZeroBits(zeros) + [true], BitsOf(cmd / 2, 7));
    assert Acc(0, [true]) == 1;
    AccBits(1, cmd / 2, 7);
  }

  /** Up to 15 zeros, the start bit and eight more bits are decoded as a command. */
  lemma CommandIs(e: Eeprom, zeros: nat, op: nat, addr: nat) returns (s: Eeprom)
    requires Ok(e) && e.cs && e.state == Command && e.rx == 0 && e.rxCount == 0 && zeros <= 15 && op < 4 && addr < 0x40
    ensures Ok(s) && Same(s, e) && s.rx == 0x100 + 0x40 * op + addr
    ensures Send(e, CommandBits(zeros, op, addr)) == Ran(s)
  {
    hide Acc, Rise, Clock, Decoded;
    var cmd := 0x40 * op + addr;
    var head := ZeroBits(zeros) + [true] + BitsOf(cmd / 2, 7);
    var b := cmd % 2 == 1;
    LastBit(cmd, 8);
    assert CommandBits(zeros, op, addr) == head + [b];
    HeadAcc(zeros, cmd);
    ShiftIn(e, head);
    SendAppend(e, head, [b]);
    var m := Send(e, head);
    OneSent(m, b);
    ClockIs(m, b);
    s := Shifted(m.(sk := false, di := b));
    RiseRuns(m.(sk := false, di := b));
  }

  lemma RiseRuns(e: Eeprom)
    requires Ok(e) && e.state == Command && Shifted(e).rxCount >= 9
    requires Shifted(e).rx / 0x100 == 1 || Shifted(e).rxCount >= 24
    ensures Rise(e).(cs := true, sk := true, di := e.di) == Ran(Shifted(e))
  {
    hide Decoded;
    DecodedKeeps(Shifted(e));
  }

  lemma DecodedKeeps(s: Eeprom)
    requires Ok(s)
    ensures Decoded(s).di == s.di && Decoded(s).cs == s.cs && Decoded(s).sk == s.sk
  {
  }

  // ---------- whole commands ----------

  /** The chip selected afresh. */
  function Begun(e: Eeprom): (r: Eeprom)
    requires Ok(e)
    ensures Ok(r) && r.cs && r.state == Command && r.rx == 0 && r.rxCount == 0 && r.mem == e.mem && r.ewen == e.ewen
  {
    Selected(Deselected(e))
  }

  /** The pin sequence of a write: deselect, select, command, 16 data bits, deselect. */
  function WriteWord(e: Eeprom, zeros: nat, addr: nat, word: nat): (r: Eeprom)
    requires Ok(e)
    ensures Ok(r)
  {
    Deselected(Send(Send(Begun(e), CommandBits(zeros, 1, addr)), BitsOf(word, 16)))
  }

  /** The chip after a read command, showing the dummy bit. */
  function ReadBegun(e: Eeprom, zeros: nat, addr: nat): (r: Eeprom)
    requires Ok(e)
    ensures Ok(r)
  {
    Send(Begun(e), CommandBits(zeros, 2, addr))
  }

  lemma CommandParts(start: nat, op: nat, addr: nat)
    requires start < 2 && op < 4 && addr < 0x40
    ensures var rx := 0x100 * start + 0x40 * op + addr; rx % 0x100 / 0x40 == op && rx % 0x40 == addr
  {
  }

  lemma RanWrite(s: Eeprom, addr: nat)
    requires Ok(s) && addr < 0x40 && s.rx == 0x140 + addr
    ensures var r := Ran(s);
            r.state == WriteIn && r.rx == 0 && r.rxCount == 0 && r.addr == addr && r.mem == s.mem && r.ewen == s.ewen && r.cs
  {
    CommandParts(1, 1, addr);
  }

  lemma RanRead(s: Eeprom, addr: nat)
    requires Ok(s) && addr < 0x40 && s.rx == 0x180 + addr
    ensures var r := Ran(s);
            r.state == ReadOut && r.tx == s.mem[addr] && r.txCount == 1 && r.mem == s.mem && r.ewen == s.ewen && r.cs
  {
    CommandParts(1, 2, addr);
  }

  /** Data bits short of a word only fill the register. */
  lemma {:induction false} ShiftData(e: Eeprom, bits: seq<bool>)
    requires Ok(e) && e.cs && e.state == WriteIn && e.rxCount + |bits| < 16
    ensures var r := Send(e, bits);
            Same(r, e) && r.state == WriteIn && r.addr == e.addr && r.rx == Acc(e.rx, bits) && r.rxCount == e.rxCount + |bits|
    decreases |bits|
  {
    if bits != [] {
      ClockIs(e, bits[0]);
      ShiftData(Clock(e, bits[0]), bits[1..]);
    }
  }

  /** Sixteen data bits commit the word, if writing is enabled. */
  lemma DataCommits(e: Eeprom, word: nat)
    requires Ok(e) && e.cs && e.state == WriteIn && e.rx == 0 && e.rxCount == 0 && word < 0x1_0000
    ensures var r := Send(e, BitsOf(word, 16));
            r.mem == (if e.ewen then e.mem[e.addr := word] else e.mem) && r.ewen == e.ewen && r.cs && r.state == Idle
  {
    hide Clock, Acc, Rise, Send;
    var head, b := BitsOf(word / 2, 15), word % 2 == 1;
    LastBit(word, 16);
    Powers15();
    AccBits(0, word / 2, 15);
    ShiftData(e, head);
    SendAppend(e, head, [b]);
    var m := Send(e, head);
    OneSent(m, b);
    ClockIs(m, b);
    RiseCommits(m.(sk := false, di := b), word);
  }

  lemma RiseCommits(e: Eeprom, word: nat)
    requires Ok(e) && e.state == WriteIn && e.rxCount == 15 && e.rx == word / 2 && e.di == (word % 2 == 1) && word < 0x1_0000
    ensures var r := Rise(e);
            r.mem == (if e.ewen then e.mem[e.addr := word] else e.mem) && r.ewen == e.ewen && r.state == Idle
  {
  }

  lemma Powers15()
    ensures Pow2(15) == 0x8000
  {
    assert Pow2(4) == 16 && Pow2(8) == 256 && Pow2(12) == 4096;
  }

  lemma DeselectedKeeps(e: Eeprom)
    requires Ok(e)
    ensures Same(Deselected(e).(cs := e.cs), e) && Deselected(e).state == (if e.cs then Idle else e.state) && !Deselected(e).cs
  {
    hide Rise;
  }

  /** A write sequence with up to 15 leading zeros changes exactly the addressed word, or nothing while writing is disabled. */
  lemma WriteWordIs(e: Eeprom, zeros: nat, addr: nat, word: nat)
    requires Ok(e) && zeros <= 15 && addr < WORDS && word < 0x1_0000
    ensures var r := WriteWord(e, zeros, addr, word);
            r.mem == (if e.ewen then e.mem[addr := word] else e.mem) && r.ewen == e.ewen && !r.cs && r.state == Idle && Out(r)
  {
    hide Send, CommandBits, BitsOf, Ran, Begun, Deselected;
    var s := CommandIs(Begun(e), zeros, 1, addr);
    RanWrite(s, addr);
    DataCommits(Ran(s), word);
    DeselectedKeeps(Send(Ran(s), BitsOf(word, 16)));
  }

  // ---------- reading ----------

  lemma {:induction false} BitAt(v: nat, n: nat, i: nat)
    requires i < n
    ensures BitsOf(v, n)[i] == (v / Pow2(n - 1 - i) % 2 == 1)
    decreases n
  {
    if i < n - 1 {
      BitAt(v / 2, n - 1, i);
      DivTwice(v, Pow2(n - 2 - i));
    }
  }

  lemma DivTwice(v: nat, p: nat)
    requires p >= 1
    ensures v / 2 / p == v / (2 * p)
  {
    var q := v / 2 / p;
    assert v / 2 == q * p + v / 2 % p;
    assert v == q * (2 * p) + (2 * (v / 2 % p) + v % 2);
    DivUnique(v, 2 * p, q, 2 * (v / 2 % p) + v % 2);
  }

  /** The bits that come out are the rest of the word, and reading changes nothing. */
  lemma {:induction false} ReceiveIs(e: Eeprom, n: nat)
    requires Ok(e) && e.cs && e.state == ReadOut && n <= 16 && e.txCount == 17 - n
    ensures Receive(e, n) == BitsOf(e.tx, 16)[16 - n..]
    decreases n
  {
    hide Pow2, Rise;
    if n > 0 {
      var c := Clock(e, false);
      ClockIs(e, false);
      ReadClock(e);
      ReceiveIs(c, n - 1);
      BitAt(e.tx, 16, 16 - n);
    }
  }

  lemma ReadClock(e: Eeprom)
    requires Ok(e) && e.state == ReadOut
    ensures Rise(e.(sk := false, di := false)) == e.(sk := false, di := false, txCount := e.txCount + 1)
  {
  }

  /** A read sequence shows a zero and then the word, highest bit first, and changes nothing. */
  lemma ReadWordIs(e: Eeprom, zeros: nat, addr: nat)
    requires Ok(e) && zeros <= 15 && addr < WORDS
    ensures var r := ReadBegun(e, zeros, addr);
            !Out(r) && Receive(r, 16) == BitsOf(e.mem[addr], 16) && r.mem == e.mem && r.ewen == e.ewen
  {
    hide Send, CommandBits, BitsOf, Ran, Begun, Receive;
    var s := CommandIs(Begun(e), zeros, 2, addr);
    RanRead(s, addr);
    ReceiveIs(Ran(s), 16);
  }

  /** What was written is what is read, at that address and nowhere else. */
  lemma WriteThenRead(e: Eeprom, z1: nat, addr: nat, word: nat, z2: nat, other: nat)
    requires Ok(e) && e.ewen && z1 <= 15 && z2 <= 15 && addr < WORDS && other < WORDS && word < 0x1_0000
    ensures Receive(ReadBegun(WriteWord(e, z1, addr, word), z2, other), 16)
            == BitsOf(if other == addr then word else e.mem[other], 16)
  {
    hide WriteWord, ReadBegun, Receive, BitsOf;
    WriteWordIs(e, z1, addr, word);
    ReadWordIs(WriteWord(e, z1, addr, word), z2, other);
  }

  /** The commands that enable and disable writing, the one that erases all words, and one that does nothing. */
  lemma EnableIs(e: Eeprom, zeros: nat, addr: nat)
    requires Ok(e) && zeros <= 15 && addr < 0x40
    ensures var r := Send(Begun(e), CommandBits(zeros, 0, addr));
            && (addr / 0x10 == 0 ==> !r.ewen && r.mem == e.mem)
            && (addr / 0x10 == 3 ==> r.ewen && r.mem == e.mem)
            && (addr / 0x10 == 2 ==> r.ewen == e.ewen && r.mem == if e.ewen then seq(64, _ => 65535) else e.mem)
            && (addr / 0x10 == 1 ==> r.ewen == e.ewen && r.mem == e.mem)
            && Out(r)
  {
    hide Send, CommandBits, Begun;
    var s := CommandIs(Begun(e), zeros, 0, addr);
    CommandParts(1, 0, addr);
  }

  /** The command that erases one word. */
  lemma EraseIs(e: Eeprom, zeros: nat, addr: nat)
    requires Ok(e) && zeros <= 15 && addr < 64
    ensures var r := Send(Begun(e), CommandBits(zeros, 3, addr));
            r.mem == (if e.ewen then e.mem[addr := 65535] else e.mem) && r.ewen == e.ewen && Out(r)
  {
    hide Send, CommandBits, Begun;
    var s := CommandIs(Begun(e), zeros, 3, addr);
    CommandParts(1, 3, addr);
  }

  // ---------- every pin sequence ----------

  datatype PinLevels = PinLevels(di: bool, sk: bool, cs: bool)

  function PinRun(e: Eeprom, pins: seq<PinLevels>): (r: Eeprom)
    requires Ok(e)
    ensures Ok(r)
    decreases |pins|
  {
    if pins == [] then e else PinRun(Pins(e, pins[0].di, pins[0].sk, pins[0].cs), pins[1..])
  }

  /** Writing is disabled at the start and after every change of the pins but the last. */
  predicate DisabledRun(e: Eeprom, pins: seq<PinLevels>)
    requires Ok(e)
    decreases |pins|
  {
    pins != [] ==> !e.ewen && DisabledRun(Pins(e, pins[0].di, pins[0].sk, pins[0].cs), pins[1..])
  }

  lemma PinsKeep(e: Eeprom, di: bool, sk: bool, cs: bool)
    requires Ok(e) && !e.ewen
    ensures Pins(e, di, sk, cs).mem == e.mem
  {
  }

  /** No pin sequence changes the memory while writes are disabled. */
  lemma {:induction false} DisabledKeeps(e: Eeprom, pins: seq<PinLevels>)
    requires Ok(e) && DisabledRun(e, pins)
    ensures PinRun(e, pins).mem == e.mem
    decreases |pins|
  {
    hide Pins;
    if pins != [] {
      PinsKeep(e, pins[0].di, pins[0].sk, pins[0].cs);
      DisabledKeeps(Pins(e, pins[0].di, pins[0].sk, pins[0].cs), pins[1..]);
    }
  }

  /** The data pin is pulled up, except while a read shows its zero and its sixteen bits. */
  lemma PulledUp(e: Eeprom)
    ensures Out(e) || (e.state == ReadOut && 1 <= e.txCount <= 17)
    ensures e.state == ReadOut && e.txCount == 1 ==> !Out(e)
  {
  }

  /** Over every pin sequence from a chip not selected: the data pin is low only while the chip is selected and reads out. */
  lemma {:induction false} LowOnlyInRead(e: Eeprom, pins: seq<PinLevels>)
    requires Ok(e) && (e.state == Idle || e.cs)
    ensures var r := PinRun(e, pins); !Out(r) ==> r.cs && r.state == ReadOut && 1 <= r.txCount <= 17
    decreases |pins|
  {
    hide Pins, Out;
    if pins == [] {
      PulledUp(e);
    } else {
      SelectedOrIdle(e, pins[0].di, pins[0].sk, pins[0].cs);
      LowOnlyInRead(Pins(e, pins[0].di, pins[0].sk, pins[0].cs), pins[1..]);
    }
  }

  lemma SelectedOrIdle(e: Eeprom, di: bool, sk: bool, cs: bool)
    requires Ok(e) && (e.state == Idle || e.cs)
    ensures Pins(e, di, sk, cs).state == Idle || Pins(e, di, sk, cs).cs
  {
    hide Rise;
  }

  // ---------- sixteen leading zeros and more ----------

  lemma {:induction false} ReadOutKeeps(e: Eeprom, bits: seq<bool>)
    requires Ok(e) && e.cs && e.state == ReadOut
    ensures var r := Send(e, bits); Same(r, e) && r.state == ReadOut
    decreases |bits|
  {
    if bits != [] {
      ClockIs(e, bits[0]);
      ReadOutKeeps(Clock(e, bits[0]), bits[1..]);
    }
  }

  lemma {:induction false} IdleKeeps(e: Eeprom, bits: seq<bool>)
    requires Ok(e) && e.cs && e.state == Idle
    ensures var r := Send(e, bits); Same(r, e) && r.state == Idle
    decreases |bits|
  {
    if bits != [] {
      ClockIs(e, bits[0]);
      IdleKeeps(Clock(e, bits[0]), bits[1..]);
    }
  }

  /** `v` without its low `n` bits. */
  function Halved(v: nat, n: nat): (h: nat)
    ensures h <= v && (n > 0 ==> h <= v / 2)
    decreases n
  {
    if n == 0 then v else Halved(v / 2, n - 1)
  }

  /** The first `k` of `n` bits are the bits of the number without its low ones. */
  lemma {:induction false} BitsPrefix(v: nat, n: nat, k: nat)
    requires k <= n
    ensures BitsOf(v, n)[..k] == BitsOf(Halved(v, n - k), k)
    decreases n
  {
    if k < n {
      BitsPrefix(v / 2, n - 1, k);
    }
  }

  /** A start bit and `k` bits behind `n` zeros, as one number. */
  lemma {:induction false} BitsHead(v: nat, k: nat, n: nat)
    requires v < Pow2(k)
    ensures BitsOf(Pow2(k) + v, n + 1 + k) == ZeroBits(n) + [true] + BitsOf(v, k)
    decreases k
  {
    LastBit(Pow2(k) + v, n + 1 + k);
    if k > 0 {
      assert (Pow2(k) + v) / 2 == Pow2(k - 1) + v / 2;
      BitsHead(v / 2, k - 1, n);
    } else {
      BitsNone(n);
    }
  }

  lemma {:induction false} BitsNone(n: nat)
    ensures BitsOf(0, n) == ZeroBits(n)
  {
    if n > 0 {
      BitsNone(n - 1);
    }
  }

  /** The last `k` of `n` bits are the low bits of the number. */
  lemma {:induction false} BitsSuffix(v: nat, n: nat, k: nat)
    requires k <= n
    ensures BitsOf(v, n)[n - k..] == BitsOf(v, k)
    decreases n
  {
    if k > 0 {
      BitsSuffix(v / 2, n - 1, k - 1);
      LastBit(v, n);
      LastBit(v, k);
    }
  }

  /** Two bit strings end to end. */
  lemma {:induction false} BitsJoin(a: nat, n: nat, b: nat, m: nat)
    requires b < Pow2(m)
    ensures BitsOf(a, n) + BitsOf(b, m) == BitsOf(a * Pow2(m) + b, n + m)
    decreases m
  {
    hide BitsOf;
    if m > 0 {
      var v := a * Pow2(m) + b;
      Doubled(a, Pow2(m - 1));
      Halves(a * Pow2(m - 1), b);
      BitsJoin(a, n, b / 2, m - 1);
      LastBit(b, m);
      LastBit(v, n + m);
    } else {
      assert BitsOf(b, 0) == [];
    }
  }

  lemma Halves(p: nat, b: nat)
    ensures (2 * p + b) / 2 == p + b / 2 && (2 * p + b) % 2 == b % 2
  {
  }

  /** What 24 clocks leave in the register when 16 or more zeros come before the start bit: the top of the command. */
  function Late(zeros: nat, cmd: nat): nat
    requires zeros >= 16
  {
    Halved(0x100 + cmd, zeros - 15)
  }

  /** The first 24 bits behind sixteen or more zeros, and what follows them. */
  lemma LateBits(zeros: nat, cmd: nat) returns (head: seq<bool>, b: bool)
    requires zeros >= 16 && cmd < 0x100
    ensures ZeroBits(zeros) + [true] + BitsOf(cmd, 8) == head + [b] + BitsOf(0x100 + cmd, zeros - 15) && |head| == 23
    ensures 2 * Acc(0, head) + (if b then 1 else 0) == Late(zeros, cmd) < 0x100
  {
    hide BitsOf;
    EightPowers();
    var w := Late(zeros, cmd);
    var all := BitsOf(0x100 + cmd, zeros + 9);
    BitsHead(cmd, 8, zeros);
    BitsPrefix(0x100 + cmd, zeros + 9, 24);
    BitsSuffix(0x100 + cmd, zeros + 9, zeros - 15);
    assert all == all[..24] + all[24..];
    head, b := BitsOf(w / 2, 23), w % 2 == 1;
    LastBit(w, 24);
    assert 0x80 <= Pow2(23) by { assert Pow2(15) >= 1; assert Pow2(19) >= 16; }
    AccBits(0, w / 2, 23);
  }

  lemma EightPowers()
    ensures Pow2(0) == 1 && Pow2(1) == 2 && Pow2(2) == 4 && Pow2(3) == 8
    ensures Pow2(4) == 16 && Pow2(5) == 32 && Pow2(6) == 64 && Pow2(7) == 128 && Pow2(8) == 256
  {
    assert Pow2(3) == 8 && Pow2(6) == 64;
  }

  /** Behind sixteen or more zeros the chip takes the first 24 bits for the command, whatever they are. */
  lemma LateCommand(e: Eeprom, zeros: nat, op: nat, addr: nat, tail: seq<bool>) returns (s: Eeprom)
    requires Ok(e) && e.cs && e.state == Command && e.rx == 0 && e.rxCount == 0 && zeros >= 16 && op < 4 && addr < 0x40
    ensures Ok(s) && Same(s, e) && s.rx == Late(zeros, 0x40 * op + addr)
    ensures Send(e, CommandBits(zeros, op, addr) + tail) == Send(Ran(s), BitsOf(0x100 + 0x40 * op + addr, zeros - 15) + tail)
  {
    hide Acc, Rise, Clock, Decoded, Send, BitsOf, Late;
    var head, b := LateBits(zeros, 0x40 * op + addr);
    var rest := BitsOf(0x100 + 0x40 * op + addr, zeros - 15);
    assert CommandBits(zeros, op, addr) + tail == head + ([b] + (rest + tail));
    ShiftIn(e, head);
    SendAppend(e, head, [b] + (rest + tail));
    var m := Send(e, head);
    SendAppend(m, [b], rest + tail);
    OneSent(m, b);
    ClockIs(m, b);
    s := Shifted(m.(sk := false, di := b));
    RiseRuns(m.(sk := false, di := b));
  }

  /** What a write sequence commits behind 17 zeros: the last two address bits and all but the last two data bits. */
  function Slipped(addr: nat, word: nat): nat {
    addr % 4 * 0x4000 + word / 4
  }

  lemma SlippedBits(addr: nat, word: nat)
    requires addr < WORDS && word < 0x1_0000
    ensures Slipped(addr, word) < 0x1_0000
    ensures BitsOf(0x140 + addr, 2) + BitsOf(word, 16) == BitsOf(Slipped(addr, word), 16) + BitsOf(word, 2)
  {
    hide BitsOf;
    var cmd := 0x140 + addr;
    BitsPrefix(word, 16, 14);
    BitsSuffix(word, 16, 2);
    EightPowers();
    assert Pow2(14) == 0x4000 by { assert Pow2(11) == 0x800; }
    LowTwo(cmd, addr);
    BitsJoin(addr % 4, 2, word / 4, 14);
    assert BitsOf(word, 16) == BitsOf(word, 16)[..14] + BitsOf(word, 16)[14..];
    assert BitsOf(cmd, 2) + (BitsOf(word / 4, 14) + BitsOf(word, 2)) == (BitsOf(cmd, 2) + BitsOf(word / 4, 14)) + BitsOf(word, 2);
  }

  lemma LowTwo(cmd: nat, addr: nat)
    requires cmd == 0x140 + addr
    ensures BitsOf(cmd, 2) == BitsOf(addr % 4, 2)
  {
    LastBit(cmd, 2);
    LastBit(cmd / 2, 1);
    LastBit(addr % 4, 2);
    LastBit(addr % 4 / 2, 1);
  }

  /** The command a write is taken for. */
  lemma LateWrite(zeros: nat, addr: nat)
    requires zeros >= 16 && addr < WORDS
    ensures var rx := Late(zeros, 0x40 + addr);
            if zeros == 16 then rx == 0xA0 + addr / 2
            else if zeros == 17 then rx == 0x50 + addr / 4
            else if zeros == 18 then rx == 0x28 + addr / 8
            else if zeros == 19 then rx == 0x14 + addr / 16
            else rx < 0x10
  {
    var v := 0x140 + addr;
    assert Halved(v, 2) == v / 2 / 2 && Halved(v, 3) == Halved(v / 2 / 2, 1) == v / 2 / 2 / 2;
    assert Halved(v, 4) == Halved(v / 2 / 2 / 2, 1) by { assert Halved(v, 4) == Halved(v / 2, 3) == Halved(v / 2 / 2, 2); }
    if zeros >= 20 {
      assert Halved(v, zeros - 15) == Halved(v / 2, zeros - 16) == Halved(v / 2 / 2, zeros - 17);
      assert Halved(v / 2 / 2, zeros - 17) == Halved(v / 2 / 2 / 2, zeros - 18) == Halved(v / 2 / 2 / 2 / 2, zeros - 19);
    }
  }

  lemma RanBy(s: Eeprom, op: nat)
    requires Ok(s) && s.rx % 0x100 / 0x40 == op
    ensures var r := Ran(s);
            && r.cs
            && (op == 2 ==> r.state == ReadOut && r.mem == s.mem && r.ewen == s.ewen)
            && (op == 1 ==> r.state == WriteIn && r.rx == 0 && r.rxCount == 0 && r.addr == s.rx % 0x40
                            && r.mem == s.mem && r.ewen == s.ewen)
            && (op == 3 ==> r.state == Idle && r.ewen == s.ewen
                            && r.mem == if s.ewen then s.mem[s.rx % 0x40 := 0xFFFF] else s.mem)
            && (op == 0 ==>
                  var sub := s.rx % 0x40 / 0x10;
                  && r.state == Idle && r.mem == (if sub == 2 && s.ewen then Erased() else s.mem)
                  && r.ewen == if sub == 0 then false else if sub == 3 then true else s.ewen)
  {
  }

  /**
   What a write sequence does behind 16 or more zeros. Behind 16 it is taken for a read, behind 17 for a write of
   shifted bits elsewhere, behind 18 it erases the whole chip, behind 19 it does nothing, and from 20 on it disables
   writing.
   */
  lemma WriteBehindZeros(e: Eeprom, zeros: nat, addr: nat, word: nat)
    requires Ok(e) && zeros >= 16 && addr < WORDS && word < 0x1_0000
    ensures var r := WriteWord(e, zeros, addr, word);
            && r.mem == (if zeros == 17 && e.ewen then e.mem[0x10 + addr / 4 := Slipped(addr, word)]
                         else if zeros == 18 && e.ewen then Erased()
                         else e.mem)
            && r.ewen == (e.ewen && zeros < 20)
  {
    hide Send, CommandBits, BitsOf, Ran, Begun, Deselected, Late, Erased, Slipped;
    var data := BitsOf(word, 16);
    var s := LateCommand(Begun(e), zeros, 1, addr, data);
    SendAppend(Begun(e), CommandBits(zeros, 1, addr), data);
    var bits := BitsOf(0x140 + addr, zeros - 15) + data;
    LateWrite(zeros, addr);
    var op := if zeros == 16 then 2 else if zeros == 17 then 1 else 0;
    CommandParts(0, op, s.rx - 0x40 * op);
    RanBy(s, op);
    if zeros == 16 {
      ReadOutKeeps(Ran(s), bits);
    } else if zeros == 17 {
      SlippedBits(addr, word);
      DataCommits(Ran(s), Slipped(addr, word));
      SendAppend(Ran(s), BitsOf(Slipped(addr, word), 16), BitsOf(word, 2));
      IdleKeeps(Send(Ran(s), BitsOf(Slipped(addr, word), 16)), BitsOf(word, 2));
    } else {
      IdleKeeps(Ran(s), bits);
    }
    DeselectedKeeps(Send(Ran(s), bits));
  }

  /** Behind 16 zeros a read command erases the word at half its address. */
  lemma ReadBehindZeros(e: Eeprom, addr: nat)
    requires Ok(e) && addr < WORDS
    ensures ReadBegun(e, 16, addr).mem == if e.ewen then e.mem[addr / 2 := 0xFFFF] else e.mem
  {
    hide Send, CommandBits, BitsOf, Ran, Begun, Late;
    var s := LateCommand(Begun(e), 16, 2, addr, []);
    assert CommandBits(16, 2, addr) + [] == CommandBits(16, 2, addr);
    LateRead(addr);
    CommandParts(0, 3, addr / 2);
    RanBy(s, 3);
    IdleKeeps(Ran(s), BitsOf(0x180 + addr, 1) + []);
  }

  lemma LateRead(addr: nat)
    ensures Late(16, 0x80 + addr) == 0xC0 + addr / 2
  {
    assert Halved(0x180 + addr, 1) == (0x180 + addr) / 2;
  }

  // ---------- the program ----------

  /** struct nvram. */
  class Chip {
    var mem: seq<nat>
    var cs: bool
    var sk: bool
    var di: bool
    var state: State
    var rxShift: nat
    var rxCount: nat
    var txShift: nat
    var txCount: nat
    var ewen: bool
    var addr: nat

    /** nvram_new: erased, and write-enabled from the start. */
    constructor ()
      ensures Ok(View()) && mem == Erased() && ewen && !cs && state == Idle
    {
      mem, ewen := Erased(), true;
      cs, sk, di, state, rxShift, rxCount, txShift, txCount, addr := false, false, false, Idle, 0, 0, 0, 0, 0;
    }

    ghost function View(): Eeprom
      reads this
    {
      Eeprom(mem, cs, sk, di, state, rxShift, rxCount, txShift, txCount, ewen, addr)
    }

    method BeginCommand()
      modifies `state, `rxShift, `rxCount, `txCount
      ensures View() == old(View()).(state := Command, rx := 0, rxCount := 0, txCount := 0)
    {
      state, rxShift, rxCount, txCount := Command, 0, 0, 0;
    }

    /** The command part of nvram_sk_rise. */
    method RunCommand()
      requires Ok(View())
      modifies this
      ensures View() == Decoded(old(View()))
    {
      var op := rxShift % 0x100 / 0x40;
      addr := rxShift % 0x40;
      if op == 2 {
        txShift, txCount, state := mem[addr], 0, ReadOut;
      } else if op == 1 {
        rxShift, rxCount, state := 0, 0, WriteIn;
      } else if op == 3 {
        if ewen {
          mem := mem[addr := 0xFFFF];
        }
        state := Idle;
      } else {
        var sub := addr / 0x10;
        if sub == 0 {
          ewen := false;
        } else if sub == 2 {
          if ewen {
            mem := Erased();
          }
        } else if sub == 3 {
          ewen := true;
        }
        state := Idle;
      }
    }

    method ShiftBit()
      modifies `rxShift, `rxCount
      ensures View() == Shifted(old(View()))
    {
      rxShift, rxCount := 2 * rxShift + (if di then 1 else 0), rxCount + 1;
    }

    /** nvram_sk_rise. */
    method SkRise()
      requires Ok(View())
      modifies this
      ensures View() == if old(cs) then Rise(old(View())) else old(View())
    {
      if !cs {
        return;
      }
      hide Decoded, Shifted;
      ShiftedIs(View());
      if state == Command {
        ShiftBit();
        if rxCount < 9 || (rxShift / 0x100 % 2 == 0 && rxCount < 24) {
          return;
        }
        RunCommand();
      } else if state == WriteIn {
        ShiftBit();
        if rxCount == 16 {
          if ewen {
            mem := mem[addr := rxShift % 0x1_0000];
          }
          state := Idle;
        }
      }
      if state == ReadOut {
        txCount := txCount + 1;
      }
    }

    /** nvram_write: bit 0 is DI, bit 1 SK, bit 2 CS. */
    method Write(value: nat)
      requires Ok(View())
      modifies this
      ensures Ok(View()) && View() == Pins(old(View()), value % 2 == 1, value / 2 % 2 == 1, value / 4 % 2 == 1)
    {
      hide Rise;
      var newDi, newSk, newCs := value % 2 == 1, value / 2 % 2 == 1, value / 4 % 2 == 1;
      if newCs && !cs {
        BeginCommand();
      }
      if !newCs && cs {
        state := Idle;
      }
      if newSk && !sk && newCs {
        SkRise();
      }
      cs, sk, di := newCs, newSk, newDi;
    }

    /** nvram_read. */
    method Read() returns (out: bool)
      ensures out == Out(View())
    {
      out := true;
      if state == ReadOut {
        if txCount == 1 {
          out := false;
        } else if 2 <= txCount <= 17 {
          out := txShift / Pow2(15 - (txCount - 2)) % 2 == 1;
        }
      }
    }
  }

  /** nvram_pins_from_opr: OP4 is DI, OP5 is CS, OP6 is SK. */
  function PinsFromOpr(opr: byte): (p: nat) {
    opr as nat / 0x10 % 2 + 2 * (opr as nat / 0x40 % 2) + 4 * (opr as nat / 0x20 % 2)
  }

  /** The parts of the DUART the EEPROM hangs on. */
  class Duart {
    const nv: Chip
    var opr: byte
    var ipcr: byte

    constructor (nv: Chip)
      ensures this.nv == nv
    {
      this.nv, opr, ipcr := nv, 0, 0;
    }

    /** A write of the output port drives the pins; the other output bits do not matter. */
    method WriteOpr(v: byte)
      requires Ok(nv.View())
      modifies `opr, nv
      ensures Ok(nv.View()) && opr == v
      ensures nv.View() == Pins(old(nv.View()), v as nat / 0x10 % 2 == 1, v as nat / 0x40 % 2 == 1, v as nat / 0x20 % 2 == 1)
    {
      hide Pins;
      opr := v;
      nv.Write(PinsFromOpr(v));
    }

    /** A read of the input port shows the data pin in bit 2 and the stored value elsewhere. */
    method ReadIpcr() returns (v: byte)
      ensures (v as nat / 4 % 2 == 1) == Out(nv.View())
      ensures v as nat % 4 == ipcr as nat % 4 && v as nat / 8 == ipcr as nat / 8
    {
      var out := nv.Read();
      var low, high := ipcr as nat % 4, ipcr as nat / 8;
      v := low + (if out then 4 else 0) + 8 * high;
    }
  }
}
