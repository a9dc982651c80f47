/** The Motorola S-record dumper and loader of the command processor (ccpmain.c). */
module Srec {
  import opened Bytes

  const CR: byte := 0x0D
  const LF: byte := 0x0A
  const BREAK: byte := 0x03
  const CHUNK := 16
  const LINE_MAX := 255
  /** One past the largest address a printed record can name. */
  const LOW := 0x100_0000

  // ---------- hexadecimal ----------

  function Digit(n: nat): (c: byte)
    requires n < 16
    ensures c != CR && c != LF && c != BREAK
  {
    if n < 10 then 0x30 + n else 0x41 + (n - 10)
  }

  /** hex_nibble. */
  function Nibble(c: byte): (n: int)
    ensures -1 <= n < 16
  {
    if 0x30 <= c <= 0x39 then c as int - 0x30
    else if 0x41 <= c <= 0x46 then c as int - 0x41 + 10
    else if 0x61 <= c <= 0x66 then c as int - 0x61 + 10
    else -1
  }

  function Hex(b: byte): (t: seq<byte>)
    ensures |t| == 2
  {
    [Digit(b as nat / 16), Digit(b as nat % 16)]
  }

  function HexAll(s: seq<byte>): (t: seq<byte>)
    ensures |t| == 2 * |s|
    decreases |s|
  {
    if s == [] then [] else Hex(s[0]) + HexAll(s[1..])
  }

  /** srec_byte: the byte written at position `p`, or -1. */
  function ByteAt(line: seq<byte>, p: nat): (b: int)
    ensures -1 <= b < 0x100
  {
    if p + 1 < |line| && Nibble(line[p]) >= 0 && Nibble(line[p + 1]) >= 0 then Nibble(line[p]) * 16 + Nibble(line[p + 1]) else -1
  }

  lemma NibbleOfDigit(n: nat)
    requires n < 16
    ensures Nibble(Digit(n)) == n
  {
  }

  lemma {:induction false} HexAllAt(s: seq<byte>, k: nat)
    requires k < |s|
    ensures HexAll(s)[2 * k] == Digit(s[k] as nat / 16) && HexAll(s)[2 * k + 1] == Digit(s[k] as nat % 16)
    decreases k
  {
    if k > 0 {
      HexAllAt(s[1..], k - 1);
    }
  }

  lemma {:induction false} HexAllConcat(a: seq<byte>, b: seq<byte>)
    ensures HexAll(a + b) == HexAll(a) + HexAll(b)
    decreases |a|
  {
    if a == [] {
      assert a + b == b;
    } else {
      assert (a + b)[1..] == a[1..] + b;
      HexAllConcat(a[1..], b);
    }
  }

  /** Parsing byte `k` of a printed byte string that starts at position 2. */
  lemma ByteAtHex(line: seq<byte>, s: seq<byte>, k: nat)
    requires |line| == 2 + 2 * |s| && line[2..] == HexAll(s) && k < |s|
    ensures ByteAt(line, 2 + 2 * k) == s[k] as int
  {
    hide Nibble, Digit;
    HexAllAt(s, k);
    assert line[2 + 2 * k] == line[2..][2 * k] && line[2 + 2 * k + 1] == line[2..][2 * k + 1];
    NibbleOfDigit(s[k] as nat / 16);
    NibbleOfDigit(s[k] as nat % 16);
  }

  // ---------- records ----------

  function Total(s: seq<byte>): nat
    decreases |s|
  {
    if s == [] then 0 else s[0] as nat + Total(s[1..])
  }

  /** The sum in eight bits. */
  function Sum(s: seq<byte>): (n: nat)
    ensures n < 0x100
  {
    Total(s) % 0x100
  }

  lemma ModAdd(x: nat, y: nat)
    ensures (x % 0x100 + y) % 0x100 == (x + y) % 0x100
  {
  }

  lemma {:induction false} TotalConcat(a: seq<byte>, b: seq<byte>)
    ensures Total(a + b) == Total(a) + Total(b)
    decreases |a|
  {
    if a == [] {
      assert a + b == b;
    } else {
      assert (a + b)[1..] == a[1..] + b;
      TotalConcat(a[1..], b);
    }
  }

  /** The count, the three address bytes and the data of a record. */
  function Body(a: nat, data: seq<byte>): (s: seq<byte>)
    requires |data| <= CHUNK
    ensures |s| == 4 + |data|
  {
    [(|data| + 4) as byte, a / 0x1_0000 % 0x100, a / 0x100 % 0x100, a % 0x100] + data
  }

  /** The body and the complement of its sum. */
  function Payload(a: nat, data: seq<byte>): (s: seq<byte>)
    requires |data| <= CHUNK
    ensures |s| == 5 + |data|
  {
    Body(a, data) + [0xFF - Sum(Body(a, data))]
  }

  /** One S2 record without its line end. */
  function Record(a: nat, data: seq<byte>): (t: seq<byte>)
    requires |data| <= CHUNK
    ensures |t| == 12 + 2 * |data|
  {
    [0x53, 0x32] + HexAll(Payload(a, data))
  }

  /** The end record, S804000000FB. */
  const END: seq<byte> := [0x53, 0x38, 0x30, 0x34, 0x30, 0x30, 0x30, 0x30, 0x30, 0x30, 0x46, 0x42]

  function Chunk(s: seq<byte>): (c: seq<byte>)
    ensures |c| <= CHUNK && (s != [] ==> c != [])
  {
    if |s| <= CHUNK then s else s[..CHUNK]
  }

  /** What `srec -w` prints for the bytes `s` at address `a`. */
  function Dump(a: nat, s: seq<byte>): seq<byte>
    decreases |s|
  {
    if s == [] then END + [CR, LF]
    else Record(a, Chunk(s)) + [CR, LF] + Dump(a + |Chunk(s)|, s[|Chunk(s)|..])
  }

  // ---------- loading one line ----------

  datatype Verdict = Quiet | NotARecord | BadHex | BadCount | BadSum | End(entry: nat) | EndBadHex

  /** srec_addr: `n` bytes from position `p` on, highest first. */
  function AddrAt(line: seq<byte>, p: nat, n: nat, acc: nat): (a: int)
    ensures a >= -1
    decreases n
  {
    if n == 0 then acc
    else if ByteAt(line, p) < 0 then -1
    else AddrAt(line, p + 2, n - 1, (acc * 0x100 + ByteAt(line, p)) % U32)
  }

  /** Depositing `n` bytes from position `p` on at address `a`: memory, running sum, and whether all were readable. */
  function Deposit(mem: seq<byte>, line: seq<byte>, p: nat, a: nat, n: nat, sum: nat): (r: (seq<byte>, nat, bool))
    requires |mem| == U32
    ensures |r.0| == U32
    decreases n
  {
    if n == 0 then (mem, sum, true)
    else
      var b := ByteAt(line, p);
      if b < 0 then (mem, sum, false)
      else Deposit(mem[a % U32 := b], line, p + 2, a + 1, n - 1, (sum + b) % 0x100)
  }

  function AddrBytes(kind: byte): nat {
    if kind == 0x31 || kind == 0x39 then 2 else if kind == 0x32 || kind == 0x38 then 3
    else if kind == 0x33 || kind == 0x37 then 4 else 0
  }

  function Kind(line: seq<byte>): byte {
    if |line| > 1 then line[1] else 0
  }

  /** A data record. */
  function LoadData(mem: seq<byte>, line: seq<byte>): (r: (seq<byte>, Verdict))
    requires |mem| == U32
    ensures |r.0| == U32
  {
    var count := ByteAt(line, 2);
    var alen := AddrBytes(Kind(line));
    if count < 1 then (mem, BadCount)
    else if alen == 0 then (mem, Quiet)
    else
      var a := AddrAt(line, 4, alen, 0);
      if a < 0 then (mem, BadHex)
      else
        var head := (count + a / 0x100_0000 + a / 0x1_0000 + a / 0x100 + a) % 0x100;
        var len := if count - alen - 1 > 0 then count - alen - 1 else 0;
        var (mem', sum, ok) := Deposit(mem, line, 4 + 2 * alen, a, len, head);
        if !ok then (mem', BadHex)
        else if ByteAt(line, 4 + 2 * alen + 2 * len) != 0xFF - sum then (mem', BadSum)
        else (mem', Quiet)
  }

  function LoadLine(mem: seq<byte>, line: seq<byte>): (r: (seq<byte>, Verdict))
    requires |mem| == U32
    ensures |r.0| == U32
  {
    var kind := Kind(line);
    if line == [] || line[0] != 0x53 then (mem, NotARecord)
    else if 0x37 <= kind <= 0x39 then
      var e := AddrAt(line, 4, AddrBytes(kind), 0);
      (mem, if e < 0 then EndBadHex else End(e))
    else if !(0x30 <= kind <= 0x35) then (mem, Quiet)
    else LoadData(mem, line)
  }

  // ---------- what the dumper prints is what the loader reads ----------

  lemma RecordBytes(a: nat, data: seq<byte>, k: nat)
    requires |data| <= CHUNK && k < 5 + |data|
    ensures ByteAt(Record(a, data), 2 + 2 * k) == Payload(a, data)[k] as int
  {
    hide Payload;
    assert Record(a, data)[2..] == HexAll(Payload(a, data));
    ByteAtHex(Record(a, data), Payload(a, data), k);
  }

  lemma PayloadParts(a: nat, data: seq<byte>)
    requires |data| <= CHUNK
    ensures var p := Payload(a, data);
            && p[0] as nat == |data| + 4 && p[1] as nat == a / 0x1_0000 % 0x100 && p[2] as nat == a / 0x100 % 0x100 && p[3] as nat == a % 0x100
            && (forall i :: 0 <= i < |data| ==> p[4 + i] == data[i])
            && p[4 + |data|] as nat == 0xFF - Sum(Body(a, data))
  {
  }

  lemma Bytes24(a: nat)
    requires a < LOW
    ensures (a / 0x1_0000 % 0x100 * 0x100 + a / 0x100 % 0x100) * 0x100 + a % 0x100 == a
  {
    assert a / 0x1_0000 == a / 0x100 / 0x100;
  }

  lemma AddrStep(line: seq<byte>, p: nat, n: nat, acc: nat, b: nat)
    requires n > 0 && ByteAt(line, p) == b && acc * 0x100 + b < U32
    ensures AddrAt(line, p, n, acc) == AddrAt(line, p + 2, n - 1, acc * 0x100 + b)
  {
  }

  lemma AddrDone(line: seq<byte>, p: nat, acc: nat)
    ensures AddrAt(line, p, 0, acc) == acc
  {
  }

  lemma AddrOfRecord(a: nat, data: seq<byte>)
    requires |data| <= CHUNK && a < LOW
    ensures AddrAt(Record(a, data), 4, 3, 0) == a
  {
    hide Record, Payload, ByteAt, Body, AddrAt;
    var line := Record(a, data);
    RecordBytes(a, data, 1);
    RecordBytes(a, data, 2);
    RecordBytes(a, data, 3);
    PayloadParts(a, data);
    Bytes24(a);
    var x, y, z := a / 0x1_0000 % 0x100, a / 0x100 % 0x100, a % 0x100;
    AddrStep(line, 4, 3, 0, x);
    AddrStep(line, 6, 2, x, y);
    AddrStep(line, 8, 1, x * 0x100 + y, z);
    AddrDone(line, 10, (x * 0x100 + y) * 0x100 + z);
  }

  lemma DepositStep(mem: seq<byte>, line: seq<byte>, p: nat, a: nat, n: nat, sum: nat, b: byte)
    requires |mem| == U32 && n > 0 && ByteAt(line, p) == b as int && a < U32
    ensures Deposit(mem, line, p, a, n, sum) == Deposit(mem[a := b], line, p + 2, a + 1, n - 1, (sum + b as nat) % 0x100)
  {
  }

  lemma DepositNone(mem: seq<byte>, line: seq<byte>, p: nat, a: nat, sum: nat)
    requires |mem| == U32 && a <= U32
    ensures Deposit(mem, line, p, a, 0, sum) == (mem, sum, true) && Splice(mem, a, []) == mem
  {
  }

  /** The bytes still to come of a record are put behind those already there. */
  lemma {:induction false} DepositIs(mem: seq<byte>, a: nat, data: seq<byte>, i: nat, sum: nat)
    requires |mem| == U32 && |data| <= CHUNK && a + |data| <= U32 && i <= |data| && sum < 0x100
    ensures Deposit(mem, Record(a, data), 10 + 2 * i, a + i, |data| - i, sum)
            == (Splice(mem, a + i, data[i..]), (sum + Total(data[i..])) % 0x100, true)
    decreases |data| - i
  {
    hide Record, ByteAt, Payload, Total, Deposit, Splice;
    if i < |data| {
      RecordBytes(a, data, 4 + i);
      PayloadParts(a, data);
      var b := data[i];
      DepositStep(mem, Record(a, data), 10 + 2 * i, a + i, |data| - i, sum, b);
      DepositIs(mem[a + i := b], a, data, i + 1, (sum + b as nat) % 0x100);
      SpliceFirst(mem, a + i, b, data[i + 1..]);
      assert data[i..] == [b] + data[i + 1..];
      TotalFirst(b, data[i + 1..]);
      ModAdd(sum + b as nat, Total(data[i + 1..]));
    } else {
      assert data[i..] == [];
      DepositNone(mem, Record(a, data), 10 + 2 * i, a + i, sum);
      TotalNone();
    }
  }

  lemma TotalNone()
    ensures Total([]) == 0
  {
  }

  lemma TotalFirst(b: byte, s: seq<byte>)
    ensures Total([b] + s) == b as nat + Total(s)
  {
    assert ([b] + s)[1..] == s;
  }

  lemma SpliceFirst(mem: seq<byte>, a: nat, b: byte, t: seq<byte>)
    requires a + 1 + |t| <= |mem|
    ensures Splice(mem[a := b], a + 1, t) == Splice(mem, a, [b] + t)
  {
  }

  lemma BodyTotal(a: nat, data: seq<byte>)
    requires |data| <= CHUNK
    ensures Total(Body(a, data)) == |data| + 4 + a / 0x1_0000 % 0x100 + a / 0x100 % 0x100 + a % 0x100 + Total(data)
  {
    hide Total;
    var h := Body(a, data)[..4];
    assert Body(a, data) == h + data;
    TotalConcat(h, data);
    FourTotal(h);
  }

  lemma HeadMod(n: nat, x: nat, y: nat, z: nat, t: nat)
    ensures (n + x % 0x100 + y % 0x100 + z % 0x100 + t) % 0x100 == ((n + x + y + z) % 0x100 + t) % 0x100
  {
    ModFour(n, x, y, z);
    ModAdd(n + x % 0x100 + y % 0x100 + z % 0x100, t);
  }

  /** The sum of a record, as the loader computes it from the count and the address. */
  lemma HeadSum(a: nat, data: seq<byte>)
    requires |data| <= CHUNK && a < LOW
    ensures Sum(Body(a, data)) == ((|data| + 4 + a / 0x100_0000 + a / 0x1_0000 + a / 0x100 + a) % 0x100 + Total(data)) % 0x100
  {
    hide Total, Body;
    BodyTotal(a, data);
    HeadMod(|data| + 4, a / 0x1_0000, a / 0x100, a, Total(data));
    assert a / 0x100_0000 == 0;
  }

  lemma FourTotal(h: seq<byte>)
    requires |h| == 4
    ensures Total(h) == h[0] as nat + h[1] as nat + h[2] as nat + h[3] as nat
  {
    var t1, t2, t3 := h[1..], h[2..], h[3..];
    assert t1[1..] == t2 && t2[1..] == t3 && t3[1..] == [];
    assert Total(t3) == h[3] as nat + Total([]);
    assert Total(t2) == h[2] as nat + Total(t3);
    assert Total(t1) == h[1] as nat + Total(t2);
  }

  lemma ModFour(p: nat, x: nat, y: nat, z: nat)
    ensures (p + x % 0x100 + y % 0x100 + z % 0x100) % 0x100 == (p + x + y + z) % 0x100
  {
    ModAdd(x, p + y % 0x100 + z % 0x100);
    ModAdd(y, p + x + z % 0x100);
    ModAdd(z, p + x + y);
  }

  /** Loading a printed record puts its bytes at its address and complains of nothing. */
  lemma RecordLoads(mem: seq<byte>, a: nat, data: seq<byte>)
    requires |mem| == U32 && |data| <= CHUNK && a < LOW
    ensures LoadLine(mem, Record(a, data)) == (Splice(mem, a, data), Quiet)
  {
    hide ByteAt, Payload, Sum, Total, AddrAt, Deposit, Splice, Body;
    var line := Record(a, data);
    RecordBytes(a, data, 0);
    RecordBytes(a, data, 4 + |data|);
    PayloadParts(a, data);
    AddrOfRecord(a, data);
    HeadSum(a, data);
    var head := (|data| + 4 + a / 0x100_0000 + a / 0x1_0000 + a / 0x100 + a) % 0x100;
    DepositIs(mem, a, data, 0, head);
    assert data[0..] == data;
    RecordKind(a, data);
  }

  lemma RecordKind(a: nat, data: seq<byte>)
    requires |data| <= CHUNK
    ensures Record(a, data)[0] == 0x53 && Kind(Record(a, data)) == 0x32
  {
  }

  lemma EndLoads(mem: seq<byte>)
    requires |mem| == U32
    ensures LoadLine(mem, END) == (mem, End(0))
  {
    assert ByteAt(END, 4) == 0 && ByteAt(END, 6) == 0 && ByteAt(END, 8) == 0;
    assert AddrAt(END, 4, 3, 0) == AddrAt(END, 6, 2, 0);
    assert AddrAt(END, 6, 2, 0) == AddrAt(END, 8, 1, 0);
  }

  // ---------- the console stream ----------

  datatype Line = Ready(line: seq<byte>, rest: seq<byte>) | Aborted | Waiting

  /** srec_read_line, with `got` read so far: a line without its end, cut to the buffer; empty lines are skipped. */
  function ReadLine(input: seq<byte>, got: seq<byte>): (r: Line)
    requires |got| <= LINE_MAX
    ensures r.Ready? ==> |r.rest| < |input| && 0 < |r.line| <= LINE_MAX
    decreases |input|
  {
    if input == [] then Waiting
    else if input[0] == CR || input[0] == LF then
      if got != [] then Ready(got, input[1..]) else ReadLine(input[1..], [])
    else if input[0] == BREAK then Aborted
    else ReadLine(input[1..], if |got| < LINE_MAX then got + [input[0]] else got)
  }

  /** The line buffer after a line is read into it: characters of earlier lines stay behind the end mark. */
  function Laid(buf: seq<byte>, line: seq<byte>): (r: seq<byte>)
    requires |buf| == LINE_MAX + 1 && |line| <= LINE_MAX
    ensures |r| == |buf|
  {
    line + [0] + buf[|line| + 1..]
  }

  /** What a load leaves: memory, the complaints made, and how it ended. */
  datatype Loaded = Loaded(mem: seq<byte>, complaints: nat, entry: int)

  function Complains(v: Verdict): nat {
    if v.Quiet? || v.End? then 0 else 1
  }

  /** The loader's loop over the line buffer `buf`; `entry` is -1 unless an end record was read. */
  function LoadAll(mem: seq<byte>, buf: seq<byte>, input: seq<byte>, complaints: nat): (r: Loaded)
    requires |mem| == U32 && |buf| == LINE_MAX + 1
    ensures |r.mem| == U32
    decreases |input|
  {
    match ReadLine(input, [])
    case Waiting => Loaded(mem, complaints, -1)
    case Aborted => Loaded(mem, complaints, -1)
    case Ready(line, rest) =>
      var (mem', v) := LoadLine(mem, Laid(buf, line));
      if v.End? then Loaded(mem', complaints, v.entry)
      else if v.EndBadHex? then Loaded(mem', complaints + 1, -1)
      else LoadAll(mem', Laid(buf, line), rest, complaints + Complains(v))
  }

  // ---------- what lies behind the end mark ----------

  lemma LaidByte(buf: seq<byte>, line: seq<byte>, p: nat)
    requires |buf| == LINE_MAX + 1 && |line| <= LINE_MAX && p <= |line|
    ensures ByteAt(Laid(buf, line), p) == ByteAt(line, p)
  {
    assert Laid(buf, line)[|line|] == 0 && Nibble(0) == -1;
  }

  lemma {:induction false} LaidAddr(buf: seq<byte>, line: seq<byte>, p: nat, n: nat, acc: nat)
    requires |buf| == LINE_MAX + 1 && |line| <= LINE_MAX && p <= |line|
    ensures AddrAt(Laid(buf, line), p, n, acc) == AddrAt(line, p, n, acc)
    ensures AddrAt(line, p, n, acc) >= 0 ==> p + 2 * n <= |line|
    decreases n
  {
    hide Laid;
    if n > 0 {
      LaidByte(buf, line, p);
      if ByteAt(line, p) >= 0 {
        LaidAddr(buf, line, p + 2, n - 1, (acc * 0x100 + ByteAt(line, p)) % U32);
      }
    }
  }

  lemma {:induction false} LaidDeposit(mem: seq<byte>, buf: seq<byte>, line: seq<byte>, p: nat, a: nat, n: nat, sum: nat)
    requires |mem| == U32 && |buf| == LINE_MAX + 1 && |line| <= LINE_MAX && p <= |line|
    ensures Deposit(mem, Laid(buf, line), p, a, n, sum) == Deposit(mem, line, p, a, n, sum)
    ensures Deposit(mem, line, p, a, n, sum).2 ==> p + 2 * n <= |line|
    decreases n
  {
    hide Laid;
    if n > 0 {
      LaidByte(buf, line, p);
      var b := ByteAt(line, p);
      if b >= 0 {
        LaidDeposit(mem[a % U32 := b], buf, line, p + 2, a + 1, n - 1, (sum + b) % 0x100);
      }
    }
  }

  lemma LaidData(mem: seq<byte>, buf: seq<byte>, line: seq<byte>)
    requires |mem| == U32 && |buf| == LINE_MAX + 1 && 2 <= |line| <= LINE_MAX
    ensures LoadData(mem, Laid(buf, line)) == LoadData(mem, line)
  {
    hide Laid, ByteAt, AddrAt, Deposit;
    LaidByte(buf, line, 2);
    LaidKind(buf, line);
    var count, alen := ByteAt(line, 2), AddrBytes(Kind(line));
    if count >= 1 && alen != 0 {
      CountFits(line);
      LaidAddr(buf, line, 4, alen, 0);
      var a := AddrAt(line, 4, alen, 0);
      if a >= 0 {
        var head := (count + a / 0x100_0000 + a / 0x1_0000 + a / 0x100 + a) % 0x100;
        var len := if count - alen - 1 > 0 then count - alen - 1 else 0;
        LaidDeposit(mem, buf, line, 4 + 2 * alen, a, len, head);
        if Deposit(mem, line, 4 + 2 * alen, a, len, head).2 {
          LaidByte(buf, line, 4 + 2 * alen + 2 * len);
        }
      }
    }
  }

  lemma CountFits(line: seq<byte>)
    requires ByteAt(line, 2) >= 0
    ensures |line| >= 4
  {
  }

  lemma LaidKind(buf: seq<byte>, line: seq<byte>)
    requires |buf| == LINE_MAX + 1 && 2 <= |line| <= LINE_MAX
    ensures Kind(Laid(buf, line)) == Kind(line) && Laid(buf, line)[0] == line[0]
  {
  }

  /** A line of four characters or more is read for what it is; only shorter end records see what lies behind. */
  lemma LaidLine(mem: seq<byte>, buf: seq<byte>, line: seq<byte>)
    requires |mem| == U32 && |buf| == LINE_MAX + 1 && 2 <= |line| <= LINE_MAX
    requires |line| >= 4 || !(0x37 <= Kind(line) <= 0x39)
    ensures LoadLine(mem, Laid(buf, line)) == LoadLine(mem, line)
  {
    hide Laid, ByteAt, AddrAt, Deposit, LoadData;
    LaidKind(buf, line);
    if 0x37 <= Kind(line) <= 0x39 {
      LaidAddr(buf, line, 4, AddrBytes(Kind(line)), 0);
    } else {
      LaidData(mem, buf, line);
    }
  }

  lemma {:induction false} SameAddr(x: seq<byte>, y: seq<byte>, p: nat, n: nat, acc: nat)
    requires forall i :: p <= i < p + 2 * n ==> ByteAt(x, i) == ByteAt(y, i)
    ensures AddrAt(x, p, n, acc) == AddrAt(y, p, n, acc)
    decreases n
  {
    hide ByteAt;
    if n > 0 && ByteAt(x, p) >= 0 {
      SameAddr(x, y, p + 2, n - 1, (acc * 0x100 + ByteAt(x, p)) % U32);
    }
  }

  /** A line of just S8 takes its entry from the line before: behind a record, it is that record's address. */
  lemma ShortEndReadsOn(mem: seq<byte>, buf: seq<byte>, a: nat, data: seq<byte>)
    requires |mem| == U32 && |buf| == LINE_MAX + 1 && |data| <= CHUNK && a < LOW
    ensures LoadLine(mem, Laid(Laid(buf, Record(a, data)), [0x53, 0x38])) == (mem, End(a))
    ensures LoadLine(mem, [0x53, 0x38]) == (mem, EndBadHex)
  {
    hide Record, AddrAt;
    var line := Record(a, data);
    var x := Laid(Laid(buf, line), [0x53, 0x38]);
    assert forall i :: 3 <= i < |line| ==> x[i] == line[i];
    SameAddr(x, line, 4, 3, 0);
    AddrOfRecord(a, data);
    assert ByteAt([0x53, 0x38], 4) == -1;
    AddrFails([0x53, 0x38], 4, 3, 0);
  }

  lemma AddrFails(line: seq<byte>, p: nat, n: nat, acc: nat)
    requires n > 0 && ByteAt(line, p) < 0
    ensures AddrAt(line, p, n, acc) == -1
  {
  }

  // ---------- dumping and loading ----------

  /** No character of a line ends or aborts it. */
  predicate Plain(t: seq<byte>) {
    forall i :: 0 <= i < |t| ==> t[i] != CR && t[i] != LF && t[i] != BREAK
  }

  lemma {:induction false} ReadPlain(t: seq<byte>, rest: seq<byte>, got: seq<byte>)
    requires Plain(t) && |got| + |t| <= LINE_MAX && got + t != []
    ensures ReadLine(t + [CR, LF] + rest, got) == Ready(got + t, [LF] + rest)
    decreases |t|
  {
    var input := t + [CR, LF] + rest;
    if t == [] {
      assert input[0] == CR && input[1..] == [LF] + rest && got + t == got;
    } else {
      assert input[0] == t[0] && input[1..] == t[1..] + [CR, LF] + rest;
      assert (got + [t[0]]) + t[1..] == got + t;
      ReadPlain(t[1..], rest, got + [t[0]]);
    }
  }

  lemma {:induction false} HexPlain(s: seq<byte>)
    ensures Plain(HexAll(s))
    decreases |s|
  {
    if s != [] {
      HexPlain(s[1..]);
    }
  }

  lemma RecordPlain(a: nat, data: seq<byte>)
    requires |data| <= CHUNK
    ensures Plain(Record(a, data))
  {
    hide Payload;
    HexPlain(Payload(a, data));
  }

  /** A line feed left over from the line before is skipped. */
  lemma SkipLineFeed(input: seq<byte>)
    ensures ReadLine([LF] + input, []) == ReadLine(input, [])
  {
    assert ([LF] + input)[1..] == input;
  }

  lemma LoadSkips(mem: seq<byte>, buf: seq<byte>, input: seq<byte>, complaints: nat)
    requires |mem| == U32 && |buf| == LINE_MAX + 1
    ensures LoadAll(mem, buf, [LF] + input, complaints) == LoadAll(mem, buf, input, complaints)
  {
    SkipLineFeed(input);
  }

  /** One printed line loaded. */
  lemma LoadLineFirst(mem: seq<byte>, buf: seq<byte>, t: seq<byte>, rest: seq<byte>, complaints: nat)
    requires |mem| == U32 && |buf| == LINE_MAX + 1 && Plain(t) && 4 <= |t| <= LINE_MAX
    ensures var (mem', v) := LoadLine(mem, t);
            LoadAll(mem, buf, t + [CR, LF] + rest, complaints)
            == if v.End? then Loaded(mem', complaints, v.entry)
               else if v.EndBadHex? then Loaded(mem', complaints + 1, -1)
               else LoadAll(mem', Laid(buf, t), rest, complaints + Complains(v))
  {
    hide LoadLine, Plain, Laid;
    ReadPlain(t, rest, []);
    assert [] + t == t;
    LaidLine(mem, buf, t);
    var (mem', v) := LoadLine(mem, t);
    LoadSkips(mem', Laid(buf, t), rest, complaints + Complains(v));
  }

  /** Only 24 bits of an address are printed: a record from a multiple of 2^24 further up is the same text. */
  lemma RecordTruncates(q: nat, b: nat, data: seq<byte>)
    requires |data| <= CHUNK
    ensures Record(LOW * q + b, data) == Record(b, data)
  {
    var a := LOW * q + b;
    assert a / 0x1_0000 == b / 0x1_0000 + 0x100 * q && a / 0x100 == b / 0x100 + 0x100 * (0x100 * q) && a == b + 0x100 * (0x1_0000 * q);
    ModPlus(b / 0x1_0000, q);
    ModPlus(b / 0x100, 0x100 * q);
    ModPlus(b, 0x1_0000 * q);
  }

  lemma ModPlus(x: nat, k: nat)
    ensures (x + 0x100 * k) % 0x100 == x % 0x100
  {
  }

  /** Where loading a dump puts the bytes: each record at its address below 2^24. */
  function Landed(mem: seq<byte>, a: nat, s: seq<byte>): (r: seq<byte>)
    requires |mem| == U32
    ensures |r| == U32
    decreases |s|
  {
    if s == [] then mem
    else Landed(Splice(mem, a % LOW, Chunk(s)), a + |Chunk(s)|, s[|Chunk(s)|..])
  }

  /** Loading the dump of any range, whatever memory and the line buffer held before. */
  lemma {:induction false} LoadLands(mem: seq<byte>, buf: seq<byte>, a: nat, s: seq<byte>, complaints: nat)
    requires |mem| == U32 && |buf| == LINE_MAX + 1
    ensures LoadAll(mem, buf, Dump(a, s), complaints) == Loaded(Landed(mem, a, s), complaints, 0)
    decreases |s|
  {
    hide LoadAll, LoadLine, Splice, Record, Plain, Laid;
    if s == [] {
      EndLoads(mem);
      EndPlain();
      assert END + [CR, LF] + [] == END + [CR, LF];
      LoadLineFirst(mem, buf, END, [], complaints);
    } else {
      var c := Chunk(s);
      var rest := Dump(a + |c|, s[|c|..]);
      RecordPlain(a, c);
      LoadLineFirst(mem, buf, Record(a, c), rest, complaints);
      RecordTruncates(a / LOW, a % LOW, c);
      RecordLoads(mem, a % LOW, c);
      LoadLands(Splice(mem, a % LOW, c), Laid(buf, Record(a, c)), a + |c|, s[|c|..], complaints);
    }
  }

  lemma EndPlain()
    ensures Plain(END)
  {
  }

  lemma SpliceNone(mem: seq<byte>, a: nat)
    requires a <= |mem|
    ensures Splice(mem, a, []) == mem
  {
  }

  /** The last of the addresses at which the records of a range start. */
  function LastStart(a: nat, s: seq<byte>): nat {
    if s == [] then a else a + (|s| - 1) / CHUNK * CHUNK
  }

  lemma LastStartStep(a: nat, s: seq<byte>)
    requires s != []
    ensures var c := Chunk(s);
            if s[|c|..] == [] then LastStart(a, s) == a
            else LastStart(a, s) == LastStart(a + |c|, s[|c|..]) && LastStart(a, s) >= a + |c| && |c| == CHUNK
  {
  }

  /** Records that all start below 2^24 land at their own addresses, one behind the other. */
  lemma {:induction false} LandedBelow(mem: seq<byte>, a: nat, s: seq<byte>)
    requires |mem| == U32 && (s == [] ==> a <= U32) && (s != [] ==> LastStart(a, s) < LOW)
    ensures a + |s| <= U32 && Landed(mem, a, s) == Splice(mem, a, s)
    decreases |s|
  {
    hide Splice;
    if s == [] {
      SpliceNone(mem, a);
    } else {
      var c := Chunk(s);
      LastStartStep(a, s);
      LandedBelow(Splice(mem, a, c), a + |c|, s[|c|..]);
      SpliceAdjacent(mem, a, c, s[|c|..]);
      assert c + s[|c|..] == s;
    }
  }

  /** Loading what was dumped restores the bytes at their address, with no complaint, whatever memory held before. */
  lemma LoadInvertsDump(mem: seq<byte>, buf: seq<byte>, a: nat, s: seq<byte>, complaints: nat)
    requires |mem| == U32 && |buf| == LINE_MAX + 1 && a + |s| <= LOW
    ensures LoadAll(mem, buf, Dump(a, s), complaints) == Loaded(Splice(mem, a, s), complaints, 0)
  {
    LoadLands(mem, buf, a, s, complaints);
    LandedBelow(mem, a, s);
  }

  lemma {:induction false} LandedTruncates(mem: seq<byte>, q: nat, b: nat, s: seq<byte>)
    requires |mem| == U32
    ensures Landed(mem, LOW * q + b, s) == Landed(mem, b, s)
    decreases |s|
  {
    hide Splice;
    if s != [] {
      var c := Chunk(s);
      assert (LOW * q + b) % LOW == b % LOW by { LowRest(q, b); }
      LandedTruncates(Splice(mem, b % LOW, c), q, b + |c|, s[|c|..]);
    }
  }

  lemma LowRest(q: nat, b: nat)
    ensures (LOW * q + b) % LOW == b % LOW
  {
  }

  /**
   A dump from `q` times 2^24 further up is loaded below 2^24, over what was there; the range it came from holds its
   bytes again only if it held them before.
   */
  lemma HighDumpLoadsLow(mem: seq<byte>, buf: seq<byte>, q: nat, b: nat, s: seq<byte>, complaints: nat)
    requires |mem| == U32 && |buf| == LINE_MAX + 1 && b + |s| <= LOW && LOW * q + b + |s| <= U32
    ensures var a := LOW * q + b;
            var r := LoadAll(mem, buf, Dump(a, s), complaints);
            && r == Loaded(Splice(mem, b, s), complaints, 0)
            && (r.mem[a..a + |s|] == s <==> q == 0 || mem[a..a + |s|] == s)
  {
    hide Splice, LoadAll, Dump;
    var a := LOW * q + b;
    LoadLands(mem, buf, a, s, complaints);
    LandedTruncates(mem, q, b, s);
    LandedBelow(mem, b, s);
    if q == 0 {
      SpliceBack(mem, b, s);
    } else {
      SpliceBeside(mem, b, s, a, a + |s|);
    }
  }

  lemma SpliceBack(mem: seq<byte>, b: nat, s: seq<byte>)
    requires b + |s| <= |mem|
    ensures Splice(mem, b, s)[b..b + |s|] == s
  {
  }

  /** Records start a multiple of 16 apart, so none reaches over the start of another. */
  lemma StartsApart(a: nat, l: nat, k: int)
    requires LOW <= l && l - a == CHUNK * k
    ensures l >= a % LOW + CHUNK
  {
    var p, j := a % LOW, k + 0x10_0000 * (a / LOW);
    assert a == LOW * (a / LOW) + p;
    assert l - p == CHUNK * j;
  }

  /** No record touches the first byte of one that starts at 2^24 or above. */
  lemma {:induction false} LandedSkips(mem: seq<byte>, a: nat, s: seq<byte>, l: nat, k: int)
    requires |mem| == U32 && LOW <= l < U32 && l - a == CHUNK * k
    ensures Landed(mem, a, s)[l] == mem[l]
    decreases |s|
  {
    hide Splice, Landed;
    LandedStep(mem, a, s);
    if s != [] {
      var c := Chunk(s);
      StartsApart(a, l, k);
      SpliceAt(mem, a % LOW, c);
      if s[|c|..] == [] {
        LandedStep(Splice(mem, a % LOW, c), a + |c|, s[|c|..]);
      } else {
        LandedSkips(Splice(mem, a % LOW, c), a + |c|, s[|c|..], l, k - 1);
      }
    }
  }

  lemma LandedStep(mem: seq<byte>, a: nat, s: seq<byte>)
    requires |mem| == U32
    ensures s == [] ==> Landed(mem, a, s) == mem
    ensures s != [] ==> Landed(mem, a, s) == Landed(Splice(mem, a % LOW, Chunk(s)), a + |Chunk(s)|, s[|Chunk(s)|..])
  {
  }

  /** A range is restored over every memory exactly when its last record starts below 2^24. */
  lemma DumpRestoresIff(buf: seq<byte>, a: nat, s: seq<byte>)
    requires |buf| == LINE_MAX + 1 && s != [] && a + |s| <= U32
    ensures (forall mem :: |mem| == U32 ==> LoadAll(mem, buf, Dump(a, s), 0).mem[a..a + |s|] == s) <==> LastStart(a, s) < LOW
  {
    hide LoadAll, Dump, Landed, Splice;
    var l := LastStart(a, s);
    if l < LOW {
      forall mem: seq<byte> | |mem| == U32
        ensures LoadAll(mem, buf, Dump(a, s), 0).mem[a..a + |s|] == s
      {
        LoadLands(mem, buf, a, s, 0);
        LandedBelow(mem, a, s);
        SpliceBack(mem, a, s);
      }
    } else {
      var other: byte := if s[l - a] == 0 then 1 else 0;
      var mem := seq(U32, _ => other);
      LoadLands(mem, buf, a, s, 0);
      LandedSkips(mem, a, s, l, (|s| - 1) / CHUNK);
      assert LoadAll(mem, buf, Dump(a, s), 0).mem[a..a + |s|][l - a] == other;
    }
  }

  // ---------- the program ----------

  /** srec_putb: two digits, and the running sum. */
  method PutByte(out: seq<byte>, b: byte, sum: nat) returns (out': seq<byte>, sum': nat)
    requires sum < 0x100
    ensures out' == out + Hex(b) && sum' == (sum + b as nat) % 0x100
  {
    out', sum' := out + Hex(b), (sum + b as nat) % 0x100;
  }

  /** The bytes of a record behind its type. */
  method PutAll(head: seq<byte>, s: seq<byte>) returns (out: seq<byte>, sum: nat)
    ensures out == head + HexAll(s) && sum == Sum(s)
  {
    hide Hex, Total;
    out, sum := head, 0;
    HexNone();
    TotalNone();
    for i := 0 to |s|
      invariant out == head + HexAll(s[..i]) && sum == Total(s[..i]) % 0x100
    {
      assert s[..i + 1] == s[..i] + [s[i]];
      HexAllConcat(s[..i], [s[i]]);
      HexOne(s[i]);
      TotalConcat(s[..i], [s[i]]);
      TotalFirst(s[i], []);
      assert [s[i]] + [] == [s[i]];
      ModAdd(Total(s[..i]), s[i] as nat);
      out, sum := PutByte(out, s[i], sum);
    }
    assert s[..|s|] == s;
  }

  lemma HexNone()
    ensures HexAll([]) == []
  {
  }

  lemma HexOne(b: byte)
    ensures HexAll([b]) == Hex(b)
  {
    assert [b][1..] == [];
  }

  /** The sending half of cmd_srec. */
  method Send(mem: seq<byte>, addr: nat, len: nat) returns (text: seq<byte>)
    requires addr + len <= |mem| <= U32
    ensures text == Dump(addr, mem[addr..addr + len])
  {
    hide Record, HexAll, Hex, Total, Dump;
    text := [];
    var off := 0;
    while off < len
      invariant off <= len
      invariant text + Dump(addr + off, mem[addr + off..addr + len]) == Dump(addr, mem[addr..addr + len])
    {
      ghost var s, a := mem[addr + off..addr + len], addr + off;
      var chunk := if len - off > CHUNK then CHUNK else len - off;
      var data := mem[addr + off..addr + off + chunk];
      assert data == Chunk(s) && s[chunk..] == mem[addr + off + chunk..addr + len];
      var record := SendRecord(addr + off, data);
      DumpStep(a, s);
      Regroup(text, record + [CR, LF], Dump(a + chunk, s[chunk..]));
      text := text + (record + [CR, LF]);
      off := off + chunk;
    }
    DumpEnd(addr + off, mem[addr + off..addr + len]);
    text := text + (END + [CR, LF]);
  }

  lemma DumpStep(a: nat, s: seq<byte>)
    requires s != []
    ensures Dump(a, s) == Record(a, Chunk(s)) + [CR, LF] + Dump(a + |Chunk(s)|, s[|Chunk(s)|..])
  {
  }

  lemma DumpEnd(a: nat, s: seq<byte>)
    requires s == []
    ensures Dump(a, s) == END + [CR, LF]
  {
  }

  method SendRecord(a: nat, data: seq<byte>) returns (t: seq<byte>)
    requires |data| <= CHUNK
    ensures t == Record(a, data)
  {
    hide HexAll, Hex, Total;
    var sum;
    t, sum := PutAll([0x53, 0x32], Body(a, data));
    HexAllConcat(Body(a, data), [0xFF - sum]);
    HexOne(0xFF - sum);
    t := t + Hex(0xFF - sum);
  }

  /** What one more character does to a line being read. */
  lemma ReadStep(input: seq<byte>, i: nat, got: seq<byte>)
    requires i < |input| && |got| <= LINE_MAX
    ensures var c, rest := input[i], input[i + 1..];
            ReadLine(input[i..], got)
            == if c == CR || c == LF then (if got != [] then Ready(got, rest) else ReadLine(rest, []))
               else if c == BREAK then Aborted
               else ReadLine(rest, if |got| < LINE_MAX then got + [c] else got)
  {
    assert input[i..][1..] == input[i + 1..];
  }

  lemma LaidStep(was: seq<byte>, got: seq<byte>, c: byte)
    requires |was| == LINE_MAX + 1 && |got| <= LINE_MAX
    ensures (got + was[|got|..])[|got| := c] == got + [c] + was[|got| + 1..]
    ensures (got + was[|got|..])[..|got|] == got
    ensures c == 0 ==> (got + was[|got|..])[|got| := c] == Laid(was, got)
  {
  }

  /** srec_read_line: the line goes into the buffer, with an end mark behind it. */
  method GetLine(input: seq<byte>, buf: array<byte>) returns (r: Line)
    requires buf.Length == LINE_MAX + 1
    modifies buf
    ensures r == ReadLine(input, []) && (r.Ready? ==> buf[..] == Laid(old(buf[..]), r.line))
  {
    hide ReadLine, Laid;
    ghost var got: seq<byte> := [];
    var n, i := 0, 0;
    assert input[0..] == input && [] + buf[..] == buf[..];
    while i < |input|
      invariant i <= |input| && n == |got| <= LINE_MAX && ReadLine(input[i..], got) == ReadLine(input, [])
      invariant buf[..] == got + old(buf[..])[n..]
    {
      var c := input[i];
      ReadStep(input, i, got);
      LaidStep(old(buf[..]), got, c);
      if c == CR || c == LF {
        if n > 0 {
          LaidStep(old(buf[..]), got, 0);
          var line := buf[..n];
          assert line == buf[..][..n];
          buf[n] := 0;
          return Ready(line, input[i + 1..]);
        }
      } else if c == BREAK {
        return Aborted;
      } else if n < LINE_MAX {
        buf[n] := c;
        got := got + [c];
        n := n + 1;
      }
      i := i + 1;
    }
    ReadEnd(input, i, got);
    r := Waiting;
  }

  lemma ReadEnd(input: seq<byte>, i: nat, got: seq<byte>)
    requires i == |input| && |got| <= LINE_MAX
    ensures ReadLine(input[i..], got) == Waiting
  {
  }

  /** The data loop of the loader: bytes go to memory as they are read. */
  method PutData(mem: array<byte>, line: seq<byte>, p: nat, a: nat, n: nat, sum: nat) returns (sum': nat, ok: bool)
    requires mem.Length == U32
    modifies mem
    ensures (mem[..], sum', ok) == Deposit(old(mem[..]), line, p, a, n, sum)
  {
    hide ByteAt;
    sum', ok := sum, true;
    for i := 0 to n
      invariant ok && Deposit(mem[..], line, p + 2 * i, a + i, n - i, sum') == Deposit(old(mem[..]), line, p, a, n, sum)
    {
      var b := ByteAt(line, p + 2 * i);
      if b < 0 {
        ok := false;
        return;
      }
      ghost var m := mem[..];
      mem[(a + i) % U32] := b;
      assert mem[..] == m[(a + i) % U32 := b as byte];
      sum' := (sum' + b) % 0x100;
    }
  }

  /** One line for the loader. */
  method TakeLine(mem: array<byte>, line: seq<byte>) returns (v: Verdict)
    requires mem.Length == U32
    modifies mem
    ensures (mem[..], v) == LoadLine(old(mem[..]), line)
  {
    hide ByteAt, AddrAt, Deposit;
    if line == [] || line[0] != 0x53 {
      return NotARecord;
    }
    var kind := Kind(line);
    if 0x37 <= kind <= 0x39 {
      var e := AddrAt(line, 4, AddrBytes(kind), 0);
      return if e < 0 then EndBadHex else End(e);
    }
    if !(0x30 <= kind <= 0x35) {
      return Quiet;
    }
    var count := ByteAt(line, 2);
    if count < 1 {
      return BadCount;
    }
    var alen := AddrBytes(kind);
    if alen == 0 {
      return Quiet;
    }
    var a := AddrAt(line, 4, alen, 0);
    if a < 0 {
      return BadHex;
    }
    var sum := (count + a / 0x100_0000 + a / 0x1_0000 + a / 0x100 + a) % 0x100;
    var len := if count - alen - 1 > 0 then count - alen - 1 else 0;
    var ok;
    sum, ok := PutData(mem, line, 4 + 2 * alen, a, len, sum);
    if !ok {
      return BadHex;
    }
    v := if ByteAt(line, 4 + 2 * alen + 2 * len) != 0xFF - sum then BadSum else Quiet;
  }

  /** The receiving half of cmd_srec, whatever the line buffer holds at the start. */
  method Load(mem: array<byte>, line: array<byte>, console: seq<byte>) returns (complaints: nat, entry: int)
    requires mem.Length == U32 && line.Length == LINE_MAX + 1 && line != mem
    modifies mem, line
    ensures Loaded(mem[..], complaints, entry) == LoadAll(old(mem[..]), old(line[..]), console, 0)
  {
    hide LoadLine, ReadLine, Laid;
    complaints, entry := 0, -1;
    var input := console;
    while true
      invariant LoadAll(mem[..], line[..], input, complaints) == LoadAll(old(mem[..]), old(line[..]), console, 0) && entry == -1
      decreases |input|
    {
      var l := GetLine(input, line);
      match l {
        case Waiting => return;
        case Aborted => return;
        case Ready(_, rest) =>
          var v := TakeLine(mem, line[..]);
          if v.End? {
            entry := v.entry;
            return;
          }
          complaints := complaints + Complains(v);
          if v.EndBadHex? {
            return;
          }
          input := rest;
      }
    }
  }
}
