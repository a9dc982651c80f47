/** The loader's check of a record: when it complains, told in the digits of the line and the bytes they stand for. */
module SrecChecks {
  import opened Bytes
  import opened Srec

  /** A hexadecimal digit, capital or small. */
  predicate DigitFor(c: byte, n: int) {
    || (0x30 <= c <= 0x39 && n == c as int - 0x30)
    || (0x41 <= c <= 0x46 && n == c as int - 0x37)
    || (0x61 <= c <= 0x66 && n == c as int - 0x57)
  }

  /** The two characters at `p` spell the byte. */
  predicate Spelled(line: seq<byte>, p: nat, b: byte) {
    p + 1 < |line| && DigitFor(line[p], b as int / 16) && DigitFor(line[p + 1], b as int % 16)
  }

  /** From the third character on, the line spells these bytes: count, address, data, and check. */
  predicate SpellsAll(line: seq<byte>, bytes: seq<byte>) {
    forall k :: 0 <= k < |bytes| ==> Spelled(line, 2 + 2 * k, bytes[k])
  }

  lemma NibbleIs(c: byte, n: int)
    requires n >= 0
    ensures Nibble(c) == n <==> DigitFor(c, n)
  {
  }

  lemma SpelledIs(line: seq<byte>, p: nat, b: byte)
    ensures Spelled(line, p, b) <==> ByteAt(line, p) == b as int
  {
    hide Nibble, DigitFor;
    if p + 1 < |line| {
      NibbleIs(line[p], b as int / 16);
      NibbleIs(line[p + 1], b as int % 16);
    }
  }

  /** A number of several bytes, highest first. */
  function BigEndian(bs: seq<byte>): nat {
    if bs == [] then 0 else BigEndian(bs[..|bs| - 1]) * 256 + bs[|bs| - 1] as nat
  }

  function Bound(n: nat): (b: nat)
    ensures b > 0
  {
    if n == 0 then 1 else Bound(n - 1) * 256
  }

  lemma {:induction false} BigBelow(bs: seq<byte>)
    ensures BigEndian(bs) < Bound(|bs|)
  {
    if bs != [] {
      BigBelow(bs[..|bs| - 1]);
    }
  }

  lemma FourBytes(bs: seq<byte>)
    requires |bs| <= 4
    ensures BigEndian(bs) < U32
  {
    BigBelow(bs);
    assert Bound(0) == 1 && Bound(1) == 256 && Bound(2) == 65536 && Bound(3) == 0x100_0000 && Bound(4) == U32;
  }

  lemma BigNext(bs: seq<byte>, i: nat)
    requires i < |bs|
    ensures BigEndian(bs[..i + 1]) == BigEndian(bs[..i]) * 256 + bs[i] as nat
  {
    assert bs[..i + 1][..i] == bs[..i];
  }

  /** The address is read. */
  lemma {:induction false} AddrReads(line: seq<byte>, p: nat, bs: seq<byte>, i: nat)
    requires |bs| <= 4 && i <= |bs| && forall k :: 0 <= k < |bs| ==> ByteAt(line, p + 2 * k) == bs[k] as int
    ensures AddrAt(line, p + 2 * i, |bs| - i, BigEndian(bs[..i])) == BigEndian(bs)
    decreases |bs| - i
  {
    hide ByteAt, BigEndian, AddrAt;
    if i < |bs| {
      BigNext(bs, i);
      FourBytes(bs[..i + 1]);
      AddrStep(line, p + 2 * i, |bs| - i, BigEndian(bs[..i]), bs[i] as nat);
      AddrReads(line, p, bs, i + 1);
    } else {
      assert bs[..i] == bs;
      AddrDone(line, p + 2 * i, BigEndian(bs));
    }
  }

  function DigitSum(x: nat, k: nat): nat {
    if k == 0 then 0 else x % 256 + DigitSum(x / 256, k - 1)
  }

  lemma BigSplit(bs: seq<byte>)
    requires bs != []
    ensures BigEndian(bs) / 256 == BigEndian(bs[..|bs| - 1]) && BigEndian(bs) % 256 == bs[|bs| - 1] as nat
  {
  }

  lemma TotalLast(bs: seq<byte>)
    requires bs != []
    ensures Total(bs) == Total(bs[..|bs| - 1]) + bs[|bs| - 1] as nat
  {
    hide Total;
    var n := |bs| - 1;
    assert bs == bs[..n] + [bs[n]] && [bs[n]] + [] == [bs[n]];
    TotalConcat(bs[..n], [bs[n]]);
    TotalFirst(bs[n], []);
    TotalNone();
  }

  lemma {:induction false} BytesOfBig(bs: seq<byte>, k: nat)
    requires |bs| <= k
    ensures DigitSum(BigEndian(bs), k) == Total(bs)
    decreases k
  {
    if bs == [] {
      NoDigits(k);
    } else {
      hide BigEndian, Total;
      BytesOfBig(bs[..|bs| - 1], k - 1);
      BigSplit(bs);
      TotalLast(bs);
    }
  }

  lemma {:induction false} NoDigits(k: nat)
    ensures DigitSum(0, k) == 0
  {
    if k > 0 {
      NoDigits(k - 1);
    }
  }

  lemma FourDigits(x: nat)
    ensures DigitSum(x, 4) == x % 0x100 + x / 0x100 % 0x100 + x / 0x100 / 0x100 % 0x100 + x / 0x100 / 0x100 / 0x100 % 0x100
  {
    var y, z, w := x / 0x100, x / 0x100 / 0x100, x / 0x100 / 0x100 / 0x100;
    assert DigitSum(w, 1) == w % 256 + DigitSum(w / 256, 0);
    assert DigitSum(z, 2) == z % 256 + DigitSum(w, 1);
    assert DigitSum(y, 3) == y % 256 + DigitSum(z, 2);
  }

  /** The loader's sum over count and address. */
  lemma HeadIs(count: nat, bs: seq<byte>)
    requires |bs| <= 4
    ensures var a := BigEndian(bs);
            (count + a / 0x100_0000 + a / 0x1_0000 + a / 0x100 + a) % 0x100 == (count + Total(bs)) % 0x100
  {
    hide Total, BigEndian;
    BytesOfBig(bs, 4);
    var a := BigEndian(bs);
    assert a / 0x100 / 0x100 == a / 0x1_0000 && a / 0x1_0000 / 0x100 == a / 0x100_0000;
    FourDigits(a);
    ModAdd(a, count + a / 0x100 % 0x100 + a / 0x1_0000 % 0x100 + a / 0x100_0000 % 0x100);
    ModFour(count + a, a / 0x100, a / 0x1_0000, a / 0x100_0000);
  }

  /** The data is stored and added up. */
  lemma {:induction false} DepositReads(mem: seq<byte>, line: seq<byte>, p: nat, a: nat, data: seq<byte>, sum: nat)
    requires |mem| == U32 && a < U32 && sum < 0x100 && forall k :: 0 <= k < |data| ==> ByteAt(line, p + 2 * k) == data[k] as int
    ensures var (mem', sum', ok) := Deposit(mem, line, p, a, |data|, sum);
            && ok && sum' == (sum + Total(data)) % 0x100 && (a + |data| <= U32 ==> mem' == Splice(mem, a, data))
    decreases |data|
  {
    hide ByteAt, Total, Deposit, Splice;
    if data == [] {
      TotalNone();
      DepositNone(mem, line, p, a, sum);
    } else {
      var b := data[0];
      var rest := data[1..];
      assert data == [b] + rest;
      assert ByteAt(line, p) == ByteAt(line, p + 2 * 0) == b as int;
      forall k | 0 <= k < |rest|
        ensures ByteAt(line, p + 2 + 2 * k) == rest[k] as int
      {
        assert ByteAt(line, p + 2 * (k + 1)) == data[k + 1] as int;
      }
      DepositStep(mem, line, p, a, |data|, sum, b);
      DepositRound(mem[a := b], line, p + 2, a + 1, (a + 1) % U32, |rest|, (sum + b as nat) % 0x100);
      DepositReads(mem[a := b], line, p + 2, (a + 1) % U32, rest, (sum + b as nat) % 0x100);
      ModAdd(sum + b as nat, Total(rest));
      TotalFirst(b, rest);
      if a + |data| <= U32 {
        SpliceFirst(mem, a, b, rest);
        if rest == [] {
          DepositNone(mem[a := b], line, p, 0, 0);
          DepositNone(mem[a := b], line, p, a + 1, 0);
        }
      }
    }
  }

  lemma {:induction false} DepositRound(mem: seq<byte>, line: seq<byte>, p: nat, a: nat, c: nat, n: nat, sum: nat)
    requires |mem| == U32 && a % U32 == c % U32
    ensures Deposit(mem, line, p, a, n, sum) == Deposit(mem, line, p, c, n, sum)
    decreases n
  {
    hide ByteAt;
    if n > 0 && ByteAt(line, p) >= 0 {
      var b := ByteAt(line, p);
      DepositRound(mem[a % U32 := b], line, p + 2, a + 1, c + 1, n - 1, (sum + b) % 0x100);
    }
  }

  /** The check that makes the bytes add up. */
  lemma AddsUpIff(rest: nat, ck: nat)
    requires ck < 0x100
    ensures (rest + ck) % 0x100 == 0xFF <==> ck == 0xFF - rest % 0x100
  {
    assert rest == rest / 0x100 * 0x100 + rest % 0x100;
  }

  /** What is read of such a line: count, address, data with the sum so far, and check. */
  lemma LineParts(mem: seq<byte>, line: seq<byte>, bytes: seq<byte>, alen: nat)
    requires |mem| == U32 && 2 <= alen <= 4 && |bytes| >= alen + 2 && bytes[0] as int == |bytes| - 1 && SpellsAll(line, bytes)
    ensures var a, data, count := BigEndian(bytes[1..1 + alen]), bytes[1 + alen..|bytes| - 1], bytes[0] as nat;
            && a < U32 && ByteAt(line, 2) == count && AddrAt(line, 4, alen, 0) == a
            && var head := (count + a / 0x100_0000 + a / 0x1_0000 + a / 0x100 + a) % 0x100;
               var (mem', sum, ok) := Deposit(mem, line, 4 + 2 * alen, a, |data|, head);
               && ok && (sum + bytes[|bytes| - 1] as nat) % 0x100 == Total(bytes) % 0x100 && sum < 0x100
               && (a + |data| <= U32 ==> mem' == Splice(mem, a, data))
    ensures ByteAt(line, 2 + 2 * (|bytes| - 1)) == bytes[|bytes| - 1] as int
  {
    hide ByteAt, Total, Deposit, Splice, AddrAt, BigEndian, Spelled;
    forall k | 0 <= k < |bytes|
      ensures ByteAt(line, 2 + 2 * k) == bytes[k] as int
    {
      SpelledIs(line, 2 + 2 * k, bytes[k]);
    }
    var addr, data, ck := bytes[1..1 + alen], bytes[1 + alen..|bytes| - 1], bytes[|bytes| - 1];
    var count := bytes[0] as nat;
    FourBytes(addr);
    forall k | 0 <= k < |addr|
      ensures ByteAt(line, 4 + 2 * k) == addr[k] as int
    {
      assert ByteAt(line, 2 + 2 * (k + 1)) == bytes[k + 1] as int;
    }
    AddrFrom(line, addr);
    HeadIs(count, addr);
    var head := (count + Total(addr)) % 0x100;
    forall k | 0 <= k < |data|
      ensures ByteAt(line, 4 + 2 * alen + 2 * k) == data[k] as int
    {
      assert ByteAt(line, 2 + 2 * (1 + alen + k)) == bytes[1 + alen + k] as int;
    }
    DepositReads(mem, line, 4 + 2 * alen, BigEndian(addr), data, head);
    PartsTotal(bytes, alen);
    ModAdd(count + Total(addr), Total(data));
    ModAdd(count + Total(addr) + Total(data), ck as nat);
    assert ByteAt(line, 2 + 2 * 0) == count;
  }

  /**
   A line that starts with S1, S2 or S3 and whose digits spell as many bytes as its count says, at least address and
   check: the data goes to the address, and the loader complains exactly when all the bytes do not add up to 0xFF in
   eight bits.
   */
  lemma ComplainsIff(mem: seq<byte>, line: seq<byte>, bytes: seq<byte>, alen: nat)
    requires |mem| == U32 && 2 <= alen <= 4 && |line| > 1 && line[0] == 0x53 && line[1] as int == 0x2F + alen
    requires |bytes| >= alen + 2 && bytes[0] as int == |bytes| - 1 && SpellsAll(line, bytes)
    ensures BigEndian(bytes[1..1 + alen]) < U32
    ensures var (mem', v) := LoadLine(mem, line);
            var a, data := BigEndian(bytes[1..1 + alen]), bytes[1 + alen..|bytes| - 1];
            && v == (if Total(bytes) % 256 == 0xFF then Quiet else BadSum)
            && Complains(v) == (if Total(bytes) % 256 == 0xFF then 0 else 1)
            && (a + |data| <= U32 ==> mem' == Splice(mem, a, data))
  {
    hide ByteAt, Total, Deposit, Splice, AddrAt, BigEndian, SpellsAll;
    LineParts(mem, line, bytes, alen);
    var a, count := BigEndian(bytes[1..1 + alen]), bytes[0] as nat;
    var head := (count + a / 0x100_0000 + a / 0x1_0000 + a / 0x100 + a) % 0x100;
    AddsUpIff(Deposit(mem, line, 4 + 2 * alen, a, |bytes| - 2 - alen, head).1, bytes[|bytes| - 1] as nat);
  }

  lemma AddrFrom(line: seq<byte>, bs: seq<byte>)
    requires |bs| <= 4 && forall k :: 0 <= k < |bs| ==> ByteAt(line, 4 + 2 * k) == bs[k] as int
    ensures AddrAt(line, 4, |bs|, 0) == BigEndian(bs)
  {
    hide ByteAt, AddrAt;
    assert bs[..0] == [] && BigEndian([]) == 0;
    AddrReads(line, 4, bs, 0);
  }

  lemma PartsTotal(bytes: seq<byte>, alen: nat)
    requires |bytes| >= alen + 2
    ensures Total(bytes) == bytes[0] as nat + Total(bytes[1..1 + alen]) + Total(bytes[1 + alen..|bytes| - 1]) + bytes[|bytes| - 1] as nat
  {
    hide Total;
    var n := |bytes| - 1;
    var addr, data, ck := bytes[1..1 + alen], bytes[1 + alen..n], bytes[n];
    assert bytes == [bytes[0]] + (addr + (data + [ck]));
    TotalFirst(bytes[0], addr + (data + [ck]));
    TotalConcat(addr, data + [ck]);
    TotalConcat(data, [ck]);
    TotalFirst(ck, []);
    TotalNone();
    assert [ck] + [] == [ck];
  }

  // ---------- what is printed ----------

  lemma {:induction false} HexCapitals(s: seq<byte>)
    ensures forall c :: c in HexAll(s) ==> 0x30 <= c <= 0x39 || 0x41 <= c <= 0x46
    decreases |s|
  {
    if s != [] {
      HexCapitals(s[1..]);
    }
  }

  /** A printed record starts with S2 and spells, in capitals, the count, 24 address bits, the data and a check. */
  lemma RecordSpells(a: nat, data: seq<byte>)
    requires |data| <= 16
    ensures var t := Record(a, data);
            && |t| == 12 + 2 * |data| && t[0] == 0x53 && t[1] == 0x32
            && SpellsAll(t, Payload(a, data)) && Total(Payload(a, data)) % 256 == 0xFF
            && Payload(a, data)[..4 + |data|] == [(|data| + 4) as byte, a / 65536 % 256, a / 256 % 256, a % 256] + data
            && forall c :: c in t[2..] ==> 0x30 <= c <= 0x39 || 0x41 <= c <= 0x46
  {
    hide ByteAt, Payload, Total, Spelled;
    var t := Record(a, data);
    assert t[2..] == HexAll(Payload(a, data));
    HexCapitals(Payload(a, data));
    forall k | 0 <= k < 5 + |data|
      ensures Spelled(t, 2 + 2 * k, Payload(a, data)[k])
    {
      RecordBytes(a, data, k);
      SpelledIs(t, 2 + 2 * k, Payload(a, data)[k]);
    }
    PayloadTotal(a, data);
    PayloadIs(a, data);
  }

  lemma PayloadIs(a: nat, data: seq<byte>)
    requires |data| <= CHUNK
    ensures Payload(a, data)[..4 + |data|] == [(|data| + 4) as byte, a / 65536 % 256, a / 256 % 256, a % 256] + data
  {
    hide Sum;
  }

  // ---------- a printed record with one byte altered ----------

  /** The printed record with byte `k` behind its kind replaced. */
  function Altered(a: nat, data: seq<byte>, k: nat, b: byte): (t: seq<byte>)
    requires |data| <= CHUNK && k < 5 + |data|
    ensures |t| == 12 + 2 * |data|
  {
    [0x53, 0x32] + HexAll(Payload(a, data)[k := b])
  }

  lemma {:induction false} TotalAltered(s: seq<byte>, k: nat, b: byte)
    requires k < |s|
    ensures Total(s[k := b]) + s[k] as nat == Total(s) + b as nat
    decreases |s|
  {
    if k == 0 {
      assert s[k := b][1..] == s[1..];
    } else {
      assert s[k := b][1..] == s[1..][k - 1 := b];
      TotalAltered(s[1..], k - 1, b);
    }
  }

  lemma PayloadTotal(a: nat, data: seq<byte>)
    requires |data| <= CHUNK
    ensures Total(Payload(a, data)) % 256 == 0xFF
  {
    hide Total;
    var body := Body(a, data);
    var ck := 0xFF - Sum(body);
    TotalConcat(body, [ck]);
    TotalFirst(ck, []);
    TotalNone();
    assert [ck] + [] == [ck];
    AddsUpIff(Total(body), ck);
  }

  lemma AnotherTotal(t: nat, u: nat, x: nat, y: nat)
    requires t + x == u + y && x < 256 && y < 256 && x != y && u % 256 == 0xFF
    ensures t % 256 != 0xFF
  {
  }

  /** What is printed is quiet, and with any byte but the count altered it is complained of once. */
  lemma AlteredComplains(mem: seq<byte>, buf: seq<byte>, a: nat, data: seq<byte>, k: nat, b: byte)
    requires |mem| == U32 && |buf| == 256 && |data| <= CHUNK && 1 <= k < 5 + |data| && b != Payload(a, data)[k]
    ensures LoadLine(mem, Altered(a, data, k, b)).1 == BadSum
    ensures LoadAll(mem, buf, Altered(a, data, k, b) + [CR, LF] + (END + [CR, LF]), 0).complaints == 1
  {
    hide ByteAt, Payload, Total, LoadLine, Spelled, BigEndian, LoadAll;
    var p := Payload(a, data)[k := b];
    var line := Altered(a, data, k, b);
    PayloadParts(a, data);
    assert line[2..] == HexAll(p) && line[1] == 0x32;
    forall j | 0 <= j < |p|
      ensures Spelled(line, 2 + 2 * j, p[j])
    {
      ByteAtHex(line, p, j);
      SpelledIs(line, 2 + 2 * j, p[j]);
    }
    TotalAltered(Payload(a, data), k, b);
    PayloadTotal(a, data);
    AnotherTotal(Total(p), Total(Payload(a, data)), Payload(a, data)[k] as nat, b as nat);
    ComplainsIff(mem, line, p, 3);
    HexPlain(p);
    PlainHead(line, p);
    var mem' := LoadLine(mem, line).0;
    LoadLineFirst(mem, buf, line, END + [CR, LF], 0);
    EndPlain();
    EndLoads(mem');
    LoadLineFirst(mem', Laid(buf, line), END, [], 1);
    assert END + [CR, LF] + [] == END + [CR, LF];
  }

  lemma PlainHead(line: seq<byte>, p: seq<byte>)
    requires line == [0x53, 0x32] + HexAll(p) && Plain(HexAll(p))
    ensures Plain(line)
  {
  }

  // ---------- lines and end records ----------

  /** No carriage return, line feed or Ctrl-C. */
  predicate OneLine(t: seq<byte>) {
    forall i :: 0 <= i < |t| ==> t[i] != 0x0D && t[i] != 0x0A && t[i] != 0x03
  }

  lemma {:induction false} LineReads(t: seq<byte>, c: byte, rest: seq<byte>, got: seq<byte>)
    requires OneLine(t) && |got| <= 255 && c in {0x0D, 0x0A, 0x03}
    ensures var line := got + t; 
            ReadLine(t + [c] + rest, got)
            == if c == 0x03 then Aborted
               else if line == [] then ReadLine(rest, [])
               else Ready(if |line| <= 255 then line else line[..255], rest)
    decreases |t|
  {
    var input := t + [c] + rest;
    if t == [] {
      assert input[1..] == rest && got + t == got;
    } else {
      assert input[0] == t[0] && input[1..] == t[1..] + [c] + rest;
      var got' := if |got| < 255 then got + [t[0]] else got;
      LineReads(t[1..], c, rest, got');
      assert got + t == got + [t[0]] + t[1..];
      if |got| == 255 {
        assert (got + t)[..255] == got && (got' + t[1..])[..255] == got;
      }
    }
  }

  /** A line ends at a carriage return or line feed, and loses what is behind 255 characters; Ctrl-C ends the load. */
  lemma LineIs(mem: seq<byte>, buf: seq<byte>, t: seq<byte>, c: byte, rest: seq<byte>, complaints: nat)
    requires |mem| == U32 && |buf| == 256 && OneLine(t) && c in {0x0D, 0x0A, 0x03}
    ensures c == 0x03 ==> LoadAll(mem, buf, t + [c] + rest, complaints) == Loaded(mem, complaints, -1)
    ensures c != 0x03 && t != [] ==> ReadLine(t + [c] + rest, []) == Ready(if |t| <= 255 then t else t[..255], rest)
    ensures c != 0x03 && t == [] ==> ReadLine(t + [c] + rest, []) == ReadLine(rest, [])
  {
    LineReads(t, c, rest, []);
    assert [] + t == t;
  }

  /** A line S7, S8 or S9 whose digits spell a count and an address of 4, 3 or 2 bytes ends the load with that address. */
  lemma EndIs(mem: seq<byte>, line: seq<byte>, count: byte, addr: seq<byte>)
    requires |mem| == U32 && |line| > 1 && line[0] == 0x53 && 2 <= |addr| <= 4 && line[1] as int == 0x3B - |addr|
    requires SpellsAll(line, [count] + addr)
    ensures LoadLine(mem, line) == (mem, End(BigEndian(addr)))
  {
    hide ByteAt, AddrAt, BigEndian, Spelled;
    forall k | 0 <= k < |addr|
      ensures ByteAt(line, 4 + 2 * k) == addr[k] as int
    {
      assert ([count] + addr)[k + 1] == addr[k];
      SpelledIs(line, 2 + 2 * (k + 1), addr[k]);
    }
    AddrFrom(line, addr);
  }

  /** Lines of other kinds change nothing: S0, S4 and S5 are passed over, and what starts otherwise is complained of. */
  lemma OthersChangeNothing(mem: seq<byte>, line: seq<byte>)
    requires |mem| == U32 && |line| > 1
    requires line[0] != 0x53 || !(0x31 <= line[1] <= 0x33 || 0x37 <= line[1] <= 0x39)
    ensures LoadLine(mem, line).0 == mem
    ensures line[0] != 0x53 ==> LoadLine(mem, line).1 == NotARecord
    ensures line[0] == 0x53 ==> LoadLine(mem, line).1 == Quiet || LoadLine(mem, line).1 == BadCount
  {
    hide ByteAt;
  }

  /** A dump is a record of 16 bytes a line, or of those left, and an end record; every line ends in CR and LF. */
  lemma DumpLines(a: nat, s: seq<byte>)
    ensures s == [] ==> Dump(a, s) == [0x53, 0x38, 0x30, 0x34, 0x30, 0x30, 0x30, 0x30, 0x30, 0x30, 0x46, 0x42, 0x0D, 0x0A]
    ensures 0 < |s| <= 16 ==> Dump(a, s) == Record(a, s) + [0x0D, 0x0A] + Dump(a + |s|, [])
    ensures |s| > 16 ==> Dump(a, s) == Record(a, s[..16]) + [0x0D, 0x0A] + Dump(a + 16, s[16..])
  {
    hide Record;
    assert 0 < |s| <= 16 ==> s[|s|..] == [];
  }
}
