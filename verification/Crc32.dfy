/** The frame check sequence of IEEE 802.3 (clause 3.2.9), bit by bit and by table. */
module Crc32 {
  const POLY: bv32 := 0xEDB8_8320
  /** What a frame followed by its own check sequence gives. */
  const RESIDUE: bv32 := 0x2144_DF1C

  function Xor(a: bv32, b: bv32): bv32 {
    a ^ b
  }

  function Down(c: bv32): bv32 {
    c >> 1
  }

  predicate Odd(c: bv32) {
    c & 1 == 1
  }

  /** One bit shifted out of the register. */
  function Shift(c: bv32): bv32 {
    if Odd(c) then Xor(POLY, Down(c)) else Down(c)
  }

  /** `n` bits shifted out. */
  function Shifts(c: bv32, n: nat): bv32
    decreases n
  {
    if n == 0 then c else Shifts(Shift(c), n - 1)
  }

  /** The register `c` after one more byte. */
  function Fed(c: bv32, b: bv8): bv32 {
    Shifts(Xor(c, b as bv32), 8)
  }

  /** The register `c` after the bytes of `s`. */
  function Register(c: bv32, s: seq<bv8>): bv32
    decreases |s|
  {
    if s == [] then c else Register(Fed(c, s[0]), s[1..])
  }

  /** The check sequence of `s`. */
  function Crc(s: seq<bv8>): bv32 {
    !Register(0xFFFF_FFFF, s)
  }

  // ---------- linearity ----------

  lemma XorDown(a: bv32, b: bv32)
    ensures Down(Xor(a, b)) == Xor(Down(a), Down(b))
  {
  }

  lemma XorOdd(a: bv32, b: bv32)
    ensures Odd(Xor(a, b)) <==> Odd(a) != Odd(b)
  {
  }

  lemma XorMoves(a: bv32, b: bv32, p: bv32)
    ensures Xor(p, Xor(a, b)) == Xor(Xor(p, a), b)
  {
  }

  lemma XorSwaps(a: bv32, b: bv32)
    ensures Xor(a, b) == Xor(b, a)
  {
  }

  lemma XorCancels(a: bv32, b: bv32, p: bv32)
    ensures Xor(Xor(p, a), Xor(p, b)) == Xor(a, b)
  {
    hide Xor;
    XorMoves(p, b, Xor(p, a));
    XorSwaps(Xor(p, a), p);
    XorMoves(p, a, p);
    XorSelf(p, a);
  }

  lemma XorSelf(p: bv32, a: bv32)
    ensures Xor(Xor(p, p), a) == a
  {
  }

  lemma ShiftXor(a: bv32, b: bv32)
    ensures Shift(Xor(a, b)) == Xor(Shift(a), Shift(b))
  {
    hide Xor, Down, Odd;
    XorDown(a, b);
    XorOdd(a, b);
    XorMoves(Down(a), Down(b), POLY);
    XorMoves(Down(b), Down(a), POLY);
    XorSwaps(Down(a), Down(b));
    XorSwaps(Down(a), Xor(POLY, Down(b)));
    XorCancels(Down(a), Down(b), POLY);
  }

  lemma {:induction false} ShiftsXor(a: bv32, b: bv32, n: nat)
    ensures Shifts(Xor(a, b), n) == Xor(Shifts(a, n), Shifts(b, n))
    decreases n
  {
    hide Xor, Shift;
    if n > 0 {
      ShiftXor(a, b);
      ShiftsXor(Shift(a), Shift(b), n - 1);
    }
  }

  function LowByte(c: bv32): (b: bv32)
    ensures b < 0x100
  {
    c & 0xFF
  }

  function HighBytes(c: bv32): bv32 {
    c & 0xFFFF_FF00
  }

  function Down8(c: bv32): bv32 {
    c >> 8
  }

  function Down4(c: bv32): bv32 {
    Down(Down(Down(Down(c))))
  }

  lemma FourBits(c: bv32)
    requires LowByte(c) == 0
    ensures !Odd(c) && !Odd(Down(c)) && !Odd(Down(Down(c))) && !Odd(Down(Down(Down(c))))
  {
  }

  lemma FourDown(c: bv32)
    ensures Down4(c) == c >> 4
  {
  }

  lemma FourMore(c: bv32)
    requires c & 0xFF == 0
    ensures (c >> 4) & 0xF == 0 && (c >> 4) >> 4 == c >> 8
  {
  }

  lemma FourBitsOf(d: bv32)
    requires d & 0xF == 0
    ensures !Odd(d) && !Odd(Down(d)) && !Odd(Down(Down(d))) && !Odd(Down(Down(Down(d))))
  {
  }

  lemma EightEven(c: bv32)
    requires LowByte(c) == 0
    ensures !Odd(c) && !Odd(Down(c)) && !Odd(Down(Down(c))) && !Odd(Down(Down(Down(c))))
    ensures var d := Down4(c); !Odd(d) && !Odd(Down(d)) && !Odd(Down(Down(d))) && !Odd(Down(Down(Down(d))))
    ensures Down4(Down4(c)) == Down8(c)
  {
    hide Odd, Down, Down4;
    FourBits(c);
    FourDown(c);
    FourMore(c);
    FourBitsOf(c >> 4);
    FourDown(c >> 4);
  }

  lemma {:induction false} ShiftsSplit(c: bv32, m: nat, n: nat)
    ensures Shifts(c, m + n) == Shifts(Shifts(c, m), n)
    decreases m
  {
    hide Shift;
    if m > 0 {
      ShiftsSplit(Shift(c), m - 1, n);
    }
  }

  lemma FourEven(c: bv32)
    requires !Odd(c) && !Odd(Down(c)) && !Odd(Down(Down(c))) && !Odd(Down(Down(Down(c))))
    ensures Shifts(c, 4) == Down4(c)
  {
    hide Odd, Down;
    var c1 := Down(c);
    var c2 := Down(c1);
    var c3 := Down(c2);
    assert Shifts(c3, 1) == Shifts(Down(c3), 0) == Down(c3);
    assert Shifts(c2, 2) == Shifts(c3, 1);
    assert Shifts(c1, 3) == Shifts(c2, 2);
  }

  /** A register whose low eight bits are clear just moves down. */
  lemma ShiftsDown(c: bv32)
    requires LowByte(c) == 0
    ensures Shifts(c, 8) == Down8(c)
  {
    hide Odd, Down, Shifts, LowByte, Down8, Down4;
    EightEven(c);
    FourEven(c);
    FourEven(Down4(c));
    ShiftsSplit(c, 4, 4);
  }

  lemma SplitWord(c: bv32)
    ensures Xor(LowByte(c), HighBytes(c)) == c && LowByte(HighBytes(c)) == 0 && Down8(HighBytes(c)) == Down8(c)
  {
  }

  /** Eight shifts at once: the table entry of the low byte on the rest of the register. */
  lemma ByTable(c: bv32)
    ensures Shifts(c, 8) == Xor(Shifts(LowByte(c), 8), Down8(c))
  {
    hide Xor, Shifts, LowByte, HighBytes, Down8;
    SplitWord(c);
    ShiftsXor(LowByte(c), HighBytes(c), 8);
    ShiftsDown(HighBytes(c));
  }

  // ---------- the two programs ----------

  /** eth_crc32: bit by bit. */
  method EthCrc32(data: seq<bv8>) returns (crc: bv32)
    ensures crc == Crc(data)
  {
    hide Shift;
    crc := 0xFFFF_FFFF;
    for i := 0 to |data|
      invariant Register(crc, data[i..]) == Register(0xFFFF_FFFF, data)
    {
      ghost var fed := Fed(crc, data[i]);
      crc := Xor(crc, data[i] as bv32);
      for b := 0 to 8
        invariant Shifts(crc, 8 - b) == fed
      {
        BranchFree(crc);
        crc := (crc >> 1) ^ (POLY & (0 - (crc & 1)));
      }
      assert data[i..][1..] == data[i + 1..];
    }
    crc := !crc;
  }

  lemma BranchFree(c: bv32)
    ensures Shift(c) == (c >> 1) ^ (POLY & (0 - (c & 1)))
  {
  }

  /** lance_crc32: a table of 256 entries, built on first use. */
  class TableCrc {
    var table: seq<bv32>
    var initialized: bool

    constructor ()
      ensures Valid()
    {
      table, initialized := [], false;
    }

    ghost predicate Valid()
      reads this
    {
      initialized ==> TableOk(table)
    }

    method Build()
      modifies this
      ensures Valid() && initialized
    {
      hide Shift;
      table := [];
      for i: nat := 0 to 256
        invariant |table| == i && forall k :: 0 <= k < i ==> table[k] == Row(k)
      {
        var c := i as bv32;
        for j := 0 to 8
          invariant Shifts(c, 8 - j) == Row(i)
        {
          c := Shift(c);
        }
        table := table + [c];
      }
      initialized := true;
    }

    method LanceCrc32(buf: seq<bv8>) returns (crc: bv32)
      requires Valid()
      modifies this
      ensures Valid() && crc == Crc(buf)
    {
      hide Row, Xor, Index, Fed, Down8;
      if !initialized {
        Build();
      }
      crc := 0xFFFF_FFFF;
      for i := 0 to |buf|
        invariant TableOk(table) && initialized
        invariant Register(crc, buf[i..]) == Register(0xFFFF_FFFF, buf)
      {
        TableEntry(crc, buf[i]);
        crc := Xor(table[Index(Xor(crc, buf[i] as bv32))], Down8(crc));
        assert buf[i..][1..] == buf[i + 1..];
      }
      crc := !crc;
    }
  }

  /** The table's entry for the low byte of a register. */
  function Row(k: nat): bv32
    requires k < 256
  {
    Shifts(k as bv32, 8)
  }

  ghost predicate TableOk(table: seq<bv32>) {
    |table| == 256 && forall k :: 0 <= k < 256 ==> table[k] == Row(k)
  }

  function Index(c: bv32): (k: nat)
    ensures k < 256
  {
    LowByte(c) as nat
  }

  lemma IndexIs(c: bv32)
    ensures Index(c) as bv32 == LowByte(c)
  {
    hide LowByte;
    BackAgain(LowByte(c));
  }

  lemma BackAgain(x: bv32)
    ensures (x as nat) as bv32 == x
  {
  }

  lemma TableEntry(crc: bv32, b: bv8)
    ensures Xor(Row(Index(Xor(crc, b as bv32))), Down8(crc)) == Fed(crc, b)
  {
    hide Shifts, Xor, Index, Down8, LowByte;
    var c := Xor(crc, b as bv32);
    IndexIs(c);
    ByTable(c);
    SameHigh(crc, b);
  }

  lemma SameHigh(crc: bv32, b: bv8)
    ensures Down8(Xor(crc, b as bv32)) == Down8(crc)
  {
  }

  // ---------- the residue ----------

  function ByteOf(c: bv32): bv8 {
    LowByte(c) as bv8
  }

  /** The check sequence as it goes on the wire, low byte first. */
  function Wire(c: bv32): (t: seq<bv8>)
    ensures |t| == 4
  {
    [ByteOf(c), ByteOf(Down8(c)), ByteOf(Down8(Down8(c))), ByteOf(Down8(Down8(Down8(c))))]
  }

  lemma {:induction false} Walk(cs: seq<bv32>)
    requires |cs| >= 1 && forall i :: 0 <= i < |cs| - 1 ==> Shift(cs[i]) == cs[i + 1]
    ensures Shifts(cs[0], |cs| - 1) == cs[|cs| - 1]
    decreases |cs|
  {
    hide Shift;
    if |cs| > 1 {
      Walk(cs[1..]);
    }
  }

  lemma Ones1()
    ensures Shifts(0xFFFF_FFFF, 8) == 0x2DFD_1072
  {
    var cs: seq<bv32> := [0xFFFF_FFFF, 0x9247_7CDF, 0xA49B_3D4F, 0xBFF5_1D87, 0xB242_0DE3, 0xB499_85D1, 0xB7F4_41C8, 0x5BFA_20E4, 0x2DFD_1072];
    Walk(cs);
  }

  lemma Ones2()
    ensures Shifts(0x2DFD_1072, 8) == 0xBE26_ED00
  {
    var cs: seq<bv32> := [0x2DFD_1072, 0x16FE_8839, 0xE6C7_C73C, 0x7363_E39E, 0x39B1_F1CF, 0xF160_7BC7, 0x9508_BEC3, 0xA73C_DC41, 0xBE26_ED00];
    Walk(cs);
  }

  lemma Ones3()
    ensures Shifts(0xBE26_ED00, 8) == 0x00BE_26ED
  {
    var cs: seq<bv32> := [0xBE26_ED00, 0x5F13_7680, 0x2F89_BB40, 0x17C4_DDA0, 0x0BE2_6ED0, 0x05F1_3768, 0x02F8_9BB4, 0x017C_4DDA, 0x00BE_26ED];
    Walk(cs);
  }

  lemma Ones4()
    ensures Shifts(0x00BE_26ED, 8) == 0xDEBB_20E3
  {
    var cs: seq<bv32> := [0x00BE_26ED, 0xEDE7_9056, 0x76F3_C82B, 0xD6C1_6735, 0x86D8_30BA, 0x436C_185D, 0xCC0E_8F0E, 0x6607_4787, 0xDEBB_20E3];
    Walk(cs);
  }

  /** A register of ones, 32 shifts on. */
  lemma Ones()
    ensures Shifts(0xFFFF_FFFF, 32) == !RESIDUE
  {
    hide Shifts;
    Ones1();
    Ones2();
    Ones3();
    Ones4();
    ShiftsSplit(0xFFFF_FFFF, 8, 24);
    ShiftsSplit(0x2DFD_1072, 8, 16);
    ShiftsSplit(0xBE26_ED00, 8, 8);
  }

  /** Known check sequences: of one byte of zero and of four. */
  lemma KnownChecks()
    ensures Crc([0x00]) == 0xD202_EF8D && Crc([0x00, 0x00, 0x00, 0x00]) == 0x2144_DF1C
  {
    hide Shifts;
    Ones1();
    Ones2();
    Ones3();
    Ones4();
    assert [0x00 as bv8][1..] == [];
    var z4: seq<bv8>, z3: seq<bv8>, z2: seq<bv8>, z1: seq<bv8> := [0, 0, 0, 0], [0, 0, 0], [0, 0], [0];
    assert z4[1..] == z3 && z3[1..] == z2 && z2[1..] == z1 && z1[1..] == [];
    ZeroFed(0xFFFF_FFFF);
    ZeroFed(0x2DFD_1072);
    ZeroFed(0xBE26_ED00);
    ZeroFed(0x00BE_26ED);
    assert Register(0x00BE_26ED, z1) == Register(0xDEBB_20E3, []);
    assert Register(0xBE26_ED00, z2) == Register(0x00BE_26ED, z1);
    assert Register(0x2DFD_1072, z3) == Register(0xBE26_ED00, z2);
    assert Register(0xFFFF_FFFF, z4) == Register(0x2DFD_1072, z3);
  }

  lemma ZeroFed(c: bv32)
    ensures Fed(c, 0) == Shifts(c, 8)
  {
    hide Shifts;
  }

  lemma {:induction false} RegisterAppend(c: bv32, a: seq<bv8>, b: seq<bv8>)
    ensures Register(c, a + b) == Register(Register(c, a), b)
    decreases |a|
  {
    hide Fed;
    if a == [] {
      assert a + b == b;
    } else {
      assert (a + b)[1..] == a[1..] + b;
      RegisterAppend(Fed(c, a[0]), a[1..], b);
    }
  }

  lemma LowByteAsByte(w: bv32)
    ensures ByteOf(w) as bv32 == LowByte(w)
  {
  }

  lemma LastByteGone(w: bv32)
    ensures Down8(Down8(Down8(Down8(w)))) == 0
  {
  }

  lemma XorZero(c: bv32)
    ensures Xor(c, 0) == c
  {
  }

  /** Feeding the low byte of a word and keeping the rest of it on top of the register. */
  lemma FedLow(c: bv32, w: bv32)
    ensures Shifts(Xor(c, w), 8) == Xor(Fed(c, ByteOf(w)), Down8(w))
  {
    hide Shifts, Xor, LowByte, Down8, HighBytes;
    SplitWord(w);
    LowByteAsByte(w);
    XorMoves(LowByte(w), HighBytes(w), c);
    ShiftsXor(Xor(c, LowByte(w)), HighBytes(w), 8);
    ShiftsDown(HighBytes(w));
  }

  lemma OneFed(c: bv32, b: bv8, rest: seq<bv8>)
    ensures Register(c, [b] + rest) == Register(Fed(c, b), rest)
  {
    hide Fed;
    assert ([b] + rest)[1..] == rest;
  }

  /** The bytes of a word from the lowest on. */
  function Low(w: bv32, n: nat): seq<bv8> {
    if n == 0 then [] else [ByteOf(w)] + Low(Down8(w), n - 1)
  }

  lemma WireIsLow(w: bv32)
    ensures Wire(w) == Low(w, 4)
  {
    hide ByteOf, Down8;
    var w1 := Down8(w);
    var w2 := Down8(w1);
    assert Low(Down8(w2), 1) == [ByteOf(Down8(w2))];
    assert Low(w2, 2) == [ByteOf(w2), ByteOf(Down8(w2))];
  }

  function Downs(w: bv32, n: nat): bv32
    decreases n
  {
    if n == 0 then w else Downs(Down8(w), n - 1)
  }

  /** Feeding `n` bytes of a word, with the rest of it on top of the register. */
  lemma {:induction false} FedBytes(c: bv32, w: bv32, n: nat)
    ensures Shifts(Xor(c, w), 8 * n) == Xor(Register(c, Low(w, n)), Downs(w, n))
    decreases n
  {
    hide Shifts, Xor, LowByte, Down8, Fed;
    if n == 0 {
      NoShift(Xor(c, w));
    } else {
      var b := ByteOf(w);
      FedLow(c, w);
      ShiftsSplit(Xor(c, w), 8, 8 * (n - 1));
      FedBytes(Fed(c, b), Down8(w), n - 1);
      OneFed(c, b, Low(Down8(w), n - 1));
    }
  }

  lemma NoShift(c: bv32)
    ensures Shifts(c, 0) == c
  {
  }

  /** Feeding a word byte by byte is feeding it at once. */
  lemma FedWord(c: bv32, w: bv32)
    ensures Register(c, Wire(w)) == Shifts(Xor(c, w), 32)
  {
    hide Shifts, Xor, Low, Wire, Register;
    WireIsLow(w);
    FedBytes(c, w, 4);
    NothingLeft(w);
    XorZero(Register(c, Low(w, 4)));
  }

  lemma NothingLeft(w: bv32)
    ensures Downs(w, 4) == 0
  {
    hide Down8;
    LastByteGone(w);
    assert Downs(w, 4) == Downs(Down8(Down8(w)), 2);
  }

  lemma XorNot(c: bv32)
    ensures Xor(c, !c) == 0xFFFF_FFFF && !!RESIDUE == RESIDUE
  {
  }

  /** Every frame followed by its own check sequence gives the residue. */
  lemma FrameResidue(frame: seq<bv8>)
    ensures Crc(frame + Wire(Crc(frame))) == 0x2144_DF1C
  {
    hide Register, Xor, Wire, Shifts;
    var r := Register(0xFFFF_FFFF, frame);
    RegisterAppend(0xFFFF_FFFF, frame, Wire(!r));
    FedWord(r, !r);
    XorNot(r);
    Ones();
  }

  /** And only its own: any other four bytes behind the frame give something else. */
  lemma OnlyOwnCheck(frame: seq<bv8>, w: bv32)
    requires Crc(frame + Wire(w)) == 0x2144_DF1C
    ensures w == Crc(frame)
  {
    hide Register, Xor, Wire, Shifts;
    var r := Register(0xFFFF_FFFF, frame);
    RegisterAppend(0xFFFF_FFFF, frame, Wire(w));
    FedWord(r, w);
    NotTwice(Shifts(Xor(r, w), 32), RESIDUE);
    Ones();
    ShiftsInjective(Xor(r, w), 0xFFFF_FFFF, 32);
    XorFull(r, w);
  }

  lemma NotTwice(a: bv32, b: bv32)
    ensures !a == b ==> a == !b
  {
  }

  lemma XorFull(r: bv32, w: bv32)
    ensures Xor(r, w) == 0xFFFF_FFFF ==> w == !r
  {
  }

  /** The bit shifted out can be told from the top bit, because the polynomial sets it. */
  lemma ShiftInjective(a: bv32, b: bv32)
    requires Shift(a) == Shift(b)
    ensures a == b
  {
    hide Shift;
    ShiftBack(a);
    ShiftBack(b);
  }

  /** One bit shifted back in. */
  function Unshift(c: bv32): bv32 {
    if c & 0x8000_0000 != 0 then ((c ^ POLY) << 1) | 1 else c << 1
  }

  lemma ShiftBack(a: bv32)
    ensures Unshift(Shift(a)) == a
  {
    if Odd(a) {
      OddBack(a);
    } else {
      EvenBack(a);
    }
  }

  lemma OddBack(a: bv32)
    requires a & 1 == 1
    ensures (0xEDB8_8320 ^ (a >> 1)) & 0x8000_0000 != 0
    ensures (((0xEDB8_8320 ^ (a >> 1)) ^ 0xEDB8_8320) << 1) | 1 == a
  {
  }

  lemma EvenBack(a: bv32)
    requires a & 1 != 1
    ensures (a >> 1) & 0x8000_0000 == 0 && (a >> 1) << 1 == a
  {
  }

  lemma {:induction false} ShiftsInjective(a: bv32, b: bv32, n: nat)
    requires Shifts(a, n) == Shifts(b, n)
    ensures a == b
    decreases n
  {
    hide Shift;
    if n > 0 {
      ShiftsInjective(Shift(a), Shift(b), n - 1);
      ShiftInjective(a, b);
    }
  }
}
