/** One file allocation table as bytes: packed entries of 12, 16 or 28 bits (fat.c). */
module FatTable {
  import opened Bytes

  datatype FatType = Fat12 | Fat16 | Fat32

  /** The value fat_next_clus returns for the end of a chain. */
  const NO_CLUSTER := 0xFFFF_FFFF

  function EntryOff(ty: FatType, c: nat): nat {
    match ty
    case Fat12 => c + c / 2
    case Fat16 => 2 * c
    case Fat32 => 4 * c
  }

  /** One past the last byte an entry occupies. */
  function EntryEnd(ty: FatType, c: nat): nat {
    EntryOff(ty, c) + if ty.Fat32? then 4 else 2
  }

  predicate Straddles(ty: FatType, c: nat) {
    ty.Fat12? && EntryOff(ty, c) % SECTOR == SECTOR - 1
  }

  function Eoc(ty: FatType): nat {
    match ty
    case Fat12 => 0xFF8
    case Fat16 => 0xFFF8
    case Fat32 => 0x0FFF_FFF8
  }

  /** The end-of-chain mark the allocator stores. */
  function EocMark(ty: FatType): nat {
    match ty
    case Fat12 => 0xFFF
    case Fat16 => 0xFFFF
    case Fat32 => 0x0FFF_FFFF
  }

  /** What a table entry keeps of a value. */
  function Stored(ty: FatType, v: nat): nat {
    match ty
    case Fat12 => v % 0x1000
    case Fat16 => v % 0x1_0000
    case Fat32 => v % 0x1000_0000
  }

  function Entry(ty: FatType, f: seq<byte>, c: nat): nat
    requires EntryEnd(ty, c) <= |f|
  {
    match ty
    case Fat12 => if c % 2 == 1 then Le16(f, EntryOff(ty, c)) / 0x10 else Le16(f, EntryOff(ty, c)) % 0x1000
    case Fat16 => Le16(f, EntryOff(ty, c))
    case Fat32 => Le32(f, EntryOff(ty, c)) % 0x1000_0000
  }

  /** A 12-bit entry in terms of its two bytes. */
  function Unpack12(c: nat, b0: nat, b1: nat): nat {
    if c % 2 == 1 then (b0 + 0x100 * b1) / 0x10 else (b0 + 0x100 * b1) % 0x1000
  }

  /** An entry that lies inside one sector, in that sector. */
  function SectorEntry(ty: FatType, s: seq<byte>, c: nat): nat
    requires !Straddles(ty, c) && |s| == SECTOR
  {
    var i := EntryOff(ty, c) % SECTOR;
    EntryInsideSector(ty, c);
    match ty
    case Fat12 => Unpack12(c, s[i] as nat, s[i + 1] as nat)
    case Fat16 => Le16(s, i)
    case Fat32 => Le32(s, i) % 0x1000_0000
  }

  function NextOf(ty: FatType, entry: nat): nat {
    if entry >= Eoc(ty) then NO_CLUSTER else entry
  }

  /** The first byte of a 12-bit entry after a store over `b`. */
  function LowByte(c: nat, b: byte, v: nat): byte {
    if c % 2 == 1 then b % 0x10 + v % 0x10 * 0x10 else v % 0x100
  }

  /** The second byte of a 12-bit entry after a store over `b`. */
  function HighByte(c: nat, b: byte, v: nat): byte {
    if c % 2 == 1 then v / 0x10 % 0x100 else b / 0x10 * 0x10 + v / 0x100 % 0x10
  }

  /** The two bytes a 12-bit entry leaves behind when it is stored over `b0`, `b1`. */
  function Nibbles(c: nat, b0: byte, b1: byte, v: nat): (r: (byte, byte)) {
    (LowByte(c, b0, v), HighByte(c, b1, v))
  }

  function PutEntry(ty: FatType, f: seq<byte>, c: nat, v: nat): (f': seq<byte>)
    requires EntryEnd(ty, c) <= |f|
    ensures |f'| == |f|
    ensures forall i :: 0 <= i < |f| && !(EntryOff(ty, c) <= i < EntryEnd(ty, c)) ==> f'[i] == f[i]
  {
    var o := EntryOff(ty, c);
    match ty
    case Fat12 =>
      var (b0, b1) := Nibbles(c, f[o], f[o + 1], v);
      f[o := b0][o + 1 := b1]
    case Fat16 => Put16(f, o, v)
    case Fat32 => Put32(f, o, Le32(f, o) / 0x1000_0000 * 0x1000_0000 + v % 0x1000_0000)
  }

  lemma Digits16(q: nat, r: nat)
    requires r < 0x10
    ensures (0x10 * q + r) / 0x10 == q && (0x10 * q + r) % 0x10 == r
  {
  }

  lemma Digits4096(q: nat, r: nat)
    requires r < 0x1000
    ensures (0x1000 * q + r) % 0x1000 == r
  {
  }

  lemma NibbleLaws(c: nat, b0: byte, b1: byte, v: nat)
    ensures var (r0, r1) := Nibbles(c, b0, b1, v);
            if c % 2 == 1 then (r0 as int + 0x100 * r1 as int) / 0x10 == v % 0x1000 && r0 % 0x10 == b0 % 0x10
            else (r0 as int + 0x100 * r1 as int) % 0x1000 == v % 0x1000 && r1 / 0x10 == b1 / 0x10
  {
    if c % 2 == 1 {
      var q, lo, keep: int := v / 0x10, v % 0x10, b0 as int % 0x10;
      Digits4096(q / 0x100, 0x10 * (q % 0x100) + lo);
      Digits16(lo + 0x10 * (q % 0x100), keep);
      Digits16(lo, keep);
    } else {
      var q, lo, keep: int := v / 0x100, v % 0x100, b1 as int / 0x10;
      Digits4096(q / 0x10, 0x100 * (q % 0x10) + lo);
      Digits4096(keep, 0x100 * (q % 0x10) + lo);
      Digits16(keep, q % 0x10);
    }
  }

  /** Two bytes are known by the 12 bits of an entry and the nibble beside it. */
  lemma BytesOf12(c: nat, b0: nat, b1: nat, r0: nat, r1: nat)
    requires b0 < 0x100 && b1 < 0x100 && r0 < 0x100 && r1 < 0x100 && Unpack12(c, b0, b1) == Unpack12(c, r0, r1)
    requires if c % 2 == 1 then b0 % 0x10 == r0 % 0x10 else b1 / 0x10 == r1 / 0x10
    ensures (b0, b1) == (r0, r1)
  {
    if c % 2 == 1 {
      Digits16(0x10 * b1 + b0 / 0x10, b0 % 0x10);
      Digits16(0x10 * r1 + r0 / 0x10, r0 % 0x10);
    } else {
      Digits4096(b1 / 0x10, 0x100 * (b1 % 0x10) + b0);
      Digits4096(r1 / 0x10, 0x100 * (r1 % 0x10) + r0);
    }
  }

  lemma SameNibbles(c: nat, b0: byte, b1: byte, v: nat)
    ensures Nibbles(c, b0, b1, v) == (b0, b1) <==> Unpack12(c, b0 as nat, b1 as nat) == v % 0x1000
  {
    hide LowByte, HighByte;
    NibbleLaws(c, b0, b1, v);
    var (r0, r1) := Nibbles(c, b0, b1, v);
    if Unpack12(c, b0 as nat, b1 as nat) == v % 0x1000 {
      BytesOf12(c, b0 as nat, b1 as nat, r0 as nat, r1 as nat);
    }
  }

  /** Storing a 12-bit entry changes nothing exactly when it has that value. */
  lemma PutSameIff(f: seq<byte>, c: nat, v: nat)
    requires EntryEnd(Fat12, c) <= |f|
    ensures PutEntry(Fat12, f, c, v) == f <==> Entry(Fat12, f, c) == Stored(Fat12, v)
  {
    hide LowByte, HighByte;
    var o := EntryOff(Fat12, c);
    SameNibbles(c, f[o], f[o + 1], v);
    var f' := PutEntry(Fat12, f, c, v);
    assert f'[o] == Nibbles(c, f[o], f[o + 1], v).0 && f'[o + 1] == Nibbles(c, f[o], f[o + 1], v).1;
  }

  /** A stored entry reads back, cut to the width of the entry. */
  lemma EntryAfterPut(ty: FatType, f: seq<byte>, c: nat, v: nat)
    requires EntryEnd(ty, c) <= |f|
    ensures Entry(ty, PutEntry(ty, f, c, v), c) == Stored(ty, v)
  {
    match ty {
      case Fat12 =>
        var o := EntryOff(ty, c);
        NibbleLaws(c, f[o], f[o + 1], v);
      case Fat16 =>
      case Fat32 =>
        var w := Le32(f, 4 * c) / 0x1000_0000 * 0x1000_0000 + v % 0x1000_0000;
        assert w % U32 == w;
    }
  }

  lemma HighNibble(b: byte, b': byte, top: byte)
    requires b / 0x10 == b' / 0x10
    ensures (b as int + 0x100 * top as int) / 0x10 == (b' as int + 0x100 * top as int) / 0x10
  {
    assert (b as int + 0x100 * top as int) / 0x10 == b as int / 0x10 + 0x10 * top as int;
    assert (b' as int + 0x100 * top as int) / 0x10 == b' as int / 0x10 + 0x10 * top as int;
  }

  lemma LowNibble(low: byte, b: byte, b': byte)
    requires b % 0x10 == b' % 0x10
    ensures (low as int + 0x100 * b as int) % 0x1000 == (low as int + 0x100 * b' as int) % 0x1000
  {
    assert (low as int + 0x100 * b as int) % 0x1000 == low as int + 0x100 * (b % 0x10) as int;
    assert (low as int + 0x100 * b' as int) % 0x1000 == low as int + 0x100 * (b' % 0x10) as int;
  }

  /** Storing one entry leaves every other entry alone, shared nibbles included. */
  lemma OtherEntryAfterPut(ty: FatType, f: seq<byte>, c: nat, v: nat, x: nat)
    requires EntryEnd(ty, c) <= |f| && EntryEnd(ty, x) <= |f| && x != c
    ensures Entry(ty, PutEntry(ty, f, c, v), x) == Entry(ty, f, x)
  {
    match ty {
      case Fat12 =>
        var o, p := EntryOff(ty, c), EntryOff(ty, x);
        NibbleLaws(c, f[o], f[o + 1], v);
        var f' := PutEntry(ty, f, c, v);
        if x == c + 1 && c % 2 == 0 {
          assert p == o + 1;
          HighNibble(f'[p], f[p], f[p + 1]);
        } else if c == x + 1 && x % 2 == 0 {
          assert o == p + 1;
          LowNibble(f[p], f'[o], f[o]);
        } else {
          assert p + 2 <= o || o + 2 <= p;
        }
      case Fat16 =>
      case Fat32 =>
    }
  }

  /** The first `n` entries as numbers. */
  function FatSeq(ty: FatType, f: seq<byte>, n: nat): (s: seq<nat>)
    requires n > 0 ==> EntryEnd(ty, n - 1) <= |f|
    ensures |s| == n
  {
    if n == 0 then [] else FatSeq(ty, f, n - 1) + [Entry(ty, f, n - 1)]
  }

  lemma {:induction false} FatSeqAt(ty: FatType, f: seq<byte>, n: nat, c: nat)
    requires c < n && EntryEnd(ty, n - 1) <= |f|
    ensures EntryEnd(ty, c) <= |f| && FatSeq(ty, f, n)[c] == Entry(ty, f, c)
  {
    if c < n - 1 {
      FatSeqAt(ty, f, n - 1, c);
    }
  }

  /** Byte-level store refines a plain sequence update. */
  lemma FatSeqPut(ty: FatType, f: seq<byte>, n: nat, c: nat, v: nat)
    requires c < n && EntryEnd(ty, n - 1) <= |f|
    ensures EntryEnd(ty, c) <= |f|
    ensures FatSeq(ty, PutEntry(ty, f, c, v), n) == FatSeq(ty, f, n)[c := Stored(ty, v)]
  {
    FatSeqAt(ty, f, n, c);
    EntryAfterPut(ty, f, c, v);
    var f' := PutEntry(ty, f, c, v);
    forall x | 0 <= x < n
      ensures FatSeq(ty, f', n)[x] == FatSeq(ty, f, n)[c := Stored(ty, v)][x]
    {
      FatSeqAt(ty, f, n, x);
      FatSeqAt(ty, f', n, x);
      if x != c {
        OtherEntryAfterPut(ty, f, c, v, x);
      }
    }
  }

  /** The first cluster number whose 12-bit entry lies across two sectors. */
  const FIRST_ACROSS := 341

  lemma StraddlesFrom(ty: FatType, c: nat)
    ensures Straddles(ty, c) ==> ty.Fat12? && c >= FIRST_ACROSS
    ensures Straddles(Fat12, FIRST_ACROSS)
  {
  }

  lemma EntryInsideSector(ty: FatType, c: nat)
    requires !Straddles(ty, c)
    ensures EntryOff(ty, c) % SECTOR + EntryEnd(ty, c) - EntryOff(ty, c) <= SECTOR
  {
    var o := EntryOff(ty, c);
    var j, i := o / SECTOR, o % SECTOR;
    if ty.Fat32? {
      assert i == 4 * (c - 128 * j);
    } else if ty.Fat16? {
      assert i == 2 * (c - 256 * j);
    }
  }

  /** Two byte strings that differ only inside one sector. */
  lemma PatchOfWindow(f: seq<byte>, f': seq<byte>, base: nat)
    requires |f| == |f'| && base + SECTOR <= |f|
    requires forall i :: 0 <= i < |f| && !(base <= i < base + SECTOR) ==> f'[i] == f[i]
    ensures Splice(f, base, f'[base..base + SECTOR]) == f'
  {
  }

  /** An entry inside one sector: storing it is one patched sector. */
  lemma PutInsideSector(ty: FatType, f: seq<byte>, c: nat, v: nat)
    requires EntryEnd(ty, c) <= |f| && |f| % SECTOR == 0 && !Straddles(ty, c)
    ensures var j := EntryOff(ty, c) / SECTOR;
            && SECTOR * j + SECTOR <= |f|
            && PutSector(f, j, Sector(PutEntry(ty, f, c, v), j)) == PutEntry(ty, f, c, v)
  {
    hide PutEntry, Splice;
    EntryInsideSector(ty, c);
    PatchOfWindow(f, PutEntry(ty, f, c, v), SECTOR * (EntryOff(ty, c) / SECTOR));
  }

  lemma PutOneByte(f: seq<byte>, j: nat, i: nat, b: byte)
    requires SECTOR * j + SECTOR <= |f| && i < SECTOR
    ensures PutSector(f, j, Sector(f, j)[i := b]) == f[SECTOR * j + i := b]
  {
    assert f[SECTOR * j + i := b][SECTOR * j..SECTOR * j + SECTOR] == Sector(f, j)[i := b];
    PatchOfWindow(f, f[SECTOR * j + i := b], SECTOR * j);
  }

  /** A straddling 12-bit entry: storing it is two patched sectors. */
  lemma PutAcrossSectors(f: seq<byte>, c: nat, v: nat)
    requires EntryEnd(Fat12, c) <= |f| && |f| % SECTOR == 0 && Straddles(Fat12, c)
    ensures var o := EntryOff(Fat12, c);
            var j := o / SECTOR;
            var (b0, b1) := Nibbles(c, f[o], f[o + 1], v);
            && SECTOR * (j + 1) + SECTOR <= |f|
            && PutSector(PutSector(f, j, Sector(f, j)[SECTOR - 1 := b0]), j + 1, Sector(f, j + 1)[0 := b1])
               == PutEntry(Fat12, f, c, v)
  {
    hide Nibbles, Splice;
    var o := EntryOff(Fat12, c);
    var j := o / SECTOR;
    var (b0, b1) := Nibbles(c, f[o], f[o + 1], v);
    PutOneByte(f, j, SECTOR - 1, b0);
    PutOneByte(f[o := b0], j + 1, 0, b1);
    assert Sector(f[o := b0], j + 1) == Sector(f, j + 1);
  }

  /** The sectors that hold the bytes of an entry. */
  lemma EntryBytes(ty: FatType, f: seq<byte>, c: nat)
    requires EntryEnd(ty, c) <= |f| && |f| % SECTOR == 0
    ensures var o := EntryOff(ty, c);
            var (j, i) := (o / SECTOR, o % SECTOR);
            && SECTOR * j + SECTOR <= |f|
            && Sector(f, j)[i] == f[o]
            && (Straddles(ty, c) ==> SECTOR * (j + 1) + SECTOR <= |f| && Sector(f, j + 1)[0] == f[o + 1])
            && (!Straddles(ty, c) ==> i + 1 < SECTOR && Sector(f, j)[i + 1] == f[o + 1])
            && (ty.Fat32? ==> i + 3 < SECTOR && Sector(f, j)[i + 2] == f[o + 2] && Sector(f, j)[i + 3] == f[o + 3])
  {
    if !Straddles(ty, c) {
      EntryInsideSector(ty, c);
    }
  }

  /** The in-place update of a sector that holds a whole entry at offset `i`. */
  function PatchSector(ty: FatType, s: seq<byte>, i: nat, c: nat, v: nat): (s': seq<byte>)
    requires i + (if ty.Fat32? then 4 else 2) <= |s|
    ensures |s'| == |s|
  {
    match ty
    case Fat12 =>
      var (b0, b1) := Nibbles(c, s[i], s[i + 1], v);
      s[i := b0][i + 1 := b1]
    case Fat16 => Put16(s, i, v)
    case Fat32 => Put32(s, i, Le32(s, i) / 0x1000_0000 * 0x1000_0000 + v % 0x1000_0000)
  }

  lemma PatchedSector(ty: FatType, f: seq<byte>, c: nat, v: nat)
    requires EntryEnd(ty, c) <= |f| && |f| % SECTOR == 0 && !Straddles(ty, c)
    ensures var o := EntryOff(ty, c);
            var (j, i) := (o / SECTOR, o % SECTOR);
            && SECTOR * j + SECTOR <= |f| && i + EntryEnd(ty, c) - o <= SECTOR
            && PutSector(f, j, PatchSector(ty, Sector(f, j), i, c, v)) == PutEntry(ty, f, c, v)
  {
    hide PutSector, Sector, PutEntry, PatchSector;
    EntryInsideSector(ty, c);
    PutInsideSector(ty, f, c, v);
    match ty {
      case Fat12 => Patched12(f, c, v);
      case Fat16 => Patched16(f, c, v);
      case Fat32 => Patched32(f, c, v);
    }
  }

  lemma Patched12(f: seq<byte>, c: nat, v: nat)
    requires EntryEnd(Fat12, c) <= |f| && |f| % SECTOR == 0 && !Straddles(Fat12, c)
    ensures var o := EntryOff(Fat12, c);
            var (j, i) := (o / SECTOR, o % SECTOR);
            SECTOR * j + SECTOR <= |f| && PatchSector(Fat12, Sector(f, j), i, c, v) == Sector(PutEntry(Fat12, f, c, v), j)
  {
    hide Nibbles;
    var o := EntryOff(Fat12, c);
    EntryBytes(Fat12, f, c);
    UpdateWindow(f, SECTOR * (o / SECTOR), o % SECTOR, Nibbles(c, f[o], f[o + 1], v));
  }

  lemma Patched16(f: seq<byte>, c: nat, v: nat)
    requires EntryEnd(Fat16, c) <= |f| && |f| % SECTOR == 0
    ensures var (j, i) := (EntryOff(Fat16, c) / SECTOR, EntryOff(Fat16, c) % SECTOR);
            && SECTOR * j + SECTOR <= |f| && i + 2 <= SECTOR
            && PatchSector(Fat16, Sector(f, j), i, c, v) == Sector(PutEntry(Fat16, f, c, v), j)
  {
    hide Put16;
    EntryInsideSector(Fat16, c);
    Put16Window(f, SECTOR * (EntryOff(Fat16, c) / SECTOR), SECTOR, EntryOff(Fat16, c) % SECTOR, v);
  }

  lemma Patched32(f: seq<byte>, c: nat, v: nat)
    requires EntryEnd(Fat32, c) <= |f| && |f| % SECTOR == 0
    ensures var (j, i) := (EntryOff(Fat32, c) / SECTOR, EntryOff(Fat32, c) % SECTOR);
            && SECTOR * j + SECTOR <= |f| && i + 4 <= SECTOR
            && PatchSector(Fat32, Sector(f, j), i, c, v) == Sector(PutEntry(Fat32, f, c, v), j)
  {
    hide Put32, Le32;
    EntryInsideSector(Fat32, c);
    var j, i := EntryOff(Fat32, c) / SECTOR, EntryOff(Fat32, c) % SECTOR;
    Le32Window(f, j, i);
    Put32Window(f, SECTOR * j, SECTOR, i, Le32(f, 4 * c) / 0x1000_0000 * 0x1000_0000 + v % 0x1000_0000);
  }

  lemma UpdateWindow(f: seq<byte>, base: nat, i: nat, b: (byte, byte))
    requires base + SECTOR <= |f| && i + 2 <= SECTOR
    ensures f[base + i := b.0][base + i + 1 := b.1][base..base + SECTOR]
            == f[base..base + SECTOR][i := b.0][i + 1 := b.1]
  {
  }

  lemma Le32Window(f: seq<byte>, j: nat, i: nat)
    requires SECTOR * j + SECTOR <= |f| && i + 4 <= SECTOR
    ensures Le32(Sector(f, j), i) == Le32(f, SECTOR * j + i)
  {
  }

  lemma EntryWidth(ty: FatType, c: nat)
    ensures EntryEnd(ty, c) - EntryOff(ty, c) == if ty.Fat32? then 4 else 2
  {
  }

  // ---------- the layout, byte by byte ----------

  /** Where the bits of an entry lie: two entries of 12 bits in three bytes, one of 16 in two, one of 28 in four. */
  lemma EntryLayout(ty: FatType, f: seq<byte>, c: nat)
    requires EntryEnd(ty, c) <= |f|
    ensures ty.Fat12? ==> c % 2 == 0 ==> 3 * (c / 2) + 1 < |f| && Entry(ty, f, c) == f[3 * (c / 2)] as nat + 256 * (f[3 * (c / 2) + 1] as nat % 16)
    ensures ty.Fat12? ==> c % 2 == 1 ==>
              3 * (c / 2) + 2 < |f| && Entry(ty, f, c) == f[3 * (c / 2) + 1] as nat / 16 + 16 * f[3 * (c / 2) + 2] as nat
    ensures ty.Fat16? ==> Entry(ty, f, c) == f[2 * c] as nat + 256 * f[2 * c + 1] as nat
    ensures ty.Fat32? ==>
              Entry(ty, f, c) == f[4 * c] as nat + 256 * f[4 * c + 1] as nat + 65536 * f[4 * c + 2] as nat + 16777216 * (f[4 * c + 3] as nat % 16)
  {
    match ty {
      case Fat12 =>
        var o := EntryOff(ty, c);
        assert o == 3 * (c / 2) + c % 2;
        Layout12(f[o] as nat, f[o + 1] as nat);
      case Fat16 =>
      case Fat32 =>
        Layout32(Le16(f, 4 * c), f[4 * c + 2] as nat, f[4 * c + 3] as nat);
    }
  }

  lemma Layout12(b0: nat, b1: nat)
    requires b0 < 256 && b1 < 256
    ensures (b0 + 0x100 * b1) / 0x10 == b0 / 16 + 16 * b1 && (b0 + 0x100 * b1) % 0x1000 == b0 + 256 * (b1 % 16)
  {
    assert b0 + 0x100 * b1 == 16 * (b0 / 16 + 16 * b1) + b0 % 16;
    assert b0 + 0x100 * b1 == 0x1000 * (b1 / 16) + (b0 + 256 * (b1 % 16));
  }

  lemma Layout32(low: nat, b2: nat, b3: nat)
    requires low < 65536 && b2 < 256 && b3 < 256
    ensures (low + 0x1_0000 * (b2 + 0x100 * b3)) % 0x1000_0000 == low + 65536 * b2 + 16777216 * (b3 % 16)
  {
    assert low + 0x1_0000 * (b2 + 0x100 * b3) == 0x1000_0000 * (b3 / 16) + (low + 65536 * b2 + 16777216 * (b3 % 16));
  }

  /** Storing an entry of 28 bits keeps the four bits above it. */
  lemma ReservedKept(f: seq<byte>, c: nat, v: nat)
    requires 4 * c + 4 <= |f|
    ensures PutEntry(Fat32, f, c, v)[4 * c + 3] / 16 == f[4 * c + 3] / 16
  {
    var q := f[4 * c + 3] as nat / 16;
    var w := Le32(f, 4 * c) / 0x1000_0000 * 0x1000_0000 + v % 0x1000_0000;
    Layout32High(Le16(f, 4 * c), f[4 * c + 2] as nat, f[4 * c + 3] as nat);
    assert w == 0x1000_0000 * q + v % 0x1000_0000;
    assert w / 0x1_0000 / 0x100 % 0x100 == w / 0x100_0000;
  }

  lemma Layout32High(low: nat, b2: nat, b3: nat)
    requires low < 65536 && b2 < 256 && b3 < 256
    ensures (low + 0x1_0000 * (b2 + 0x100 * b3)) / 0x1000_0000 == b3 / 16
  {
    assert low + 0x1_0000 * (b2 + 0x100 * b3) == 0x1000_0000 * (b3 / 16) + (low + 65536 * b2 + 16777216 * (b3 % 16));
  }
}
