/** The host memory a LANCE controller reaches by DMA: 16-bit words, seen as bytes through either byte order. */
module LanceMemory {
  /** The bus has 24 address lines; the lowest one only picks a byte of a word. */
  const WORDS := 0x80_0000
  const SPACE := 0x100_0000

  function Fetch(m: seq<bv16>, a: nat): bv16
    requires |m| == WORDS
  {
    m[a / 2 % WORDS]
  }

  function Store(m: seq<bv16>, a: nat, w: bv16): (m': seq<bv16>)
    requires |m| == WORDS
    ensures |m'| == WORDS
  {
    m[a / 2 % WORDS := w]
  }

  // ---------- byte lanes ----------

  function LowHalf(w: bv16): bv8 {
    (w & 0xFF) as bv8
  }

  function HighHalf(w: bv16): bv8 {
    (w >> 8) as bv8
  }

  function Halves(hi: bv8, lo: bv8): bv16 {
    ((hi as bv16) << 8) | (lo as bv16)
  }

  /** The byte of a word at an even or odd address. */
  function Lane(w: bv16, odd: bool, swap: bool): bv8 {
    if odd == swap then LowHalf(w) else HighHalf(w)
  }

  /** The word whose byte at the even address is `b0` and at the odd address `b1`. */
  function Pair(b0: bv8, b1: bv8, swap: bool): bv16 {
    if swap then Halves(b0, b1) else Halves(b1, b0)
  }

  lemma HalvesIs(hi: bv8, lo: bv8)
    ensures LowHalf(Halves(hi, lo)) == lo && HighHalf(Halves(hi, lo)) == hi
  {
  }

  lemma PairLanes(b0: bv8, b1: bv8, swap: bool)
    ensures Lane(Pair(b0, b1, swap), false, swap) == b0 && Lane(Pair(b0, b1, swap), true, swap) == b1
  {
    hide LowHalf, HighHalf, Halves;
    HalvesIs(b0, b1);
    HalvesIs(b1, b0);
  }

  function ByteAt(m: seq<bv16>, x: nat, swap: bool): bv8
    requires |m| == WORDS
  {
    Lane(Fetch(m, x), x % 2 == 1, swap)
  }

  // ---------- blocks ----------

  /** `n` bytes from address `a` on. */
  function Block(m: seq<bv16>, a: nat, n: nat, swap: bool): (b: seq<bv8>)
    requires |m| == WORDS
    ensures |b| == n
    decreases n
  {
    if n == 0 then [] else [ByteAt(m, a, swap)] + Block(m, a + 1, n - 1, swap)
  }

  /** Memory after `d` was written from address `a` on. A byte beside an odd end is overwritten with zero. */
  function OutBlock(m: seq<bv16>, a: nat, d: seq<bv8>, swap: bool): (m': seq<bv16>)
    requires |m| == WORDS
    ensures |m'| == WORDS
    decreases |d|
  {
    if d == [] then m
    else if a % 2 == 1 then OutBlock(Store(m, a - 1, Pair(0, d[0], swap)), a + 1, d[1..], swap)
    else if |d| == 1 then Store(m, a, Pair(d[0], 0, swap))
    else OutBlock(Store(m, a, Pair(d[0], d[1], swap)), a + 2, d[2..], swap)
  }

  lemma ByteAfterStore(m: seq<bv16>, a: nat, w: bv16, x: nat, swap: bool)
    requires |m| == WORDS && a % 2 == 0 && a < SPACE && x < SPACE
    ensures ByteAt(Store(m, a, w), x, swap) == if x == a then Lane(w, false, swap) else if x == a + 1 then Lane(w, true, swap) else ByteAt(m, x, swap)
  {
    hide Lane;
    assert x / 2 == a / 2 <==> x == a || x == a + 1;
  }

  /** What byte `x` holds after a block was written. */
  function Landed(m: seq<bv16>, a: nat, d: seq<bv8>, swap: bool, x: nat): bv8
    requires |m| == WORDS
  {
    if a <= x < a + |d| then d[x - a]
    else if d != [] && ((a % 2 == 1 && x == a - 1) || ((a + |d|) % 2 == 1 && x == a + |d|)) then 0
    else ByteAt(m, x, swap)
  }

  /** Writing a block sets its bytes, zeroes the bytes that share a word with an odd end, and nothing else. */
  lemma {:induction false} OutBlockBytes(m: seq<bv16>, a: nat, d: seq<bv8>, swap: bool, x: nat)
    requires |m| == WORDS && a + |d| <= SPACE && x < SPACE
    ensures ByteAt(OutBlock(m, a, d, swap), x, swap) == Landed(m, a, d, swap, x)
    decreases |d|
  {
    hide ByteAt, Store, Pair, Lane;
    if d != [] {
      if a % 2 == 1 {
        PairLanes(0, d[0], swap);
        ByteAfterStore(m, a - 1, Pair(0, d[0], swap), x, swap);
        OutBlockBytes(Store(m, a - 1, Pair(0, d[0], swap)), a + 1, d[1..], swap, x);
      } else if |d| == 1 {
        PairLanes(d[0], 0, swap);
        ByteAfterStore(m, a, Pair(d[0], 0, swap), x, swap);
      } else {
        PairLanes(d[0], d[1], swap);
        ByteAfterStore(m, a, Pair(d[0], d[1], swap), x, swap);
        OutBlockBytes(Store(m, a, Pair(d[0], d[1], swap)), a + 2, d[2..], swap, x);
      }
    }
  }

  lemma {:induction false} BlockIs(m: seq<bv16>, a: nat, n: nat, swap: bool)
    requires |m| == WORDS
    ensures forall i :: 0 <= i < n ==> Block(m, a, n, swap)[i] == ByteAt(m, a + i, swap)
    decreases n
  {
    hide ByteAt;
    if n > 0 {
      BlockIs(m, a + 1, n - 1, swap);
    }
  }

  /** Reading a block back gives what was written, at odd and even addresses and in either byte order. */
  lemma InInvertsOut(m: seq<bv16>, a: nat, d: seq<bv8>, swap: bool)
    requires |m| == WORDS && a + |d| <= SPACE
    ensures Block(OutBlock(m, a, d, swap), a, |d|, swap) == d
  {
    hide ByteAt, OutBlock, Block;
    var m' := OutBlock(m, a, d, swap);
    BlockIs(m', a, |d|, swap);
    forall i | 0 <= i < |d|
      ensures Block(m', a, |d|, swap)[i] == d[i]
    {
      OutBlockBytes(m, a, d, swap, a + i);
    }
  }

  /** Word `w` belongs to the `n` bytes at `a`. */
  predicate Shares(a: nat, n: nat, w: nat) {
    n > 0 && a <= 2 * w + 1 && 2 * w < a + n
  }

  lemma StoreKeeps(m: seq<bv16>, a: nat, v: bv16, w: nat)
    requires |m| == WORDS && a % 2 == 0 && a < SPACE && w < WORDS && 2 * w != a
    ensures Store(m, a, v)[w] == m[w]
  {
  }

  lemma {:induction false} OutBlockKeeps(m: seq<bv16>, a: nat, d: seq<bv8>, swap: bool, w: nat)
    requires |m| == WORDS && a + |d| <= SPACE && w < WORDS && !Shares(a, |d|, w)
    ensures OutBlock(m, a, d, swap)[w] == m[w]
    decreases |d|
  {
    hide Pair, Store;
    if d != [] {
      if a % 2 == 1 {
        StoreKeeps(m, a - 1, Pair(0, d[0], swap), w);
        OutBlockKeeps(Store(m, a - 1, Pair(0, d[0], swap)), a + 1, d[1..], swap, w);
      } else if |d| == 1 {
        StoreKeeps(m, a, Pair(d[0], 0, swap), w);
      } else {
        StoreKeeps(m, a, Pair(d[0], d[1], swap), w);
        OutBlockKeeps(Store(m, a, Pair(d[0], d[1], swap)), a + 2, d[2..], swap, w);
      }
    }
  }

  lemma FetchIs(m: seq<bv16>, a: nat)
    requires |m| == WORDS && a < SPACE
    ensures 0 <= a / 2 < WORDS && Fetch(m, a) == m[a / 2] && a <= 2 * (a / 2) + 1 && 2 * (a / 2) <= a
  {
  }

  /** A block's bytes depend on its words only. */
  lemma {:induction false} BlockFrame(m: seq<bv16>, m': seq<bv16>, a: nat, n: nat, swap: bool)
    requires |m| == WORDS == |m'| && a + n <= SPACE
    requires forall w :: 0 <= w < WORDS && Shares(a, n, w) ==> m'[w] == m[w]
    ensures Block(m', a, n, swap) == Block(m, a, n, swap)
    decreases n
  {
    hide Lane, Fetch;
    if n > 0 {
      FetchIs(m, a);
      FetchIs(m', a);
      assert Shares(a, n, a / 2);
      BlockFrame(m, m', a + 1, n - 1, swap);
    }
  }
}
