/** The LZSS decoders (lzss.c): a 4096-byte ring window against an unbounded history that starts as zeros. */
module Lzss {
  import opened Bytes
  import opened Numbers

  const WINDOW := 4096

  // ---------- the history ----------

  /** The byte `d` places back; before the beginning everything is zero. */
  function Back(h: seq<byte>, d: nat): byte
    requires d >= 1
  {
    if d <= |h| then h[|h| - d] else 0
  }

  /** How far behind byte `n` of the output the latest byte lies that belongs at window position `pos`. */
  function Distance(n: nat, pos: nat): (d: nat)
    requires pos < WINDOW
    ensures 1 <= d <= WINDOW && (n + WINDOW - d) % WINDOW == pos
  {
    (n + WINDOW - pos - 1) % WINDOW + 1
  }

  /** `len` bytes, each a copy of the one `d` places behind it; `len` may exceed `d`. */
  function Repeat(h: seq<byte>, d: nat, len: nat): (r: seq<byte>)
    requires d >= 1
    ensures |r| == |h| + len && r[..|h|] == h
  {
    if len == 0 then h else
      var r0 := Repeat(h, d, len - 1);
      r0 + [Back(r0, d)]
  }

  // ---------- the ring ----------

  /** Every window position holds the latest byte that belongs there. */
  ghost predicate RingOk(w: seq<byte>, h: seq<byte>) {
    |w| == WINDOW && forall p :: 0 <= p < WINDOW ==> w[p] == Back(h, Distance(|h|, p))
  }

  lemma DistanceNext(n: nat, p: nat)
    requires p < WINDOW
    ensures p == n % WINDOW ==> Distance(n, p) == WINDOW && Distance(n + 1, p) == 1
    ensures p != n % WINDOW ==> Distance(n + 1, p) == Distance(n, p) + 1
  {
    var q, r := n / WINDOW, n % WINDOW;
    var x := n + WINDOW - p - 1;
    if p < r {
      assert x == (q + 1) * WINDOW + (r - p - 1);
    } else {
      assert x == q * WINDOW + (WINDOW + r - p - 1);
    }
  }

  /** A copy moves along with the output, so the distance stays. */
  lemma DistanceMoves(n: nat, pos: nat, i: nat)
    requires pos < WINDOW
    ensures Distance(n + i, (pos + i) % WINDOW) == Distance(n, pos)
  {
  }

  /** Writing a byte at the write position keeps the ring the image of the history. */
  lemma RingPush(w: seq<byte>, h: seq<byte>, c: byte)
    requires RingOk(w, h)
    ensures RingOk(w[|h| % WINDOW := c], h + [c])
  {
    var w' := w[|h| % WINDOW := c];
    forall p | 0 <= p < WINDOW
      ensures w'[p] == Back(h + [c], Distance(|h| + 1, p))
    {
      DistanceNext(|h|, p);
    }
  }

  // ---------- the format ----------

  /** The flag bits of the tokens left in a group of eight; the next token's is the lowest. */
  datatype Group = Group(bits: nat, left: nat)

  function PairPos(b1: byte, b2: byte): (p: nat)
    ensures p < WINDOW
  {
    b1 as nat + b2 as nat / 16 * 256
  }

  function PairLen(b2: byte): (n: nat)
    ensures 3 <= n <= 18
  {
    b2 as nat % 16 + 3
  }

  /**
   Decoding from the rest of the input on, with history `h`: whether it reached `expected` bytes, and all bytes
   produced. At most `max` bytes are produced.
   */
  function Decode(inp: seq<byte>, g: Group, h: seq<byte>, expected: nat, max: nat): (r: (bool, seq<byte>))
    requires |h| <= max
    ensures |h| <= |r.1| <= max && (r.0 ==> |r.1| >= expected)
    decreases |inp|
  {
    if |h| >= expected then (true, h)
    else if g.left == 0 then
      if inp == [] then (false, h) else Decode(inp[1..], Group(inp[0], 8), h, expected, max)
    else
      var g' := Group(g.bits / 2, g.left - 1);
      if g.bits % 2 == 1 then
        if inp == [] || |h| >= max then (false, h) else Decode(inp[1..], g', h + [inp[0]], expected, max)
      else if |inp| < 2 then (false, h)
      else
        var d := Distance(|h|, PairPos(inp[0], inp[1]));
        var len := PairLen(inp[1]);
        if |h| + len > max then (false, Repeat(h, d, max - |h|))
        else Decode(inp[2..], g', Repeat(h, d, len), expected, max)
  }

  /** The size in a blob's header, or 0. */
  function Announced(blob: seq<byte>): (n: nat)
    requires |blob| >= 8
    ensures n < U32
  {
    if blob[..4] == [0x4C, 0x5A, 0x53, 0x53]
    then ((blob[4] as nat * 0x100 + blob[5] as nat) * 0x100 + blob[6] as nat) * 0x100 + blob[7] as nat
    else 0
  }

  /** The longest output of a decoder without a limit: the last copy may run over by up to 17 bytes. */
  function Longest(expected: nat): nat {
    expected + 17
  }

  // ---------- what the packer writes ----------

  datatype Token = Literal(c: byte) | Match(pos: nat, len: nat)

  predicate TokensOk(ts: seq<Token>) {
    forall i :: 0 <= i < |ts| ==> ts[i].Match? ==> ts[i].pos < WINDOW && 3 <= ts[i].len <= 18
  }

  /** What tokens denote, behind a history. */
  function Expand(ts: seq<Token>, h: seq<byte>): (r: seq<byte>)
    requires TokensOk(ts)
    ensures |r| >= |h| + |ts|
    decreases |ts|
  {
    if ts == [] then h
    else match ts[0]
      case Literal(c) => Expand(ts[1..], h + [c])
      case Match(pos, len) => Expand(ts[1..], Repeat(h, Distance(|h|, pos), len))
  }

  function TokenBytes(t: Token): (b: seq<byte>)
    requires TokensOk([t])
  {
    assert [t][0] == t;
    match t
    case Literal(c) => [c]
    case Match(pos, len) => [pos % 256, pos / 256 * 16 + len - 3]
  }

  function FlagBits(ts: seq<Token>): (n: nat)
    decreases |ts|
  {
    if ts == [] then 0 else (if ts[0].Literal? then 1 else 0) + 2 * FlagBits(ts[1..])
  }

  lemma {:induction false} RepeatAt(h: seq<byte>, d: nat, len: nat, i: nat)
    requires d >= 1 && i < len
    ensures Repeat(h, d, i + 1) <= Repeat(h, d, len) && Repeat(h, d, i) <= Repeat(h, d, len)
    ensures Repeat(h, d, len)[|h| + i] == Back(Repeat(h, d, i), d)
    decreases len
  {
    if i < len - 1 {
      RepeatAt(h, d, len - 1, i);
    }
  }

  /**
   A match by ring positions: each byte is the one put out last at its position of a ring of 4096, the bytes of the match
   itself included, or zero when none was. The first byte put out stands at position 0.
   */
  lemma MatchCopies(h: seq<byte>, pos: nat, len: nat, i: nat)
    requires pos < 4096 && 3 <= len <= 18 && i < len
    ensures TokensOk([Match(pos, len)]) && |Expand([Match(pos, len)], h)| == |h| + len
    ensures var r, at := Expand([Match(pos, len)], h), |h| + i;
            && h <= r
            && (forall j :: 0 <= j < at && j % 4096 == (pos + i) % 4096 && (forall k :: j < k < at ==> k % 4096 != (pos + i) % 4096) ==>
                  r[at] == r[j])
            && ((forall j :: 0 <= j < at ==> j % 4096 != (pos + i) % 4096) ==> r[at] == 0)
  {
    var d := Distance(|h|, pos);
    var r, at := Repeat(h, d, len), |h| + i;
    assert Expand([Match(pos, len)], h) == r by {
      assert [Match(pos, len)][1..] == [] && Expand([], r) == r;
    }
    RepeatAt(h, d, len, i);
    DistanceMoves(|h|, pos, i);
    LastAt(at, d, (pos + i) % 4096);
  }

  /** Of the last 4096 places, the one `d` back is the only one at its ring position. */
  lemma LastAt(at: nat, d: nat, p: nat)
    requires p < WINDOW && d == Distance(at, p)
    ensures d <= at ==> (at - d) % WINDOW == p && forall k :: at - d < k < at ==> k % WINDOW != p
    ensures d > at ==> forall k :: 0 <= k < at ==> k % WINDOW != p
  {
  }

  lemma {:induction false} FlagByteFits(ts: seq<Token>)
    requires |ts| <= 8
    ensures FlagBits(ts) < 256
  {
    FlagBound(ts, 8);
  }

  lemma {:induction false} FlagBound(ts: seq<Token>, n: nat)
    requires |ts| <= n
    ensures FlagBits(ts) < Pow2(n)
    decreases |ts|
  {
    if ts != [] {
      FlagBound(ts[1..], n - 1);
    }
  }

  function AllBytes(ts: seq<Token>): seq<byte>
    requires TokensOk(ts)
    decreases |ts|
  {
    if ts == [] then [] else TokenBytes(ts[0]) + AllBytes(ts[1..])
  }

  /** Tokens in groups of eight, each behind its flag byte. */
  function Pack(ts: seq<Token>): seq<byte>
    requires TokensOk(ts)
    decreases |ts|
  {
    if ts == [] then []
    else
      var g := if |ts| <= 8 then ts else ts[..8];
      FlagByteFits(g);
      [FlagBits(g) as byte] + AllBytes(g) + Pack(ts[|g|..])
  }

  lemma PairIs(pos: nat, len: nat)
    requires pos < WINDOW && 3 <= len <= 18
    ensures TokensOk([Match(pos, len)])
    ensures var b := TokenBytes(Match(pos, len)); |b| == 2 && PairPos(b[0], b[1]) == pos && PairLen(b[1]) == len
  {
  }

  /** One token decoded is one token expanded. */
  lemma StepToken(t: Token, rest: seq<byte>, g: Group, h: seq<byte>, expected: nat, max: nat)
    requires TokensOk([t]) && g.left > 0 && |h| < expected && g.bits % 2 == (if t.Literal? then 1 else 0)
    requires |Expand([t], h)| <= max
    ensures Decode(TokenBytes(t) + rest, g, h, expected, max)
            == Decode(rest, Group(g.bits / 2, g.left - 1), Expand([t], h), expected, max)
  {
    assert [t][0] == t && [t][1..] == [];
    var inp := TokenBytes(t) + rest;
    match t {
      case Literal(c) =>
        assert inp[1..] == rest;
      case Match(pos, len) =>
        PairIs(pos, len);
        assert inp[2..] == rest && inp[0] == TokenBytes(t)[0] && inp[1] == TokenBytes(t)[1];
    }
  }

  lemma StepReload(b: byte, rest: seq<byte>, bits: nat, h: seq<byte>, expected: nat, max: nat)
    requires |h| < expected && |h| <= max
    ensures Decode([b] + rest, Group(bits, 0), h, expected, max) == Decode(rest, Group(b, 8), h, expected, max)
  {
    assert ([b] + rest)[1..] == rest;
  }

  lemma StepDone(inp: seq<byte>, g: Group, h: seq<byte>, max: nat)
    requires |h| <= max
    ensures Decode(inp, g, h, |h|, max) == (true, h)
  {
  }

  lemma ExpandFirst(ts: seq<Token>, h: seq<byte>)
    requires TokensOk(ts) && ts != []
    ensures TokensOk([ts[0]]) && TokensOk(ts[1..]) && Expand(ts, h) == Expand(ts[1..], Expand([ts[0]], h))
    ensures |h| < |Expand([ts[0]], h)| <= |Expand(ts, h)|
  {
    assert [ts[0]][1..] == [];
  }

  lemma FlagsFirst(g: seq<Token>)
    requires g != []
    ensures FlagBits(g) % 2 == (if g[0].Literal? then 1 else 0) && FlagBits(g) / 2 == FlagBits(g[1..])
  {
  }

  lemma PackGroup(ts: seq<Token>) returns (k: seq<Token>, b: byte)
    requires TokensOk(ts) && ts != []
    ensures 1 <= |k| <= 8 && |k| <= |ts| && k == ts[..|k|] && TokensOk(k) && TokensOk(ts[|k|..]) && b as nat == FlagBits(k)
    ensures |k| < 8 ==> |k| == |ts|
    ensures Pack(ts) == [b] + AllBytes(k) + Pack(ts[|k|..])
  {
    k := if |ts| <= 8 then ts else ts[..8];
    FlagByteFits(k);
    b := FlagBits(k) as byte;
  }

  /** Decoding in the middle of a group: `g` is what is left of it, `ts` what follows. */
  lemma {:induction false} DecodeTokens(g: seq<Token>, ts: seq<Token>, left: nat, h: seq<byte>, tail: seq<byte>, max: nat)
    requires TokensOk(g + ts) && TokensOk(g) && TokensOk(ts) && |g| <= left && (ts != [] ==> left == |g|)
    requires |Expand(g + ts, h)| <= max
    ensures Decode(AllBytes(g) + (Pack(ts) + tail), Group(FlagBits(g), left), h, |Expand(g + ts, h)|, max) == (true, Expand(g + ts, h))
    decreases |ts|, |g|, 1
  {
    hide Decode, Expand, TokenBytes, Pack, FlagBits;
    var more := Pack(ts) + tail;
    if g != [] {
      assert (g + ts)[0] == g[0] && (g + ts)[1..] == g[1..] + ts;
      ExpandFirst(g + ts, h);
      FlagsFirst(g);
      assert AllBytes(g) + more == TokenBytes(g[0]) + (AllBytes(g[1..]) + more);
      StepToken(g[0], AllBytes(g[1..]) + more, Group(FlagBits(g), left), h, |Expand(g + ts, h)|, max);
      DecodeTokens(g[1..], ts, left - 1, Expand([g[0]], h), tail, max);
    } else if ts != [] {
      assert g + ts == ts && AllBytes(g) + more == more;
      DecodeGroup(ts, h, tail, max);
    } else {
      assert g + ts == [];
      ExpandNone(h);
      StepDone(AllBytes(g) + more, Group(FlagBits(g), left), h, max);
    }
  }

  lemma {:induction false} DecodeGroup(ts: seq<Token>, h: seq<byte>, tail: seq<byte>, max: nat)
    requires TokensOk(ts) && ts != [] && |Expand(ts, h)| <= max
    ensures Decode(Pack(ts) + tail, Group(FlagBits([]), 0), h, |Expand(ts, h)|, max) == (true, Expand(ts, h))
    decreases |ts|, 0, 0
  {
    hide Decode, Expand, TokenBytes, Pack, FlagBits;
    var k, b := PackGroup(ts);
    var rest := AllBytes(k) + (Pack(ts[|k|..]) + tail);
    assert k + ts[|k|..] == ts;
    ExpandFirst(ts, h);
    assert Pack(ts) + tail == [b] + rest;
    StepReload(b, rest, FlagBits([]), h, |Expand(ts, h)|, max);
    DecodeTokens(k, ts[|k|..], 8, h, tail, max);
  }

  lemma ExpandNone(h: seq<byte>)
    ensures Expand([], h) == h
  {
  }

  /** Decoding what the packer wrote gives what the tokens denote, whatever follows in the input. */
  lemma DecodePacked(ts: seq<Token>, tail: seq<byte>, max: nat)
    requires TokensOk(ts) && |Expand(ts, [])| <= max
    ensures Decode(Pack(ts) + tail, Group(0, 0), [], |Expand(ts, [])|, max) == (true, Expand(ts, []))
  {
    assert [] + ts == ts && AllBytes([]) + (Pack(ts) + tail) == Pack(ts) + tail && FlagBits([]) == 0;
    if ts != [] {
      DecodeTokens([], ts, 0, [], tail, max);
    } else {
      DecodeTokens([], [], 0, [], tail, max);
    }
  }

  /** A limit that the output stays within makes no difference. */
  lemma {:induction false} LimitIrrelevant(inp: seq<byte>, g: Group, h: seq<byte>, expected: nat, m: nat, m': nat)
    requires |h| <= m && |h| <= m' && Decode(inp, g, h, expected, m).0 && |Decode(inp, g, h, expected, m).1| <= m'
    ensures Decode(inp, g, h, expected, m') == Decode(inp, g, h, expected, m)
    decreases |inp|
  {
    if |h| < expected {
      if g.left == 0 {
        LimitIrrelevant(inp[1..], Group(inp[0], 8), h, expected, m, m');
      } else if g.bits % 2 == 1 {
        LimitIrrelevant(inp[1..], Group(g.bits / 2, g.left - 1), h + [inp[0]], expected, m, m');
      } else {
        var h' := Repeat(h, Distance(|h|, PairPos(inp[0], inp[1])), PairLen(inp[1]));
        LimitIrrelevant(inp[2..], Group(g.bits / 2, g.left - 1), h', expected, m, m');
      }
    }
  }

  // ---------- the decoders ----------

  /** The flag word: the bits left, below a run of ones that is as long as there are bits left. */
  function FlagWord(g: Group): nat
    requires g.left <= 8
  {
    g.bits + 255 * Pow2(g.left)
  }

  /** Bit 8 of the flag word says whether the group has a token left. */
  lemma FlagWordIs(g: Group)
    requires g.left <= 8 && g.bits < Pow2(g.left)
    ensures FlagWord(g) / 0x100 % 2 == (if g.left == 0 then 0 else 1)
    ensures g.left > 0 ==> FlagWord(g) % 2 == g.bits % 2 && g.bits / 2 < Pow2(g.left - 1)
                           && FlagWord(g) / 2 == FlagWord(Group(g.bits / 2, g.left - 1))
    ensures Pow2(8) == 0x100
  {
    assert Pow2(0) == 1 && Pow2(1) == 2 && Pow2(2) == 4 && Pow2(3) == 8 && Pow2(4) == 16;
    assert Pow2(5) == 32 && Pow2(6) == 64 && Pow2(7) == 128 && Pow2(8) == 256;
    if g.left > 0 {
      assert Pow2(g.left) == 2 * Pow2(g.left - 1);
    }
  }

  /** The zeroing loop. */
  method ClearWindow(window: array<byte>)
    requires window.Length == WINDOW
    modifies window
    ensures RingOk(window[..], [])
  {
    for i := 0 to WINDOW
      invariant forall p :: 0 <= p < i ==> window[p] == 0
    {
      window[i] := 0;
    }
  }

  /** Writing one byte to the window. */
  method PushByte(window: array<byte>, wpos: nat, c: byte, ghost h: seq<byte>)
    requires window.Length == WINDOW && RingOk(window[..], h) && wpos == |h|
    modifies window
    ensures RingOk(window[..], h + [c])
  {
    RingPush(window[..], h, c);
    window[wpos % WINDOW] := c;
  }

  lemma RingRead(w: seq<byte>, h0: seq<byte>, h: seq<byte>, pos: nat, i: nat)
    requires RingOk(w, h) && pos < WINDOW && |h| == |h0| + i
    ensures w[(pos + i) % WINDOW] == Back(h, Distance(|h0|, pos))
  {
    DistanceMoves(|h0|, pos, i);
  }

  /** What is left of a blob of `size` bytes from position `i` on. */
  function Rest(blob: seq<byte>, size: nat, i: nat): seq<byte>
    requires size <= |blob|
  {
    if i <= size then blob[i..size] else []
  }

  lemma RestDrop(blob: seq<byte>, size: nat, i: nat, k: nat)
    requires i + k <= size <= |blob|
    ensures Rest(blob, size, i)[k..] == Rest(blob, size, i + k)
  {
  }

  /** One byte of output: to the buffer and to the window. */
  method PutByte(window: array<byte>, out: array<byte>, c: byte, ghost o: seq<byte>, ghost h: seq<byte>, op: nat)
    requires window.Length == WINDOW && window != out && RingOk(window[..], h) && op == |h| < out.Length == |o|
    requires out[..] == Splice(o, 0, h)
    modifies window, out
    ensures RingOk(window[..], h + [c]) && out[..] == Splice(o, 0, h + [c])
  {
    out[op] := c;
    PushByte(window, op, c, h);
  }

  /** The copy loop of a match; `full` when the buffer's limit stopped it. */
  method CopyMatch(window: array<byte>, out: array<byte>, outMax: nat, op: nat, pos: nat, len: nat, ghost o: seq<byte>, ghost h: seq<byte>)
    returns (op': nat, full: bool)
    requires window.Length == WINDOW && window != out && RingOk(window[..], h) && pos < WINDOW
    requires op == |h| <= outMax <= out.Length == |o| && out[..] == Splice(o, 0, h)
    modifies window, out
    ensures full <==> |h| + len > outMax
    ensures var r := Repeat(h, Distance(|h|, pos), if full then outMax - |h| else len);
            RingOk(window[..], r) && out[..] == Splice(o, 0, r) && op' == |r|
  {
    hide RingOk, Distance;
    ghost var d := Distance(|h|, pos);
    ghost var r := h;
    op' := op;
    for i := 0 to len
      invariant r == Repeat(h, d, i) && op' == |r| <= outMax
      invariant RingOk(window[..], r) && out[..] == Splice(o, 0, r)
    {
      if op' >= outMax {
        return op', true;
      }
      RingRead(window[..], h, r, pos, i);
      var c := window[(pos + i) % WINDOW];
      PutByte(window, out, c, o, r, op');
      r := r + [c];
      op' := op' + 1;
    }
    full := false;
  }

  /** lzss_decompress: the number of bytes written, 0 on error; `size` is the blob's length. */
  method Decompress(window: array<byte>, blob: seq<byte>, size: nat, out: array<byte>, outMax: nat) returns (rc: nat)
    requires window.Length == WINDOW && window != out && 8 <= |blob| && size <= |blob| && outMax <= out.Length
    modifies window, out
    ensures var n := Announced(blob);
            if n == 0 || n > outMax then rc == 0 && out[..] == old(out[..])
            else
              var (ok, s) := Decode(Rest(blob, size, 8), Group(0, 0), [], n, outMax);
              rc == (if ok then |s| else 0) && out[..] == Splice(old(out[..]), 0, s)
  {
    hide Decode, RingOk, Announced, FlagWord, Repeat, Splice, Rest;
    var expected := Announced(blob);
    if expected == 0 || expected > outMax {
      return 0;
    }
    ClearWindow(window);
    ghost var o, g, h := out[..], Group(0, 0), [];
    SpliceNothing(o);
    FlagWordIs(g);
    var i, op, flags := 8, 0, 0;
    while op < expected
      invariant op == |h| <= outMax && RingOk(window[..], h) && out[..] == Splice(o, 0, h)
      invariant g.left <= 8 && g.bits < Pow2(g.left) && (flags == FlagWord(g) || (flags == 0 && g.left == 0))
      invariant Decode(Rest(blob, size, i), g, h, expected, outMax) == Decode(Rest(blob, size, 8), Group(0, 0), [], expected, outMax)
      decreases size - i
    {
      FlagWordIs(g);
      if flags / 0x100 % 2 == 0 {
        DecodeReload(blob, size, i, g, h, expected, outMax);
        if i >= size {
          return 0;
        }
        g := Group(blob[i], 8);
        flags := blob[i] as nat + 0xFF00;
        WholeGroup(blob[i]);
        i := i + 1;
        FlagWordIs(g);
      }
      if flags % 2 == 1 {
        DecodeLiteral(blob, size, i, g, h, expected, outMax);
        if i >= size || op >= outMax {
          return 0;
        }
        var c := blob[i];
        i := i + 1;
        PutByte(window, out, c, o, h, op);
        h := h + [c];
        op := op + 1;
      } else {
        DecodeMatch(blob, size, i, g, h, expected, outMax);
        if i + 1 >= size {
          return 0;
        }
        var pos, len := PairPos(blob[i], blob[i + 1]), PairLen(blob[i + 1]);
        i := i + 2;
        var full;
        ghost var d := Distance(|h|, pos);
        op, full := CopyMatch(window, out, outMax, op, pos, len, o, h);
        if full {
          return 0;
        }
        h := Repeat(h, d, len);
      }
      g := Group(g.bits / 2, g.left - 1);
      flags := flags / 2;
    }
    DecodeEnds(Rest(blob, size, i), g, h, expected, outMax);
    rc := op;
  }

  /** lzss_decompress_stream: the bytes emitted, and their number or 0 on error. */
  method DecompressStream(window: array<byte>, blob: seq<byte>, size: nat) returns (rc: nat, emitted: seq<byte>)
    requires window.Length == WINDOW && 8 <= |blob| && size <= |blob|
    modifies window
    ensures var n := Announced(blob);
            if n == 0 then rc == 0 && emitted == []
            else
              var (ok, s) := Decode(Rest(blob, size, 8), Group(0, 0), [], n, Longest(n));
              rc == (if ok then |s| else 0) && emitted == s
  {
    hide Decode, RingOk, Announced, FlagWord, Repeat, Rest, Distance;
    emitted := [];
    var expected := Announced(blob);
    if expected == 0 {
      return 0, [];
    }
    ClearWindow(window);
    ghost var g, max := Group(0, 0), Longest(expected);
    FlagWordIs(g);
    var i, op, flags := 8, 0, 0;
    while op < expected
      invariant op == |emitted| <= max && RingOk(window[..], emitted)
      invariant g.left <= 8 && g.bits < Pow2(g.left) && (flags == FlagWord(g) || (flags == 0 && g.left == 0))
      invariant Decode(Rest(blob, size, i), g, emitted, expected, max) == Decode(Rest(blob, size, 8), Group(0, 0), [], expected, max)
      decreases size - i
    {
      FlagWordIs(g);
      if flags / 0x100 % 2 == 0 {
        DecodeReload(blob, size, i, g, emitted, expected, max);
        if i >= size {
          return 0, emitted;
        }
        g := Group(blob[i], 8);
        flags := blob[i] as nat + 0xFF00;
        WholeGroup(blob[i]);
        i := i + 1;
        FlagWordIs(g);
      }
      if flags % 2 == 1 {
        DecodeLiteral(blob, size, i, g, emitted, expected, max);
        if i >= size {
          return 0, emitted;
        }
        PushByte(window, op, blob[i], emitted);
        emitted := emitted + [blob[i]];
        i := i + 1;
        op := op + 1;
      } else {
        DecodeMatch(blob, size, i, g, emitted, expected, max);
        if i + 1 >= size {
          return 0, emitted;
        }
        var pos, len := PairPos(blob[i], blob[i + 1]), PairLen(blob[i + 1]);
        i := i + 2;
        emitted := EmitMatch(window, emitted, pos, len);
        op := op + len;
      }
      g := Group(g.bits / 2, g.left - 1);
      flags := flags / 2;
    }
    DecodeEnds(Rest(blob, size, i), g, emitted, expected, max);
    rc := op;
  }

  /** The copy loop of the streaming decoder. */
  method EmitMatch(window: array<byte>, h: seq<byte>, pos: nat, len: nat) returns (r: seq<byte>)
    requires window.Length == WINDOW && RingOk(window[..], h) && pos < WINDOW
    modifies window
    ensures r == Repeat(h, Distance(|h|, pos), len) && RingOk(window[..], r)
  {
    hide RingOk, Distance;
    r := h;
    for i := 0 to len
      invariant r == Repeat(h, Distance(|h|, pos), i) && RingOk(window[..], r)
    {
      RingRead(window[..], h, r, pos, i);
      var c := window[(pos + i) % WINDOW];
      PushByte(window, |r|, c, r);
      r := r + [c];
    }
  }

  /** The last copy overruns the announced size by at most 17 bytes. */
  lemma {:induction false} OutputBound(inp: seq<byte>, g: Group, h: seq<byte>, expected: nat, max: nat)
    requires |h| <= max && |h| <= Longest(expected)
    ensures Decode(inp, g, h, expected, max).0 ==> |Decode(inp, g, h, expected, max).1| <= Longest(expected)
    decreases |inp|
  {
    if |h| < expected {
      if g.left == 0 {
        if inp != [] {
          OutputBound(inp[1..], Group(inp[0], 8), h, expected, max);
        }
      } else if g.bits % 2 == 1 {
        if inp != [] && |h| < max {
          OutputBound(inp[1..], Group(g.bits / 2, g.left - 1), h + [inp[0]], expected, max);
        }
      } else if |inp| >= 2 && |h| + PairLen(inp[1]) <= max {
        var h' := Repeat(h, Distance(|h|, PairPos(inp[0], inp[1])), PairLen(inp[1]));
        OutputBound(inp[2..], Group(g.bits / 2, g.left - 1), h', expected, max);
      }
    }
  }

  /** Both decoders accept the same blobs, up to the buffer's size, and give the same bytes. */
  lemma DecodersAgree(inp: seq<byte>, expected: nat, outMax: nat)
    ensures var stream := Decode(inp, Group(0, 0), [], expected, Longest(expected));
            var buffer := Decode(inp, Group(0, 0), [], expected, outMax);
            && (buffer.0 <==> stream.0 && |stream.1| <= outMax)
            && (buffer.0 ==> buffer.1 == stream.1)
  {
    hide Decode, Longest;
    var g := Group(0, 0);
    OutputBound(inp, g, [], expected, outMax);
    if Decode(inp, g, [], expected, outMax).0 {
      LimitIrrelevant(inp, g, [], expected, outMax, Longest(expected));
    }
    var stream := Decode(inp, g, [], expected, Longest(expected));
    if stream.0 && |stream.1| <= outMax {
      LimitIrrelevant(inp, g, [], expected, Longest(expected), outMax);
    }
  }

  /** A whole blob: header, size, packed tokens. */
  function BlobOf(ts: seq<Token>): (b: seq<byte>)
    requires TokensOk(ts) && |Expand(ts, [])| < U32
    ensures |b| >= 8
  {
    var n := |Expand(ts, [])|;
    [0x4C, 0x5A, 0x53, 0x53, n / 0x100_0000, n / 0x1_0000 % 0x100, n / 0x100 % 0x100, n % 0x100] + Pack(ts)
  }

  /** Both decoders give back exactly what a packed blob's tokens denote. */
  lemma BlobDecodes(ts: seq<Token>, tail: seq<byte>, outMax: nat)
    requires TokensOk(ts) && |Expand(ts, [])| < U32
    ensures var blob := BlobOf(ts) + tail;
            var s := Expand(ts, []);
            && Announced(blob) == |s|
            && Decode(Rest(blob, |blob|, 8), Group(0, 0), [], |s|, Longest(|s|)) == (true, s)
            && (|s| <= outMax ==> Decode(Rest(blob, |blob|, 8), Group(0, 0), [], |s|, outMax) == (true, s))
  {
    hide Decode, Pack, Expand;
    var blob := BlobOf(ts) + tail;
    var n := |Expand(ts, [])|;
    assert blob[..4] == [0x4C, 0x5A, 0x53, 0x53];
    BigEndian(n);
    assert Rest(blob, |blob|, 8) == Pack(ts) + tail;
    DecodePacked(ts, tail, Longest(n));
    if n <= outMax {
      DecodePacked(ts, tail, outMax);
    }
  }

  lemma BigEndian(n: nat)
    requires n < U32
    ensures ((n / 0x100_0000 * 0x100 + n / 0x1_0000 % 0x100) * 0x100 + n / 0x100 % 0x100) * 0x100 + n % 0x100 == n
  {
    assert n / 0x1_0000 == n / 0x100 / 0x100 && n / 0x100_0000 == n / 0x1_0000 / 0x100;
  }

  lemma WholeGroup(b: byte)
    ensures FlagWord(Group(b, 8)) == b as nat + 0xFF00 && b as nat < Pow2(8)
  {
    FlagWordIs(Group(0, 8));
  }

  lemma SpliceNothing(o: seq<byte>)
    ensures Splice(o, 0, []) == o
  {
  }

  lemma DecodeEnds(inp: seq<byte>, g: Group, h: seq<byte>, expected: nat, max: nat)
    requires expected <= |h| <= max
    ensures Decode(inp, g, h, expected, max) == (true, h)
  {
  }

  lemma DecodeReload(blob: seq<byte>, size: nat, i: nat, g: Group, h: seq<byte>, expected: nat, max: nat)
    requires size <= |blob| && |h| < expected && |h| <= max && g.left == 0
    ensures Decode(Rest(blob, size, i), g, h, expected, max)
            == if i >= size then (false, h) else Decode(Rest(blob, size, i + 1), Group(blob[i], 8), h, expected, max)
  {
    if i < size {
      RestDrop(blob, size, i, 1);
    }
  }

  lemma DecodeLiteral(blob: seq<byte>, size: nat, i: nat, g: Group, h: seq<byte>, expected: nat, max: nat)
    requires size <= |blob| && |h| < expected && |h| <= max && g.left > 0 && g.bits % 2 == 1
    ensures Decode(Rest(blob, size, i), g, h, expected, max)
            == if i >= size || |h| >= max then (false, h)
               else Decode(Rest(blob, size, i + 1), Group(g.bits / 2, g.left - 1), h + [blob[i]], expected, max)
  {
    if i < size {
      RestDrop(blob, size, i, 1);
    }
  }

  lemma DecodeMatch(blob: seq<byte>, size: nat, i: nat, g: Group, h: seq<byte>, expected: nat, max: nat)
    requires size <= |blob| && |h| < expected && |h| <= max && g.left > 0 && g.bits % 2 == 0
    ensures Decode(Rest(blob, size, i), g, h, expected, max)
            == if i + 1 >= size then (false, h)
               else
                 var d, len := Distance(|h|, PairPos(blob[i], blob[i + 1])), PairLen(blob[i + 1]);
                 if |h| + len > max then (false, Repeat(h, d, max - |h|))
                 else Decode(Rest(blob, size, i + 2), Group(g.bits / 2, g.left - 1), Repeat(h, d, len), expected, max)
  {
    if i + 1 < size {
      RestDrop(blob, size, i, 2);
    }
  }
}
