/** The base64 (RFC 4648 section 4) and uuencode commands of the command processor (ccpmain.c). */
module Base64 {
  import opened Bytes

  const PAD: byte := 0x3D

  /** The alphabet. */
  function Letter(i: nat): (c: byte)
    requires i < 64
    ensures c != 0 && c != PAD
  {
    if i < 26 then 0x41 + i else if i < 52 then 0x61 + (i - 26) else if i < 62 then 0x30 + (i - 52)
    else if i == 62 then 0x2B else 0x2F
  }

  /** b64_index. */
  function Index(c: byte): (i: int)
    ensures -1 <= i < 64
  {
    if 0x41 <= c <= 0x5A then c as int - 0x41
    else if 0x61 <= c <= 0x7A then c as int - 0x61 + 26
    else if 0x30 <= c <= 0x39 then c as int - 0x30 + 52
    else if c == 0x2B then 62 else if c == 0x2F then 63 else -1
  }

  lemma IndexOfLetter(i: nat)
    requires i < 64
    ensures Index(Letter(i)) == i
  {
  }

  /** The four letters for the bytes at the head of `s`. */
  function Quad(s: seq<byte>): (q: seq<byte>)
    requires s != []
    ensures |q| == 4
  {
    var x, y, z := OrZero(s, 0), OrZero(s, 1), OrZero(s, 2);
    [Letter(x / 4), Letter(x % 4 * 16 + y / 16), if |s| >= 2 then Letter(y % 16 * 4 + z / 64) else PAD,
     if |s| >= 3 then Letter(z % 64) else PAD]
  }

  function Encode(s: seq<byte>): seq<byte>
    decreases |s|
  {
    if s == [] then [] else Quad(s) + Encode(if |s| <= 3 then [] else s[3..])
  }

  /** What the decoder makes of a letter that may be missing or padding. */
  function Third(t: seq<byte>, i: nat): int {
    if i >= |t| || t[i] == PAD then -2 else Index(t[i])
  }

  /** The bytes of the four letters at the head of `t`. */
  function Unquad(a: nat, b: nat, c: int, d: int): (s: seq<byte>)
    requires a < 64 && b < 64 && -2 <= c < 64 && -2 <= d < 64
  {
    [(a * 4 + b / 16) % 0x100]
    + (if c >= 0 then [b % 16 * 16 + c / 4] else [])
    + (if d >= 0 then [c % 4 * 64 + d] else [])
  }

  /** b64_decode of a text without an end mark in it. */
  function Decode(t: seq<byte>): seq<byte>
    decreases |t|
  {
    if t == [] || t[0] == 0 then []
    else
      var a, b := Index(t[0]), if |t| > 1 then Index(t[1]) else -1;
      if a < 0 || b < 0 then []
      else Unquad(a, b, Third(t, 2), Third(t, 3)) + Decode(if |t| <= 4 then [] else t[4..])
  }

  /** Six-bit pieces put back together. */
  lemma Rejoined(x: nat, y: nat, z: nat)
    requires x < 0x100 && y < 0x100 && z < 0x100
    ensures (x / 4 * 4 + (x % 4 * 16 + y / 16) / 16) % 0x100 == x
    ensures (x % 4 * 16 + y / 16) % 16 * 16 + (y % 16 * 4 + z / 64) / 4 == y
    ensures (y % 16 * 4 + z / 64) % 4 * 64 + z % 64 == z
  {
  }

  lemma QuadDecodes(s: seq<byte>)
    requires s != []
    ensures var q := Quad(s);
            && Index(q[0]) >= 0 && Index(q[1]) >= 0
            && Unquad(Index(q[0]), Index(q[1]), Third(q, 2), Third(q, 3)) == if |s| <= 3 then s else s[..3]
  {
    hide Letter, Index;
    var x, y, z := OrZero(s, 0), OrZero(s, 1), OrZero(s, 2);
    IndexOfLetter(x / 4);
    IndexOfLetter(x % 4 * 16 + y / 16);
    IndexOfLetter(y % 16 * 4 + z / 64);
    IndexOfLetter(z % 64);
    Rejoined(x, y, z);
  }

  /** The six-bit pieces of three bytes. */
  lemma Sextets(x: nat, y: nat, z: nat)
    requires x < 0x100 && y < 0x100 && z < 0x100
    ensures var v := x * 0x1_0000 + y * 0x100 + z;
            && v / 0x4_0000 == x / 4 && v / 0x1000 % 0x40 == x % 4 * 16 + y / 16
            && v / 0x40 % 0x40 == y % 16 * 4 + z / 64 && v % 0x40 == z % 64
  {
    Digit1(x, y, z);
    Digit2(x, y, z);
    Digit3(x, y, z);
  }

  lemma Digit1(x: nat, y: nat, z: nat)
    requires x < 0x100 && y < 0x100 && z < 0x100
    ensures (x * 0x1_0000 + y * 0x100 + z) / 0x4_0000 == x / 4
  {
    assert x * 0x1_0000 + y * 0x100 + z == 0x4_0000 * (x / 4) + (x % 4 * 0x1_0000 + y * 0x100 + z);
  }

  lemma Digit2(x: nat, y: nat, z: nat)
    requires x < 0x100 && y < 0x100 && z < 0x100
    ensures (x * 0x1_0000 + y * 0x100 + z) / 0x1000 % 0x40 == x % 4 * 16 + y / 16
  {
    var q := x * 16 + y / 16;
    assert x * 0x1_0000 + y * 0x100 + z == 0x1000 * q + (y % 16 * 0x100 + z);
    assert q == 0x40 * (x / 4) + (x % 4 * 16 + y / 16);
  }

  lemma By64(q: nat, r: nat)
    requires r < 0x40
    ensures (0x40 * q + r) / 0x40 == q && (0x40 * q + r) % 0x40 == r
  {
  }

  lemma Digit3(x: nat, y: nat, z: nat)
    requires x < 0x100 && y < 0x100 && z < 0x100
    ensures (x * 0x1_0000 + y * 0x100 + z) / 0x40 % 0x40 == y % 16 * 4 + z / 64
    ensures (x * 0x1_0000 + y * 0x100 + z) % 0x40 == z % 64
  {
    var p := x * 16 + y / 16;
    var r := y % 16 * 4 + z / 64;
    By64(p, r);
    By64(0x40 * p + r, z % 64);
    assert x * 0x1_0000 + y * 0x100 + z == 0x40 * (0x40 * p + r) + z % 64;
  }

  /** Decoding inverts encoding on every byte string. */
  lemma {:induction false} DecodeInverts(s: seq<byte>)
    ensures Decode(Encode(s)) == s
    decreases |s|
  {
    hide Quad, Unquad, Third, Letter, Index;
    if s != [] {
      var rest := if |s| <= 3 then [] else s[3..];
      DecodeInverts(rest);
      DecodeQuad(s, Encode(rest));
    }
  }

  lemma DecodeQuad(s: seq<byte>, t: seq<byte>)
    requires s != []
    ensures Decode(Quad(s) + t) == (if |s| <= 3 then s else s[..3]) + Decode(t)
  {
    hide Unquad;
    var q := Quad(s);
    QuadDecodes(s);
    assert q[0] != 0;
    assert (q + t)[4..] == t;
    assert Third(q + t, 2) == Third(q, 2) && Third(q + t, 3) == Third(q, 3);
  }

  // ---------- the letters ----------

  /** The letter stands for the number: A to Z, a to z, 0 to 9, + and /. */
  predicate StandsFor(c: byte, v: nat) {
    || (v < 26 && c as int == 'A' as int + v)
    || (26 <= v < 52 && c as int == 'a' as int + v - 26)
    || (52 <= v < 62 && c as int == '0' as int + v - 52)
    || (v == 62 && c as int == '+' as int)
    || (v == 63 && c as int == '/' as int)
  }

  lemma LettersAre(i: nat)
    requires i < 64
    ensures StandsFor(Letter(i), i)
  {
  }

  /**
   Four letters stand for 24 bits, highest first: those of the next three bytes, with zero bits for bytes that are not
   there and the letter = for a place that would only carry those (RFC 4648 section 4).
   */
  lemma QuadStands(s: seq<byte>) returns (a: nat, b: nat, c: nat, d: nat)
    requires s != []
    ensures StandsFor(Encode(s)[..4][0], a) && StandsFor(Encode(s)[..4][1], b)
    ensures if |s| >= 2 then StandsFor(Encode(s)[..4][2], c) else Encode(s)[..4][2] as int == '=' as int && c == 0
    ensures if |s| >= 3 then StandsFor(Encode(s)[..4][3], d) else Encode(s)[..4][3] as int == '=' as int && d == 0
    ensures ((a * 64 + b) * 64 + c) * 64 + d
            == s[0] as nat * 65536 + (if |s| >= 2 then s[1] as nat * 256 else 0) + (if |s| >= 3 then s[2] as nat else 0)
    ensures Encode(s)[4..] == Encode(if |s| <= 3 then [] else s[3..])
  {
    hide Letter;
    var x, y, z := OrZero(s, 0), OrZero(s, 1), OrZero(s, 2);
    a, b, c, d := x / 4, x % 4 * 16 + y / 16, y % 16 * 4 + z / 64, z % 64;
    LettersAre(a);
    LettersAre(b);
    LettersAre(c);
    LettersAre(d);
    assert Encode(s)[..4] == Quad(s);
  }

  lemma IndexIs(c: byte, v: nat)
    ensures StandsFor(c, v) <==> Index(c) == v
  {
  }

  /** Four letters that stand for numbers give the three bytes of their 24 bits; a text that starts with none stops. */
  lemma DecodeReads(t: seq<byte>, a: nat, b: nat, c: nat, d: nat) returns (x: byte, y: byte, z: byte)
    requires |t| >= 4 && StandsFor(t[0], a) && StandsFor(t[1], b) && StandsFor(t[2], c) && StandsFor(t[3], d)
    ensures Decode(t) == [x, y, z] + Decode(t[4..])
    ensures x as nat * 65536 + y as nat * 256 + z as nat == ((a * 64 + b) * 64 + c) * 64 + d
  {
    hide Index, StandsFor;
    IndexIs(t[0], a);
    IndexIs(t[1], b);
    IndexIs(t[2], c);
    IndexIs(t[3], d);
    LettersOnly(t[0], a);
    LettersOnly(t[2], c);
    LettersOnly(t[3], d);
    x, y, z := a * 4 + b / 16, b % 16 * 16 + c / 4, c % 4 * 64 + d;
    assert Decode(t) == Unquad(a, b, c, d) + Decode(if |t| <= 4 then [] else t[4..]);
    assert |t| == 4 ==> t[4..] == [];
  }

  lemma LettersOnly(c: byte, v: nat)
    requires StandsFor(c, v)
    ensures c != 0 && c != PAD && v < 64
  {
  }

  lemma DecodeStops(t: seq<byte>)
    requires t != [] && ((forall v :: !StandsFor(t[0], v)) || |t| == 1 || (forall v :: !StandsFor(t[1], v)))
    ensures Decode(t) == []
  {
    hide StandsFor;
    forall c: byte | Index(c) >= 0
      ensures StandsFor(c, Index(c))
    {
      IndexIs(c, Index(c));
    }
  }

  /** b64_encode. */
  method B64Encode(data: seq<byte>) returns (out: seq<byte>)
    ensures out == Encode(data)
  {
    hide Quad, Letter;
    out := [];
    var i := 0;
    while i < |data|
      invariant out + Encode(From(data, i)) == Encode(data)
      decreases |data| - i
    {
      var rem := |data| - i;
      var v := data[i] as nat * 0x1_0000;
      if rem >= 2 {
        v := v + data[i + 1] as nat * 0x100;
      }
      if rem >= 3 {
        v := v + data[i + 2] as nat;
      }
      QuadOf(data[i..], v);
      assert From(data, i) == data[i..] && From(data, i + 3) == if rem <= 3 then [] else data[i..][3..];
      var q := [Letter(v / 0x4_0000), Letter(v / 0x1000 % 0x40), if rem >= 2 then Letter(v / 0x40 % 0x40) else PAD,
                if rem >= 3 then Letter(v % 0x40) else PAD];
      Regroup(out, q, Encode(From(data, i + 3)));
      out := out + q;
      i := i + 3;
    }
  }

  lemma QuadOf(s: seq<byte>, v: nat)
    requires s != [] && v == OrZero(s, 0) * 0x1_0000 + OrZero(s, 1) * 0x100 + OrZero(s, 2)
    ensures v < 0x100_0000
    ensures Quad(s) == [Letter(v / 0x4_0000), Letter(v / 0x1000 % 0x40), if |s| >= 2 then Letter(v / 0x40 % 0x40) else PAD,
                        if |s| >= 3 then Letter(v % 0x40) else PAD]
  {
    hide Letter;
    Sextets(OrZero(s, 0), OrZero(s, 1), OrZero(s, 2));
  }

  /** b64_decode of a command argument. */
  method B64Decode(text: seq<byte>) returns (out: seq<byte>)
    requires 0 !in text
    ensures out == Decode(text)
  {
    hide Index, Unquad;
    out := [];
    var i := 0;
    while i < |text|
      invariant out + Decode(From(text, i)) == Decode(text)
      decreases |text| - i
    {
      ghost var t := text[i..];
      assert From(text, i) == t && From(text, i + 4) == if |t| <= 4 then [] else t[4..];
      var a, b := Index(text[i]), if i + 1 < |text| then Index(text[i + 1]) else -1;
      var c := if i + 2 < |text| then (if text[i + 2] == PAD then -2 else Index(text[i + 2])) else -2;
      var d := if i + 3 < |text| then (if text[i + 3] == PAD then -2 else Index(text[i + 3])) else -2;
      assert c == Third(t, 2) && d == Third(t, 3) && text[i] in text;
      if a < 0 || b < 0 {
        break;
      }
      Regroup(out, Unquad(a, b, c, d), Decode(From(text, i + 4)));
      out := out + Unquad(a, b, c, d);
      i := i + 4;
    }
  }
}
