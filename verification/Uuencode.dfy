/** The uuencode and uudecode commands of the command processor (ccpmain.c): one line of up to 45 bytes. */
module Uuencode {
  import opened Bytes
  import opened Numbers

  const LINE := 45

  /** A six-bit piece as a character; zero is the back quote. */
  function Mark(b: nat): (c: byte)
    requires b < 64
    ensures 0x21 <= c <= 0x60
  {
    if b == 0 then 0x60 else 0x20 + b
  }

  function Unmark(c: byte): (b: nat)
    ensures b < 64
  {
    (c as int - 0x20) % 0x40
  }

  /** A character behind the first of four, where the end mark counts as zero. */
  function Piece(c: byte): (b: nat)
    ensures b < 64
  {
    if c == 0 then 0 else Unmark(c)
  }

  lemma UnmarkOfMark(b: nat)
    requires b < 64
    ensures Unmark(Mark(b)) == b && Piece(Mark(b)) == b
  {
  }

  /** The four characters for the bytes at the head of `s`. */
  function Quad(s: seq<byte>): (q: seq<byte>)
    ensures |q| == 4
  {
    var x, y, z := OrZero(s, 0), OrZero(s, 1), OrZero(s, 2);
    [Mark(x / 4), Mark(x % 4 * 16 + y / 16), Mark(y % 16 * 4 + z / 64), Mark(z % 64)]
  }

  /** The three bytes of four characters. */
  function Triple(q: seq<byte>): (t: seq<byte>)
    requires |q| >= 4
    ensures |t| == 3
  {
    var b1, b2, b3, b4 := Unmark(q[0]), Piece(q[1]), Piece(q[2]), Piece(q[3]);
    [(b1 * 4 + b2 / 16) % 0x100, (b2 * 16 + b3 / 4) % 0x100, (b3 * 64 + b4) % 0x100]
  }

  function Pack(s: seq<byte>): (t: seq<byte>)
    ensures |t| % 4 == 0
    decreases |s|
  {
    if s == [] then [] else Quad(s) + Pack(if |s| <= 3 then [] else s[3..])
  }

  function Line(s: seq<byte>): (t: seq<byte>)
  {
    var s' := if |s| > LINE then s[..LINE] else s;
    [0x20 + |s'|] + Pack(s')
  }

  /** The characters that `n` bytes take. */
  function Chars(n: nat): nat {
    4 * ((n + 2) / 3)
  }

  /** `n` bytes unpacked from memory, or fewer when a group of four starts with the end mark. */
  function Unpack(t: seq<byte>, n: nat): (s: seq<byte>)
    requires |t| >= Chars(n)
    ensures |s| <= n
    decreases n
  {
    if n == 0 || t[0] == 0 then [] else Triple(t)[..Least(3, n)] + Unpack(t[4..], n - Least(3, n))
  }

  lemma {:induction false} TripleOfQuad(s: seq<byte>)
    requires s != []
    ensures Triple(Quad(s)) == [OrZero(s, 0), OrZero(s, 1), OrZero(s, 2)]
  {
    hide Mark, Unmark, Piece;
    var x, y, z := OrZero(s, 0), OrZero(s, 1), OrZero(s, 2);
    UnmarkOfMark(x / 4);
    UnmarkOfMark(x % 4 * 16 + y / 16);
    UnmarkOfMark(y % 16 * 4 + z / 64);
    UnmarkOfMark(z % 64);
    PiecesJoined(x, y, z);
  }

  lemma PiecesJoined(x: nat, y: nat, z: nat)
    requires x < 0x100 && y < 0x100 && z < 0x100
    ensures (x / 4 * 4 + (x % 4 * 16 + y / 16) / 16) % 0x100 == x
    ensures ((x % 4 * 16 + y / 16) * 16 + (y % 16 * 4 + z / 64) / 4) % 0x100 == y
    ensures ((y % 16 * 4 + z / 64) * 64 + z % 64) % 0x100 == z
  {
    Middle(x % 4, y, z / 64);
    Last(y % 16, z);
  }

  lemma Middle(p: nat, y: nat, r: nat)
    requires p < 4 && y < 0x100 && r < 4
    ensures ((p * 16 + y / 16) * 16 + (y % 16 * 4 + r) / 4) % 0x100 == y
  {
    assert (y % 16 * 4 + r) / 4 == y % 16;
    assert (p * 16 + y / 16) * 16 + y % 16 == 0x100 * p + y;
  }

  lemma Last(p: nat, z: nat)
    requires p < 16 && z < 0x100
    ensures ((p * 4 + z / 64) * 64 + z % 64) % 0x100 == z
  {
    assert (p * 4 + z / 64) * 64 + z % 64 == 0x100 * p + z;
  }

  /** The character stands for the number: a space and the 63 characters behind it, with ` for the space. */
  predicate StandsFor(c: byte, v: nat) {
    v < 64 && c as int == if v == 0 then '`' as int else ' ' as int + v
  }

  /** Four characters stand for 24 bits, highest first: those of the next three bytes, with zeros for bytes not there. */
  lemma QuadStands(s: seq<byte>) returns (a: nat, b: nat, c: nat, d: nat)
    requires s != []
    ensures |Pack(s)| >= 4 && Pack(s)[4..] == Pack(if |s| <= 3 then [] else s[3..])
    ensures StandsFor(Pack(s)[0], a) && StandsFor(Pack(s)[1], b) && StandsFor(Pack(s)[2], c) && StandsFor(Pack(s)[3], d)
    ensures ((a * 64 + b) * 64 + c) * 64 + d
            == s[0] as nat * 65536 + (if |s| >= 2 then s[1] as nat * 256 else 0) + (if |s| >= 3 then s[2] as nat else 0)
  {
    var x, y, z := OrZero(s, 0), OrZero(s, 1), OrZero(s, 2);
    a, b, c, d := x / 4, x % 4 * 16 + y / 16, y % 16 * 4 + z / 64, z % 64;
  }

  /** A line starts with a space moved on by the number of its bytes, at most 45. */
  lemma LineStarts(s: seq<byte>)
    ensures var n := if |s| <= 45 then |s| else 45;
            |Line(s)| >= 1 && Line(s)[0] as int == ' ' as int + n && Line(s)[1..] == Pack(s[..n])
  {
    assert |s| <= 45 ==> s[..|s|] == s;
  }

  lemma PackStep(s: seq<byte>)
    requires s != []
    ensures Pack(s) == Quad(s) + Pack(if |s| <= 3 then [] else s[3..]) && Quad(s)[0] != 0
    ensures Chars(|s|) == 4 + Chars(if |s| <= 3 then 0 else |s| - 3)
  {
  }

  lemma {:induction false} PackSpans(s: seq<byte>)
    ensures |Pack(s)| == Chars(|s|)
    decreases |s|
  {
    hide Quad, Pack, Chars;
    if s == [] {
      PackNothing();
    } else {
      PackStep(s);
      PackSpans(if |s| <= 3 then [] else s[3..]);
    }
  }

  lemma PackNothing()
    ensures Pack([]) == [] && Chars(0) == 0
  {
  }

  lemma {:induction false} UnpackInverts(s: seq<byte>, tail: seq<byte>)
    ensures |Pack(s)| == Chars(|s|) && Unpack(Pack(s) + tail, |s|) == s
    decreases |s|
  {
    hide Triple, Quad, Pack, Unpack, Chars;
    PackSpans(s);
    if s == [] {
      UnpackEnd(Pack(s) + tail, 0);
    } else {
      var rest := if |s| <= 3 then [] else s[3..];
      UnpackInverts(rest, tail);
      TripleOfQuad(s);
      PackStep(s);
      assert Pack(s) + tail == Quad(s) + (Pack(rest) + tail);
      assert (Pack(s) + tail)[4..] == Pack(rest) + tail;
      TripleHead(Quad(s), Pack(rest) + tail);
      UnpackStep(Pack(s) + tail, |s|);
    }
  }

  lemma TripleHead(q: seq<byte>, t: seq<byte>)
    requires |q| == 4
    ensures Triple(q + t) == Triple(q)
  {
  }

  datatype Decoded = Empty | BadLength | Text(bytes: seq<byte>)

  /** cmd_uud; `line` is memory from the argument on, its end mark and what lies behind included. */
  function Decode(line: seq<byte>): Decoded
    requires |line| > Chars(LINE)
  {
    if line[0] == 0 then Empty
    else if !(0x20 <= line[0] <= 0x20 + LINE) then BadLength
    else Text(Unpack(line[1..], line[0] as nat - 0x20))
  }

  /** Decoding a line gives back the string, or its first 45 bytes, whatever lies behind it. */
  lemma DecodeInverts(s: seq<byte>, behind: seq<byte>)
    requires |behind| >= Chars(LINE)
    ensures Decode(Line(s) + [0] + behind) == Text(if |s| > LINE then s[..LINE] else s)
  {
    hide Pack, Unpack;
    var s' := if |s| > LINE then s[..LINE] else s;
    UnpackInverts(s', [0] + behind);
    assert (Line(s) + [0] + behind)[1..] == Pack(s') + ([0] + behind);
  }

  /** A text whose characters come in fours decides the result alone; the end mark stops it where a group would start. */
  lemma {:induction false} TextDecides(text: seq<byte>, x: seq<byte>, y: seq<byte>, n: nat)
    requires |text| % 4 == 0 && |x| >= Chars(n) && |y| >= Chars(n)
    ensures Unpack(text + [0] + x, n) == Unpack(text + [0] + y, n)
    decreases |text|
  {
    hide Triple;
    if text != [] && n > 0 {
      TripleHead(text[..4], text[4..] + [0] + x);
      TripleHead(text[..4], text[4..] + [0] + y);
      assert text + [0] + x == text[..4] + (text[4..] + [0] + x) && text + [0] + y == text[..4] + (text[4..] + [0] + y);
      assert (text + [0] + x)[4..] == text[4..] + [0] + x && (text + [0] + y)[4..] == text[4..] + [0] + y;
      TextDecides(text[4..], x, y, n - Least(3, n));
    }
  }

  /** After a text of three more characters the next group starts just behind the end mark, with bytes that are no part of it. */
  lemma ReadsBehind(a: byte, b: byte, c: byte, x: seq<byte>)
    requires a != 0 && |x| >= 4 && x[0] != 0
    ensures Unpack([a, b, c, 0] + x, 6) == Triple([a, b, c, 0]) + Triple(x)
  {
    hide Triple;
    var t := [a, b, c, 0] + x;
    TripleHead([a, b, c, 0], x);
    assert t[4..] == x;
    assert Unpack(t, 6) == Triple(t)[..3] + Unpack(x, 3);
    assert Unpack(x, 3) == Triple(x)[..3] + Unpack(x[4..], 0);
  }

  lemma QuadIs(t: seq<byte>, x: nat, y: nat, z: nat)
    requires x == OrZero(t, 0) && y == OrZero(t, 1) && z == OrZero(t, 2)
    ensures x < 0x100 && y < 0x100 && z < 0x100
    ensures Quad(t) == [Mark(x / 4), Mark(x % 4 * 16 + y / 16), Mark(y % 16 * 4 + z / 64), Mark(z % 64)]
  {
    hide Mark;
  }

  /** cmd_uue. */
  method Encode(s: seq<byte>) returns (out: seq<byte>)
    ensures out == Line(s)
  {
    hide Mark, Quad;
    var n := |s|;
    if n > LINE {
      n := LINE;
    }
    ghost var s' := s[..n];
    assert n == |s| ==> s' == s;
    out := [0x20 + n];
    var i := 0;
    while i < n
      invariant out + Pack(From(s', i)) == Line(s)
      decreases n - i
    {
      var c1 := s[i] as nat;
      var c2 := if i + 1 < n then s[i + 1] as nat else 0;
      var c3 := if i + 2 < n then s[i + 2] as nat else 0;
      ghost var t := From(s', i);
      QuadIs(t, c1, c2, c3);
      assert From(s', i + 3) == if |t| <= 3 then [] else t[3..];
      var q := [Mark(c1 / 4), Mark(c1 % 4 * 16 + c2 / 16), Mark(c2 % 16 * 4 + c3 / 64), Mark(c3 % 64)];
      Regroup(out, q, Pack(From(s', i + 3)));
      out := out + q;
      i := i + 3;
    }
  }

  /** As many of three bytes as are wanted. */
  method PutThree(out: seq<byte>, x: byte, y: byte, z: byte, written: nat, n: nat) returns (r: seq<byte>)
    requires written < n
    ensures r == out + [x, y, z][..Least(3, n - written)]
  {
    r := out;
    if written < n {
      r := r + [x];
    }
    if written + 1 < n {
      r := r + [y];
    }
    if written + 2 < n {
      r := r + [z];
    }
  }

  /** The loop of cmd_uud, on every text and whatever lies behind it in memory. */
  method Unpacked(text: seq<byte>, n: nat) returns (out: seq<byte>)
    requires |text| >= Chars(n)
    ensures out == Unpack(text, n)
  {
    hide Unmark, Piece, Triple, Unpack, Chars, Unwritten;
    CharsNext(n, 0);
    out := [];
    var written, i := 0, 0;
    UnpackEnd(text, n);
    assert text[0..] == text;
    while written < n && text[i] != 0
      invariant 4 * written == 3 * i && i <= |text| && |text| - i >= Chars(Unwritten(n, written))
      invariant written < n ==> |text| - i >= 4
      invariant out + Unpack(text[i..], Unwritten(n, written)) == Unpack(text, n)
      decreases n - written
    {
      ghost var t, left, before := text[i..], n - written, out;
      var b1, b2, b3, b4 := Unmark(text[i]), Piece(text[i + 1]), Piece(text[i + 2]), Piece(text[i + 3]);
      CharsNext(n, written);
      TripleIs(t);
      UnpackStep(t, left);
      out := PutThree(out, (b1 * 4 + b2 / 16) % 0x100, (b2 * 16 + b3 / 4) % 0x100, (b3 * 64 + b4) % 0x100, written, n);
      written := written + 3;
      i := i + 4;
      CharsNext(n, written);
      assert t[4..] == text[i..];
      Regroup(before, Triple(t)[..Least(3, left)], Unpack(text[i..], left - Least(3, left)));
    }
    CharsNext(n, written);
    UnpackEnd(text[i..], Unwritten(n, written));
  }

  lemma CharsNext(n: nat, written: nat)
    ensures Unwritten(n, written) == if written < n then n - written else 0
    ensures written < n ==>
              Unwritten(n, written + 3) == n - written - Least(3, n - written)
              && Chars(n - written) == 4 + Chars(n - written - Least(3, n - written))
    ensures Chars(Unwritten(n, written)) >= 0 && Unwritten(n, 0) == n
  {
  }

  function Unwritten(n: nat, written: nat): nat {
    if written < n then n - written else 0
  }

  lemma UnpackStep(t: seq<byte>, n: nat)
    requires |t| >= Chars(n) && n > 0 && t[0] != 0
    ensures Unpack(t, n) == Triple(t)[..Least(3, n)] + Unpack(t[4..], n - Least(3, n))
  {
  }

  lemma UnpackEnd(t: seq<byte>, n: nat)
    requires |t| >= Chars(n)
    ensures n == 0 || t[0] == 0 ==> Unpack(t, n) == []
  {
  }

  lemma TripleIs(t: seq<byte>)
    requires |t| >= 4
    ensures var b1, b2, b3, b4 := Unmark(t[0]), Piece(t[1]), Piece(t[2]), Piece(t[3]);
            Triple(t) == [(b1 * 4 + b2 / 16) % 0x100, (b2 * 16 + b3 / 4) % 0x100, (b3 * 64 + b4) % 0x100]
  {
  }
}
