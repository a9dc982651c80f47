/** 8.3 names: packing a string into 11 bytes, and matching the packed form against a string. */
module FatNames {
  import opened Bytes
  import opened FatVolume
  import opened FatFiles

  const SPACE: byte := 0x20
  const DOT: byte := 0x2E

  function UpperByte(c: byte): (r: byte) {
    if 0x61 <= c <= 0x7A then c - 0x20 else c
  }

  function Upper(s: seq<byte>): (r: seq<byte>)
    ensures |r| == |s| && forall i :: 0 <= i < |s| ==> r[i] == UpperByte(s[i])
  {
    seq(|s|, i requires 0 <= i < |s| => UpperByte(s[i]))
  }

  // ---------- case, without the folding above ----------

  /** The same character, or the same letter in capitals and in small. */
  predicate SameLetter(c: byte, d: byte) {
    c == d || (0x41 <= c <= 0x5A && d == c + 0x20) || (0x41 <= d <= 0x5A && c == d + 0x20)
  }

  predicate SameButCase(a: seq<byte>, b: seq<byte>) {
    |a| == |b| && forall i :: 0 <= i < |a| ==> SameLetter(a[i], b[i])
  }

  lemma UpperByteIs(c: byte, d: byte)
    ensures UpperByte(c) == UpperByte(d) <==> SameLetter(c, d)
    ensures SameLetter(UpperByte(c), c) && !(0x61 <= UpperByte(c) <= 0x7A)
  {
  }

  /** Folding makes two strings equal exactly when they differ only in case. */
  lemma UpperSameIff(a: seq<byte>, b: seq<byte>)
    ensures Upper(a) == Upper(b) <==> SameButCase(a, b)
  {
    if Upper(a) == Upper(b) {
      assert |a| == |Upper(a)| == |b|;
      forall i | 0 <= i < |a|
        ensures SameLetter(a[i], b[i])
      {
        assert Upper(a)[i] == Upper(b)[i];
        UpperByteIs(a[i], b[i]);
      }
    }
    if SameButCase(a, b) {
      forall i | 0 <= i < |a|
        ensures Upper(a)[i] == Upper(b)[i]
      {
        assert SameLetter(a[i], b[i]);
        UpperByteIs(a[i], b[i]);
      }
    }
  }

  /** The number of characters before the first dot, at most `max`. */
  function BaseLen(s: seq<byte>, max: nat): (n: nat)
    ensures n <= |s| && n <= max
    ensures n < |s| && n < max ==> s[n] == DOT
    ensures forall i :: 0 <= i < n ==> s[i] != DOT
  {
    if s == [] || max == 0 || s[0] == DOT then 0 else 1 + BaseLen(s[1..], max - 1)
  }

  /** Where the extension part starts: behind the base and one separating dot. */
  function ExtFrom(name: seq<byte>): (at: nat)
    ensures at <= |name|
  {
    var b := BaseLen(name, 8);
    if b < |name| && name[b] == DOT then b + 1 else b
  }

  /** The extension part: what follows the base, without one separating dot, at most 3 characters. */
  function ExtPart(name: seq<byte>): (x: seq<byte>)
    ensures |x| <= 3
  {
    var at := ExtFrom(name);
    if |name| - at <= 3 then name[at..] else name[at..at + 3]
  }

  function Pad(s: seq<byte>, n: nat): (r: seq<byte>)
    requires |s| <= n
    ensures |r| == n
  {
    s + seq(n - |s|, _ => SPACE)
  }

  /** build_raw_name. */
  function Raw(name: seq<byte>): (r: seq<byte>)
    ensures |r| == 11
  {
    Pad(Upper(name[..BaseLen(name, 8)]), 8) + Pad(Upper(ExtPart(name)), 3)
  }

  /** The characters before the first space. */
  function Trim(s: seq<byte>): (r: seq<byte>)
    ensures |r| <= |s| && r == s[..|r|] && SPACE !in r
    ensures |r| < |s| ==> s[|r|] == SPACE
  {
    if s == [] || s[0] == SPACE then [] else [s[0]] + Trim(s[1..])
  }

  /** The "BASE.EXT" form of a packed name. */
  function Shown(raw: seq<byte>): seq<byte>
    requires |raw| == 11
  {
    var ext := Trim(raw[8..]);
    Trim(raw[..8]) + if ext == [] then [] else [DOT] + ext
  }

  /** name_match_83. */
  predicate Matches(raw: seq<byte>, want: seq<byte>)
    requires |raw| == 11
  {
    Upper(Shown(raw)) == Upper(want)
  }

  /** At most 8 characters and no dot, or a dot and 1 to 3 more characters; no spaces. */
  predicate WellFormed(name: seq<byte>) {
    var b := BaseLen(name, 8);
    && SPACE !in name
    && (b == |name| || (name[b] == DOT && 1 <= |name| - b - 1 <= 3))
  }

  lemma {:induction false} TrimPad(s: seq<byte>, n: nat)
    requires |s| <= n && SPACE !in s
    ensures Trim(Pad(s, n)) == s
  {
    if s != [] {
      assert s[0] in s && Pad(s, n)[0] == s[0];
      assert Pad(s, n)[1..] == Pad(s[1..], n - 1);
      TrimPad(s[1..], n - 1);
    }
  }

  lemma UpperConcat(a: seq<byte>, b: seq<byte>)
    ensures Upper(a + b) == Upper(a) + Upper(b) && Upper(Upper(a)) == Upper(a)
  {
  }

  lemma UpperSpace(s: seq<byte>)
    ensures SPACE in Upper(s) <==> SPACE in s
  {
    if SPACE in s {
      var i :| 0 <= i < |s| && s[i] == SPACE;
      assert Upper(s)[i] == SPACE;
    }
  }

  /** The shown form of a packed name whose parts hold no space. */
  lemma ShownRaw(name: seq<byte>)
    requires SPACE !in name[..BaseLen(name, 8)] && SPACE !in ExtPart(name)
    ensures Shown(Raw(name)) == Upper(name[..BaseLen(name, 8)])
                                + if ExtPart(name) == [] then [] else [DOT] + Upper(ExtPart(name))
  {
    hide Upper, Pad;
    var base, ext := name[..BaseLen(name, 8)], ExtPart(name);
    UpperSpace(base);
    UpperSpace(ext);
    TrimPad(Upper(base), 8);
    TrimPad(Upper(ext), 3);
    assert Raw(name)[..8] == Pad(Upper(base), 8) && Raw(name)[8..] == Pad(Upper(ext), 3);
  }

  lemma WellFormedMatches(name: seq<byte>)
    requires WellFormed(name)
    ensures Shown(Raw(name)) == Upper(name) && Matches(Raw(name), name)
  {
    hide Raw, Shown;
    var b := BaseLen(name, 8);
    var base, ext := name[..b], ExtPart(name);
    ShownRaw(name);
    UpperConcat(name, []);
    if b < |name| {
      assert name == base + ([DOT] + ext);
      UpperConcat(base, [DOT] + ext);
      UpperConcat([DOT], ext);
      assert Upper([DOT]) == [DOT];
    } else {
      assert name == base;
    }
  }

  lemma MatchesWellFormed(name: seq<byte>)
    requires Matches(Raw(name), name)
    ensures WellFormed(name)
  {
    hide Raw;
    var b := BaseLen(name, 8);
    var raw := Raw(name);
    UpperSpace(Shown(raw));
    UpperSpace(name);
    assert SPACE !in Shown(raw);
    ShownRaw(name);
    if ExtPart(name) != [] {
      assert Shown(raw)[b] == DOT;
      assert Upper(Shown(raw))[b] == Upper(name)[b];
    }
  }

  /** A packed name matches the string it was packed from exactly when the string is a well-formed 8.3 name. */
  lemma RawMatchesIff(name: seq<byte>)
    ensures Matches(Raw(name), name) <==> WellFormed(name)
  {
    if WellFormed(name) {
      WellFormedMatches(name);
    }
    if Matches(Raw(name), name) {
      MatchesWellFormed(name);
    }
  }

  lemma {:induction false} BaseLenUpper(a: seq<byte>, b: seq<byte>, max: nat)
    requires Upper(a) == Upper(b)
    ensures BaseLen(a, max) == BaseLen(b, max)
    decreases |a|
  {
    if a != [] && max > 0 {
      assert Upper(a)[0] == Upper(b)[0];
      assert Upper(a[1..]) == Upper(a)[1..] == Upper(b)[1..] == Upper(b[1..]);
      BaseLenUpper(a[1..], b[1..], max - 1);
    }
  }

  /** Packing does not see the case of letters. */
  lemma RawIgnoresCase(a: seq<byte>, b: seq<byte>)
    requires SameButCase(a, b)
    ensures Raw(a) == Raw(b)
  {
    UpperSameIff(a, b);
    BaseLenUpper(a, b, 8);
    UpperSlice(a, b, 0, BaseLen(a, 8));
    ExtIgnoresCase(a, b);
  }

  lemma UpperSlice(a: seq<byte>, b: seq<byte>, i: nat, j: nat)
    requires Upper(a) == Upper(b) && i <= j <= |a|
    ensures |a| == |b| && Upper(a[i..j]) == Upper(b[i..j])
  {
    assert |Upper(a)| == |a| && |Upper(b)| == |b|;
    forall k | i <= k < j
      ensures UpperByte(a[k]) == UpperByte(b[k])
    {
      assert Upper(a)[k] == Upper(b)[k];
    }
  }

  lemma SameDot(a: seq<byte>, b: seq<byte>, n: nat)
    requires Upper(a) == Upper(b)
    ensures |a| == |b| && (n < |a| ==> (a[n] == DOT <==> b[n] == DOT))
  {
    UpperSlice(a, b, 0, 0);
    if n < |a| {
      assert Upper(a)[n] == Upper(b)[n];
    }
  }

  lemma ExtIgnoresCase(a: seq<byte>, b: seq<byte>)
    requires Upper(a) == Upper(b)
    ensures Upper(ExtPart(a)) == Upper(ExtPart(b))
  {
    hide Upper, BaseLen;
    BaseLenUpper(a, b, 8);
    SameDot(a, b, BaseLen(a, 8));
    var at := ExtFrom(a);
    UpperSlice(a, b, at, if |a| - at <= 3 then |a| else at + 3);
  }

  /** A packed name as the create path makes them: it is what its shown form packs to. */
  predicate Canonical(raw: seq<byte>) {
    |raw| == 11 && Raw(Shown(raw)) == raw
  }

  lemma RawIsCanonical(name: seq<byte>)
    requires WellFormed(name)
    ensures Canonical(Raw(name))
  {
    WellFormedMatches(name);
    UpperSameIff(Shown(Raw(name)), name);
    RawIgnoresCase(Shown(Raw(name)), name);
  }

  /** Among 8.3 names, those and only those that differ in case are packed alike. */
  lemma RawSameIff(a: seq<byte>, b: seq<byte>)
    requires WellFormed(a) && WellFormed(b)
    ensures Raw(a) == Raw(b) <==> SameButCase(a, b)
  {
    if SameButCase(a, b) {
      RawIgnoresCase(a, b);
    } else if Raw(a) == Raw(b) {
      WellFormedMatches(a);
      WellFormedMatches(b);
      UpperSameIff(a, b);
    }
  }

  // ---------- what packing gives, byte by byte ----------

  /** `p` is `c`, in capitals if it is a letter. */
  predicate Capital(p: byte, c: byte) {
    SameLetter(p, c) && !(0x61 <= p <= 0x7A)
  }

  /** The eleven bytes spell a base of at most 8 characters and an extension of at most 3, each filled with spaces. */
  predicate Spells(p: seq<byte>, base: seq<byte>, ext: seq<byte>) {
    && |p| == 11 && |base| <= 8 && |ext| <= 3
    && (forall i :: 0 <= i < 8 ==> if i < |base| then Capital(p[i], base[i]) else p[i] == 0x20)
    && (forall i :: 8 <= i < 11 ==> if i - 8 < |ext| then Capital(p[i], ext[i - 8]) else p[i] == 0x20)
  }

  /** A name as its two parts: with a dot between them, unless there is no extension. */
  predicate Parts(name: seq<byte>, base: seq<byte>, ext: seq<byte>) {
    && |base| <= 8 && |ext| <= 3 && 0x2E !in base && 0x20 !in name
    && name == if ext == [] then base else base + [0x2E] + ext
  }

  lemma {:induction false} BaseLenIs(base: seq<byte>, rest: seq<byte>, max: nat)
    requires 0x2E !in base && |base| <= max && (rest == [] || rest[0] == 0x2E)
    ensures BaseLen(base + rest, max) == |base|
  {
    if base != [] {
      assert base[0] in base && (base + rest)[0] == base[0];
      assert (base + rest)[1..] == base[1..] + rest;
      BaseLenIs(base[1..], rest, max - 1);
    } else {
      assert base + rest == rest;
    }
  }

  /** Packing a name of two parts spells them; and such names are exactly the well-formed ones. */
  lemma RawSpells(name: seq<byte>, base: seq<byte>, ext: seq<byte>)
    requires Parts(name, base, ext)
    ensures WellFormed(name) && Spells(Raw(name), base, ext)
  {
    var rest := if ext == [] then [] else [0x2E] + ext;
    assert name == base + rest;
    BaseLenIs(base, rest, 8);
    assert name[..|base|] == base && ExtPart(name) == ext;
    forall c: byte
      ensures Capital(UpperByte(c), c)
    {
      UpperByteIs(c, c);
    }
  }

  lemma WellFormedIff(name: seq<byte>)
    ensures WellFormed(name) <==> exists base, ext :: Parts(name, base, ext)
  {
    if WellFormed(name) {
      var b := BaseLen(name, 8);
      if b == |name| {
        assert Parts(name, name, []);
      } else {
        assert name == name[..b] + [0x2E] + name[b + 1..];
        assert Parts(name, name[..b], name[b + 1..]);
      }
    }
    if base, ext :| Parts(name, base, ext) {
      RawSpells(name, base, ext);
    }
  }

  /** Two parts are spelled by one packed name only. */
  lemma SpelledOnce(p: seq<byte>, q: seq<byte>, base: seq<byte>, ext: seq<byte>)
    requires Spells(p, base, ext) && Spells(q, base, ext)
    ensures p == q
  {
    forall i | 0 <= i < 11
      ensures p[i] == q[i]
    {
    }
  }

  /** No packed name, of whatever string, holds a small letter. */
  lemma RawHasNoSmall(name: seq<byte>)
    ensures forall c :: c in Raw(name) ==> !(0x61 <= c <= 0x7A)
  {
    forall c: byte
      ensures !(0x61 <= UpperByte(c) <= 0x7A)
    {
      UpperByteIs(c, c);
    }
  }

  /** A canonical name matches exactly the well-formed strings it is packed from. */
  lemma MatchesIff(raw: seq<byte>, name: seq<byte>)
    requires Canonical(raw)
    ensures Matches(raw, name) <==> WellFormed(name) && raw == Raw(name)
  {
    if Matches(raw, name) {
      UpperSameIff(Shown(raw), name);
      RawIgnoresCase(Shown(raw), name);
      MatchesWellFormed(name);
    }
    if WellFormed(name) {
      WellFormedMatches(name);
    }
  }

  /** The first returned slot whose name matches a string: the search of the open path. */
  function FindShown(dir: seq<seq<byte>>, want: seq<byte>, i: nat): (r: nat)
    requires forall k :: 0 <= k < |dir| ==> |dir[k]| == 32
    requires i <= |dir|
    ensures i <= r <= |dir|
    ensures r < |dir| ==> InUse(dir[r])
    decreases |dir| - i
  {
    var k := NextInUse(dir, i);
    if k == |dir| || Matches(NameOf(dir[k]), want) then k else FindShown(dir, want, k + 1)
  }

  /** Every listed name is canonical. */
  ghost predicate CanonicalNames(dir: seq<seq<byte>>) {
    forall i: nat :: Used(dir, i) ==> Canonical(NameOf(dir[i]))
  }

  /** The open path finds the slot that the create path finds, for well-formed names, and no other. */
  lemma {:induction false} FindAgrees(dir: seq<seq<byte>>, name: seq<byte>, i: nat)
    requires (forall k :: 0 <= k < |dir| ==> |dir[k]| == 32) && i <= |dir|
    requires CanonicalNames(dir)
    ensures FindShown(dir, name, i) == if WellFormed(name) then Find(dir, Raw(name), i) else |dir|
    decreases |dir| - i
  {
    var k := NextInUse(dir, i);
    if k < |dir| {
      assert Used(dir, k);
      MatchesIff(NameOf(dir[k]), name);
      FindAgrees(dir, name, k + 1);
    }
  }
}
