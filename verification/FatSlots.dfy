/** Directory slots byte by byte: what creating and flushing a file enters, and what they leave. */
module FatSlots {
  import opened Bytes
  import opened FatVolume

  /** The bytes of a slot that neither call enters anything in: times, dates and the reserved one. */
  predicate Untouched(i: nat) {
    12 <= i < 20 || 22 <= i < 26
  }

  /** A number in two or four bytes, lowest first. */
  predicate TwoBytes(e: seq<byte>, at: nat, v: nat)
    requires at + 2 <= |e|
  {
    e[at] as int == v % 256 && e[at + 1] as int == v / 256 % 256
  }

  predicate FourBytesAt(e: seq<byte>, at: nat, v: nat)
    requires at + 4 <= |e|
  {
    TwoBytes(e, at, v) && TwoBytes(e, at + 2, v / 65536)
  }

  lemma PutTwo(e: seq<byte>, at: nat, v: nat)
    requires at + 2 <= |e|
    ensures TwoBytes(Put16(e, at, v), at, v)
  {
  }

  lemma PutFour(e: seq<byte>, at: nat, v: nat)
    requires at + 4 <= |e|
    ensures FourBytesAt(Put32(e, at, v), at, v)
  {
    hide Put16;
    PutTwo(e, at, v);
    PutTwo(Put16(e, at, v), at + 2, v / 65536);
  }

  /**
   Creating enters the packed name, the archive bit, and no cluster and no size; the other bytes of the slot are zero in a
   new entry and stay in one that was there. No other slot changes.
   */
  lemma CreatedBytes(v: Volume, name: seq<byte>)
    requires Shape(v) && |name| == 11
    ensures var r := Create(v, name);
            r.Opened? ==>
              var s := r.h.slot;
              var e := r.vol.dir[s];
              && |e| == 32 == |v.dir[s]| && r.vol.dir == v.dir[s := e]
              && e[..11] == name && e[11] == 0x20 && TwoBytes(e, 20, 0) && TwoBytes(e, 26, 0) && FourBytesAt(e, 28, 0)
              && forall i :: 0 <= i < 32 && Untouched(i) ==> e[i] == if Find(v.dir, name, 0) < |v.dir| then v.dir[s][i] else 0
  {
    hide Release, Find, FirstVacant;
    var s := Find(v.dir, name, 0);
    if s < |v.dir| {
      TruncatedBytes(v.dir[s]);
    }
  }

  lemma TruncatedBytes(e: seq<byte>)
    requires |e| == 32
    ensures var t := Truncated(e);
            && t[..11] == e[..11] && t[11] == 0x20 && TwoBytes(t, 20, 0) && TwoBytes(t, 26, 0) && FourBytesAt(t, 28, 0)
            && forall i :: 0 <= i < 32 && Untouched(i) ==> t[i] == e[i]
  {
    hide Put16, Put32;
    PutFour(e, 28, 0);
    var e1 := Put32(e, 28, 0);
    PutTwo(e1, 20, 0);
    var e2 := Put16(e1, 20, 0);
    PutTwo(e2, 26, 0);
    assert Truncated(e)[..11] == e[..11];
  }

  /** Flushing enters the size, and the first cluster if there is one, low half and high half apart; nothing else changes. */
  lemma FlushedBytes(v: Volume, h: Handle)
    requires Shape(v) && h.slot < |v.dir|
    ensures var e, e' := v.dir[h.slot], Flush(v, h).dir[h.slot];
            && |e| == 32 == |e'| && Flush(v, h) == v.(dir := v.dir[h.slot := e'])
            && FourBytesAt(e', 28, h.size)
            && (if h.first == 0 then e'[20] == e[20] && e'[21] == e[21] && e'[26] == e[26] && e'[27] == e[27]
                else TwoBytes(e', 26, h.first) && TwoBytes(e', 20, h.first / 65536))
            && e'[..12] == e[..12] && forall i :: 0 <= i < 32 && Untouched(i) ==> e'[i] == e[i]
  {
    hide Put16, Put32;
    var e := v.dir[h.slot];
    PutFour(e, 28, h.size);
    var e1 := Put32(e, 28, h.size);
    PutTwo(e1, 26, h.first);
    var e2 := Put16(e1, 26, h.first);
    PutTwo(e2, 20, h.first / 65536);
    assert Flush(v, h).dir[h.slot][..12] == e[..12];
  }
}
