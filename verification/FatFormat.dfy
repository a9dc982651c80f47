/**
 A FAT12 or FAT16 volume as the Microsoft FAT specification describes it (sections "FAT Data Structure" and "FAT Type
 Determination"), in numbers and bytes of the disk image alone: what any other implementation finds on the disk.
 */
module FatFormat {
  import opened Bytes

  /** Little-endian fields. */
  function Word(d: seq<byte>, at: nat): nat {
    OrZero(d, at) + 256 * OrZero(d, at + 1)
  }

  function Long(d: seq<byte>, at: nat): nat {
    Word(d, at) + 65536 * Word(d, at + 2)
  }

  // ---------- the boot sector ----------

  function TableSectors(d: seq<byte>): nat {
    if Word(d, 22) != 0 then Word(d, 22) else Long(d, 36)
  }

  function TotalSectors(d: seq<byte>): nat {
    if Word(d, 19) != 0 then Word(d, 19) else Long(d, 32)
  }

  /** The sectors where the root directory and the clusters start. */
  function RootStart(d: seq<byte>): nat {
    Word(d, 14) + OrZero(d, 16) * TableSectors(d)
  }

  function DataStart(d: seq<byte>): nat {
    RootStart(d) + (32 * Word(d, 17) + 511) / 512
  }

  function ClusterBytes(d: seq<byte>): nat {
    512 * OrZero(d, 13)
  }

  function DataClusters(d: seq<byte>): nat {
    if OrZero(d, 13) == 0 || TotalSectors(d) < DataStart(d) then 0 else (TotalSectors(d) - DataStart(d)) / OrZero(d, 13)
  }

  /** Where a cluster lies; the first one is number 2. */
  function ClusterStart(d: seq<byte>, c: nat): nat
    requires c >= 2
  {
    512 * DataStart(d) + (c - 2) * ClusterBytes(d)
  }

  /** The width of a table entry is decided by the number of clusters. */
  predicate Is12(d: seq<byte>) {
    DataClusters(d) < 4085
  }

  // ---------- the table ----------

  /** Entries of 12 bits lie two in three bytes. */
  function TableEntry(d: seq<byte>, c: nat): nat {
    if Is12(d) then
      var at := 512 * Word(d, 14) + 3 * (c / 2);
      if c % 2 == 0 then OrZero(d, at) + 256 * (OrZero(d, at + 1) % 16) else OrZero(d, at + 1) / 16 + 16 * OrZero(d, at + 2)
    else Word(d, 512 * Word(d, 14) + 2 * c)
  }

  predicate EndsChain(d: seq<byte>, entry: nat) {
    entry >= if Is12(d) then 0xFF8 else 0xFFF8
  }

  /** Each cluster's entry names the next one, and the last one's ends the chain. */
  predicate ChainOnDisk(d: seq<byte>, ch: seq<nat>) {
    && ch != []
    && (forall i :: 0 <= i < |ch| ==> 2 <= ch[i] < DataClusters(d) + 2)
    && (forall i :: 0 <= i < |ch| - 1 ==> TableEntry(d, ch[i]) == ch[i + 1])
    && EndsChain(d, TableEntry(d, ch[|ch| - 1]))
  }

  // ---------- the root directory and the files ----------

  /** Where slot `k` lies. */
  function SlotStart(d: seq<byte>, k: nat): nat {
    512 * RootStart(d) + 32 * k
  }

  /** Slot `k` carries the packed name: it is not deleted and no label, and no slot up to it was never used. */
  predicate Lists(d: seq<byte>, k: nat, name: seq<byte>) {
    && k < 16 * (Word(d, 17) / 16) && |name| == 11
    && (forall j :: 0 <= j <= k ==> OrZero(d, SlotStart(d, j)) != 0x00)
    && OrZero(d, SlotStart(d, k)) != 0xE5
    && OrZero(d, SlotStart(d, k) + 11) / 8 % 2 == 0
    && forall i :: 0 <= i < 11 ==> OrZero(d, SlotStart(d, k) + i) == name[i] as nat
  }

  /** Byte `i` of the clusters of a chain. */
  function ChainByte(d: seq<byte>, ch: seq<nat>, i: nat): nat
    requires ClusterBytes(d) > 0 && i / ClusterBytes(d) < |ch|
  {
    var c := ch[i / ClusterBytes(d)];
    if c < 2 then 0 else OrZero(d, ClusterStart(d, c) + i % ClusterBytes(d))
  }

  /** The chain of the file of slot `k`, or nothing. */
  predicate ChainOfSlot(d: seq<byte>, k: nat, ch: seq<nat>) {
    var first := Word(d, SlotStart(d, k) + 26) + 65536 * Word(d, SlotStart(d, k) + 20);
    if first == 0 then ch == [] else ChainOnDisk(d, ch) && ch[0] == first
  }

  predicate SlotHolds(d: seq<byte>, k: nat, ch: seq<nat>, attr: byte, bytes: seq<byte>) {
    && ChainOfSlot(d, k, ch)
    && OrZero(d, SlotStart(d, k) + 11) == attr as nat
    && Long(d, SlotStart(d, k) + 28) == |bytes|
    && ClusterBytes(d) > 0
    && forall i :: 0 <= i < |bytes| ==> i / ClusterBytes(d) < |ch| && ChainByte(d, ch, i) == bytes[i] as nat
  }

  /** The disk holds a file of that name, attributes and contents. */
  ghost predicate Holds(d: seq<byte>, name: seq<byte>, attr: byte, bytes: seq<byte>) {
    exists k, ch :: Lists(d, k, name) && SlotHolds(d, k, ch, attr, bytes)
  }

  /** The disk lists the name. */
  ghost predicate Named(d: seq<byte>, name: seq<byte>) {
    exists k :: Lists(d, k, name)
  }

  // ---------- room ----------

  /** A slot that was never used or is deleted. */
  ghost predicate HasFreeSlot(d: seq<byte>) {
    exists k: nat :: k < 16 * (Word(d, 17) / 16) && (OrZero(d, SlotStart(d, k)) == 0x00 || OrZero(d, SlotStart(d, k)) == 0xE5)
  }

  /** The clusters from number `c` on whose entry is 0. */
  function FreeFrom(d: seq<byte>, c: nat): nat
    decreases DataClusters(d) + 2 - c
  {
    if c >= DataClusters(d) + 2 then 0 else (if TableEntry(d, c) == 0 then 1 else 0) + FreeFrom(d, c + 1)
  }

  /** There is room for a file of `n` bytes of that name: in free clusters and, if it is there already, in its own. */
  ghost predicate HasRoom(d: seq<byte>, name: seq<byte>, n: nat) {
    || (!Named(d, name) && HasFreeSlot(d) && n <= FreeFrom(d, 2) * ClusterBytes(d))
    || exists k, ch :: Lists(d, k, name) && ChainOfSlot(d, k, ch) && n <= (FreeFrom(d, 2) + |ch|) * ClusterBytes(d)
  }
}
