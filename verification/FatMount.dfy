/** Mounting (fat_mount): the geometry a boot sector describes, and when it is one the driver can work with. */
module FatMount {
  import opened Bytes
  import opened Numbers
  import opened FatTable
  import opened FatLayout
  import opened FatDriver

  datatype Mounted = Bad(rc: int) | Good(m: Mount)

  /** The sectors the root directory takes, rounded up. */
  function RootDirSecs(entries: nat): nat {
    (entries * 32 + 511) / SECTOR
  }

  /** The type is decided by the number of clusters alone. */
  function TypeOf(clusters: nat): FatType {
    if clusters < 4085 then Fat12 else if clusters < 65525 then Fat16 else Fat32
  }

  function ClustersIn(sectors: nat, spc: nat): (n: nat)
    requires spc > 0
    ensures n == sectors / spc
  {
    sectors / spc
  }

  /** The geometry of a boot sector; sums are 32-bit. */
  function Geometry(b: seq<byte>): Mounted
    requires |b| == SECTOR
  {
    if b[510] != 0x55 || b[511] != 0xAA then Bad(-2)
    else if Le16(b, 11) != SECTOR then Bad(-3)
    else if b[13] == 0 then Bad(-4)
    else if b[16] == 0 then Bad(-5)
    else
      var spc, rsvd, fats, entries := b[13] as nat, Le16(b, 14), b[16] as nat, Le16(b, 17);
      var total := if Le16(b, 19) != 0 then Le16(b, 19) else Le32(b, 32);
      var fatSec := if Le16(b, 22) != 0 then Le16(b, 22) else Le32(b, 36);
      var rootClus := if Le16(b, 22) != 0 then 0 else Le32(b, 44);
      var tables := fats * fatSec % U32;
      var firstData := (rsvd + tables + RootDirSecs(entries)) % U32;
      var clusters := ClustersIn((total - firstData) % U32, spc);
      Good(Mount(TypeOf(clusters), spc, rsvd, fats, entries, total, fatSec, rootClus,
                 firstData, (rsvd + tables) % U32, clusters))
  }

  /** What a boot sector must promise beyond what mounting checks. */
  ghost predicate Workable(m: Mount, sectors: nat) {
    && m.clusterCount < 65525
    && IsPow2(m.secPerClus)
    && (m.clusterCount < 4085 ==> m.numFats == 2 || m.clusterCount + 2 <= FIRST_ACROSS)
    && m.rootEntCount >= 16
    && m.rsvdSec + m.numFats * m.fatSec + RootDirSecs(m.rootEntCount) < U32
    && EntryEnd(m.ty, m.clusterCount + 1) <= SECTOR * m.fatSec
    && m.firstDataSec + m.clusterCount * m.secPerClus <= sectors < U32
  }

  /**
   An accepted boot sector has the geometry this driver model covers exactly when: it is FAT12 or FAT16, the cluster
   size is a power of two, FAT12 has two tables or no entry across sectors, the root has a sector, the areas do not
   wrap around 32 bits, the table is long enough, and everything fits the device.
   */
  lemma MountIsSoundIff(b: seq<byte>, sectors: nat)
    requires |b| == SECTOR && Geometry(b).Good?
    ensures Sound(Geometry(b).m, sectors) <==> Workable(Geometry(b).m, sectors)
  {
    hide EntryEnd, Eoc, Geometry, IsPow2;
    var m := Geometry(b).m;
    GeometryParts(b);
    SmallPowers(m.secPerClus);
    BelowEndMarks(m.clusterCount);
    WrapExact(m.rsvdSec, m.numFats * m.fatSec, RootSecs(m), RootDirSecs(m.rootEntCount), m.firstRootSec, m.firstDataSec);
  }

  lemma SmallPowers(n: nat)
    requires n < 256
    ensures IsPow2(n) ==> n <= 128
  {
    assert Pow2(7) == 128 && Pow2(8) == 256 by { assert Pow2(4) == 16; }
    if IsPow2(n) {
      Pow2Below(n, 7);
    }
  }

  /** The type limits keep every cluster number below the end marks. */
  lemma BelowEndMarks(clusters: nat)
    ensures clusters < 65525 ==> !TypeOf(clusters).Fat32? && clusters + 2 <= Eoc(TypeOf(clusters))
  {
  }

  lemma GeometryParts(b: seq<byte>)
    requires |b| == SECTOR && Geometry(b).Good?
    ensures var m := Geometry(b).m;
            && m.ty == TypeOf(m.clusterCount) && m.numFats >= 1 && m.rsvdSec < 0x1_0000 && m.secPerClus < 256
            && m.firstRootSec == (m.rsvdSec + m.numFats * m.fatSec % U32) % U32
            && m.firstDataSec == (m.rsvdSec + m.numFats * m.fatSec % U32 + RootDirSecs(m.rootEntCount)) % U32
            && RootSecs(m) <= RootDirSecs(m.rootEntCount) <= 4096
            && (RootSecs(m) >= 1 <==> m.rootEntCount >= 16)
  {
  }

  /** The areas lie one behind the other exactly when the 32-bit sums do not wrap. */
  lemma WrapExact(rsvd: nat, x: nat, root: nat, rootUp: nat, first: nat, data: nat)
    requires rsvd < 0x1_0000 && root <= rootUp <= 4096
    requires first == (rsvd + x % U32) % U32 && data == (rsvd + x % U32 + rootUp) % U32
    ensures first == rsvd + x && first + root <= data <==> rsvd + x + rootUp < U32
  {
    if first == rsvd + x {
      assert x < U32 && x % U32 == x;
    }
  }

  // ---------- geometries mounting accepts and the driver cannot work with ----------

  /** A boot sector with these fields, the signature, and nothing else. */
  function BootSector(spc: byte, rsvd: nat, fats: byte, entries: nat, total: nat, fatSec: nat): (b: seq<byte>)
    ensures |b| == SECTOR
  {
    Put16(Put16(Put16(Put16(Put16(Zeros(SECTOR)[13 := spc][16 := fats][510 := 0x55][511 := 0xAA], 11, SECTOR), 14, rsvd),
                      17, entries), 19, total), 22, fatSec)
  }

  lemma BootSectorIs(spc: byte, rsvd: nat, fats: byte, entries: nat, total: nat, fatSec: nat)
    requires rsvd < 0x1_0000 && entries < 0x1_0000 && total < 0x1_0000 && fatSec < 0x1_0000
    ensures var b := BootSector(spc, rsvd, fats, entries, total, fatSec);
            && b[13] == spc && b[16] == fats && b[510] == 0x55 && b[511] == 0xAA
            && Le16(b, 11) == SECTOR && Le16(b, 14) == rsvd && Le16(b, 17) == entries && Le16(b, 19) == total
            && Le16(b, 22) == fatSec
  {
  }

  /** A FAT12 volume with one table is accepted, although it has an entry that is stored across two sectors. */
  lemma OneTableAccepted()
    ensures var b := BootSector(1, 1, 1, 16, 1000, 3);
            && Geometry(b).Good?
            && var m := Geometry(b).m;
               m.ty.Fat12? && m.numFats == 1 && m.clusterCount == 995 && Straddles(m.ty, FIRST_ACROSS) && FIRST_ACROSS < m.clusterCount + 2
               && EntryEnd(m.ty, m.clusterCount + 1) <= SECTOR * m.fatSec && m.firstDataSec + m.clusterCount == 1000
  {
    hide BootSector;
    BootSectorIs(1, 1, 1, 16, 1000, 3);
  }

  /** A volume with three sectors a cluster is accepted, although the second sector's offset is masked to the first. */
  lemma ThreeSectorsAccepted()
    ensures var b := BootSector(3, 1, 2, 16, 1000, 3);
            && Geometry(b).Good?
            && var m := Geometry(b).m;
               m.secPerClus == 3 && InCluster(m, SECTOR) == 0 && m.clusterCount == 330
  {
    hide BootSector, And;
    BootSectorIs(3, 1, 2, 16, 1000, 3);
    MaskMisses();
  }

  lemma EvenAnd(a: nat, b: nat)
    ensures And(2 * a, b) == 2 * And(a, b / 2)
  {
  }

  lemma MaskMisses()
    ensures And(512, 1535) == 0
  {
    hide And;
    EvenAnd(256, 1535);
    EvenAnd(128, 767);
    EvenAnd(64, 383);
    EvenAnd(32, 191);
    EvenAnd(16, 95);
    EvenAnd(8, 47);
    EvenAnd(4, 23);
    EvenAnd(2, 11);
    EvenAnd(1, 5);
    OneAndTwo();
  }

  lemma OneAndTwo()
    ensures And(1, 2) == 0
  {
    assert And(0, 1) == 0;
  }

  // ---------- the program ----------

  /** The record after its plain fields are read. */
  function Read(m: Mount, b: seq<byte>): Mount
    requires |b| == SECTOR
  {
    m.(secPerClus := b[13], rsvdSec := Le16(b, 14), numFats := b[16], rootEntCount := Le16(b, 17), fatSec := Le16(b, 22),
       totalSec := if Le16(b, 19) != 0 then Le16(b, 19) else Le32(b, 32))
  }

  /** By the bytes of the boot sector: its signature, 512 bytes a sector, and neither a cluster nor a table count of zero. */
  function CodeFor(b: seq<byte>): int
    requires |b| == 512
  {
    if b[510] != 0x55 || b[511] != 0xAA then -2
    else if b[11] as int + 256 * b[12] as int != 512 then -3
    else if b[13] == 0 then -4 else if b[16] == 0 then -5 else 0
  }

  /** fat_mount. On failure there is no valid volume; after -3, -4 and -5 the record holds the fields read by then. */
  method FMount(fat: Driver) returns (rc: int)
    requires fat.Wired()
    modifies fat, fat.dev, fat.dev.shadow, fat.secBuf
    ensures fat.Wired() && fat.Coherent() && fat.Disk() == old(fat.Disk()) && (fat.valid <==> rc == 0)
    ensures if fat.dev.Sectors() == 0 then rc == -1 && fat.m == old(fat.m)
            else match Geometry(Sector(fat.Disk(), 0))
              case Bad(e) => rc == e && fat.m == if e == -2 then old(fat.m) else Read(old(fat.m), Sector(fat.Disk(), 0))
              case Good(m) => rc == 0 && fat.m == m
    ensures fat.dev.Sectors() > 0 ==> |fat.Disk()| >= 512 && rc == CodeFor(fat.Disk()[..512])
  {
    fat.valid := false;
    fat.secValid, fat.fatValid := false, false;
    fat.dev.BlkInit();
    var bpb := new byte[SECTOR];
    rc := fat.ReadSec(0, bpb);
    if rc != 0 {
      return -1;
    }
    var b := bpb[..];
    if b[510] != 0x55 || b[511] != 0xAA {
      return -2;
    }
    hide Geometry;
    BadFields(b);
    fat.m := Read(fat.m, b);
    if Le16(b, 11) != SECTOR {
      return -3;
    }
    if fat.m.secPerClus == 0 {
      return -4;
    }
    if fat.m.numFats == 0 {
      return -5;
    }
    var m := Derived(fat.m, b);
    fat.m := m;
    fat.valid := true;
    rc := 0;
  }

  lemma BadFields(b: seq<byte>)
    requires |b| == SECTOR && b[510] == 0x55 && b[511] == 0xAA
    ensures if Le16(b, 11) != SECTOR then Geometry(b) == Bad(-3)
            else if b[13] == 0 then Geometry(b) == Bad(-4)
            else if b[16] == 0 then Geometry(b) == Bad(-5)
            else Geometry(b).Good?
  {
  }

  /** The fields computed from those read. */
  method Derived(read: Mount, b: seq<byte>) returns (m: Mount)
    requires |b| == SECTOR && Geometry(b).Good? && read == Read(read, b)
    ensures Geometry(b) == Good(m)
  {
    m := read;
    if m.fatSec == 0 {
      m := m.(fatSec := Le32(b, 36), rootClus := Le32(b, 44));
    } else {
      m := m.(rootClus := 0);
    }
    var rootDirSec := (m.rootEntCount * 32 + SECTOR - 1) / SECTOR;
    var fatTotal := m.numFats * m.fatSec % U32;
    m := m.(firstDataSec := (m.rsvdSec + fatTotal + rootDirSec) % U32, firstRootSec := (m.rsvdSec + fatTotal) % U32);
    var dataSec := (m.totalSec - m.firstDataSec) % U32;
    m := m.(clusterCount := dataSec / m.secPerClus);
    m := m.(ty := if m.clusterCount < 4085 then Fat12 else if m.clusterCount < 65525 then Fat16 else Fat32);
  }

  /** What mounting finds is not changed by work on the volume: mounting again gives the same volume back. */
  method Remount(fat: Driver, ghost before: seq<byte>) returns (rc: int)
    requires fat.Ready() && fat.m.rsvdSec >= 1
    requires BootKept(fat.m, before, fat.Disk()) && |before| >= SECTOR && Geometry(Sector(before, 0)) == Good(fat.m)
    modifies fat, fat.dev, fat.dev.shadow, fat.secBuf
    ensures rc == 0 && fat.Ready() && fat.m == old(fat.m) && fat.Vol() == old(fat.Vol())
  {
    hide Geometry, View, Mirrored;
    BootSectorKept(fat.m, before, fat.Disk());
    fat.ReadyFacts();
    rc := FMount(fat);
  }

  lemma BootSectorKept(m: Mount, d: seq<byte>, d': seq<byte>)
    requires BootKept(m, d, d') && m.rsvdSec >= 1 && |d| >= SECTOR * m.rsvdSec
    ensures Sector(d', 0) == Sector(d, 0)
  {
    assert Sector(d', 0) == d'[..SECTOR * m.rsvdSec][..SECTOR];
    assert Sector(d, 0) == d[..SECTOR * m.rsvdSec][..SECTOR];
  }
}
