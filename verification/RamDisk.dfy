/** The RAM block device under the FAT driver (disk_ramfat.c). */
module RamDiskDevice {
  import opened Bytes

  /** The `while (n--) *dst++ = *src++` loop of both transfers. */
  method CopyBytes(src: array<byte>, so: nat, dst: array<byte>, at: nat, n: nat)
    requires src != dst && so + n <= src.Length && at + n <= dst.Length
    modifies dst
    ensures dst[..] == Splice(old(dst[..]), at, src[so..so + n])
  {
    for i := 0 to n
      invariant forall j :: at <= j < at + i ==> dst[j] == src[so + j - at]
      invariant forall j :: 0 <= j < dst.Length && !(at <= j < at + i) ==> dst[j] == old(dst[j])
    {
      dst[at + i] := src[so + i];
    }
  }

  class RamDisk {
    /** The image linked into the kernel, `_ramfat_start` to `_ramfat_end`. */
    const factory: seq<byte>
    /** The writable shadow copy, `ramfat_rw`. */
    const shadow: array<byte>
    var initialized: bool

    constructor (factory: seq<byte>)
      requires |factory| / SECTOR < U32
      ensures Valid() && fresh(shadow) && this.factory == factory && Contents() == factory
    {
      this.factory := factory;
      shadow := new byte[|factory|];
      initialized := false;
    }

    ghost predicate Valid() {
      shadow.Length == |factory| && |factory| / SECTOR < U32
    }

    /** What a reader of the device sees: the copy is made lazily, which must not show. */
    ghost function Contents(): (d: seq<byte>)
      reads this, shadow
      requires Valid()
      ensures |d| == |factory|
    {
      if initialized then shadow[..] else factory
    }

    function Sectors(): (n: nat) {
      |factory| / SECTOR
    }

    method BlkInit()
      requires Valid()
      modifies this, shadow
      ensures initialized && Contents() == old(Contents())
    {
      if initialized {
        return;
      }
      for i := 0 to |factory|
        invariant shadow[..i] == factory[..i]
      {
        shadow[i] := factory[i];
        assert shadow[..i + 1] == shadow[..i] + [factory[i]];
      }
      assert shadow[..] == shadow[..|factory|];
      initialized := true;
    }

    /** Copies `count` sectors to `buf`; `lba + count` is a 32-bit sum, and a wrapped sum is refused. */
    method BlkRead(lba: nat, count: nat, buf: array<byte>) returns (rc: int)
      requires Valid() && lba < U32 && count < U32 && buf != shadow
      requires SECTOR * count <= buf.Length
      modifies this, shadow, buf
      ensures Contents() == old(Contents()) && (rc == 0 || rc == -1)
      ensures rc == 0 <==> lba + count <= Sectors()
      ensures rc == 0 ==> SECTOR * lba + SECTOR * count <= |factory|
      ensures rc == 0 ==> buf[..SECTOR * count] == Contents()[SECTOR * lba..SECTOR * lba + SECTOR * count]
      ensures buf[SECTOR * count..] == old(buf[SECTOR * count..])
      ensures rc != 0 ==> buf[..] == old(buf[..])
    {
      if !initialized {
        BlkInit();
      }
      var last := (lba + count) % U32;
      if last < lba || last > Sectors() {
        return -1;
      }
      CopyBytes(shadow, SECTOR * lba, buf, 0, SECTOR * count);
      rc := 0;
    }

    method BlkWrite(lba: nat, count: nat, buf: array<byte>) returns (rc: int)
      requires Valid() && lba < U32 && count < U32 && buf != shadow
      requires SECTOR * count <= buf.Length
      modifies this, shadow
      ensures rc == 0 || rc == -1
      ensures rc == 0 <==> lba + count <= Sectors()
      ensures rc == 0 ==> SECTOR * lba + SECTOR * count <= |factory|
      ensures rc == 0 ==> Contents() == Splice(old(Contents()), SECTOR * lba, buf[..SECTOR * count])
      ensures rc != 0 ==> Contents() == old(Contents())
    {
      if !initialized {
        BlkInit();
      }
      var last := (lba + count) % U32;
      if last < lba || last > Sectors() {
        return -1;
      }
      CopyBytes(buf, 0, shadow, SECTOR * lba, SECTOR * count);
      rc := 0;
    }
  }
}
