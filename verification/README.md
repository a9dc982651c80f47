# Verified models of the NCD15 emulator, kernel and tools

A Dafny project beside the C and Python sources. It models, and proves properties of:

- **the FAT driver on its RAM disk** and the kernel's file calls above it. The driver is a class over the
  disk's byte array, with the two one-sector caches, one of which shares its memory with the write buffer. Its
  methods refine functions on a *volume* (table entries, 32-byte slots, clusters), and the volume refines a map
  from names to files. The modules build on one another: `RamDisk`, `FatTable` (12, 16 and 28-bit entries),
  `FatVolume`, `FatChains`, `FatFiles`, `FatOps`, `FatWrites`, `FatSave`, `FatRuns` (several files open at a time),
  `FatOverwrite`, `FatPlaces` (entries at another slot), `FatReads`, `FatSteps`, `FatNames`, `FatLayout` (image and
  volume), `FatDriver`, `FatMount`,
  `FatRereads` and `FatCrossing` (calls that meet a cluster's end), `FatSession` (programs of calls), and above them
  `BdosFiles`, `BdosHandles`, `BdosRecords`, `BdosWrites`, `BdosOpened`. `FatFormat` says what the FAT specification
  finds in the bytes of a disk, without the driver; `FatOnDisk` and `BdosOnDisk` connect the two, and `FatSlots` has the
  directory slots byte by byte;
- **the TFTP server's two loops**, on packets as bytes: `TftpWire`, `TftpSender`, `TftpReceiver`, and joined over
  a network that loses, repeats and reorders in `TftpSystem` (safety) and `TftpProgress` (completion), and over
  one that hands over each copy at most once in `TftpLossy`;
- **the LZSS decoders**: `Lzss`;
- **the LANCE Ethernet controller**: `Crc32`, `LanceMemory` (DMA and byte lanes), `LanceRings`, `LanceChains`,
  `LanceSends`, `LanceDelivery`, `LanceLoopback`, `LanceBuffer`, the state machine `LanceChip` with its invariant in
  `LanceStatus`, and the program in `LanceDevice`. `LanceFormat` reads host memory as the driver lays it out, by
  addresses and bits; `LanceInMemory`, `LanceAfterSend` and `LanceFlags` state the behaviour in those terms;
- **the 93C46 serial EEPROM** behind the DUART's output port: `Nvram`;
- **the command processor's** environment block (`Env`), S-record dumper and loader (`Srec`, `SrecChecks`), base64 (`Base64`)
  and uuencode (`Uuencode`).

`Bytes` holds the little-endian fields, patches and windows that most of them share, `Numbers` powers of two and masks,
and `Wrappers` the option type. `dafny verify dfyconfig.toml`
verifies the whole project.

Where a loop or a state change is the source's, it is a method here, proved against a function; the properties are
proved about the functions. The standards behind the models are the Microsoft FAT specification (sections "FAT Data
Structure" and "FAT Type Determination"), IEEE 802.3 clause 3.2.9, RFC 1350 sections 2, 5 and 6, RFC 1123 section
4.2.3.1 and RFC 4648 section 4.

## Where the code does less than one would expect

Each of these is stated exactly, with the condition under which the code does work:

- A write or read that ends exactly at a cluster's end leaves the handle on that cluster, and the next call starts
  over there (`FatWrites.WriteAppendsIff`, `FatRereads.ReadTwice`). A seek to the end of a file that fills its
  clusters fails (`FatDriver.Driver.FSeek`), so a program that writes records one after the other gets one cluster
  (`BdosWrites.WriteRecords`).
- A write call that crosses from one cluster of a file into the next one it already has leaves file bytes in the
  table's cache (`FatCrossing.CrossOnce`), and may take them for the table (`FatCrossing.ThirdCluster`): over zeros it
  goes on in the boot sector (`FatCrossing.ZerosHitBoot`). Exactly the other calls are covered by
  `FatDriver.Driver.FWrite` (`FatCrossing.CrossesIff`).
- Opening a file does not enter where its directory slot lies. Record writes through an opened control block say 0 and
  enter size and first cluster in the slot of whatever file the handle was last used to make
  (`BdosOpened.MakeThenOpen`), or in the boot sector when there was none (`BdosOpened.BootShrinks`);
  `BdosWrites.WriteSeq` says exactly when that does no harm.
- Unlinking or truncating a file does not look at open files. A handle used after that enters a freed cluster in
  whatever file took the slot (`FatRuns.StaleHandleBreaks`); `FatRuns.RunGoodIff` says what a caller must avoid.
- Opening a control block sets its extent fields from the file's size, so a program that opens and reads to the end
  sees a file of 128 records or more only from its last extent on, unless it rewinds (`BdosRecords.OpenAndRead`).
  Record numbers wrap at 2^20, so a file longer than 2^27 - 128 bytes never ends (`BdosRecords.DrainWhole`).
- Mounting accepts a FAT12 volume with one table, whose entries across sectors are stored once more behind the table
  (`FatMount.OneTableAccepted`, `FatLayout.AcrossWithOne`), and cluster sizes for which the offset mask is wrong
  (`FatMount.ThreeSectorsAccepted`, `FatLayout.InClusterIff`). With three tables or more the third keeps the old
  entry (`FatLayout.AcrossWithMore`).
- A closed control block can come alive again after 255 more opens (`BdosHandles.StaleTagReturns`).
- A data block exactly 65535 blocks old is taken for the next one (`TftpSystem.StaleBlockIsTaken`).
- A receiver that has finished answers no more, so when its last acknowledgements are lost the sender gives up
  (`TftpLossy.CompletesIff`).
- Sixteen or more leading zeros turn an EEPROM command into another (`Nvram.WriteBehindZeros`,
  `Nvram.ReadBehindZeros`).
- A failed `set` has already removed the old binding (`Env.SetRefinesMap`, `Env.BindingLostIff`).
- A check sequence behind more than 4092 bytes overruns the buffer a frame is put together in
  (`LanceBuffer.PostedHoldsIff`, `LanceBuffer.OneBufferOverruns`).
- Decoding a uuencoded text whose characters do not come in fours reads behind its end (`Uuencode.ReadsBehind`).
- An S-record dump of memory above 2^24 is loaded below it (`Srec.HighDumpLoadsLow`), and an end record without an
  address takes one from the line before (`Srec.ShortEndReadsOn`).

## Model

| member | source | states |
|---|---|---|
| `BdosFiles.SaveThenLoad` | xcpm-mips/src/bdos.c:459-501 | a save succeeds, with 0, exactly when the name exists or a slot is vacant and the bytes fit in the free clusters plus those the old file gives back; then a load under any spelling in which letters may be in the other case puts exactly the bytes saved into the buffer (and reports their number, or 0 from 2^31 bytes on), and every other file keeps its contents |
| `BdosOnDisk.SaveOnDisk` | xcpm-mips/src/bdos.c:459-474 | in bytes of the disk as the FAT specification reads them from its boot sector on: 0 exactly when the disk has room, and then the disk holds a file of that packed name, the archive attribute and those bytes, and every other file as before |
| `BdosOnDisk.LoadOnDisk` | xcpm-mips/src/bdos.c:482-503 | whatever file the disk holds under the name by the specification, its bytes go into the buffer, as many as fit; the failure value for names it does not list, directories and empty buffers |
| `BdosOnDisk.DeleteOnDisk` | xcpm-mips/src/bdos.c:1166-1172 | 0 exactly when the disk lists the name; afterwards it does not, and of the directory only the first byte of that slot has changed, so that labels stay |
| `FatOnDisk.LookupIsFormat` | xcpm-mips/src/fat.c:280-370 | a volume's files are exactly those the specification finds on its disk: geometry, table entries, end marks, directory slots and clusters, all by byte positions |
| `FatOnDisk.RoomIsFormat` | xcpm-mips/src/fat.c:682-790 | and its room is the disk's: slots that start with 0 or 0xE5, and table entries of 0 |
| `FatOnDisk.GeometryIsFormat` | xcpm-mips/src/fat.c:83-116 | mounting finds the areas, cluster size, cluster count and table width of the specification |
| `FatOnDisk.EntryIsFormat` | xcpm-mips/src/fat.c:131-172 | the entries of the volume are the bits of the disk's first table |
| `FatSlots.CreatedBytes` | xcpm-mips/src/fat.c:825-850 | creating enters the packed name, 0x20, and zeros for cluster and size; the other bytes of a slot stay, or are zero in a new one |
| `FatSlots.FlushedBytes` | xcpm-mips/src/fat.c:924-937 | flushing enters the size in bytes 28 to 31 and the first cluster in 26, 27 and 20, 21, and nothing else |
| `BdosFiles.SaveFile` | xcpm-mips/src/bdos.c:459-474 | the volume afterwards is that of create, one write and flush; 0 is returned exactly when every byte was stored; the caches stay truthful and both tables equal |
| `BdosFiles.LoadFile` | xcpm-mips/src/bdos.c:482-503 | for every well-formed volume, every name without slashes and every buffer size: the failure value exactly for missing names, directories and empty buffers, else the buffer holds the file's first bytes, as many as fit, and their number is returned, or 0 from 2^31 on |
| `BdosRecords.DeleteFcb` | xcpm-mips/src/bdos.c:1166-1172 | on the name in the control block: 0 exactly when the file was there; afterwards it is not, every other file is unchanged, exactly its clusters are free, and in the directory only the slot that carried the name, not deleted and no label, is struck out |
| `BdosFiles.OpenNamed` | xcpm-mips/src/fat.c:433-476 | opening, under any name without slashes, well-formed 8.3 or not, finds exactly the names that stand for a file that is no directory, through packing, matching and the directory walk |
| `BdosFiles.ReadToEnd` | xcpm-mips/src/bdos.c:494-500 | the load loop delivers the first bytes of the chain, as many as file and buffer allow |
| `BdosFiles.SaveMeaning` | xcpm-mips/src/bdos.c:459-474 | what a save does to the map from names to files, with the exact condition under which all bytes are kept |
| `FatRuns.RunRefines` | xcpm-mips/src/fat.c:813-958 | every interleaving of creating, writing, flushing, unlinking and closing any number of files, in which no file is created anew or unlinked while another structure has it open and no write starts at a cluster's end, keeps the volume well formed and every open file open on its own chain, leaves exactly the files, stored and pending, that the same run leaves of an abstract file system, and neither loses nor invents a cluster |
| `FatSession.Session` | xcpm-mips/src/fat.c:813-958 | any sequence of such calls made on the driver itself, on the disk image and its caches: reports, volume and open files are those of the run, and the files afterwards, stored and pending, are what the same calls leave of an abstract file system |
| `FatSession.Perform` | xcpm-mips/src/fat.c:813-958 | one call on the driver is one step of the run, the other structures keeping their files |
| `FatSession.SessionStarts` | xcpm-mips/src/fat.c:71-120 | a mounted, well-formed volume with no file open stands for its files |
| `FatRuns.StepRefines` | xcpm-mips/src/fat.c:813-958 | one call on a volume with files open: the abstract operation, what the caller is told, and the cluster account; what is written shows under the name only when flushed |
| `FatRuns.StepGoodIff` | xcpm-mips/src/fat.c:813-958 | one call leaves volume and open files in order exactly when it is not one of those two: a file another structure has open created anew or unlinked, or a write that starts at a cluster's end |
| `FatRuns.RunGoodIff` | xcpm-mips/src/fat.c:813-958 | a run stays in order all the way exactly when every call in it is allowed |
| `FatRuns.StaleHandleBreaks` | xcpm-mips/src/fat.c:924-958 | on every well-formed volume with a free slot and cluster: create, write, unlink, create another file, flush the old structure, and the new file's slot points at a free cluster |
| `FatRuns.SaveIsRun` | xcpm-mips/src/bdos.c:459-474 | a save is the run of create, write, flush and close |
| `FatSave.SaveKeeps` | xcpm-mips/src/fat.c:813-937 | a save is refused exactly when the name is new and no slot is vacant; else the name stands for the bytes that fit, the file owns ceil(n / cluster size) clusters, the free count falls by that many, other files are unchanged |
| `FatSave.SaveThenErase` | xcpm-mips/src/fat.c:865-958 | saving a new name and erasing it gives back exactly the clusters it took |
| `FatSave.FlushKeeps` | xcpm-mips/src/fat.c:924-937 | flushing makes the bytes written the contents of the name and disturbs no other file |
| `FatOps.CreateKeeps` | xcpm-mips/src/fat.c:813-862 | create fails exactly when the name is new and the directory full; it keeps every other file, and truncation returns exactly the clusters the old file owned |
| `FatOps.UnlinkKeeps` | xcpm-mips/src/fat.c:940-958 | unlink fails exactly for missing names; the name is gone, other files are kept, exactly its clusters are freed, and no slot changes but the one struck out, by a first byte of 0xE5 |
| `FatWrites.WriteAppends` | xcpm-mips/src/fat.c:865-921 | a write that continues inside a cluster, or starts an empty file, appends as long a prefix of the data as there is room for, and nothing else changes |
| `FatWrites.WriteAppendsIff` | xcpm-mips/src/fat.c:905-917 | one write appends exactly when the file is empty or does not end at a cluster's end; at a cluster's end the handle still names the cluster before |
| `FatWrites.WriteAtClusterEnd` | xcpm-mips/src/fat.c:905-917 | a write that starts at a cluster's end leaves a file longer than its chain |
| `FatWrites.FillKeeps` | xcpm-mips/src/fat.c:865-921 | growing one file's chain keeps the volume well formed and leaves all other slots' clusters alone |
| `FatChains.ReleaseZeroesReachable` | xcpm-mips/src/fat.c:700-710 | on every table, cyclic ones included, freeing zeroes exactly the in-range clusters reachable from the start |
| `FatChains.ReleaseChain` | xcpm-mips/src/fat.c:700-710 | freeing from a chain's head frees that chain and nothing else, and the free count grows by its length |
| `FatChains.ChainAcyclic` | xcpm-mips/src/fat.c:700-710 | a chain that ends visits no cluster twice |
| `FatChains.FillBytes` | xcpm-mips/src/fat.c:887-917 | the bytes of a write lie end to end along the grown chain behind what was there |
| `FatChains.FillChainTight` | xcpm-mips/src/fat.c:905-917 | the chain after a write is exactly as long as the bytes written need |
| `FatTable.EntryAfterPut` | xcpm-mips/src/fat.c:590-666 | reading back a stored entry gives the stored value, in FAT12, FAT16 and FAT32, straddling or not |
| `FatTable.EntryLayout` | xcpm-mips/src/fat.c:134-168 | where an entry's bits lie: two of 12 bits in three bytes, one of 16 in two, one of 28 in four |
| `FatTable.ReservedKept` | xcpm-mips/src/fat.c:611-612 | the four bits above an entry of 28 bits are kept |
| `FatTable.OtherEntryAfterPut` | xcpm-mips/src/fat.c:590-666 | storing an entry leaves every other entry alone, including the one that shares a FAT12 byte |
| `FatTable.PutAcrossSectors` | xcpm-mips/src/fat.c:614-651 | a FAT12 entry across two sectors is stored by one byte at the end of one and one at the start of the next |
| `FatDriver.Driver.NextClus` | xcpm-mips/src/fat.c:131-172 | through the one-sector cache the table entry on disk, or the end-of-chain value |
| `FatDriver.Driver.SetEntry` | xcpm-mips/src/fat.c:590-666 | with two tables, or an entry inside one sector, all copies stay equal, the entry is stored, and nothing before or behind the tables changes; an entry across sectors is stored in two places whatever the number of tables |
| `FatDriver.Driver.SetAcross` | xcpm-mips/src/fat.c:614-651 | one pass over the two sectors of a straddling entry, wherever those sectors lie |
| `FatLayout.AcrossWithTwo` | xcpm-mips/src/fat.c:614-651 | with two tables both passes together store the entry in both and nothing else |
| `FatLayout.AcrossWithOne` | xcpm-mips/src/fat.c:614-651 | with one table the second pass writes two bytes behind the table, and leaves the rest of the disk alone exactly when those bytes had the values already |
| `FatLayout.AcrossWithMore` | xcpm-mips/src/fat.c:614-651 | with more than two tables they agree afterwards exactly when the entry had the new value before, and nothing before or behind them changes |
| `FatLayout.InClusterIff` | xcpm-mips/src/fat.c:883-886 | the mask gives the offset in the cluster for every position exactly when the cluster size is a power of two |
| `FatDriver.Driver.AllocCluster` | xcpm-mips/src/fat.c:682-698 | the lowest free cluster, marked as an end, or 0 exactly when none is free |
| `FatDriver.Driver.FreeChain` | xcpm-mips/src/fat.c:700-710 | terminates on every table, with the entries freed that the walk reaches |
| `FatDriver.Driver.CountFreeClusters` | xcpm-mips/src/fat.c:670-680 | the number of free entries of the volume on disk |
| `FatDriver.Driver.ReadSec` | xcpm-mips/src/fat.c:43-53 | cache transparency: the sector on disk, whichever buffer answers |
| `FatDriver.Driver.ReadFatSec` | xcpm-mips/src/fat.c:55-61 | the scratch buffer holds the named table sector, although it doubles as the write buffer |
| `FatDriver.Driver.WriteSec` | xcpm-mips/src/fat.c:579-588 | the disk with that sector replaced, and every set cache flag still truthful |
| `FatDriver.Driver.DirNext` | xcpm-mips/src/fat.c:280-370 | the first slot from there on that does not start with 0xE5 and has attribute bit 3 clear, if no slot up to it starts with 0, and where it lies; else the end |
| `FatVolume.NextInUseIff` | xcpm-mips/src/fat.c:317-336 | the walk stops at a slot exactly when it is the first such slot |
| `FatDriver.Driver.FindDirent` | xcpm-mips/src/fat.c:714-733 | the place of the first listed slot with the raw name, or none exactly when there is none |
| `FatDriver.Driver.FindEmptyDirent` | xcpm-mips/src/fat.c:735-790 | the first vacant slot's place, or failure exactly when the root is full |
| `FatDriver.Driver.FCreate` | xcpm-mips/src/fat.c:813-862 | the volume and handle of creating or truncating the name, on the disk image itself |
| `FatDriver.Driver.FWrite` | xcpm-mips/src/fat.c:865-921 | from the end of a chain, or inside any of its clusters without crossing into the next: sector-wise writing with allocation at cluster ends has the effect of one abstract write, on volume, handle and count, and the caches stay truthful |
| `FatDriver.Driver.WriteTurn` | xcpm-mips/src/fat.c:887-917 | one turn of the write loop leaves a smaller write to do |
| `FatDriver.Driver.FFlush` | xcpm-mips/src/fat.c:924-937 | size and first cluster entered at the place the structure holds: a slot, with the rest of the disk unchanged, or the start of sector 0, where a structure that no file was made with points |
| `FatDriver.Driver.FUnlink` | xcpm-mips/src/fat.c:940-958 | chain freed and slot marked deleted, exactly for listed names |
| `FatDriver.Driver.FRead` | xcpm-mips/src/fat.c:478-511 | from any cluster of a chain: exactly the chain's bytes from there on, and the handle left on the cluster of the last byte read |
| `FatRereads.ReadTwice` | xcpm-mips/src/fat.c:478-511 | two reads on one handle: the second delivers the bytes behind the first when that did not end at a cluster's end, and otherwise the bytes of the cluster just read once more |
| `FatCrossing.CrossesIff` | xcpm-mips/src/fat.c:887-917 | a call is one the write theorem covers exactly unless it starts in a cluster that is not the chain's last and goes on past its end |
| `FatCrossing.CrossOnce` | xcpm-mips/src/fat.c:887-917 | a whole call that crosses into the next cluster of its chain and ends there, in every geometry: all its bytes are in their places and the count is right, and the table cache is truthful afterwards exactly when the sector written last equals the table sector the cache claims to hold |
| `FatCrossing.ThirdCluster` | xcpm-mips/src/fat.c:131-172 | a call that goes on past that cluster: the third cluster's number is read out of the file's own bytes exactly when its entry lies in the one sector the flag claims; otherwise it comes from the table and the caches are truthful again |
| `FatCrossing.ZerosHitBoot` | xcpm-mips/src/fat.c:122-127 | such a call over zeros takes 0 for the third cluster, and its next bytes overwrite the boot sector |
| `FatOverwrite.FlatPatch` | xcpm-mips/src/fat.c:888-899 | bytes put into cluster number k of a chain are the file's bytes behind k clusters, and no others change |
| `FatOverwrite.PlacedKeeps` | xcpm-mips/src/fat.c:888-899 | overwriting inside one file keeps the volume well formed and every other file as it was |
| `FatDriver.Driver.FSeek` | xcpm-mips/src/fat.c:521-535 | succeeds exactly for position 0 and positions inside the chain, and then stands on the cluster of the position |
| `FatDriver.Driver.FOpen` | xcpm-mips/src/fat.c:433-476 | the handle of the first listed slot whose shown name matches, with the error codes for missing names and directories; where the slot lies is not entered in the structure |
| `FatLayout.StoreSlot` | xcpm-mips/src/fat.c:924-937 | rewriting a slot's sector changes that slot of the volume and nothing else |
| `FatLayout.StoreSector` | xcpm-mips/src/fat.c:888-899 | rewriting bytes of a data sector changes those bytes of one cluster and nothing else |
| `FatLayout.EntrySetInView` | xcpm-mips/src/fat.c:590-666 | a table store on disk is the store of one entry of the volume |
| `FatMount.MountIsSoundIff` | xcpm-mips/src/fat.c:71-120 | the geometries this driver model covers, among those mounting accepts, in terms of the boot sector's own numbers |
| `FatMount.OneTableAccepted` | xcpm-mips/src/fat.c:71-120 | a boot sector that is accepted although it has one FAT12 table and an entry across two sectors |
| `FatMount.ThreeSectorsAccepted` | xcpm-mips/src/fat.c:71-120 | a boot sector that is accepted although its cluster size is no power of two, and where the mask takes a cluster's second sector for its first |
| `FatMount.BelowEndMarks` | xcpm-mips/src/fat.c:111-116 | the type limits 4085 and 65525 keep every cluster number below the end marks |
| `FatMount.FMount` | xcpm-mips/src/fat.c:71-120 | the error code, by the bytes of the boot sector, or 0 and its geometry; on an error the volume is no longer valid, and from -3 on the record holds the fields read by then |
| `FatMount.Remount` | xcpm-mips/src/fat.c:71-120 | mounting again after any work on the volume finds the same geometry and the same volume |
| `FatNames.RawMatchesIff` | xcpm-mips/src/fat.c:373-403 | a packed name matches the string it was packed from exactly when the string is a well-formed 8.3 name |
| `FatNames.MatchesIff` | xcpm-mips/src/fat.c:373-403 | for every string, well-formed or not: among the names the driver makes, matching it is being packed from it |
| `FatNames.RawIgnoresCase` | xcpm-mips/src/fat.c:793-811 | strings that differ only in the case of letters A to Z are packed alike |
| `FatNames.RawSameIff` | xcpm-mips/src/fat.c:793-811 | among 8.3 names, those that differ only in case, and no others, are packed alike |
| `FatNames.UpperSameIff` | xcpm-mips/src/fat.c:393-401 | two strings fold to the same capitals exactly when at each place they have the same byte or one letter in both cases |
| `FatNames.RawSpells` | xcpm-mips/src/fat.c:793-810 | a name of base and extension is packed into eight and three bytes, capitals for letters, filled with spaces |
| `FatNames.WellFormedIff` | xcpm-mips/src/fat.c:793-810 | the names this speaks of are exactly those of at most 8 characters without a dot, or with a dot and 1 to 3 more behind it, and no space |
| `FatNames.RawHasNoSmall` | xcpm-mips/src/fat.c:800-807 | no packed name of any string holds a byte in 0x61 to 0x7A |
| `FatNames.FindAgrees` | xcpm-mips/src/fat.c:418-429 | the open path and the create path find the same slot, for every string |
| `RamDiskDevice.RamDisk.BlkRead` | xcpm-mips/src/disk_ramfat.c:44-55 | the sectors of the image, refused exactly when they are not all on the device, sums that wrap included |
| `RamDiskDevice.RamDisk.BlkWrite` | xcpm-mips/src/disk_ramfat.c:57-68 | the image with those sectors replaced, or refused and unchanged |
| `RamDiskDevice.RamDisk.BlkInit` | xcpm-mips/src/disk_ramfat.c:35-42 | the lazy copy does not show |
| `BdosHandles.StaleTag` | xcpm-mips/src/bdos.c:854-877 | a control block of a closed file names no open file until 255 more handles were handed out |
| `BdosHandles.StaleTagReturns` | xcpm-mips/src/bdos.c:854-877 | the bound is exact: the 255th handle can be taken for the closed one |
| `BdosHandles.Handles.AllocHandle` | xcpm-mips/src/bdos.c:854-866 | the lowest free entry under the next generation, skipping 0 |
| `BdosHandles.Handles.ResolveFcb` | xcpm-mips/src/bdos.c:868-877 | the entry exactly when bytes 16 and 17 are 0x58 and 0x46, byte 20 names an entry in use below 16, and byte 21 is its generation |
| `BdosHandles.Handles.StashHandle` | xcpm-mips/src/bdos.c:879-887 | those bytes entered, with 18 and 19 zero; the others kept |
| `BdosRecords.ReadRecords` | xcpm-mips/src/bdos.c:1092-1118 | any number of BDOS 20 calls one after the other, from any record: together they give what the records of the file's contents give, and report the end where those end |
| `BdosRecords.OpenAndRead` | xcpm-mips/src/bdos.c:979-1004 | opening by BDOS 15 and reading to the end: after a rewind the file filled up to whole records and then the end, up to 2^27 - 128 bytes, and never the end for longer files; without one, the last extent only, which is the whole file exactly for fewer than 128 records |
| `BdosRecords.DrainWhole` | xcpm-mips/src/bdos.c:1092-1118 | some number of reads from record 0 gives the padded file and then the end exactly for files of at most 2^27 - 128 bytes |
| `BdosRecords.DrainNeverEnds` | xcpm-mips/src/bdos.c:1092-1118 | on longer files the record number wraps and no number of reads reports the end |
| `BdosRecords.OpenThenDrain` | xcpm-mips/src/bdos.c:979-1004 | a program that opens and reads to the end gets the whole file exactly when it has fewer than 128 records, else the last extent only |
| `BdosRecords.ReadSeq` | xcpm-mips/src/bdos.c:1092-1118 | on every control block: the record at its number, its fields combined by OR, padded with 0x1A, and the number advanced; 1 exactly at the end of the file or without a handle |
| `BdosRecords.ReadRecord` | xcpm-mips/src/bdos.c:1098-1110 | seek and read deliver the record of the file's contents |
| `BdosRecords.RecordBytes` | xcpm-mips/src/bdos.c:1098-1110 | record r is the 128 bytes from 128 r on, filled up with 0x1A, and there is one exactly while 128 r lies before the end |
| `BdosRecords.FieldsName` | xcpm-mips/src/bdos.c:1112-1116 | a record number below 2^20 is named by CR modulo 128, EX modulo 32 and S2 in that order, and by no other fields in their ranges |
| `BdosRecords.RecordBits` | xcpm-mips/src/bdos.c:1098 | on any fields the number has a bit exactly where one of them has it in its place |
| `BdosRecords.OpenFcb` | xcpm-mips/src/bdos.c:979-1004 | succeeds exactly for files when an entry is free; the control block then stands for the file, with the extent of the last record in bytes 12 and 14, the count in byte 15 and zeros in 13 and 32, other bytes kept; every file structure keeps the place of the directory slot it had |
| `BdosRecords.NameTextIs` | xcpm-mips/src/bdos.c:954-968 | the text of a packed file name packs to the same name |
| `BdosWrites.WriteSeq` | xcpm-mips/src/bdos.c:1175-1198 | for every control block, made or opened, and every record number: 0 exactly when the record lies inside the file, or at its end where it does not fill its last cluster and a record fits. The record is then written rightly (those bytes, nothing else) exactly when the structure's place is the file's own slot, or is no slot in use and the record lies within the file; a place of sector 0 is overwritten there. Otherwise no file changes; other handles' structures never do |
| `BdosWrites.PutAtIff` | xcpm-mips/src/bdos.c:1180-1197 | whether a record is taken does not depend on the place; whether it is written rightly does, by that condition |
| `BdosWrites.WriteMade` | xcpm-mips/src/bdos.c:1175-1198 | on a control block that was made, every record taken is written rightly, and the block stays fit for the next |
| `BdosOpened.OpenAndWrite` | xcpm-mips/src/bdos.c:979-1004 | opening and then writing any record: whether each call succeeds, and when the record is written rightly |
| `BdosOpened.MakeThenOpen` | xcpm-mips/src/bdos.c:1175-1217 | make A, close it, open B, write B's first record: every call says 0 and the volume is no longer well formed, for every well-formed volume with a free handle, room for A and a file B that is not empty |
| `BdosOpened.BootShrinks` | xcpm-mips/src/fat.c:924-937 | on a handle never used to make a file the entry goes to the boot sector, whose 16-bit sector count loses its high byte |
| `BdosOpened.CloseFcb` | xcpm-mips/src/bdos.c:1007-1015 | closing frees the handle and the control block, and nothing else |
| `FatPlaces.TwoOwners` | xcpm-mips/src/fat.c:924-937 | entering a file's first cluster in another file's slot leaves a volume that is not well formed |
| `FatPlaces.UnusedEntry` | xcpm-mips/src/fat.c:924-937 | in a slot not in use it leaves the volume well formed and every file as it was |
| `BdosWrites.PutRecord` | xcpm-mips/src/bdos.c:1180-1197 | seek, write and flush of one record have that effect on the volume and on sector 0 |
| `BdosWrites.MakeFcb` | xcpm-mips/src/bdos.c:1201-1217 | succeeds exactly when a handle is free and the name exists or a slot is vacant; then the file is empty, every other file unchanged, and the control block fit for writing records |
| `BdosWrites.WriteRecords` | xcpm-mips/src/bdos.c:1175-1198 | writing records one after the other into a new file: exactly one cluster full is taken, whatever is free, and when all were taken the file is the records |
| `BdosWrites.CanPutNextIff` | xcpm-mips/src/bdos.c:1180-1184 | the next record of a file of records is taken exactly when it is the first and a cluster is free, or does not start a new cluster |
| `BdosWrites.SeekRecord` | xcpm-mips/src/fat.c:521-535 | the seek of a record write fails exactly at or behind the end of a file that fills its clusters |
| `TftpSystem.TransferIsSafe` | xncd15r-mini/tftpd.py:153-192 | over every run on a network that loses, repeats and reorders but delivers nothing 65535 or more blocks old: what the receiver has is a prefix of the file, complete when it finished, and it has finished when the sender reports done |
| `TftpSystem.ShortTransferIsSafe` | xncd15r-mini/tftpd.py:247-286 | files of fewer than 65535 blocks are safe on every network |
| `TftpSystem.StaleBlockIsTaken` | xncd15r-mini/tftpd.py:272-283 | the bound is exact: a run that is fresh but for one block exactly 65535 old leaves the receiver with something that is no prefix of the file |
| `TftpProgress.DoneIff` | xncd15r-mini/tftpd.py:153-192 | over every fresh run, whatever was lost, repeated or reordered: the sender has reported the transfer done exactly when the run held two wanted deliveries a block and one for the option reply, and no run holds more |
| `TftpProgress.TransferCompletes` | xncd15r-mini/tftpd.py:153-192 | no run gets stuck: after every fresh run in which neither party gave up, as many further deliveries as are still needed end the transfer with the whole file |
| `TftpLossy.SentAgain` | xncd15r-mini/tftpd.py:168-192 | on a network that hands over each copy at most once: a sender timeout puts its packet under way again exactly when an attempt is left, else the sender gives up; a receiver timeout always puts its last acknowledgement under way again |
| `TftpLossy.LossIsMadeGood` | xncd15r-mini/tftpd.py:153-192 | after every run on such a network, if everything under way is lost, timeouts and what they send again complete the transfer with the whole file, as long as the receiver waits and the sender has an attempt left |
| `TftpLossy.CompletesIff` | xncd15r-mini/tftpd.py:153-192 | after every such run with an attempt left, the transfer can still be completed exactly when the receiver has not finished or an acknowledgement of the last block is under way |
| `TftpLossy.LossyIsSafe` | xncd15r-mini/tftpd.py:153-192 | and safety holds there too |
| `TftpProgress.StepCounts` | xncd15r-mini/tftpd.py:168-192 | a step carries the transfer on by one exactly when it delivers what a party waits for |
| `TftpSystem.StepKeeps` | xncd15r-mini/tftpd.py:153-192 | the invariant of the two parties and the network through every step |
| `TftpSystem.RxStays` | xncd15r-mini/tftpd.py:272-277 | whatever is not the block wanted leaves the file alone and draws the last acknowledgement or nothing |
| `TftpSystem.RxTakes` | xncd15r-mini/tftpd.py:278-286 | the block wanted is appended and acknowledged, and a short one finishes |
| `TftpSender.ServeRrq` | xncd15r-mini/tftpd.py:153-166 | the nested loops do exactly what one step an event does, on every arrival order: result, packets sent, events used |
| `TftpSender.SendAwaitAck` | xncd15r-mini/tftpd.py:168-192 | the wait ends with the first acknowledgement of the block, error packet or fifth timeout; its packet goes out once and once more for every timeout before that |
| `TftpSender.WaitIs` | xncd15r-mini/tftpd.py:168-192 | the same of the function, for a wait with any number of attempts used up, told in events and packet bytes |
| `TftpWire.PacketBytes` | xncd15r-mini/tftpd.py:156-156 | data and acknowledgement packets byte by byte |
| `TftpReceiver.RxStepIs` | xncd15r-mini/tftpd.py:249-286 | one event at the receiver, in packet bytes: the wanted block, and nothing else, is stored and acknowledged; a timeout repeats the last packet; an error packet or the fifth attempt without the peer ends it |
| `TftpSender.RunAwaits` | xncd15r-mini/tftpd.py:153-192 | a transfer is one wait after another |
| `TftpSender.SendsBounded` | xncd15r-mini/tftpd.py:168-192 | however many duplicate or stale acknowledgements arrive, at most five packets go out a block |
| `TftpReceiver.ServeWrq` | xncd15r-mini/tftpd.py:239-289 | the receive loop does exactly what one step an event does: bytes written, packets sent, and whether the file was completed |
| `TftpReceiver.TakePacket` | xncd15r-mini/tftpd.py:262-286 | the answer to a datagram, on bytes cut to the buffer |
| `Lzss.BlobDecodes` | xcpm-mips/src/lzss.c:29-86 | for every token list, both decoders give back exactly what the tokens denote over an unbounded history that starts as zeros, whatever follows the blob, if it fits the buffer |
| `Lzss.MatchCopies` | xcpm-mips/src/lzss.c:72-80 | what a match denotes: at each ring position the byte put out last there, those of the match included, or zero when there was none; output starts at position 0 of 4096 |
| `Lzss.DecodersAgree` | xcpm-mips/src/lzss.c:41-132 | both decoders accept the same blobs, up to the buffer's size, and give the same bytes |
| `Lzss.Decompress` | xcpm-mips/src/lzss.c:41-86 | the ring window refines the unbounded history; nothing is read past the blob or written past the limit |
| `Lzss.DecompressStream` | xcpm-mips/src/lzss.c:92-132 | the same for the bytes emitted |
| `Lzss.CopyMatch` | xcpm-mips/src/lzss.c:72-80 | a match copies bytes at a fixed distance, overlapping itself when longer, and stops at the limit |
| `Lzss.RingPush` | xcpm-mips/src/lzss.c:64-66 | writing at the write position keeps the ring the image of the history |
| `Lzss.FlagWordIs` | xcpm-mips/src/lzss.c:57-61 | bit 8 of the flag word says whether the group of eight has a token left |
| `Lzss.OutputBound` | xcpm-mips/src/lzss.c:56-83 | the last copy overruns the announced size by at most 17 bytes |
| `Crc32.FrameResidue` | emulator/src/lance_glue.c:228-239 | every frame followed by its own check sequence, low byte first, gives 0x2144DF1C |
| `Crc32.KnownChecks` | emulator/src/lance.c:469-487 | the check sequences of one zero byte and of four |
| `Crc32.OnlyOwnCheck` | emulator/src/lance.c:604-614 | and only its own: any other four bytes behind a frame give something else |
| `Crc32.TableCrc.LanceCrc32` | emulator/src/lance.c:469-487 | the table-driven program computes the bitwise check sequence on every buffer |
| `Crc32.EthCrc32` | emulator/src/lance_glue.c:182-190 | the bitwise program computes the same check sequence |
| `Crc32.ByTable` | emulator/src/lance.c:484-486 | eight shifts are one table step |
| `LanceMemory.InInvertsOut` | emulator/src/lance.c:407-465 | block DMA-in inverts block DMA-out at odd and even addresses and in either byte order |
| `LanceMemory.OutBlockBytes` | emulator/src/lance.c:437-465 | DMA-out sets its bytes, zeroes the byte that shares a word with an odd end, and nothing else |
| `LanceDevice.Lance.DmaInBlock` | emulator/src/lance.c:407-435 | the bytes at those addresses: low halves of words at even and high halves at odd addresses, or the other way round with CSR3's bit 2 set |
| `LanceDevice.Lance.DmaOutBlock` | emulator/src/lance.c:437-465 | the bytes stored at those addresses, in the same order, zero beside an odd end, and every other byte as it was |
| `LanceDelivery.RxDelivered` | emulator/src/lance.c:539-643 | the buffers in ring order hold the frame or the part for which there is room; the status word of every descriptor used is exactly what it was, given back, with the start mark on the first and on the last the end mark, the check sequence error or the buffer error; the last has the length; the position advances by exactly those used, and nothing else in memory changes |
| `LanceInMemory.ReceivedInMemory` | emulator/src/lance.c:539-643 | the same in words of host memory alone, with addresses, lengths, marks and byte order by their bits: the frame lies in the buffers byte for byte, status words and length are exactly these, nothing else changes, and RINT and INTR are set |
| `LanceInMemory.NotStored` | emulator/src/lance.c:621-643 | a frame not heard changes nothing; one without a descriptor changes no memory and sets ERR, MISS, RINT and INTR |
| `LanceInMemory.SentFromMemory` | emulator/src/lance.c:647-780 | a frame laid out in memory goes out as its bytes, buffer after buffer and in that byte order, with its check sequence behind it exactly when the mode word or the first status word asks for it |
| `LanceInMemory.LoopedInMemory` | emulator/src/lance.c:647-780 | and in internal loopback every byte of it lies in the receive buffers after one poll |
| `LanceAfterSend.SentLeaves` | emulator/src/lance.c:743-830 | after a frame on the wire: the chain given back, TINT, INTR and for more than 1518 bytes ERR and BABL set, and a frame of 12 to 100 bytes to the own address kept to be received |
| `LanceAfterSend.LoopRefused` | emulator/src/lance.c:759-815 | a loop of fewer than 8 or more than 32 bytes, or with a forced collision, sends nothing and marks its last descriptor with ERR, and RTRY |
| `LanceAfterSend.UnderrunStops` | emulator/src/lance.c:731-739 | a chain that ends early marks its descriptor with ERR, BUFF and UFLO and switches the transmitter off |
| `LanceInMemory.InitializedFromMemory` | emulator/src/lance.c:325-386 | mode, address, filter and both rings come from those words of the block at the address in CSR1 and CSR2; both positions start at 0 |
| `LanceDelivery.LastErrors` | emulator/src/lance.c:603-617 | the error bits of the last status word: unchanged for a whole good frame, the check sequence error and ERR for a whole bad one, the buffer error and ERR for a part |
| `LanceChains.ScatterDelivers` | emulator/src/lance.c:567-602 | filling a chain of owned descriptors, and that nothing else in memory changes |
| `LanceSends.GatherCollects` | emulator/src/lance.c:695-742 | collecting a posted frame gives its bytes buffer after buffer and gives back every descriptor but the last |
| `LanceRings.TurnsBounded` | emulator/src/lance.c:695-742 | the unbounded loop takes at most as many turns as descriptors were owned, hence at most the ring's length, on every memory |
| `LanceRings.OwnDrops` | emulator/src/lance.c:728-732 | each step onward lowers the number of owned descriptors by one |
| `LanceLoopback.LoopbackIsFaithful` | emulator/src/lance.c:647-780 | a frame of 8 to 32 bytes posted in any chain is found after one poll in the receive buffers, with the check sequence if one was asked for; both positions have moved on by the descriptors used, and in the memory after the poll the transmit chain has been given back |
| `LanceLoopback.LoopedFrameIsGood` | emulator/src/lance.c:748-775 | a looped frame with an appended check sequence is marked with no error: after the poll the last descriptor has the error bits it was handed over with |
| `LanceDevice.GlueFrameIsGood` | emulator/src/lance_glue.c:191-239 | a wire frame of up to 1596 bytes that is heard and finds room is stored whole and marked with no error: the last descriptor has the error bits it was handed over with |
| `LanceBuffer.PostedHoldsIff` | emulator/src/lance.c:691-755 | a posted frame fits the 4096-byte buffer exactly when it has at most 4092 bytes or no check sequence is appended |
| `LanceBuffer.BufferHoldsIff` | emulator/src/lance.c:691-755 | the same for whatever is collected, on every memory |
| `LanceBuffer.OneBufferOverruns` | emulator/src/lance.c:691-755 | a single descriptor whose length field is zero does not fit |
| `LanceDevice.GlueRecv` | emulator/src/lance_glue.c:228-239 | the check sequence goes behind every frame that fits with it |
| `LanceDevice.RecvCases` | emulator/src/lance.c:518-537 | frames of fewer than 60 bytes, and all frames in internal loopback, leave the controller alone |
| `LanceStatus.AlwaysSettled` | emulator/src/lance.c:127-386 | after every sequence of register writes, ticks, received frames and resets: ERR and INTR stand exactly for their causes, the line is asserted exactly when INTR is set and enabled, both positions lie in their rings |
| `LanceFlags.AlwaysRight` | emulator/src/lance.c:127-386 | the same from power-on, by the bits of CSR0 |
| `LanceFlags.FlagsCleared` | emulator/src/lance.c:147-233 | a write without a command clears exactly the flags written as ones, sets INEA as written, and changes nothing else but ERR, INTR and the line |
| `LanceFlags.StartSwitchesOn` | emulator/src/lance.c:162-190 | STRT starts, ends STOP, and switches receiver and transmitter on as the mode word says |
| `LanceFlags.DemandStarts` | emulator/src/lance.c:192-210 | TDMD starts a controller that has not started, and leaves STOP as it was |
| `LanceFlags.InitStarts` | emulator/src/lance.c:153-160 | INIT initialises and sets IDON |
| `LanceFlags.StopResets` | emulator/src/lance.c:138-145 | STOP resets a running controller and leaves a stopped one alone |
| `LanceFlags.RegistersAre` | emulator/src/lance.c:127-258 | the register select, and CSR1 to CSR3, which take writes only while stopped |
| `LanceAfterSend.TickPolls` | emulator/src/lance.c:269-296 | the ring is polled when the counter runs out, and the counter starts over |
| `LanceStatus.PowerOnSettled` | emulator/src/lance.c:64-101 | the state after power-on satisfies it |
| `LanceStatus.RecomputedIs` | emulator/src/lance.c:220-233 | recomputing gets both composite flags right whatever they were |
| `LanceStatus.PollSettles` | emulator/src/lance.c:647-681 | a poll keeps it, through transmission, loopback and reception |
| `LanceDevice.Lance.Receive` | emulator/src/lance.c:539-619 | result, last status word, memory and position are those of the model |
| `LanceDevice.Lance.FillBuffers` | emulator/src/lance.c:567-602 | the scatter loop refines its function |
| `LanceDevice.Lance.CollectBuffers` | emulator/src/lance.c:695-742 | the gather loop refines its function, and terminates |
| `LanceDevice.Lance.Recv` | emulator/src/lance.c:518-537 | the whole state after a frame from the wire |
| `LanceDevice.Lance.SendComplete` | emulator/src/lance.c:802-830 | memory, position, flags and line after a transmission |
| `LanceDevice.Lance.RecvComplete` | emulator/src/lance.c:621-643 | memory, position, flags and line after a reception |
| `LanceDevice.Lance.UpdateInterrupts` | emulator/src/lance.c:300-321 | the line follows INEA and INTR, and the host hears of changes only |
| `LanceDevice.Lance.AddressFilter` | emulator/src/lance.c:493-513 | the filter decision, with the table-driven hash |
| `Nvram.WriteWordIs` | emulator/src/nvram.c:117-179 | for every address, word and up to 15 leading zeros, the write sequence changes exactly the addressed word, or nothing while writing is disabled, and leaves the data pin high |
| `Nvram.ReadWordIs` | emulator/src/nvram.c:182-204 | the read sequence shows a zero and then the word, highest bit first, and changes nothing |
| `Nvram.WriteThenRead` | emulator/src/nvram.c:110-225 | what was written is read back at that address and nowhere else |
| `Nvram.WriteBehindZeros` | emulator/src/nvram.c:117-179 | the limit on leading zeros is exact: behind 16 the write is taken for a read, behind 17 it writes a shifted word to another cell, behind 18 it erases the chip, behind 19 it does nothing, and from 20 on it disables writing |
| `Nvram.ReadBehindZeros` | emulator/src/nvram.c:117-179 | behind 16 zeros a read erases the word at half its address |
| `Nvram.DisabledKeeps` | emulator/src/nvram.c:206-225 | no pin sequence changes the memory while writes are disabled |
| `Nvram.EnableIs` | emulator/src/nvram.c:157-167 | the commands that enable and disable writing, the one that erases all words, and the one that does nothing; the data pin is high behind each |
| `Nvram.EraseIs` | emulator/src/nvram.c:152-155 | the command that erases one word |
| `Nvram.PulledUp` | emulator/src/nvram.c:182-204 | the data pin is high in every state but a read-out of the zero and the sixteen bits |
| `Nvram.LowOnlyInRead` | emulator/src/nvram.c:182-225 | and over every pin sequence it is low only while the chip is selected and reads out |
| `Nvram.Chip.Write` | emulator/src/nvram.c:206-225 | one pin change of the program is one step of the protocol; the data bit that counts is the one set before the clock rises |
| `Nvram.Chip.SkRise` | emulator/src/nvram.c:117-179 | one rising clock |
| `Nvram.Chip.Read` | emulator/src/nvram.c:182-204 | the data pin |
| `Nvram.Duart.WriteOpr` | emulator/src/duart.c:137-143 | OP4, OP5 and OP6 drive the pins; the other output bits do not matter |
| `Nvram.Duart.ReadIpcr` | emulator/src/duart.c:122-131 | the data pin shows in bit 2 and the other bits are kept |
| `Env.SetRefinesMap` | xcpm-mips/src_ccp/ccpmain.c:1458-1484 | a set succeeds exactly when the bytes used, less the old entry's, leave room for the new one; then the name in any case stands for the new value; every other name stands for what it did either way, no name is bound twice, and a failed set has removed the old binding |
| `Env.GetIff` | xcpm-mips/src_ccp/ccpmain.c:1434-1456 | a name stands for a value exactly when an entry has that value and a name that differs at most in the case of letters |
| `Env.BindingLostIff` | xcpm-mips/src_ccp/ccpmain.c:1465-1475 | a binding is lost exactly when the block with the new value in place of the old would be full |
| `Env.FullBlock` | xcpm-mips/src_ccp/ccpmain.c:1475 | a full block whose only binding is lost to a value one byte longer |
| `Env.EnvBlock.Set` | xcpm-mips/src_ccp/ccpmain.c:1458-1484 | in-place compaction and appending leave a contiguous run of entries filling exactly the used bytes, the new one as name, equals sign, value and zero at their end |
| `Env.EnvBlock.Drop` | xcpm-mips/src_ccp/ccpmain.c:1465-1474 | the compaction loop takes exactly one entry out |
| `Env.EnvBlock.Find` | xcpm-mips/src_ccp/ccpmain.c:1434-1447 | the offset of the first entry with the name, or none |
| `Env.EnvBlock.GetValue` | xcpm-mips/src_ccp/ccpmain.c:1449-1456 | the value the name stands for |
| `Env.GapClosed` | xcpm-mips/src_ccp/ccpmain.c:1465-1474 | closing an entry's gap in the bytes is taking it out of the list |
| `Srec.LoadInvertsDump` | xcpm-mips/src_ccp/ccpmain.c:848-920 | loading what was dumped restores the bytes at their address with no complaint, for every range below 2^24, whatever memory held before |
| `SrecChecks.ComplainsIff` | xcpm-mips/src_ccp/ccpmain.c:896-919 | on every S1, S2 or S3 line with as many readable bytes as its count says: the data goes to the address, and the loader complains exactly when count, address, data and check do not add up to 0xFF modulo 256 |
| `SrecChecks.AlteredComplains` | xcpm-mips/src_ccp/ccpmain.c:850-919 | a printed record with any one byte behind the count altered is complained of exactly once |
| `SrecChecks.RecordSpells` | xcpm-mips/src_ccp/ccpmain.c:850-872 | a printed record is S2 and spells in capitals its count, 24 address bits, data, and a check that makes them add up to 0xFF |
| `SrecChecks.DumpLines` | xcpm-mips/src_ccp/ccpmain.c:850-874 | sixteen bytes a line, and the end record, each with CR and LF |
| `SrecChecks.EndIs` | xcpm-mips/src_ccp/ccpmain.c:887-894 | S7, S8 and S9 end the load with an address of four, three and two bytes |
| `SrecChecks.LineIs` | xcpm-mips/src_ccp/ccpmain.c:801-815 | a line ends at CR or LF and keeps 255 characters; Ctrl-C ends the load |
| `SrecChecks.OthersChangeNothing` | xcpm-mips/src_ccp/ccpmain.c:884-902 | other lines change no memory |
| `Srec.LoadLands` | xcpm-mips/src_ccp/ccpmain.c:848-920 | loading what was dumped, from any address: each record's bytes land at its address modulo 2^24, with no complaint |
| `Srec.HighDumpLoadsLow` | xcpm-mips/src_ccp/ccpmain.c:861-866 | a dump from q times 2^24 further up is loaded below 2^24; the range it came from holds its bytes again only if it held them before |
| `Srec.DumpRestoresIff` | xcpm-mips/src_ccp/ccpmain.c:848-920 | a range is restored over every memory exactly when its last record starts below 2^24 |
| `Srec.RecordTruncates` | xcpm-mips/src_ccp/ccpmain.c:861-866 | only 24 address bits are printed: a record from a multiple of 2^24 further up is the same text |
| `Srec.ShortEndReadsOn` | xcpm-mips/src_ccp/ccpmain.c:887-894 | the line buffer keeps what lay behind a short line: a line of just S8 behind a record ends the load with that record's address as entry, and with nothing behind it is refused |
| `Srec.Send` | xcpm-mips/src_ccp/ccpmain.c:850-874 | the printed text of a range |
| `Srec.Load` | xcpm-mips/src_ccp/ccpmain.c:877-920 | the loader's loop on every console stream, with the line buffer it reads into: memory, complaints and entry |
| `Srec.TakeLine` | xcpm-mips/src_ccp/ccpmain.c:884-917 | one line, with all its ways to fail, and whatever the buffer holds behind it |
| `Base64.DecodeInverts` | xcpm-mips/src_ccp/ccpmain.c:661-702 | decoding inverts encoding on every byte string |
| `Base64.QuadStands` | xcpm-mips/src_ccp/ccpmain.c:661-686 | four letters stand, in base 64, for the number of three bytes, with = for places that carry none |
| `Base64.DecodeStops` | xcpm-mips/src_ccp/ccpmain.c:688-702 | a text whose first or second letter stands for none, or that has no second, decodes to nothing |
| `Base64.DecodeReads` | xcpm-mips/src_ccp/ccpmain.c:688-702 | four letters that stand for numbers are decoded to the three bytes of their 24 bits |
| `Base64.B64Encode` | xcpm-mips/src_ccp/ccpmain.c:671-686 | the printed letters |
| `Base64.B64Decode` | xcpm-mips/src_ccp/ccpmain.c:688-702 | the decoded bytes of every argument, malformed ones included |
| `Uuencode.DecodeInverts` | xcpm-mips/src_ccp/ccpmain.c:717-764 | decoding a line gives back the string, or its first 45 bytes, whatever lies behind it in memory |
| `Uuencode.QuadStands` | xcpm-mips/src_ccp/ccpmain.c:724-736 | four characters stand, in base 64 from the space on with a back quote for it, for the number of three bytes |
| `Uuencode.LineStarts` | xcpm-mips/src_ccp/ccpmain.c:719-722 | a line starts with its number of bytes, at most 45 |
| `Uuencode.TextDecides` | xcpm-mips/src_ccp/ccpmain.c:749-761 | a text whose characters come in fours decides the result alone |
| `Uuencode.ReadsBehind` | xcpm-mips/src_ccp/ccpmain.c:749-761 | on others the decoder goes on behind the end mark, with bytes that are no part of the text |
| `Uuencode.Encode` | xcpm-mips/src_ccp/ccpmain.c:717-740 | the printed line |
| `Uuencode.Unpacked` | xcpm-mips/src_ccp/ccpmain.c:749-761 | the unpacking loop, on every text and whatever lies behind it |

## Left out

- FatDriver.Driver.FWrite: a call that crosses from one cluster of its chain into the next is the subject of FatCrossing instead: CrossOnce to the end of the next cluster, ThirdCluster to the number of the third, ZerosHitBoot one piece further. After that such a call may write wherever file bytes send it.
- FatDriver.Driver.SetEntry: that all copies agree afterwards holds for two tables or entries inside a sector; for the others AcrossWithOne and AcrossWithMore say what happens instead.
- FatDriver.Driver.DirNext: the directory walked is the fixed root of FAT12 and FAT16, and long names are not reassembled.
- FatDriver.Driver.FindEmptyDirent: without the FAT32 branch that lengthens the root.
- FatDriver.Driver.FOpen: one path component in the root; long names are not matched, and nested paths are not followed.
- FatDriver.Driver.FRead: for chains that hold the bytes asked for; what the code reads when a chain ends early is not modelled. Its count is not cut to a signed 32-bit number here but in the load call, the only one that can ask for so many bytes.
- FatMount.MountIsSoundIff: the geometries outside are not all shown to fail; the witnesses beside it are for two of the conditions.
- FatMount.FMount: the driver's own table of open files, which it clears, is not modelled, because no other call uses it.
- FatRuns.RunRefines: the files of a run are open for writing, from the end of what they hold; overwriting is the subject of FatOverwrite and of BdosWrites, and unlinking a file that is open only for reading is not followed.
- FatSession.Session: writes whose end fits the 32-bit file position.
- BdosFiles.LoadFile: names without slashes; nested paths are not followed.
- BdosOnDisk.SaveOnDisk: volumes whose tables do not start in the boot sector, whose clusters start before the volume ends, and whose geometry the driver model covers (FatMount.MountIsSoundIff); the same holds of BdosOnDisk.LoadOnDisk and BdosOnDisk.DeleteOnDisk.
- BdosWrites.WriteSeq: for files whose chain is exactly as long as their size needs, as make and the write calls themselves leave it, and for structures whose place is a slot or sector 0; one left by a volume of another geometry is not followed. After a record that was refused for want of clusters when part of it fitted, the handle's size is ahead of the slot's, which no further call on it is followed from.
- BdosRecords.OpenFcb: control blocks for the current drive whose name field is a packed 8.3 name; the same holds of BdosRecords.OpenAndRead, BdosRecords.DeleteFcb, BdosWrites.MakeFcb and BdosOpened.OpenAndWrite.
- BdosFiles.OpenNamed: names without slashes; nested paths are not followed.
- TftpLossy.CompletesIff: runs after which the sender's last attempt is running are not decided.
- LanceFlags.StartSwitchesOn: writes of one command at a time; with something to send at once, the transmitter may be off again because of an underrun.
- Lzss.Decompress: a blob has at least its eight header bytes in memory, as the header is read before the length is looked at.
- Uuencode.Unpacked: the memory behind the text reaches as far as the decoder reads.
- LanceDevice.Lance.DmaInBlock: at least one byte, as all callers ask for.
- LanceDelivery.RxDelivered: buffers that end below 2^24, share no 16-bit word with each other and none with the ring; otherwise the zeroed neighbour of an odd end or a write into the ring can show.
- LanceChip.Transmit: the frame is a sequence, so that what an overrun of the 4096-byte buffer writes over does not show; LanceBuffer says when there is one. The length-0 result of a send cannot occur and is left out.
- LanceStatus.AlwaysSettled: runs in which such an overrun happens are among those it speaks of, as runs of this model.
- LanceChip: register writes, polling and what follows the gathering of a frame are functions on the controller's state, not methods on its fields; the transfers, descriptor loops, reception and completion are methods.
- FAT long names, FAT32 root directories, subdirectories, rename, change of directory and volume labels.
- Device errors: the RAM disk fails only for sectors it does not have.
- The volume's 32-bit sector arithmetic beyond the device's size: a mounted volume fits its device.
- The block device and the kernel's console, program loading, random-record and search calls.
- TFTP sockets, threads, option and path checks, timer lengths, and the file-service server.
- The LANCE's external network, the ARP snoop and status mirror of the glue, and tracing.
- EEPROM image files, and the DUART's serial ports.
- The command processor's other commands, completion, pipes and editing.
- The MIPS interpreter, the bus and the display.
