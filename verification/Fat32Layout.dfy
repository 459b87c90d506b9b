/** On-disk layout of the EFI partition: where the two FAT copies and the clusters lie,
    and how FAT entries and directory entries are stored as bytes. */
module Fat32Layout {
  import opened Common
  import opened Disk

  const EFI_PART_START: nat := 2048
  const EFI_PART_SECTORS: nat := 131072
  const EFI_PART_END: nat := EFI_PART_START + EFI_PART_SECTORS
  const DATA_PART_START: nat := 133120
  const DATA_PART_SECTORS: nat := 131072
  const DATA_PART_END: nat := DATA_PART_START + DATA_PART_SECTORS
  const TOTAL_SECTORS: nat := 264192

  const FAT32_RESERVED: nat := 32
  const FAT32_FAT_SIZE: nat := 128
  const FAT32_SPC: nat := 8
  const FAT32_ROOT_CLUSTER: nat := 2
  const FAT32_FAT1_LBA: nat := EFI_PART_START + FAT32_RESERVED
  const FAT32_FAT2_LBA: nat := FAT32_FAT1_LBA + FAT32_FAT_SIZE
  const FAT32_DATA_LBA: nat := FAT32_FAT2_LBA + FAT32_FAT_SIZE

  const CLUSTER_BYTES: nat := 4096
  const SECTOR_ENTRIES: nat := 128        // FAT entries in one sector
  const FAT_ENTRIES: nat := 16384         // FAT entries in one copy
  const MAX_CLUSTER: nat := 16100         // the allocator's limit
  const END_OF_CHAIN: nat := 0x0FFF_FFFF
  const SLOT_BYTES: nat := 32
  const DIR_SLOTS: nat := 128             // directory entries in one cluster
  const ATTR_DIRECTORY: Byte := 0x10
  const ATTR_ARCHIVE: Byte := 0x20

  type Name = s: seq<Byte> | |s| == 11 witness seq(11, _ => 0x20)

  const DOT: Name := [0x2E, 0x20, 0x20, 0x20, 0x20, 0x20, 0x20, 0x20, 0x20, 0x20, 0x20]
  const DOT_DOT: Name := [0x2E, 0x2E, 0x20, 0x20, 0x20, 0x20, 0x20, 0x20, 0x20, 0x20, 0x20]

  /** An 8.3 name a caller may pass: it does not start with one of the two markers for an
      unused directory slot, nor with a dot. */
  predicate ValidName(n: Name) {
    n[0] != 0x00 && n[0] != 0xE5 && n[0] != 0x2E
  }

  /** `fat32_cluster_lba`. */
  function ClusterLba(cluster: nat): (lba: nat)
    requires 2 <= cluster
  {
    FAT32_DATA_LBA + (cluster - 2) * 8
  }

  // ----- table entries as bytes -----

  /** The four bytes `fat32_write_entry` stores: the top four bits stay zero. */
  function FatBytes(v: nat): seq<Byte> {
    var q1 := v / 256;
    var q2 := q1 / 256;
    [v % 256, q1 % 256, q2 % 256, q2 / 256 % 16]
  }

  lemma FatBytesRoundTrip(v: nat)
    requires v <= END_OF_CHAIN
    ensures var b := FatBytes(v); FromLe32(b[0], b[1], b[2], b[3]) % 0x1000_0000 == v
  {
    Le32RoundTrip(v);
    var q2 := v / 256 / 256;
    assert q2 / 256 < 16 && q2 / 256 % 16 == q2 / 256 == q2 / 256 % 256;
    assert FatBytes(v) == Le32(v);
  }

  // ----- reading an image -----

  ghost predicate Holds(img: Image) {
    EFI_PART_END <= |img|
  }

  /** FAT entry `c` in the copy that starts at `fat` (28 significant bits). */
  function FatEntryAt(img: Image, fat: nat, c: nat): nat
    requires c < FAT_ENTRIES
    requires fat + FAT32_FAT_SIZE <= |img|
  {
    var sec := img[fat + c / SECTOR_ENTRIES];
    var off := 4 * (c % SECTOR_ENTRIES);
    FromLe32(sec[off], sec[off + 1], sec[off + 2], sec[off + 3]) % 0x1000_0000
  }

  function FatEntry(img: Image, c: nat): nat
    requires c < FAT_ENTRIES
    requires EFI_PART_END <= |img|
  {
    FatEntryAt(img, FAT32_FAT1_LBA, c)
  }

  // ----- directory entries -----

  datatype DirEnt = DirEnt(name: Name, attr: Byte, cluster: nat, size: nat)

  predicate IsDirAttr(attr: Byte) {
    attr / 16 % 2 == 1
  }

  predicate Storable(e: DirEnt) {
    e.cluster < 0x1_0000_0000 && e.size < 0x1_0000_0000
  }

  /** The bytes of `s` with `patch` written over them from `off` on. */
  function Patch(s: Sector, off: nat, patch: seq<Byte>): (r: Sector)
    requires off + |patch| <= SECTOR_BYTES
    ensures forall i | 0 <= i < SECTOR_BYTES ::
      r[i] == if off <= i < off + |patch| then patch[i - off] else s[i]
  {
    s[..off] + patch + s[off + |patch|..]
  }

  function Zeros(n: nat): seq<Byte> { seq(n, _ => 0) }

  /** A directory entry on disk, fields not written by the installer being zero. */
  function EncodeEnt(e: DirEnt): (slot: seq<Byte>)
    ensures |slot| == SLOT_BYTES
  {
    var c := Le32(e.cluster);
    e.name + [e.attr] + [0, 0, 0, 0, 0, 0, 0, 0] + [c[2], c[3]] + [0, 0, 0, 0] + [c[0], c[1]] + Le32(e.size)
  }

  function DecodeEnt(slot: seq<Byte>): (e: DirEnt)
    requires |slot| == SLOT_BYTES
  {
    DirEnt(slot[..11], slot[11],
           FromLe32(slot[26], slot[27], slot[20], slot[21]),
           FromLe32(slot[28], slot[29], slot[30], slot[31]))
  }

  lemma DirEntRoundTrip(e: DirEnt)
    requires Storable(e)
    ensures DecodeEnt(EncodeEnt(e)) == e
  {
    Le32RoundTrip(e.cluster);
    Le32RoundTrip(e.size);
    assert EncodeEnt(e)[..11] == e.name;
  }

  /** The 32 bytes of slot `k` of the directory in cluster `d`. */
  function Slot(img: Image, d: nat, k: nat): (slot: seq<Byte>)
    requires 2 <= d && k < DIR_SLOTS
    requires ClusterLba(d) + FAT32_SPC <= |img|
    ensures |slot| == SLOT_BYTES
  {
    var off := k % 16 * SLOT_BYTES;
    img[ClusterLba(d) + k / 16][off..off + SLOT_BYTES]
  }
}
