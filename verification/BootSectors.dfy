/** The sectors that tell a reader where everything is: the master boot record, the boot sectors of the two
    partitions and the FSInfo sector. Each is built by writing into a zeroed buffer, and what it says is
    stated through a parser with the offsets of the formats. */
module BootSectors {
  import opened Common
  import opened Disk
  import opened Fat32Layout

  const FAT32_FAT_COUNT: nat := 2
  const FAT16_RESERVED: nat := 4
  const FAT16_FAT_SIZE: nat := 16
  const FAT16_FAT_COUNT: nat := 2
  const FAT16_SPC: nat := 64
  const FAT16_ROOT_ENTRIES: nat := 512
  const FAT16_ROOT_SECTORS: nat := FAT16_ROOT_ENTRIES / 16
  const FAT16_FAT1_LBA: nat := DATA_PART_START + FAT16_RESERVED
  const FAT16_FAT2_LBA: nat := FAT16_FAT1_LBA + FAT16_FAT_SIZE
  const FAT16_ROOT_LBA: nat := FAT16_FAT2_LBA + FAT16_FAT_SIZE

  // ----- reading -----

  function Word(s: Sector, off: nat): nat
    requires off + 2 <= SECTOR_BYTES
  {
    var low, high: int := s[off], s[off + 1];
    low + 256 * high
  }

  function Long(s: Sector, off: nat): nat
    requires off + 4 <= SECTOR_BYTES
  {
    FromLe32(s[off], s[off + 1], s[off + 2], s[off + 3])
  }

  function Ascii(text: string): (bytes: seq<Byte>)
    requires forall k | 0 <= k < |text| :: text[k] < 128 as char
    ensures |bytes| == |text| && forall k | 0 <= k < |text| :: bytes[k] == text[k] as int
  {
    seq(|text|, k requires 0 <= k < |text| => text[k] as int)
  }

  /** `s` holds `text` from `off` on. */
  predicate Says(s: Sector, off: nat, text: string) {
    off + |text| <= SECTOR_BYTES && forall k | 0 <= k < |text| :: s[off + k] == text[k] as int
  }

  predicate Signed(s: Sector) {
    s[510] == 0x55 && s[511] == 0xAA
  }

  /** The cylinder, head and sector numbers of both ends are three bytes each. */
  datatype Partition = Partition(status: Byte, first: nat, kind: Byte, last: nat, start: nat, sectors: nat)

  function Triple(s: Sector, off: nat): nat
    requires off + 3 <= SECTOR_BYTES
  {
    FromLe32(s[off], s[off + 1], s[off + 2], 0)
  }

  /** Entry `k` of the partition table of a master boot record. */
  function PartitionAt(s: Sector, k: nat): Partition
    requires k < 4
  {
    var off := 446 + 16 * k;
    Partition(s[off], Triple(s, off + 1), s[off + 4], Triple(s, off + 5), Long(s, off + 8), Long(s, off + 12))
  }

  /** The BIOS parameter block up to offset 0x24, which FAT16 and FAT32 share. */
  datatype Bpb = Bpb(
    bytesPerSector: nat, sectorsPerCluster: nat, reserved: nat, fats: nat, rootEntries: nat,
    sectors16: nat, media: nat, fatSize16: nat, perTrack: nat, heads: nat, hidden: nat, sectors32: nat)

  function BpbOf(s: Sector): Bpb {
    Bpb(Word(s, 11), s[13], Word(s, 14), s[16], Word(s, 17), Word(s, 19), s[21], Word(s, 22),
        Word(s, 24), Word(s, 26), Long(s, 28), Long(s, 32))
  }

  /** The part that only FAT32 has. */
  datatype Bpb32 = Bpb32(fatSize: nat, flags: nat, version: nat, root: nat, fsInfo: nat, backup: nat)

  function Bpb32Of(s: Sector): Bpb32 {
    Bpb32(Long(s, 36), Word(s, 40), Word(s, 42), Long(s, 44), Word(s, 48), Word(s, 50))
  }

  // ----- what the sectors say -----

  ghost predicate IsMbr(s: Sector, bios: seq<Byte>) {
    && (forall i | 0 <= i < 440 :: s[i] == if i < |bios| then bios[i] else 0)
    && s[440] == 0xDE && s[441] == 0xAD && s[442] == 0xBE && s[443] == 0xEF && s[444] == s[445] == 0
    && PartitionAt(s, 0) == Partition(0x80, 0xFFFFFE, 0xEF, 0xFFFFFE, 2048, 131072)
    && PartitionAt(s, 1) == Partition(0x00, 0xFFFFFE, 0x06, 0xFFFFFE, 133120, 131072)
    && PartitionAt(s, 2) == PartitionAt(s, 3) == Partition(0, 0, 0, 0, 0, 0)
    && Signed(s)
  }

  ghost predicate IsEfiBoot(s: Sector) {
    && BpbOf(s) == Bpb(512, 8, 32, 2, 0, 0, 0xF8, 0, 63, 255, 2048, 131072)
    && Bpb32Of(s) == Bpb32(128, 0, 0, 2, 1, 6)
    && Says(s, 3, "OXIDEOS ") && Says(s, 67, "OXIE") && Says(s, 71, "OXIDEEFI   ") && Says(s, 82, "FAT32   ")
    && s[0] == 0xEB && s[1] == 0x58 && s[2] == 0x90 && s[64] == 0x80 && s[66] == 0x29 && Signed(s)
    && s[65] == 0 && (forall i | 52 <= i < 64 || 90 <= i < 510 :: s[i] == 0)
  }

  ghost predicate IsFsInfo(s: Sector) {
    && Long(s, 0) == 0x41615252 && Long(s, 484) == 0x61417272
    && Long(s, 488) == 0xFFFF_FFFF && Long(s, 492) == 0xFFFF_FFFF && Signed(s)
    && (forall i | 4 <= i < 484 || 496 <= i < 510 :: s[i] == 0)
  }

  ghost predicate IsDataBoot(s: Sector) {
    && BpbOf(s) == Bpb(512, 64, 4, 2, 512, 0, 0xF8, 16, 63, 255, 133120, 131072)
    && Says(s, 3, "OXIDEOS ") && Says(s, 39, "DATA") && Says(s, 43, "OXIDEDATA  ") && Says(s, 54, "FAT16   ")
    && s[0] == 0xEB && s[1] == 0x3C && s[2] == 0x90 && s[36] == 0x80 && s[38] == 0x29 && Signed(s)
    && s[37] == 0 && (forall i | 62 <= i < 510 :: s[i] == 0)
  }

  // ----- where a reader that knows only these sectors looks -----

  function FirstFat(start: nat, b: Bpb): nat {
    start + b.reserved
  }

  function FirstData(start: nat, b: Bpb, fatSize: nat): nat {
    start + b.reserved + b.fats * fatSize + (b.rootEntries * 32 + 511) / 512
  }

  /** Following the boot sectors of the EFI partition leads to the tables and clusters the installer uses. */
  lemma EfiLeads(mbr: Sector, boot: Sector, bios: seq<Byte>)
    requires IsMbr(mbr, bios) && IsEfiBoot(boot)
    ensures var start, b, e := PartitionAt(mbr, 0).start, BpbOf(boot), Bpb32Of(boot);
      && start == EFI_PART_START && start + PartitionAt(mbr, 0).sectors == EFI_PART_END
      && FirstFat(start, b) == FAT32_FAT1_LBA && FirstFat(start, b) + e.fatSize == FAT32_FAT2_LBA
      && e.fatSize * b.bytesPerSector / 4 == FAT_ENTRIES && e.root == FAT32_ROOT_CLUSTER
      && b.sectorsPerCluster * b.bytesPerSector == CLUSTER_BYTES
      && (forall c | c >= 2 :: ClusterLba(c) == FirstData(start, b, e.fatSize) + (c - 2) * b.sectorsPerCluster)
  {
    hide Says, Signed, PartitionAt, BpbOf, Bpb32Of;
  }

  /** The number of clusters the EFI partition has room for is that of a FAT16 volume by the rule of the
      specification, which calls a volume FAT32 from 65525 clusters on. */
  lemma EfiClusterCount(boot: Sector)
    requires IsEfiBoot(boot)
    ensures var b := BpbOf(boot);
      var count := (b.sectors32 - (FirstData(0, b, Bpb32Of(boot).fatSize))) / b.sectorsPerCluster;
      count == 16348 && 4085 <= count < 65525
  {
    hide Says, Signed, PartitionAt, BpbOf, Bpb32Of;
  }

  lemma DataLeads(mbr: Sector, boot: Sector, bios: seq<Byte>)
    requires IsMbr(mbr, bios) && IsDataBoot(boot)
    ensures var start, b := PartitionAt(mbr, 1).start, BpbOf(boot);
      && start == DATA_PART_START && start + PartitionAt(mbr, 1).sectors == DATA_PART_END
      && FirstFat(start, b) == FAT16_FAT1_LBA && FirstFat(start, b) + b.fatSize16 == FAT16_FAT2_LBA
      && FirstFat(start, b) + b.fats * b.fatSize16 == FAT16_ROOT_LBA
      && FirstData(start, b, b.fatSize16) == FAT16_ROOT_LBA + FAT16_ROOT_SECTORS
  {
    hide Says, Signed, PartitionAt, BpbOf, Bpb32Of;
  }

  // ----- building -----

  /** `buf[off..].copy_from_slice(bytes)`, and runs of single assignments. */
  method Put(buf: array<Byte>, off: nat, bytes: seq<Byte>)
    requires off + |bytes| <= buf.Length
    modifies buf
    ensures forall i | 0 <= i < buf.Length :: buf[i] == if off <= i < off + |bytes| then bytes[i - off] else old(buf[i])
  {
    for k := 0 to |bytes|
      invariant forall i | 0 <= i < buf.Length :: buf[i] == if off <= i < off + k then bytes[i - off] else old(buf[i])
    {
      buf[off + k] := bytes[k];
    }
  }

  /** `write_part_entry`. */
  method PutPartition(buf: array<Byte>, k: nat, status: Byte, kind: Byte, start: nat, sectors: nat)
    requires buf.Length == SECTOR_BYTES && k < 4 && start < 0x1_0000_0000 && sectors < 0x1_0000_0000
    modifies buf
    ensures PartitionAt(buf[..], k) == Partition(status, 0xFFFFFE, kind, 0xFFFFFE, start, sectors)
    ensures forall i | 0 <= i < buf.Length && !(446 + 16 * k <= i < 462 + 16 * k) :: buf[i] == old(buf[i])
  {
    var off := 446 + 16 * k;
    Put(buf, off, [status, 0xFE, 0xFF, 0xFF, kind, 0xFE, 0xFF, 0xFF]);
    Put(buf, off + 8, Le32(start));
    Put(buf, off + 12, Le32(sectors));
    Le32RoundTrip(start);
    Le32RoundTrip(sectors);
  }

  /** The record `write_mbr` writes. */
  method MakeMbr(bios: seq<Byte>) returns (mbr: Sector)
    ensures IsMbr(mbr, bios)
  {
    hide PartitionAt, Signed;
    var buf := new Byte[SECTOR_BYTES](_ => 0);
    PutBootstrap(buf, bios);
    PutTable(buf);
    mbr := buf[..];
  }

  method PutBootstrap(buf: array<Byte>, bios: seq<Byte>)
    requires buf.Length == SECTOR_BYTES
    modifies buf
    ensures forall i | 0 <= i < 440 :: buf[i] == if i < |bios| then bios[i] else old(buf[i])
    ensures buf[440] == 0xDE && buf[441] == 0xAD && buf[442] == 0xBE && buf[443] == 0xEF && buf[444] == buf[445] == 0
    ensures forall i | 446 <= i < SECTOR_BYTES :: buf[i] == old(buf[i])
  {
    Put(buf, 0, bios[..Min(|bios|, 440)]);
    Put(buf, 440, [0xDE, 0xAD, 0xBE, 0xEF, 0, 0]);
  }

  method PutTable(buf: array<Byte>)
    requires buf.Length == SECTOR_BYTES && forall i | 446 <= i < SECTOR_BYTES :: buf[i] == 0
    modifies buf
    ensures forall i | 0 <= i < 446 :: buf[i] == old(buf[i])
    ensures PartitionAt(buf[..], 0) == Partition(0x80, 0xFFFFFE, 0xEF, 0xFFFFFE, 2048, 131072)
    ensures PartitionAt(buf[..], 1) == Partition(0x00, 0xFFFFFE, 0x06, 0xFFFFFE, 133120, 131072)
    ensures PartitionAt(buf[..], 2) == PartitionAt(buf[..], 3) == Partition(0, 0, 0, 0, 0, 0) && Signed(buf[..])
  {
    hide PartitionAt;
    PutPartition(buf, 0, 0x80, 0xEF, EFI_PART_START, EFI_PART_SECTORS);
    ghost var s0 := buf[..];
    PutPartition(buf, 1, 0x00, 0x06, DATA_PART_START, DATA_PART_SECTORS);
    ghost var s1 := buf[..];
    SamePartition(s1, s0, 0);
    Put(buf, 510, [0x55, 0xAA]);
    SamePartition(buf[..], s1, 0);
    SamePartition(buf[..], s1, 1);
    EmptyPartition(buf[..], 2);
    EmptyPartition(buf[..], 3);
  }

  lemma SamePartition(s: Sector, t: Sector, k: nat)
    requires k < 4 && forall i | 446 + 16 * k <= i < 462 + 16 * k :: s[i] == t[i]
    ensures PartitionAt(s, k) == PartitionAt(t, k)
  {
  }

  lemma EmptyPartition(s: Sector, k: nat)
    requires k < 4 && forall i | 446 + 16 * k <= i < 462 + 16 * k :: s[i] == 0
    ensures PartitionAt(s, k) == Partition(0, 0, 0, 0, 0, 0)
  {
  }

  /** What the boot sectors of both partitions have in common. */
  method PutBpb(buf: array<Byte>, jump: Byte, b: Bpb)
    requires buf.Length == SECTOR_BYTES && b.bytesPerSector < 65536 && b.sectorsPerCluster < 256 && b.reserved < 65536
    requires b.fats < 256 && b.rootEntries < 65536 && b.sectors16 < 65536 && b.media < 256 && b.fatSize16 < 65536
    requires b.perTrack == 63 && b.heads == 255 && b.hidden < 0x1_0000_0000 && b.sectors32 < 0x1_0000_0000
    modifies buf
    ensures BpbOf(buf[..]) == b && Says(buf[..], 3, "OXIDEOS ") && buf[0] == 0xEB && buf[1] == jump && buf[2] == 0x90
    ensures forall i | 36 <= i < buf.Length :: buf[i] == old(buf[i])
  {
    Put(buf, 0, [0xEB, jump, 0x90] + Ascii("OXIDEOS "));
    PutWords(buf, b);
    Put(buf, 0x18, [0x3F, 0x00, 0xFF, 0x00] + Le32(b.hidden) + Le32(b.sectors32));
    Le32RoundTrip(b.hidden);
    Le32RoundTrip(b.sectors32);
  }

  method PutWords(buf: array<Byte>, b: Bpb)
    requires buf.Length == SECTOR_BYTES && b.bytesPerSector < 65536 && b.sectorsPerCluster < 256 && b.reserved < 65536
    requires b.fats < 256 && b.rootEntries < 65536 && b.sectors16 < 65536 && b.media < 256 && b.fatSize16 < 65536
    modifies buf
    ensures var s: Sector := buf[..];
      && Word(s, 11) == b.bytesPerSector && s[13] == b.sectorsPerCluster && Word(s, 14) == b.reserved && s[16] == b.fats
      && Word(s, 17) == b.rootEntries && Word(s, 19) == b.sectors16 && s[21] == b.media && Word(s, 22) == b.fatSize16
    ensures forall i | 0 <= i < buf.Length && !(11 <= i < 24) :: buf[i] == old(buf[i])
  {
    Put(buf, 0x0B, Le16(b.bytesPerSector) + [b.sectorsPerCluster] + Le16(b.reserved) + [b.fats]);
    Put(buf, 0x11, Le16(b.rootEntries) + Le16(b.sectors16) + [b.media] + Le16(b.fatSize16));
  }

  /** Drive number, extended signature, serial number, name and type, one after another. */
  method PutLabel(buf: array<Byte>, off: nat, id: string, name: string, kind: string)
    requires buf.Length == SECTOR_BYTES && 36 <= off <= 64 && |id| == 4 && |name| == 11 && |kind| == 8
    requires forall k | 0 <= k < 4 :: id[k] < 128 as char
    requires forall k | 0 <= k < 11 :: name[k] < 128 as char
    requires forall k | 0 <= k < 8 :: kind[k] < 128 as char
    modifies buf
    ensures buf[off] == 0x80 && buf[off + 1] == 0 && buf[off + 2] == 0x29 && Says(buf[..], off + 3, id) && Says(buf[..], off + 7, name) && Says(buf[..], off + 18, kind)
    ensures Signed(buf[..])
    ensures forall i | 0 <= i < 510 && !(off <= i < off + 26) :: buf[i] == old(buf[i])
  {
    Put(buf, off, [0x80, 0x00, 0x29] + Ascii(id) + Ascii(name) + Ascii(kind));
    Put(buf, 0x1FE, [0x55, 0xAA]);
  }

  method PutBpb32(buf: array<Byte>)
    requires buf.Length == SECTOR_BYTES
    modifies buf
    ensures Bpb32Of(buf[..]) == Bpb32(128, 0, 0, 2, 1, 6)
    ensures forall i | 0 <= i < buf.Length && !(36 <= i < 52) :: buf[i] == old(buf[i])
  {
    assert Le32(FAT32_FAT_SIZE) == [128, 0, 0, 0];
    hide Le32;
    Put(buf, 0x24, Le32(FAT32_FAT_SIZE));
    Put(buf, 0x28, [0, 0, 0, 0, 0x02, 0, 0, 0]);
    Put(buf, 0x30, [0x01, 0, 0x06, 0]);
  }

  lemma SameBpb(s: Sector, t: Sector)
    requires forall i | 0 <= i < 36 :: s[i] == t[i]
    ensures BpbOf(s) == BpbOf(t) && (Says(t, 3, "OXIDEOS ") ==> Says(s, 3, "OXIDEOS "))
  {
  }

  lemma SameBpb32(s: Sector, t: Sector)
    requires forall i | 0 <= i < 64 :: s[i] == t[i]
    ensures Bpb32Of(s) == Bpb32Of(t)
  {
  }

  /** The boot sector `format_efi_partition` writes. */
  method MakeEfiBoot() returns (bpb: Sector)
    ensures IsEfiBoot(bpb)
  {
    hide BpbOf, Bpb32Of, Says;
    var buf := new Byte[SECTOR_BYTES](_ => 0);
    PutBpb(buf, 0x58, Bpb(512, FAT32_SPC, FAT32_RESERVED, FAT32_FAT_COUNT, 0, 0, 0xF8, 0, 63, 255, EFI_PART_START, EFI_PART_SECTORS));
    ghost var s0 := buf[..];
    PutBpb32(buf);
    ghost var s1 := buf[..];
    SameBpb(s1, s0);
    PutLabel(buf, 0x40, "OXIE", "OXIDEEFI   ", "FAT32   ");
    bpb := buf[..];
    SameBpb(bpb, s1);
    SameBpb32(bpb, s1);
  }

  /** The FSInfo sector `format_efi_partition` writes. */
  method MakeFsInfo() returns (fsi: Sector)
    ensures IsFsInfo(fsi)
  {
    var buf := new Byte[SECTOR_BYTES](_ => 0);
    Put(buf, 0, Le32(0x41615252));
    Put(buf, 484, Le32(0x61417272));
    Put(buf, 488, Le32(0xFFFF_FFFF));
    Put(buf, 492, Le32(0xFFFF_FFFF));
    Put(buf, 508, [0x00, 0x00, 0x55, 0xAA]);
    Le32RoundTrip(0x41615252);
    Le32RoundTrip(0x61417272);
    Le32RoundTrip(0xFFFF_FFFF);
    fsi := buf[..];
  }

  /** The boot sector `format_data_partition` writes. */
  method MakeDataBoot() returns (bpb: Sector)
    ensures IsDataBoot(bpb)
  {
    hide BpbOf, Says;
    var buf := new Byte[SECTOR_BYTES](_ => 0);
    PutBpb(buf, 0x3C, Bpb(512, FAT16_SPC, FAT16_RESERVED, FAT16_FAT_COUNT, FAT16_ROOT_ENTRIES, 0, 0xF8, FAT16_FAT_SIZE,
                          63, 255, DATA_PART_START, DATA_PART_SECTORS));
    ghost var s0 := buf[..];
    PutLabel(buf, 0x24, "DATA", "OXIDEDATA  ", "FAT16   ");
    bpb := buf[..];
    SameBpb(bpb, s0);
  }
}
