/** The four-step installation: format both partitions, write the boot files, and only then
    the master boot record. */
module Install {
  import opened Common
  import D = Disk
  import opened Fat32Layout
  import opened Fat32Volume
  import opened Fat32Image
  import opened Fat32Capacity
  import opened Installer
  import opened BootSectors
  import R = Fat32Reader

  /** The files linked into the kernel, and the kernel itself. */
  datatype Payload = Payload(bootx64: seq<Byte>, biosSys: seq<Byte>, conf: seq<Byte>, kernel: Option<seq<Byte>>)

  const EFI: Name := [0x45, 0x46, 0x49, 0x20, 0x20, 0x20, 0x20, 0x20, 0x20, 0x20, 0x20]
  const BOOT: Name := [0x42, 0x4F, 0x4F, 0x54, 0x20, 0x20, 0x20, 0x20, 0x20, 0x20, 0x20]
  const LIMINE: Name := [0x4C, 0x49, 0x4D, 0x49, 0x4E, 0x45, 0x20, 0x20, 0x20, 0x20, 0x20]
  const BOOTX64_EFI: Name := [0x42, 0x4F, 0x4F, 0x54, 0x58, 0x36, 0x34, 0x20, 0x45, 0x46, 0x49]
  const LIMINE_B_SYS: Name := [0x4C, 0x49, 0x4D, 0x49, 0x4E, 0x45, 0x2D, 0x42, 0x53, 0x59, 0x53]
  const LIMINE_CON: Name := [0x4C, 0x49, 0x4D, 0x49, 0x4E, 0x45, 0x20, 0x20, 0x43, 0x4F, 0x4E]
  const KERNEL: Name := [0x4B, 0x45, 0x52, 0x4E, 0x45, 0x4C, 0x20, 0x20, 0x20, 0x20, 0x20]

  /** A name and its extension, each padded with spaces, as a directory entry stores them. */
  function Name83(base: string, ext: string): (n: Name)
    requires |base| <= 8 && |ext| <= 3
    requires forall k | 0 <= k < |base| :: base[k] < 128 as char
    requires forall k | 0 <= k < |ext| :: ext[k] < 128 as char
  {
    Ascii(base) + seq(8 - |base|, _ => 0x20) + Ascii(ext) + seq(3 - |ext|, _ => 0x20)
  }

  lemma BootNames()
    ensures EFI == Name83("EFI", "") && BOOT == Name83("BOOT", "") && LIMINE == Name83("LIMINE", "")
    ensures BOOTX64_EFI == Name83("BOOTX64", "EFI") && LIMINE_B_SYS == Name83("LIMINE-B", "SYS")
    ensures LIMINE_CON == Name83("LIMINE", "CON") && KERNEL == Name83("KERNEL", "")
  {
  }

  lemma DotNames()
    ensures DOT == Name83(".", "") && DOT_DOT == Name83("..", "")
  {
  }

  /** The first FAT sector of a new volume: media byte, reserved entry, root directory. */
  function FirstFatSector(): (s: Sector) {
    D.Zeroed()[0 := 0xF8][1 := 0xFF][2 := 0xFF][3 := 0x0F]
              [4 := 0xFF][5 := 0xFF][6 := 0xFF][7 := 0x0F]
              [8 := 0xFF][9 := 0xFF][10 := 0xFF][11 := 0x0F]
  }

  function FirstFat16Sector(): (s: Sector) {
    D.Zeroed()[0 := 0xF8][1 := 0xFF][2 := 0xFF][3 := 0xFF]
  }

  // ----- formatting -----

  /** Loops such as `for s in 0..n { if !zero_sector(lba + s) { return false; } }`. */
  method ZeroSectors(disk: D.Disk, lba: nat, n: nat) returns (ok: bool)
    modifies disk
    ensures D.Confined(old(disk.sectors), old(disk.log), disk.sectors, disk.log, lba, lba + n)
    ensures ok && n > 0 ==> lba + n <= |disk.sectors|
    ensures ok ==> forall x | lba <= x < lba + n :: x < |disk.sectors| && disk.sectors[x] == D.Zeroed()
    ensures disk.Reliable() && lba + n <= |disk.sectors| ==> ok
  {
    ghost var img0, log0 := disk.sectors, disk.log;
    for s := 0 to n
      invariant D.Confined(img0, log0, disk.sectors, disk.log, lba, lba + n)
      invariant s > 0 ==> lba + s <= |disk.sectors|
      invariant forall x | lba <= x < lba + s :: x < |disk.sectors| && disk.sectors[x] == D.Zeroed()
    {
      ghost var img1, log1 := disk.sectors, disk.log;
      ok := disk.ZeroSector(lba + s);
      D.ConfinedTrans(img0, log0, img1, log1, disk.sectors, disk.log, lba, lba + n, lba + s, lba + s + 1, lba, lba + n);
      if !ok { return; }
    }
    ok := true;
  }

  ghost predicate Formatted(img: D.Image) {
    && Holds(img)
    && img[FAT32_FAT1_LBA] == FirstFatSector() && img[FAT32_FAT2_LBA] == FirstFatSector()
    && (forall x | FAT32_FAT1_LBA < x < FAT32_DATA_LBA && x != FAT32_FAT2_LBA :: img[x] == D.Zeroed())
    && (forall x | FAT32_DATA_LBA <= x < FAT32_DATA_LBA + FAT32_SPC :: img[x] == D.Zeroed())
  }

  lemma ZeroedEntry(img: D.Image, c: nat)
    requires Holds(img) && c < FAT_ENTRIES && img[FAT32_FAT1_LBA + c / SECTOR_ENTRIES] == D.Zeroed()
    ensures FatEntry(img, c) == 0
  {
  }

  lemma FirstSectorBytes(i: nat)
    requires i < 512
    ensures FirstFatSector()[i] ==
      if i == 0 then 0xF8 else if i >= 12 then 0 else if i == 3 || i == 7 || i == 11 then 0x0F else 0xFF
  {
  }

  lemma FirstSectorEntry(img: D.Image, c: nat)
    requires Holds(img) && c < SECTOR_ENTRIES && img[FAT32_FAT1_LBA] == FirstFatSector()
    ensures c == 2 ==> FatEntry(img, c) == END_OF_CHAIN
    ensures c > 2 ==> FatEntry(img, c) == 0
  {
    hide FirstFatSector;
    assert c / SECTOR_ENTRIES == 0 && c % SECTOR_ENTRIES == c;
    var off := 4 * c;
    FirstSectorBytes(off);
    FirstSectorBytes(off + 1);
    FirstSectorBytes(off + 2);
    FirstSectorBytes(off + 3);
  }

  lemma FormattedEntry(img: D.Image, c: nat)
    requires Formatted(img) && c < FAT_ENTRIES
    ensures c == 2 ==> FatEntry(img, c) == END_OF_CHAIN
    ensures c > 2 ==> FatEntry(img, c) == 0
  {
    hide FatEntry, FirstFatSector;
    if c >= SECTOR_ENTRIES {
      var lba := FAT32_FAT1_LBA + c / SECTOR_ENTRIES;
      assert FAT32_FAT1_LBA < lba < FAT32_FAT2_LBA;
      ZeroedEntry(img, c);
    } else {
      FirstSectorEntry(img, c);
    }
  }

  /** A formatted partition holds the empty volume. */
  lemma FormattedIsEmpty(img: D.Image)
    requires Formatted(img)
    ensures Represents(img, EMPTY_VOLUME)
  {
    hide FatEntry, AllLinked;
    EmptyWellFormed();
    forall c | 2 <= c < FAT_ENTRIES ensures FatEntry(img, c) == if c == 2 then END_OF_CHAIN else 0 {
      FormattedEntry(img, c);
    }
    forall k | 0 <= k < DIR_SLOTS ensures Slot(img, 2, k) == Zeros(SLOT_BYTES) {
      assert img[ClusterLba(2) + k / 16] == D.Zeroed();
    }
  }

  /** Boot sector, FSInfo sector and backup boot sector, the rest of the reserved area zero. */
  ghost predicate ReservedArea(img: D.Image)
    requires Holds(img)
  {
    && IsEfiBoot(img[EFI_PART_START]) && img[EFI_PART_START + 6] == img[EFI_PART_START]
    && IsFsInfo(img[EFI_PART_START + 1])
    && forall x | EFI_PART_START + 1 < x < FAT32_FAT1_LBA && x != EFI_PART_START + 6 :: img[x] == D.Zeroed()
  }

  /** `format_efi_partition`. */
  method FormatEfiPartition(disk: D.Disk) returns (ok: bool)
    modifies disk
    ensures D.Confined(old(disk.sectors), old(disk.log), disk.sectors, disk.log, EFI_PART_START, EFI_PART_END)
    ensures ok && Holds(disk.sectors) ==> Represents(disk.sectors, EMPTY_VOLUME)
    ensures ok && Holds(disk.sectors) ==> ReservedArea(disk.sectors)
    ensures disk.Reliable() && Holds(disk.sectors) ==> ok
  {
    hide Represents, FirstFatSector, IsEfiBoot, IsFsInfo;
    ok := ZeroSectors(disk, EFI_PART_START, FAT32_RESERVED);
    if !ok { return; }
    var bpb := MakeEfiBoot();
    ok := disk.WriteSector(EFI_PART_START, bpb);
    if !ok { return; }
    var fsi := MakeFsInfo();
    ok := disk.WriteSector(EFI_PART_START + 1, fsi);
    if !ok { return; }
    ok := disk.WriteSector(EFI_PART_START + 6, bpb);
    if !ok { return; }
    ok := FormatTables(disk);
  }

  /** The second half of `format_efi_partition`: both FAT copies and the root directory. */
  method FormatTables(disk: D.Disk) returns (ok: bool)
    modifies disk
    ensures D.Confined(old(disk.sectors), old(disk.log), disk.sectors, disk.log, FAT32_FAT1_LBA, EFI_PART_END)
    ensures ok && Holds(disk.sectors) ==> Represents(disk.sectors, EMPTY_VOLUME)
    ensures disk.Reliable() && Holds(disk.sectors) ==> ok
  {
    hide Represents, FirstFatSector;
    ok := ZeroSectors(disk, FAT32_FAT1_LBA, FAT32_FAT_SIZE);
    if !ok { return; }
    ok := ZeroSectors(disk, FAT32_FAT2_LBA, FAT32_FAT_SIZE);
    if !ok { return; }
    ok := disk.WriteSector(FAT32_FAT1_LBA, FirstFatSector());
    if !ok { return; }
    ok := disk.WriteSector(FAT32_FAT2_LBA, FirstFatSector());
    if !ok { return; }
    ok := ZeroSectors(disk, ClusterLba(FAT32_ROOT_CLUSTER), FAT32_SPC);
    if ok && Holds(disk.sectors) { FormattedIsEmpty(disk.sectors); }
  }

  /** An empty FAT16 volume: two equal FAT copies with the two reserved entries, no root entries. */
  ghost predicate DataFormatted(img: D.Image) {
    && DATA_PART_END <= |img|
    && IsDataBoot(img[DATA_PART_START])
    && img[FAT16_FAT1_LBA] == FirstFat16Sector() && img[FAT16_FAT2_LBA] == FirstFat16Sector()
    && forall x | DATA_PART_START < x < FAT16_ROOT_LBA + FAT16_ROOT_SECTORS
                  && x != FAT16_FAT1_LBA && x != FAT16_FAT2_LBA :: img[x] == D.Zeroed()
  }

  /** Entry `k` of a FAT16 copy that starts at sector `fat`. */
  function Fat16Entry(img: D.Image, fat: nat, k: nat): nat
    requires k < 4096 && fat + 16 <= |img|
  {
    Word(img[fat + k / 256], 2 * (k % 256))
  }

  lemma Fat16Bytes(i: nat)
    requires i < 512
    ensures FirstFat16Sector()[i] == if i == 0 then 0xF8 else if i < 4 then 0xFF else 0
  {
  }

  lemma Fat16EntryIs(img: D.Image, fat: nat, k: nat)
    requires fat + 16 <= |img| && k < 4096 && img[fat] == FirstFat16Sector()
    requires forall x | fat < x < fat + 16 :: img[x] == D.Zeroed()
    ensures Fat16Entry(img, fat, k) == if k == 0 then 0xFFF8 else if k == 1 then 0xFFFF else 0
  {
    hide FirstFat16Sector;
    if k < 256 {
      assert k / 256 == 0 && k % 256 == k;
      Fat16Bytes(2 * k);
      Fat16Bytes(2 * k + 1);
    }
  }

  /** Read as FAT16, the data partition has the two reserved entries, every other entry free, in both copies,
      and an empty root directory. */
  lemma DataReads(img: D.Image)
    requires DataFormatted(img)
    ensures forall k | 0 <= k < 4096 ::
      Fat16Entry(img, FAT16_FAT1_LBA, k) == Fat16Entry(img, FAT16_FAT2_LBA, k)
        == if k == 0 then 0xFFF8 else if k == 1 then 0xFFFF else 0
    ensures forall k | 0 <= k < 512 :: img[FAT16_ROOT_LBA + k / 16][k % 16 * 32] == 0
  {
    hide FirstFat16Sector, Fat16Entry, IsDataBoot;
    forall k | 0 <= k < 4096
      ensures Fat16Entry(img, FAT16_FAT1_LBA, k) == if k == 0 then 0xFFF8 else if k == 1 then 0xFFFF else 0
      ensures Fat16Entry(img, FAT16_FAT2_LBA, k) == if k == 0 then 0xFFF8 else if k == 1 then 0xFFFF else 0
    {
      Fat16EntryIs(img, FAT16_FAT1_LBA, k);
      Fat16EntryIs(img, FAT16_FAT2_LBA, k);
    }
    forall k | 0 <= k < 512 ensures img[FAT16_ROOT_LBA + k / 16][k % 16 * 32] == 0 {
      assert img[FAT16_ROOT_LBA + k / 16] == D.Zeroed();
    }
  }

  /** The loop of `format_data_partition` that clears both FAT copies sector by sector. */
  method ZeroFat16Copies(disk: D.Disk) returns (ok: bool)
    modifies disk
    ensures D.Confined(old(disk.sectors), old(disk.log), disk.sectors, disk.log, FAT16_FAT1_LBA, FAT16_ROOT_LBA)
    ensures ok ==> FAT16_ROOT_LBA <= |disk.sectors|
    ensures ok ==> forall x | FAT16_FAT1_LBA <= x < FAT16_ROOT_LBA :: disk.sectors[x] == D.Zeroed()
    ensures disk.Reliable() && FAT16_ROOT_LBA <= |disk.sectors| ==> ok
  {
    ghost var img0, log0 := disk.sectors, disk.log;
    for s := 0 to FAT16_FAT_SIZE
      invariant D.Confined(img0, log0, disk.sectors, disk.log, FAT16_FAT1_LBA, FAT16_ROOT_LBA)
      invariant s > 0 ==> FAT16_FAT2_LBA + s <= |disk.sectors|
      invariant forall x | FAT16_FAT1_LBA <= x < FAT16_FAT1_LBA + s :: disk.sectors[x] == D.Zeroed()
      invariant forall x | FAT16_FAT2_LBA <= x < FAT16_FAT2_LBA + s :: disk.sectors[x] == D.Zeroed()
    {
      ok := disk.ZeroSector(FAT16_FAT1_LBA + s);
      if !ok { return; }
      ok := disk.ZeroSector(FAT16_FAT2_LBA + s);
      if !ok { return; }
    }
    ok := true;
  }

  /** `format_data_partition`. */
  method FormatDataPartition(disk: D.Disk) returns (ok: bool)
    modifies disk
    ensures D.Confined(old(disk.sectors), old(disk.log), disk.sectors, disk.log, DATA_PART_START, DATA_PART_END)
    ensures ok && DATA_PART_END <= |disk.sectors| ==> DataFormatted(disk.sectors)
    ensures disk.Reliable() && DATA_PART_END <= |disk.sectors| ==> ok
  {
    hide FirstFat16Sector, IsDataBoot;
    ok := ZeroSectors(disk, DATA_PART_START, FAT16_RESERVED);
    if !ok { return; }
    var bpb := MakeDataBoot();
    ok := disk.WriteSector(DATA_PART_START, bpb);
    if !ok { return; }
    ok := ZeroFat16Copies(disk);
    if !ok { return; }
    ok := disk.WriteSector(FAT16_FAT1_LBA, FirstFat16Sector());
    if !ok { return; }
    ok := disk.WriteSector(FAT16_FAT2_LBA, FirstFat16Sector());
    if !ok { return; }
    ok := ZeroSectors(disk, FAT16_ROOT_LBA, FAT16_ROOT_SECTORS);
  }

  // ----- boot files -----

  function BootCalls(p: Payload): (calls: seq<Call>)
    requires p.kernel.Some?
  {
    [Call([EFI, BOOT], BOOTX64_EFI, p.bootx64),
     Call([BOOT, LIMINE], LIMINE_B_SYS, p.biosSys),
     Call([BOOT, LIMINE], LIMINE_CON, p.conf),
     Call([BOOT], KERNEL, p.kernel.value)]
  }

  predicate HasKernel(p: Payload) {
    p.kernel.Some? && p.kernel.value != []
  }

  /** `write_boot_files`: stops at the first failure. */
  method WriteBootFiles(writer: Fat32Writer, p: Payload) returns (ok: bool)
    requires writer.Valid() && writer.vol == EMPTY_VOLUME
    modifies writer, writer.disk
    ensures D.Confined(old(writer.disk.sectors), old(writer.disk.log), writer.disk.sectors, writer.disk.log,
                       FAT32_FAT1_LBA, EFI_PART_END)
    ensures ok ==> HasKernel(p) && writer.Valid() && writer.vol == Run(EMPTY_VOLUME, BootCalls(p)) && AllSucceeded(BootCalls(p))
    ensures writer.disk.Reliable() && old(Represents(writer.disk.sectors, writer.vol)) ==>
      && (ok <==> HasKernel(p) && AllSucceeded(BootCalls(p)))
      && (ok ==> Represents(writer.disk.sectors, writer.vol))
  {
    hide Represents, Fat32Volume.WriteFile, DirsHold;
    ghost var kernel := if p.kernel.Some? then p else p.(kernel := Some([]));
    ghost var calls := BootCalls(kernel);
    BootCallsRun(kernel);
    ok := writer.WriteFile([EFI, BOOT], BOOTX64_EFI, p.bootx64);
    if !ok { return; }
    ok := writer.WriteFile([BOOT, LIMINE], LIMINE_B_SYS, p.biosSys);
    if !ok { return; }
    ok := writer.WriteFile([BOOT, LIMINE], LIMINE_CON, p.conf);
    if !ok { return; }
    if p.kernel.None? || p.kernel.value == [] { return false; }
    ok := writer.WriteFile([BOOT], KERNEL, p.kernel.value);
  }

  ghost predicate AllSucceeded(calls: seq<Call>) {
    forall i | 0 <= i < |calls| :: Succeeded(EMPTY_VOLUME, calls, i)
  }

  /** The run of the four calls, spelt out. */
  lemma BootCallsRun(p: Payload)
    requires p.kernel.Some?
    ensures var calls := BootCalls(p);
      var r1 := Fat32Volume.WriteFile(EMPTY_VOLUME, [EFI, BOOT], BOOTX64_EFI, p.bootx64);
      var r2 := Fat32Volume.WriteFile(r1.0, [BOOT, LIMINE], LIMINE_B_SYS, p.biosSys);
      var r3 := Fat32Volume.WriteFile(r2.0, [BOOT, LIMINE], LIMINE_CON, p.conf);
      var r4 := Fat32Volume.WriteFile(r3.0, [BOOT], KERNEL, p.kernel.value);
      && Run(EMPTY_VOLUME, calls) == r4.0
      && Run(EMPTY_VOLUME, calls[..1]) == r1.0
      && (AllSucceeded(calls) <==> r1.1 && r2.1 && r3.1 && r4.1)
  {
    hide Fat32Volume.WriteFile;
    var calls := BootCalls(p);
    assert calls[..4] == calls;
    assert calls[..4][..3] == calls[..3] && calls[..3][..2] == calls[..2];
    assert calls[..2][..1] == calls[..1] && calls[..1][..0] == calls[..0];
    assert Run(EMPTY_VOLUME, calls[..0]) == EMPTY_VOLUME;
    var r1 := Fat32Volume.WriteFile(EMPTY_VOLUME, [EFI, BOOT], BOOTX64_EFI, p.bootx64);
    assert Run(EMPTY_VOLUME, calls[..1]) == r1.0;
    var r2 := Fat32Volume.WriteFile(r1.0, [BOOT, LIMINE], LIMINE_B_SYS, p.biosSys);
    assert Run(EMPTY_VOLUME, calls[..2]) == r2.0;
    var r3 := Fat32Volume.WriteFile(r2.0, [BOOT, LIMINE], LIMINE_CON, p.conf);
    assert Run(EMPTY_VOLUME, calls[..3]) == r3.0;
    assert Succeeded(EMPTY_VOLUME, calls, 0) == r1.1;
    assert Succeeded(EMPTY_VOLUME, calls, 1) == r2.1;
    assert Succeeded(EMPTY_VOLUME, calls, 2) == r3.1;
    var r4 := Fat32Volume.WriteFile(r3.0, [BOOT], KERNEL, p.kernel.value);
    assert calls[3] == Call([BOOT], KERNEL, p.kernel.value);
    assert Succeeded(EMPTY_VOLUME, calls, 3) == r4.1;
    assert |calls| == 4 && calls[..|calls| - 1] == calls[..3];
    assert Run(EMPTY_VOLUME, calls) == r4.0;
  }

  lemma DiffersAt(a: seq<Name>, b: seq<Name>, k: nat)
    requires k < |a| && k < |b| && a[k] != b[k]
    ensures !(a <= b)
  {
  }

  lemma BootCallsValid(p: Payload)
    requires p.kernel.Some?
    ensures ValidCalls(BootCalls(p)) && NonClashing(BootCalls(p))
  {
    var calls := BootCalls(p);
    assert Full(calls[0]) == [EFI, BOOT, BOOTX64_EFI];
    assert Full(calls[1]) == [BOOT, LIMINE, LIMINE_B_SYS];
    assert Full(calls[2]) == [BOOT, LIMINE, LIMINE_CON];
    assert Full(calls[3]) == [BOOT, KERNEL];
    assert EFI[0] != BOOT[0] && LIMINE[0] != KERNEL[0] && LIMINE_B_SYS[6] != LIMINE_CON[6];
    forall i, j | 0 <= i < 4 && 0 <= j < 4 && i != j ensures !(Full(calls[i]) <= Full(calls[j])) {
      var k := if i == 0 || j == 0 then 0 else if i == 3 || j == 3 then 1 else 2;
      DiffersAt(Full(calls[i]), Full(calls[j]), k);
    }
  }

  /** Clusters needed by the four boot files and their four directories. */
  function BootClusters(p: Payload): nat
    requires p.kernel.Some?
  {
    4 + Span(|p.bootx64|) + Span(|p.biosSys|) + Span(|p.conf|) + Span(|p.kernel.value|)
  }

  lemma CallFits(v: Volume, path: seq<Name>, name: Name, data: seq<Byte>, n: nat)
    requires WellFormed(v) && Bounded(v, n) && 2 <= n <= 100 && |path| <= 2
    requires AllValid(path) && ValidName(name)
    ensures var (w, ok) := Fat32Volume.WriteFile(v, path, name, data);
      var used := Missing(v, FAT32_ROOT_CLUSTER, path) + Span(|data|);
      && WellFormed(w) && Extends(w, v) && Bounded(w, n + |path| + 1)
      && (ok <==> v.next + used <= MAX_CLUSTER + 1)
      && (ok ==> w.next == v.next + used)
  {
    hide WellFormed, Fat32Volume.WriteFile;
    WriteFileKeeps(v, path, name, data);
    WriteFileBounded(v, path, name, data, n);
    WriteFileFits(v, path, name, data);
  }

  /** The second call finds no directory of its path. */
  lemma SecondPathMissing(p: Payload)
    requires p.kernel.Some?
    ensures var v1 := Run(EMPTY_VOLUME, BootCalls(p)[..1]);
      FAT32_ROOT_CLUSTER in v1.dirs && Missing(v1, FAT32_ROOT_CLUSTER, [BOOT, LIMINE]) == 2
  {
    hide Run;
    var calls := BootCalls(p);
    BootCallsValid(p);
    var at := RunExplained(EMPTY_VOLUME, calls, 1);
    var v1 := Run(EMPTY_VOLUME, calls[..1]);
    var l := v1.dirs[FAT32_ROOT_CLUSTER];
    assert Full(calls[..1][0])[0] == EFI && EFI[0] != BOOT[0];
    forall i | 0 <= i < |l| && IsDirAttr(l[i].attr) && ValidName(l[i].name) ensures l[i].name != BOOT {
      assert FromCall(v1, at, calls[..1], FAT32_ROOT_CLUSTER, l[i]);
    }
    if FindDir(l, BOOT, 0).Some? {
      var i := FindDirIn(l, BOOT, 0);
      assert false;
    }
  }

  /** After the second call its path leads to a directory, whatever extends the volume. */
  lemma SecondPathStays(p: Payload, u: Volume, n: nat)
    requires p.kernel.Some? && n <= 2
    requires WellFormed(u)
    requires var r2 := SecondWrite(p); r2.1 && Extends(u, r2.0)
    ensures Missing(u, FAT32_ROOT_CLUSTER, [BOOT, LIMINE][..n]) == 0
  {
    hide Fat32Volume.WriteFile, Run, Missing, Resolve, Fresh;
    var calls := BootCalls(p);
    BootCallsValid(p);
    EmptyWellFormed();
    RunKeeps(EMPTY_VOLUME, calls, 1);
    var v1, v2 := Run(EMPTY_VOLUME, calls[..1]), SecondWrite(p).0;
    var c := calls[1];
    assert ValidCall(c);
    NonClashingFresh(calls, 1);
    FreshWriteReadBack(v1, c.path, c.name, c.data);
    WriteFileKeeps(v1, c.path, c.name, c.data);
    ResolveExtends(u, v2, FAT32_ROOT_CLUSTER, c.path);
    ResolvedMissing(u, FAT32_ROOT_CLUSTER, c.path, n);
  }

  function SecondWrite(p: Payload): (Volume, bool)
    requires p.kernel.Some?
  {
    Fat32Volume.WriteFile(Run(EMPTY_VOLUME, BootCalls(p)[..1]), [BOOT, LIMINE], LIMINE_B_SYS, p.biosSys)
  }

  /** The four calls succeed exactly when the clusters they need are no more than the allocator
      hands out. */
  lemma BootFilesFit(p: Payload)
    requires p.kernel.Some?
    ensures AllSucceeded(BootCalls(p)) <==> 3 + BootClusters(p) <= 16101
  {
    hide Fat32Volume.WriteFile, Missing, Span, Run, AllSucceeded, WellFormed, Extends;
    EmptyWellFormed();
    BootCallsRun(p);
    var v0 := EMPTY_VOLUME;
    var (v1, ok1) := Fat32Volume.WriteFile(v0, [EFI, BOOT], BOOTX64_EFI, p.bootx64);
    CallFits(v0, [EFI, BOOT], BOOTX64_EFI, p.bootx64, 2);
    EmptyMissing();
    var (v2, ok2) := Fat32Volume.WriteFile(v1, [BOOT, LIMINE], LIMINE_B_SYS, p.biosSys);
    CallFits(v1, [BOOT, LIMINE], LIMINE_B_SYS, p.biosSys, 5);
    SecondPathMissing(p);
    var (v3, ok3) := Fat32Volume.WriteFile(v2, [BOOT, LIMINE], LIMINE_CON, p.conf);
    CallFits(v2, [BOOT, LIMINE], LIMINE_CON, p.conf, 8);
    var (v4, ok4) := Fat32Volume.WriteFile(v3, [BOOT], KERNEL, p.kernel.value);
    CallFits(v3, [BOOT], KERNEL, p.kernel.value, 11);
    if ok2 {
      ExtendsRefl(v2);
      SecondPathStays(p, v2, 2);
      SecondPathStays(p, v3, 1);
      assert [BOOT, LIMINE][..2] == [BOOT, LIMINE] && [BOOT, LIMINE][..1] == [BOOT];
    }
  }

  lemma EmptyMissing()
    ensures Missing(EMPTY_VOLUME, FAT32_ROOT_CLUSTER, [EFI, BOOT]) == 2
  {
  }

  lemma ExtendsRefl(v: Volume)
    ensures Extends(v, v)
  {
  }

  // ----- the whole installation -----

  /** The volume does not depend on sectors outside its partition. */
  lemma RepresentsElsewhere(img1: D.Image, img0: D.Image, v: Volume)
    requires Represents(img0, v) && |img1| == |img0|
    requires forall lba | EFI_PART_START <= lba < EFI_PART_END :: img1[lba] == img0[lba]
    ensures Represents(img1, v)
  {
    hide AllLinked, Disjoint, SlotsHold, FileStored;
    forall c | 0 <= c < FAT_ENTRIES ensures FatEntry(img1, c) == FatEntry(img0, c) {
      assert FAT32_FAT1_LBA + c / SECTOR_ENTRIES < FAT32_FAT2_LBA;
    }
    DirsHoldFrame(img1, img0, v, v.next);
    FilesHoldFrame(img1, img0, v, v.next);
    assert v.(next := v.next) == v;
  }

  lemma ReservedElsewhere(img1: D.Image, img0: D.Image)
    requires Holds(img0) && |img1| == |img0| && ReservedArea(img0)
    requires forall lba | EFI_PART_START <= lba < FAT32_FAT1_LBA :: img1[lba] == img0[lba]
    ensures ReservedArea(img1)
  {
    hide IsEfiBoot, IsFsInfo;
  }

  lemma DataElsewhere(img1: D.Image, img0: D.Image)
    requires DataFormatted(img0) && |img1| == |img0|
    requires forall lba | DATA_PART_START <= lba < DATA_PART_END :: img1[lba] == img0[lba]
    ensures DataFormatted(img1)
  {
    hide IsDataBoot;
  }

  /** The reader finds all four boot files. */
  lemma BootFilesReadable(img: D.Image, p: Payload, i: nat)
    requires p.kernel.Some? && i < 4 && AllSucceeded(BootCalls(p))
    requires Represents(img, Run(EMPTY_VOLUME, BootCalls(p)))
    ensures var c := BootCalls(p)[i]; R.ReadFile(img, c.path, c.name) == Some(c.data)
  {
    hide Fat32Volume.WriteFile, Run, Represents, R.ReadFile, Read;
    BootCallsValid(p);
    NonClashingRunReadBack(BootCalls(p), i);
    R.ReadFileIsRead(img, Run(EMPTY_VOLUME, BootCalls(p)), BootCalls(p)[i].path, BootCalls(p)[i].name);
  }

  /** Everything a finished installation promises to a reader of the disk. */
  ghost predicate Installed(img: D.Image, p: Payload) {
    && HasKernel(p) && Holds(img) && IsMbr(img[0], p.biosSys)
    && R.ReadFile(img, [EFI, BOOT], BOOTX64_EFI) == Some(p.bootx64)
    && R.ReadFile(img, [BOOT, LIMINE], LIMINE_B_SYS) == Some(p.biosSys)
    && R.ReadFile(img, [BOOT, LIMINE], LIMINE_CON) == Some(p.conf)
    && R.ReadFile(img, [BOOT], KERNEL) == p.kernel
    && ReservedArea(img) && DataFormatted(img)
  }

  lemma BootFilesInstalled(img: D.Image, p: Payload)
    requires HasKernel(p) && AllSucceeded(BootCalls(p))
    requires Represents(img, Run(EMPTY_VOLUME, BootCalls(p)))
    requires IsMbr(img[0], p.biosSys) && ReservedArea(img) && DataFormatted(img)
    ensures Installed(img, p)
  {
    hide R.ReadFile, Run, ReservedArea, DataFormatted, IsMbr;
    BootFilesReadable(img, p, 0);
    BootFilesReadable(img, p, 1);
    BootFilesReadable(img, p, 2);
    BootFilesReadable(img, p, 3);
  }

  /** `do_install`, with `INSTALL_STEP` as a second result. `present` is whether there is a
      secondary disk; its size is read as a `u32`. */
  method DoInstall(disk: D.Disk, present: bool, p: Payload) returns (code: int, step: nat)
    modifies disk
    // a failed run has written only inside the two partitions
    ensures -5 <= code <= -1 ==>
      D.Confined(old(disk.sectors), old(disk.log), disk.sectors, disk.log, EFI_PART_START, DATA_PART_END)
    // otherwise the boot record was the very last write
    ensures code == 0 || code == -6 ==>
      && old(disk.log) < disk.log && disk.log[|disk.log| - 1] == 0
      && forall k | |old(disk.log)| <= k < |disk.log| - 1 :: EFI_PART_START <= disk.log[k] < DATA_PART_END
    ensures -6 <= code <= 0 && step == if code == 0 then 5 else if code == -1 then 0 else -code - 2
    ensures code == -1 <==> !present
    ensures code == -2 <==> present && |old(disk.sectors)| % 0x1_0000_0000 < TOTAL_SECTORS
    ensures code == 0 ==> HasKernel(p) && |disk.sectors| > 0 && IsMbr(disk.sectors[0], p.biosSys)
    // with sector I/O succeeding, the outcome is known beforehand
    ensures disk.Reliable() && code < -2 ==>
      code == -5 && !(HasKernel(p) && 3 + BootClusters(p) <= 16101)
    ensures disk.Reliable() && code == 0 ==>
      && 3 + BootClusters(p) <= 16101
      && Installed(disk.sectors, p)
  {
    hide Represents, Installed, ReservedArea, DataFormatted, AllSucceeded, DirsHold, Run, BootCalls, IsMbr;
    step := 0;
    if !present { return -1, step; }
    var secs := |disk.sectors| % 0x1_0000_0000;
    if secs < TOTAL_SECTORS { return -2, step; }
    step := 1;
    var ok := FormatEfiPartition(disk);
    if !ok { return -3, step; }
    step := 2;
    ghost var img1 := disk.sectors;
    ok := FormatDataPartition(disk);
    if !ok { return -4, step; }
    step := 3;
    ghost var img2 := disk.sectors;
    RepresentsElsewhere(img2, img1, EMPTY_VOLUME);
    ReservedElsewhere(img2, img1);
    RepresentsDirs(img2, EMPTY_VOLUME);
    var writer := new Fat32Writer(disk);
    ok := WriteBootFiles(writer, p);
    if p.kernel.Some? { BootFilesFit(p); }
    if !ok { return -5, step; }
    step := 4;
    ghost var img3 := disk.sectors;
    var mbr := MakeMbr(p.biosSys);
    ok := disk.WriteSector(0, mbr);
    if !ok { return -6, step; }
    step := 5;
    code := 0;
    if disk.Reliable() {
      RepresentsElsewhere(disk.sectors, img3, writer.vol);
      ReservedElsewhere(disk.sectors, img2);
      DataElsewhere(disk.sectors, img2);
      BootFilesInstalled(disk.sectors, p);
    }
  }
}
