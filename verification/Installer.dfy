/** The installer's FAT32 writer: cluster allocator, cluster chains in two FAT copies,
    8.3 directory entries, and files below directories made on demand. */
module Installer {
  import opened Common
  import D = Disk
  import opened Fat32Layout
  import opened Fat32Volume
  import opened Fat32Image

  type Sector = D.Sector

  // ----- bytes of a directory entry, as the code stores them -----

  /** Name, attribute, cluster and size written over the slot at `off`. */
  function StoreEnt(buf: Sector, off: nat, e: DirEnt): (r: Sector)
    requires off + SLOT_BYTES <= D.SECTOR_BYTES
  {
    var c := Le32(e.cluster);
    var z := Le32(e.size);
    var named: Sector := Patch(buf, off, e.name);
    named[off + 11 := e.attr][off + 20 := c[2]][off + 21 := c[3]][off + 26 := c[0]][off + 27 := c[1]]
      [off + 28 := z[0]][off + 29 := z[1]][off + 30 := z[2]][off + 31 := z[3]]
  }

  /** Over an all-zero slot that makes exactly the encoded entry. */
  lemma StoreEntIsPatch(buf: Sector, off: nat, e: DirEnt)
    requires off + SLOT_BYTES <= D.SECTOR_BYTES
    requires buf[off..off + SLOT_BYTES] == Zeros(SLOT_BYTES)
    ensures StoreEnt(buf, off, e) == Patch(buf, off, EncodeEnt(e))
  {
    var r, p := StoreEnt(buf, off, e), Patch(buf, off, EncodeEnt(e));
    forall i | 0 <= i < D.SECTOR_BYTES ensures r[i] == p[i] {
      if off <= i < off + SLOT_BYTES {
        assert buf[off..off + SLOT_BYTES][i - off] == 0;
        StoreEntByte(buf, off, e, i - off);
      }
    }
  }

  lemma StoreEntByte(buf: Sector, off: nat, e: DirEnt, k: nat)
    requires off + SLOT_BYTES <= D.SECTOR_BYTES && k < SLOT_BYTES
    requires buf[off + k] == 0
    ensures StoreEnt(buf, off, e)[off + k] == EncodeEnt(e)[k]
  {
  }

  lemma EntryBytes(buf: Sector, off: nat, value: nat)
    requires off + 4 <= D.SECTOR_BYTES
    ensures buf[off := value % 256][off + 1 := value / 256 % 256]
               [off + 2 := value / 256 / 256 % 256][off + 3 := value / 256 / 256 / 256 % 16]
            == Patch(buf, off, FatBytes(value))
  {
  }

  // ----- the stages of write_data, on images -----

  /** `img` is `img0` with `i` more clusters taken from `f` on. */
  ghost predicate Grown(img: D.Image, img0: D.Image, f: nat, i: nat)
    requires Holds(img0) && 2 <= f && f + i <= MAX_CLUSTER + 1
  {
    && |img| == |img0| && CopiesEqual(img) && FreeFrom(img, f + i)
    && SameDataBelow(img, img0, f) && SameFatBelow(img, img0, f)
  }

  /** The first `i` of `n` clusters from `f` on are chained, the last of them still open. */
  ghost predicate Chained(img: D.Image, f: nat, i: nat, n: nat)
    requires Holds(img) && 2 <= f && i <= n && f + i <= MAX_CLUSTER + 1
  {
    && (forall c | f <= c < f + i - 1 :: FatEntry(img, c) == c + 1)
    && (i > 0 ==> FatEntry(img, f + i - 1) == if i == n then END_OF_CHAIN else 0)
  }

  lemma AllocGrows(a: D.Image, img: D.Image, img0: D.Image, f: nat, i: nat, n: nat)
    requires Holds(img0) && 2 <= f && f + i <= MAX_CLUSTER && i < n
    requires Grown(img, img0, f, i) && Chained(img, f, i, n)
    requires |a| == |img| && CopiesEqual(a)
    requires OnlyEntryChanged(a, img, f + i, if i == n - 1 then END_OF_CHAIN else 0)
    ensures Grown(a, img0, f, i + 1)
    ensures i == 0 ==> Chained(a, f, 1, n)
    ensures i > 0 ==> Chained(a, f, i, n)
    ensures FatEntry(a, f + i) == if i == n - 1 then END_OF_CHAIN else 0
  {
  }

  lemma LinkChains(b: D.Image, a: D.Image, img0: D.Image, f: nat, i: nat, n: nat)
    requires Holds(img0) && 2 <= f && f + i <= MAX_CLUSTER && 0 < i < n
    requires Grown(a, img0, f, i + 1) && Chained(a, f, i, n)
    requires FatEntry(a, f + i) == if i == n - 1 then END_OF_CHAIN else 0
    requires |b| == |a| && CopiesEqual(b)
    requires OnlyEntryChanged(b, a, f + i - 1, f + i)
    ensures Grown(b, img0, f, i + 1) && Chained(b, f, i + 1, n)
  {
  }

  /** Bytes written to cluster `f + i` extend the data and leave everything else alone. */
  lemma ChunkGrows(c: D.Image, b: D.Image, img0: D.Image, f: nat, i: nat, n: nat)
    requires Holds(img0) && 2 <= f && f + i <= MAX_CLUSTER && i < n
    requires Grown(b, img0, f, i + 1) && Chained(b, f, i + 1, n)
    requires |c| == |b| && OnlyClusterChanged(c, b, f + i)
    requires forall lba | 0 <= lba < FAT32_DATA_LBA :: c[lba] == b[lba]
    ensures Grown(c, img0, f, i + 1) && Chained(c, f, i + 1, n)
  {
  }

  lemma ChunkBytes(c: D.Image, b: D.Image, f: nat, i: nat, data: seq<Byte>, chunk: seq<Byte>)
    requires Holds(b) && 2 <= f && f + i <= MAX_CLUSTER && |c| == |b|
    requires i * CLUSTER_BYTES + |chunk| <= |data| && |chunk| <= CLUSTER_BYTES
    requires chunk == data[i * CLUSTER_BYTES..i * CLUSTER_BYTES + |chunk|]
    requires BytesAt(b, ClusterLba(f), data, i * CLUSTER_BYTES)
    requires forall lba | FAT32_DATA_LBA <= lba < ClusterLba(f + i) :: c[lba] == b[lba]
    requires BytesAt(c, ClusterLba(f + i), chunk, |chunk|)
    ensures BytesAt(c, ClusterLba(f), data, i * CLUSTER_BYTES + |chunk|)
  {
    var done := i * CLUSTER_BYTES;
    forall j | 0 <= j < done + |chunk| ensures c[ClusterLba(f) + j / 512][j % 512] == data[j] {
      if j < done {
        assert j / 512 < 8 * i;
        assert b[ClusterLba(f) + j / 512][j % 512] == data[j];
      } else {
        var k := j - done;
        assert j / 512 == 8 * i + k / 512 && j % 512 == k % 512;
        assert c[ClusterLba(f + i) + k / 512][k % 512] == chunk[k];
      }
    }
  }

  /** After `i` of its `n` clusters: chained, and holding as much of `data` as fits. */
  ghost predicate Stage(img: D.Image, img0: D.Image, f: nat, i: nat, n: nat, data: seq<Byte>)
    requires Holds(img0) && 2 <= f && i <= n && f + i <= MAX_CLUSTER + 1
  {
    && Grown(img, img0, f, i) && Chained(img, f, i, n)
    && BytesAt(img, ClusterLba(f), data, Min(i * CLUSTER_BYTES, |data|))
  }

  /** The FAT after one round of the loop: cluster `c` taken and the previous one linked to it. */
  function Linking(img: D.Image, c: nat, prev: nat, isLast: bool): (r: D.Image)
    requires EFI_PART_END <= |img| && c <= MAX_CLUSTER && prev <= MAX_CLUSTER
  {
    var a := FatUpdate(img, c, if isLast then END_OF_CHAIN else 0);
    if prev != 0 then FatUpdate(a, prev, c) else a
  }

  lemma LinkingStage(img: D.Image, img0: D.Image, f: nat, i: nat, n: nat)
    requires Holds(img0) && 2 <= f && i < n && f + i <= MAX_CLUSTER
    requires Grown(img, img0, f, i) && Chained(img, f, i, n)
    ensures var b := Linking(img, f + i, if i == 0 then 0 else f + i - 1, i == n - 1);
      && |b| == |img| && Grown(b, img0, f, i + 1) && Chained(b, f, i + 1, n)
      && (forall lba | FAT32_DATA_LBA <= lba < |img| :: b[lba] == img[lba])
  {
    hide FatUpdate, FatEntry;
    var val := if i == n - 1 then END_OF_CHAIN else 0;
    FatUpdateSpec(img, f + i, val);
    var a := FatUpdate(img, f + i, val);
    AllocGrows(a, img, img0, f, i, n);
    if i > 0 {
      FatUpdateSpec(a, f + i - 1, f + i);
      LinkChains(FatUpdate(a, f + i - 1, f + i), a, img0, f, i, n);
    }
  }

  lemma NextStage(c: D.Image, img: D.Image, img0: D.Image, f: nat, i: nat, n: nat, data: seq<Byte>, chunk: seq<Byte>)
    requires Holds(img0) && 2 <= f && i < n && f + i <= MAX_CLUSTER
    requires Stage(img, img0, f, i, n, data)
    requires i * CLUSTER_BYTES < |data| && chunk == data[i * CLUSTER_BYTES..Min((i + 1) * CLUSTER_BYTES, |data|)]
    requires |c| == |img| && BytesAt(c, ClusterLba(f + i), chunk, |chunk|)
    requires Outside(c, Linking(img, f + i, if i == 0 then 0 else f + i - 1, i == n - 1), f + i)
    ensures Stage(c, img0, f, i + 1, n, data)
  {
    hide FatEntry, FatUpdate, Linking;
    LinkingStage(img, img0, f, i, n);
    var b := Linking(img, f + i, if i == 0 then 0 else f + i - 1, i == n - 1);
    OutsideOnlyCluster(c, b, f + i);
    ChunkGrows(c, b, img0, f, i, n);
    assert BytesAt(b, ClusterLba(f), data, i * CLUSTER_BYTES);
    ChunkBytes(c, b, f, i, data, chunk);
  }

  /** The images agree outside cluster `d`. */
  ghost predicate Outside(c: D.Image, b: D.Image, d: nat)
    requires 2 <= d <= MAX_CLUSTER
  {
    && |c| == |b|
    && forall lba | 0 <= lba < |b| && !(ClusterLba(d) <= lba < ClusterLba(d) + 8) :: c[lba] == b[lba]
  }

  lemma OutsideOnlyCluster(c: D.Image, b: D.Image, d: nat)
    requires 2 <= d <= MAX_CLUSTER && Holds(b) && Outside(c, b, d)
    ensures OnlyClusterChanged(c, b, d) && (CopiesEqual(b) ==> CopiesEqual(c))
  {
    forall x | 0 <= x < FAT_ENTRIES ensures FatEntry(c, x) == FatEntry(b, x) {}
  }

  /** All clusters written: the image holds the new file. */
  lemma LastStage(img: D.Image, img0: D.Image, v: Volume, data: seq<Byte>)
    requires v.next + Span(|data|) <= MAX_CLUSTER + 1 && Represents(img0, v)
    requires Stage(img, img0, v.next, Span(|data|), Span(|data|), data)
    ensures Represents(img, Store(v, data).0)
  {
    hide FatEntry, Slot, ClusterLba, AllLinked, Disjoint;
    var n := Span(|data|);
    DirsHoldFrame(img, img0, v, v.next + n);
    FilesHoldFrame(img, img0, v, v.next + n);
    StoreHolds(img, v, data);
  }

  lemma EmptyStage(img: D.Image, img0: D.Image, v: Volume)
    requires v.next <= MAX_CLUSTER && Represents(img0, v)
    requires img == FatUpdate(img0, v.next, END_OF_CHAIN)
    ensures Represents(img, Store(v, []).0)
  {
    hide FatEntry, FatUpdate, SlotsHold, AllLinked, Disjoint;
    FatUpdateSpec(img0, v.next, END_OF_CHAIN);
    assert Stage(img, img0, v.next, 1, 1, []);
    LastStage(img, img0, v, []);
  }

  lemma RepresentsDirs(img: D.Image, v: Volume)
    requires Represents(img, v)
    ensures DirsHold(img, v)
  {
  }

  lemma FirstStage(img0: D.Image, v: Volume, n: nat, data: seq<Byte>)
    requires Represents(img0, v)
    ensures Stage(img0, img0, v.next, 0, n, data)
  {
  }

  /** Out of clusters: the ones taken are lost, nothing else has changed. */
  lemma LostStage(img: D.Image, img0: D.Image, v: Volume, i: nat, n: nat, data: seq<Byte>)
    requires v.next + i == MAX_CLUSTER + 1 && i < n == Span(|data|) && Represents(img0, v)
    requires Stage(img, img0, v.next, i, n, data)
    ensures Store(v, data) == (v.(next := MAX_CLUSTER + 1), None) && Represents(img, Store(v, data).0)
  {
    hide FatEntry, Slot, ClusterLba, AllLinked, Disjoint;
    DirsHoldFrame(img, img0, v, MAX_CLUSTER + 1);
    FilesHoldFrame(img, img0, v, MAX_CLUSTER + 1);
  }

  // ----- directories -----

  /** A slot looks unused exactly from the end of the entry list on. */
  lemma FreeSlot(img: D.Image, v: Volume, d: nat, k: nat)
    requires DirsHold(img, v) && d in v.dirs && k < DIR_SLOTS
    ensures k < |v.dirs[d]| ==> Slot(img, d, k)[0] != 0x00 && Slot(img, d, k)[0] != 0xE5
    ensures k < |v.dirs[d]| ==> DecodeEnt(Slot(img, d, k)) == v.dirs[d][k]
    ensures k >= |v.dirs[d]| ==> Slot(img, d, k) == Zeros(SLOT_BYTES)
  {
    if k < |v.dirs[d]| {
      assert Linked(v, d, v.dirs[d][k]);
      DirEntRoundTrip(v.dirs[d][k]);
    }
  }

  /** What the code sees of slot `slot` in the buffer of sector `s` of a directory. */
  ghost predicate Shows(buf: Sector, off: nat, l: seq<DirEnt>, k: nat)
    requires off + 32 <= D.SECTOR_BYTES
  {
    && (k < |l| ==> && buf[off] != 0x00 && buf[off] != 0xE5 && buf[off + 11] == l[k].attr
                    && buf[off..off + 11] == l[k].name
                    && FromLe32(buf[off + 26], buf[off + 27], buf[off + 20], buf[off + 21]) == l[k].cluster)
    && (k >= |l| ==> buf[off] == 0x00 && buf[off..off + 32] == Zeros(SLOT_BYTES))
  }

  lemma SlotShows(img: D.Image, v: Volume, d: nat, s: nat, slot: nat)
    requires DirsHold(img, v) && d in v.dirs && s < 8 && slot < 16
    ensures Shows(img[ClusterLba(d) + s], slot * 32, v.dirs[d], 16 * s + slot)
  {
    hide AllLinked, Disjoint, SlotsHold;
    var k := 16 * s + slot;
    var buf, off := img[ClusterLba(d) + s], slot * 32;
    FreeSlot(img, v, d, k);
    var bytes := Slot(img, d, k);
    assert bytes == buf[off..off + 32];
    assert forall i | 0 <= i < 32 :: bytes[i] == buf[off + i];
    assert bytes[..11] == buf[off..off + 11];
  }

  /** Storing an entry in the first unused slot appends it to the directory. */
  lemma SlotFilled(img: D.Image, v: Volume, d: nat, s: nat, slot: nat, e: DirEnt)
    requires DirsHold(img, v) && d in v.dirs && s < 8 && slot < 16 && 16 * s + slot == |v.dirs[d]|
    requires Linked(v, d, e)
    ensures var lba := ClusterLba(d) + s;
      var r, w := img[lba := StoreEnt(img[lba], slot * 32, e)], Append(v, d, e).0;
      DirsHold(r, w) && (FilesHold(img, v) ==> FilesHold(r, w))
  {
    hide AllLinked, Disjoint, FilesHold, StoreEnt, EncodeEnt, SlotsHold;
    SlotShows(img, v, d, s, slot);
    StoreEntIsPatch(img[ClusterLba(d) + s], slot * 32, e);
    AppendHolds(img, v, d, e);
  }

  /** Slot 0 and 1 of a directory that was cleared and given its dot entries. */
  lemma DotSlots(img: D.Image, c: nat, parent: nat)
    requires Holds(img) && 2 <= c <= MAX_CLUSTER
    requires img[ClusterLba(c)] == DotSector(c, parent)
    requires forall lba | ClusterLba(c) < lba < ClusterLba(c) + 8 :: img[lba] == D.Zeroed()
    ensures SlotsHold(img, c, DotEntries(c, parent))
  {
    hide DotSector, EncodeEnt;
    var l := DotEntries(c, parent);
    forall k | 0 <= k < DIR_SLOTS
      ensures Slot(img, c, k) == if k < 2 then EncodeEnt(l[k]) else Zeros(SLOT_BYTES)
    {
      if k < 16 { DotSlot(c, parent, k); }
    }
  }

  /** The first sector of a new directory; sizes stay zero. */
  function DotSector(c: nat, parent: nat): (r: Sector) {
    StoreEnt(StoreEnt(D.Zeroed(), 0, DirEnt(DOT, ATTR_DIRECTORY, c, 0)), 32, DirEnt(DOT_DOT, ATTR_DIRECTORY, parent, 0))
  }

  lemma DotSlot(c: nat, parent: nat, k: nat)
    requires k < 16
    ensures DotSector(c, parent)[k * 32..k * 32 + 32] ==
            if k < 2 then EncodeEnt(DotEntries(c, parent)[k]) else Zeros(SLOT_BYTES)
  {
    hide StoreEnt, EncodeEnt;
    var dot, dotdot := DotEntries(c, parent)[0], DotEntries(c, parent)[1];
    assert D.Zeroed()[0..32] == Zeros(32);
    StoreEntIsPatch(D.Zeroed(), 0, dot);
    var first := StoreEnt(D.Zeroed(), 0, dot);
    assert first[32..64] == Zeros(32);
    StoreEntIsPatch(first, 32, dotdot);
  }

  /** A new directory's cluster, written and registered in the FAT. */
  lemma NewDirStage(img: D.Image, img0: D.Image, v: Volume, parent: nat)
    requires DirsHold(img0, v) && v.next <= MAX_CLUSTER && parent in v.dirs
    requires |img| == |img0| && SameDataBelow(img, img0, v.next)
    requires SlotsHold(img, v.next, DotEntries(v.next, parent))
    ensures DirsHold(img, NewDir(v, parent))
    ensures Represents(img0, v) && Outside(img, FatUpdate(img0, v.next, END_OF_CHAIN), v.next)
            ==> Represents(img, NewDir(v, parent))
  {
    hide FatEntry, FatUpdate, SlotsHold, AllLinked, Disjoint;
    DirsHoldFrame(img, img0, v, v.next + 1);
    NewDirHolds(img, v, parent);
    if Represents(img0, v) && Outside(img, FatUpdate(img0, v.next, END_OF_CHAIN), v.next) {
      FatUpdateSpec(img0, v.next, END_OF_CHAIN);
      OutsideOnlyCluster(img, FatUpdate(img0, v.next, END_OF_CHAIN), v.next);
      FilesHoldFrame(img, img0, v, v.next + 1);
    }
  }

  class Fat32Writer {
    const disk: D.Disk
    var nextFree: nat

    /** The volume on the disk. */
    ghost var vol: Volume

    ghost predicate Valid()
      reads this, disk
    {
      nextFree == vol.next && DirsHold(disk.sectors, vol)
    }

    /** Nothing but the FATs and the clusters of the EFI partition has been written to. */
    twostate predicate WithinEfi()
      reads this, disk
    {
      D.Confined(old(disk.sectors), old(disk.log), disk.sectors, disk.log, FAT32_FAT1_LBA, EFI_PART_END)
    }

    constructor (disk: D.Disk)
      requires DirsHold(disk.sectors, EMPTY_VOLUME)
      ensures this.disk == disk && vol == EMPTY_VOLUME && Valid()
    {
      this.disk := disk;
      nextFree := 3;
      vol := EMPTY_VOLUME;
    }

    /** `fat32_write_entry`: results of reading and writing are ignored. */
    method WriteEntry(cluster: nat, value: nat)
      requires cluster <= MAX_CLUSTER && value <= END_OF_CHAIN
      modifies disk
      ensures D.Confined(old(disk.sectors), old(disk.log), disk.sectors, disk.log, FAT32_FAT1_LBA, FAT32_DATA_LBA)
      ensures disk.Reliable() && old(Holds(disk.sectors)) ==>
        disk.sectors == FatUpdate(old(disk.sectors), cluster, value)
    {
      var byteOff := cluster * 4;
      var sectorOff := byteOff / 512;
      var byteInSec := byteOff % 512;
      assert sectorOff == cluster / SECTOR_ENTRIES && byteInSec == 4 * (cluster % SECTOR_ENTRIES);
      ghost var img0, log0 := disk.sectors, disk.log;
      var fatStarts := [FAT32_FAT1_LBA, FAT32_FAT2_LBA];
      for i := 0 to 2
        invariant D.Confined(img0, log0, disk.sectors, disk.log, FAT32_FAT1_LBA, FAT32_DATA_LBA)
        invariant disk.Reliable() && Holds(img0) ==>
          disk.sectors == if i == 0 then img0
                          else if i == 1 then CopyUpdate(img0, FAT32_FAT1_LBA, cluster, value)
                          else FatUpdate(img0, cluster, value)
      {
        var lba := fatStarts[i] + sectorOff;
        var buf: Sector := D.Zeroed();
        var _, read := disk.ReadSector(lba, buf);
        buf := read;
        buf := buf[byteInSec := value % 256][byteInSec + 1 := value / 256 % 256]
                  [byteInSec + 2 := value / 256 / 256 % 256][byteInSec + 3 := value / 256 / 256 / 256 % 16];
        EntryBytes(read, byteInSec, value);
        ghost var img1, log1 := disk.sectors, disk.log;
        var _ := disk.WriteSector(lba, buf);
        D.ConfinedTrans(img0, log0, img1, log1, disk.sectors, disk.log,
                        FAT32_FAT1_LBA, FAT32_DATA_LBA, lba, lba + 1, FAT32_FAT1_LBA, FAT32_DATA_LBA);
      }
    }

    /** `alloc_cluster`: the next cluster, until the limit is reached. */
    method AllocCluster(eoc: bool) returns (r: Option<nat>)
      modifies this`nextFree, disk
      ensures D.Confined(old(disk.sectors), old(disk.log), disk.sectors, disk.log, FAT32_FAT1_LBA, FAT32_DATA_LBA)
      ensures old(nextFree) > MAX_CLUSTER ==> r == None && nextFree == old(nextFree) && disk.sectors == old(disk.sectors)
      ensures old(nextFree) <= MAX_CLUSTER ==> r == Some(old(nextFree)) && nextFree == old(nextFree) + 1
      ensures disk.Reliable() && old(Holds(disk.sectors)) && r.Some? ==>
        disk.sectors == FatUpdate(old(disk.sectors), r.value, if eoc then END_OF_CHAIN else 0)
    {
      var c := nextFree;
      if c > MAX_CLUSTER { return None; }
      nextFree := nextFree + 1;
      var val := if eoc then END_OF_CHAIN else 0;
      WriteEntry(c, val);
      return Some(c);
    }

    /** The inner loop of `write_data`: one cluster's worth of bytes, sector by sector. */
    method WriteChunk(baseLba: nat, chunk: seq<Byte>) returns (ok: bool)
      requires 0 < |chunk| <= CLUSTER_BYTES
      modifies disk
      ensures D.Confined(old(disk.sectors), old(disk.log), disk.sectors, disk.log, baseLba, baseLba + 8)
      ensures ok ==> baseLba * 512 + |chunk| <= |disk.sectors| * 512 && BytesAt(disk.sectors, baseLba, chunk, |chunk|)
      ensures disk.Reliable() && baseLba + 8 <= |disk.sectors| ==> ok
    {
      ghost var img0, log0 := disk.sectors, disk.log;
      var chunkOff := 0;
      for s := 0 to 8
        invariant chunkOff == 512 * s < |chunk|
        invariant D.Confined(img0, log0, disk.sectors, disk.log, baseLba, baseLba + 8)
        invariant baseLba + s <= |disk.sectors| || s == 0
        invariant s > 0 ==> BytesAt(disk.sectors, baseLba, chunk, chunkOff)
      {
        var copyLen := Min(|chunk| - chunkOff, 512);
        var part := chunk[chunkOff..chunkOff + copyLen];
        var secBuf := Patch(D.Zeroed(), 0, part);
        chunkOff := chunkOff + copyLen;
        ghost var img1, log1 := disk.sectors, disk.log;
        ok := disk.WriteSector(baseLba + s, secBuf);
        D.ConfinedTrans(img0, log0, img1, log1, disk.sectors, disk.log,
                        baseLba, baseLba + 8, baseLba + s, baseLba + s + 1, baseLba, baseLba + 8);
        if !ok { return false; }
        forall j | 0 <= j < chunkOff ensures disk.sectors[baseLba + j / 512][j % 512] == chunk[j] {
          if j >= 512 * s { assert secBuf[j % 512] == part[j - 512 * s]; }
        }
        if chunkOff >= |chunk| { return true; }
      }
    }

    /** One round of the outer loop of `write_data`: take a cluster, link it, fill it. */
    method WriteCluster(prev: nat, isLast: bool, chunk: seq<Byte>) returns (r: Option<nat>)
      requires 2 <= nextFree && prev <= MAX_CLUSTER && 0 < |chunk| <= CLUSTER_BYTES && Holds(disk.sectors)
      modifies this`nextFree, disk
      ensures WithinEfi()
      ensures old(nextFree) > MAX_CLUSTER ==> r == None && nextFree == old(nextFree) && disk.sectors == old(disk.sectors)
      ensures old(nextFree) <= MAX_CLUSTER ==>
        && nextFree == old(nextFree) + 1
        && (r.Some? ==> r.value == old(nextFree))
        && SameDataBelow(disk.sectors, old(disk.sectors), old(nextFree))
      ensures disk.Reliable() && old(nextFree) <= MAX_CLUSTER ==>
        && r.Some?
        && Outside(disk.sectors, Linking(old(disk.sectors), old(nextFree), prev, isLast), old(nextFree))
        && BytesAt(disk.sectors, ClusterLba(old(nextFree)), chunk, |chunk|)
    {
      ghost var img0, log0 := disk.sectors, disk.log;
      r := AllocCluster(isLast);
      if r.None? { return; }
      ghost var img1, log1 := disk.sectors, disk.log;
      var c := r.value;
      if prev != 0 {
        WriteEntry(prev, c);
      }
      ghost var img2, log2 := disk.sectors, disk.log;
      D.ConfinedTrans(img0, log0, img1, log1, img2, log2, FAT32_FAT1_LBA, FAT32_DATA_LBA,
                      FAT32_FAT1_LBA, FAT32_DATA_LBA, FAT32_FAT1_LBA, FAT32_DATA_LBA);
      var ok := WriteChunk(ClusterLba(c), chunk);
      D.ConfinedTrans(img0, log0, img2, log2, disk.sectors, disk.log, FAT32_FAT1_LBA, FAT32_DATA_LBA,
                      ClusterLba(c), ClusterLba(c) + 8, FAT32_FAT1_LBA, EFI_PART_END);
      if !ok { r := None; }
    }

    /** `write_data`: a fresh chain of clusters holding `data`. */
    method WriteData(data: seq<Byte>) returns (r: Option<nat>)
      requires Valid()
      modifies this, disk
      ensures WithinEfi()
      ensures r.Some? ==> Valid() && (vol, r) == Store(old(vol), data)
      ensures disk.Reliable() && old(Represents(disk.sectors, vol)) ==>
        Valid() && Represents(disk.sectors, vol) && (vol, r) == Store(old(vol), data)
    {
      var numClusters := (|data| + CLUSTER_BYTES - 1) / CLUSTER_BYTES;
      if numClusters == 0 {
        r := StoreEmpty();
      } else {
        r := StoreBytes(data);
      }
    }

    /** The branch of `write_data` for an empty file. */
    method StoreEmpty() returns (r: Option<nat>)
      requires Valid()
      modifies this, disk
      ensures WithinEfi()
      ensures Valid() && (vol, r) == Store(old(vol), [])
      ensures disk.Reliable() && old(Represents(disk.sectors, vol)) ==> Represents(disk.sectors, vol)
    {
      hide FatEntry, FatUpdate, SlotsHold, AllLinked, Disjoint;
      ghost var img0, v := disk.sectors, vol;
      r := AllocCluster(true);
      vol := Store(v, []).0;
      if r.None? {
        assert vol == v;
        return;
      }
      DirsHoldFrame(disk.sectors, img0, v, v.next + 1);
      StoreHolds(disk.sectors, v, []);
      if disk.Reliable() && Represents(img0, v) {
        EmptyStage(disk.sectors, img0, v);
      }
    }

    /** The branch of `write_data` for a file with contents. */
    method StoreBytes(data: seq<Byte>) returns (r: Option<nat>)
      requires Valid() && data != []
      modifies this, disk
      ensures WithinEfi()
      ensures r.Some? ==> Valid() && (vol, r) == Store(old(vol), data)
      ensures disk.Reliable() && old(Represents(disk.sectors, vol)) ==>
        Valid() && Represents(disk.sectors, vol) && (vol, r) == Store(old(vol), data)
    {
      hide Represents, Stage, SlotsHold, AllLinked, Disjoint, Linking, Outside, BytesAt, FileStored;
      ghost var img0, log0, v := disk.sectors, disk.log, vol;
      ghost var good := disk.Reliable() && Represents(img0, v);
      var numClusters := (|data| + CLUSTER_BYTES - 1) / CLUSTER_BYTES;
      var firstCluster, prevCluster := 0, 0;
      var remaining := data;
      if good { FirstStage(img0, v, numClusters, data); }
      for i := 0 to numClusters
        invariant vol == v && nextFree == v.next + i <= MAX_CLUSTER + 1
        invariant i > 0 ==> firstCluster == v.next
        invariant prevCluster == if i == 0 then 0 else v.next + i - 1
        invariant i < numClusters ==> i * CLUSTER_BYTES < |data| && remaining == data[i * CLUSTER_BYTES..]
        invariant D.Confined(img0, log0, disk.sectors, disk.log, FAT32_FAT1_LBA, EFI_PART_END)
        invariant SameDataBelow(disk.sectors, img0, v.next)
        invariant good ==> Stage(disk.sectors, img0, v.next, i, numClusters, data)
      {
        var chunk := remaining[..Min(|remaining|, CLUSTER_BYTES)];
        ghost var img1, log1 := disk.sectors, disk.log;
        var c := WriteCluster(prevCluster, i == numClusters - 1, chunk);
        D.ConfinedTrans(img0, log0, img1, log1, disk.sectors, disk.log, FAT32_FAT1_LBA, EFI_PART_END,
                        FAT32_FAT1_LBA, EFI_PART_END, FAT32_FAT1_LBA, EFI_PART_END);
        if c.None? {
          vol := v.(next := MAX_CLUSTER + 1);
          if good {
            LostStage(disk.sectors, img0, v, i, numClusters, data);
            RepresentsDirs(disk.sectors, vol);
          }
          return None;
        }
        if i == 0 { firstCluster := c.value; }
        prevCluster := c.value;
        remaining := remaining[|chunk|..];
        if good { NextStage(disk.sectors, img1, img0, v.next, i, numClusters, data, chunk); }
      }
      vol := Store(v, data).0;
      if good { LastStage(disk.sectors, img0, v, data); }
      DirsHoldFrame(disk.sectors, img0, v, nextFree);
      StoreHolds(disk.sectors, v, data);
      return Some(firstCluster);
    }

    /** `add_dir_entry`: the first unused slot of the directory takes the entry. */
    method AddDirEntry(d: nat, e: DirEnt) returns (ok: bool)
      requires Valid() && d in vol.dirs && Linked(vol, d, e)
      modifies this`vol, disk
      ensures WithinEfi()
      ensures ok ==> Valid() && (vol, ok) == Append(old(vol), d, e)
      ensures disk.Reliable() ==> Valid() && (vol, ok) == Append(old(vol), d, e)
      ensures disk.Reliable() && old(Represents(disk.sectors, vol)) ==> Represents(disk.sectors, vol)
    {
      hide AllLinked, Disjoint, FilesHold, StoreEnt, SlotsHold, Linked;
      ghost var img0, log0 := disk.sectors, disk.log;
      var dirLba := ClusterLba(d);
      for s := 0 to 8
        invariant disk.sectors == img0 && disk.log == log0 && vol == old(vol)
        invariant 16 * s <= |vol.dirs[d]|
      {
        var lba := dirLba + s;
        var read, buf := disk.ReadSector(lba, D.Zeroed());
        if !read { return false; }
        for slot := 0 to 16
          invariant disk.sectors == img0 && disk.log == log0 && vol == old(vol)
          invariant 16 * s + slot <= |vol.dirs[d]|
        {
          var off := slot * 32;
          SlotShows(img0, vol, d, s, slot);
          if buf[off] == 0x00 || buf[off] == 0xE5 {
            SlotFilled(img0, vol, d, s, slot, e);
            ok := disk.WriteSector(lba, StoreEnt(buf, off, e));
            if ok { vol := Append(vol, d, e).0; }
            return;
          }
        }
      }
      return false;
    }

    /** The search in `find_or_create_dir`. */
    method FindDirectory(d: nat, name: Name) returns (ok: bool, r: Option<nat>)
      requires Valid() && d in vol.dirs && ValidName(name)
      modifies disk`clock
      ensures ok ==> r == FindDir(vol.dirs[d], name, 0)
      ensures disk.Reliable() ==> ok
    {
      hide AllLinked, Disjoint, SlotsHold;
      ghost var l := vol.dirs[d];
      var dirLba := ClusterLba(d);
      for s := 0 to 8
        invariant FindDir(l, name, 0) == FindDir(l, name, Min(16 * s, |l|))
      {
        var lba := dirLba + s;
        var read, buf := disk.ReadSector(lba, D.Zeroed());
        if !read { return false, None; }
        r := FindInSector(d, s, name, buf);
        if r.Some? { return true, r; }
      }
      return true, None;
    }

    /** The search of one sector. */
    method FindInSector(d: nat, s: nat, name: Name, buf: Sector) returns (r: Option<nat>)
      requires Valid() && d in vol.dirs && ValidName(name) && s < 8 && buf == disk.sectors[ClusterLba(d) + s]
      requires FindDir(vol.dirs[d], name, 0) == FindDir(vol.dirs[d], name, Min(16 * s, |vol.dirs[d]|))
      ensures FindDir(vol.dirs[d], name, 0) ==
        if r.Some? then r else FindDir(vol.dirs[d], name, Min(16 * s + 16, |vol.dirs[d]|))
    {
      hide DirsHold;
      ghost var l := vol.dirs[d];
      for slot := 0 to 16
        invariant FindDir(l, name, 0) == FindDir(l, name, Min(16 * s + slot, |l|))
      {
        var off := slot * 32;
        SlotShows(disk.sectors, vol, d, s, slot);
        if buf[off] == 0x00 { return None; }
        if buf[off] == 0xE5 { continue; }
        var attr := buf[off + 11];
        if !IsDirAttr(attr) { continue; }
        if buf[off..off + 11] == name {
          var lo := FromLe32(buf[off + 26], buf[off + 27], 0, 0);
          var hi := FromLe32(buf[off + 20], buf[off + 21], 0, 0);
          return Some(lo + 65536 * hi);
        }
      }
      return None;
    }

    /** The part of `find_or_create_dir` that clears a cluster and writes the dot entries. */
    method InitDirectory(c: nat, parent: nat) returns (ok: bool)
      requires 2 <= c <= MAX_CLUSTER && Holds(disk.sectors)
      modifies disk
      ensures D.Confined(old(disk.sectors), old(disk.log), disk.sectors, disk.log, ClusterLba(c), ClusterLba(c) + 8)
      ensures ok ==> SlotsHold(disk.sectors, c, DotEntries(c, parent))
      ensures disk.Reliable() ==> ok
    {
      hide SlotsHold, DotSector;
      ghost var img0, log0 := disk.sectors, disk.log;
      var newLba := ClusterLba(c);
      for s := 0 to 8
        invariant D.Confined(img0, log0, disk.sectors, disk.log, newLba, newLba + 8)
        invariant forall lba | newLba <= lba < newLba + s :: disk.sectors[lba] == D.Zeroed()
      {
        ghost var img1, log1 := disk.sectors, disk.log;
        ok := disk.ZeroSector(newLba + s);
        D.ConfinedTrans(img0, log0, img1, log1, disk.sectors, disk.log,
                        newLba, newLba + 8, newLba + s, newLba + s + 1, newLba, newLba + 8);
        if !ok { return; }
      }
      ghost var img1, log1 := disk.sectors, disk.log;
      ok := disk.WriteSector(newLba, DotSector(c, parent));
      D.ConfinedTrans(img0, log0, img1, log1, disk.sectors, disk.log,
                      newLba, newLba + 8, newLba, newLba + 1, newLba, newLba + 8);
      if ok { DotSlots(disk.sectors, c, parent); }
    }

    /** The part of `find_or_create_dir` that makes the cluster of a new directory. */
    method CreateDirectory(parent: nat) returns (r: Option<nat>)
      requires Valid() && parent in vol.dirs
      modifies this, disk
      ensures WithinEfi()
      ensures old(vol).next > MAX_CLUSTER ==> r == None && vol == old(vol) && Valid() && disk.sectors == old(disk.sectors)
      ensures r.Some? ==> Valid() && r.value == old(vol).next <= MAX_CLUSTER && vol == NewDir(old(vol), parent)
      ensures disk.Reliable() && old(vol).next <= MAX_CLUSTER ==> r.Some?
      ensures disk.Reliable() && old(Represents(disk.sectors, vol)) ==> Represents(disk.sectors, vol)
    {
      hide AllLinked, Disjoint, FilesHold, FatUpdate, SlotsHold;
      ghost var img0, log0, v := disk.sectors, disk.log, vol;
      r := AllocCluster(true);
      if r.None? { return; }
      ghost var img1, log1 := disk.sectors, disk.log;
      var ok := InitDirectory(r.value, parent);
      D.ConfinedTrans(img0, log0, img1, log1, disk.sectors, disk.log, FAT32_FAT1_LBA, FAT32_DATA_LBA,
                      ClusterLba(v.next), ClusterLba(v.next) + 8, FAT32_FAT1_LBA, EFI_PART_END);
      if !ok { return None; }
      NewDirStage(disk.sectors, img0, v, parent);
      vol := NewDir(v, parent);
    }

    /** `find_or_create_dir`. */
    method FindOrCreateDir(d: nat, name: Name) returns (r: Option<nat>)
      requires Valid() && d in vol.dirs && ValidName(name)
      modifies this, disk
      ensures WithinEfi()
      ensures r.Some? ==> Valid() && r.value in vol.dirs && (vol, r) == FindOrCreate(old(vol), d, name)
      ensures disk.Reliable() ==> Valid() && (vol, r) == FindOrCreate(old(vol), d, name)
      ensures disk.Reliable() && old(Represents(disk.sectors, vol)) ==> Represents(disk.sectors, vol)
    {
      hide AllLinked, Disjoint, FilesHold, SlotsHold, FindDir;
      ghost var img0, log0, v := disk.sectors, disk.log, vol;
      FindOrCreateKeeps(v, d, name);
      var read, found := FindDirectory(d, name);
      if !read { return None; }
      if found.Some? { return found; }
      r := CreateDirectory(d);
      if r.None? { return; }
      ghost var img1, log1 := disk.sectors, disk.log;
      var ok := AddDirEntry(d, DirEnt(name, ATTR_DIRECTORY, r.value, 0));
      D.ConfinedTrans(img0, log0, img1, log1, disk.sectors, disk.log, FAT32_FAT1_LBA, EFI_PART_END,
                      FAT32_FAT1_LBA, EFI_PART_END, FAT32_FAT1_LBA, EFI_PART_END);
      if !ok { r := None; }
    }

    /** `write_file`. */
    method WriteFile(dirs: seq<Name>, name: Name, data: seq<Byte>) returns (ok: bool)
      requires Valid() && AllValid(dirs) && ValidName(name)
      modifies this, disk
      ensures WithinEfi()
      ensures ok ==> Valid() && (vol, ok) == Fat32Volume.WriteFile(old(vol), dirs, name, data)
      ensures disk.Reliable() && old(Represents(disk.sectors, vol)) ==>
        && Valid() && Represents(disk.sectors, vol)
        && (vol, ok) == Fat32Volume.WriteFile(old(vol), dirs, name, data)
    {
      hide AllLinked, Disjoint, FilesHold, SlotsHold, FindDir, FindOrCreate;
      ghost var img0, log0, v := disk.sectors, disk.log, vol;
      ghost var good := disk.Reliable() && Represents(img0, v);
      var dirCluster := FAT32_ROOT_CLUSTER;
      assert dirs[0..] == dirs;
      for i := 0 to |dirs|
        invariant Valid() && dirCluster in vol.dirs
        invariant good ==> Represents(disk.sectors, vol)
        invariant D.Confined(img0, log0, disk.sectors, disk.log, FAT32_FAT1_LBA, EFI_PART_END)
        invariant MakePath(v, FAT32_ROOT_CLUSTER, dirs) == MakePath(vol, dirCluster, dirs[i..])
      {
        assert dirs[i..][0] == dirs[i] && dirs[i..][1..] == dirs[i + 1..];
        ghost var img1, log1 := disk.sectors, disk.log;
        var c := FindOrCreateDir(dirCluster, dirs[i]);
        D.ConfinedTrans(img0, log0, img1, log1, disk.sectors, disk.log, FAT32_FAT1_LBA, EFI_PART_END,
                        FAT32_FAT1_LBA, EFI_PART_END, FAT32_FAT1_LBA, EFI_PART_END);
        if c.None? { return false; }
        dirCluster := c.value;
      }
      ghost var img1, log1, v1 := disk.sectors, disk.log, vol;
      assert MakePath(v, FAT32_ROOT_CLUSTER, dirs) == (v1, Some(dirCluster));
      var firstCluster := WriteData(data);
      StoreKeeps(v1, data);
      ghost var img2, log2 := disk.sectors, disk.log;
      D.ConfinedTrans(img0, log0, img1, log1, img2, log2, FAT32_FAT1_LBA, EFI_PART_END,
                      FAT32_FAT1_LBA, EFI_PART_END, FAT32_FAT1_LBA, EFI_PART_END);
      if firstCluster.None? { return false; }
      ok := AddDirEntry(dirCluster, DirEnt(name, ATTR_ARCHIVE, firstCluster.value, |data|));
      D.ConfinedTrans(img0, log0, img2, log2, disk.sectors, disk.log, FAT32_FAT1_LBA, EFI_PART_END,
                      FAT32_FAT1_LBA, EFI_PART_END, FAT32_FAT1_LBA, EFI_PART_END);
    }
  }
}
