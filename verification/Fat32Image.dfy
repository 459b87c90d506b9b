/** When a disk image holds a given volume, and how writes to the image change the volume it holds. */
module Fat32Image {
  import opened Common
  import opened Disk
  import opened Fat32Layout
  import opened Fat32Volume

  ghost predicate CopiesEqual(img: Image)
    requires Holds(img)
  {
    forall s | FAT32_FAT1_LBA <= s < FAT32_FAT2_LBA :: img[s] == img[s + FAT32_FAT_SIZE]
  }

  ghost predicate FreeFrom(img: Image, next: nat)
    requires Holds(img)
  {
    forall c | next <= c < FAT_ENTRIES :: FatEntry(img, c) == 0
  }

  ghost predicate SlotsHold(img: Image, d: nat, l: seq<DirEnt>)
    requires Holds(img) && 2 <= d <= MAX_CLUSTER && |l| <= DIR_SLOTS
  {
    && (forall k | 0 <= k < |l| :: Slot(img, d, k) == EncodeEnt(l[k]))
    && (forall k | |l| <= k < DIR_SLOTS :: Slot(img, d, k) == Zeros(SLOT_BYTES))
  }

  /** The chain of a file: ascending by one, closed by the end mark. */
  ghost predicate ChainFrom(img: Image, f: nat, n: nat)
    requires Holds(img) && 1 <= n && f + n <= MAX_CLUSTER + 1
  {
    && (forall c | f <= c < f + n - 1 :: FatEntry(img, c) == c + 1)
    && FatEntry(img, f + n - 1) == END_OF_CHAIN
  }

  /** The first `n` bytes of `data` lie in the sectors from `lba` on. */
  ghost predicate BytesAt(img: Image, lba: nat, data: seq<Byte>, n: nat)
    requires n <= |data| && lba * 512 + n <= |img| * 512
  {
    forall j | 0 <= j < n :: img[lba + j / 512][j % 512] == data[j]
  }

  ghost predicate FileStored(img: Image, f: nat, data: seq<Byte>)
    requires Holds(img) && 2 <= f && f + Span(|data|) <= MAX_CLUSTER + 1
  {
    ChainFrom(img, f, Span(|data|)) && BytesAt(img, ClusterLba(f), data, |data|)
  }

  /** The directory clusters of the image are those of `v`. */
  ghost predicate DirsHold(img: Image, v: Volume) {
    && Holds(img) && WellFormed(v)
    && (forall d | d in v.dirs :: SlotsHold(img, d, v.dirs[d]))
  }

  /** The FAT and the file clusters of the image are those of `v`: FAT entries at or above
      `v.next` are zero, and the two copies of the FAT agree. */
  ghost predicate FilesHold(img: Image, v: Volume)
    requires Holds(img) && InRange(v)
  {
    && CopiesEqual(img) && FreeFrom(img, v.next)
    && (forall d | d in v.dirs :: FatEntry(img, d) == END_OF_CHAIN)
    && (forall f | f in v.files :: FileStored(img, f, v.files[f]))
  }

  /** The image holds exactly the directories and files of `v`. */
  ghost predicate Represents(img: Image, v: Volume) {
    DirsHold(img, v) && FilesHold(img, v)
  }

  // ----- one FAT entry -----

  /** Entry `c` replaced in the copy that starts at `fat`. */
  function CopyUpdate(img: Image, fat: nat, c: nat, value: nat): (r: Image)
    requires c < FAT_ENTRIES && fat + FAT32_FAT_SIZE <= |img|
  {
    var lba := fat + c / SECTOR_ENTRIES;
    img[lba := Patch(img[lba], 4 * (c % SECTOR_ENTRIES), FatBytes(value))]
  }

  function FatUpdate(img: Image, c: nat, value: nat): (r: Image)
    requires EFI_PART_END <= |img| && c < FAT_ENTRIES
  {
    CopyUpdate(CopyUpdate(img, FAT32_FAT1_LBA, c, value), FAT32_FAT2_LBA, c, value)
  }

  ghost predicate OnlyEntryChanged(img1: Image, img0: Image, c: nat, value: nat)
    requires Holds(img0) && |img1| == |img0|
  {
    && (forall x | 0 <= x < FAT_ENTRIES :: FatEntry(img1, x) == if x == c then value else FatEntry(img0, x))
    && (forall lba | FAT32_DATA_LBA <= lba < |img0| :: img1[lba] == img0[lba])
  }

  lemma FatUpdateSpec(img: Image, c: nat, value: nat)
    requires Holds(img) && CopiesEqual(img) && c < FAT_ENTRIES && value <= END_OF_CHAIN
    ensures var r := FatUpdate(img, c, value);
      |r| == |img| && CopiesEqual(r) && OnlyEntryChanged(r, img, c, value)
  {
    var r := FatUpdate(img, c, value);
    forall x | 0 <= x < FAT_ENTRIES
      ensures FatEntry(r, x) == if x == c then value else FatEntry(img, x)
    {
      FatUpdateAt(img, c, value, x);
    }
  }

  lemma FatUpdateAt(img: Image, c: nat, value: nat, x: nat)
    requires Holds(img) && c < FAT_ENTRIES && value <= END_OF_CHAIN && x < FAT_ENTRIES
    ensures FatEntry(FatUpdate(img, c, value), x) == if x == c then value else FatEntry(img, x)
  {
    FatBytesRoundTrip(value);
    if x != c && x / SECTOR_ENTRIES == c / SECTOR_ENTRIES {
      assert x % SECTOR_ENTRIES != c % SECTOR_ENTRIES;
    }
  }

  // ----- writes that leave the volume alone -----

  ghost predicate SameDataBelow(img1: Image, img0: Image, next: nat)
    requires Holds(img0) && |img1| == |img0| && 2 <= next <= MAX_CLUSTER + 1
  {
    forall lba | FAT32_DATA_LBA <= lba < ClusterLba(next) :: img1[lba] == img0[lba]
  }

  ghost predicate SameFatBelow(img1: Image, img0: Image, next: nat)
    requires Holds(img0) && |img1| == |img0| && next <= FAT_ENTRIES
  {
    forall c | 0 <= c < next :: FatEntry(img1, c) == FatEntry(img0, c)
  }

  lemma SlotsUnchanged(img1: Image, img0: Image, next: nat, d: nat, l: seq<DirEnt>)
    requires Holds(img0) && |img1| == |img0| && 2 <= d < next <= MAX_CLUSTER + 1 && |l| <= DIR_SLOTS
    requires SameDataBelow(img1, img0, next) && SlotsHold(img0, d, l)
    ensures SlotsHold(img1, d, l)
  {
    forall k | 0 <= k < DIR_SLOTS ensures Slot(img1, d, k) == Slot(img0, d, k) {
      assert FAT32_DATA_LBA <= ClusterLba(d) + k / 16 < ClusterLba(next);
    }
  }

  lemma FileUnchanged(img1: Image, img0: Image, next: nat, f: nat, data: seq<Byte>)
    requires Holds(img0) && |img1| == |img0| && next <= MAX_CLUSTER + 1
    requires 2 <= f && f + Span(|data|) <= next
    requires SameDataBelow(img1, img0, next) && SameFatBelow(img1, img0, next) && FileStored(img0, f, data)
    ensures FileStored(img1, f, data)
  {
    forall j | 0 <= j < |data| ensures img1[ClusterLba(f) + j / 512][j % 512] == data[j] {
      assert j < Span(|data|) * CLUSTER_BYTES;
      assert FAT32_DATA_LBA <= ClusterLba(f) + j / 512 < ClusterLba(next);
    }
  }

  /** Taking clusters without using them for anything, whatever is written there. */
  lemma DirsHoldFrame(img1: Image, img0: Image, v: Volume, next: nat)
    requires DirsHold(img0, v) && |img1| == |img0|
    requires v.next <= next <= MAX_CLUSTER + 1
    requires SameDataBelow(img1, img0, v.next)
    ensures DirsHold(img1, v.(next := next))
  {
    var w := v.(next := next);
    assert AllLinked(w) by {
      forall d, k | d in w.dirs && 0 <= k < |w.dirs[d]| ensures Linked(w, d, w.dirs[d][k]) {
        assert Linked(v, d, v.dirs[d][k]);
      }
    }
    forall d | d in v.dirs ensures SlotsHold(img1, d, v.dirs[d]) {
      SlotsUnchanged(img1, img0, v.next, d, v.dirs[d]);
    }
  }

  lemma FilesHoldFrame(img1: Image, img0: Image, v: Volume, next: nat)
    requires Represents(img0, v) && |img1| == |img0|
    requires v.next <= next <= MAX_CLUSTER + 1
    requires CopiesEqual(img1) && FreeFrom(img1, next)
    requires SameDataBelow(img1, img0, v.next) && SameFatBelow(img1, img0, v.next)
    ensures FilesHold(img1, v.(next := next))
  {
    forall f | f in v.files ensures FileStored(img1, f, v.files[f]) {
      FileUnchanged(img1, img0, v.next, f, v.files[f]);
    }
  }

  // ----- writes that make a new file or directory -----

  lemma StoreHolds(img: Image, v: Volume, data: seq<Byte>)
    requires v.next + Span(|data|) <= MAX_CLUSTER + 1 && WellFormed(v)
    requires DirsHold(img, v.(next := v.next + Span(|data|)))
    ensures DirsHold(img, Store(v, data).0)
    ensures FilesHold(img, v.(next := v.next + Span(|data|))) && FileStored(img, v.next, data)
            ==> FilesHold(img, Store(v, data).0)
  {
    StoreKeeps(v, data);
  }

  lemma NewDirHolds(img: Image, v: Volume, parent: nat)
    requires v.next <= MAX_CLUSTER && WellFormed(v) && parent in v.dirs
    requires DirsHold(img, v.(next := v.next + 1))
    requires SlotsHold(img, v.next, DotEntries(v.next, parent))
    ensures DirsHold(img, NewDir(v, parent))
    ensures FilesHold(img, v.(next := v.next + 1)) && FatEntry(img, v.next) == END_OF_CHAIN
            ==> FilesHold(img, NewDir(v, parent))
  {
    NewDirKeeps(v, parent);
  }

  /** `img` with the slot `k` of directory `d` replaced. */
  function WithSlot(img: Image, d: nat, k: nat, slot: seq<Byte>): (r: Image)
    requires EFI_PART_END <= |img| && 2 <= d <= MAX_CLUSTER && k < DIR_SLOTS && |slot| == SLOT_BYTES
  {
    var lba := ClusterLba(d) + k / 16;
    img[lba := Patch(img[lba], k % 16 * SLOT_BYTES, slot)]
  }

  /** Only cluster `d` of the data area differs. */
  ghost predicate OnlyClusterChanged(img1: Image, img0: Image, d: nat)
    requires Holds(img0) && |img1| == |img0| && 2 <= d <= MAX_CLUSTER
  {
    && (forall c | 0 <= c < FAT_ENTRIES :: FatEntry(img1, c) == FatEntry(img0, c))
    && (forall lba | FAT32_DATA_LBA <= lba < |img0| && !(ClusterLba(d) <= lba < ClusterLba(d) + 8) ::
          img1[lba] == img0[lba])
  }

  lemma WithSlotSpec(img: Image, d: nat, k: nat, slot: seq<Byte>)
    requires Holds(img) && 2 <= d <= MAX_CLUSTER && k < DIR_SLOTS && |slot| == SLOT_BYTES
    ensures var r := WithSlot(img, d, k, slot);
      && |r| == |img| && (CopiesEqual(img) ==> CopiesEqual(r)) && OnlyClusterChanged(r, img, d)
      && forall i | 0 <= i < DIR_SLOTS :: Slot(r, d, i) == if i == k then slot else Slot(img, d, i)
  {
    var r := WithSlot(img, d, k, slot);
    forall c | 0 <= c < FAT_ENTRIES ensures FatEntry(r, c) == FatEntry(img, c) {}
    forall i | 0 <= i < DIR_SLOTS ensures Slot(r, d, i) == if i == k then slot else Slot(img, d, i) {
      WithSlotAt(img, d, k, slot, i);
    }
  }

  lemma WithSlotAt(img: Image, d: nat, k: nat, slot: seq<Byte>, i: nat)
    requires Holds(img) && 2 <= d <= MAX_CLUSTER && k < DIR_SLOTS && i < DIR_SLOTS && |slot| == SLOT_BYTES
    ensures Slot(WithSlot(img, d, k, slot), d, i) == if i == k then slot else Slot(img, d, i)
  {
    if i != k && i / 16 == k / 16 {
      assert i % 16 != k % 16;
    }
  }

  /** Filling the first free slot of a directory appends an entry to it. */
  lemma AppendHolds(img: Image, v: Volume, d: nat, e: DirEnt)
    requires DirsHold(img, v) && d in v.dirs && |v.dirs[d]| < DIR_SLOTS && Linked(v, d, e)
    ensures var r, w := WithSlot(img, d, |v.dirs[d]|, EncodeEnt(e)), Append(v, d, e).0;
      DirsHold(r, w) && (FilesHold(img, v) ==> FilesHold(r, w))
  {
    hide FatEntry, Slot, WithSlot, EncodeEnt, AllLinked, ClusterLba;
    AppendKeeps(v, d, e);
    WithSlotSpec(img, d, |v.dirs[d]|, EncodeEnt(e));
    var w := Append(v, d, e).0;
    var r := WithSlot(img, d, |v.dirs[d]|, EncodeEnt(e));
    forall x | x in w.dirs ensures SlotsHold(r, x, w.dirs[x]) {
      if x != d { OtherDir(r, img, x, d, v.dirs[x]); }
    }
    if FilesHold(img, v) {
      forall f | f in w.files ensures FileStored(r, f, w.files[f]) {
        OtherFile(r, img, f, d, w.files[f]);
      }
    }
  }

  lemma OtherDir(r: Image, img: Image, x: nat, d: nat, l: seq<DirEnt>)
    requires Holds(img) && 2 <= x <= MAX_CLUSTER && 2 <= d <= MAX_CLUSTER && x != d && |l| <= DIR_SLOTS
    requires |r| == |img| && OnlyClusterChanged(r, img, d)
    requires SlotsHold(img, x, l)
    ensures SlotsHold(r, x, l)
  {
    forall k | 0 <= k < DIR_SLOTS ensures Slot(r, x, k) == Slot(img, x, k) {
      assert !(ClusterLba(d) <= ClusterLba(x) + k / 16 < ClusterLba(d) + 8);
    }
  }

  lemma OtherFile(r: Image, img: Image, f: nat, d: nat, data: seq<Byte>)
    requires Holds(img) && 2 <= f && f + Span(|data|) <= MAX_CLUSTER + 1 && 2 <= d <= MAX_CLUSTER
    requires !(f <= d < f + Span(|data|))
    requires |r| == |img| && OnlyClusterChanged(r, img, d)
    requires FileStored(img, f, data)
    ensures FileStored(r, f, data)
  {
    var n := Span(|data|);
    forall j | 0 <= j < |data| ensures r[ClusterLba(f) + j / 512][j % 512] == data[j] {
      assert j / 512 < 8 * n;
      var lba := ClusterLba(f) + j / 512;
      assert r[lba] == img[lba];
    }
  }
}
