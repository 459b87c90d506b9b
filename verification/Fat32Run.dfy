/** Whole runs of the FAT32 writer on a disk: any number of `write_file` calls on a freshly
    formatted partition, read back from the sectors at the end. */
module Fat32Run {
  import opened Common
  import D = Disk
  import opened Fat32Layout
  import opened Fat32Volume
  import opened Fat32Image
  import opened Installer
  import R = Fat32Reader

  ghost predicate Allocated(v: Volume, h: nat) {
    h in v.dirs || h in v.files
  }

  /** The chain of `h` ascends by one to the end mark, over as many clusters as the data needs. */
  ghost predicate ChainKept(img: D.Image, v: Volume, h: nat)
    requires Holds(img) && Allocated(v, h)
  {
    var a := R.Chain(R.Table(img), h, FAT_ENTRIES);
    && a.Some? && |a.value| == R.Extent(v, h)
    && (forall i | 0 <= i < |a.value| :: a.value[i] == h + i)
    && h + R.Extent(v, h) <= FAT_ENTRIES
    && FatEntry(img, h + R.Extent(v, h) - 1) == 0x0FFF_FFFF
  }

  ghost predicate ChainsApart(img: D.Image, v: Volume, h: nat, g: nat)
    requires Holds(img)
  {
    var a, b := R.Chain(R.Table(img), h, FAT_ENTRIES), R.Chain(R.Table(img), g, FAT_ENTRIES);
    a.Some? && b.Some? && forall i | 0 <= i < |a.value| :: a.value[i] !in b.value
  }

  /** The file allocation table is sound: every directory and file has its own ascending chain,
      the two copies agree and nothing from the allocation mark on is in use. */
  ghost predicate Sound(img: D.Image, v: Volume) {
    && Holds(img)
    && (forall h | Allocated(v, h) :: ChainKept(img, v, h))
    && (forall h, g | Allocated(v, h) && Allocated(v, g) && h != g :: ChainsApart(img, v, h, g))
    && (forall c | 0 <= c < FAT_ENTRIES :: FatEntryAt(img, FAT32_FAT1_LBA, c) == FatEntryAt(img, FAT32_FAT2_LBA, c))
    && (forall c | v.next <= c < FAT_ENTRIES :: FatEntry(img, c) == 0)
  }

  lemma RepresentedSound(img: D.Image, v: Volume)
    requires Represents(img, v)
    ensures Sound(img, v)
  {
    hide Represents, FatEntry, FatEntryAt, R.Chain, R.Table, R.Extent, ChainKept, ChainsApart;
    RepresentedHolds(img, v);
    forall h | Allocated(v, h) ensures ChainKept(img, v, h) { Kept(img, v, h); }
    forall h, g | Allocated(v, h) && Allocated(v, g) && h != g ensures ChainsApart(img, v, h, g) {
      Apart(img, v, h, g);
    }
    forall c | 0 <= c < FAT_ENTRIES
      ensures FatEntryAt(img, FAT32_FAT1_LBA, c) == FatEntryAt(img, FAT32_FAT2_LBA, c)
      ensures v.next <= c ==> FatEntry(img, c) == 0
    {
      R.TablesWellFormed(img, v, c);
    }
  }

  lemma RepresentedHolds(img: D.Image, v: Volume)
    requires Represents(img, v)
    ensures Holds(img) && v.next <= FAT_ENTRIES
  {
  }

  lemma Kept(img: D.Image, v: Volume, h: nat)
    requires Represents(img, v) && Holds(img) && Allocated(v, h)
    ensures ChainKept(img, v, h)
  {
    hide Represents, FatEntry, R.Chain, R.Table, R.Extent;
    RepresentedHolds(img, v);
    R.ChainOf(img, v, h);
  }

  lemma Apart(img: D.Image, v: Volume, h: nat, g: nat)
    requires Represents(img, v) && Holds(img) && Allocated(v, h) && Allocated(v, g) && h != g
    ensures ChainsApart(img, v, h, g)
  {
    hide Represents, FatEntry, R.Chain, R.Table, R.Extent;
    R.ChainsWellFormed(img, v, h, g);
  }

  /** Whether call `i` went to a path that was still free when it was made. */
  ghost predicate WasFresh(calls: seq<Call>, i: nat)
    requires i < |calls|
  {
    Fresh(Run(EMPTY_VOLUME, calls[..i]), FAT32_ROOT_CLUSTER, calls[i].path, calls[i].name)
  }

  ghost predicate ReadsBack(img: D.Image, c: Call) {
    Holds(img) && R.ReadFile(img, c.path, c.name) == Some(c.data)
  }

  lemma RunReadable(img: D.Image, calls: seq<Call>, i: nat)
    requires ValidCalls(calls) && i < |calls| && Succeeded(EMPTY_VOLUME, calls, i)
    requires NonClashing(calls) || WasFresh(calls, i)
    requires Represents(img, Run(EMPTY_VOLUME, calls))
    ensures ReadsBack(img, calls[i]) && Filed(img, calls[i])
  {
    hide Fat32Volume.WriteFile, Run, Represents, R.ReadFile, Read, Fresh;
    RepresentedHolds(img, Run(EMPTY_VOLUME, calls));
    EmptyWellFormed();
    if NonClashing(calls) {
      NonClashingRunReadBack(calls, i);
    } else {
      RunReadBack(EMPTY_VOLUME, calls, i);
    }
    R.ReadFileIsRead(img, Run(EMPTY_VOLUME, calls), calls[i].path, calls[i].name);
    ReadIsFiled(img, Run(EMPTY_VOLUME, calls), calls[i]);
  }

  // ----- the bytes of a directory entry -----

  /** The 32 bytes of a directory slot: name, attribute, the halves of the first cluster, the size, and zeros
      elsewhere. */
  predicate SlotSays(s: seq<Byte>, name: Name, attr: nat, cluster: nat, size: nat)
    requires |s| == SLOT_BYTES
  {
    && s[..11] == name && s[11] == attr
    && s[12] == s[13] == s[14] == s[15] == s[16] == s[17] == s[18] == s[19] == 0
    && s[20] as int + 256 * s[21] as int == cluster / 65536 && s[22] == s[23] == s[24] == s[25] == 0
    && s[26] as int + 256 * s[27] as int == cluster % 65536
    && FromLe32(s[28], s[29], s[30], s[31]) == size
  }

  lemma SlotSaysOf(e: DirEnt)
    requires Storable(e)
    ensures SlotSays(EncodeEnt(e), e.name, e.attr, e.cluster, e.size)
  {
    hide Le32;
    Halves(e.cluster);
    Halves(e.size);
    Le32RoundTrip(e.size);
    assert EncodeEnt(e)[..11] == e.name;
  }

  lemma Halves(v: nat)
    requires v < 0x1_0000_0000
    ensures var b := Le32(v);
      |b| == 4 && b[0] as int + 256 * b[1] as int == v % 65536 && b[2] as int + 256 * b[3] as int == v / 65536
  {
    var q := v / 256;
    assert v == 256 * q + v % 256 && q == 256 * (q / 256) + q % 256;
    assert v / 65536 == q / 256;
  }

  /** Following the path from the root leads to a directory whose slot `k` lists the file, and its chain
      starts with the file's bytes. */
  ghost predicate FiledAt(img: D.Image, c: Call, d: nat, k: nat, cluster: nat) {
    && Holds(img) && R.WalkPath(img, 2, c.path) == Some(d) && 2 <= d <= MAX_CLUSTER && k < DIR_SLOTS
    && SlotSays(Slot(img, d, k), c.name, 32, cluster, |c.data|)
    && R.ReadSized(img, cluster, |c.data|) == Some(c.data)
  }

  ghost predicate Filed(img: D.Image, c: Call) {
    exists d: nat, k: nat, cluster: nat :: FiledAt(img, c, d, k, cluster)
  }

  /** Every directory the reader reaches is listed with the directory attribute and no size. */
  ghost predicate DirsListed(img: D.Image, v: Volume) {
    forall d, k | d in v.dirs && 0 <= k < |v.dirs[d]| && v.dirs[d][k].cluster in v.dirs ::
      && Holds(img) && 2 <= d <= MAX_CLUSTER && k < DIR_SLOTS
      && SlotSays(Slot(img, d, k), v.dirs[d][k].name, 16, v.dirs[d][k].cluster, 0)
  }

  lemma RepresentedListed(img: D.Image, v: Volume)
    requires Represents(img, v)
    ensures DirsListed(img, v)
  {
    hide Represents, SlotSays, Slot, R.ReadSized, Linked, FileStored;
    forall d, k | d in v.dirs && 0 <= k < |v.dirs[d]| && v.dirs[d][k].cluster in v.dirs
      ensures Holds(img) && 2 <= d <= MAX_CLUSTER && k < DIR_SLOTS
      ensures SlotSays(Slot(img, d, k), v.dirs[d][k].name, 16, v.dirs[d][k].cluster, 0)
    {
      EntryFiled(img, v, d, k);
      R.RepresentedVolume(img, v);
      NotBoth(v, v.dirs[d][k].cluster);
    }
  }

  lemma NotBoth(v: Volume, c: nat)
    requires WellFormed(v) && c in v.dirs
    ensures c !in v.files
  {
    hide AllLinked;
  }

  lemma ReadIsFiled(img: D.Image, v: Volume, c: Call)
    requires Represents(img, v) && Read(v, FAT32_ROOT_CLUSTER, c.path, c.name) == Some(c.data)
    ensures Filed(img, c)
  {
    hide Represents, R.WalkPath, R.ReadSized, SlotSays, EncodeEnt, Resolve, Lookup, R.Agrees, AllLinked;
    R.ReadableVolume(img, v);
    R.WalkPathIsResolve(img, v, FAT32_ROOT_CLUSTER, c.path);
    var d := Resolve(v, FAT32_ROOT_CLUSTER, c.path).value;
    var k := LookupIn(v.dirs[d], c.name, 0);
    EntryFiled(img, v, d, k);
    var e := v.dirs[d][k];
    assert FiledAt(img, c, d, k, e.cluster);
  }

  lemma EntryFiled(img: D.Image, v: Volume, d: nat, k: nat)
    requires Represents(img, v) && d in v.dirs && k < |v.dirs[d]|
    ensures Holds(img) && 2 <= d <= MAX_CLUSTER && k < DIR_SLOTS
    ensures var e := v.dirs[d][k];
      if IsDirAttr(e.attr) then e.cluster in v.dirs && SlotSays(Slot(img, d, k), e.name, 16, e.cluster, 0)
      else
        && SlotSays(Slot(img, d, k), e.name, 32, e.cluster, e.size)
        && e.cluster in v.files && e.size == |v.files[e.cluster]|
        && R.ReadSized(img, e.cluster, e.size) == Some(v.files[e.cluster])
  {
    hide Represents, SlotSays, EncodeEnt, R.ReadSized, Slot, Linked;
    SlotHeld(img, v, d, k);
    EntryLinked(v, d, k);
    SlotSaysOf(v.dirs[d][k]);
    if !IsDirAttr(v.dirs[d][k].attr) { FileReads(img, v, v.dirs[d][k].cluster); }
  }

  lemma SlotHeld(img: D.Image, v: Volume, d: nat, k: nat)
    requires Represents(img, v) && d in v.dirs && k < |v.dirs[d]|
    ensures Holds(img) && 2 <= d <= MAX_CLUSTER && k < DIR_SLOTS && WellFormed(v)
    ensures Slot(img, d, k) == EncodeEnt(v.dirs[d][k])
  {
    hide EncodeEnt, Slot, AllLinked, FilesHold, Disjoint;
    assert SlotsHold(img, d, v.dirs[d]);
  }

  lemma EntryLinked(v: Volume, d: nat, k: nat)
    requires WellFormed(v) && d in v.dirs && k < |v.dirs[d]|
    ensures var e := v.dirs[d][k];
      && Storable(e)
      && if IsDirAttr(e.attr) then e.attr == 16 && e.cluster in v.dirs && e.size == 0
         else e.attr == 32 && e.cluster in v.files && e.size == |v.files[e.cluster]|
  {
    hide Disjoint;
    assert Linked(v, d, v.dirs[d][k]);
  }

  lemma FileReads(img: D.Image, v: Volume, f: nat)
    requires Represents(img, v) && f in v.files
    ensures Holds(img) && R.ReadSized(img, f, |v.files[f]|) == Some(v.files[f])
  {
    hide Represents, R.ReadSized, R.FindIn;
    R.ReadableVolume(img, v);
  }

  /** `write_file` for every call in turn, carrying on after a failure. Whatever the calls and
      however many fail, the sectors then hold the volume of the run with a sound allocation
      table, and every file that was written on a free path is read back from them in full. */
  method WriteAll(writer: Fat32Writer, calls: seq<Call>) returns (oks: seq<bool>)
    requires writer.Valid() && writer.vol == EMPTY_VOLUME && writer.disk.Reliable()
    requires Represents(writer.disk.sectors, EMPTY_VOLUME) && ValidCalls(calls)
    modifies writer, writer.disk
    ensures |oks| == |calls| && forall i | 0 <= i < |calls| :: oks[i] == Succeeded(EMPTY_VOLUME, calls, i)
    ensures Represents(writer.disk.sectors, Run(EMPTY_VOLUME, calls))
    ensures Sound(writer.disk.sectors, Run(EMPTY_VOLUME, calls)) && DirsListed(writer.disk.sectors, Run(EMPTY_VOLUME, calls))
    ensures forall i | 0 <= i < |calls| && oks[i] && (NonClashing(calls) || WasFresh(calls, i)) ::
      ReadsBack(writer.disk.sectors, calls[i]) && Filed(writer.disk.sectors, calls[i])
    ensures D.Confined(old(writer.disk.sectors), old(writer.disk.log), writer.disk.sectors, writer.disk.log,
                       FAT32_FAT1_LBA, EFI_PART_END)
  {
    hide Represents, DirsHold, Fat32Volume.WriteFile, NonClashing, WasFresh, ReadsBack, Filed, Sound, DirsListed;
    oks := [];
    ghost var img0, log0 := writer.disk.sectors, writer.disk.log;
    for n := 0 to |calls|
      invariant writer.Valid() && writer.vol == Run(EMPTY_VOLUME, calls[..n])
      invariant Represents(writer.disk.sectors, writer.vol)
      invariant |oks| == n && forall i | 0 <= i < n :: oks[i] == Succeeded(EMPTY_VOLUME, calls, i)
      invariant D.Confined(img0, log0, writer.disk.sectors, writer.disk.log, FAT32_FAT1_LBA, EFI_PART_END)
    {
      ghost var img1, log1 := writer.disk.sectors, writer.disk.log;
      assert ValidCall(calls[n]);
      var ok := writer.WriteFile(calls[n].path, calls[n].name, calls[n].data);
      D.ConfinedTrans(img0, log0, img1, log1, writer.disk.sectors, writer.disk.log, FAT32_FAT1_LBA, EFI_PART_END,
                      FAT32_FAT1_LBA, EFI_PART_END, FAT32_FAT1_LBA, EFI_PART_END);
      assert calls[..n + 1][..n] == calls[..n];
      oks := oks + [ok];
    }
    assert calls[..|calls|] == calls;
    RepresentedSound(writer.disk.sectors, Run(EMPTY_VOLUME, calls));
    RepresentedListed(writer.disk.sectors, Run(EMPTY_VOLUME, calls));
    forall i | 0 <= i < |calls| && oks[i] && (NonClashing(calls) || WasFresh(calls, i))
      ensures ReadsBack(writer.disk.sectors, calls[i]) && Filed(writer.disk.sectors, calls[i])
    {
      RunReadable(writer.disk.sectors, calls, i);
    }
  }
}
