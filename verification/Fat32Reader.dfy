/** A reader for FAT32 images that knows nothing about the installer: it follows cluster chains
    through the FAT, parses directory slots and cuts files to their recorded size (sections
    "FAT Data Structure" and "FAT Directory Structure" of Microsoft's FAT32 File System
    Specification 1.03). It reads exactly what a volume held by the image says. */
module Fat32Reader {
  import opened Common
  import opened Disk
  import opened Fat32Layout
  import opened Fat32Volume
  import opened Fat32Image

  const LAST_CLUSTER: nat := 16349   // the last one that fits in the partition
  const EOC_MARK: nat := 0x0FFF_FFF8 // entries from here on end a chain

  type FatTable = t: seq<nat> | |t| == FAT_ENTRIES witness seq(FAT_ENTRIES, _ => 0)

  function Table(img: Image): (t: FatTable)
    requires EFI_PART_END <= |img|
    ensures forall c | 0 <= c < FAT_ENTRIES :: t[c] == FatEntry(img, c)
  {
    seq(FAT_ENTRIES, c requires 0 <= c < FAT_ENTRIES => FatEntry(img, c))
  }

  /** The clusters of the chain that starts at `c`; `None` if it leaves the volume or is
      longer than `limit`. */
  function Chain(fat: FatTable, c: nat, limit: nat): (r: Option<seq<nat>>)
    ensures r.Some? ==> forall i | 0 <= i < |r.value| :: 2 <= r.value[i] <= LAST_CLUSTER
    decreases limit
  {
    if limit == 0 || c < 2 || c > LAST_CLUSTER then None
    else if fat[c] >= EOC_MARK then Some([c])
    else
      match Chain(fat, fat[c], limit - 1)
      case None => None
      case Some(rest) => Some([c] + rest)
  }

  function ClusterData(img: Image, c: nat): (bytes: seq<Byte>)
    requires EFI_PART_END <= |img| && 2 <= c <= LAST_CLUSTER
    ensures |bytes| == CLUSTER_BYTES
    ensures forall j | 0 <= j < CLUSTER_BYTES :: bytes[j] == img[ClusterLba(c) + j / 512][j % 512]
  {
    seq(CLUSTER_BYTES, j requires 0 <= j < CLUSTER_BYTES => img[ClusterLba(c) + j / 512][j % 512])
  }

  function ChainData(img: Image, cs: seq<nat>): (bytes: seq<Byte>)
    requires EFI_PART_END <= |img|
    requires forall i | 0 <= i < |cs| :: 2 <= cs[i] <= LAST_CLUSTER
    ensures |bytes| == |cs| * CLUSTER_BYTES
  {
    if cs == [] then [] else ClusterData(img, cs[0]) + ChainData(img, cs[1..])
  }

  /** All bytes of the file or directory that starts at cluster `c`. */
  function ReadChain(img: Image, c: nat): (r: Option<seq<Byte>>)
    requires EFI_PART_END <= |img|
  {
    match Chain(Table(img), c, FAT_ENTRIES)
    case None => None
    case Some(cs) => Some(ChainData(img, cs))
  }

  function SlotIn(bytes: seq<Byte>, k: nat): (slot: seq<Byte>)
    requires k * SLOT_BYTES + SLOT_BYTES <= |bytes|
    ensures |slot| == SLOT_BYTES
  {
    bytes[k * SLOT_BYTES..k * SLOT_BYTES + SLOT_BYTES]
  }

  /** The files and directories listed from slot `k` on: a slot that starts with zero ends the directory, one
      that starts with 0xE5 is deleted, and one with attribute bit 3 is a volume label or part of a long name. */
  function Entries(bytes: seq<Byte>, k: nat): (l: seq<DirEnt>)
    decreases |bytes| - k * SLOT_BYTES
  {
    if k * SLOT_BYTES + SLOT_BYTES > |bytes| then []
    else
      var slot := SlotIn(bytes, k);
      if slot[0] == 0x00 then []
      else if slot[0] == 0xE5 || slot[11] / 8 % 2 == 1 then Entries(bytes, k + 1)
      else [DecodeEnt(slot)] + Entries(bytes, k + 1)
  }

  function FindIn(img: Image, d: nat, name: Name): (r: Option<DirEnt>)
    requires EFI_PART_END <= |img|
  {
    match ReadChain(img, d)
    case None => None
    case Some(bytes) => Lookup(Entries(bytes, 0), name, 0)
  }

  function ReadSized(img: Image, c: nat, size: nat): (r: Option<seq<Byte>>)
    requires EFI_PART_END <= |img|
  {
    match ReadChain(img, c)
    case None => None
    case Some(bytes) => if size <= |bytes| then Some(bytes[..size]) else None
  }

  function WalkPath(img: Image, d: nat, path: seq<Name>): (r: Option<nat>)
    requires EFI_PART_END <= |img|
    decreases |path|
  {
    if path == [] then Some(d)
    else
      match FindIn(img, d, path[0])
      case None => None
      case Some(e) => if IsDirAttr(e.attr) then WalkPath(img, e.cluster, path[1..]) else None
  }

  function ReadIn(img: Image, d: nat, name: Name): (r: Option<seq<Byte>>)
    requires EFI_PART_END <= |img|
  {
    match FindIn(img, d, name)
    case None => None
    case Some(e) => if IsDirAttr(e.attr) then None else ReadSized(img, e.cluster, e.size)
  }

  function ReadFile(img: Image, path: seq<Name>, name: Name): (r: Option<seq<Byte>>)
    requires EFI_PART_END <= |img|
  {
    match WalkPath(img, FAT32_ROOT_CLUSTER, path)
    case None => None
    case Some(d) => ReadIn(img, d, name)
  }

  // ----- chains and bytes -----

  function Range(lo: nat, n: nat): (r: seq<nat>)
    ensures |r| == n && forall i | 0 <= i < n :: r[i] == lo + i
  {
    seq(n, i => lo + i)
  }

  /** A chain that ascends by one is the run of its clusters. */
  lemma {:induction false} AscendingChain(fat: FatTable, f: nat, n: nat, limit: nat)
    requires 1 <= n <= limit && 2 <= f && f + n <= MAX_CLUSTER + 1
    requires forall c | f <= c < f + n - 1 :: fat[c] == c + 1
    requires fat[f + n - 1] == END_OF_CHAIN
    ensures Chain(fat, f, limit) == Some(Range(f, n))
    decreases n
  {
    if n == 1 {
      assert Range(f, 1) == [f];
    } else {
      AscendingChain(fat, f + 1, n - 1, limit - 1);
      assert [f] + Range(f + 1, n - 1) == Range(f, n);
    }
  }

  lemma {:induction false} RangeData(img: Image, f: nat, n: nat, j: nat)
    requires Holds(img) && 2 <= f && f + n <= MAX_CLUSTER + 1 && j < n * CLUSTER_BYTES
    ensures ChainData(img, Range(f, n))[j] == img[ClusterLba(f) + j / 512][j % 512]
    decreases n
  {
    assert Range(f, n)[1..] == Range(f + 1, n - 1);
    if j >= CLUSTER_BYTES {
      RangeData(img, f + 1, n - 1, j - CLUSTER_BYTES);
      assert j / 512 == 8 + (j - CLUSTER_BYTES) / 512;
    }
  }

  lemma ReadStoredFile(img: Image, f: nat, data: seq<Byte>)
    requires Holds(img) && 2 <= f && f + Span(|data|) <= MAX_CLUSTER + 1
    requires FileStored(img, f, data)
    ensures ReadSized(img, f, |data|) == Some(data)
  {
    var n := Span(|data|);
    AscendingChain(Table(img), f, n, FAT_ENTRIES);
    var bytes := ChainData(img, Range(f, n));
    forall j | 0 <= j < |data| ensures bytes[j] == data[j] {
      RangeData(img, f, n, j);
    }
    assert bytes[..|data|] == data;
  }

  // ----- directories -----

  lemma ReadStoredDir(img: Image, d: nat)
    requires Holds(img) && 2 <= d <= MAX_CLUSTER && FatEntry(img, d) == END_OF_CHAIN
    ensures ReadChain(img, d) == Some(ClusterData(img, d))
  {
    AscendingChain(Table(img), d, 1, FAT_ENTRIES);
    var cs := Range(d, 1);
    assert ChainData(img, cs[1..]) == [];
    assert ChainData(img, cs) == ClusterData(img, d);
  }

  lemma SlotOfBytes(img: Image, d: nat, k: nat)
    requires Holds(img) && 2 <= d <= MAX_CLUSTER && k < DIR_SLOTS
    ensures SlotIn(ClusterData(img, d), k) == Slot(img, d, k)
  {
    forall i | 0 <= i < SLOT_BYTES
      ensures ClusterData(img, d)[k * SLOT_BYTES + i] == Slot(img, d, k)[i]
    {
      var j := k * SLOT_BYTES + i;
      assert j == k / 16 * 512 + (k % 16 * SLOT_BYTES + i);
      assert j / 512 == k / 16 && j % 512 == k % 16 * SLOT_BYTES + i;
    }
  }

  /** `bytes` are the encoded entries of `l` followed by zero slots. */
  ghost predicate Lists(bytes: seq<Byte>, l: seq<DirEnt>) {
    && |bytes| == CLUSTER_BYTES && |l| <= DIR_SLOTS
    && forall k | 0 <= k < DIR_SLOTS ::
         SlotIn(bytes, k) == if k < |l| then EncodeEnt(l[k]) else Zeros(SLOT_BYTES)
  }

  ghost predicate Readable(l: seq<DirEnt>) {
    forall i | 0 <= i < |l| ::
      Storable(l[i]) && l[i].name[0] != 0x00 && l[i].name[0] != 0xE5 && l[i].attr / 8 % 2 == 0
  }

  lemma {:induction false} EntriesOfList(bytes: seq<Byte>, l: seq<DirEnt>, k: nat)
    requires Lists(bytes, l) && Readable(l) && k <= |l|
    ensures Entries(bytes, k) == l[k..]
    decreases |l| - k
  {
    hide SlotIn, EncodeEnt, DecodeEnt;
    if k < |l| {
      Encoded(l[k]);
      EntriesOfList(bytes, l, k + 1);
      assert SlotIn(bytes, k) == EncodeEnt(l[k]);
      assert l[k..] == [l[k]] + l[k + 1..];
    } else if k < DIR_SLOTS {
      assert SlotIn(bytes, k)[0] == Zeros(SLOT_BYTES)[0] == 0;
    }
  }

  lemma Encoded(e: DirEnt)
    requires Storable(e)
    ensures EncodeEnt(e)[0] == e.name[0] && EncodeEnt(e)[11] == e.attr && DecodeEnt(EncodeEnt(e)) == e
  {
    hide Le32;
    DirEntRoundTrip(e);
  }

  lemma FindInStored(img: Image, d: nat, l: seq<DirEnt>, name: Name)
    requires Holds(img) && 2 <= d <= MAX_CLUSTER && |l| <= DIR_SLOTS
    requires FatEntry(img, d) == END_OF_CHAIN && SlotsHold(img, d, l) && Readable(l)
    ensures FindIn(img, d, name) == Lookup(l, name, 0)
  {
    ReadStoredDir(img, d);
    var bytes := ClusterData(img, d);
    forall k | 0 <= k < DIR_SLOTS
      ensures SlotIn(bytes, k) == if k < |l| then EncodeEnt(l[k]) else Zeros(SLOT_BYTES)
    {
      SlotOfBytes(img, d, k);
    }
    EntriesOfList(bytes, l, 0);
    assert l[0..] == l;
  }

  // ----- the reader sees the volume -----

  ghost predicate Agrees(img: Image, v: Volume)
    requires Holds(img)
  {
    && (forall d, name: Name | d in v.dirs :: FindIn(img, d, name) == Lookup(v.dirs[d], name, 0))
    && (forall f | f in v.files :: ReadSized(img, f, |v.files[f]|) == Some(v.files[f]))
  }

  lemma LinkedReadable(v: Volume, d: nat)
    requires AllLinked(v) && d in v.dirs
    ensures Readable(v.dirs[d])
  {
    forall i | 0 <= i < |v.dirs[d]|
      ensures Storable(v.dirs[d][i]) && v.dirs[d][i].name[0] != 0x00 && v.dirs[d][i].name[0] != 0xE5
      ensures v.dirs[d][i].attr / 8 % 2 == 0
    {
      assert Linked(v, d, v.dirs[d][i]);
    }
  }

  lemma RepresentedAgrees(img: Image, v: Volume)
    requires Represents(img, v)
    ensures Agrees(img, v)
  {
    hide Readable, AllLinked, Disjoint, FindIn, ReadSized, Lookup;
    forall d, name: Name | d in v.dirs ensures FindIn(img, d, name) == Lookup(v.dirs[d], name, 0) {
      LinkedReadable(v, d);
      FindInStored(img, d, v.dirs[d], name);
    }
    forall f | f in v.files ensures ReadSized(img, f, |v.files[f]|) == Some(v.files[f]) {
      ReadStoredFile(img, f, v.files[f]);
    }
  }

  lemma {:induction false} WalkPathIsResolve(img: Image, v: Volume, d: nat, path: seq<Name>)
    requires Holds(img) && Agrees(img, v) && AllLinked(v) && d in v.dirs
    ensures WalkPath(img, d, path) == Resolve(v, d, path)
    ensures Resolve(v, d, path).Some? ==> Resolve(v, d, path).value in v.dirs
    decreases |path|
  {
    hide FindIn, ReadSized, Lookup;
    if path != [] && Lookup(v.dirs[d], path[0], 0).Some? {
      var i := LookupIn(v.dirs[d], path[0], 0);
      assert Linked(v, d, v.dirs[d][i]);
      if IsDirAttr(v.dirs[d][i].attr) {
        WalkPathIsResolve(img, v, v.dirs[d][i].cluster, path[1..]);
      }
    }
  }

  lemma ReadInIsContents(img: Image, v: Volume, d: nat, name: Name)
    requires Holds(img) && Agrees(img, v) && AllLinked(v) && d in v.dirs
    ensures ReadIn(img, d, name) == Contents(v, d, name)
  {
    hide FindIn, ReadSized, Lookup;
    if Lookup(v.dirs[d], name, 0).Some? {
      var i := LookupIn(v.dirs[d], name, 0);
      assert Linked(v, d, v.dirs[d][i]);
    }
  }

  /** Reading any path from an image gives what the volume it holds has there. */
  lemma ReadFileIsRead(img: Image, v: Volume, path: seq<Name>, name: Name)
    requires Represents(img, v)
    ensures ReadFile(img, path, name) == Read(v, FAT32_ROOT_CLUSTER, path, name)
  {
    RepresentedAgrees(img, v);
    WalkPathIsResolve(img, v, FAT32_ROOT_CLUSTER, path);
    if Resolve(v, FAT32_ROOT_CLUSTER, path).Some? {
      ReadInIsContents(img, v, Resolve(v, FAT32_ROOT_CLUSTER, path).value, name);
    }
  }

  lemma DotsLookup(l: seq<DirEnt>, c: nat, parent: nat)
    requires DotEntries(c, parent) <= l
    ensures Lookup(l, DOT, 0) == Some(DirEnt(DOT, ATTR_DIRECTORY, c, 0))
    ensures Lookup(l, DOT_DOT, 0) == Some(DirEnt(DOT_DOT, ATTR_DIRECTORY, parent, 0))
  {
    assert l[0] == DotEntries(c, parent)[0] && l[1] == DotEntries(c, parent)[1];
    assert DOT[1] != DOT_DOT[1];
  }

  lemma WalkOne(img: Image, d: nat, name: Name)
    requires EFI_PART_END <= |img|
    ensures WalkPath(img, d, [name]) ==
      match FindIn(img, d, name) case None => None case Some(e) => if IsDirAttr(e.attr) then Some(e.cluster) else None
  {
    hide FindIn;
    var rest := [name][1..];
    assert rest == [];
  }

  /** In every tree the writer reaches, the reader finds that `.` in a subdirectory leads to that
      directory and `..` to the one it is listed in. */
  lemma DotsReadBack(img: Image, v: Volume, path: seq<Name>, d: nat, name: Name, c: nat)
    requires Represents(img, v) && ValidName(name)
    requires WalkPath(img, FAT32_ROOT_CLUSTER, path) == Some(d) && WalkPath(img, d, [name]) == Some(c)
    ensures WalkPath(img, c, [DOT]) == Some(c) && WalkPath(img, c, [DOT_DOT]) == Some(d)
  {
    hide Represents, FindIn, WalkPath, Lookup, AllLinked, Agrees, Resolve;
    ReadableVolume(img, v);
    WalkPathIsResolve(img, v, FAT32_ROOT_CLUSTER, path);
    DotsFrom(img, v, d, name, c);
  }

  lemma DotsFrom(img: Image, v: Volume, d: nat, name: Name, c: nat)
    requires Holds(img) && Agrees(img, v) && AllLinked(v) && d in v.dirs && ValidName(name) && WalkPath(img, d, [name]) == Some(c)
    ensures WalkPath(img, c, [DOT]) == Some(c) && WalkPath(img, c, [DOT_DOT]) == Some(d)
  {
    hide FindIn, ReadSized, WalkPath, Lookup, AllLinked;
    WalkOne(img, d, name);
    DotsAt(v, d, name);
    WalkOne(img, c, DOT);
    WalkOne(img, c, DOT_DOT);
    assert IsDirAttr(ATTR_DIRECTORY);
  }

  lemma ReadableVolume(img: Image, v: Volume)
    requires Represents(img, v)
    ensures Holds(img) && Agrees(img, v) && AllLinked(v) && FAT32_ROOT_CLUSTER in v.dirs
  {
    RepresentedAgrees(img, v);
    RepresentedVolume(img, v);
    hide Agrees, AllLinked, Disjoint;
  }

  lemma DotsAt(v: Volume, d: nat, name: Name)
    requires AllLinked(v) && d in v.dirs && ValidName(name)
    ensures match Lookup(v.dirs[d], name, 0)
      case None => true
      case Some(e) => IsDirAttr(e.attr) ==>
        && e.cluster in v.dirs
        && Lookup(v.dirs[e.cluster], DOT, 0) == Some(DirEnt(DOT, ATTR_DIRECTORY, e.cluster, 0))
        && Lookup(v.dirs[e.cluster], DOT_DOT, 0) == Some(DirEnt(DOT_DOT, ATTR_DIRECTORY, d, 0))
  {
    if Lookup(v.dirs[d], name, 0).Some? {
      var i := LookupIn(v.dirs[d], name, 0);
      var e := v.dirs[d][i];
      assert Linked(v, d, e);
      if IsDirAttr(e.attr) { DotsLookup(v.dirs[e.cluster], e.cluster, d); }
    }
  }

  // ----- the FAT itself -----

  /** Clusters taken by the file or directory that starts at `h`. */
  function Extent(v: Volume, h: nat): (n: nat)
    ensures n >= 1
  {
    if h in v.files then Span(|v.files[h]|) else 1
  }

  lemma ChainOf(img: Image, v: Volume, h: nat)
    requires Represents(img, v) && (h in v.dirs || h in v.files)
    ensures h + Extent(v, h) <= v.next
    ensures Chain(Table(img), h, FAT_ENTRIES) == Some(Range(h, Extent(v, h)))
    ensures FatEntry(img, h + Extent(v, h) - 1) == END_OF_CHAIN
  {
    hide FatEntry, SlotsHold, AllLinked, Disjoint, BytesAt, Chain, Span, ClusterLba;
    var n := Extent(v, h);
    if h in v.files { assert FileStored(img, h, v.files[h]); }
    assert ChainFrom(img, h, n);
    AscendingChain(Table(img), h, n, FAT_ENTRIES);
  }

  lemma ExtentsDisjoint(v: Volume, h: nat, g: nat)
    requires WellFormed(v) && (h in v.dirs || h in v.files) && (g in v.dirs || g in v.files) && h != g
    ensures h + Extent(v, h) <= g || g + Extent(v, g) <= h
  {
    hide AllLinked, Span;
  }

  /** The FAT of every volume the writer reaches: every chain ascends by one to the end mark and
      shares no cluster with another, ... */
  lemma ChainsWellFormed(img: Image, v: Volume, h: nat, g: nat)
    requires Represents(img, v)
    requires (h in v.dirs || h in v.files) && (g in v.dirs || g in v.files) && h != g
    ensures var a, b := Chain(Table(img), h, FAT_ENTRIES), Chain(Table(img), g, FAT_ENTRIES);
      && a.Some? && b.Some? && |a.value| == Extent(v, h)
      && (forall i | 0 <= i < |a.value| :: a.value[i] == h + i && a.value[i] !in b.value)
      && FatEntry(img, h + Extent(v, h) - 1) == END_OF_CHAIN
  {
    hide Represents, Chain, FatEntry, Extent;
    ChainOf(img, v, h);
    ChainOf(img, v, g);
    RepresentedVolume(img, v);
    ExtentsDisjoint(v, h, g);
  }

  lemma RepresentedVolume(img: Image, v: Volume)
    requires Represents(img, v)
    ensures WellFormed(v)
  {
  }

  /** ... the copies agree entry by entry, and entries from the allocation mark on are zero. */
  lemma TablesWellFormed(img: Image, v: Volume, c: nat)
    requires Represents(img, v) && c < FAT_ENTRIES
    ensures FatEntryAt(img, FAT32_FAT1_LBA, c) == FatEntryAt(img, FAT32_FAT2_LBA, c)
    ensures c >= v.next ==> FatEntry(img, c) == 0
  {
    hide SlotsHold, AllLinked, FileStored, Disjoint;
    var s := FAT32_FAT1_LBA + c / SECTOR_ENTRIES;
    assert img[s] == img[s + FAT32_FAT_SIZE];
  }
}
