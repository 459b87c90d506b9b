/** What a FAT32 volume written by the installer means, independently of bytes and sectors:
    directories as lists of entries, files as byte strings, each known by its first cluster. */
module Fat32Volume {
  import opened Common
  import opened Fat32Layout

  datatype Volume = Volume(next: nat, dirs: map<nat, seq<DirEnt>>, files: map<nat, seq<Byte>>)

  const EMPTY_VOLUME := Volume(3, map[FAT32_ROOT_CLUSTER := []], map[])

  /** Clusters taken by a file of `len` bytes; an empty file takes one. */
  function Span(len: nat): (n: nat)
    ensures 1 <= n && len <= n * 4096 && (n > 1 ==> (n - 1) * 4096 < len)
  {
    if len == 0 then 1 else (len + CLUSTER_BYTES - 1) / CLUSTER_BYTES
  }

  // ----- well-formed volumes -----

  ghost predicate InRange(v: Volume) {
    && 3 <= v.next <= MAX_CLUSTER + 1
    && FAT32_ROOT_CLUSTER in v.dirs
    && (forall d | d in v.dirs :: 2 <= d < v.next && |v.dirs[d]| <= DIR_SLOTS)
    && (forall f | f in v.files :: 3 <= f && f + Span(|v.files[f]|) <= v.next)
  }

  /** No two directories or files share a cluster. */
  ghost predicate Disjoint(v: Volume) {
    && (forall d, f | d in v.dirs && f in v.files :: !(f <= d < f + Span(|v.files[f]|)))
    && (forall f, g | f in v.files && g in v.files && f < g :: f + Span(|v.files[f]|) <= g)
  }

  /** The first two entries of the directory in cluster `c` below the one in cluster `parent`. */
  function DotEntries(c: nat, parent: nat): seq<DirEnt> {
    [DirEnt(DOT, ATTR_DIRECTORY, c, 0), DirEnt(DOT_DOT, ATTR_DIRECTORY, parent, 0)]
  }

  predicate Linked(v: Volume, d: nat, e: DirEnt) {
    && Storable(e)
    && e.name[0] != 0x00 && e.name[0] != 0xE5
    && (e.attr == ATTR_DIRECTORY || e.attr == ATTR_ARCHIVE)
    && (e.attr == ATTR_DIRECTORY ==> e.cluster in v.dirs && e.size == 0)
    && (e.attr == ATTR_DIRECTORY && ValidName(e.name) ==> DotEntries(e.cluster, d) <= v.dirs[e.cluster])
    && (e.attr == ATTR_ARCHIVE ==> e.cluster in v.files && e.size == |v.files[e.cluster]|)
  }

  /** Every entry names a stored file or directory, and the dot entries of a directory
      name itself and the directory that lists it. */
  ghost predicate AllLinked(v: Volume) {
    forall d, k | d in v.dirs && 0 <= k < |v.dirs[d]| :: Linked(v, d, v.dirs[d][k])
  }

  ghost predicate WellFormed(v: Volume) {
    InRange(v) && Disjoint(v) && AllLinked(v)
  }

  /** `w` has everything `v` has, at the same place: directories only grow at their end. */
  ghost predicate Extends(w: Volume, v: Volume) {
    && v.next <= w.next
    && (forall d | d in v.dirs :: d in w.dirs && v.dirs[d] <= w.dirs[d])
    && (forall f | f in v.files :: f in w.files && w.files[f] == v.files[f])
  }

  // ----- operations of the writer -----

  /** First subdirectory called `name` among the entries from index `k` on. */
  function FindDir(l: seq<DirEnt>, name: Name, k: nat): (r: Option<nat>)
    decreases |l| - k
  {
    if k >= |l| then None
    else if IsDirAttr(l[k].attr) && l[k].name == name then Some(l[k].cluster)
    else FindDir(l, name, k + 1)
  }

  function Append(v: Volume, d: nat, e: DirEnt): (r: (Volume, bool))
    requires d in v.dirs
  {
    if |v.dirs[d]| < DIR_SLOTS then (v.(dirs := v.dirs[d := v.dirs[d] + [e]]), true) else (v, false)
  }

  function NewDir(v: Volume, parent: nat): Volume {
    v.(next := v.next + 1, dirs := v.dirs[v.next := DotEntries(v.next, parent)])
  }

  function FindOrCreate(v: Volume, d: nat, name: Name): (r: (Volume, Option<nat>))
    requires d in v.dirs
  {
    match FindDir(v.dirs[d], name, 0)
    case Some(c) => (v, Some(c))
    case None =>
      if v.next > MAX_CLUSTER then (v, None)
      else
        var (w, ok) := Append(NewDir(v, d), d, DirEnt(name, ATTR_DIRECTORY, v.next, 0));
        (w, if ok then Some(v.next) else None)
  }

  /** Directory at the end of `path`, made as far as it is missing. */
  function MakePath(v: Volume, d: nat, path: seq<Name>): (r: (Volume, Option<nat>))
    decreases |path|
  {
    if path == [] then (v, Some(d))
    else if d !in v.dirs then (v, None)
    else
      var (w, c) := FindOrCreate(v, d, path[0]);
      if c.None? then (w, None) else MakePath(w, c.value, path[1..])
  }

  /** When the clusters run out the remaining ones are lost. */
  function Store(v: Volume, data: seq<Byte>): (r: (Volume, Option<nat>)) {
    if v.next + Span(|data|) <= MAX_CLUSTER + 1
    then (v.(next := v.next + Span(|data|), files := v.files[v.next := data]), Some(v.next))
    else (v.(next := MAX_CLUSTER + 1), None)
  }

  function WriteFile(v: Volume, path: seq<Name>, name: Name, data: seq<Byte>): (r: (Volume, bool)) {
    var (v1, d) := MakePath(v, FAT32_ROOT_CLUSTER, path);
    if d.None? then (v1, false)
    else
      var (v2, f) := Store(v1, data);
      if f.None? || d.value !in v2.dirs then (v2, false)
      else Append(v2, d.value, DirEnt(name, ATTR_ARCHIVE, f.value, |data|))
  }

  // ----- looking things up -----

  /** First entry called `name`, file or directory, from index `k` on. */
  function Lookup(l: seq<DirEnt>, name: Name, k: nat): (r: Option<DirEnt>)
    decreases |l| - k
  {
    if k >= |l| then None
    else if l[k].name == name then Some(l[k])
    else Lookup(l, name, k + 1)
  }

  function Resolve(v: Volume, d: nat, path: seq<Name>): (r: Option<nat>)
    decreases |path|
  {
    if path == [] then Some(d)
    else if d !in v.dirs then None
    else
      match Lookup(v.dirs[d], path[0], 0)
      case None => None
      case Some(e) => if IsDirAttr(e.attr) then Resolve(v, e.cluster, path[1..]) else None
  }

  function Contents(v: Volume, d: nat, name: Name): (r: Option<seq<Byte>>) {
    if d !in v.dirs then None
    else
      match Lookup(v.dirs[d], name, 0)
      case None => None
      case Some(e) => if IsDirAttr(e.attr) || e.cluster !in v.files then None else Some(v.files[e.cluster])
  }

  function Read(v: Volume, d: nat, path: seq<Name>, name: Name): (r: Option<seq<Byte>>) {
    match Resolve(v, d, path)
    case None => None
    case Some(c) => Contents(v, c, name)
  }

  /** No component of `path` is the name of a file, and nothing is called `name` in its
      directory yet. */
  predicate Fresh(v: Volume, d: nat, path: seq<Name>, name: Name)
    decreases |path|
  {
    d in v.dirs ==>
      if path == [] then Lookup(v.dirs[d], name, 0).None?
      else
        match Lookup(v.dirs[d], path[0], 0)
        case None => true
        case Some(e) => IsDirAttr(e.attr) && Fresh(v, e.cluster, path[1..], name)
  }

  // ----- every operation keeps the volume well formed and everything in it -----

  lemma {:induction false} LookupIn(l: seq<DirEnt>, name: Name, k: nat) returns (i: nat)
    requires Lookup(l, name, k).Some?
    ensures k <= i < |l| && l[i] == Lookup(l, name, k).value && l[i].name == name
    ensures forall j | k <= j < i :: l[j].name != name
    decreases |l| - k
  {
    if l[k].name == name { i := k; } else { i := LookupIn(l, name, k + 1); }
  }

  lemma {:induction false} FindDirIn(l: seq<DirEnt>, name: Name, k: nat) returns (i: nat)
    requires FindDir(l, name, k).Some?
    ensures k <= i < |l| && l[i].cluster == FindDir(l, name, k).value && l[i].name == name && IsDirAttr(l[i].attr)
    decreases |l| - k
  {
    if IsDirAttr(l[k].attr) && l[k].name == name { i := k; } else { i := FindDirIn(l, name, k + 1); }
  }

  /** A prefix decides a look-up that succeeds in it, and what is appended decides the others. */
  lemma {:induction false} LookupAppend(l: seq<DirEnt>, m: seq<DirEnt>, name: Name, k: nat)
    requires k <= |l|
    ensures Lookup(l + m, name, k) ==
            if Lookup(l, name, k).Some? then Lookup(l, name, k) else Lookup(l + m, name, |l|)
    decreases |l| - k
  {
    if k < |l| && l[k].name != name { LookupAppend(l, m, name, k + 1); }
  }

  lemma LookupPrefix(l: seq<DirEnt>, m: seq<DirEnt>, name: Name)
    requires l <= m
    ensures Lookup(l, name, 0).Some? ==> Lookup(m, name, 0) == Lookup(l, name, 0)
  {
    assert m == l + m[|l|..];
    LookupAppend(l, m[|l|..], name, 0);
  }

  lemma AppendKeeps(v: Volume, d: nat, e: DirEnt)
    requires WellFormed(v) && d in v.dirs && Linked(v, d, e)
    ensures WellFormed(Append(v, d, e).0) && Extends(Append(v, d, e).0, v)
  {
    var w := Append(v, d, e).0;
    forall x, k | x in w.dirs && 0 <= k < |w.dirs[x]| ensures Linked(w, x, w.dirs[x][k]) {
      var ent := w.dirs[x][k];
      assert Linked(v, x, ent);
    }
  }

  lemma NewDirKeeps(v: Volume, parent: nat)
    requires WellFormed(v) && parent in v.dirs && v.next <= MAX_CLUSTER
    ensures WellFormed(NewDir(v, parent)) && Extends(NewDir(v, parent), v)
  {
    var w := NewDir(v, parent);
    forall x, k | x in w.dirs && 0 <= k < |w.dirs[x]| ensures Linked(w, x, w.dirs[x][k]) {
      if x != v.next { assert Linked(v, x, v.dirs[x][k]); }
    }
  }

  lemma FindOrCreateKeeps(v: Volume, d: nat, name: Name)
    requires WellFormed(v) && d in v.dirs && ValidName(name)
    ensures var (w, c) := FindOrCreate(v, d, name);
      && WellFormed(w) && Extends(w, v)
      && (c.Some? ==> c.value in w.dirs && DotEntries(c.value, d) <= w.dirs[c.value])
  {
    hide Disjoint, InRange;
    if FindDir(v.dirs[d], name, 0).Some? {
      var i := FindDirIn(v.dirs[d], name, 0);
      assert Linked(v, d, v.dirs[d][i]);
    } else if v.next <= MAX_CLUSTER {
      NewDirKeeps(v, d);
      AppendKeeps(NewDir(v, d), d, DirEnt(name, ATTR_DIRECTORY, v.next, 0));
    }
  }

  ghost predicate AllValid(path: seq<Name>) {
    forall i | 0 <= i < |path| :: ValidName(path[i])
  }

  lemma {:induction false} MakePathKeeps(v: Volume, d: nat, path: seq<Name>)
    requires WellFormed(v) && d in v.dirs && AllValid(path)
    ensures var (w, c) := MakePath(v, d, path);
      WellFormed(w) && Extends(w, v) && (c.Some? ==> c.value in w.dirs)
    decreases |path|
  {
    if path != [] {
      FindOrCreateKeeps(v, d, path[0]);
      var (w, c) := FindOrCreate(v, d, path[0]);
      if c.Some? { MakePathKeeps(w, c.value, path[1..]); }
    }
  }

  lemma StoreKeeps(v: Volume, data: seq<Byte>)
    requires WellFormed(v)
    ensures WellFormed(Store(v, data).0) && Extends(Store(v, data).0, v)
  {
    hide AllLinked, Disjoint;
    StoreDisjoint(v, data);
    StoreLinks(v, data);
  }

  lemma StoreDisjoint(v: Volume, data: seq<Byte>)
    requires WellFormed(v)
    ensures Disjoint(Store(v, data).0)
  {
    hide AllLinked;
  }

  lemma StoreLinks(v: Volume, data: seq<Byte>)
    requires WellFormed(v)
    ensures AllLinked(Store(v, data).0)
  {
    hide Disjoint, Span;
    var w := Store(v, data).0;
    forall x, k | x in w.dirs && 0 <= k < |w.dirs[x]| ensures Linked(w, x, w.dirs[x][k]) {
      assert Linked(v, x, v.dirs[x][k]);
    }
  }

  lemma ExtendsTrans(u: Volume, w: Volume, v: Volume)
    requires Extends(u, w) && Extends(w, v)
    ensures Extends(u, v)
  {}

  lemma WriteFileKeeps(v: Volume, path: seq<Name>, name: Name, data: seq<Byte>)
    requires WellFormed(v) && AllValid(path) && ValidName(name)
    ensures WellFormed(WriteFile(v, path, name, data).0)
    ensures Extends(WriteFile(v, path, name, data).0, v)
  {
    hide Disjoint, AllLinked, MakePath, Extends;
    MakePathKeeps(v, FAT32_ROOT_CLUSTER, path);
    var (v1, d) := MakePath(v, FAT32_ROOT_CLUSTER, path);
    if d.Some? {
      StoreKeeps(v1, data);
      var (v2, f) := Store(v1, data);
      ExtendsTrans(v2, v1, v);
      if f.Some? {
        var e := DirEnt(name, ATTR_ARCHIVE, f.value, |data|);
        AppendKeeps(v2, d.value, e);
        ExtendsTrans(Append(v2, d.value, e).0, v2, v);
      }
    }
  }

  // ----- what later calls cannot change -----

  lemma {:induction false} ResolveExtends(w: Volume, v: Volume, d: nat, path: seq<Name>)
    requires Extends(w, v) && d in v.dirs && AllLinked(v)
    requires Resolve(v, d, path).Some?
    ensures Resolve(w, d, path) == Resolve(v, d, path) && Resolve(v, d, path).value in v.dirs
    decreases |path|
  {
    if path != [] {
      LookupPrefix(v.dirs[d], w.dirs[d], path[0]);
      var i := LookupIn(v.dirs[d], path[0], 0);
      assert Linked(v, d, v.dirs[d][i]);
      ResolveExtends(w, v, v.dirs[d][i].cluster, path[1..]);
    }
  }

  /** A file that can be read stays readable, with the same bytes, whatever is written later. */
  lemma ReadExtends(w: Volume, v: Volume, d: nat, path: seq<Name>, name: Name)
    requires Extends(w, v) && d in v.dirs && AllLinked(v)
    requires Read(v, d, path, name).Some?
    ensures Read(w, d, path, name) == Read(v, d, path, name)
  {
    ResolveExtends(w, v, d, path);
    var c := Resolve(v, d, path).value;
    LookupPrefix(v.dirs[c], w.dirs[c], name);
  }

  lemma {:induction false} FindDirPrefix(l: seq<DirEnt>, m: seq<DirEnt>, name: Name, k: nat)
    requires l <= m && k <= |l|
    ensures FindDir(l, name, k).Some? ==> FindDir(m, name, k) == FindDir(l, name, k)
    ensures FindDir(l, name, k).None? ==> FindDir(m, name, k) == FindDir(m, name, |l|)
    decreases |l| - k
  {
    if k < |l| && !(IsDirAttr(l[k].attr) && l[k].name == name) { FindDirPrefix(l, m, name, k + 1); }
  }

  /** Asking for a directory again, at any later time, gives the same cluster and allocates nothing. */
  lemma FindOrCreateAgain(v: Volume, d: nat, name: Name, u: Volume)
    requires WellFormed(v) && d in v.dirs && ValidName(name)
    requires FindOrCreate(v, d, name).1.Some? && Extends(u, FindOrCreate(v, d, name).0)
    ensures d in u.dirs && FindOrCreate(u, d, name) == (u, FindOrCreate(v, d, name).1)
  {
    hide Disjoint, AllLinked;
    FindOrCreateKeeps(v, d, name);
    var w := FindOrCreate(v, d, name).0;
    FindDirPrefix(v.dirs[d], w.dirs[d], name, 0);
    FindDirPrefix(w.dirs[d], u.dirs[d], name, 0);
  }

  // ----- what a successful call achieves -----

  lemma {:induction false} FindDirIsLookup(l: seq<DirEnt>, name: Name, k: nat)
    ensures Lookup(l, name, k).None? ==> FindDir(l, name, k).None?
    ensures Lookup(l, name, k).Some? && IsDirAttr(Lookup(l, name, k).value.attr)
            ==> FindDir(l, name, k) == Some(Lookup(l, name, k).value.cluster)
    decreases |l| - k
  {
    if k < |l| && l[k].name != name { FindDirIsLookup(l, name, k + 1); }
  }

  /** One step of the walk: afterwards the component resolves to the returned cluster, and
      the rest of the path is as fresh as it was. */
  lemma FindOrCreateResolves(v: Volume, d: nat, path: seq<Name>, name: Name)
    requires d in v.dirs && v.next !in v.dirs && AllValid(path) && ValidName(name) && path != []
    requires Fresh(v, d, path, name) && FindOrCreate(v, d, path[0]).1.Some?
    ensures var (w, c) := FindOrCreate(v, d, path[0]);
      && d in w.dirs
      && Lookup(w.dirs[d], path[0], 0).Some?
      && IsDirAttr(Lookup(w.dirs[d], path[0], 0).value.attr)
      && Lookup(w.dirs[d], path[0], 0).value.cluster == c.value
      && Fresh(w, c.value, path[1..], name)
  {
    FindDirIsLookup(v.dirs[d], path[0], 0);
    if Lookup(v.dirs[d], path[0], 0).None? {
      CreateResolves(v, d, path[0]);
      NewDirIsFresh(FindOrCreate(v, d, path[0]).0, v.next, d, path[1..], name);
    }
  }

  lemma CreateResolves(v: Volume, d: nat, name: Name)
    requires d in v.dirs && v.next !in v.dirs
    requires Lookup(v.dirs[d], name, 0).None? && FindDir(v.dirs[d], name, 0).None?
    requires FindOrCreate(v, d, name).1.Some?
    ensures var (w, c) := FindOrCreate(v, d, name);
      && c == Some(v.next)
      && v.next in w.dirs && w.dirs[v.next] == DotEntries(v.next, d)
      && d in w.dirs && Lookup(w.dirs[d], name, 0) == Some(DirEnt(name, ATTR_DIRECTORY, v.next, 0))
  {
    LookupAppend(v.dirs[d], [DirEnt(name, ATTR_DIRECTORY, v.next, 0)], name, 0);
  }

  lemma NewDirIsFresh(v: Volume, c: nat, d: nat, path: seq<Name>, name: Name)
    requires c in v.dirs && v.dirs[c] == DotEntries(c, d)
    requires AllValid(path) && ValidName(name)
    ensures Fresh(v, c, path, name)
  {
    var n := if path == [] then name else path[0];
    assert ValidName(n);
    assert Lookup(DotEntries(c, d), n, 2).None?;
  }

  lemma {:induction false} MakePathResolves(v: Volume, d: nat, path: seq<Name>, name: Name)
    requires WellFormed(v) && d in v.dirs && AllValid(path) && ValidName(name)
    requires Fresh(v, d, path, name) && MakePath(v, d, path).1.Some?
    ensures var (w, c) := MakePath(v, d, path);
      Resolve(w, d, path) == c && c.value in w.dirs && Lookup(w.dirs[c.value], name, 0).None?
    decreases |path|
  {
    if path != [] {
      FindOrCreateKeeps(v, d, path[0]);
      FindOrCreateResolves(v, d, path, name);
      var (v1, c1) := FindOrCreate(v, d, path[0]);
      MakePathKeeps(v1, c1.value, path[1..]);
      MakePathResolves(v1, c1.value, path[1..], name);
      LookupPrefix(v1.dirs[d], MakePath(v, d, path).0.dirs[d], path[0]);
    }
  }

  /** What stands in the way of a path that is not fresh stays there. */
  lemma {:induction false} NotFreshStays(w: Volume, v: Volume, d: nat, path: seq<Name>, name: Name)
    requires Extends(w, v) && d in v.dirs && AllLinked(v)
    requires !Fresh(v, d, path, name)
    ensures Read(w, d, path, name) == Read(v, d, path, name)
    decreases |path|
  {
    var n := if path == [] then name else path[0];
    LookupPrefix(v.dirs[d], w.dirs[d], n);
    var i := LookupIn(v.dirs[d], n, 0);
    assert Linked(v, d, v.dirs[d][i]);
    if path != [] && IsDirAttr(v.dirs[d][i].attr) {
      NotFreshStays(w, v, v.dirs[d][i].cluster, path[1..], name);
    }
  }

  lemma FreshWriteReadBack(v: Volume, path: seq<Name>, name: Name, data: seq<Byte>)
    requires WellFormed(v) && AllValid(path) && ValidName(name)
    requires WriteFile(v, path, name, data).1 && Fresh(v, FAT32_ROOT_CLUSTER, path, name)
    ensures Read(WriteFile(v, path, name, data).0, FAT32_ROOT_CLUSTER, path, name) == Some(data)
  {
    hide Disjoint, AllLinked, MakePath, Resolve, Fresh;
    var root := FAT32_ROOT_CLUSTER;
    MakePathKeeps(v, root, path);
    MakePathResolves(v, root, path, name);
    var (v1, d) := MakePath(v, root, path);
    StoreKeeps(v1, data);
    var (v2, f) := Store(v1, data);
    var e := DirEnt(name, ATTR_ARCHIVE, f.value, |data|);
    AppendKeeps(v2, d.value, e);
    var w := Append(v2, d.value, e).0;
    ResolveExtends(w, v1, root, path);
    LookupAppend(v2.dirs[d.value], [e], name, 0);
    assert Contents(w, d.value, name) == Some(data);
  }

  /** A successful `write_file` on a fresh path makes exactly its data readable there; on a path
      that is not fresh it changes nothing for a reader, who goes on seeing what was there before. */
  lemma WriteFileReadBack(v: Volume, path: seq<Name>, name: Name, data: seq<Byte>)
    requires WellFormed(v) && AllValid(path) && ValidName(name)
    requires WriteFile(v, path, name, data).1
    ensures Read(WriteFile(v, path, name, data).0, FAT32_ROOT_CLUSTER, path, name) ==
            if Fresh(v, FAT32_ROOT_CLUSTER, path, name) then Some(data)
            else Read(v, FAT32_ROOT_CLUSTER, path, name)
  {
    if Fresh(v, FAT32_ROOT_CLUSTER, path, name) {
      FreshWriteReadBack(v, path, name, data);
    } else {
      WriteFileKeeps(v, path, name, data);
      NotFreshStays(WriteFile(v, path, name, data).0, v, FAT32_ROOT_CLUSTER, path, name);
    }
  }

  // ----- runs of calls -----

  datatype Call = Call(path: seq<Name>, name: Name, data: seq<Byte>)

  ghost predicate ValidCall(c: Call) {
    AllValid(c.path) && ValidName(c.name)
  }

  ghost predicate ValidCalls(calls: seq<Call>) {
    forall i | 0 <= i < |calls| :: ValidCall(calls[i])
  }

  /** The volume after the given calls, whether each succeeds or not. */
  function Run(v: Volume, calls: seq<Call>): Volume {
    if calls == [] then v
    else
      var c := calls[|calls| - 1];
      WriteFile(Run(v, calls[..|calls| - 1]), c.path, c.name, c.data).0
  }

  lemma {:induction false} RunKeeps(v: Volume, calls: seq<Call>, i: nat)
    requires WellFormed(v) && ValidCalls(calls) && i <= |calls|
    ensures WellFormed(Run(v, calls)) && Extends(Run(v, calls), Run(v, calls[..i]))
    ensures WellFormed(Run(v, calls[..i]))
    decreases |calls|
  {
    if i == |calls| {
      assert calls[..i] == calls;
      if calls != [] { RunKeeps(v, calls[..i - 1], i - 1); RunStep(v, calls); }
    } else {
      var init := calls[..|calls| - 1];
      RunKeeps(v, init, i);
      assert init[..i] == calls[..i];
      RunStep(v, calls);
    }
  }

  lemma RunStep(v: Volume, calls: seq<Call>)
    requires ValidCalls(calls) && calls != [] && WellFormed(Run(v, calls[..|calls| - 1]))
    ensures WellFormed(Run(v, calls)) && Extends(Run(v, calls), Run(v, calls[..|calls| - 1]))
  {
    var c := calls[|calls| - 1];
    assert ValidCall(c);
    WriteFileKeeps(Run(v, calls[..|calls| - 1]), c.path, c.name, c.data);
  }

  predicate Succeeded(v: Volume, calls: seq<Call>, i: nat)
    requires i < |calls|
  {
    WriteFile(Run(v, calls[..i]), calls[i].path, calls[i].name, calls[i].data).1
  }

  /** After any run of calls, every file whose call succeeded on a fresh path can be read back
      in full, however many calls came later and whether or not those succeeded. */
  lemma RunReadBack(v: Volume, calls: seq<Call>, i: nat)
    requires WellFormed(v) && ValidCalls(calls) && i < |calls|
    requires Succeeded(v, calls, i)
    requires Fresh(Run(v, calls[..i]), FAT32_ROOT_CLUSTER, calls[i].path, calls[i].name)
    ensures Read(Run(v, calls), FAT32_ROOT_CLUSTER, calls[i].path, calls[i].name) == Some(calls[i].data)
  {
    RunKeeps(v, calls, i);
    RunKeeps(v, calls, i + 1);
    assert calls[..i + 1][..i] == calls[..i];
    assert ValidCall(calls[i]);
    WriteFileReadBack(Run(v, calls[..i]), calls[i].path, calls[i].name, calls[i].data);
    ReadExtends(Run(v, calls), Run(v, calls[..i + 1]), FAT32_ROOT_CLUSTER, calls[i].path, calls[i].name);
  }

  // ----- calls that do not clash -----

  function Full(c: Call): seq<Name> {
    c.path + [c.name]
  }

  /** No file is written twice, and none under a name that another call uses for a directory. */
  ghost predicate NonClashing(calls: seq<Call>) {
    forall i, j | 0 <= i < |calls| && 0 <= j < |calls| && i != j :: !(Full(calls[i]) <= Full(calls[j]))
  }

  ghost predicate DirOfCall(q: seq<Name>, calls: seq<Call>) {
    exists i | 0 <= i < |calls| :: q < Full(calls[i])
  }

  ghost predicate FileOfCall(q: seq<Name>, calls: seq<Call>) {
    exists i | 0 <= i < |calls| :: q == Full(calls[i])
  }

  /** Entry `e` of directory `d` is there because of one of the calls; `at` gives the path of
      every directory. */
  ghost predicate FromCall(v: Volume, at: map<nat, seq<Name>>, calls: seq<Call>, d: nat, e: DirEnt)
    requires d in at
  {
    && (IsDirAttr(e.attr) ==> e.cluster in at && at[e.cluster] == at[d] + [e.name] && DirOfCall(at[d] + [e.name], calls))
    && (!IsDirAttr(e.attr) ==> FileOfCall(at[d] + [e.name], calls))
  }

  ghost predicate Explained(v: Volume, at: map<nat, seq<Name>>, calls: seq<Call>) {
    && at.Keys == v.dirs.Keys
    && FAT32_ROOT_CLUSTER in at && at[FAT32_ROOT_CLUSTER] == []
    && forall d, k | d in v.dirs && 0 <= k < |v.dirs[d]| && ValidName(v.dirs[d][k].name) ::
         FromCall(v, at, calls, d, v.dirs[d][k])
  }

  lemma AppendExplained(v: Volume, at: map<nat, seq<Name>>, calls: seq<Call>, d: nat, e: DirEnt)
    requires Explained(v, at, calls) && d in v.dirs && FromCall(v, at, calls, d, e)
    ensures Explained(Append(v, d, e).0, at, calls)
  {
    var w := Append(v, d, e).0;
    forall x, k | x in w.dirs && 0 <= k < |w.dirs[x]| && ValidName(w.dirs[x][k].name)
      ensures FromCall(w, at, calls, x, w.dirs[x][k])
    {
      if k < |v.dirs[x]| { assert FromCall(v, at, calls, x, v.dirs[x][k]); }
    }
  }

  lemma NewDirExplained(v: Volume, at: map<nat, seq<Name>>, calls: seq<Call>, parent: nat, q: seq<Name>)
    requires Explained(v, at, calls) && v.next !in v.dirs
    ensures Explained(NewDir(v, parent), at[v.next := q], calls)
  {
    var w, at' := NewDir(v, parent), at[v.next := q];
    forall x, k | x in w.dirs && 0 <= k < |w.dirs[x]| && ValidName(w.dirs[x][k].name)
      ensures FromCall(w, at', calls, x, w.dirs[x][k])
    {
      assert FromCall(v, at, calls, x, v.dirs[x][k]);
    }
  }

  lemma FindOrCreateExplained(v: Volume, at: map<nat, seq<Name>>, calls: seq<Call>, d: nat, name: Name)
    returns (at': map<nat, seq<Name>>)
    requires WellFormed(v) && Explained(v, at, calls) && d in v.dirs && ValidName(name)
    requires DirOfCall(at[d] + [name], calls)
    ensures var (w, c) := FindOrCreate(v, d, name);
      && Explained(w, at', calls) && d in at' && at'[d] == at[d]
      && (c.Some? ==> c.value in at' && at'[c.value] == at[d] + [name])
  {
    at' := at;
    if FindDir(v.dirs[d], name, 0).Some? {
      var i := FindDirIn(v.dirs[d], name, 0);
      assert FromCall(v, at, calls, d, v.dirs[d][i]);
    } else if v.next <= MAX_CLUSTER {
      at' := at[v.next := at[d] + [name]];
      NewDirExplained(v, at, calls, d, at[d] + [name]);
      AppendExplained(NewDir(v, d), at', calls, d, DirEnt(name, ATTR_DIRECTORY, v.next, 0));
    }
  }

  lemma {:induction false} MakePathExplained(v: Volume, at: map<nat, seq<Name>>, calls: seq<Call>, d: nat, path: seq<Name>)
    returns (at': map<nat, seq<Name>>)
    requires WellFormed(v) && Explained(v, at, calls) && d in v.dirs && AllValid(path)
    requires path == [] || DirOfCall(at[d] + path, calls)
    ensures var (w, c) := MakePath(v, d, path);
      && Explained(w, at', calls)
      && (c.Some? ==> c.value in at' && at'[c.value] == at[d] + path)
    decreases |path|
  {
    at' := at;
    if path == [] {
      assert at[d] + path == at[d];
    } else {
      var i :| 0 <= i < |calls| && at[d] + path < Full(calls[i]);
      assert at[d] + [path[0]] <= at[d] + path;
      FindOrCreateKeeps(v, d, path[0]);
      at' := FindOrCreateExplained(v, at, calls, d, path[0]);
      var (w, c) := FindOrCreate(v, d, path[0]);
      if c.Some? {
        assert at'[c.value] + path[1..] == at[d] + path;
        at' := MakePathExplained(w, at', calls, c.value, path[1..]);
      }
    }
  }

  lemma WriteFileExplained(v: Volume, at: map<nat, seq<Name>>, calls: seq<Call>, i: nat)
    returns (at': map<nat, seq<Name>>)
    requires WellFormed(v) && Explained(v, at, calls) && i < |calls| && ValidCall(calls[i])
    ensures Explained(WriteFile(v, calls[i].path, calls[i].name, calls[i].data).0, at', calls)
  {
    var c := calls[i];
    var root := FAT32_ROOT_CLUSTER;
    assert at[root] + c.path == c.path && c.path < Full(c);
    MakePathKeeps(v, root, c.path);
    at' := MakePathExplained(v, at, calls, root, c.path);
    var (v1, d) := MakePath(v, root, c.path);
    if d.Some? {
      var (v2, f) := Store(v1, c.data);
      StoreExplained(v1, at', calls, c.data);
      if f.Some? {
        var e := DirEnt(c.name, ATTR_ARCHIVE, f.value, |c.data|);
        assert at'[d.value] + [e.name] == Full(calls[i]);
        AppendExplained(v2, at', calls, d.value, e);
      }
    }
  }

  lemma StoreExplained(v: Volume, at: map<nat, seq<Name>>, calls: seq<Call>, data: seq<Byte>)
    requires Explained(v, at, calls)
    ensures Explained(Store(v, data).0, at, calls)
  {
    var w := Store(v, data).0;
    forall x, k | x in w.dirs && 0 <= k < |w.dirs[x]| && ValidName(w.dirs[x][k].name)
      ensures FromCall(w, at, calls, x, w.dirs[x][k])
    {
      assert FromCall(v, at, calls, x, v.dirs[x][k]);
    }
  }

  /** A path that no earlier call clashes with is fresh. */
  lemma {:induction false} ExplainedFresh(v: Volume, at: map<nat, seq<Name>>, calls: seq<Call>, d: nat, path: seq<Name>, name: Name)
    requires Explained(v, at, calls) && d in v.dirs && AllValid(path) && ValidName(name)
    requires forall i | 0 <= i < |calls| ::
      var q := at[d] + path + [name]; !(Full(calls[i]) <= q) && !(q <= Full(calls[i]))
    ensures Fresh(v, d, path, name)
    decreases |path|
  {
    var n := if path == [] then name else path[0];
    assert ValidName(n);
    var q := at[d] + path + [name];
    assert at[d] + [n] <= q;
    assert path == [] ==> at[d] + [n] == q;
    if Lookup(v.dirs[d], n, 0).Some? {
      var k := LookupIn(v.dirs[d], n, 0);
      var e := v.dirs[d][k];
      assert FromCall(v, at, calls, d, e);
      if path != [] {
        assert at[e.cluster] + path[1..] + [name] == q;
        ExplainedFresh(v, at, calls, e.cluster, path[1..], name);
      }
    }
  }

  lemma {:induction false} RunExplained(v: Volume, calls: seq<Call>, n: nat) returns (at: map<nat, seq<Name>>)
    requires v == EMPTY_VOLUME && ValidCalls(calls) && n <= |calls|
    ensures WellFormed(Run(v, calls[..n])) && Explained(Run(v, calls[..n]), at, calls[..n])
    decreases n
  {
    if n == 0 {
      at := map[FAT32_ROOT_CLUSTER := []];
    } else {
      at := RunExplained(v, calls, n - 1);
      var w := Run(v, calls[..n - 1]);
      assert calls[..n][..n - 1] == calls[..n - 1];
      assert ValidCall(calls[..n][n - 1]);
      MoreCallsExplain(w, at, calls[..n - 1], calls[..n]);
      at := WriteFileExplained(w, at, calls[..n], n - 1);
      WriteFileKeeps(w, calls[n - 1].path, calls[n - 1].name, calls[n - 1].data);
    }
  }

  lemma MoreCallsExplain(v: Volume, at: map<nat, seq<Name>>, calls: seq<Call>, more: seq<Call>)
    requires Explained(v, at, calls) && calls <= more
    ensures Explained(v, at, more)
  {
    forall d, k | d in v.dirs && 0 <= k < |v.dirs[d]| && ValidName(v.dirs[d][k].name)
      ensures FromCall(v, at, more, d, v.dirs[d][k])
    {
      assert FromCall(v, at, calls, d, v.dirs[d][k]);
    }
  }

  lemma NonClashingFresh(calls: seq<Call>, i: nat)
    requires ValidCalls(calls) && NonClashing(calls) && i < |calls|
    ensures Fresh(Run(EMPTY_VOLUME, calls[..i]), FAT32_ROOT_CLUSTER, calls[i].path, calls[i].name)
  {
    var at := RunExplained(EMPTY_VOLUME, calls, i);
    var c := calls[i];
    assert ValidCall(c);
    var v := Run(EMPTY_VOLUME, calls[..i]);
    var q := at[FAT32_ROOT_CLUSTER] + c.path + [c.name];
    assert q == Full(c);
    forall j | 0 <= j < |calls[..i]| ensures !(Full(calls[..i][j]) <= q) && !(q <= Full(calls[..i][j])) {
      assert calls[..i][j] == calls[j];
    }
    ExplainedFresh(v, at, calls[..i], FAT32_ROOT_CLUSTER, c.path, c.name);
  }

  lemma EmptyWellFormed()
    ensures WellFormed(EMPTY_VOLUME)
  {}

  /** On a freshly formatted volume, after any run of calls that do not clash, every file whose
      call succeeded can be read back in full. */
  lemma NonClashingRunReadBack(calls: seq<Call>, i: nat)
    requires ValidCalls(calls) && NonClashing(calls) && i < |calls|
    requires Succeeded(EMPTY_VOLUME, calls, i)
    ensures Read(Run(EMPTY_VOLUME, calls), FAT32_ROOT_CLUSTER, calls[i].path, calls[i].name) == Some(calls[i].data)
  {
    NonClashingFresh(calls, i);
    EmptyWellFormed();
    RunReadBack(EMPTY_VOLUME, calls, i);
  }
}
