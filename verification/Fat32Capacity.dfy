/** When a write succeeds: exactly when its new directories and its clusters still fit. */
module Fat32Capacity {
  import opened Common
  import opened Fat32Layout
  import opened Fat32Volume

  /** Directories that `MakePath` still has to make below `d`. */
  function Missing(v: Volume, d: nat, path: seq<Name>): (n: nat)
    ensures n <= |path|
    decreases |path|
  {
    if path == [] || d !in v.dirs then 0
    else
      match FindDir(v.dirs[d], path[0], 0)
      case Some(c) => Missing(v, c, path[1..])
      case None => |path|
  }

  /** No directory lists more than `n` entries. */
  ghost predicate Bounded(v: Volume, n: nat) {
    forall d | d in v.dirs :: |v.dirs[d]| <= n
  }

  // ----- directories grow slowly -----

  lemma {:induction false} MakePathBounded(v: Volume, d: nat, path: seq<Name>, n: nat)
    requires Bounded(v, n) && 2 <= n && d in v.dirs && WellFormed(v) && AllValid(path)
    ensures Bounded(MakePath(v, d, path).0, n + |path|)
    decreases |path|
  {
    hide AllLinked, Disjoint;
    if path != [] {
      FindOrCreateKeeps(v, d, path[0]);
      var (w, c) := FindOrCreate(v, d, path[0]);
      assert Bounded(w, n + 1);
      if c.Some? { MakePathBounded(w, c.value, path[1..], n + 1); }
    }
  }

  lemma WriteFileBounded(v: Volume, path: seq<Name>, name: Name, data: seq<Byte>, n: nat)
    requires Bounded(v, n) && 2 <= n && WellFormed(v) && AllValid(path)
    ensures Bounded(WriteFile(v, path, name, data).0, n + |path| + 1)
  {
    MakePathBounded(v, FAT32_ROOT_CLUSTER, path, n);
  }

  // ----- clusters used -----

  /** Nothing is found in a new directory. */
  lemma NewDirMissing(v: Volume, c: nat, parent: nat, path: seq<Name>)
    requires c in v.dirs && v.dirs[c] == DotEntries(c, parent) && AllValid(path)
    ensures Missing(v, c, path) == |path|
  {
    if path != [] {
      assert ValidName(path[0]);
      var l := DotEntries(c, parent);
      assert FindDir(l, path[0], 2).None?;
      assert l[1].name != path[0];
      assert FindDir(l, path[0], 1).None?;
    }
  }

  lemma {:induction false} MakePathFits(v: Volume, d: nat, path: seq<Name>)
    requires WellFormed(v) && d in v.dirs && AllValid(path)
    requires 2 <= DIR_SLOTS - |path| && Bounded(v, DIR_SLOTS - |path|)
    ensures var (w, c) := MakePath(v, d, path);
      && (c.Some? <==> v.next + Missing(v, d, path) <= MAX_CLUSTER + 1)
      && (c.Some? ==> w.next == v.next + Missing(v, d, path))
    decreases |path|
  {
    hide AllLinked, Disjoint;
    if path != [] {
      FindOrCreateKeeps(v, d, path[0]);
      var (w, c) := FindOrCreate(v, d, path[0]);
      assert Bounded(w, DIR_SLOTS - |path| + 1);
      if c.Some? {
        MakePathFits(w, c.value, path[1..]);
        if FindDir(v.dirs[d], path[0], 0).None? {
          NewDirMissing(w, c.value, d, path[1..]);
        }
      }
    }
  }

  /** `write_file` succeeds if and only if the directories it has to make and the clusters of its
      data are no more than are left, and then it takes exactly those. */
  lemma WriteFileFits(v: Volume, path: seq<Name>, name: Name, data: seq<Byte>)
    requires WellFormed(v) && AllValid(path) && ValidName(name)
    requires |path| + 3 <= DIR_SLOTS && Bounded(v, DIR_SLOTS - |path| - 1)
    ensures var (w, ok) := WriteFile(v, path, name, data);
      var used := Missing(v, FAT32_ROOT_CLUSTER, path) + Span(|data|);
      && (ok <==> v.next + used <= MAX_CLUSTER + 1)
      && (ok ==> w.next == v.next + used)
  {
    hide AllLinked, Disjoint;
    MakePathKeeps(v, FAT32_ROOT_CLUSTER, path);
    MakePathFits(v, FAT32_ROOT_CLUSTER, path);
    MakePathBounded(v, FAT32_ROOT_CLUSTER, path, DIR_SLOTS - |path| - 1);
  }

  /** A path that leads to a directory needs none made. */
  lemma {:induction false} ResolvedMissing(v: Volume, d: nat, path: seq<Name>, n: nat)
    requires AllLinked(v) && d in v.dirs && n <= |path| && Resolve(v, d, path).Some?
    ensures Missing(v, d, path[..n]) == 0
    decreases |path|
  {
    if n > 0 {
      FindDirIsLookup(v.dirs[d], path[0], 0);
      var i := LookupIn(v.dirs[d], path[0], 0);
      assert Linked(v, d, v.dirs[d][i]);
      ResolvedMissing(v, v.dirs[d][i].cluster, path[1..], n - 1);
      assert path[..n][1..] == path[1..][..n - 1];
    }
  }
}
