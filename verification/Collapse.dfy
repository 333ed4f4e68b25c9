/**
 The filesystem side of DeleteObject: the data file and the sidecar go, then the
 directories above them that have become empty, up to but not including the bucket.
 */
module Collapse {
  import opened GoStrings
  import opened Paths

  /** The ancestor of p that keeps its first k segments. */
  function Up(p: Path, k: nat): Path
    requires k <= |p.segs|
  {
    p.(segs := p.segs[..k])
  }

  predicate StrictlyBelow(p: Path, d: Path) {
    |d.segs| < |p.segs| && Up(p, |d.segs|) == d
  }

  /** The directories between p and its ancestor of m segments, both left out. */
  function Chain(p: Path, m: nat): set<Path>
    requires m < |p.segs|
  {
    set k | m < k < |p.segs| :: Up(p, k)
  }

  function MetaOf(p: Path): Path
    requires p.segs != []
  {
    p.(segs := p.segs[..|p.segs| - 1] + [p.segs[|p.segs| - 1] + ".meta"])
  }

  /** On disk the sidecar is the object's path with ".meta" behind it. */
  lemma MetaOfIsText(p: Path)
    requires p.segs != []
    ensures Render(MetaOf(p)) == Render(p) + ".meta"
  {
    var n := |p.segs| - 1;
    var front, last: Str, meta: Str := p.segs[..n], p.segs[n], ".meta";
    JoinExtends(front, last, meta);
    assert p.segs == front + [last];
    var slash: Str := "/";
    assert slash + (Join(p.segs, '/') + meta) == slash + Join(p.segs, '/') + meta;
  }

  lemma JoinExtends(front: seq<Str>, last: Str, suffix: Str)
    ensures Join(front + [last + suffix], '/') == Join(front + [last], '/') + suffix
  {
    if front == [] {
      assert front + [last] == [last] && front + [last + suffix] == [last + suffix];
    } else {
      JoinSnoc(front, last);
      JoinSnoc(front, last + suffix);
    }
  }

  predicate IsEntry(n: Path, d: Path) {
    n.segs != [] && Parent(n) == d
  }

  /** A delete always works strictly below its bucket's directory. */
  lemma DeleteIsBelowBucket(bucketDir: Str, key: Str)
    requires SafeJoined(bucketDir, [key]).Some?
    ensures StrictlyBelow(Parse(SafeJoined(bucketDir, [key]).value), Parse(bucketDir))
  {
    SafeJoinExtends(bucketDir, [key]);
    var extended := Parse(bucketDir).segs + AllSegs([key]);
    assert extended[..|Parse(bucketDir).segs|] == Parse(bucketDir).segs;
  }

  /** Every file and directory other than the root lies in a directory that exists. */
  predicate Rooted(dirs: set<Path>, files: set<Path>, root: Path) {
    dirs !! files && forall n :: n in dirs + files && n != root ==> n.segs != [] && Parent(n) in dirs
  }

  /** The chain down from depth m holds directories only, and nothing that lay in one of them is outside it. */
  predicate HollowChain(dirs: set<Path>, files: set<Path>, p: Path, m: nat)
    requires m < |p.segs|
  {
    Chain(p, m) <= dirs &&
    forall n :: n in dirs + files && n.segs != [] && Parent(n) in Chain(p, m) ==> n in Chain(p, m)
  }

  lemma ChainGrows(p: Path, m: nat)
    requires 0 < m < |p.segs|
    ensures Chain(p, m - 1) == Chain(p, m) + {Up(p, m)}
  {
    forall x | x in Chain(p, m) ensures x in Chain(p, m - 1) {
      var k :| m < k < |p.segs| && x == Up(p, k);
    }
    forall x | x in Chain(p, m - 1) ensures x in Chain(p, m) + {Up(p, m)} {
      var k :| m - 1 < k < |p.segs| && x == Up(p, k);
    }
  }

  lemma ChainStaysHollow(dirs: set<Path>, files: set<Path>, p: Path, m: nat)
    requires 0 < m < |p.segs| && HollowChain(dirs, files, p, m)
    requires Up(p, m) in dirs && forall n :: n in dirs - Chain(p, m) + files ==> !IsEntry(n, Up(p, m))
    requires files !! dirs
    ensures HollowChain(dirs, files, p, m - 1)
  {
    ChainGrows(p, m);
    forall n | n in dirs + files && n.segs != [] && Parent(n) in Chain(p, m - 1) ensures n in Chain(p, m - 1) {
      if Parent(n) == Up(p, m) {
        assert IsEntry(n, Up(p, m));
        assert n !in dirs - Chain(p, m) + files;
      }
    }
  }

  /** Removing a hollow chain leaves no file or directory without its parent. */
  lemma RemovalKeepsRooted(dirs: set<Path>, files: set<Path>, root: Path, p: Path, m: nat)
    requires m < |p.segs| && Rooted(dirs, files, root) && HollowChain(dirs, files, p, m)
    ensures Rooted(dirs - Chain(p, m), files, root)
  {
  }

  class Tree {
    var dirs: set<Path>
    var files: set<Path>

    constructor (root: Path)
      ensures dirs == {root} && files == {} && Rooted(dirs, files, root)
    {
      dirs, files := {root}, {};
    }

    method ReadDir(d: Path) returns (entries: set<Path>, ok: bool)
      ensures ok == (d in dirs)
      ensures ok ==> entries == set n | n in dirs + files && IsEntry(n, d)
    {
      entries := set n | n in dirs + files && IsEntry(n, d);
      ok := d in dirs;
    }

    /**
     Removes the directories above `file` from the nearest one up, as long as each exists and is empty, and
     stops at the bucket. `m` is the depth at which it stopped.
     */
    method CollapseParents(bucketDir: Path, file: Path) returns (ghost m: nat)
      requires StrictlyBelow(file, bucketDir) && dirs !! files
      modifies this`dirs
      ensures |bucketDir.segs| <= m < |file.segs|
      ensures dirs == old(dirs) - Chain(file, m) && HollowChain(old(dirs), files, file, m)
      ensures Up(file, m) == bucketDir || Up(file, m) !in dirs || HasEntries(dirs, files, Up(file, m))
    {
      var parent := Parent(file);
      m := |file.segs| - 1;
      ghost var before := dirs;
      assert Chain(file, m) == {};
      while parent != bucketDir && parent != Path(true, [])
        invariant |bucketDir.segs| <= m < |file.segs| && parent == Up(file, m)
        invariant dirs == before - Chain(file, m) && HollowChain(before, files, file, m)
        decreases m
      {
        assert m != |bucketDir.segs|;
        var entries, ok := ReadDir(parent);
        if !ok || entries != {} {
          assert ok ==> exists n :: n in entries;
          break;
        }
        forall n | n in dirs + files ensures !IsEntry(n, parent) {
          assert IsEntry(n, parent) ==> n in entries;
        }
        ChainStaysHollow(before, files, file, m);
        ChainGrows(file, m);
        dirs := dirs - {parent};
        parent := Parent(parent);
        m := m - 1;
        assert parent == Up(file, m);
      }
      assert parent == Path(true, []) ==> parent == bucketDir;
    }

    /** os.Remove: a file goes, a directory goes if it is empty, and a path below a file is no path at all. */
    method Remove(p: Path) returns (r: Removal)
      modifies this
      ensures r == old(RemovalOf(dirs, files, p))
      ensures files == old(files) - (if r == Removed then {p} else {})
      ensures dirs == old(dirs) - (if r == Removed && p !in old(files) then {p} else {})
      ensures r == NotDirectory <==> exists k :: 0 <= k < |p.segs| && Up(p, k) in old(files)
      ensures r == Removed ==> p in old(files) || (p in old(dirs) && forall n :: n in old(dirs + files) ==> !IsEntry(n, p))
      ensures r == Missing ==> p !in old(dirs + files)
      ensures r == NotEmpty ==> p in old(dirs) && exists n :: n in old(dirs + files) && IsEntry(n, p)
    {
      var k := 0;
      while k < |p.segs|
        invariant 0 <= k <= |p.segs| && dirs == old(dirs) && files == old(files)
        invariant forall i :: 0 <= i < k ==> Up(p, i) !in files
      {
        if Up(p, k) in files { return NotDirectory; }
        k := k + 1;
      }
      if p in files {
        files := files - {p};
        return Removed;
      }
      var entries, ok := ReadDir(p);
      if !ok { return Missing; }
      if entries != {} {
        assert HasEntries(dirs, files, p) by { assert exists n :: n in entries; }
        return NotEmpty;
      }
      assert forall n :: n in dirs + files && IsEntry(n, p) ==> n in entries;
      dirs := dirs - {p};
      return Removed;
    }

    /**
     removeObject. It fails, and changes nothing, exactly for a key below an object and for a key that names a directory
     with something in it; a missing object is not an error. Otherwise exactly the data file, the sidecar and the emptied
     directories above them go.
     */
    method RemoveObject(bucketDir: Path, file: Path, ghost root: Path) returns (ok: bool, ghost m: nat)
      requires StrictlyBelow(file, bucketDir) && Rooted(dirs, files, root)
      modifies this
      ensures ok == !old(BelowFile(files, file) || (file in dirs && HasEntries(dirs, files, file)))
      ensures !ok ==> dirs == old(dirs) && files == old(files)
      ensures ok ==> files == old(files) - {file, MetaOf(file)}
      ensures ok ==> |bucketDir.segs| <= m < |file.segs| && HollowChain(old(Dropped(dirs, files, file)), files, file, m)
      ensures ok ==> dirs == old(Dropped(dirs, files, file)) - Chain(file, m)
      ensures ok ==> Up(file, m) == bucketDir || Up(file, m) !in dirs || HasEntries(dirs, files, Up(file, m))
      ensures Rooted(dirs, files, root) && (old(bucketDir in dirs) ==> bucketDir in dirs)
    {
      ghost var d0, f0 := dirs, files;
      var r := Remove(file);
      if r == NotEmpty || r == NotDirectory { return false, 0; }
      RemovalLeaves(d0, f0, file);
      SidecarIsBeside(f0, file);
      RemovalLeaves(dirs, files, MetaOf(file));
      RemoveTwoKeepsRooted(d0, f0, root, file);
      var _ := Remove(MetaOf(file));
      ghost var before := dirs;
      m := CollapseParents(bucketDir, file);
      RemovalKeepsRooted(before, files, root, file, m);
      if bucketDir in d0 { BucketOutlives(d0, f0, bucketDir, file, m); }
      ok := true;
    }
  }

  /** Some directory on the way to p is a file. */
  predicate BelowFile(files: set<Path>, p: Path) {
    exists k :: 0 <= k < |p.segs| && Up(p, k) in files
  }

  function RemovalOf(dirs: set<Path>, files: set<Path>, p: Path): Removal {
    if BelowFile(files, p) then NotDirectory
    else if p in files then Removed
    else if p !in dirs then Missing
    else if HasEntries(dirs, files, p) then NotEmpty
    else Removed
  }

  /** What a removal that is not refused leaves. */
  lemma RemovalLeaves(dirs: set<Path>, files: set<Path>, p: Path)
    requires dirs !! files && !BelowFile(files, p)
    ensures var r := RemovalOf(dirs, files, p);
      files - (if r == Removed then {p} else {}) == files - {p} &&
      dirs - (if r == Removed && p !in files then {p} else {}) == WithoutEmpty(dirs, files, p)
  {
  }

  /** The sidecar lies in the directory the object lies in. */
  lemma SidecarIsBeside(files: set<Path>, file: Path)
    requires file.segs != [] && !BelowFile(files, file)
    ensures !BelowFile(files - {file}, MetaOf(file))
  {
    forall k | 0 <= k < |file.segs| ensures Up(MetaOf(file), k) == Up(file, k) {
    }
  }

  lemma RemoveTwoKeepsRooted(dirs: set<Path>, files: set<Path>, root: Path, file: Path)
    requires Rooted(dirs, files, root) && file.segs != []
    ensures Rooted(Dropped(dirs, files, file), files - {file} - {MetaOf(file)}, root)
    ensures files - {file} - {MetaOf(file)} == files - {file, MetaOf(file)}
  {
    RemoveOneKeepsRooted(dirs, files, root, file);
    RemoveOneKeepsRooted(WithoutEmpty(dirs, files, file), files - {file}, root, MetaOf(file));
  }

  lemma BucketOutlives(dirs: set<Path>, files: set<Path>, bucketDir: Path, file: Path, m: nat)
    requires StrictlyBelow(file, bucketDir) && |bucketDir.segs| <= m < |file.segs| && bucketDir in dirs
    ensures bucketDir in Dropped(dirs, files, file) - Chain(file, m)
  {
    assert forall k :: m < k < |file.segs| ==> |Up(file, k).segs| > |bucketDir.segs|;
    assert |MetaOf(file).segs| == |file.segs|;
  }

  datatype Removal = Removed | Missing | NotEmpty | NotDirectory

  predicate HasEntries(dirs: set<Path>, files: set<Path>, d: Path) {
    exists n :: n in dirs + files && IsEntry(n, d)
  }

  /** The directories after one os.Remove. */
  function WithoutEmpty(dirs: set<Path>, files: set<Path>, p: Path): set<Path> {
    if p in files || HasEntries(dirs, files, p) then dirs else dirs - {p}
  }

  /** The directories after the data file and the sidecar have been removed: an empty directory of that name goes too. */
  function Dropped(dirs: set<Path>, files: set<Path>, file: Path): set<Path>
    requires file.segs != []
  {
    WithoutEmpty(WithoutEmpty(dirs, files, file), files - {file}, MetaOf(file))
  }

  lemma RemoveOneKeepsRooted(dirs: set<Path>, files: set<Path>, root: Path, p: Path)
    requires Rooted(dirs, files, root)
    ensures Rooted(WithoutEmpty(dirs, files, p), files - {p}, root)
  {
    forall n | n in dirs + files && n.segs != [] && Parent(n) == p ensures HasEntries(dirs, files, p) {
      assert IsEntry(n, p);
    }
  }
}
