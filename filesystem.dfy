/**
 * An abstract local filesystem: a map from each existing directory to the
 * names listed in it (in listing order), and the set of existing regular
 * files. Paths are sequences of components below the root. The operations
 * are the few the placement engine performs: `os.makedirs(exist_ok=True)`,
 * `os.remove`, `os.rename`, and the fetch client writing a file.
 */
module FileSystem {

  type Path = seq<string>

  datatype FS = FS(dirs: map<Path, seq<string>>, files: set<Path>)

  predicate IsDir(fs: FS, p: Path) {
    p in fs.dirs
  }

  predicate IsFile(fs: FS, p: Path) {
    p in fs.files
  }

  /** `os.path.exists`. */
  predicate Exists(fs: FS, p: Path) {
    IsDir(fs, p) || IsFile(fs, p)
  }

  /** `os.listdir`, for a directory; nothing for anything else. */
  function Listing(fs: FS, p: Path): seq<string> {
    if p in fs.dirs then fs.dirs[p] else []
  }

  function Parent(p: Path): Path
    requires p != []
  {
    p[..|p| - 1]
  }

  function Name(p: Path): string
    requires p != []
  {
    p[|p| - 1]
  }

  lemma ParentName(p: Path)
    requires p != []
    ensures p == Parent(p) + [Name(p)]
  {
  }

  /**
   * The shape every filesystem the engine meets has: each directory but the
   * root sits in a directory and is listed there, each regular file sits in a
   * directory and is listed there, and no path is both a file and a directory.
   */
  predicate WF(fs: FS) {
    && (forall q :: q in fs.dirs && q != [] ==> Parent(q) in fs.dirs && Name(q) in fs.dirs[Parent(q)])
    && (forall q :: q in fs.files ==> q != [] && q !in fs.dirs && Parent(q) in fs.dirs && Name(q) in fs.dirs[Parent(q)])
  }

  /** In a well-formed filesystem every ancestor of a directory is a directory. */
  lemma {:induction false} DirAncestors(fs: FS, p: Path)
    requires WF(fs) && IsDir(fs, p)
    ensures forall k :: 0 <= k <= |p| ==> IsDir(fs, p[..k])
    decreases |p|
  {
    if p != [] {
      DirAncestors(fs, Parent(p));
      assert forall k :: 0 <= k <= |Parent(p)| ==> Parent(p)[..k] == p[..k];
      assert p[..|p|] == p;
    }
  }

  /** The OS errors the modelled operations raise. */
  datatype FsError =
    | FileInTheWay(path: Path)   // a regular file stands where a directory is needed
    | NoSuchFile(path: Path)     // FileNotFoundError
    | IsADirectory(path: Path)   // a directory stands where a file is needed

  datatype FsResult = Done(fs: FS) | Failed(error: FsError)

  /** A listing with `name` in it; a new name goes at the end. */
  function WithEntry(listing: seq<string>, name: string): (r: seq<string>)
    ensures name in r
    ensures listing <= r
    ensures forall x :: x in r ==> x in listing || x == name
  {
    if name in listing then listing else listing + [name]
  }

  /** A listing with every occurrence of `name` taken out, the rest in order. */
  function WithoutEntry(listing: seq<string>, name: string): (r: seq<string>)
    ensures forall x :: x in r <==> x in listing && x != name
    decreases |listing|
  {
    if listing == [] then []
    else if listing[0] == name then WithoutEntry(listing[1..], name)
    else [listing[0]] + WithoutEntry(listing[1..], name)
  }

  /** A new empty directory `p` inside the existing directory `Parent(p)`. */
  function AddDir(fs: FS, p: Path): (r: FS)
    requires p != [] && IsDir(fs, Parent(p))
  {
    FS(fs.dirs[Parent(p) := WithEntry(fs.dirs[Parent(p)], Name(p))][p := []], fs.files)
  }

  /**
   * `os.makedirs(p, exist_ok=True)`: creates `p` and every missing ancestor,
   * and fails when a regular file stands on the way. New directories are
   * appended to their parent's listing; nothing else changes.
   */
  function MakeDirs(fs: FS, p: Path): (r: FsResult)
    ensures IsDir(fs, p) ==> r == Done(fs)
    ensures r.Done? ==> IsDir(r.fs, p) && r.fs.files == fs.files
    ensures r.Done? ==> forall q :: IsDir(fs, q) ==> IsDir(r.fs, q) && Listing(fs, q) <= Listing(r.fs, q)
    ensures r.Done? ==> forall q :: IsDir(r.fs, q) && !IsDir(fs, q) ==> q <= p
    ensures r.Failed? ==> r.error.FileInTheWay? && exists k :: 0 <= k <= |p| && IsFile(fs, p[..k])
    decreases |p|
  {
    if IsDir(fs, p) then Done(fs)
    else if IsFile(fs, p) then
      assert p[..|p|] == p;
      Failed(FileInTheWay(p))
    else if p == [] then Done(FS(fs.dirs[[] := []], fs.files))
    else
      match MakeDirs(fs, Parent(p))
      case Failed(e) =>
        assert forall k :: 0 <= k <= |Parent(p)| ==> Parent(p)[..k] == p[..k];
        Failed(e)
      case Done(fs1) =>
        var r := AddDir(fs1, p);
        assert forall q :: IsDir(fs, q) ==> q != p;
        assert Parent(p) <= p;
        Done(r)
  }

  lemma AddDirWF(fs: FS, p: Path)
    requires WF(fs) && p != [] && IsDir(fs, Parent(p)) && !IsDir(fs, p) && !IsFile(fs, p)
    ensures WF(AddDir(fs, p))
  {
    var r := AddDir(fs, p);
    var listing := fs.dirs[Parent(p)];
    assert r.dirs[Parent(p)] == WithEntry(listing, Name(p));
    forall q | q in r.dirs && q != []
      ensures Parent(q) in r.dirs && Name(q) in r.dirs[Parent(q)]
    {
      if q != p {
        assert Parent(q) in fs.dirs && Name(q) in fs.dirs[Parent(q)];
        assert Parent(q) != p;
        if Parent(q) == Parent(p) {
          assert Name(q) in listing;
        } else {
          assert r.dirs[Parent(q)] == fs.dirs[Parent(q)];
        }
      }
    }
    forall q | q in r.files
      ensures q != [] && q !in r.dirs && Parent(q) in r.dirs && Name(q) in r.dirs[Parent(q)]
    {
      assert q != p && Parent(q) in fs.dirs && Name(q) in fs.dirs[Parent(q)];
      assert Parent(q) != p;
      if Parent(q) == Parent(p) {
        assert Name(q) in listing;
      } else {
        assert r.dirs[Parent(q)] == fs.dirs[Parent(q)];
      }
    }
  }

  /** Making a missing root keeps the filesystem well formed: nothing was listed in it. */
  lemma AddRootWF(fs: FS)
    requires WF(fs) && !IsDir(fs, [])
    ensures WF(FS(fs.dirs[[] := []], fs.files))
  {
    var r := FS(fs.dirs[[] := []], fs.files);
    forall q | q in r.dirs && q != []
      ensures Parent(q) in r.dirs && Name(q) in r.dirs[Parent(q)]
    {
      assert q in fs.dirs && Parent(q) in fs.dirs;
    }
    forall q | q in r.files
      ensures q != [] && q !in r.dirs && Parent(q) in r.dirs && Name(q) in r.dirs[Parent(q)]
    {
      assert Parent(q) in fs.dirs;
    }
  }

  /** `MakeDirs` keeps the filesystem well formed. */
  lemma {:induction false} MakeDirsWF(fs: FS, p: Path)
    requires WF(fs) && MakeDirs(fs, p).Done?
    ensures WF(MakeDirs(fs, p).fs)
    decreases |p|
  {
    if IsDir(fs, p) {
    } else if p == [] {
      AddRootWF(fs);
    } else {
      var fs1 := MakeDirs(fs, Parent(p)).fs;
      MakeDirsWF(fs, Parent(p));
      assert !IsDir(fs1, p) by {
        assert !(p <= Parent(p));
      }
      AddDirWF(fs1, p);
    }
  }

  lemma AncestorsOfParent(p: Path)
    requires p != []
    ensures forall k :: 0 <= k <= |Parent(p)| ==> Parent(p)[..k] == p[..k]
    ensures p[..|p|] == p
  {
  }

  /** After `MakeDirs(p)` in a well-formed filesystem every ancestor of `p` is a directory. */
  lemma {:induction false} MakeDirsAncestors(fs: FS, p: Path)
    requires WF(fs) && MakeDirs(fs, p).Done?
    ensures forall k :: 0 <= k <= |p| ==> IsDir(MakeDirs(fs, p).fs, p[..k])
    decreases |p|
  {
    if IsDir(fs, p) {
      DirAncestors(fs, p);
    } else if p != [] {
      MakeDirsAncestors(fs, Parent(p));
      AncestorsOfParent(p);
    }
  }

  /** A path none of whose ancestors, itself included, is a regular file can be made. */
  lemma MakeDirsSucceeds(fs: FS, p: Path)
    requires forall k :: 0 <= k <= |p| ==> !IsFile(fs, p[..k])
    ensures MakeDirs(fs, p).Done?
  {
  }

  /** Records a regular file at `p` inside the existing directory `Parent(p)`. */
  function AddFile(fs: FS, p: Path): (r: FS)
    requires p != [] && IsDir(fs, Parent(p))
  {
    FS(fs.dirs[Parent(p) := WithEntry(fs.dirs[Parent(p)], Name(p))], fs.files + {p})
  }

  /**
   * The fetch client writing the file `p`: its parent directories are made as
   * needed; a directory at `p` itself, or a file on the way, is an OS error.
   */
  function PutFile(fs: FS, p: Path): (r: FsResult)
    ensures r.Done? ==> IsFile(r.fs, p) && r.fs.files == fs.files + {p}
    ensures r.Done? ==> forall q :: IsDir(fs, q) ==> IsDir(r.fs, q) && Listing(fs, q) <= Listing(r.fs, q)
    ensures r.Done? ==> forall q :: IsDir(r.fs, q) && !IsDir(fs, q) ==> q < p
    ensures r.Failed? ==> p == [] || IsDir(fs, p) || exists k :: 0 <= k < |p| && IsFile(fs, p[..k])
  {
    if p == [] || IsDir(fs, p) then Failed(IsADirectory(p))
    else
      match MakeDirs(fs, Parent(p))
      case Failed(e) =>
        assert forall k :: 0 <= k <= |Parent(p)| ==> Parent(p)[..k] == p[..k];
        Failed(e)
      case Done(fs1) =>
        assert Parent(p) < p;
        Done(AddFile(fs1, p))
  }

  lemma AddFileWF(fs: FS, p: Path)
    requires WF(fs) && p != [] && IsDir(fs, Parent(p)) && !IsDir(fs, p)
    ensures WF(AddFile(fs, p))
  {
  }

  lemma PutFileWF(fs: FS, p: Path)
    requires WF(fs) && PutFile(fs, p).Done?
    ensures WF(PutFile(fs, p).fs)
  {
    MakeDirsWF(fs, Parent(p));
    AddFileWF(MakeDirs(fs, Parent(p)).fs, p);
  }

  /** `os.remove(p)`: only a regular file can be removed. */
  function Remove(fs: FS, p: Path): (r: FsResult)
    ensures r.Done? <==> IsFile(fs, p)
    ensures r.Done? ==> r.fs.files == fs.files - {p} && r.fs.dirs.Keys == fs.dirs.Keys
    ensures r.Done? ==> forall q :: IsDir(fs, q) && (p == [] || q != Parent(p)) ==> Listing(r.fs, q) == Listing(fs, q)
    ensures r.Failed? ==> (r.error.IsADirectory? <==> IsDir(fs, p)) && (r.error.NoSuchFile? <==> !Exists(fs, p))
    ensures WF(fs) && r.Done? ==> WF(r.fs)
  {
    if IsFile(fs, p) then
      var dirs := if p != [] && IsDir(fs, Parent(p)) then fs.dirs[Parent(p) := WithoutEntry(fs.dirs[Parent(p)], Name(p))] else fs.dirs;
      var r := FS(dirs, fs.files - {p});
      assert WF(fs) ==> WF(r) by {
        if WF(fs) {
          forall q | q in r.dirs && q != []
            ensures Parent(q) in r.dirs && Name(q) in r.dirs[Parent(q)]
          {
            ParentName(q);
            ParentName(p);
          }
          forall q | q in r.files
            ensures q != [] && q !in r.dirs && Parent(q) in r.dirs && Name(q) in r.dirs[Parent(q)]
          {
            ParentName(q);
            ParentName(p);
          }
        }
      }
      Done(r)
    else if IsDir(fs, p) then Failed(IsADirectory(p))
    else Failed(NoSuchFile(p))
  }

  /**
   * `os.rename(src, dst)` for a regular file `src`: `dst` must not be a
   * directory and its parent must exist; a file at `dst` is replaced.
   */
  function Rename(fs: FS, src: Path, dst: Path): (r: FsResult)
    ensures r.Done? <==> IsFile(fs, src) && dst != [] && !IsDir(fs, dst) && IsDir(fs, Parent(dst))
    ensures r.Done? ==> r.fs.files == fs.files - {src} + {dst} && r.fs.dirs.Keys == fs.dirs.Keys
    ensures r.Done? ==> forall q :: IsDir(fs, q) && (src == [] || q != Parent(src)) && q != Parent(dst) ==> Listing(r.fs, q) == Listing(fs, q)
  {
    if !IsFile(fs, src) then Failed(NoSuchFile(src))
    else if dst == [] || IsDir(fs, dst) then Failed(IsADirectory(dst))
    else if !IsDir(fs, Parent(dst)) then Failed(NoSuchFile(dst))
    else
      var removed := Remove(fs, src).fs;
      Done(AddFile(removed, dst))
  }

  lemma RenameWF(fs: FS, src: Path, dst: Path)
    requires WF(fs) && Rename(fs, src, dst).Done?
    ensures WF(Rename(fs, src, dst).fs)
  {
    AddFileWF(Remove(fs, src).fs, dst);
  }

  /** After a rename to a different path, the file is at `dst` and no longer at `src`. */
  lemma RenameMoves(fs: FS, src: Path, dst: Path)
    requires Rename(fs, src, dst).Done? && src != dst
    ensures IsFile(Rename(fs, src, dst).fs, dst) && !IsFile(Rename(fs, src, dst).fs, src)
  {
  }

  // ---------------------------------------------------------------------------
  // Growth by new directories only

  /** No proper ancestor of `p` is a regular file. */
  predicate NoFileAbove(fs: FS, p: Path) {
    forall k :: 0 <= k < |p| ==> !IsFile(fs, p[..k])
  }

  /**
   * `fs2` is the well-formed `fs` with directories added: the same regular
   * files, and every directory kept with its listing grown only at its end.
   */
  ghost predicate Grown(fs: FS, fs2: FS) {
    && WF(fs) && WF(fs2) && fs2.files == fs.files
    && forall q :: IsDir(fs, q) ==> IsDir(fs2, q) && Listing(fs, q) <= Listing(fs2, q)
  }

  lemma GrownTrans(fs1: FS, fs2: FS, fs3: FS)
    requires Grown(fs1, fs2) && Grown(fs2, fs3)
    ensures Grown(fs1, fs3)
  {
    forall q | IsDir(fs1, q)
      ensures Listing(fs1, q) <= Listing(fs3, q)
    {
      var a, b, c := Listing(fs1, q), Listing(fs2, q), Listing(fs3, q);
      assert a == b[..|a|] && b == c[..|b|];
      assert c[..|b|][..|a|] == c[..|a|];
    }
  }

  /** A successful `MakeDirs` only adds directories. */
  lemma MakeDirsGrows(fs: FS, p: Path)
    requires WF(fs) && MakeDirs(fs, p).Done?
    ensures Grown(fs, MakeDirs(fs, p).fs)
  {
    MakeDirsWF(fs, p);
  }

  /** Nothing above an existing path of a well-formed filesystem is a regular file. */
  lemma ExistsNoFileAbove(fs: FS, p: Path)
    requires WF(fs) && Exists(fs, p)
    ensures NoFileAbove(fs, p)
  {
    if IsDir(fs, p) {
      DirAncestors(fs, p);
    } else {
      DirAncestors(fs, Parent(p));
      AncestorsOfParent(p);
    }
  }

  /** Every proper ancestor of a regular file of a well-formed filesystem is a directory. */
  lemma FileAncestorIsDir(fs: FS, p: Path, q: Path)
    requires WF(fs) && IsFile(fs, q) && p < q
    ensures IsDir(fs, p)
  {
    DirAncestors(fs, Parent(q));
    assert Parent(q)[..|p|] == p;
  }

  // ---------------------------------------------------------------------------
  // Changes confined to one directory and what lies below it

  /**
   * `fs2` differs from `fs` only along or below `t`: no directory disappears,
   * new directories are ancestors or descendants of `t`, and the listings of
   * the proper ancestors of `t` only grow at their end.
   */
  ghost predicate Confined(fs: FS, fs2: FS, t: Path) {
    && (forall q :: IsDir(fs, q) ==> IsDir(fs2, q))
    && (forall q :: IsDir(fs2, q) && !IsDir(fs, q) ==> q <= t || t <= q)
    && (forall q :: IsDir(fs, q) && q < t ==> Listing(fs, q) <= Listing(fs2, q))
  }

  lemma ConfinedTrans(fs1: FS, fs2: FS, fs3: FS, t: Path)
    requires Confined(fs1, fs2, t) && Confined(fs2, fs3, t)
    ensures Confined(fs1, fs3, t)
  {
  }

  lemma PrefixesComparable(a: Path, b: Path, c: Path)
    requires a <= c && b <= c
    ensures a <= b || b <= a
  {
    if |a| <= |b| {
      assert a == c[..|a|] == b[..|a|];
    } else {
      assert b == c[..|b|] == a[..|b|];
    }
  }

  /** Making an ancestor or a descendant of `t` is confined to `t`. */
  lemma MakeDirsConfined(fs: FS, p: Path, t: Path)
    requires MakeDirs(fs, p).Done? && (p <= t || t <= p)
    ensures Confined(fs, MakeDirs(fs, p).fs, t)
  {
    var fs2 := MakeDirs(fs, p).fs;
    forall q | IsDir(fs2, q) && !IsDir(fs, q)
      ensures q <= t || t <= q
    {
      if t <= p {
        PrefixesComparable(q, t, p);
      }
    }
  }

  /** Writing a file strictly below `t` is confined to `t`. */
  lemma PutFileConfined(fs: FS, p: Path, t: Path)
    requires PutFile(fs, p).Done? && t < p
    ensures Confined(fs, PutFile(fs, p).fs, t)
  {
    var fs2 := PutFile(fs, p).fs;
    forall q | IsDir(fs2, q) && !IsDir(fs, q)
      ensures q <= t || t <= q
    {
      PrefixesComparable(q, t, p);
    }
  }

  /** Removing a file strictly below `t` is confined to `t`. */
  lemma RemoveConfined(fs: FS, p: Path, t: Path)
    requires Remove(fs, p).Done? && t < p
    ensures Confined(fs, Remove(fs, p).fs, t)
  {
  }

  /** Renaming a file strictly below `t` to a path strictly below `t` is confined to `t`. */
  lemma RenameConfined(fs: FS, src: Path, dst: Path, t: Path)
    requires Rename(fs, src, dst).Done? && t < src && t < dst
    ensures Confined(fs, Rename(fs, src, dst).fs, t)
  {
  }

  /** The path as a string, for log lines. */
  function PathString(p: Path): string
    decreases |p|
  {
    if p == [] then "" else PathString(p[..|p| - 1]) + "/" + p[|p| - 1]
  }
}
