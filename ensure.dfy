/**
 * Ordering of paths, the de-duplicating sort `sorted(list(set(...)))`, and
 * `ensure_directories_exist`: every folder of the selected layout, and the
 * models root itself, is resolved, sorted, and then created when missing.
 */
module PathOrder {
  import opened FileSystem

  /** Code-point order on strings, as Python compares them. */
  predicate StrLess(a: string, b: string)
    decreases |a|
  {
    b != [] && (a == [] || a[0] < b[0] || (a[0] == b[0] && StrLess(a[1..], b[1..])))
  }

  lemma {:induction false} StrLessIrreflexive(a: string)
    ensures !StrLess(a, a)
    decreases |a|
  {
    if a != [] {
      StrLessIrreflexive(a[1..]);
    }
  }

  lemma {:induction false} StrLessTrans(a: string, b: string, c: string)
    requires StrLess(a, b) && StrLess(b, c)
    ensures StrLess(a, c)
    decreases |a|
  {
    if a != [] && a[0] == b[0] && b[0] == c[0] {
      StrLessTrans(a[1..], b[1..], c[1..]);
    }
  }

  lemma {:induction false} StrLessTotal(a: string, b: string)
    requires a != b
    ensures StrLess(a, b) || StrLess(b, a)
    decreases |a|
  {
    if a != [] && b != [] && a[0] == b[0] {
      assert a == [a[0]] + a[1..] && b == [b[0]] + b[1..];
      StrLessTotal(a[1..], b[1..]);
    }
  }

  /** Paths compared component by component. */
  predicate PathLess(p: Path, q: Path)
    decreases |p|
  {
    q != [] && (p == [] || StrLess(p[0], q[0]) || (p[0] == q[0] && PathLess(p[1..], q[1..])))
  }

  lemma {:induction false} PathLessIrreflexive(p: Path)
    ensures !PathLess(p, p)
    decreases |p|
  {
    if p != [] {
      StrLessIrreflexive(p[0]);
      PathLessIrreflexive(p[1..]);
    }
  }

  lemma {:induction false} PathLessTrans(p: Path, q: Path, r: Path)
    requires PathLess(p, q) && PathLess(q, r)
    ensures PathLess(p, r)
    decreases |p|
  {
    if p != [] {
      if StrLess(p[0], q[0]) && StrLess(q[0], r[0]) {
        StrLessTrans(p[0], q[0], r[0]);
      } else if p[0] == q[0] && q[0] == r[0] {
        PathLessTrans(p[1..], q[1..], r[1..]);
      }
    }
  }

  lemma {:induction false} PathLessTotal(p: Path, q: Path)
    requires p != q
    ensures PathLess(p, q) || PathLess(q, p)
    decreases |p|
  {
    if p != [] && q != [] {
      if p[0] == q[0] {
        assert p == [p[0]] + p[1..] && q == [q[0]] + q[1..];
        PathLessTotal(p[1..], q[1..]);
      } else {
        StrLessTotal(p[0], q[0]);
      }
    }
  }

  /** A folder sorts before everything below it, as its path string does. */
  lemma {:induction false} AncestorFirst(p: Path, q: Path)
    requires p < q
    ensures PathLess(p, q)
    decreases |p|
  {
    if p != [] {
      assert p[0] == q[0];
      assert p[1..] < q[1..];
      AncestorFirst(p[1..], q[1..]);
    }
  }

  predicate StrictlySorted(s: seq<Path>) {
    forall i, j :: 0 <= i < j < |s| ==> PathLess(s[i], s[j])
  }

  /** `x` placed into a strictly sorted sequence; nothing happens when it is already there. */
  function Insert(s: seq<Path>, x: Path): (r: seq<Path>)
    requires StrictlySorted(s)
    ensures StrictlySorted(r)
    ensures forall y :: y in r <==> y in s || y == x
    decreases |s|
  {
    if s == [] then [x]
    else if x == s[0] then s
    else if PathLess(x, s[0]) then
      assert forall j :: 0 <= j < |s| ==> PathLess(x, s[j]) by {
        forall j | 0 <= j < |s| ensures PathLess(x, s[j]) {
          if j > 0 { PathLessTrans(x, s[0], s[j]); }
        }
      }
      [x] + s
    else
      PathLessTotal(x, s[0]);
      var rest := Insert(s[1..], x);
      assert forall y :: y in rest ==> PathLess(s[0], y);
      [s[0]] + rest
  }

  /** The sorted listing of a finite set of paths. */
  ghost function SortedOf(paths: set<Path>): (r: seq<Path>)
    ensures StrictlySorted(r)
    ensures forall y :: y in r <==> y in paths
    decreases |paths|
  {
    if paths == {} then []
    else
      var x :| x in paths;
      Insert(SortedOf(paths - {x}), x)
  }

  /** Two strictly sorted sequences with the same elements are the same sequence. */
  lemma {:induction false} SortedUnique(a: seq<Path>, b: seq<Path>)
    requires StrictlySorted(a) && StrictlySorted(b)
    requires forall y :: y in a <==> y in b
    ensures a == b
    decreases |a|
  {
    assert a != [] ==> a[0] in a;
    assert b != [] ==> b[0] in b;
    if a != [] {
      if a[0] != b[0] {
        assert b[0] in b && a[0] in a;
        var j :| 0 <= j < |a| && a[j] == b[0];
        var k :| 0 <= k < |b| && b[k] == a[0];
        PathLessTrans(a[0], b[0], a[0]);
        PathLessIrreflexive(a[0]);
      } else {
        forall y
          ensures y in a[1..] <==> y in b[1..]
        {
          if y in a[1..] {
            var i :| 1 <= i < |a| && a[i] == y;
            PathLessIrreflexive(a[0]);
            assert y in b;
          }
          if y in b[1..] {
            var i :| 1 <= i < |b| && b[i] == y;
            PathLessIrreflexive(b[0]);
            assert y in a;
          }
        }
        SortedUnique(a[1..], b[1..]);
        assert a == [a[0]] + a[1..] && b == [b[0]] + b[1..];
      }
    }
  }

  /** `sorted(list(set(paths)))`, by insertion in the order the set is drawn from. */
  method SortUnique(paths: set<Path>) returns (r: seq<Path>)
    ensures r == SortedOf(paths)
  {
    var remaining := paths;
    r := [];
    while remaining != {}
      invariant remaining <= paths
      invariant StrictlySorted(r)
      invariant forall y :: y in r <==> y in paths && y !in remaining
      decreases |remaining|
    {
      var x :| x in remaining;
      r := Insert(r, x);
      remaining := remaining - {x};
    }
    SortedUnique(r, SortedOf(paths));
  }
}

module EnsureDirs {
  import opened Text
  import opened Layout
  import opened FileSystem
  import opened Resolver
  import opened PathOrder

  /** What happened to one folder. */
  datatype DirOutcome = Created | Verified | FailedWith(error: FsError)

  /** The counters and the failed folders of one run. */
  datatype Report = Report(created: nat, verified: nat, failed: seq<Path>)

  /** One iteration: an existing path, a file included, is verified; a missing one is made. */
  function EnsureOne(fs: FS, p: Path): (r: (FS, DirOutcome))
    ensures r.1.Created? ==> !Exists(fs, p) && IsDir(r.0, p)
    ensures r.1.Verified? <==> Exists(fs, p)
    ensures !r.1.Created? ==> r.0 == fs
  {
    if Exists(fs, p) then (fs, Verified)
    else
      match MakeDirs(fs, p)
      case Done(fs2) => (fs2, Created)
      case Failed(e) => (fs, FailedWith(e))
  }

  /** The loop over the folders, in order, as a left fold. */
  function EnsureAll(fs: FS, paths: seq<Path>): (r: (FS, Report))
    ensures r.1.created + r.1.verified + |r.1.failed| == |paths|
    ensures forall p :: p in r.1.failed ==> p in paths
    decreases |paths|
  {
    if paths == [] then (fs, Report(0, 0, []))
    else
      var prev := EnsureAll(fs, paths[..|paths| - 1]);
      var last := paths[|paths| - 1];
      var (fs2, outcome) := EnsureOne(prev.0, last);
      var rep := prev.1;
      match outcome
      case Created => (fs2, rep.(created := rep.created + 1))
      case Verified => (fs2, rep.(verified := rep.verified + 1))
      case FailedWith(_) => (fs2, rep.(failed := rep.failed + [last]))
  }

  lemma EnsureOneKeepsExisting(fs: FS, p: Path, q: Path)
    requires Exists(fs, q)
    ensures Exists(EnsureOne(fs, p).0, q)
  {
  }

  /** After the loop, every folder that did not fail exists, and all that existed still do. */
  lemma {:induction false} EnsureAllEstablishes(fs: FS, paths: seq<Path>)
    ensures var r := EnsureAll(fs, paths);
      && (forall p :: p in paths && p !in r.1.failed ==> Exists(r.0, p))
      && (forall q :: Exists(fs, q) ==> Exists(r.0, q))
    decreases |paths|
  {
    if paths != [] {
      var init := paths[..|paths| - 1];
      var last := paths[|paths| - 1];
      EnsureAllEstablishes(fs, init);
      var prev := EnsureAll(fs, init);
      forall q | Exists(prev.0, q)
        ensures Exists(EnsureOne(prev.0, last).0, q)
      {
        EnsureOneKeepsExisting(prev.0, last, q);
      }
      assert forall p :: p in paths ==> p in init || p == last;
    }
  }

  /** When every folder already exists, the loop only verifies and changes nothing. */
  lemma {:induction false} EnsureAllIdle(fs: FS, paths: seq<Path>)
    requires forall p :: p in paths ==> Exists(fs, p)
    ensures EnsureAll(fs, paths) == (fs, Report(0, |paths|, []))
    decreases |paths|
  {
    if paths != [] {
      EnsureAllIdle(fs, paths[..|paths| - 1]);
      assert paths[|paths| - 1] in paths;
    }
  }

  /** A second pass over the same folders after an error-free pass creates nothing. */
  lemma EnsureTwice(fs: FS, paths: seq<Path>)
    requires EnsureAll(fs, paths).1.failed == []
    ensures var fs2 := EnsureAll(fs, paths).0;
      EnsureAll(fs2, paths) == (fs2, Report(0, |paths|, []))
  {
    EnsureAllEstablishes(fs, paths);
    EnsureAllIdle(EnsureAll(fs, paths).0, paths);
  }

  lemma {:induction false} EnsureAllWF(fs: FS, paths: seq<Path>)
    requires WF(fs)
    ensures WF(EnsureAll(fs, paths).0)
    decreases |paths|
  {
    if paths != [] {
      var init := paths[..|paths| - 1];
      EnsureAllWF(fs, init);
      var prev := EnsureAll(fs, init).0;
      var last := paths[|paths| - 1];
      if !Exists(prev, last) && MakeDirs(prev, last).Done? {
        MakeDirsWF(prev, last);
      }
    }
  }

  /** The loop only adds directories. */
  lemma {:induction false} EnsureAllGrows(fs: FS, paths: seq<Path>)
    requires WF(fs)
    ensures Grown(fs, EnsureAll(fs, paths).0)
    decreases |paths|
  {
    if paths != [] {
      var init := paths[..|paths| - 1];
      var last := paths[|paths| - 1];
      EnsureAllGrows(fs, init);
      var prev := EnsureAll(fs, init).0;
      if !Exists(prev, last) && MakeDirs(prev, last).Done? {
        MakeDirsGrows(prev, last);
      }
      GrownTrans(fs, prev, EnsureAll(fs, paths).0);
    }
  }

  /** No folder fails when none has a regular file above it. */
  lemma {:induction false} EnsureAllSucceeds(fs: FS, paths: seq<Path>)
    requires WF(fs)
    requires forall p :: p in paths ==> NoFileAbove(fs, p)
    ensures EnsureAll(fs, paths).1.failed == []
    decreases |paths|
  {
    if paths != [] {
      var init := paths[..|paths| - 1];
      var last := paths[|paths| - 1];
      assert forall p :: p in init ==> p in paths;
      EnsureAllSucceeds(fs, init);
      EnsureAllGrows(fs, init);
      var prev := EnsureAll(fs, init).0;
      assert last in paths && last[..|last|] == last;
      if !Exists(prev, last) {
        MakeDirsSucceeds(prev, last);
      }
    }
  }

  /** After a run without failures, none of its folders has a regular file above it. */
  lemma EnsureAllClear(fs: FS, paths: seq<Path>)
    requires WF(fs) && EnsureAll(fs, paths).1.failed == []
    ensures forall p :: p in paths ==> NoFileAbove(fs, p)
  {
    var fs2 := EnsureAll(fs, paths).0;
    EnsureAllEstablishes(fs, paths);
    EnsureAllGrows(fs, paths);
    forall p | p in paths
      ensures NoFileAbove(fs, p)
    {
      ExistsNoFileAbove(fs2, p);
    }
  }

  /** The folders to check: the models root and the resolved folder of every table value. */
  function TargetDirs(fs: FS, windows: bool, base: Path, table: Table, lowercaseFolders: bool): (r: set<Path>)
    ensures base in r
    ensures forall v :: v in table.Values ==> Resolve(fs, windows, base, v, lowercaseFolders) in r
    ensures forall p :: p in r ==> p == base || exists v :: v in table.Values && p == Resolve(fs, windows, base, v, lowercaseFolders)
  {
    {base} + set v | v in table.Values :: Resolve(fs, windows, base, v, lowercaseFolders)
  }

  function BoolText(b: bool): string {
    if b then "True" else "False"
  }

  function StatusLine(basePath: string, isComfyUi: bool, isForge: bool, lowercaseFolders: bool, rep: Report): string {
    "Directory check complete for '" + basePath + "' (ComfyUI mode: " + BoolText(isComfyUi)
      + ", Forge mode: " + BoolText(isForge) + ", Lowercase: " + BoolText(lowercaseFolders)
      + "). Created: " + NatToString(rep.created) + ", Verified Existing: " + NatToString(rep.verified) + "."
      + (if rep.failed == [] then "" else " Errors: " + NatToString(|rep.failed|) + " (see console).")
  }

  function ErrorLine(p: Path): string {
    "ERROR creating directory " + PathString(p) + " (normalized: " + PathString(p) + ")"
  }

  function ErrorLines(failed: seq<Path>): (r: seq<string>)
    ensures |r| == |failed|
  {
    seq(|failed|, i requires 0 <= i < |failed| => ErrorLine(failed[i]))
  }

  /** The whole of `ensure_directories_exist`, as a function of the filesystem and the settings. */
  ghost function EnsureResult(fs: FS, windows: bool, basePath: string, isComfyUi: bool, isForge: bool, lowercaseFolders: bool): (r: (FS, string, seq<string>))
    ensures basePath == "" ==> r == (fs, "Error: Base path is empty.", ["Base path is empty"])
  {
    if basePath == "" then (fs, "Error: Base path is empty.", ["Base path is empty"])
    else
      var base := Components(basePath);
      var order := SortedOf(TargetDirs(fs, windows, base, CurrentSubdirs(isComfyUi, isForge), lowercaseFolders));
      var (fs2, rep) := EnsureAll(fs, order);
      (fs2, StatusLine(basePath, isComfyUi, isForge, lowercaseFolders, rep), ErrorLines(rep.failed))
  }

  /** The first loop: each table value's resolved folder joins the models root. */
  method CollectTargets(fs: FS, windows: bool, base: Path, table: Table, lowercaseFolders: bool) returns (collected: set<Path>)
    ensures collected == TargetDirs(fs, windows, base, table, lowercaseFolders)
  {
    collected := {base};
    var remaining := table.Values;
    while remaining != {}
      invariant remaining <= table.Values
      invariant collected == {base} + set v | v in table.Values - remaining :: Resolve(fs, windows, base, v, lowercaseFolders)
      decreases |remaining|
    {
      var v :| v in remaining;
      var resolved := ResolveTargetDirectory(fs, windows, base, v, lowercaseFolders);
      collected := collected + {resolved};
      remaining := remaining - {v};
    }
    assert table.Values - remaining == table.Values;
  }

  /** The second loop: create or verify each folder in order, counting. */
  method EnsureEach(fs: FS, order: seq<Path>) returns (fs2: FS, rep: Report, errors: seq<string>)
    ensures (fs2, rep) == EnsureAll(fs, order)
    ensures errors == ErrorLines(rep.failed)
  {
    fs2 := fs;
    var created, verified := 0, 0;
    var failed: seq<Path> := [];
    errors := [];
    var i := 0;
    while i < |order|
      invariant 0 <= i <= |order|
      invariant EnsureAll(fs, order[..i]) == (fs2, Report(created, verified, failed))
      invariant errors == ErrorLines(failed)
    {
      var p := order[i];
      assert order[..i + 1][..i] == order[..i];
      if !Exists(fs2, p) {
        var made := MakeDirs(fs2, p);
        if made.Done? {
          fs2 := made.fs;
          created := created + 1;
        } else {
          failed := failed + [p];
          errors := errors + [ErrorLine(p)];
        }
      } else {
        verified := verified + 1;
      }
      i := i + 1;
    }
    assert order[..|order|] == order;
    rep := Report(created, verified, failed);
  }

  /** `ensure_directories_exist`: collect the resolved folders, sort them without duplicates, then create and count. */
  method EnsureDirectoriesExist(fs: FS, windows: bool, basePath: string, isComfyUi: bool, isForge: bool, lowercaseFolders: bool)
    returns (fs2: FS, status: string, errors: seq<string>)
    ensures (fs2, status, errors) == EnsureResult(fs, windows, basePath, isComfyUi, isForge, lowercaseFolders)
  {
    if basePath == "" {
      return fs, "Error: Base path is empty.", ["Base path is empty"];
    }
    var base := Components(basePath);
    var table := CurrentSubdirs(isComfyUi, isForge);
    var collected := CollectTargets(fs, windows, base, table, lowercaseFolders);
    var order := SortUnique(collected);
    var rep;
    fs2, rep, errors := EnsureEach(fs, order);
    status := StatusLine(basePath, isComfyUi, isForge, lowercaseFolders, rep);
  }

  /** On a grown filesystem, the folders to check have no file above them when those before had none. */
  lemma TargetDirsClearOnGrown(fs: FS, fs2: FS, windows: bool, base: Path, table: Table, lowercaseFolders: bool)
    requires Grown(fs, fs2)
    requires forall p :: p in TargetDirs(fs, windows, base, table, lowercaseFolders) ==> NoFileAbove(fs, p)
    ensures forall p :: p in TargetDirs(fs2, windows, base, table, lowercaseFolders) ==> NoFileAbove(fs2, p)
  {
    forall p | p in TargetDirs(fs2, windows, base, table, lowercaseFolders)
      ensures NoFileAbove(fs2, p)
    {
      if p != base {
        var v :| v in table.Values && p == Resolve(fs2, windows, base, v, lowercaseFolders);
        ResolveOnGrown(fs, fs2, windows, base, v, lowercaseFolders);
      } else {
        assert NoFileAbove(fs, base);
      }
    }
  }

  /**
   * A folder check without errors reports none when it runs again on the
   * filesystem it left: the folders resolved there may differ in case from the
   * first ones, but none of them has a regular file above it.
   */
  lemma EnsurePassesAgain(fs: FS, windows: bool, basePath: string, isComfyUi: bool, isForge: bool, lowercaseFolders: bool)
    requires WF(fs) && EnsureResult(fs, windows, basePath, isComfyUi, isForge, lowercaseFolders).2 == []
    ensures var fs2 := EnsureResult(fs, windows, basePath, isComfyUi, isForge, lowercaseFolders).0;
      && Grown(fs, fs2)
      && EnsureResult(fs2, windows, basePath, isComfyUi, isForge, lowercaseFolders).2 == []
  {
    var base := Components(basePath);
    var table := CurrentSubdirs(isComfyUi, isForge);
    var order := SortedOf(TargetDirs(fs, windows, base, table, lowercaseFolders));
    var fs2 := EnsureAll(fs, order).0;
    assert EnsureAll(fs, order).1.failed == [];
    EnsureAllGrows(fs, order);
    ClearAgain(fs, fs2, windows, base, table, lowercaseFolders);
  }

  /** The second run's loop succeeds when the first run's loop had no failures. */
  lemma ClearAgain(fs: FS, fs2: FS, windows: bool, base: Path, table: Table, lowercaseFolders: bool)
    requires var order := SortedOf(TargetDirs(fs, windows, base, table, lowercaseFolders));
      WF(fs) && EnsureAll(fs, order).1.failed == [] && fs2 == EnsureAll(fs, order).0 && Grown(fs, fs2)
    ensures EnsureAll(fs2, SortedOf(TargetDirs(fs2, windows, base, table, lowercaseFolders))).1.failed == []
  {
    EnsureAllClear(fs, SortedOf(TargetDirs(fs, windows, base, table, lowercaseFolders)));
    TargetDirsClearOnGrown(fs, fs2, windows, base, table, lowercaseFolders);
    EnsureAllSucceeds(fs2, SortedOf(TargetDirs(fs2, windows, base, table, lowercaseFolders)));
  }
}
