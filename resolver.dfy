/**
 * Case-insensitive resolution of a relative folder below the models root
 * (`find_actual_cased_directory_component`, `resolve_target_directory`).
 * On Windows the relative path is joined as it is; elsewhere each component
 * is replaced by the first directory in the parent's listing whose name
 * matches it up to case, so that a case-sensitive filesystem does not grow
 * sibling folders that differ only in case.
 */
module Resolver {
  import opened Wrappers
  import opened Text
  import opened FileSystem

  /** `item` names a directory inside `parent` and equals `name` up to case. */
  predicate IsCasedMatch(fs: FS, parent: Path, item: string, name: string) {
    EqualsIgnoreCase(item, name) && IsDir(fs, parent + [item])
  }

  /** Index `i` holds the first match of `items`. */
  predicate IsFirstMatch(fs: FS, parent: Path, items: seq<string>, name: string, i: int) {
    && 0 <= i < |items|
    && IsCasedMatch(fs, parent, items[i], name)
    && forall j :: 0 <= j < i ==> !IsCasedMatch(fs, parent, items[j], name)
  }

  /** The first item of `items`, in listing order, that matches `name`. */
  function FirstCasedDir(fs: FS, parent: Path, items: seq<string>, name: string): (r: Option<string>)
    ensures r.None? <==> forall i :: 0 <= i < |items| ==> !IsCasedMatch(fs, parent, items[i], name)
    ensures r.Some? ==> exists i :: IsFirstMatch(fs, parent, items, name, i) && items[i] == r.value
    decreases |items|
  {
    if items == [] then None
    else if IsCasedMatch(fs, parent, items[0], name) then
      assert IsFirstMatch(fs, parent, items, name, 0);
      Some(items[0])
    else
      var r := FirstCasedDir(fs, parent, items[1..], name);
      if r.Some? then
        var i :| IsFirstMatch(fs, parent, items[1..], name, i) && items[1..][i] == r.value;
        assert IsFirstMatch(fs, parent, items, name, i + 1);
        r
      else
        assert forall i :: 1 <= i < |items| ==> items[i] == items[1..][i - 1];
        r
  }

  /**
   * `find_actual_cased_directory_component`: nothing when the parent is not
   * a directory, else the first listed directory whose name matches.
   */
  function CasedComponent(fs: FS, parent: Path, name: string): (r: Option<string>)
    ensures r.Some? ==> IsDir(fs, parent) && IsCasedMatch(fs, parent, r.value, name) && r.value in Listing(fs, parent)
    ensures r.None? <==> !IsDir(fs, parent) || forall x :: x in Listing(fs, parent) ==> !IsCasedMatch(fs, parent, x, name)
  {
    if !IsDir(fs, parent) then None else FirstCasedDir(fs, parent, Listing(fs, parent), name)
  }

  /** The scan over the listing, as the source writes it. */
  method FindActualCasedDirectoryComponent(fs: FS, parentDir: Path, componentName: string) returns (r: Option<string>)
    ensures r == CasedComponent(fs, parentDir, componentName)
  {
    if !IsDir(fs, parentDir) {
      return None;
    }
    var nameLower := Lower(componentName);
    var items := Listing(fs, parentDir);
    var i := 0;
    while i < |items|
      invariant 0 <= i <= |items|
      invariant FirstCasedDir(fs, parentDir, items[i..], componentName) == FirstCasedDir(fs, parentDir, items, componentName)
    {
      if Lower(items[i]) == nameLower {
        if IsDir(fs, parentDir + [items[i]]) {
          return Some(items[i]);
        }
      }
      assert items[i..][1..] == items[i + 1..];
      i := i + 1;
    }
    return None;
  }

  /** One step of the walk: the existing cased directory if there is one, else the literal name. */
  function StepComponent(fs: FS, cur: Path, comp: string): Path {
    match CasedComponent(fs, cur, comp)
    case Some(c) => cur + [c]
    case None => cur + [comp]
  }

  /** The walk from `cur` over the remaining components. */
  function ResolveFrom(fs: FS, cur: Path, comps: seq<string>): (r: Path)
    ensures |r| == |cur| + |comps| && cur <= r
    decreases |comps|
  {
    if comps == [] then cur
    else ResolveFrom(fs, StepComponent(fs, cur, comps[0]), comps[1..])
  }

  /** Each component of the walk equals the requested one up to case. */
  lemma {:induction false} ResolveFromIgnoresCase(fs: FS, cur: Path, comps: seq<string>)
    ensures var r := ResolveFrom(fs, cur, comps);
      forall k :: 0 <= k < |comps| ==> EqualsIgnoreCase(r[|cur| + k], comps[k])
    decreases |comps|
  {
    if comps != [] {
      var next := StepComponent(fs, cur, comps[0]);
      var r := ResolveFrom(fs, next, comps[1..]);
      ResolveFromIgnoresCase(fs, next, comps[1..]);
      assert r[|cur|] == next[|cur|];
      assert forall k :: 1 <= k < |comps| ==> r[|cur| + k] == r[|next| + (k - 1)] && comps[k] == comps[1..][k - 1];
    }
  }

  /** The components of the relative folder, lower-cased first when requested. */
  function TargetComponents(relativePath: string, lowercaseFolders: bool): seq<string> {
    Components(if lowercaseFolders then Lower(relativePath) else relativePath)
  }

  /**
   * `resolve_target_directory`: the folder below `baseDir` to create or use
   * for the relative folder `relativePath`.
   */
  function Resolve(fs: FS, windows: bool, baseDir: Path, relativePath: string, lowercaseFolders: bool): (r: Path)
    ensures var comps := TargetComponents(relativePath, lowercaseFolders);
      && |r| == |baseDir| + |comps| && baseDir <= r
      && (windows ==> r == baseDir + comps)
  {
    var comps := TargetComponents(relativePath, lowercaseFolders);
    if windows then baseDir + comps else ResolveFrom(fs, baseDir, comps)
  }

  /**
   * The resolved folder is the base folder followed by one name per
   * requested component, each equal to that component up to case.
   */
  lemma ResolveIgnoresCase(fs: FS, windows: bool, baseDir: Path, relativePath: string, lowercaseFolders: bool)
    ensures var comps := TargetComponents(relativePath, lowercaseFolders);
      var r := Resolve(fs, windows, baseDir, relativePath, lowercaseFolders);
      forall k :: 0 <= k < |comps| ==> EqualsIgnoreCase(r[|baseDir| + k], comps[k])
  {
    var comps := TargetComponents(relativePath, lowercaseFolders);
    if windows {
      assert forall k :: 0 <= k < |comps| ==> (baseDir + comps)[|baseDir| + k] == comps[k];
    } else {
      ResolveFromIgnoresCase(fs, baseDir, comps);
    }
  }

  /** The walk as the source writes it: a loop that extends the current path. */
  method ResolveTargetDirectory(fs: FS, windows: bool, baseDir: Path, relativePath: string, lowercaseFolders: bool)
    returns (currentPath: Path)
    ensures currentPath == Resolve(fs, windows, baseDir, relativePath, lowercaseFolders)
  {
    var normalized := if lowercaseFolders then Lower(relativePath) else relativePath;
    var components := Components(normalized);
    if windows {
      return baseDir + components;
    }
    assert Resolve(fs, windows, baseDir, relativePath, lowercaseFolders) == ResolveFrom(fs, baseDir, components);
    currentPath := baseDir;
    var i := 0;
    while i < |components|
      invariant 0 <= i <= |components|
      invariant ResolveFrom(fs, currentPath, components[i..]) == ResolveFrom(fs, baseDir, components)
    {
      var actualCased: Option<string> := None;
      if IsDir(fs, currentPath) {
        actualCased := FindActualCasedDirectoryComponent(fs, currentPath, components[i]);
      }
      ResolveFromUnfold(fs, currentPath, components, i);
      ghost var step := StepComponent(fs, currentPath, components[i]);
      if actualCased.Some? {
        currentPath := currentPath + [actualCased.value];
      } else {
        currentPath := currentPath + [components[i]];
      }
      assert currentPath == step;
      i := i + 1;
    }
  }

  lemma ResolveFromUnfold(fs: FS, cur: Path, comps: seq<string>, i: nat)
    requires i < |comps|
    ensures ResolveFrom(fs, cur, comps[i..]) == ResolveFrom(fs, StepComponent(fs, cur, comps[i]), comps[i + 1..])
  {
    assert comps[i..][1..] == comps[i + 1..];
  }

  // ---------------------------------------------------------------------------
  // What a resolved path looks like

  /** The name a step appends below `parent`. */
  function ChosenName(fs: FS, parent: Path, comp: string): string {
    match CasedComponent(fs, parent, comp)
    case Some(c) => c
    case None => comp
  }

  /**
   * One component is appended per segment, and each is the existing cased
   * directory below the path so far when there is one, else the segment itself.
   */
  lemma {:induction false} ResolveFromShape(fs: FS, cur: Path, comps: seq<string>)
    ensures var r := ResolveFrom(fs, cur, comps);
      forall k :: 0 <= k < |comps| ==> r[|cur| + k] == ChosenName(fs, r[..|cur| + k], comps[k])
    decreases |comps|
  {
    if comps != [] {
      var next := StepComponent(fs, cur, comps[0]);
      var r := ResolveFrom(fs, next, comps[1..]);
      ResolveFromShape(fs, next, comps[1..]);
      assert r[..|cur|] == cur;
      ShapeShift(fs, cur, next, comps, r);
    }
  }

  /** The shape after the first step, re-indexed from the step before it. */
  lemma ShapeShift(fs: FS, cur: Path, next: Path, comps: seq<string>, r: Path)
    requires comps != [] && |next| == |cur| + 1 && |r| == |cur| + |comps|
    requires forall k :: 0 <= k < |comps[1..]| ==> r[|next| + k] == ChosenName(fs, r[..|next| + k], comps[1..][k])
    ensures forall k :: 1 <= k < |comps| ==> r[|cur| + k] == ChosenName(fs, r[..|cur| + k], comps[k])
  {
    forall k | 1 <= k < |comps|
      ensures r[|cur| + k] == ChosenName(fs, r[..|cur| + k], comps[k])
    {
      assert comps[k] == comps[1..][k - 1];
      assert |cur| + k == |next| + (k - 1);
    }
  }

  lemma ResolveShape(fs: FS, baseDir: Path, relativePath: string, lowercaseFolders: bool)
    ensures var comps := TargetComponents(relativePath, lowercaseFolders);
      var r := Resolve(fs, false, baseDir, relativePath, lowercaseFolders);
      && |r| == |baseDir| + |comps|
      && forall k :: 0 <= k < |comps| ==> r[|baseDir| + k] == ChosenName(fs, r[..|baseDir| + k], comps[k])
  {
    ResolveFromShape(fs, baseDir, TargetComponents(relativePath, lowercaseFolders));
  }

  /** Below a folder that does not exist yet, the walk is the literal join, as on Windows. */
  lemma {:induction false} FreshTreeResolvesLiterally(fs: FS, cur: Path, comps: seq<string>)
    requires WF(fs) && !IsDir(fs, cur)
    ensures ResolveFrom(fs, cur, comps) == cur + comps
    decreases |comps|
  {
    if comps != [] {
      var next := cur + [comps[0]];
      assert StepComponent(fs, cur, comps[0]) == next;
      assert Parent(next) == cur;
      FreshTreeResolvesLiterally(fs, next, comps[1..]);
      assert next + comps[1..] == cur + comps;
    }
  }

  /** `models/Lora` exists; resolving "Lora" with lower-casing requested gives it back, not `models/lora`. */
  lemma ExistingSiblingReused()
    ensures var fs := FS(map[[] := ["models"], ["models"] := ["Lora"], ["models", "Lora"] := []], {});
      Resolve(fs, false, ["models"], "Lora", true) == ["models", "Lora"]
  {
    var fs := FS(map[[] := ["models"], ["models"] := ["Lora"], ["models", "Lora"] := []], {});
    assert Lower("Lora") == "lora";
    assert Lower("lora") == "lora";
    assert Split("lora", '/') == ["lora"] by {
      SplitFree("lora", '/');
    }
    assert TargetComponents("Lora", true) == ["lora"];
    assert ["models"] + ["Lora"] == ["models", "Lora"];
    assert IsCasedMatch(fs, ["models"], "Lora", "lora");
    assert FirstCasedDir(fs, ["models"], ["Lora"], "lora") == Some("Lora");
  }

  // ---------------------------------------------------------------------------
  // Stability: resolving again after the folder was made gives the same folder

  /** The first match survives a listing that grows at its end, when no new match appears. */
  lemma FirstCasedDirExtends(fs: FS, fs2: FS, parent: Path, items: seq<string>, items2: seq<string>, name: string, x: string)
    requires items <= items2
    requires FirstCasedDir(fs, parent, items, name) == Some(x)
    requires forall y :: IsCasedMatch(fs, parent, y, name) ==> IsCasedMatch(fs2, parent, y, name)
    requires forall y :: IsCasedMatch(fs2, parent, y, name) && !IsCasedMatch(fs, parent, y, name) ==> y == x
    ensures FirstCasedDir(fs2, parent, items2, name) == Some(x)
  {
    var i :| IsFirstMatch(fs, parent, items, name, i) && items[i] == x;
    assert items2[i] == x;
    var r := FirstCasedDir(fs2, parent, items2, name);
    assert forall j :: 0 <= j < |items| ==> items2[j] == items[j];
  }

  /** The only match is `c`, and it is listed: it comes first. */
  lemma FirstCasedDirOnly(fs: FS, parent: Path, items: seq<string>, c: string)
    requires c in items && IsCasedMatch(fs, parent, c, c)
    requires forall y :: IsCasedMatch(fs, parent, y, c) ==> y == c
    ensures FirstCasedDir(fs, parent, items, c) == Some(c)
  {
    var j :| 0 <= j < |items| && items[j] == c;
    assert IsCasedMatch(fs, parent, items[j], c);
  }

  /** One step chooses the same name again in a filesystem changed only along its result. */
  lemma StepStable(fs: FS, fs2: FS, cur: Path, comp: string, r: Path)
    requires WF(fs) && WF(fs2)
    requires StepComponent(fs, cur, comp) <= r
    requires Confined(fs, fs2, r)
    requires forall k :: 0 <= k <= |r| ==> IsDir(fs2, r[..k])
    ensures StepComponent(fs2, cur, comp) == StepComponent(fs, cur, comp)
  {
    var next := StepComponent(fs, cur, comp);
    assert cur < r;
    assert next == r[..|cur| + 1];
    // a new match below `cur` can only be the step's own name
    forall y | IsCasedMatch(fs2, cur, y, comp) && !IsCasedMatch(fs, cur, y, comp)
      ensures y == next[|cur|]
    {
      var q := cur + [y];
      assert !IsDir(fs, q);
      assert q <= r || r <= q;
      assert q == r[..|cur| + 1];
    }
    match CasedComponent(fs, cur, comp)
    case Some(x) =>
      assert next[|cur|] == x;
      FirstCasedDirExtends(fs, fs2, cur, Listing(fs, cur), Listing(fs2, cur), comp, x);
    case None =>
      assert next == cur + [comp];
      assert IsDir(fs2, next);
      ParentName(next);
      assert comp in Listing(fs2, cur);
      forall y | IsCasedMatch(fs2, cur, y, comp)
        ensures y == comp
      {
        if IsCasedMatch(fs, cur, y, comp) {
          assert false;
        }
      }
      FirstCasedDirOnly(fs2, cur, Listing(fs2, cur), comp);
  }

  lemma {:induction false} ResolveFromStable(fs: FS, fs2: FS, cur: Path, comps: seq<string>, r: Path)
    requires WF(fs) && WF(fs2)
    requires ResolveFrom(fs, cur, comps) == r
    requires Confined(fs, fs2, r)
    requires forall k :: 0 <= k <= |r| ==> IsDir(fs2, r[..k])
    ensures ResolveFrom(fs2, cur, comps) == r
    decreases |comps|
  {
    if comps != [] {
      StepStable(fs, fs2, cur, comps[0], r);
      ResolveFromStable(fs, fs2, StepComponent(fs, cur, comps[0]), comps[1..], r);
    }
  }

  /**
   * Once the resolved folder exists, and whatever else changed lies along or
   * below it, resolving the same relative folder again gives the same folder.
   */
  lemma ResolveStable(fs: FS, fs2: FS, windows: bool, baseDir: Path, relativePath: string, lowercaseFolders: bool)
    requires WF(fs) && WF(fs2)
    requires var r := Resolve(fs, windows, baseDir, relativePath, lowercaseFolders);
      Confined(fs, fs2, r) && forall k :: 0 <= k <= |r| ==> IsDir(fs2, r[..k])
    ensures Resolve(fs2, windows, baseDir, relativePath, lowercaseFolders) == Resolve(fs, windows, baseDir, relativePath, lowercaseFolders)
  {
    if !windows {
      var r := Resolve(fs, windows, baseDir, relativePath, lowercaseFolders);
      ResolveFromStable(fs, fs2, baseDir, TargetComponents(relativePath, lowercaseFolders), r);
    }
  }

  // ---------------------------------------------------------------------------
  // Resolving on a filesystem that gained directories

  /**
   * A listed match that was already a directory before the listing grew keeps
   * its place: the first match of the grown listing is the first of the old one.
   */
  lemma FirstCasedDirOnGrown(fs: FS, fs2: FS, parent: Path, items: seq<string>, items2: seq<string>, name: string, y: string)
    requires items <= items2
    requires forall x :: IsCasedMatch(fs, parent, x, name) ==> IsCasedMatch(fs2, parent, x, name)
    requires FirstCasedDir(fs2, parent, items2, name) == Some(y)
    requires y in items && IsCasedMatch(fs, parent, y, name)
    ensures FirstCasedDir(fs, parent, items, name) == Some(y)
  {
    var m :| 0 <= m < |items| && items[m] == y;
    assert IsCasedMatch(fs, parent, items[m], name);
    var x := FirstCasedDir(fs, parent, items, name).value;
    var i :| IsFirstMatch(fs, parent, items, name, i) && items[i] == x;
    var j :| IsFirstMatch(fs2, parent, items2, name, j) && items2[j] == y;
    assert items2[i] == x;
    assert j <= i;
    assert items[j] == y;
  }

  /**
   * One step on a grown filesystem chooses the same name as before, or else a
   * directory that exists only in the grown filesystem.
   */
  lemma StepOnGrown(fs: FS, fs2: FS, cur: Path, comp: string)
    requires Grown(fs, fs2)
    ensures var next2 := StepComponent(fs2, cur, comp);
      next2 != StepComponent(fs, cur, comp) ==>
        |next2| == |cur| + 1 && cur <= next2 && IsDir(fs2, next2) && !IsDir(fs, next2)
  {
    if CasedComponent(fs, cur, comp).Some? {
      var x := CasedComponent(fs, cur, comp).value;
      assert IsCasedMatch(fs2, cur, x, comp) && x in Listing(fs2, cur);
    }
    if CasedComponent(fs2, cur, comp).Some? {
      var y := CasedComponent(fs2, cur, comp).value;
      if IsDir(fs, cur + [y]) {
        ParentName(cur + [y]);
        assert y in Listing(fs, cur);
        FirstCasedDirOnGrown(fs, fs2, cur, Listing(fs, cur), Listing(fs2, cur), comp, y);
      }
    }
  }

  /**
   * A walk that left `cur` through a directory `next2` new in `fs2` meets no
   * regular file on its way when the old walk from `cur` met none: up to `cur`
   * both walks agree, and below the new directory there is nothing.
   */
  lemma DivergedWalkClear(fs: FS, fs2: FS, cur: Path, next2: Path, r: Path, r2: Path)
    requires Grown(fs, fs2)
    requires |next2| == |cur| + 1 && cur <= next2 && IsDir(fs2, next2) && !IsDir(fs, next2)
    requires cur <= r && |cur| < |r| && NoFileAbove(fs, r)
    requires next2 <= r2
    ensures NoFileAbove(fs2, r2)
  {
    forall k | 0 <= k < |r2|
      ensures !IsFile(fs2, r2[..k])
    {
      if k <= |cur| {
        assert r2[..k] == cur[..k] == r[..k];
      } else if k == |next2| {
        assert r2[..k] == next2;
      } else {
        assert next2 < r2[..k];
        if IsFile(fs, r2[..k]) {
          FileAncestorIsDir(fs, next2, r2[..k]);
        }
      }
    }
  }

  /**
   * A walk on a grown filesystem meets a regular file on its way only where
   * the walk on the original filesystem met one.
   */
  lemma {:induction false} ResolveFromOnGrown(fs: FS, fs2: FS, cur: Path, comps: seq<string>)
    requires Grown(fs, fs2)
    requires NoFileAbove(fs, ResolveFrom(fs, cur, comps))
    ensures NoFileAbove(fs2, ResolveFrom(fs2, cur, comps))
    decreases |comps|
  {
    if comps != [] {
      var next := StepComponent(fs, cur, comps[0]);
      var next2 := StepComponent(fs2, cur, comps[0]);
      StepOnGrown(fs, fs2, cur, comps[0]);
      if next2 == next {
        ResolveFromOnGrown(fs, fs2, next, comps[1..]);
      } else {
        DivergedWalkClear(fs, fs2, cur, next2, ResolveFrom(fs, cur, comps), ResolveFrom(fs2, next2, comps[1..]));
      }
    }
  }

  /** `Resolve` on a grown filesystem meets no regular file where it met none before. */
  lemma ResolveOnGrown(fs: FS, fs2: FS, windows: bool, baseDir: Path, relativePath: string, lowercaseFolders: bool)
    requires Grown(fs, fs2)
    requires NoFileAbove(fs, Resolve(fs, windows, baseDir, relativePath, lowercaseFolders))
    ensures NoFileAbove(fs2, Resolve(fs2, windows, baseDir, relativePath, lowercaseFolders))
  {
    if !windows {
      ResolveFromOnGrown(fs, fs2, baseDir, TargetComponents(relativePath, lowercaseFolders));
    }
  }
}
