/**
 * `filter_models`: which catalog entries the search box leaves visible. The
 * search term is lower-cased and stripped; an empty term shows everything.
 * Otherwise every entry starts hidden, and an entry is shown when the term
 * occurs in its lower-cased name (for a sub-category also in the name of one
 * of its models, for a bundle also in its description); a shown sub-category
 * or bundle shows its category.
 */
module Filter {
  import opened Wrappers
  import opened Text
  import opened Catalog

  /** The keys of the visibility dictionary, which the source spells as f-strings. */
  datatype Key =
    | CatKey(cat: string)
    | SubKey(cat: string, sub: string)
    | BundleKey(cat: string, index: nat)
    | ButtonKey(cat: string, index: nat)

  type Visibility = map<Key, bool>

  /** `search_term.lower().strip()`. */
  function Needle(term: string): string {
    Strip(Lower(term))
  }

  // ---------------------------------------------------------------------------
  // What matches

  predicate CatMatches(c: Category, needle: string) {
    Contains(Lower(c.name), needle)
  }

  predicate ModelMatches(m: Model, needle: string) {
    Contains(Lower(m.name.GetOr("")), needle)
  }

  predicate AnyModel(models: seq<Model>, needle: string) {
    exists j :: 0 <= j < |models| && ModelMatches(models[j], needle)
  }

  /** The sub-category's own key, or one of its models, contains the term. */
  predicate SubMatches(sub: SubCategory, needle: string) {
    Contains(Lower(sub.key), needle) || AnyModel(sub.models, needle)
  }

  predicate AnySub(subs: seq<SubCategory>, needle: string) {
    exists j :: 0 <= j < |subs| && SubMatches(subs[j], needle)
  }

  predicate BundleMatches(b: Bundle, needle: string) {
    Contains(Lower(b.name.GetOr("")), needle) || Contains(Lower(b.info.GetOr("")), needle)
  }

  predicate AnyBundle(bundles: seq<Bundle>, needle: string) {
    exists j :: 0 <= j < |bundles| && BundleMatches(bundles[j], needle)
  }

  // ---------------------------------------------------------------------------
  // Reference reading: the keys a category owns and the keys a search shows

  /**
   * The keys the source writes for category `c`: its own, one per
   * sub-category, or, when it has no sub-categories, two per bundle.
   */
  predicate IsCategoryKey(c: Category, k: Key) {
    match k
    case CatKey(n) => n == c.name
    case SubKey(n, sk) => n == c.name && c.subCategories.Some? && InSubs(c.subCategories.value, sk)
    case BundleKey(n, i) => n == c.name && c.subCategories.None? && c.bundles.Some? && i < |c.bundles.value|
    case ButtonKey(n, i) => n == c.name && c.subCategories.None? && c.bundles.Some? && i < |c.bundles.value|
  }

  predicate InSubs(subs: seq<SubCategory>, key: string) {
    exists j :: 0 <= j < |subs| && subs[j].key == key
  }

  predicate IsKeyOf(s: Structure, k: Key) {
    exists i :: 0 <= i < |s| && IsCategoryKey(s[i], k)
  }

  /** The category is shown: through its name or a shown entry, and only if it has entries of either kind. */
  predicate CatShown(c: Category, needle: string) {
    if c.subCategories.Some? then CatMatches(c, needle) || AnySub(c.subCategories.value, needle)
    else if c.bundles.Some? then CatMatches(c, needle) || AnyBundle(c.bundles.value, needle)
    else false
  }

  predicate ShownSub(subs: seq<SubCategory>, sk: string, needle: string) {
    exists j :: 0 <= j < |subs| && subs[j].key == sk && SubMatches(subs[j], needle)
  }

  /** Category `c` shows key `k` under a non-empty search. */
  predicate ShownIn(c: Category, needle: string, k: Key) {
    match k
    case CatKey(n) => n == c.name && CatShown(c, needle)
    case SubKey(n, sk) => n == c.name && c.subCategories.Some? && ShownSub(c.subCategories.value, sk, needle)
    case BundleKey(n, i) =>
      n == c.name && c.subCategories.None? && c.bundles.Some? && i < |c.bundles.value| && BundleMatches(c.bundles.value[i], needle)
    case ButtonKey(n, i) =>
      n == c.name && c.subCategories.None? && c.bundles.Some? && i < |c.bundles.value| && BundleMatches(c.bundles.value[i], needle)
  }

  predicate ShownKey(s: Structure, needle: string, k: Key) {
    exists i :: 0 <= i < |s| && ShownIn(s[i], needle, k)
  }

  // ---------------------------------------------------------------------------
  // The source's loops, as folds

  /** The first two loops: every key of every category set to `value`. */
  function Marked(v: Visibility, s: Structure, value: bool): Visibility
    decreases |s|
  {
    if s == [] then v else MarkCategory(Marked(v, s[..|s| - 1], value), s[|s| - 1], value)
  }

  function MarkCategory(v: Visibility, c: Category, value: bool): Visibility {
    var v1 := v[CatKey(c.name) := value];
    if c.subCategories.Some? then MarkSubs(v1, c.name, c.subCategories.value, value)
    else if c.bundles.Some? then MarkBundles(v1, c.name, |c.bundles.value|, value)
    else v1
  }

  function MarkSubs(v: Visibility, name: string, subs: seq<SubCategory>, value: bool): Visibility
    decreases |subs|
  {
    if subs == [] then v
    else MarkSubs(v, name, subs[..|subs| - 1], value)[SubKey(name, subs[|subs| - 1].key) := value]
  }

  function MarkBundles(v: Visibility, name: string, n: nat, value: bool): Visibility {
    if n == 0 then v
    else MarkBundles(v, name, n - 1, value)[BundleKey(name, n - 1) := value][ButtonKey(name, n - 1) := value]
  }

  /** The third loop: show what matches. */
  function ShowMatches(v: Visibility, s: Structure, needle: string): Visibility
    decreases |s|
  {
    if s == [] then v else ShowCategory(ShowMatches(v, s[..|s| - 1], needle), s[|s| - 1], needle)
  }

  function ShowCategory(v: Visibility, c: Category, needle: string): Visibility {
    if c.subCategories.Some? then
      var v1 := ShowSubs(v, c.name, c.subCategories.value, needle);
      if CatMatches(c, needle) || AnySub(c.subCategories.value, needle) then v1[CatKey(c.name) := true] else v1
    else if c.bundles.Some? then
      var v1 := ShowBundles(v, c.name, c.bundles.value, needle);
      if AnyBundle(c.bundles.value, needle) || CatMatches(c, needle) then v1[CatKey(c.name) := true] else v1
    else v
  }

  function ShowSubs(v: Visibility, name: string, subs: seq<SubCategory>, needle: string): Visibility
    decreases |subs|
  {
    if subs == [] then v
    else
      var prev := ShowSubs(v, name, subs[..|subs| - 1], needle);
      var sub := subs[|subs| - 1];
      if SubMatches(sub, needle) then prev[SubKey(name, sub.key) := true] else prev
  }

  function ShowBundles(v: Visibility, name: string, bundles: seq<Bundle>, needle: string): Visibility
    decreases |bundles|
  {
    if bundles == [] then v
    else
      var i := |bundles| - 1;
      var prev := ShowBundles(v, name, bundles[..i], needle);
      if BundleMatches(bundles[i], needle) then prev[BundleKey(name, i) := true][ButtonKey(name, i) := true] else prev
  }

  /** `filter_models`. */
  function Filtered(s: Structure, term: string): (r: Visibility)
    ensures Needle(term) == "" ==> (forall k :: k in r <==> IsKeyOf(s, k)) && forall k :: k in r ==> r[k]
  {
    var needle := Needle(term);
    if needle == "" then
      MarkedSets(map[], s, true);
      Marked(map[], s, true)
    else ShowMatches(Marked(map[], s, false), s, needle)
  }

  // ---------------------------------------------------------------------------
  // The folds against the reference reading

  lemma {:induction false} MarkSubsSets(v: Visibility, name: string, subs: seq<SubCategory>, value: bool)
    ensures var r := MarkSubs(v, name, subs, value);
      forall k :: k in r <==> k in v || (k.SubKey? && k.cat == name && InSubs(subs, k.sub))
    ensures var r := MarkSubs(v, name, subs, value);
      forall k :: k in r ==> r[k] == if k.SubKey? && k.cat == name && InSubs(subs, k.sub) then value else v[k]
    decreases |subs|
  {
    if subs != [] {
      var init := subs[..|subs| - 1];
      MarkSubsSets(v, name, init, value);
      assert forall key :: InSubs(subs, key) <==> InSubs(init, key) || key == subs[|subs| - 1].key by {
        assert forall j :: 0 <= j < |init| ==> init[j] == subs[j];
      }
    }
  }

  lemma {:induction false} MarkBundlesSets(v: Visibility, name: string, n: nat, value: bool)
    ensures var r := MarkBundles(v, name, n, value);
      forall k :: k in r <==> k in v || ((k.BundleKey? || k.ButtonKey?) && k.cat == name && k.index < n)
    ensures var r := MarkBundles(v, name, n, value);
      forall k :: k in r ==> r[k] == if (k.BundleKey? || k.ButtonKey?) && k.cat == name && k.index < n then value else v[k]
  {
    if n > 0 {
      MarkBundlesSets(v, name, n - 1, value);
    }
  }

  lemma MarkCategorySets(v: Visibility, c: Category, value: bool)
    ensures var r := MarkCategory(v, c, value);
      forall k :: k in r <==> k in v || IsCategoryKey(c, k)
    ensures var r := MarkCategory(v, c, value);
      forall k :: k in r ==> r[k] == if IsCategoryKey(c, k) then value else v[k]
  {
    var v1 := v[CatKey(c.name) := value];
    if c.subCategories.Some? {
      MarkSubsSets(v1, c.name, c.subCategories.value, value);
    } else if c.bundles.Some? {
      MarkBundlesSets(v1, c.name, |c.bundles.value|, value);
    }
  }

  /** The first two loops set exactly the keys of the catalog, all to `value`. */
  lemma {:induction false} MarkedSets(v: Visibility, s: Structure, value: bool)
    ensures var r := Marked(v, s, value);
      forall k :: k in r <==> k in v || IsKeyOf(s, k)
    ensures var r := Marked(v, s, value);
      forall k :: k in r ==> r[k] == if IsKeyOf(s, k) then value else v[k]
    decreases |s|
  {
    if s != [] {
      var init := s[..|s| - 1];
      MarkedSets(v, init, value);
      MarkCategorySets(Marked(v, init, value), s[|s| - 1], value);
      assert forall k :: IsKeyOf(s, k) <==> IsKeyOf(init, k) || IsCategoryKey(s[|s| - 1], k) by {
        assert forall i :: 0 <= i < |init| ==> init[i] == s[i];
      }
    }
  }

  lemma {:induction false} ShowSubsShows(v: Visibility, name: string, subs: seq<SubCategory>, needle: string)
    ensures var r := ShowSubs(v, name, subs, needle);
      forall k :: k in r <==> k in v || (k.SubKey? && k.cat == name && ShownSub(subs, k.sub, needle))
    ensures var r := ShowSubs(v, name, subs, needle);
      forall k :: k in r ==> (r[k] <==> (k in v && v[k]) || (k.SubKey? && k.cat == name && ShownSub(subs, k.sub, needle)))
    decreases |subs|
  {
    if subs != [] {
      var init := subs[..|subs| - 1];
      ShowSubsShows(v, name, init, needle);
      var last := subs[|subs| - 1];
      assert forall key :: ShownSub(subs, key, needle) <==> ShownSub(init, key, needle) || (key == last.key && SubMatches(last, needle)) by {
        assert forall j :: 0 <= j < |init| ==> init[j] == subs[j];
      }
    }
  }

  lemma {:induction false} ShowBundlesShows(v: Visibility, name: string, bundles: seq<Bundle>, needle: string)
    ensures var r := ShowBundles(v, name, bundles, needle);
      forall k :: k in r <==> k in v || ShownBundle(name, bundles, needle, k)
    ensures var r := ShowBundles(v, name, bundles, needle);
      forall k :: k in r ==> (r[k] <==> (k in v && v[k]) || ShownBundle(name, bundles, needle, k))
    decreases |bundles|
  {
    if bundles != [] {
      var i := |bundles| - 1;
      ShowBundlesShows(v, name, bundles[..i], needle);
      assert forall j :: 0 <= j < i ==> bundles[..i][j] == bundles[j];
    }
  }

  predicate ShownBundle(name: string, bundles: seq<Bundle>, needle: string, k: Key) {
    (k.BundleKey? || k.ButtonKey?) && k.cat == name && k.index < |bundles| && BundleMatches(bundles[k.index], needle)
  }

  lemma ShowCategoryShows(v: Visibility, c: Category, needle: string)
    ensures var r := ShowCategory(v, c, needle);
      forall k :: k in r <==> k in v || ShownIn(c, needle, k)
    ensures var r := ShowCategory(v, c, needle);
      forall k :: k in r ==> (r[k] <==> (k in v && v[k]) || ShownIn(c, needle, k))
  {
    if c.subCategories.Some? {
      ShowSubsShows(v, c.name, c.subCategories.value, needle);
    } else if c.bundles.Some? {
      ShowBundlesShows(v, c.name, c.bundles.value, needle);
    }
  }

  /** The third loop only ever shows, and shows exactly what some category shows. */
  lemma {:induction false} ShowMatchesShows(v: Visibility, s: Structure, needle: string)
    ensures var r := ShowMatches(v, s, needle);
      forall k :: k in r <==> k in v || ShownKey(s, needle, k)
    ensures var r := ShowMatches(v, s, needle);
      forall k :: k in r ==> (r[k] <==> (k in v && v[k]) || ShownKey(s, needle, k))
    decreases |s|
  {
    if s != [] {
      var init := s[..|s| - 1];
      ShowMatchesShows(v, init, needle);
      ShowCategoryShows(ShowMatches(v, init, needle), s[|s| - 1], needle);
      assert forall k :: ShownKey(s, needle, k) <==> ShownKey(init, needle, k) || ShownIn(s[|s| - 1], needle, k) by {
        assert forall i :: 0 <= i < |init| ==> init[i] == s[i];
      }
    }
  }

  /** A key a category shows is one of its keys. */
  lemma ShownIsKey(c: Category, needle: string, k: Key)
    requires ShownIn(c, needle, k)
    ensures IsCategoryKey(c, k)
  {
  }

  /**
   * What `filter_models` returns: an entry for every key of the catalog and no
   * other; all of them true for an empty term, and otherwise true exactly for
   * the keys some category shows.
   */
  lemma FilteredVisibility(s: Structure, term: string)
    ensures var r := Filtered(s, term);
      forall k :: k in r <==> IsKeyOf(s, k)
    ensures var r := Filtered(s, term);
      Needle(term) == "" ==> forall k :: k in r ==> r[k]
    ensures var r := Filtered(s, term);
      Needle(term) != "" ==> forall k :: k in r ==> (r[k] <==> ShownKey(s, Needle(term), k))
  {
    var needle := Needle(term);
    if needle == "" {
      MarkedSets(map[], s, true);
    } else {
      var v := Marked(map[], s, false);
      MarkedSets(map[], s, false);
      ShowMatchesShows(v, s, needle);
      forall k | ShownKey(s, needle, k)
        ensures IsKeyOf(s, k)
      {
        var i :| 0 <= i < |s| && ShownIn(s[i], needle, k);
        ShownIsKey(s[i], needle, k);
      }
    }
  }

  /** A visible sub-category, bundle or bundle button keeps its category visible. */
  lemma FilteredShowsParent(s: Structure, term: string, k: Key)
    requires !k.CatKey?
    requires k in Filtered(s, term) && Filtered(s, term)[k]
    ensures CatKey(k.cat) in Filtered(s, term) && Filtered(s, term)[CatKey(k.cat)]
  {
    FilteredVisibility(s, term);
    var i :| 0 <= i < |s| && IsCategoryKey(s[i], k);
    assert IsCategoryKey(s[i], CatKey(k.cat));
    if Needle(term) != "" {
      var needle := Needle(term);
      var i' :| 0 <= i' < |s| && ShownIn(s[i'], needle, k);
      var c := s[i'];
      if k.SubKey? {
        var j :| 0 <= j < |c.subCategories.value| && c.subCategories.value[j].key == k.sub && SubMatches(c.subCategories.value[j], needle);
        assert AnySub(c.subCategories.value, needle);
      } else {
        assert AnyBundle(c.bundles.value, needle);
      }
      assert ShownIn(c, needle, CatKey(k.cat));
    }
  }

  // ---------------------------------------------------------------------------
  // The loops

  method FilterModels(s: Structure, term: string) returns (v: Visibility)
    ensures v == Filtered(s, term)
  {
    var needle := Strip(Lower(term));
    if needle == "" {
      v := MarkAll(map[], s, true);
      return;
    }
    v := MarkAll(map[], s, false);
    v := ShowAll(v, s, needle);
  }

  method MarkAll(v0: Visibility, s: Structure, value: bool) returns (v: Visibility)
    ensures v == Marked(v0, s, value)
  {
    v := v0;
    var i := 0;
    while i < |s|
      invariant 0 <= i <= |s|
      invariant v == Marked(v0, s[..i], value)
    {
      assert s[..i + 1][..i] == s[..i];
      v := MarkOne(v, s[i], value);
      i := i + 1;
    }
    assert s[..|s|] == s;
  }

  /** One category of the first two loops. */
  method MarkOne(v0: Visibility, c: Category, value: bool) returns (v: Visibility)
    ensures v == MarkCategory(v0, c, value)
  {
    v := v0[CatKey(c.name) := value];
    if c.subCategories.Some? {
      var subs := c.subCategories.value;
      var j := 0;
      while j < |subs|
        invariant 0 <= j <= |subs|
        invariant v == MarkSubs(v0[CatKey(c.name) := value], c.name, subs[..j], value)
      {
        assert subs[..j + 1][..j] == subs[..j];
        v := v[SubKey(c.name, subs[j].key) := value];
        j := j + 1;
      }
      assert subs[..|subs|] == subs;
    } else if c.bundles.Some? {
      var i := 0;
      while i < |c.bundles.value|
        invariant 0 <= i <= |c.bundles.value|
        invariant v == MarkBundles(v0[CatKey(c.name) := value], c.name, i, value)
      {
        v := v[BundleKey(c.name, i) := value][ButtonKey(c.name, i) := value];
        i := i + 1;
      }
    }
  }

  method ShowAll(v0: Visibility, s: Structure, needle: string) returns (v: Visibility)
    ensures v == ShowMatches(v0, s, needle)
  {
    v := v0;
    var i := 0;
    while i < |s|
      invariant 0 <= i <= |s|
      invariant v == ShowMatches(v0, s[..i], needle)
    {
      assert s[..i + 1][..i] == s[..i];
      v := ShowOne(v, s[i], needle);
      i := i + 1;
    }
    assert s[..|s|] == s;
  }

  /** One category of the third loop. */
  method ShowOne(v0: Visibility, c: Category, needle: string) returns (v: Visibility)
    ensures v == ShowCategory(v0, c, needle)
  {
    v := v0;
    var catMatch := Contains(Lower(c.name), needle);
    if c.subCategories.Some? {
      var catVisible;
      v, catVisible := ShowSubsOf(v, c.name, c.subCategories.value, needle, catMatch);
      if catVisible {
        v := v[CatKey(c.name) := true];
      }
    } else if c.bundles.Some? {
      var anyBundle;
      v, anyBundle := ShowBundlesOf(v, c.name, c.bundles.value, needle);
      if anyBundle || catMatch {
        v := v[CatKey(c.name) := true];
      }
    }
  }

  /** The sub-category loop of the third loop; the category becomes visible with the first shown sub-category. */
  method ShowSubsOf(v0: Visibility, name: string, subs: seq<SubCategory>, needle: string, catMatch: bool)
    returns (v: Visibility, catVisible: bool)
    ensures v == ShowSubs(v0, name, subs, needle)
    ensures catVisible == (catMatch || AnySub(subs, needle))
  {
    v := v0;
    catVisible := catMatch;
    var j := 0;
    while j < |subs|
      invariant 0 <= j <= |subs|
      invariant v == ShowSubs(v0, name, subs[..j], needle)
      invariant catVisible == (catMatch || AnySub(subs[..j], needle))
    {
      assert subs[..j + 1][..j] == subs[..j];
      assert AnySub(subs[..j + 1], needle) == (AnySub(subs[..j], needle) || SubMatches(subs[j], needle)) by {
        assert subs[..j + 1][j] == subs[j];
        assert forall i :: 0 <= i < j ==> subs[..j + 1][i] == subs[..j][i];
      }
      var sub := subs[j];
      var subMatch := Contains(Lower(sub.key), needle);
      var modelMatch := AnyModelMatches(sub.models, needle);
      if modelMatch || subMatch {
        v := v[SubKey(name, sub.key) := true];
        catVisible := true;
      }
      j := j + 1;
    }
    assert subs[..|subs|] == subs;
  }

  /** The bundle loop of the third loop: a matching bundle shows itself and its button. */
  method ShowBundlesOf(v0: Visibility, name: string, bundles: seq<Bundle>, needle: string)
    returns (v: Visibility, anyBundle: bool)
    ensures v == ShowBundles(v0, name, bundles, needle)
    ensures anyBundle == AnyBundle(bundles, needle)
  {
    v := v0;
    anyBundle := false;
    var i := 0;
    while i < |bundles|
      invariant 0 <= i <= |bundles|
      invariant v == ShowBundles(v0, name, bundles[..i], needle)
      invariant anyBundle == AnyBundle(bundles[..i], needle)
    {
      assert bundles[..i + 1][..i] == bundles[..i];
      assert AnyBundle(bundles[..i + 1], needle) == (AnyBundle(bundles[..i], needle) || BundleMatches(bundles[i], needle)) by {
        assert bundles[..i + 1][i] == bundles[i];
        assert forall j :: 0 <= j < i ==> bundles[..i + 1][j] == bundles[..i][j];
      }
      var b := bundles[i];
      if Contains(Lower(b.name.GetOr("")), needle) || Contains(Lower(b.info.GetOr("")), needle) {
        v := v[BundleKey(name, i) := true][ButtonKey(name, i) := true];
        anyBundle := true;
      }
      i := i + 1;
    }
    assert bundles[..|bundles|] == bundles;
  }

  /** The scan over a sub-category's models, stopping at the first whose name contains the term. */
  method AnyModelMatches(models: seq<Model>, needle: string) returns (found: bool)
    ensures found <==> AnyModel(models, needle)
    ensures found ==> exists j :: 0 <= j < |models| && ModelMatches(models[j], needle)
  {
    found := false;
    var i := 0;
    while i < |models|
      invariant 0 <= i <= |models|
      invariant forall j :: 0 <= j < i ==> !ModelMatches(models[j], needle)
    {
      if Contains(Lower(models[i].name.GetOr("")), needle) {
        found := true;
        break;
      }
      i := i + 1;
    }
  }
}
