/**
 * The model catalog: categories holding sub-categories of models, or
 * bundles of references to models, and the two lookups the placement engine
 * makes in it: `find_model_by_key` for bundle references, and the search by
 * model name that yields the size-record key `category::sub-category::name`.
 */
module Catalog {
  import opened Wrappers

  /**
   * One downloadable model. An empty string stands for a key that is
   * missing or falsy in the source's dictionary.
   */
  datatype Model = Model(
    name: Option<string>,
    repoId: string,
    filenameInRepo: string,
    saveFilename: string,
    isSnapshot: bool,
    allowPatterns: Option<seq<string>>,
    preDeleteTarget: bool,
    allowOverwrite: bool,
    targetDirKey: string)

  /** A sub-category under its dictionary key, with its own display name. */
  datatype SubCategory = SubCategory(key: string, name: Option<string>, targetDirKey: string, models: seq<Model>)

  /** A bundle entry `(category, sub-category, model name)`. */
  datatype ModelRef = ModelRef(category: string, subCategory: string, model: string)

  datatype Bundle = Bundle(name: Option<string>, info: Option<string>, models: seq<ModelRef>)

  /** A category under its dictionary key; either part may be absent. */
  datatype Category = Category(name: string, subCategories: Option<seq<SubCategory>>, bundles: Option<seq<Bundle>>)

  /** The catalog, in the dictionary's insertion order. */
  type Structure = seq<Category>

  /** `model_info.get('name', model_info.get('repo_id'))`. */
  function ModelName(m: Model): string {
    m.name.GetOr(m.repoId)
  }

  /** Dictionary lookup: the entry stored under `key`, where `keyOf` gives each entry's key. */
  function FindByKey<T>(entries: seq<T>, keyOf: T -> string, key: string): (r: Option<T>)
    ensures r.Some? ==> r.value in entries && keyOf(r.value) == key
    ensures r.None? <==> forall e :: e in entries ==> keyOf(e) != key
    decreases |entries|
  {
    if entries == [] then None
    else if keyOf(entries[0]) == key then Some(entries[0])
    else FindByKey(entries[1..], keyOf, key)
  }

  function CategoryKey(c: Category): string {
    c.name
  }

  function SubCategoryKey(sub: SubCategory): string {
    sub.key
  }

  /** `model_structure[category]`. */
  function FindCategory(s: Structure, name: string): Option<Category> {
    FindByKey(s, CategoryKey, name)
  }

  /** `sub_categories[sub_category]`. */
  function FindSubCategory(subs: seq<SubCategory>, key: string): Option<SubCategory> {
    FindByKey(subs, SubCategoryKey, key)
  }

  /** How the scan `for model_info in ...: if model_info["name"] == model_name` ends. */
  datatype Scan = Match(model: Model) | NoMatch | NameMissing

  predicate NamedOther(m: Model, name: string) {
    m.name.Some? && m.name.value != name
  }

  /** Every model before index `i` has a name, and a different one. */
  predicate OthersBefore(models: seq<Model>, name: string, i: int)
    requires 0 <= i <= |models|
  {
    forall j :: 0 <= j < i ==> NamedOther(models[j], name)
  }

  /**
   * The scan of one sub-category: the first model named `name`, unless a
   * model without a name comes first, which raises `KeyError`.
   */
  function ScanModels(models: seq<Model>, name: string): (r: Scan)
    ensures r.NoMatch? <==> OthersBefore(models, name, |models|)
    ensures r.NameMissing? ==> exists i :: 0 <= i < |models| && models[i].name.None? && OthersBefore(models, name, i)
    ensures r.Match? ==> r.model.name == Some(name) && exists i :: 0 <= i < |models| && models[i] == r.model && OthersBefore(models, name, i)
    decreases |models|
  {
    if models == [] then NoMatch
    else if models[0].name.None? then
      assert !NamedOther(models[0], name);
      NameMissing
    else if models[0].name.value == name then
      assert OthersBefore(models, name, 0);
      Match(models[0])
    else
      var rest := models[1..];
      var r := ScanModels(rest, name);
      assert forall i :: 0 <= i < |rest| ==> (OthersBefore(rest, name, i) <==> OthersBefore(models, name, i + 1)) by {
        assert forall j :: 1 <= j < |models| ==> models[j] == rest[j - 1];
      }
      r
  }

  /** The result of `find_model_by_key`, with the line it logs when it finds nothing. */
  datatype Lookup = Found(model: Model, sub: SubCategory) | NotFound(message: string)

  function NotFoundMessage(ref: ModelRef): string {
    "ERROR: Model '" + ref.model + "' not found in '" + ref.category + "' -> '" + ref.subCategory + "'."
  }

  function KeyErrorMessage(ref: ModelRef): string {
    "ERROR: Category '" + ref.category + "' or Sub-category '" + ref.subCategory
      + "' not found while searching for model '" + ref.model + "'."
  }

  /** `find_model_by_key`: every missing dictionary key lands in the `KeyError` handler. */
  function FindModel(s: Structure, ref: ModelRef): (r: Lookup)
    ensures r.Found? ==> r.model.name == Some(ref.model) && r.model in r.sub.models && r.sub.key == ref.subCategory
    ensures r.Found? ==> exists c :: c in s && c.name == ref.category && c.subCategories.Some? && r.sub in c.subCategories.value
    ensures r.NotFound? ==> r.message == NotFoundMessage(ref) || r.message == KeyErrorMessage(ref)
  {
    match FindCategory(s, ref.category)
    case None => NotFound(KeyErrorMessage(ref))
    case Some(c) =>
      if c.subCategories.None? then NotFound(KeyErrorMessage(ref))
      else
        match FindSubCategory(c.subCategories.value, ref.subCategory)
        case None => NotFound(KeyErrorMessage(ref))
        case Some(sub) =>
          match ScanModels(sub.models, ref.model)
          case Match(m) => Found(m, sub)
          case NoMatch => NotFound(NotFoundMessage(ref))
          case NameMissing => NotFound(KeyErrorMessage(ref))
  }

  /** The scan stops at the first model named `name` when every model before it has another name. */
  lemma ScanModelsFindsFirst(models: seq<Model>, name: string, i: nat)
    requires i < |models| && models[i].name == Some(name)
    requires OthersBefore(models, name, i)
    ensures ScanModels(models, name) == Match(models[i])
  {
    assert !NamedOther(models[i], name);
  }

  /**
   * A reference whose category and sub-category exist is found when the
   * sub-category holds a model of that name with only differently named
   * models before it; that model is the one found.
   */
  lemma FindModelFindsNamed(s: Structure, ref: ModelRef, c: Category, sub: SubCategory, i: nat)
    requires FindCategory(s, ref.category) == Some(c) && c.subCategories.Some?
    requires FindSubCategory(c.subCategories.value, ref.subCategory) == Some(sub)
    requires i < |sub.models| && sub.models[i].name == Some(ref.model)
    requires OthersBefore(sub.models, ref.model, i)
    ensures FindModel(s, ref) == Found(sub.models[i], sub)
  {
    ScanModelsFindsFirst(sub.models, ref.model, i);
  }

  /** The loop of `find_model_by_key` over the sub-category's models. */
  method FindModelByKey(s: Structure, ref: ModelRef) returns (r: Lookup)
    ensures r == FindModel(s, ref)
  {
    var cat := FindCategory(s, ref.category);
    if cat.None? || cat.value.subCategories.None? {
      return NotFound(KeyErrorMessage(ref));
    }
    var subLookup := FindSubCategory(cat.value.subCategories.value, ref.subCategory);
    if subLookup.None? {
      return NotFound(KeyErrorMessage(ref));
    }
    var sub := subLookup.value;
    var i := 0;
    while i < |sub.models|
      invariant 0 <= i <= |sub.models|
      invariant ScanModels(sub.models[i..], ref.model) == ScanModels(sub.models, ref.model)
    {
      var m := sub.models[i];
      if m.name.None? {
        return NotFound(KeyErrorMessage(ref));
      }
      if m.name.value == ref.model {
        return Found(m, sub);
      }
      assert sub.models[i..][1..] == sub.models[i + 1..];
      i := i + 1;
    }
    return NotFound(NotFoundMessage(ref));
  }

  // ---------------------------------------------------------------------------
  // The size-record key of a model, found by name

  function SizeKey(category: string, subCategory: string, model: string): string {
    category + "::" + subCategory + "::" + model
  }

  /** The first model named `name` in the sub-categories, as `(sub-category key, model)`. */
  function FirstNamedInSubs(subs: seq<SubCategory>, name: string): (r: Option<string>)
    ensures r.Some? ==> exists k :: 0 <= k < |subs| && r.value == subs[k].key && exists m :: m in subs[k].models && m.name == Some(name)
    ensures r.None? <==> forall k, m :: 0 <= k < |subs| && m in subs[k].models ==> m.name != Some(name)
    decreases |subs|
  {
    if subs == [] then None
    else if exists m :: m in subs[0].models && m.name == Some(name) then Some(subs[0].key)
    else
      var r := FirstNamedInSubs(subs[1..], name);
      assert forall k :: 1 <= k < |subs| ==> subs[k] == subs[1..][k - 1];
      r
  }

  /**
   * The nested search of the pre-delete branch: the key of the first model
   * named `name`, over the categories that have sub-categories, in order.
   */
  function SizeKeyOf(s: Structure, name: string): (r: Option<string>)
    ensures r.None? <==> forall c, k, m :: c in s && c.subCategories.Some? && 0 <= k < |c.subCategories.value| && m in c.subCategories.value[k].models ==> m.name != Some(name)
    ensures r.Some? ==> exists c, k :: c in s && c.subCategories.Some? && 0 <= k < |c.subCategories.value| && r.value == SizeKey(c.name, c.subCategories.value[k].key, name)
    decreases |s|
  {
    if s == [] then None
    else
      var found := if s[0].subCategories.Some? then FirstNamedInSubs(s[0].subCategories.value, name) else None;
      if found.Some? then Some(SizeKey(s[0].name, found.value, name))
      else SizeKeyOf(s[1..], name)
  }
}
