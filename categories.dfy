/** The kitchen-object category table and the registry built from it: one
    descriptor (`ObjCat`) per category and asset registry, whose list of
    model files comes from walking the registry's folders. */
module ObjectCategories {
  import opened Common
  import opened Paths
  import opened Sorting

  /** A leaf value written in the declarative table. */
  datatype Leaf =
    | Bool(b: bool)
    | Str(s: string)
    | Tuple(items: seq<string>)
    | List(items: seq<string>)
    | Num(x: real)
    | Nums(xs: seq<real>)
    | NoneValue

  /** A value of a category entry: a leaf, or a registry block (a nested dict). */
  datatype Value = Plain(leaf: Leaf) | Block(fields: map<string, Leaf>)

  /** One category's entry: its top-level keys and their values. */
  type Entry = map<string, Value>

  /** The declarative table: category names in declaration order, and each
      name's entry. */
  datatype Table = Table(names: seq<string>, entries: map<string, Entry>) {
    ghost predicate Valid() {
      && (forall i, j :: 0 <= i < j < |names| ==> names[i] != names[j])
      && (forall n :: n in entries <==> n in names)
    }
  }

  datatype Affordance = Graspable | Washable | Microwavable | Cookable | Freezable

  const AllAffordances: set<Affordance> := {Graspable, Washable, Microwavable, Cookable, Freezable}

  function AffordanceKey(a: Affordance): string
  {
    match a
    case Graspable => "graspable"
    case Washable => "washable"
    case Microwavable => "microwavable"
    case Cookable => "cookable"
    case Freezable => "freezable"
  }

  lemma AffordancesComplete()
    ensures forall a: Affordance :: a in AllAffordances
  {
    forall a: Affordance ensures a in AllAffordances {
      match a
      case Graspable =>
      case Washable =>
      case Microwavable =>
      case Cookable =>
      case Freezable =>
    }
  }

  /** The only keys a category entry may have. */
  const TopLevelKeys: set<string> :=
    {"graspable", "washable", "microwavable", "cookable", "freezable", "types",
     "aigen", "objaverse", "objaverse_extra"}

  /** The registry blocks, in the order the build turns them into descriptors. */
  const RegistryKeys: seq<string> := ["objaverse", "aigen", "objaverse_extra"]

  /** The asset folder a registry's default model folder lives in. */
  function SourceOf(reg: string): string
  {
    if reg == "aigen" then "aigen_objs" else reg
  }

  /** The parameters of `ObjCat.__init__`. */
  const ObjCatKeywords: set<string> :=
    {"name", "types", "model_folders", "exclude", "graspable", "washable",
     "microwavable", "cookable", "freezable", "scale", "solimp", "solref",
     "density", "friction", "priority", "aigen_cat", "source"}

  /** The fields `ObjCat.__init__` stores before it walks the folders. */
  datatype CatFields = CatFields(
    name: string,
    types: seq<string>,
    aigenCat: bool,
    affordances: set<Affordance>,  // the flags whose value is `True`
    scale: real,
    solimp: seq<real>,
    solref: seq<real>,
    density: real,
    friction: seq<real>,
    priority: Option<real>,
    exclude: seq<string>,
    modelFolders: seq<string>)

  /** A descriptor: the stored fields and the sorted list of model files. */
  datatype ObjCat = ObjCat(fields: CatFields, mjcfPaths: seq<string>)

  /** `types` as the descriptor stores it: a bare string becomes a
      one-element tuple. */
  function NormaliseTypes(v: Leaf): Result<seq<string>>
  {
    match v
    case Tuple(items) => Ok(items)
    case Str(s) => Ok([s])
    case _ => Err(Unsupported)
  }

  function StringsOr(kw: map<string, Leaf>, key: string, default: seq<string>): Result<seq<string>>
  {
    if key !in kw then Ok(default)
    else match kw[key]
      case NoneValue => Ok(default)
      case List(items) => Ok(items)
      case Tuple(items) => Ok(items)
      case _ => Err(Unsupported)
  }

  function NumOr(kw: map<string, Leaf>, key: string, default: real): Result<real>
  {
    if key !in kw then Ok(default)
    else match kw[key]
      case Num(x) => Ok(x)
      case _ => Err(Unsupported)
  }

  function NumsOr(kw: map<string, Leaf>, key: string, default: seq<real>): Result<seq<real>>
  {
    if key !in kw then Ok(default)
    else match kw[key]
      case Nums(xs) => Ok(xs)
      case _ => Err(Unsupported)
  }

  function PriorityOf(kw: map<string, Leaf>): Result<Option<real>>
  {
    if "priority" !in kw then Ok(None)
    else match kw["priority"]
      case NoneValue => Ok(None)
      case Num(x) => Ok(Some(x))
      case _ => Err(Unsupported)
  }

  function AigenCatOf(aigen: bool, kw: map<string, Leaf>): Result<bool>
  {
    if aigen then Ok(true)
    else if "aigen_cat" !in kw then Ok(false)
    else match kw["aigen_cat"]
      case Bool(b) => Ok(b)
      case _ => Err(Unsupported)
  }

  /** The flags held by a descriptor: those given as exactly `True`, which is
      what the sampler's `is not True` test looks for. */
  function HeldAffordances(kw: map<string, Leaf>): set<Affordance>
  {
    set a | a in AllAffordances && AffordanceKey(a) in kw && kw[AffordanceKey(a)] == Bool(true)
  }

  /** Binds the keyword arguments of one `ObjCat(name=..., source=..., **kw)`
      call (with `aigen_cat=True` for the aigen registry) to the stored
      fields, with the constructor's defaults. */
  function ObjCatArguments(name: string, source: string, aigen: bool, kw: map<string, Leaf>): (r: Result<CatFields>)
    ensures !(kw.Keys <= ObjCatKeywords) ==> r == Err(TypeError)
    ensures "types" !in kw ==> r == Err(TypeError)
    ensures r.Ok? ==> r.value.name == name && r.value.aigenCat == (aigen || ("aigen_cat" in kw && kw["aigen_cat"] == Bool(true)))
    ensures r.Ok? ==> Ok(r.value.types) == NormaliseTypes(kw["types"])
    ensures r.Ok? && kw["types"].Str? ==> r.value.types == [kw["types"].s]
    ensures r.Ok? ==> r.value.friction == [1.0, 1.0, 1.0]
    ensures r.Ok? && ("model_folders" !in kw || kw["model_folders"] == NoneValue) ==>
              r.value.modelFolders == [source + "/" + name]
    ensures r.Ok? && "exclude" !in kw ==> r.value.exclude == []
    ensures r.Ok? ==> forall a :: a in r.value.affordances <==> AffordanceKey(a) in kw && kw[AffordanceKey(a)] == Bool(true)
  {
    if !(kw.Keys <= ObjCatKeywords) then Err(TypeError)
    else if "name" in kw || "source" in kw || (aigen && "aigen_cat" in kw) then Err(TypeError)
    else if "types" !in kw then Err(TypeError)
    else
      var types :- NormaliseTypes(kw["types"]);
      var aigenCat :- AigenCatOf(aigen, kw);
      var scale :- NumOr(kw, "scale", 1.0);
      var solimp :- NumsOr(kw, "solimp", [0.998, 0.998, 0.001]);
      var solref :- NumsOr(kw, "solref", [0.001, 2.0]);
      var density :- NumOr(kw, "density", 100.0);
      var priority :- PriorityOf(kw);
      var exclude :- StringsOr(kw, "exclude", []);
      var folders :- StringsOr(kw, "model_folders", [source + "/" + name]);
      AffordancesComplete();
      Ok(CatFields(name, types, aigenCat, HeldAffordances(kw), scale, solimp, solref,
                   density, [1.0, 1.0, 1.0], priority, exclude, folders))
  }

  // ---------------------------------------------------------------------
  // The folder walk

  /** One `(root, dirs, files)` triple of `os.walk`, without `dirs`. */
  datatype WalkEntry = WalkEntry(root: string, files: seq<string>)

  /** What `os.walk(top)` yields for each directory that exists. */
  type FileTree = map<string, seq<WalkEntry>>

  /** `os.walk(top)`: a missing directory yields nothing. */
  function Walk(fs: FileTree, top: string): seq<WalkEntry>
  {
    if top in fs then fs[top] else []
  }

  predicate IsModelDir(e: WalkEntry, exclude: seq<string>)
  {
    "model.xml" in e.files && Basename(e.root) !in exclude
  }

  /** The model files one walk contributes, in walk order. */
  function ModelPaths(walk: seq<WalkEntry>, exclude: seq<string>): seq<string>
  {
    if |walk| == 0 then []
    else
      var e := walk[|walk| - 1];
      ModelPaths(walk[..|walk| - 1], exclude)
        + (if IsModelDir(e, exclude) then [PathJoin(e.root, "model.xml")] else [])
  }

  /** The model files found under all folders, in folder and walk order. */
  function Collected(base: string, folders: seq<string>, fs: FileTree, exclude: seq<string>): seq<string>
  {
    if |folders| == 0 then []
    else
      Collected(base, folders[..|folders| - 1], fs, exclude)
        + ModelPaths(Walk(fs, PathJoin(base, folders[|folders| - 1])), exclude)
  }

  /** The descriptor `ObjCat.__init__` produces from its fields. */
  function ObjCatOf(fields: CatFields, base: string, fs: FileTree): ObjCat
  {
    ObjCat(fields, SortStrings(Collected(base, fields.modelFolders, fs, fields.exclude)))
  }

  /** `ObjCat.__init__`: walks every model folder under the asset root,
      collects `<root>/model.xml` for each directory holding a `model.xml`
      whose name is not excluded, and sorts the result. */
  method NewObjCat(fields: CatFields, base: string, fs: FileTree) returns (cat: ObjCat)
    ensures cat.fields == fields
    ensures cat.mjcfPaths == SortStrings(Collected(base, fields.modelFolders, fs, fields.exclude))
  {
    var folders := fields.modelFolders;
    var found: seq<string> := [];
    for i := 0 to |folders|
      invariant found == Collected(base, folders[..i], fs, fields.exclude)
    {
      var walk := Walk(fs, PathJoin(base, folders[i]));
      CollectedStep(base, folders, fs, fields.exclude, i);
      for j := 0 to |walk|
        invariant found == Collected(base, folders[..i], fs, fields.exclude) + ModelPaths(walk[..j], fields.exclude)
      {
        ModelPathsStep(walk, fields.exclude, j);
        var e := walk[j];
        if "model.xml" in e.files {
          var modelName := Basename(e.root);
          if modelName in fields.exclude {
            continue;
          }
          found := found + [PathJoin(e.root, "model.xml")];
        }
      }
      assert walk[..|walk|] == walk;
    }
    assert folders[..|folders|] == folders;
    cat := ObjCat(fields, SortStrings(found));
  }

  /** One more folder adds its walk's model files at the end. */
  lemma CollectedStep(base: string, folders: seq<string>, fs: FileTree, exclude: seq<string>, i: int)
    requires 0 <= i < |folders|
    ensures Collected(base, folders[..i + 1], fs, exclude)
            == Collected(base, folders[..i], fs, exclude) + ModelPaths(Walk(fs, PathJoin(base, folders[i])), exclude)
  {
    assert folders[..i + 1][..i] == folders[..i];
  }

  /** One more walk entry adds its model file, when it has one, at the end. */
  lemma ModelPathsStep(walk: seq<WalkEntry>, exclude: seq<string>, j: int)
    requires 0 <= j < |walk|
    ensures ModelPaths(walk[..j + 1], exclude)
            == ModelPaths(walk[..j], exclude) + (if IsModelDir(walk[j], exclude) then [PathJoin(walk[j].root, "model.xml")] else [])
  {
    assert walk[..j + 1][..j] == walk[..j];
  }

  /** The walk entry number `j` of folder number `k` is a model directory. */
  ghost predicate Hit(base: string, folders: seq<string>, fs: FileTree, exclude: seq<string>, k: int, j: int)
  {
    && 0 <= k < |folders|
    && 0 <= j < |Walk(fs, PathJoin(base, folders[k]))|
    && IsModelDir(Walk(fs, PathJoin(base, folders[k]))[j], exclude)
  }

  ghost function HitPath(base: string, folders: seq<string>, fs: FileTree, k: int, j: int): string
    requires 0 <= k < |folders|
    requires 0 <= j < |Walk(fs, PathJoin(base, folders[k]))|
  {
    PathJoin(Walk(fs, PathJoin(base, folders[k]))[j].root, "model.xml")
  }

  lemma {:induction false} ModelPathsMembers(walk: seq<WalkEntry>, exclude: seq<string>, p: string)
    ensures p in ModelPaths(walk, exclude) <==>
            exists j :: 0 <= j < |walk| && IsModelDir(walk[j], exclude) && p == PathJoin(walk[j].root, "model.xml")
  {
    if |walk| > 0 {
      var init := walk[..|walk| - 1];
      ModelPathsMembers(init, exclude, p);
      if p in ModelPaths(init, exclude) {
        var j :| 0 <= j < |init| && IsModelDir(init[j], exclude) && p == PathJoin(init[j].root, "model.xml");
        assert walk[j] == init[j];
      }
      if exists j :: 0 <= j < |walk| && IsModelDir(walk[j], exclude) && p == PathJoin(walk[j].root, "model.xml") {
        var j :| 0 <= j < |walk| && IsModelDir(walk[j], exclude) && p == PathJoin(walk[j].root, "model.xml");
        if j < |walk| - 1 {
          assert init[j] == walk[j];
        }
      }
    }
  }

  /** The hits among the first folders are the hits of the shorter list. */
  lemma HitInit(base: string, folders: seq<string>, fs: FileTree, exclude: seq<string>, k: int, j: int)
    requires 0 <= k < |folders| - 1
    ensures Hit(base, folders[..|folders| - 1], fs, exclude, k, j) <==> Hit(base, folders, fs, exclude, k, j)
    ensures Hit(base, folders, fs, exclude, k, j) ==>
              HitPath(base, folders[..|folders| - 1], fs, k, j) == HitPath(base, folders, fs, k, j)
  {
    assert folders[..|folders| - 1][k] == folders[k];
  }

  /** Every collected path is the model file of some hit. */
  lemma {:induction false} CollectedHits(base: string, folders: seq<string>, fs: FileTree, exclude: seq<string>, p: string)
    requires p in Collected(base, folders, fs, exclude)
    ensures exists k, j :: Hit(base, folders, fs, exclude, k, j) && p == HitPath(base, folders, fs, k, j)
  {
    var n := |folders| - 1;
    var init := folders[..n];
    var walk := Walk(fs, PathJoin(base, folders[n]));
    if p in Collected(base, init, fs, exclude) {
      CollectedHits(base, init, fs, exclude, p);
      var k, j :| Hit(base, init, fs, exclude, k, j) && p == HitPath(base, init, fs, k, j);
      HitInit(base, folders, fs, exclude, k, j);
    } else {
      assert p in ModelPaths(walk, exclude);
      ModelPathsMembers(walk, exclude, p);
      var j :| 0 <= j < |walk| && IsModelDir(walk[j], exclude) && p == PathJoin(walk[j].root, "model.xml");
      assert Hit(base, folders, fs, exclude, n, j);
    }
  }

  /** The model file of every hit is collected. */
  lemma {:induction false} HitsCollected(base: string, folders: seq<string>, fs: FileTree, exclude: seq<string>, k: int, j: int)
    requires Hit(base, folders, fs, exclude, k, j)
    ensures HitPath(base, folders, fs, k, j) in Collected(base, folders, fs, exclude)
  {
    var n := |folders| - 1;
    var init := folders[..n];
    var p := HitPath(base, folders, fs, k, j);
    if k < n {
      HitInit(base, folders, fs, exclude, k, j);
      HitsCollected(base, init, fs, exclude, k, j);
    } else {
      var walk := Walk(fs, PathJoin(base, folders[n]));
      ModelPathsMembers(walk, exclude, p);
      assert p in ModelPaths(walk, exclude);
    }
  }

  lemma CollectedMembers(base: string, folders: seq<string>, fs: FileTree, exclude: seq<string>, p: string)
    ensures p in Collected(base, folders, fs, exclude) <==>
            exists k, j :: Hit(base, folders, fs, exclude, k, j) && p == HitPath(base, folders, fs, k, j)
  {
    if p in Collected(base, folders, fs, exclude) {
      CollectedHits(base, folders, fs, exclude, p);
    }
    if exists k, j :: Hit(base, folders, fs, exclude, k, j) && p == HitPath(base, folders, fs, k, j) {
      var k, j :| Hit(base, folders, fs, exclude, k, j) && p == HitPath(base, folders, fs, k, j);
      HitsCollected(base, folders, fs, exclude, k, j);
    }
  }

  /** The descriptor's model list is sorted and holds exactly the
      `<root>/model.xml` of every walked directory that holds a `model.xml`
      and whose name is not excluded. */
  lemma MjcfPathsExact(fields: CatFields, base: string, fs: FileTree)
    ensures Sorted(ObjCatOf(fields, base, fs).mjcfPaths)
    ensures forall p :: p in ObjCatOf(fields, base, fs).mjcfPaths <==>
              exists k, j :: Hit(base, fields.modelFolders, fs, fields.exclude, k, j)
                          && p == HitPath(base, fields.modelFolders, fs, k, j)
  {
    var c := Collected(base, fields.modelFolders, fs, fields.exclude);
    forall p ensures p in SortStrings(c) <==> p in c {
      assert p in SortStrings(c) <==> p in multiset(SortStrings(c));
    }
    forall p ensures p in c <==>
        exists k, j :: Hit(base, fields.modelFolders, fs, fields.exclude, k, j)
                    && p == HitPath(base, fields.modelFolders, fs, k, j) {
      CollectedMembers(base, fields.modelFolders, fs, fields.exclude, p);
    }
  }

  /** An excluded instance never reaches the descriptor's list. */
  lemma ExcludedNeverListed(fields: CatFields, base: string, fs: FileTree, p: string)
    requires p in ObjCatOf(fields, base, fs).mjcfPaths
    ensures exists root :: p == PathJoin(root, "model.xml") && Basename(root) !in fields.exclude
  {
    MjcfPathsExact(fields, base, fs);
    var k, j :| Hit(base, fields.modelFolders, fs, fields.exclude, k, j)
             && p == HitPath(base, fields.modelFolders, fs, k, j);
    var root := Walk(fs, PathJoin(base, fields.modelFolders[k]))[j].root;
    assert p == PathJoin(root, "model.xml");
  }

  /** The list does not depend on the order the walk reports directories in:
      walks that report the same model files give the same list. */
  lemma WalkOrderIrrelevant(fields: CatFields, base: string, fs: FileTree, fs': FileTree)
    requires multiset(Collected(base, fields.modelFolders, fs, fields.exclude))
          == multiset(Collected(base, fields.modelFolders, fs', fields.exclude))
    ensures ObjCatOf(fields, base, fs) == ObjCatOf(fields, base, fs')
  {
    SortIgnoresOrder(Collected(base, fields.modelFolders, fs, fields.exclude),
                     Collected(base, fields.modelFolders, fs', fields.exclude));
  }

  // ---------------------------------------------------------------------
  // The registry build

  /** What `entry.pop(reg, None)` leaves to be turned into a descriptor: a
      missing or `None` block gives none, and a non-dict value fails at the
      `update` call. */
  function BlockOf(entry: Entry, reg: string): Result<Option<map<string, Leaf>>>
  {
    if reg !in entry then Ok(None)
    else match entry[reg]
      case Block(f) => Ok(Some(f))
      case Plain(NoneValue) => Ok(None)
      case Plain(_) => Err(AttributeError)
  }

  /** The properties shared by all of a category's registries: every entry
      key that is not a registry block. */
  function CommonProperties(entry: Entry): Result<map<string, Leaf>>
  {
    if exists k :: k in entry && k !in RegistryKeys && entry[k].Block? then Err(Unsupported)
    else Ok(map k | k in entry && k !in RegistryKeys :: entry[k].leaf)
  }

  /** The descriptors of one category for the registries in `regs`, built in
      order; each block is updated with the shared properties (which win). */
  function DescriptorsFor(name: string, entry: Entry, common: map<string, Leaf>, base: string, fs: FileTree,
                          regs: seq<string>): Result<map<string, ObjCat>>
  {
    if |regs| == 0 then Ok(map[])
    else
      var done :- DescriptorsFor(name, entry, common, base, fs, regs[..|regs| - 1]);
      var reg := regs[|regs| - 1];
      var block :- BlockOf(entry, reg);
      match block
      case None => Ok(done)
      case Some(f) =>
        var fields :- ObjCatArguments(name, SourceOf(reg), reg == "aigen", f + common);
        Ok(done[reg := ObjCatOf(fields, base, fs)])
  }

  /** One pass of the registry-build loop, for one category. */
  function CategorySpec(name: string, entry: Entry, base: string, fs: FileTree): Result<map<string, ObjCat>>
  {
    if !(entry.Keys <= TopLevelKeys) then Err(AssertionError)
    else if "scale" in entry then Err(AssertionError)
    else
      var common :- CommonProperties(entry);
      DescriptorsFor(name, entry, common, base, fs, RegistryKeys)
  }

  /** The loop body of the registry build for one category: validates the
      keys, splits off the registry blocks and builds their descriptors. */
  method BuildCategory(name: string, entry: Entry, base: string, fs: FileTree) returns (r: Result<map<string, ObjCat>>)
    ensures r == CategorySpec(name, entry, base, fs)
  {
    if !(entry.Keys <= TopLevelKeys) {
      return Err(AssertionError);
    }
    if "scale" in entry {
      return Err(AssertionError);
    }
    var common := CommonProperties(entry);
    if common.Err? {
      return Err(common.error);
    }
    var cats: map<string, ObjCat> := map[];
    for i := 0 to |RegistryKeys|
      invariant DescriptorsFor(name, entry, common.value, base, fs, RegistryKeys[..i]) == Ok(cats)
    {
      var reg := RegistryKeys[i];
      DescriptorsStep(name, entry, common.value, base, fs, RegistryKeys, i);
      var block := BlockOf(entry, reg);
      if block.Err? {
        DescriptorsFailFast(name, entry, common.value, base, fs, RegistryKeys, i + 1);
        return Err(block.error);
      }
      if block.value.Some? {
        var fields := ObjCatArguments(name, SourceOf(reg), reg == "aigen", block.value.value + common.value);
        if fields.Err? {
          DescriptorsFailFast(name, entry, common.value, base, fs, RegistryKeys, i + 1);
          return Err(fields.error);
        }
        var cat := NewObjCat(fields.value, base, fs);
        cats := cats[reg := cat];
      }
    }
    assert RegistryKeys[..|RegistryKeys|] == RegistryKeys;
    r := Ok(cats);
  }

  /** One more registry: its block is skipped when absent, fails the build
      when malformed, and otherwise adds its descriptor. */
  lemma DescriptorsStep(name: string, entry: Entry, common: map<string, Leaf>, base: string, fs: FileTree,
                        regs: seq<string>, i: int)
    requires 0 <= i < |regs|
    ensures var before := DescriptorsFor(name, entry, common, base, fs, regs[..i]);
            var after := DescriptorsFor(name, entry, common, base, fs, regs[..i + 1]);
            var reg := regs[i];
            && (before.Err? ==> after == before)
            && (before.Ok? && BlockOf(entry, reg).Err? ==> after == Err(BlockOf(entry, reg).error))
            && (before.Ok? && BlockOf(entry, reg) == Ok(None) ==> after == before)
            && (before.Ok? && BlockOf(entry, reg).Ok? && BlockOf(entry, reg).value.Some? ==>
                  var fields := ObjCatArguments(name, SourceOf(reg), reg == "aigen", BlockOf(entry, reg).value.value + common);
                  after == if fields.Err? then Err(fields.error) else Ok(before.value[reg := ObjCatOf(fields.value, base, fs)]))
  {
    assert regs[..i + 1][..i] == regs[..i];
  }

  /** A failure for a prefix of the registries is the failure for all of them. */
  lemma {:induction false} DescriptorsFailFast(name: string, entry: Entry, common: map<string, Leaf>, base: string,
                                               fs: FileTree, regs: seq<string>, n: nat)
    requires n <= |regs|
    requires DescriptorsFor(name, entry, common, base, fs, regs[..n]).Err?
    ensures DescriptorsFor(name, entry, common, base, fs, regs) == DescriptorsFor(name, entry, common, base, fs, regs[..n])
    decreases |regs| - n
  {
    if n < |regs| {
      assert regs[..n + 1][..n] == regs[..n];
      DescriptorsFailFast(name, entry, common, base, fs, regs, n + 1);
    } else {
      assert regs[..n] == regs;
    }
  }

  /** The forward registry map of a whole table. */
  datatype Registry = Registry(names: seq<string>, cats: map<string, map<string, ObjCat>>) {
    ghost predicate Valid() {
      && (forall i, j :: 0 <= i < j < |names| ==> names[i] != names[j])
      && (forall n :: n in cats <==> n in names)
    }
  }

  /** The registry build over the categories in `names`, in order: the
      first category that fails fails the build. */
  function BuildAll(table: Table, base: string, fs: FileTree, names: seq<string>): Result<map<string, map<string, ObjCat>>>
    requires forall n :: n in names ==> n in table.entries
  {
    if |names| == 0 then Ok(map[])
    else
      var done :- BuildAll(table, base, fs, names[..|names| - 1]);
      var name := names[|names| - 1];
      var cats :- CategorySpec(name, table.entries[name], base, fs);
      Ok(done[name := cats])
  }

  /** The registry the module builds from the table. */
  function RegistrySpec(table: Table, base: string, fs: FileTree): Result<Registry>
    requires table.Valid()
  {
    var cats :- BuildAll(table, base, fs, table.names);
    Ok(Registry(table.names, cats))
  }

  /** The module-level loop that replaces each table entry by its
      descriptors. */
  method BuildRegistry(table: Table, base: string, fs: FileTree) returns (r: Result<Registry>)
    requires table.Valid()
    ensures r == RegistrySpec(table, base, fs)
  {
    var cats: map<string, map<string, ObjCat>> := map[];
    for i := 0 to |table.names|
      invariant BuildAll(table, base, fs, table.names[..i]) == Ok(cats)
    {
      var name := table.names[i];
      BuildAllStep(table, base, fs, table.names, i);
      var built := BuildCategory(name, table.entries[name], base, fs);
      if built.Err? {
        BuildAllFailFast(table, base, fs, table.names, i + 1);
        return Err(built.error);
      }
      cats := cats[name := built.value];
    }
    assert table.names[..|table.names|] == table.names;
    r := Ok(Registry(table.names, cats));
  }

  /** One more category: a failed build stays failed, and otherwise the
      category's descriptors are added or its error ends the build. */
  lemma BuildAllStep(table: Table, base: string, fs: FileTree, names: seq<string>, i: int)
    requires forall n :: n in names ==> n in table.entries
    requires 0 <= i < |names|
    ensures var before := BuildAll(table, base, fs, names[..i]);
            var built := CategorySpec(names[i], table.entries[names[i]], base, fs);
            BuildAll(table, base, fs, names[..i + 1])
              == if before.Err? then before
                 else if built.Err? then Err(built.error)
                 else Ok(before.value[names[i] := built.value])
  {
    assert names[..i + 1][..i] == names[..i];
  }

  /** A failure for a prefix of the categories is the failure of the build. */
  lemma {:induction false} BuildAllFailFast(table: Table, base: string, fs: FileTree, names: seq<string>, n: nat)
    requires forall k :: k in names ==> k in table.entries
    requires n <= |names|
    requires BuildAll(table, base, fs, names[..n]).Err?
    ensures BuildAll(table, base, fs, names) == BuildAll(table, base, fs, names[..n])
    decreases |names| - n
  {
    if n < |names| {
      assert names[..n + 1][..n] == names[..n];
      BuildAllFailFast(table, base, fs, names, n + 1);
    } else {
      assert names[..n] == names;
    }
  }

  /** The build succeeds exactly when every category does, and then holds
      each category's descriptors under its name and no other key. */
  lemma {:induction false} BuildAllExact(table: Table, base: string, fs: FileTree, names: seq<string>)
    requires forall n :: n in names ==> n in table.entries
    ensures BuildAll(table, base, fs, names).Ok? <==>
              forall i :: 0 <= i < |names| ==> CategorySpec(names[i], table.entries[names[i]], base, fs).Ok?
    ensures BuildAll(table, base, fs, names).Ok? ==>
              && (forall n :: n in BuildAll(table, base, fs, names).value <==> n in names)
              && (forall n :: n in BuildAll(table, base, fs, names).value ==>
                    Ok(BuildAll(table, base, fs, names).value[n]) == CategorySpec(n, table.entries[n], base, fs))
  {
    if |names| > 0 {
      var init := names[..|names| - 1];
      var name := names[|names| - 1];
      BuildAllExact(table, base, fs, init);
      assert names == init + [name];
      assert forall i :: 0 <= i < |init| ==> names[i] == init[i];
    }
  }

  /** A failed build fails with the error of the first failing category. */
  lemma {:induction false} BuildAllFirstError(table: Table, base: string, fs: FileTree, names: seq<string>)
    requires forall n :: n in names ==> n in table.entries
    requires BuildAll(table, base, fs, names).Err?
    ensures exists i :: 0 <= i < |names|
              && CategorySpec(names[i], table.entries[names[i]], base, fs) == Err(BuildAll(table, base, fs, names).error)
              && forall j :: 0 <= j < i ==> CategorySpec(names[j], table.entries[names[j]], base, fs).Ok?
  {
    var init := names[..|names| - 1];
    var name := names[|names| - 1];
    if BuildAll(table, base, fs, init).Err? {
      BuildAllFirstError(table, base, fs, init);
      var i :| 0 <= i < |init|
               && CategorySpec(init[i], table.entries[init[i]], base, fs) == Err(BuildAll(table, base, fs, init).error)
               && forall j :: 0 <= j < i ==> CategorySpec(init[j], table.entries[init[j]], base, fs).Ok?;
      assert names[i] == init[i];
      assert forall j :: 0 <= j < i ==> names[j] == init[j];
    } else {
      BuildAllExact(table, base, fs, init);
      assert forall j :: 0 <= j < |init| ==> names[j] == init[j];
    }
  }

  /** The registry keeps the table's names and order, and maps each name to
      what its category's build produced; a failed build is the first
      failing category's error. */
  lemma RegistryExact(table: Table, base: string, fs: FileTree)
    requires table.Valid()
    ensures RegistrySpec(table, base, fs).Ok? <==> forall i :: 0 <= i < |table.names| ==>
              CategorySpec(table.names[i], table.entries[table.names[i]], base, fs).Ok?
    ensures RegistrySpec(table, base, fs).Ok? ==>
              RegistrySpec(table, base, fs).value.Valid() && RegistrySpec(table, base, fs).value.names == table.names
    ensures RegistrySpec(table, base, fs).Ok? ==> forall n :: n in RegistrySpec(table, base, fs).value.cats ==>
              Ok(RegistrySpec(table, base, fs).value.cats[n]) == CategorySpec(n, table.entries[n], base, fs)
    ensures RegistrySpec(table, base, fs).Err? ==>
              exists i :: 0 <= i < |table.names|
                && CategorySpec(table.names[i], table.entries[table.names[i]], base, fs) == Err(RegistrySpec(table, base, fs).error)
                && forall j :: 0 <= j < i ==> CategorySpec(table.names[j], table.entries[table.names[j]], base, fs).Ok?
  {
    BuildAllExact(table, base, fs, table.names);
    if BuildAll(table, base, fs, table.names).Err? {
      BuildAllFirstError(table, base, fs, table.names);
    }
  }

  // ---------------------------------------------------------------------
  // Properties of one category's build

  lemma {:induction false} DescriptorsNeverAssert(name: string, entry: Entry, common: map<string, Leaf>, base: string,
                                                  fs: FileTree, regs: seq<string>)
    ensures DescriptorsFor(name, entry, common, base, fs, regs) != Err(AssertionError)
  {
    if |regs| > 0 {
      var init := regs[..|regs| - 1];
      var reg := regs[|regs| - 1];
      DescriptorsNeverAssert(name, entry, common, base, fs, init);
      var done := DescriptorsFor(name, entry, common, base, fs, init);
      var block := BlockOf(entry, reg);
      assert block != Err(AssertionError);
      if done.Ok? && block.Ok? && block.value.Some? {
        var fields := ObjCatArguments(name, SourceOf(reg), reg == "aigen", block.value.value + common);
        assert fields != Err(AssertionError) by {
          if fields.Err? { NoAssertionFromArguments(name, SourceOf(reg), reg == "aigen", block.value.value + common); }
        }
      }
    }
  }

  lemma NoAssertionFromArguments(name: string, source: string, aigen: bool, kw: map<string, Leaf>)
    ensures ObjCatArguments(name, source, aigen, kw) != Err(AssertionError)
  {
  }

  /** The key check: a category fails with an assertion exactly when its entry
      has a key outside the nine allowed ones; a top-level `scale` is one. */
  lemma UnknownKeysRejected(name: string, entry: Entry, base: string, fs: FileTree)
    ensures CategorySpec(name, entry, base, fs) == Err(AssertionError) <==> !(entry.Keys <= TopLevelKeys)
    ensures "scale" in entry ==> CategorySpec(name, entry, base, fs) == Err(AssertionError)
  {
    if entry.Keys <= TopLevelKeys && CommonProperties(entry).Ok? {
      DescriptorsNeverAssert(name, entry, CommonProperties(entry).value, base, fs, RegistryKeys);
    }
  }

  lemma {:induction false} DescriptorsKeys(name: string, entry: Entry, common: map<string, Leaf>, base: string,
                                           fs: FileTree, regs: seq<string>)
    requires DescriptorsFor(name, entry, common, base, fs, regs).Ok?
    ensures forall reg :: reg in DescriptorsFor(name, entry, common, base, fs, regs).value <==>
              reg in regs && reg in entry && entry[reg].Block?
  {
    if |regs| > 0 {
      var init := regs[..|regs| - 1];
      DescriptorsKeys(name, entry, common, base, fs, init);
      assert regs == init + [regs[|regs| - 1]];
    }
  }

  lemma {:induction false} DescriptorsShareProperties(name: string, entry: Entry, common: map<string, Leaf>,
                                                      base: string, fs: FileTree, regs: seq<string>)
    requires DescriptorsFor(name, entry, common, base, fs, regs).Ok?
    ensures forall reg, a :: reg in DescriptorsFor(name, entry, common, base, fs, regs).value && AffordanceKey(a) in common ==>
              (a in DescriptorsFor(name, entry, common, base, fs, regs).value[reg].fields.affordances <==>
               common[AffordanceKey(a)] == Bool(true))
    ensures forall reg :: reg in DescriptorsFor(name, entry, common, base, fs, regs).value && "types" in common ==>
              Ok(DescriptorsFor(name, entry, common, base, fs, regs).value[reg].fields.types) == NormaliseTypes(common["types"])
  {
    if |regs| > 0 {
      DescriptorsShareProperties(name, entry, common, base, fs, regs[..|regs| - 1]);
    }
  }

  /** A descriptor exists exactly for each registry block the entry has. */
  lemma OneDescriptorPerBlock(name: string, entry: Entry, base: string, fs: FileTree)
    requires CategorySpec(name, entry, base, fs).Ok?
    ensures forall reg :: reg in CategorySpec(name, entry, base, fs).value <==>
              reg in RegistryKeys && reg in entry && entry[reg].Block?
  {
    DescriptorsKeys(name, entry, CommonProperties(entry).value, base, fs, RegistryKeys);
  }

  /** The shared flags and types overwrite the block's own values, so every
      descriptor of a category carries the entry's top-level flags and types. */
  lemma SharedPropertiesWin(name: string, entry: Entry, base: string, fs: FileTree)
    requires CategorySpec(name, entry, base, fs).Ok?
    ensures forall reg, a :: reg in CategorySpec(name, entry, base, fs).value && AffordanceKey(a) in entry ==>
              (a in CategorySpec(name, entry, base, fs).value[reg].fields.affordances <==>
               entry[AffordanceKey(a)] == Plain(Bool(true)))
    ensures forall reg :: reg in CategorySpec(name, entry, base, fs).value && "types" in entry ==>
              Ok(CategorySpec(name, entry, base, fs).value[reg].fields.types) == NormaliseTypes(entry["types"].leaf)
  {
    var common := CommonProperties(entry).value;
    DescriptorsShareProperties(name, entry, common, base, fs, RegistryKeys);
    forall a ensures AffordanceKey(a) in entry ==> AffordanceKey(a) in common && entry[AffordanceKey(a)] == Plain(common[AffordanceKey(a)]) {
      assert AffordanceKey(a) !in RegistryKeys;
    }
    assert "types" !in RegistryKeys;
  }

  /** When an entry lists all five flags and its types at the top level, as
      every entry of the table does, all its descriptors agree on them. */
  lemma SiblingDescriptorsAgree(name: string, entry: Entry, base: string, fs: FileTree, r1: string, r2: string)
    requires CategorySpec(name, entry, base, fs).Ok?
    requires "types" in entry && forall a :: AffordanceKey(a) in entry
    requires r1 in CategorySpec(name, entry, base, fs).value && r2 in CategorySpec(name, entry, base, fs).value
    ensures CategorySpec(name, entry, base, fs).value[r1].fields.affordances
         == CategorySpec(name, entry, base, fs).value[r2].fields.affordances
    ensures CategorySpec(name, entry, base, fs).value[r1].fields.types
         == CategorySpec(name, entry, base, fs).value[r2].fields.types
  {
    SharedPropertiesWin(name, entry, base, fs);
    var m := CategorySpec(name, entry, base, fs).value;
    assert m[r1].fields.affordances == m[r2].fields.affordances by {
      forall a ensures a in m[r1].fields.affordances <==> a in m[r2].fields.affordances {
        assert AffordanceKey(a) in entry;
      }
    }
  }
}
