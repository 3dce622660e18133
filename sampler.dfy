/** The kitchen-object samplers: `sample_kitchen_object_helper` with its
    replay, exact-path and group modes, and the size-rejection loop of
    `sample_kitchen_object`. Random choices come from a `Draw` oracle. */
module Sampler {
  import opened Common
  import opened Paths
  import opened ObjectCategories
  import opened Groups

  /** The module state the samplers read: the registry, the group index and
      the asset root. */
  datatype World = World(registry: Registry, groups: GroupIndex, base: string)

  ghost predicate Loaded(w: World)
  {
    w.registry.Valid() && w.groups.Valid()
  }

  /** A `groups` or `exclude_groups` argument: one name, or a list or tuple. */
  datatype Names = One(name: string) | Many(names: seq<string>)

  /** The list the helper iterates: a single name becomes a one-element list. */
  function AsList(n: Names): seq<string>
  {
    match n
    case One(s) => [s]
    case Many(ns) => ns
  }

  /** The `info` record returned with a sample, and accepted back for replay. */
  datatype Info = Info(groupsContaining: seq<string>, groups: Names, cat: string, split: Option<string>, mjcfPath: string)

  /** The arguments of one sampling call. `required` holds the flags passed
      as `True`; `replay` is `cfg["info"]` when the caller supplies one. */
  datatype Request = Request(
    groups: Names,
    excludeGroups: Option<Names>,
    required: set<Affordance>,
    registries: seq<string>,
    split: Option<string>,
    maxSize: seq<Option<real>>,
    objectScale: Option<real>,
    replay: Option<Info>)

  /** The registries sampled from when the caller names none. */
  const DefaultRegistries: seq<string> := ["objaverse", "objaverse_extra", "aigen"]

  /** The dict `get_mjcf_kwargs` returns, with `mjcf_path` added. */
  datatype Kwargs = Kwargs(scale: real, solimp: seq<real>, solref: seq<real>, density: real,
                           friction: seq<real>, priority: Option<real>, mjcfPath: string)

  datatype Sample = Sample(kwargs: Kwargs, info: Info)

  /** One round of random numbers: for the category, the registry and the path. */
  datatype Draw = Draw(category: nat, registry: nat, path: nat)

  /** `get_mjcf_kwargs()` with `mjcf_path` set. */
  function MjcfKwargs(c: ObjCat, path: string): Kwargs
  {
    Kwargs(c.fields.scale, c.fields.solimp, c.fields.solref, c.fields.density,
           c.fields.friction, c.fields.priority, path)
  }

  /** `mjcf_kwargs["scale"] *= object_scale` when a scale is given. */
  function ScaleBy(k: Kwargs, objectScale: Option<real>): Kwargs
  {
    if objectScale.Some? then k.(scale := k.scale * objectScale.value) else k
  }

  // ---------------------------------------------------------------------
  // Replay mode

  /** The asset root joined with the last four components of the old path. */
  function ReplayPath(base: string, path: string): string
  {
    PathJoin(base, Join(LastN(Split(path), 4)))
  }

  /** Replay of a caller's `info`: the path is rebuilt under the local root,
      the registry is its fourth-from-last component, and the caller's info
      comes back with the new path. */
  function Replay(w: World, info: Info, objectScale: Option<real>): Result<Sample>
  {
    var path := ReplayPath(w.base, info.mjcfPath);
    var parts := Split(path);
    if |parts| < 4 then Err(IndexError)
    else
      var reg := parts[|parts| - 4];
      if info.cat !in w.registry.cats then Err(KeyError)
      else if reg !in w.registry.cats[info.cat] then Err(KeyError)
      else Ok(Sample(ScaleBy(MjcfKwargs(w.registry.cats[info.cat][reg], path), objectScale),
                     info.(mjcfPath := path)))
  }

  // ---------------------------------------------------------------------
  // Exact-path mode

  predicate Owns(w: World, cat: string, reg: string, path: string)
  {
    cat in w.registry.cats && reg in w.registry.cats[cat] && path in w.registry.cats[cat][reg].mjcfPaths
  }

  /** The first registry, in request order, whose list for `cat` holds `path`. */
  function FirstReg(w: World, cat: string, regs: seq<string>, path: string): Option<string>
  {
    if |regs| == 0 then None
    else if Owns(w, cat, regs[0], path) then Some(regs[0])
    else FirstReg(w, cat, regs[1..], path)
  }

  datatype Owner = Owner(cat: string, reg: string)

  /** The first category in table order, and within it the first registry in
      request order, whose list holds `path`. */
  function FirstOwner(w: World, regs: seq<string>, path: string, names: seq<string>): Option<Owner>
  {
    if |names| == 0 then None
    else match FirstReg(w, names[0], regs, path)
      case Some(reg) => Some(Owner(names[0], reg))
      case None => FirstOwner(w, regs, path, names[1..])
  }

  /** The reverse lookup of an exact path: nested loops over the table and
      the requested registries, leaving both at the first hit. */
  method ReverseLookup(w: World, regs: seq<string>, path: string) returns (r: Option<Owner>)
    requires w.registry.Valid()
    ensures r == FirstOwner(w, regs, path, w.registry.names)
  {
    var names := w.registry.names;
    for i := 0 to |names|
      invariant FirstOwner(w, regs, path, names) == FirstOwner(w, regs, path, names[i..])
    {
      var cat := names[i];
      assert cat in w.registry.cats;
      assert names[i..][1..] == names[i + 1..];
      for j := 0 to |regs|
        invariant FirstReg(w, cat, regs, path) == FirstReg(w, cat, regs[j..], path)
      {
        assert regs[j..][1..] == regs[j + 1..];
        if regs[j] in w.registry.cats[cat] && path in w.registry.cats[cat][regs[j]].mjcfPaths {
          return Some(Owner(cat, regs[j]));
        }
      }
    }
    return None;
  }

  // ---------------------------------------------------------------------
  // Group mode: the candidate categories

  /** The categories of the excluded groups, concatenated without
      de-duplication; an unknown group is a KeyError. */
  function InvalidCats(w: World, excl: seq<string>): Result<seq<string>>
  {
    if |excl| == 0 then Ok([])
    else
      var init :- InvalidCats(w, excl[..|excl| - 1]);
      var g := excl[|excl| - 1];
      if g !in w.groups.members then Err(KeyError) else Ok(init + w.groups.members[g])
  }

  predicate InAnyRegistry(w: World, regs: seq<string>, cat: string)
    requires cat in w.registry.cats
  {
    exists r :: r in regs && r in w.registry.cats[cat]
  }

  /** Every flag requested as `True` is held in every requested registry
      where the category is present. */
  predicate FlagsOk(w: World, req: Request, cat: string)
    requires cat in w.registry.cats
  {
    forall r :: r in req.registries && r in w.registry.cats[cat] ==>
      req.required <= w.registry.cats[cat][r].fields.affordances
  }

  /** One pass of the inner loop over a group's categories. */
  function ValidStep(w: World, req: Request, invalid: seq<string>, acc: seq<string>, cat: string): Result<seq<string>>
  {
    if cat in acc || cat in invalid then Ok(acc)
    else if |req.registries| == 0 then Ok(acc)  // no registry is looked up
    else if cat !in w.registry.cats then Err(KeyError)
    else if !InAnyRegistry(w, req.registries, cat) then Ok(acc)
    else if !FlagsOk(w, req, cat) then Ok(acc)
    else Ok(acc + [cat])
  }

  function ValidFrom(w: World, req: Request, invalid: seq<string>, acc: seq<string>, cats: seq<string>): Result<seq<string>>
  {
    if |cats| == 0 then Ok(acc)
    else
      var a :- ValidFrom(w, req, invalid, acc, cats[..|cats| - 1]);
      ValidStep(w, req, invalid, a, cats[|cats| - 1])
  }

  /** The candidate list built by the nested loops over the requested groups. */
  function ValidOver(w: World, req: Request, invalid: seq<string>, gs: seq<string>): Result<seq<string>>
  {
    if |gs| == 0 then Ok([])
    else
      var a :- ValidOver(w, req, invalid, gs[..|gs| - 1]);
      var g := gs[|gs| - 1];
      if g !in w.groups.members then Err(KeyError)
      else ValidFrom(w, req, invalid, a, w.groups.members[g])
  }

  method CollectInvalid(w: World, excl: seq<string>) returns (r: Result<seq<string>>)
    ensures r == InvalidCats(w, excl)
  {
    var invalid: seq<string> := [];
    for i := 0 to |excl|
      invariant InvalidCats(w, excl[..i]) == Ok(invalid)
    {
      assert excl[..i + 1][..i] == excl[..i];
      var g := excl[i];
      if g !in w.groups.members {
        InvalidFailFast(w, excl, i + 1);
        return Err(KeyError);
      }
      var cats := w.groups.members[g];
      for j := 0 to |cats|
        invariant invalid == InvalidCats(w, excl[..i]).value + cats[..j]
      {
        assert cats[..j + 1] == cats[..j] + [cats[j]];
        invalid := invalid + [cats[j]];
      }
      assert cats[..|cats|] == cats;
    }
    assert excl[..|excl|] == excl;
    r := Ok(invalid);
  }

  lemma {:induction false} InvalidFailFast(w: World, excl: seq<string>, n: nat)
    requires n <= |excl|
    requires InvalidCats(w, excl[..n]).Err?
    ensures InvalidCats(w, excl) == InvalidCats(w, excl[..n])
    decreases |excl| - n
  {
    if n < |excl| {
      assert excl[..n + 1][..n] == excl[..n];
      InvalidFailFast(w, excl, n + 1);
    } else {
      assert excl[..n] == excl;
    }
  }

  /** The registry loop that marks a category invalid when a present
      registry lacks a flag requested as `True`. */
  method FlagsInvalid(w: World, req: Request, cat: string) returns (invalid: bool)
    requires cat in w.registry.cats
    ensures invalid == !FlagsOk(w, req, cat)
  {
    var regs := req.registries;
    var metas := w.registry.cats[cat];
    invalid := false;
    AffordancesComplete();
    for i := 0 to |regs|
      invariant invalid <==> exists j :: 0 <= j < i && regs[j] in metas && !(req.required <= metas[regs[j]].fields.affordances)
    {
      if regs[i] !in metas {
        continue;
      }
      var held := metas[regs[i]].fields.affordances;
      MissingFlag(req.required, held);
      if Graspable in req.required && Graspable !in held { invalid := true; }
      if Washable in req.required && Washable !in held { invalid := true; }
      if Microwavable in req.required && Microwavable !in held { invalid := true; }
      if Cookable in req.required && Cookable !in held { invalid := true; }
      if Freezable in req.required && Freezable !in held { invalid := true; }
    }
  }

  /** A requested flag is missing exactly when one of the five is
      requested and not held. */
  lemma MissingFlag(required: set<Affordance>, held: set<Affordance>)
    ensures !(required <= held) <==>
              || (Graspable in required && Graspable !in held)
              || (Washable in required && Washable !in held)
              || (Microwavable in required && Microwavable !in held)
              || (Cookable in required && Cookable !in held)
              || (Freezable in required && Freezable !in held)
  {
    if !(required <= held) {
      var a :| a in required && a !in held;
      match a
      case Graspable =>
      case Washable =>
      case Microwavable =>
      case Cookable =>
      case Freezable =>
    }
  }

  /** The nested loops that build `valid_categories`. */
  method CollectValid(w: World, req: Request, invalid: seq<string>, gs: seq<string>) returns (r: Result<seq<string>>)
    ensures r == ValidOver(w, req, invalid, gs)
  {
    var valid: seq<string> := [];
    for i := 0 to |gs|
      invariant ValidOver(w, req, invalid, gs[..i]) == Ok(valid)
    {
      assert gs[..i + 1][..i] == gs[..i];
      var g := gs[i];
      if g !in w.groups.members {
        ValidOverFailFast(w, req, invalid, gs, i + 1);
        return Err(KeyError);
      }
      var cats := w.groups.members[g];
      ghost var start := valid;
      for j := 0 to |cats|
        invariant ValidFrom(w, req, invalid, start, cats[..j]) == Ok(valid)
      {
        assert cats[..j + 1][..j] == cats[..j];
        var cat := cats[j];
        if cat in valid {
          continue;
        }
        if cat in invalid {
          continue;
        }
        if |req.registries| == 0 {
          continue;
        }
        if cat !in w.registry.cats {
          ValidFromFailFast(w, req, invalid, start, cats, j + 1);
          ValidOverFailFast(w, req, invalid, gs, i + 1);
          return Err(KeyError);
        }
        var anyReg := exists reg :: reg in req.registries && reg in w.registry.cats[cat];
        if !anyReg {
          continue;
        }
        var bad := FlagsInvalid(w, req, cat);
        if bad {
          continue;
        }
        valid := valid + [cat];
      }
      assert cats[..|cats|] == cats;
    }
    assert gs[..|gs|] == gs;
    r := Ok(valid);
  }

  lemma {:induction false} ValidFromFailFast(w: World, req: Request, invalid: seq<string>, acc: seq<string>,
                                             cats: seq<string>, n: nat)
    requires n <= |cats|
    requires ValidFrom(w, req, invalid, acc, cats[..n]).Err?
    ensures ValidFrom(w, req, invalid, acc, cats) == ValidFrom(w, req, invalid, acc, cats[..n])
    decreases |cats| - n
  {
    if n < |cats| {
      assert cats[..n + 1][..n] == cats[..n];
      ValidFromFailFast(w, req, invalid, acc, cats, n + 1);
    } else {
      assert cats[..n] == cats;
    }
  }

  lemma {:induction false} ValidOverFailFast(w: World, req: Request, invalid: seq<string>, gs: seq<string>, n: nat)
    requires n <= |gs|
    requires ValidOver(w, req, invalid, gs[..n]).Err?
    ensures ValidOver(w, req, invalid, gs) == ValidOver(w, req, invalid, gs[..n])
    decreases |gs| - n
  {
    if n < |gs| {
      assert gs[..n + 1][..n] == gs[..n];
      ValidOverFailFast(w, req, invalid, gs, n + 1);
    } else {
      assert gs[..n] == gs;
    }
  }

  // ---------------------------------------------------------------------
  // Group mode: split, registry weights, path

  function Max(a: int, b: int): int { if a >= b then a else b }

  /** `max(len(choices) - 3, int(math.ceil(n / 2)))`. */
  function SplitThreshold(registryCount: nat, n: nat): nat
  {
    Max(registryCount - 3, (n + 1) / 2)
  }

  /** Split `"A"` keeps the list up to the threshold, `"B"` the rest, no split
      keeps everything; any other split is a ValueError. */
  function ApplySplit(paths: seq<string>, split: Option<string>, registryCount: nat): Result<seq<string>>
  {
    var th := SplitThreshold(registryCount, |paths|);
    var cut := if th <= |paths| then th else |paths|;
    if split.None? then Ok(paths)
    else if split.value == "A" then Ok(paths[..cut])
    else if split.value == "B" then Ok(paths[cut..])
    else Err(ValueError)
  }

  /** `choices[reg]` for one registry. */
  function ChoicesFor(w: World, cat: string, reg: string, split: Option<string>, registryCount: nat): Result<seq<string>>
    requires cat in w.registry.cats
  {
    if reg !in w.registry.cats[cat] then Ok([])
    else ApplySplit(w.registry.cats[cat][reg].mjcfPaths, split, registryCount)
  }

  /** The `choices` dict after the loop over `regs`, starting from `init`. */
  function ChoicesMap(w: World, cat: string, regs: seq<string>, split: Option<string>, registryCount: nat,
                      init: map<string, seq<string>>): Result<map<string, seq<string>>>
    requires cat in w.registry.cats
  {
    if |regs| == 0 then Ok(init)
    else
      var m :- ChoicesMap(w, cat, regs[..|regs| - 1], split, registryCount, init);
      var c :- ChoicesFor(w, cat, regs[|regs| - 1], split, registryCount);
      Ok(m[regs[|regs| - 1] := c])
  }

  /** `{reg: [] for reg in obj_registries}`. */
  function EmptyChoices(regs: seq<string>): map<string, seq<string>>
  {
    map r | r in regs :: []
  }

  /** The loop that fills `choices`; `len(choices)` is the number of distinct
      requested registries throughout. */
  method FillChoices(w: World, cat: string, regs: seq<string>, split: Option<string>) returns (r: Result<map<string, seq<string>>>)
    requires cat in w.registry.cats
    ensures r == ChoicesMap(w, cat, regs, split, |EmptyChoices(regs)|, EmptyChoices(regs))
  {
    var choices := EmptyChoices(regs);
    var count := |choices|;
    for i := 0 to |regs|
      invariant ChoicesMap(w, cat, regs[..i], split, count, EmptyChoices(regs)) == Ok(choices)
    {
      assert regs[..i + 1][..i] == regs[..i];
      var reg := regs[i];
      if reg !in w.registry.cats[cat] {
        choices := choices[reg := []];
        continue;
      }
      var regChoices := w.registry.cats[cat][reg].mjcfPaths;
      if split.Some? {
        var th := SplitThreshold(count, |regChoices|);
        var cut := if th <= |regChoices| then th else |regChoices|;
        if split.value == "A" {
          regChoices := regChoices[..cut];
        } else if split.value == "B" {
          regChoices := regChoices[cut..];
        } else {
          ChoicesFailFast(w, cat, regs, split, count, EmptyChoices(regs), i + 1);
          return Err(ValueError);
        }
      }
      choices := choices[reg := regChoices];
    }
    assert regs[..|regs|] == regs;
    r := Ok(choices);
  }

  lemma {:induction false} ChoicesFailFast(w: World, cat: string, regs: seq<string>, split: Option<string>,
                                           count: nat, init: map<string, seq<string>>, n: nat)
    requires cat in w.registry.cats
    requires n <= |regs|
    requires ChoicesMap(w, cat, regs[..n], split, count, init).Err?
    ensures ChoicesMap(w, cat, regs, split, count, init) == ChoicesMap(w, cat, regs[..n], split, count, init)
    decreases |regs| - n
  {
    if n < |regs| {
      assert regs[..n + 1][..n] == regs[..n];
      ChoicesFailFast(w, cat, regs, split, count, init, n + 1);
    } else {
      assert regs[..n] == regs;
    }
  }

  function Sum(ws: seq<nat>): nat
  {
    if |ws| == 0 then 0 else Sum(ws[..|ws| - 1]) + ws[|ws| - 1]
  }

  /** `[len(choices[reg]) for reg in obj_registries]`. */
  function Weights(m: map<string, seq<string>>, regs: seq<string>): (ws: seq<nat>)
    requires forall r :: r in regs ==> r in m
    ensures |ws| == |regs|
    ensures forall i :: 0 <= i < |regs| ==> ws[i] == |m[regs[i]]|
  {
    seq(|regs|, i requires 0 <= i < |regs| => |m[regs[i]]|)
  }

  lemma SumStep(ws: seq<nat>, k: nat)
    requires k < |ws|
    ensures Sum(ws[..k + 1]) == Sum(ws[..k]) + ws[k]
  {
    assert ws[..k + 1][..k] == ws[..k];
  }

  /** The index whose cumulative interval holds `u`, scanning from `k`. */
  function PickFrom(ws: seq<nat>, u: nat, k: nat): (i: nat)
    requires k < |ws|
    requires Sum(ws[..k]) <= u < Sum(ws)
    ensures k <= i < |ws|
    decreases |ws| - k
  {
    SumStep(ws, k);
    if u < Sum(ws[..k + 1]) then k
    else
      PickFrom(ws, u, k + 1)
  }

  /** The registry a weighted draw lands on: the inverse of the cumulative
      weights at `u`. */
  function PickIndex(ws: seq<nat>, u: nat): (i: nat)
    requires u < Sum(ws)
    ensures i < |ws|
  {
    assert ws[..0] == [];
    assert |ws| > 0;
    PickFrom(ws, u, 0)
  }

  // ---------------------------------------------------------------------
  // Groups containing the sampled category

  /** The group keys, in index order, whose lists contain `cat`. */
  function Containing(keys: seq<string>, members: map<string, seq<string>>, cat: string): seq<string>
    requires forall k :: k in keys ==> k in members
  {
    if |keys| == 0 then []
    else
      var k := keys[|keys| - 1];
      Containing(keys[..|keys| - 1], members, cat) + (if cat in members[k] then [k] else [])
  }

  method GroupsContaining(g: GroupIndex, cat: string) returns (r: seq<string>)
    requires g.Valid()
    ensures r == Containing(g.keys, g.members, cat)
  {
    r := [];
    for i := 0 to |g.keys|
      invariant r == Containing(g.keys[..i], g.members, cat)
    {
      assert g.keys[..i + 1][..i] == g.keys[..i];
      if cat in g.members[g.keys[i]] {
        r := r + [g.keys[i]];
      }
    }
    assert g.keys[..|g.keys|] == g.keys;
  }

  // ---------------------------------------------------------------------
  // The helper

  lemma {:induction false} ValidFromInRegistry(w: World, req: Request, invalid: seq<string>, acc: seq<string>, cats: seq<string>)
    requires forall c :: c in acc ==> c in w.registry.cats && InAnyRegistry(w, req.registries, c)
    requires ValidFrom(w, req, invalid, acc, cats).Ok?
    ensures forall c :: c in ValidFrom(w, req, invalid, acc, cats).value ==>
              c in w.registry.cats && InAnyRegistry(w, req.registries, c)
  {
    if |cats| > 0 {
      ValidFromInRegistry(w, req, invalid, acc, cats[..|cats| - 1]);
    }
  }

  lemma {:induction false} ValidOverInRegistry(w: World, req: Request, invalid: seq<string>, gs: seq<string>)
    requires ValidOver(w, req, invalid, gs).Ok?
    ensures forall c :: c in ValidOver(w, req, invalid, gs).value ==>
              c in w.registry.cats && InAnyRegistry(w, req.registries, c)
  {
    if |gs| > 0 {
      ValidOverInRegistry(w, req, invalid, gs[..|gs| - 1]);
      var a := ValidOver(w, req, invalid, gs[..|gs| - 1]).value;
      var g := gs[|gs| - 1];
      if g in w.groups.members {
        ValidFromInRegistry(w, req, invalid, a, w.groups.members[g]);
      }
    }
  }

  lemma {:induction false} ChoicesMapShape(w: World, cat: string, regs: seq<string>, split: Option<string>,
                                           count: nat, init: map<string, seq<string>>)
    requires cat in w.registry.cats
    requires ChoicesMap(w, cat, regs, split, count, init).Ok?
    ensures forall r :: r in regs ==> r in ChoicesMap(w, cat, regs, split, count, init).value
    ensures forall r :: r in regs ==>
              ChoicesFor(w, cat, r, split, count) == Ok(ChoicesMap(w, cat, regs, split, count, init).value[r])
    ensures forall r :: r in ChoicesMap(w, cat, regs, split, count, init).value && r !in regs ==>
              r in init && ChoicesMap(w, cat, regs, split, count, init).value[r] == init[r]
  {
    if |regs| > 0 {
      var prefix := regs[..|regs| - 1];
      ChoicesMapShape(w, cat, prefix, split, count, init);
      assert regs == prefix + [regs[|regs| - 1]];
    }
  }

  /** A registry with a non-empty choice list holds the category. */
  lemma NonEmptyChoiceIsPresent(w: World, cat: string, reg: string, split: Option<string>, count: nat)
    requires cat in w.registry.cats
    requires ChoicesFor(w, cat, reg, split, count).Ok? && |ChoicesFor(w, cat, reg, split, count).value| > 0
    ensures reg in w.registry.cats[cat]
  {
  }

  /** Group mode once the category is drawn: split lists, weighted registry,
      path and the returned sample. */
  function DrawFrom(w: World, req: Request, gs: seq<string>, cat: string, d: Draw): Result<Sample>
    requires w.groups.Valid()
    requires cat in w.registry.cats
  {
    var init := EmptyChoices(req.registries);
    var m :- ChoicesMap(w, cat, req.registries, req.split, |init|, init);
    ChoicesMapShape(w, cat, req.registries, req.split, |init|, init);
    var ws := Weights(m, req.registries);
    if Sum(ws) == 0 then Err(ValueError)
    else
      var k := PickIndex(ws, d.registry % Sum(ws));
      PickIndexWeight(ws, d.registry % Sum(ws));
      var reg := req.registries[k];
      var paths := m[reg];
      NonEmptyChoiceIsPresent(w, cat, reg, req.split, |init|);
      var path := paths[d.path % |paths|];
      Ok(Sample(ScaleBy(MjcfKwargs(w.registry.cats[cat][reg], path), req.objectScale),
                Info(Containing(w.groups.keys, w.groups.members, cat), Many(gs), cat, req.split, path)))
  }

  /** Group mode: a ValueError when no category is left, else a draw. */
  function GroupSample(w: World, req: Request, gs: seq<string>, valid: seq<string>, d: Draw): Result<Sample>
    requires w.groups.Valid()
    requires forall c :: c in valid ==> c in w.registry.cats
  {
    if |valid| == 0 then Err(ValueError)
    else DrawFrom(w, req, gs, valid[d.category % |valid|], d)
  }

  /** The exact-path mode: the first owner's kwargs, or a ValueError. */
  function ExactSpec(w: World, req: Request, path: string): Result<Sample>
    requires Loaded(w)
  {
    match FirstOwner(w, req.registries, path, w.registry.names)
    case None => Err(ValueError)
    case Some(o) =>
      FirstOwnerOwns(w, req.registries, path, w.registry.names);
      Ok(Sample(ScaleBy(MjcfKwargs(w.registry.cats[o.cat][o.reg], path), req.objectScale),
                Info(Containing(w.groups.keys, w.groups.members, o.cat), One(path), o.cat, req.split, path)))
  }

  /** The group mode: excluded categories, candidates, then a draw. */
  function GroupSpec(w: World, req: Request, d: Draw): Result<Sample>
    requires Loaded(w)
  {
    var gs := AsList(req.groups);
    var excl := if req.excludeGroups.None? then [] else AsList(req.excludeGroups.value);
    var invalid :- InvalidCats(w, excl);
    var valid :- ValidOver(w, req, invalid, gs);
    ValidOverInRegistry(w, req, invalid, gs);
    GroupSample(w, req, gs, valid, d)
  }

  /** `sample_kitchen_object_helper` on one draw of the oracle. */
  function HelperSpec(w: World, req: Request, d: Draw): Result<Sample>
    requires Loaded(w)
  {
    if req.replay.Some? then Replay(w, req.replay.value, req.objectScale)
    else if req.groups.One? && EndsWith(req.groups.name, ".xml") then ExactSpec(w, req, req.groups.name)
    else GroupSpec(w, req, d)
  }

  method SampleReplay(w: World, info: Info, objectScale: Option<real>) returns (r: Result<Sample>)
    ensures r == Replay(w, info, objectScale)
  {
    var path := ReplayPath(w.base, info.mjcfPath);
    var parts := Split(path);
    if |parts| < 4 {
      return Err(IndexError);
    }
    var reg := parts[|parts| - 4];
    if info.cat !in w.registry.cats || reg !in w.registry.cats[info.cat] {
      return Err(KeyError);
    }
    var kwargs := MjcfKwargs(w.registry.cats[info.cat][reg], path);
    if objectScale.Some? {
      kwargs := kwargs.(scale := kwargs.scale * objectScale.value);
    }
    assert kwargs == ScaleBy(MjcfKwargs(w.registry.cats[info.cat][reg], path), objectScale);
    r := Ok(Sample(kwargs, info.(mjcfPath := path)));
  }

  method SampleExact(w: World, req: Request, path: string) returns (r: Result<Sample>)
    requires Loaded(w)
    ensures r == ExactSpec(w, req, path)
  {
    var owner := ReverseLookup(w, req.registries, path);
    if owner.None? {
      return Err(ValueError);
    }
    FirstOwnerOwns(w, req.registries, path, w.registry.names);
    var cat := owner.value.cat;
    var kwargs := MjcfKwargs(w.registry.cats[cat][owner.value.reg], path);
    kwargs := ScaleBy(kwargs, req.objectScale);
    var containing := GroupsContaining(w.groups, cat);
    r := Ok(Sample(kwargs, Info(containing, One(path), cat, req.split, path)));
  }

  method SampleFromCategory(w: World, req: Request, gs: seq<string>, cat: string, d: Draw) returns (r: Result<Sample>)
    requires w.groups.Valid()
    requires cat in w.registry.cats
    ensures r == DrawFrom(w, req, gs, cat, d)
  {
    var choices := FillChoices(w, cat, req.registries, req.split);
    if choices.Err? {
      return Err(choices.error);
    }
    var init := EmptyChoices(req.registries);
    ChoicesMapShape(w, cat, req.registries, req.split, |init|, init);
    var ws := Weights(choices.value, req.registries);
    if Sum(ws) == 0 {
      return Err(ValueError);
    }
    var k := PickIndex(ws, d.registry % Sum(ws));
    PickIndexWeight(ws, d.registry % Sum(ws));
    var reg := req.registries[k];
    var regChoices := choices.value[reg];
    NonEmptyChoiceIsPresent(w, cat, reg, req.split, |init|);
    var path := regChoices[d.path % |regChoices|];
    var kwargs := MjcfKwargs(w.registry.cats[cat][reg], path);
    kwargs := ScaleBy(kwargs, req.objectScale);
    var containing := GroupsContaining(w.groups, cat);
    r := Ok(Sample(kwargs, Info(containing, Many(gs), cat, req.split, path)));
  }

  method SampleFromGroups(w: World, req: Request, d: Draw) returns (r: Result<Sample>)
    requires Loaded(w)
    ensures r == GroupSpec(w, req, d)
  {
    var gs := AsList(req.groups);
    var excl := if req.excludeGroups.None? then [] else AsList(req.excludeGroups.value);
    var invalid := CollectInvalid(w, excl);
    if invalid.Err? {
      return Err(invalid.error);
    }
    var valid := CollectValid(w, req, invalid.value, gs);
    if valid.Err? {
      return Err(valid.error);
    }
    ValidOverInRegistry(w, req, invalid.value, gs);
    if |valid.value| == 0 {
      return Err(ValueError);
    }
    var cat := valid.value[d.category % |valid.value|];
    r := SampleFromCategory(w, req, gs, cat, d);
  }

  /** The helper: replay, exact path, or sampling from groups. */
  method SampleKitchenObjectHelper(w: World, req: Request, d: Draw) returns (r: Result<Sample>)
    requires Loaded(w)
    ensures r == HelperSpec(w, req, d)
  {
    if req.replay.Some? {
      r := SampleReplay(w, req.replay.value, req.objectScale);
    } else if req.groups.One? && EndsWith(req.groups.name, ".xml") {
      r := SampleExact(w, req, req.groups.name);
    } else {
      r := SampleFromGroups(w, req, d);
    }
  }

  // ---------------------------------------------------------------------
  // Size bounds and the rejection loop

  datatype Vec3 = Vec3(x: real, y: real, z: real)

  /** The `pos` of the three anchor sites of a model file; `None` stands for
      a missing site or a site without `pos`. */
  datatype Anchors = Anchors(bottom: Option<Vec3>, top: Option<Vec3>, radius: Option<Vec3>)

  /** `(2·hr_x, 2·hr_y, top_z − bottom_z) · scale`. */
  function ObjSize(bottom: Vec3, top: Vec3, radius: Vec3, scale: real): seq<real>
  {
    [radius.x * 2.0 * scale, radius.y * 2.0 * scale, (top.z - bottom.z) * scale]
  }

  /** The size test: no axis exceeds a given bound; a bound tuple shorter
      than three is an IndexError. */
  function Accepts(size: seq<real>, maxSize: seq<Option<real>>): Result<bool>
    requires |size| == 3
  {
    if |maxSize| < 3 then Err(IndexError)
    else Ok(forall i :: 0 <= i < 3 ==> maxSize[i].None? || size[i] <= maxSize[i].value)
  }

  /** The loop over the three axes. */
  method CheckSize(size: seq<real>, maxSize: seq<Option<real>>) returns (r: Result<bool>)
    requires |size| == 3
    ensures r == Accepts(size, maxSize)
  {
    var valid := true;
    for i := 0 to 3
      invariant i <= |maxSize|
      invariant |maxSize| >= 3 ==> (valid <==> forall j :: 0 <= j < i ==> maxSize[j].None? || size[j] <= maxSize[j].value)
    {
      if i >= |maxSize| {
        return Err(IndexError);
      }
      if maxSize[i].Some? && size[i] > maxSize[i].value {
        valid := false;
      }
    }
    r := Ok(valid);
  }

  datatype Attempt = Accepted(sample: Sample) | Rejected

  /** One iteration of the rejection loop: sample, read the anchor sites of
      the chosen file, and test its size. */
  function AttemptSpec(w: World, req: Request, d: Draw, sites: map<string, Anchors>): Result<Attempt>
    requires Loaded(w)
  {
    SizeCheck(HelperSpec(w, req, d), req.maxSize, sites)
  }

  /** The size test on the outcome of one sampling call. */
  function SizeCheck(sampled: Result<Sample>, maxSize: seq<Option<real>>, sites: map<string, Anchors>): Result<Attempt>
  {
    var s :- sampled;
    if s.info.mjcfPath !in sites then Err(FileError)
    else
      var a := sites[s.info.mjcfPath];
      if a.bottom.None? || a.top.None? || a.radius.None? then Err(AttributeError)
      else
        var ok :- Accepts(ObjSize(a.bottom.value, a.top.value, a.radius.value, s.kwargs.scale), maxSize);
        Ok(if ok then Accepted(s) else Rejected)
  }

  /** The attempts on the draws, one per draw in turn. */
  function Attempts(w: World, req: Request, draws: seq<Draw>, sites: map<string, Anchors>): seq<Result<Attempt>>
    requires Loaded(w)
  {
    seq(|draws|, i requires 0 <= i < |draws| => AttemptSpec(w, req, draws[i], sites))
  }

  /** The rejection loop over a run of attempts: the first accepted sample,
      the first error, or `DrawsExhausted` when every attempt is rejected. */
  function FirstAccepted(atts: seq<Result<Attempt>>): Result<Sample>
  {
    if |atts| == 0 then Err(DrawsExhausted)
    else match atts[0]
      case Err(e) => Err(e)
      case Ok(Accepted(s)) => Ok(s)
      case Ok(Rejected) => FirstAccepted(atts[1..])
  }

  /** The loop over a finite supply of draws. */
  function SampleSpec(w: World, req: Request, draws: seq<Draw>, sites: map<string, Anchors>): Result<Sample>
    requires Loaded(w)
  {
    FirstAccepted(Attempts(w, req, draws, sites))
  }

  /** `sample_kitchen_object`: resample until the object fits `max_size`. */
  method SampleKitchenObject(w: World, req: Request, draws: seq<Draw>, sites: map<string, Anchors>) returns (r: Result<Sample>)
    requires Loaded(w)
    ensures r == SampleSpec(w, req, draws, sites)
  {
    var i := 0;
    var validObjectSampled := false;
    while !validObjectSampled
      invariant 0 <= i <= |draws|
      invariant SampleSpec(w, req, draws, sites) == FirstAccepted(Attempts(w, req, draws, sites)[i..])
      decreases |draws| - i
    {
      ghost var atts := Attempts(w, req, draws, sites);
      if i == |draws| {
        return Err(DrawsExhausted);
      }
      assert atts[i..][0] == atts[i] == AttemptSpec(w, req, draws[i], sites);
      assert atts[i..][1..] == atts[i + 1..];
      var s := SampleKitchenObjectHelper(w, req, draws[i]);
      if s.Err? {
        return Err(s.error);
      }
      var path := s.value.info.mjcfPath;
      if path !in sites {
        return Err(FileError);
      }
      var a := sites[path];
      if a.bottom.None? || a.top.None? || a.radius.None? {
        return Err(AttributeError);
      }
      var size := ObjSize(a.bottom.value, a.top.value, a.radius.value, s.value.kwargs.scale);
      var ok := CheckSize(size, req.maxSize);
      if ok.Err? {
        return Err(ok.error);
      }
      if ok.value {
        return Ok(s.value);
      }
      i := i + 1;
    }
    return Err(DrawsExhausted);
  }

  // ---------------------------------------------------------------------
  // Properties

  lemma {:induction false} FirstRegExact(w: World, cat: string, regs: seq<string>, path: string)
    ensures FirstReg(w, cat, regs, path).None? <==> forall r :: r in regs ==> !Owns(w, cat, r, path)
    ensures FirstReg(w, cat, regs, path).Some? ==>
              exists j :: 0 <= j < |regs| && regs[j] == FirstReg(w, cat, regs, path).value
                && Owns(w, cat, regs[j], path) && forall j' :: 0 <= j' < j ==> !Owns(w, cat, regs[j'], path)
  {
    if |regs| > 0 {
      FirstRegExact(w, cat, regs[1..], path);
      assert regs == [regs[0]] + regs[1..];
      if !Owns(w, cat, regs[0], path) && FirstReg(w, cat, regs[1..], path).Some? {
        var j :| 0 <= j < |regs[1..]| && regs[1..][j] == FirstReg(w, cat, regs[1..], path).value
                 && Owns(w, cat, regs[1..][j], path) && forall j' :: 0 <= j' < j ==> !Owns(w, cat, regs[1..][j'], path);
        assert regs[j + 1] == regs[1..][j];
        forall j' | 0 <= j' < j + 1 ensures !Owns(w, cat, regs[j'], path) {
          if j' > 0 { assert regs[j'] == regs[1..][j' - 1]; }
        }
      }
    }
  }

  lemma FirstOwnerOwns(w: World, regs: seq<string>, path: string, names: seq<string>)
    ensures FirstOwner(w, regs, path, names).Some? ==>
              Owns(w, FirstOwner(w, regs, path, names).value.cat, FirstOwner(w, regs, path, names).value.reg, path)
  {
    if FirstOwner(w, regs, path, names).Some? {
      FirstOwnerExact(w, regs, path, names);
    }
  }

  /** The exact-path lookup finds nothing exactly when no requested registry
      of any category lists the path, and otherwise returns the first owner
      in table order, first registry in request order. */
  lemma {:induction false} FirstOwnerExact(w: World, regs: seq<string>, path: string, names: seq<string>)
    ensures FirstOwner(w, regs, path, names).None? <==>
              forall c, r :: c in names && r in regs ==> !Owns(w, c, r, path)
    ensures FirstOwner(w, regs, path, names).Some? ==>
              var o := FirstOwner(w, regs, path, names).value;
              && Owns(w, o.cat, o.reg, path) && o.reg in regs
              && exists i :: 0 <= i < |names| && names[i] == o.cat
                   && forall i', r :: 0 <= i' < i && r in regs ==> !Owns(w, names[i'], r, path)
  {
    if |names| > 0 {
      FirstRegExact(w, names[0], regs, path);
      FirstOwnerExact(w, regs, path, names[1..]);
      assert names == [names[0]] + names[1..];
      if FirstReg(w, names[0], regs, path).None? && FirstOwner(w, regs, path, names[1..]).Some? {
        var o := FirstOwner(w, regs, path, names[1..]).value;
        var i :| 0 <= i < |names[1..]| && names[1..][i] == o.cat
                 && forall i', r :: 0 <= i' < i && r in regs ==> !Owns(w, names[1..][i'], r, path);
        assert names[i + 1] == o.cat;
        forall i', r | 0 <= i' < i + 1 && r in regs ensures !Owns(w, names[i'], r, path) {
          if i' > 0 { assert names[i'] == names[1..][i' - 1]; }
        }
      }
    }
  }

  /** Exact-path mode: the sample is the given path with the first owner's
      kwargs, and a path no requested registry lists is a ValueError. */
  lemma ExactPathMode(w: World, req: Request, d: Draw)
    requires Loaded(w)
    requires req.replay.None? && req.groups.One? && EndsWith(req.groups.name, ".xml")
    ensures HelperSpec(w, req, d).Err? <==>
              forall c, r :: c in w.registry.names && r in req.registries ==> !Owns(w, c, r, req.groups.name)
    ensures HelperSpec(w, req, d).Err? ==> HelperSpec(w, req, d).error == ValueError
    ensures HelperSpec(w, req, d).Ok? ==>
              var s := HelperSpec(w, req, d).value;
              && s.kwargs.mjcfPath == req.groups.name && s.info.mjcfPath == req.groups.name
              && s.info.groups == req.groups
              && exists r :: r in req.registries && Owns(w, s.info.cat, r, req.groups.name)
    ensures HelperSpec(w, req, d).Ok? ==>
              var s := HelperSpec(w, req, d).value;
              var o := FirstOwner(w, req.registries, req.groups.name, w.registry.names);
              && o.Some? && Owns(w, o.value.cat, o.value.reg, req.groups.name)
              && s.info.cat == o.value.cat
              && CopiesDescriptor(s.kwargs, w.registry.cats[o.value.cat][o.value.reg], req.objectScale)
  {
    FirstOwnerExact(w, req.registries, req.groups.name, w.registry.names);
    var o := FirstOwner(w, req.registries, req.groups.name, w.registry.names);
    if o.Some? {
      FirstOwnerOwns(w, req.registries, req.groups.name, w.registry.names);
      ScaledCopy(w.registry.cats[o.value.cat][o.value.reg], req.groups.name, req.objectScale);
    }
  }

  /** Replay uses no randomness, and returns the caller's info with only the
      path replaced by its rebuilt form. */
  lemma ReplayIgnoresDraws(w: World, req: Request, d1: Draw, d2: Draw)
    requires Loaded(w)
    requires req.replay.Some?
    ensures HelperSpec(w, req, d1) == HelperSpec(w, req, d2)
    ensures HelperSpec(w, req, d1).Ok? ==>
              HelperSpec(w, req, d1).value.info == req.replay.value.(mjcfPath := ReplayPath(w.base, req.replay.value.mjcfPath))
              && HelperSpec(w, req, d1).value.kwargs.mjcfPath == ReplayPath(w.base, req.replay.value.mjcfPath)
  {
  }

  /** Replaying a path whose last four components are
      `<reg>/<cat>/<instance>/model.xml` rebuilds it under the local root with
      those four components, and looks up `<reg>`. */
  lemma ReplayRebuildsPath(base: string, prefix: seq<string>, tail: seq<string>)
    requires |base| > 0 && base[|base| - 1] != '/'
    requires forall i :: 0 <= i < |prefix| ==> '/' !in prefix[i]
    requires |tail| == 4 && forall i :: 0 <= i < 4 ==> '/' !in tail[i]
    requires |tail[0]| > 0
    ensures ReplayPath(base, Join(prefix + tail)) == base + "/" + Join(tail)
    ensures Split(ReplayPath(base, Join(prefix + tail))) == Split(base) + tail
    ensures ReplayRegistry(base, Join(prefix + tail)) == Some(tail[0])
  {
    var all := prefix + tail;
    forall i | 0 <= i < |all| ensures '/' !in all[i] {
      if i >= |prefix| { assert all[i] == tail[i - |prefix|]; } else { assert all[i] == prefix[i]; }
    }
    SplitJoin(all);
    assert all[|all| - 4..] == tail;
    assert LastN(all, 4) == tail;
    assert tail == [tail[0]] + tail[1..];
    JoinCons(tail[0], tail[1..]);
    var t := Join(tail);
    assert t[0] == tail[0][0];
    assert tail[0][0] != '/' by { assert tail[0][0] in tail[0]; }
    PathJoinComponents(base, t);
    SplitJoin(tail);
  }

  /** The registry a replay reads off the rebuilt path: its fourth
      component from the end. */
  function ReplayRegistry(base: string, path: string): Option<string>
  {
    var parts := Split(ReplayPath(base, path));
    if |parts| >= 4 then Some(parts[|parts| - 4]) else None
  }

  /** Every descriptor key is one of the three registry names. */
  ghost predicate RegistryKeysOnly(w: World)
  {
    forall c :: c in w.registry.cats ==> forall r :: r in w.registry.cats[c] ==> r in RegistryKeys
  }

  /** An aigen asset lives under `aigen_objs/`, but its descriptor is keyed
      `aigen`, so replaying it looks up the key `aigen_objs` and fails. */
  lemma ReplayOfAigenPathFails(w: World, req: Request, d: Draw)
    requires Loaded(w) && RegistryKeysOnly(w)
    requires req.replay.Some?
    requires ReplayRegistry(w.base, req.replay.value.mjcfPath) == Some("aigen_objs")
    ensures HelperSpec(w, req, d) == Err(KeyError)
  {
    HelperReplays(w, req, d);
    ReplayOfUnknownRegistry(w, req.replay.value, req.objectScale);
  }

  /** With an `info` to replay, the helper does only the replay. */
  lemma HelperReplays(w: World, req: Request, d: Draw)
    requires Loaded(w) && req.replay.Some?
    ensures HelperSpec(w, req, d) == Replay(w, req.replay.value, req.objectScale)
  {
  }

  lemma ReplayOfUnknownRegistry(w: World, info: Info, objectScale: Option<real>)
    requires RegistryKeysOnly(w)
    requires ReplayRegistry(w.base, info.mjcfPath) == Some("aigen_objs")
    ensures Replay(w, info, objectScale) == Err(KeyError)
  {
    assert "aigen_objs" !in RegistryKeys;
  }

  /** The split partitions a registry's list: `A` then `B` is the whole list,
      `A` holds the threshold's worth (or all), and any other split value is
      a ValueError. */
  lemma SplitPartition(paths: seq<string>, registryCount: nat)
    ensures ApplySplit(paths, Some("A"), registryCount).Ok? && ApplySplit(paths, Some("B"), registryCount).Ok?
    ensures ApplySplit(paths, Some("A"), registryCount).value + ApplySplit(paths, Some("B"), registryCount).value == paths
    ensures |ApplySplit(paths, Some("A"), registryCount).value|
         == if SplitThreshold(registryCount, |paths|) <= |paths| then SplitThreshold(registryCount, |paths|) else |paths|
    ensures ApplySplit(paths, None, registryCount) == Ok(paths)
    ensures forall s :: s != "A" && s != "B" ==> ApplySplit(paths, Some(s), registryCount) == Err(ValueError)
  {
    var th := SplitThreshold(registryCount, |paths|);
    var cut := if th <= |paths| then th else |paths|;
    assert paths[..cut] + paths[cut..] == paths;
  }

  /** Whatever the split, the kept paths come from the registry's list. */
  lemma SplitSublist(paths: seq<string>, split: Option<string>, registryCount: nat)
    ensures ApplySplit(paths, split, registryCount).Ok? ==>
              forall p :: p in ApplySplit(paths, split, registryCount).value ==> p in paths
  {
    SplitPartition(paths, registryCount);
  }

  /** With the three default registries, `len(choices) - 3` is zero, so the
      split falls at the first half (rounded up) of the list. */
  lemma DefaultSplitIsHalf(n: nat)
    ensures |EmptyChoices(DefaultRegistries)| == 3
    ensures SplitThreshold(|EmptyChoices(DefaultRegistries)|, n) == (n + 1) / 2
  {
    var m := EmptyChoices(DefaultRegistries);
    assert m.Keys == {"objaverse", "objaverse_extra", "aigen"};
    assert |m.Keys| == 3;
  }

  /** The weighted pick lands on the index whose cumulative interval holds
      the draw, which therefore has a positive weight. */
  lemma {:induction false} PickFromExact(ws: seq<nat>, u: nat, k: nat, i: nat)
    requires k <= |ws| && Sum(ws[..k]) <= u < Sum(ws)
    requires k <= i < |ws|
    ensures PickFrom(ws, u, k) == i <==> Sum(ws[..i]) <= u < Sum(ws[..i + 1])
    decreases |ws| - k
  {
    SumStep(ws, k);
    if u >= Sum(ws[..k + 1]) {
      if k + 1 <= i {
        PickFromExact(ws, u, k + 1, i);
      }
    } else if i > k {
      SumPrefixMonotone(ws, k + 1, i);
    }
  }

  lemma {:induction false} SumPrefixMonotone(ws: seq<nat>, a: nat, b: nat)
    requires a <= b <= |ws|
    ensures Sum(ws[..a]) <= Sum(ws[..b])
    decreases b - a
  {
    if a < b {
      SumStep(ws, b - 1);
      SumPrefixMonotone(ws, a, b - 1);
    }
  }

  lemma PickIndexExact(ws: seq<nat>, u: nat, i: nat)
    requires u < Sum(ws) && i < |ws|
    ensures PickIndex(ws, u) == i <==> Sum(ws[..i]) <= u < Sum(ws[..i + 1])
  {
    assert ws[..0] == [];
    PickFromExact(ws, u, 0, i);
  }

  lemma PickIndexWeight(ws: seq<nat>, u: nat)
    requires u < Sum(ws)
    ensures PickIndex(ws, u) < |ws| && ws[PickIndex(ws, u)] > 0
  {
    var i := PickIndex(ws, u);
    PickIndexExact(ws, u, i);
    SumStep(ws, i);
  }

  /** `groups_containing_sampled_obj` lists, in index order and each once,
      exactly the groups whose lists contain the category. */
  lemma {:induction false} ContainingExact(keys: seq<string>, members: map<string, seq<string>>, cat: string)
    requires forall k :: k in keys ==> k in members
    requires forall i, j :: 0 <= i < j < |keys| ==> keys[i] != keys[j]
    ensures forall g :: g in Containing(keys, members, cat) <==> g in keys && cat in members[g]
    ensures Distinct(Containing(keys, members, cat))
  {
    if |keys| > 0 {
      var init := keys[..|keys| - 1];
      ContainingExact(init, members, cat);
      assert keys == init + [keys[|keys| - 1]];
      var k := keys[|keys| - 1];
      assert k !in init by {
        forall i | 0 <= i < |init| ensures init[i] != k {
          assert init[i] == keys[i];
        }
      }
      var ri := Containing(init, members, cat);
      if cat in members[k] {
        var r := ri + [k];
        assert Containing(keys, members, cat) == r;
        assert k !in ri;
        forall i, j | 0 <= i < j < |r| ensures r[i] != r[j] {
          assert r[i] == ri[i];
          if j == |ri| {
            assert ri[i] in ri;
          } else {
            assert r[j] == ri[j];
            assert ri[i] != ri[j];
          }
        }
      }
    }
  }

  lemma {:induction false} InvalidCatsExact(w: World, excl: seq<string>)
    requires InvalidCats(w, excl).Ok?
    ensures forall k :: k in excl ==> k in w.groups.members
    ensures forall c :: c in InvalidCats(w, excl).value <==> exists g :: g in excl && c in w.groups.members[g]
  {
    if |excl| > 0 {
      var init := excl[..|excl| - 1];
      InvalidCatsExact(w, init);
      assert excl == init + [excl[|excl| - 1]];
    }
  }

  /** A category in the candidate list passes every filter. */
  ghost predicate Eligible(w: World, req: Request, invalid: seq<string>, c: string)
  {
    && c !in invalid
    && c in w.registry.cats
    && InAnyRegistry(w, req.registries, c)
    && FlagsOk(w, req, c)
  }

  lemma {:induction false} ValidFromExact(w: World, req: Request, invalid: seq<string>, acc: seq<string>, cats: seq<string>)
    requires forall i, j :: 0 <= i < j < |acc| ==> acc[i] != acc[j]
    requires ValidFrom(w, req, invalid, acc, cats).Ok?
    ensures var r := ValidFrom(w, req, invalid, acc, cats).value;
            && (forall i, j :: 0 <= i < j < |r| ==> r[i] != r[j])
            && (forall c :: c in r <==> c in acc || (c in cats && Eligible(w, req, invalid, c)))
  {
    if |cats| > 0 {
      var init := cats[..|cats| - 1];
      ValidFromExact(w, req, invalid, acc, init);
      assert cats == init + [cats[|cats| - 1]];
    }
  }

  /** The candidate list has no duplicates, and holds exactly the categories
      of the requested groups that pass every filter: not excluded, present
      in a requested registry, and holding every flag requested as `True` in
      every requested registry where present. */
  lemma {:induction false} ValidOverExact(w: World, req: Request, invalid: seq<string>, gs: seq<string>)
    requires ValidOver(w, req, invalid, gs).Ok?
    ensures forall k :: k in gs ==> k in w.groups.members
    ensures var r := ValidOver(w, req, invalid, gs).value;
            && (forall i, j :: 0 <= i < j < |r| ==> r[i] != r[j])
            && (forall c :: c in r <==> (exists g :: g in gs && c in w.groups.members[g]) && Eligible(w, req, invalid, c))
  {
    if |gs| > 0 {
      var init := gs[..|gs| - 1];
      var g := gs[|gs| - 1];
      ValidOverExact(w, req, invalid, init);
      assert gs == init + [g];
      ValidFromExact(w, req, invalid, ValidOver(w, req, invalid, init).value, w.groups.members[g]);
    }
  }

  /** The kwargs copy a descriptor's fields, with the scale multiplied when
      an object scale is given. */
  ghost predicate CopiesDescriptor(k: Kwargs, c: ObjCat, objectScale: Option<real>)
  {
    && k.solimp == c.fields.solimp
    && k.solref == c.fields.solref
    && k.density == c.fields.density
    && k.friction == c.fields.friction
    && k.priority == c.fields.priority
    && k.scale == (if objectScale.Some? then c.fields.scale * objectScale.value else c.fields.scale)
  }

  lemma ScaledCopy(c: ObjCat, path: string, objectScale: Option<real>)
    ensures CopiesDescriptor(ScaleBy(MjcfKwargs(c, path), objectScale), c, objectScale)
    ensures ScaleBy(MjcfKwargs(c, path), objectScale).mjcfPath == path
  {
  }

  /** The path of a group-mode sample comes from the post-split list of the
      `k`-th requested registry, which holds the category, hence from that
      descriptor's full list, and the kwargs copy that descriptor. */
  ghost predicate DrawnFromAt(w: World, req: Request, s: Sample, k: int)
  {
    && 0 <= k < |req.registries|
    && var reg := req.registries[k];
       && s.info.cat in w.registry.cats
       && reg in w.registry.cats[s.info.cat]
       && var desc := w.registry.cats[s.info.cat][reg];
          && s.info.mjcfPath in desc.mjcfPaths
          && ApplySplit(desc.mjcfPaths, req.split, |EmptyChoices(req.registries)|).Ok?
          && s.info.mjcfPath in ApplySplit(desc.mjcfPaths, req.split, |EmptyChoices(req.registries)|).value
          && CopiesDescriptor(s.kwargs, desc, req.objectScale)
  }

  ghost predicate DrawnFrom(w: World, req: Request, s: Sample)
  {
    exists k :: DrawnFromAt(w, req, s, k)
  }

  lemma DrawFromFacts(w: World, req: Request, gs: seq<string>, cat: string, d: Draw)
    requires w.groups.Valid()
    requires cat in w.registry.cats
    requires DrawFrom(w, req, gs, cat, d).Ok?
    ensures var s := DrawFrom(w, req, gs, cat, d).value;
            && s.info.cat == cat
            && s.info.groups == Many(gs)
            && s.info.split == req.split
            && s.kwargs.mjcfPath == s.info.mjcfPath
            && s.info.groupsContaining == Containing(w.groups.keys, w.groups.members, cat)
            && DrawnFrom(w, req, s)
  {
    var init := EmptyChoices(req.registries);
    var m := ChoicesMap(w, cat, req.registries, req.split, |init|, init).value;
    ChoicesMapShape(w, cat, req.registries, req.split, |init|, init);
    var ws := Weights(m, req.registries);
    var k := PickIndex(ws, d.registry % Sum(ws));
    PickIndexWeight(ws, d.registry % Sum(ws));
    var reg := req.registries[k];
    NonEmptyChoiceIsPresent(w, cat, reg, req.split, |init|);
    var paths := m[reg];
    var path := paths[d.path % |paths|];
    var desc := w.registry.cats[cat][reg];
    var all := desc.mjcfPaths;
    SplitSublist(all, req.split, |init|);
    var s := DrawFrom(w, req, gs, cat, d).value;
    assert s == Sample(ScaleBy(MjcfKwargs(desc, path), req.objectScale),
                       Info(Containing(w.groups.keys, w.groups.members, cat), Many(gs), cat, req.split, path));
    ScaledCopy(desc, path, req.objectScale);
    assert DrawnFromAt(w, req, s, k);
  }

  lemma GroupSampleFacts(w: World, req: Request, gs: seq<string>, valid: seq<string>, d: Draw)
    requires w.groups.Valid()
    requires forall c :: c in valid ==> c in w.registry.cats
    requires GroupSample(w, req, gs, valid, d).Ok?
    ensures var s := GroupSample(w, req, gs, valid, d).value;
            && s.info.cat in valid
            && s.info.groups == Many(gs)
            && s.info.split == req.split
            && s.kwargs.mjcfPath == s.info.mjcfPath
            && s.info.groupsContaining == Containing(w.groups.keys, w.groups.members, s.info.cat)
            && DrawnFrom(w, req, s)
  {
    var cat := valid[d.category % |valid|];
    DrawFromFacts(w, req, gs, cat, d);
  }

  /** Group mode: the sampled category belongs to a requested group, to no
      excluded group, passes every filter, and its path and kwargs come from
      one of its descriptors in a requested registry; the info lists exactly
      the groups containing the category. */
  lemma GroupModeSample(w: World, req: Request, d: Draw)
    requires Loaded(w)
    requires req.replay.None? && !(req.groups.One? && EndsWith(req.groups.name, ".xml"))
    requires HelperSpec(w, req, d).Ok?
    ensures var s := HelperSpec(w, req, d).value;
            var excl := if req.excludeGroups.None? then [] else AsList(req.excludeGroups.value);
            && (exists g :: g in AsList(req.groups) && g in w.groups.members && s.info.cat in w.groups.members[g])
            && (forall g :: g in excl ==> g in w.groups.members && s.info.cat !in w.groups.members[g])
            && s.info.cat in w.registry.cats
            && InAnyRegistry(w, req.registries, s.info.cat)
            && FlagsOk(w, req, s.info.cat)
            && s.info.groups == Many(AsList(req.groups))
            && s.info.split == req.split
            && s.kwargs.mjcfPath == s.info.mjcfPath
            && (forall g :: g in s.info.groupsContaining <==> g in w.groups.keys && s.info.cat in w.groups.members[g])
            && DrawnFrom(w, req, s)
  {
    var gs := AsList(req.groups);
    var excl := if req.excludeGroups.None? then [] else AsList(req.excludeGroups.value);
    var invalid := InvalidCats(w, excl).value;
    var valid := ValidOver(w, req, invalid, gs).value;
    InvalidCatsExact(w, excl);
    ValidOverExact(w, req, invalid, gs);
    ValidOverInRegistry(w, req, invalid, gs);
    GroupSampleFacts(w, req, gs, valid, d);
    var s := HelperSpec(w, req, d).value;
    assert s == GroupSample(w, req, gs, valid, d).value;
    ContainingExact(w.groups.keys, w.groups.members, s.info.cat);
  }

  /** In group mode an invalid split is always a ValueError: the sampled
      category is present in some requested registry, so the split is read. */
  lemma InvalidSplitFails(w: World, req: Request, d: Draw)
    requires Loaded(w)
    requires req.replay.None? && !(req.groups.One? && EndsWith(req.groups.name, ".xml"))
    requires req.split.Some? && req.split.value != "A" && req.split.value != "B"
    ensures HelperSpec(w, req, d).Err?
  {
    var gs := AsList(req.groups);
    var excl := if req.excludeGroups.None? then [] else AsList(req.excludeGroups.value);
    if InvalidCats(w, excl).Ok? && ValidOver(w, req, InvalidCats(w, excl).value, gs).Ok? {
      var invalid := InvalidCats(w, excl).value;
      var valid := ValidOver(w, req, invalid, gs).value;
      ValidOverInRegistry(w, req, invalid, gs);
      if |valid| > 0 {
        var cat := valid[d.category % |valid|];
        assert cat in valid;
        var init := EmptyChoices(req.registries);
        var r :| r in req.registries && r in w.registry.cats[cat];
        ChoicesForSomeFails(w, cat, req.registries, req.split, |init|, init, r);
      }
    }
  }

  lemma {:induction false} ChoicesForSomeFails(w: World, cat: string, regs: seq<string>, split: Option<string>,
                                               count: nat, init: map<string, seq<string>>, r: string)
    requires cat in w.registry.cats
    requires r in regs && r in w.registry.cats[cat]
    requires split.Some? && split.value != "A" && split.value != "B"
    ensures ChoicesMap(w, cat, regs, split, count, init) == Err(ValueError)
  {
    var last := regs[|regs| - 1];
    var prefix := regs[..|regs| - 1];
    if last != r {
      assert r in prefix by { assert regs == prefix + [last]; }
      ChoicesForSomeFails(w, cat, prefix, split, count, init, r);
    } else if ChoicesMap(w, cat, prefix, split, count, init).Ok? {
      assert ChoicesFor(w, cat, r, split, count) == Err(ValueError);
    } else {
      ChoicesMapNeverOtherError(w, cat, prefix, split, count, init);
    }
  }

  lemma {:induction false} ChoicesMapNeverOtherError(w: World, cat: string, regs: seq<string>, split: Option<string>,
                                                     count: nat, init: map<string, seq<string>>)
    requires cat in w.registry.cats
    ensures ChoicesMap(w, cat, regs, split, count, init).Err? ==> ChoicesMap(w, cat, regs, split, count, init).error == ValueError
  {
    if |regs| > 0 {
      ChoicesMapNeverOtherError(w, cat, regs[..|regs| - 1], split, count, init);
    }
  }

  /** A registry's weight is the length of its post-split list, and a
      registry not holding the category weighs nothing. */
  lemma RegistryWeights(w: World, cat: string, regs: seq<string>, split: Option<string>, k: nat)
    requires cat in w.registry.cats
    requires ChoicesMap(w, cat, regs, split, |EmptyChoices(regs)|, EmptyChoices(regs)).Ok?
    requires k < |regs|
    ensures var m := ChoicesMap(w, cat, regs, split, |EmptyChoices(regs)|, EmptyChoices(regs)).value;
            (forall r :: r in regs ==> r in m) &&
            var ws := Weights(m, regs);
            && (regs[k] !in w.registry.cats[cat] ==> ws[k] == 0)
            && (regs[k] in w.registry.cats[cat] ==>
                  && ApplySplit(w.registry.cats[cat][regs[k]].mjcfPaths, split, |EmptyChoices(regs)|).Ok?
                  && ws[k] == |ApplySplit(w.registry.cats[cat][regs[k]].mjcfPaths, split, |EmptyChoices(regs)|).value|)
  {
    ChoicesMapShape(w, cat, regs, split, |EmptyChoices(regs)|, EmptyChoices(regs));
  }

  /** The size test accepts exactly when every bound that is given is at
      least the size on its axis. */
  lemma AcceptsExact(bottom: Vec3, top: Vec3, radius: Vec3, scale: real, maxSize: seq<Option<real>>)
    requires |maxSize| >= 3
    ensures Accepts(ObjSize(bottom, top, radius, scale), maxSize) == Ok(
              (maxSize[0].None? || radius.x * 2.0 * scale <= maxSize[0].value) &&
              (maxSize[1].None? || radius.y * 2.0 * scale <= maxSize[1].value) &&
              (maxSize[2].None? || (top.z - bottom.z) * scale <= maxSize[2].value))
  {
    var size := ObjSize(bottom, top, radius, scale);
    assert size[0] == radius.x * 2.0 * scale && size[1] == radius.y * 2.0 * scale && size[2] == (top.z - bottom.z) * scale;
  }

  /** A successful run of the loop ends at its first accepted attempt;
      every attempt before it was rejected. */
  lemma {:induction false} FirstAcceptedIndex(atts: seq<Result<Attempt>>)
    requires FirstAccepted(atts).Ok?
    ensures exists i :: 0 <= i < |atts|
              && atts[i] == Ok(Accepted(FirstAccepted(atts).value))
              && forall j :: 0 <= j < i ==> atts[j] == Ok(Rejected)
  {
    if atts[0] == Ok(Rejected) {
      var rest := atts[1..];
      FirstAcceptedIndex(rest);
      var i :| 0 <= i < |rest|
               && rest[i] == Ok(Accepted(FirstAccepted(rest).value))
               && forall j :: 0 <= j < i ==> rest[j] == Ok(Rejected);
      assert atts[i + 1] == rest[i];
      forall j | 0 <= j < i + 1 ensures atts[j] == Ok(Rejected) {
        if j > 0 { assert atts[j] == rest[j - 1]; }
      }
    }
  }

  /** A failing run of the loop: `DrawsExhausted` exactly when every
      attempt is rejected; any other error is the first attempt that is not
      rejected. */
  lemma {:induction false} FirstAcceptedError(atts: seq<Result<Attempt>>)
    ensures FirstAccepted(atts) == Err(DrawsExhausted) <==>
              (forall j :: 0 <= j < |atts| ==> atts[j] == Ok(Rejected)) ||
              exists i :: 0 <= i < |atts| && atts[i] == Err(DrawsExhausted)
                && forall j :: 0 <= j < i ==> atts[j] == Ok(Rejected)
  {
    if |atts| > 0 {
      var rest := atts[1..];
      FirstAcceptedError(rest);
      assert forall j :: 0 <= j < |rest| ==> rest[j] == atts[j + 1];
      if atts[0] == Ok(Rejected) {
        if (forall j :: 0 <= j < |rest| ==> rest[j] == Ok(Rejected)) {
          assert forall j :: 0 <= j < |atts| ==> atts[j] == Ok(Rejected) by {
            forall j | 0 <= j < |atts| ensures atts[j] == Ok(Rejected) {
              if j > 0 { assert atts[j] == rest[j - 1]; }
            }
          }
        }
        if i :| 0 <= i < |rest| && rest[i] == Err(DrawsExhausted) && forall j :: 0 <= j < i ==> rest[j] == Ok(Rejected) {
          assert atts[i + 1] == Err(DrawsExhausted);
          forall j | 0 <= j < i + 1 ensures atts[j] == Ok(Rejected) {
            if j > 0 { assert atts[j] == rest[j - 1]; }
          }
        }
        if i :| 0 <= i < |atts| && atts[i] == Err(DrawsExhausted) && forall j :: 0 <= j < i ==> atts[j] == Ok(Rejected) {
          assert i > 0;
          assert rest[i - 1] == Err(DrawsExhausted);
          forall j | 0 <= j < i - 1 ensures rest[j] == Ok(Rejected) {
            assert rest[j] == atts[j + 1];
          }
        }
      }
    }
  }

  /** A successful `sample_kitchen_object` returns the first accepted draw;
      every draw before it was rejected. */
  lemma SampleIsFirstAccepted(w: World, req: Request, draws: seq<Draw>, sites: map<string, Anchors>)
    requires Loaded(w)
    requires SampleSpec(w, req, draws, sites).Ok?
    ensures exists i :: 0 <= i < |draws|
              && AttemptSpec(w, req, draws[i], sites) == Ok(Accepted(SampleSpec(w, req, draws, sites).value))
              && forall j :: 0 <= j < i ==> AttemptSpec(w, req, draws[j], sites) == Ok(Rejected)
  {
    var atts := Attempts(w, req, draws, sites);
    FirstAcceptedIndex(atts);
    var i :| 0 <= i < |atts|
             && atts[i] == Ok(Accepted(FirstAccepted(atts).value))
             && forall j :: 0 <= j < i ==> atts[j] == Ok(Rejected);
    assert atts[i] == AttemptSpec(w, req, draws[i], sites);
    forall j | 0 <= j < i ensures AttemptSpec(w, req, draws[j], sites) == Ok(Rejected) {
      assert atts[j] == AttemptSpec(w, req, draws[j], sites);
    }
  }

  /** An accepted sample fits every given bound. */
  lemma AcceptedSampleFits(w: World, req: Request, d: Draw, sites: map<string, Anchors>)
    requires Loaded(w)
    requires AttemptSpec(w, req, d, sites).Ok? && AttemptSpec(w, req, d, sites).value.Accepted?
    ensures var s := AttemptSpec(w, req, d, sites).value.sample;
            var a := sites[s.info.mjcfPath];
            && a.bottom.Some? && a.top.Some? && a.radius.Some? && |req.maxSize| >= 3
            && forall i :: 0 <= i < 3 ==>
                 req.maxSize[i].None? ||
                 ObjSize(a.bottom.value, a.top.value, a.radius.value, s.kwargs.scale)[i] <= req.maxSize[i].value
  {
  }

  /** There is no retry cap: when a replayed sample does not fit, every draw
      yields the same rejected sample and the supply runs out. */
  lemma RejectedReplayNeverEnds(w: World, req: Request, draws: seq<Draw>, sites: map<string, Anchors>)
    requires Loaded(w)
    requires req.replay.Some? && |draws| > 0
    requires AttemptSpec(w, req, draws[0], sites) == Ok(Rejected)
    ensures SampleSpec(w, req, draws, sites) == Err(DrawsExhausted)
  {
    var atts := Attempts(w, req, draws, sites);
    forall j | 0 <= j < |atts| ensures atts[j] == Ok(Rejected) {
      ReplayIgnoresDraws(w, req, draws[0], draws[j]);
      assert atts[j] == AttemptSpec(w, req, draws[j], sites);
    }
    FirstAcceptedError(atts);
  }
}
