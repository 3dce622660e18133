/** The group index: an insertion-ordered dict from group names to lists of
    category names, built from the category table before the registry. */
module Groups {
  import opened Common
  import opened ObjectCategories

  /** A category's type tags as the group code reads them from the table: a
      bare string is one tag, and a missing `types` key is a KeyError. */
  function TagsOf(entry: Entry): Result<seq<string>>
  {
    if "types" !in entry then Err(KeyError)
    else match entry["types"]
      case Plain(Str(s)) => Ok([s])
      case Plain(Tuple(items)) => Ok(items)
      case Plain(List(items)) => Ok(items)
      case _ => Err(Unsupported)
  }

  predicate Shares(tags: seq<string>, types: set<string>)
  {
    exists t :: t in tags && t in types
  }

  ghost predicate Readable(table: Table)
  {
    forall n :: n in table.entries ==> TagsOf(table.entries[n]).Ok?
  }

  // ---------------------------------------------------------------------
  // get_cats_by_type and the set of all types

  /** The categories among `names`, in order, that carry at least one of
      `types`; the first unreadable entry is the error. */
  function CatsOfTypes(table: Table, names: seq<string>, types: set<string>): Result<seq<string>>
    requires forall n :: n in names ==> n in table.entries
  {
    if |names| == 0 then Ok([])
    else
      var init :- CatsOfTypes(table, names[..|names| - 1], types);
      var name := names[|names| - 1];
      var tags :- TagsOf(table.entries[name]);
      Ok(init + if Shares(tags, types) then [name] else [])
  }

  lemma {:induction false} CatsFailFast(table: Table, names: seq<string>, types: set<string>, n: nat)
    requires forall c :: c in names ==> c in table.entries
    requires n <= |names|
    requires CatsOfTypes(table, names[..n], types).Err?
    ensures CatsOfTypes(table, names, types) == CatsOfTypes(table, names[..n], types)
    decreases |names| - n
  {
    if n < |names| {
      assert names[..n + 1][..n] == names[..n];
      CatsFailFast(table, names, types, n + 1);
    } else {
      assert names[..n] == names;
    }
  }

  /** `get_cats_by_type(types)`: scans the table in order and keeps each
      category whose tags meet `types`. */
  method CatsByType(table: Table, types: seq<string>) returns (r: Result<seq<string>>)
    requires table.Valid()
    ensures r == CatsOfTypes(table, table.names, set t | t in types)
  {
    var wanted := set t | t in types;
    var res: seq<string> := [];
    for i := 0 to |table.names|
      invariant CatsOfTypes(table, table.names[..i], wanted) == Ok(res)
    {
      assert table.names[..i + 1][..i] == table.names[..i];
      var key := table.names[i];
      var tags := TagsOf(table.entries[key]);
      if tags.Err? {
        CatsFailFast(table, table.names, wanted, i + 1);
        return Err(tags.error);
      }
      assert CatsOfTypes(table, table.names[..i + 1], wanted)
          == Ok(res + if Shares(tags.value, wanted) then [key] else []);
      if Shares(tags.value, wanted) {
        res := res + [key];
      } else {
        assert res + [] == res;
      }
    }
    assert table.names[..|table.names|] == table.names;
    r := Ok(res);
  }

  /** `get_cats_by_type` succeeds exactly when every scanned entry has
      readable tags. */
  lemma {:induction false} CatsOfTypesOk(table: Table, names: seq<string>, types: set<string>)
    requires forall n :: n in names ==> n in table.entries
    ensures CatsOfTypes(table, names, types).Ok? <==> forall n :: n in names ==> TagsOf(table.entries[n]).Ok?
  {
    if |names| > 0 {
      var init := names[..|names| - 1];
      CatsOfTypesOk(table, init, types);
      assert names == init + [names[|names| - 1]];
    }
  }

  /** On success, `get_cats_by_type` lists a scanned category exactly when
      its tags meet `types`. */
  lemma {:induction false} CatsOfTypesMembers(table: Table, names: seq<string>, types: set<string>)
    requires forall n :: n in names ==> n in table.entries
    requires CatsOfTypes(table, names, types).Ok?
    ensures forall n :: n in names ==> TagsOf(table.entries[n]).Ok?
    ensures forall c :: c in CatsOfTypes(table, names, types).value <==>
              c in names && Shares(TagsOf(table.entries[c]).value, types)
  {
    if |names| > 0 {
      var init := names[..|names| - 1];
      CatsOfTypesMembers(table, init, types);
      CatsOfTypesOk(table, init, types);
      CatsOfTypesOk(table, names, types);
      assert names == init + [names[|names| - 1]];
    }
  }

  /** A scan over distinct names lists each category at most once. */
  lemma {:induction false} CatsOfTypesDistinct(table: Table, names: seq<string>, types: set<string>)
    requires forall n :: n in names ==> n in table.entries
    requires forall i, j :: 0 <= i < j < |names| ==> names[i] != names[j]
    requires CatsOfTypes(table, names, types).Ok?
    ensures var r := CatsOfTypes(table, names, types).value;
            forall i, j :: 0 <= i < j < |r| ==> r[i] != r[j]
  {
    if |names| > 0 {
      var init := names[..|names| - 1];
      var name := names[|names| - 1];
      CatsOfTypesDistinct(table, init, types);
      CatsOfTypesMembers(table, init, types);
    }
  }

  /** Over distinct names, `x` keeps its position when the list is cut
      after it. */
  lemma IndexOfPrefix(names: seq<string>, n: nat, x: string)
    requires n <= |names| && x in names[..n]
    ensures x in names && IndexOf(names, x) == IndexOf(names[..n], x)
  {
    var k := IndexOf(names[..n], x);
    var m := IndexOf(names, x);
    forall j | 0 <= j < k
      ensures names[j] != x
    {
      assert names[..n][..k][j] == names[j];
    }
    forall j | 0 <= j < m
      ensures names[j] != x
    {
      assert names[..m][j] == names[j];
    }
  }

  /** `get_cats_by_type` keeps the scan order: the categories it lists
      appear in `names` in the same order. */
  lemma {:induction false} CatsOfTypesOrdered(table: Table, names: seq<string>, types: set<string>)
    requires forall n :: n in names ==> n in table.entries
    requires forall i, j :: 0 <= i < j < |names| ==> names[i] != names[j]
    requires CatsOfTypes(table, names, types).Ok?
    ensures var r := CatsOfTypes(table, names, types).value;
            forall i, j :: 0 <= i < j < |r| ==>
              r[i] in names && r[j] in names && IndexOf(names, r[i]) < IndexOf(names, r[j])
  {
    if |names| > 0 {
      var init := names[..|names| - 1];
      var name := names[|names| - 1];
      CatsOfTypesOrdered(table, init, types);
      CatsOfTypesMembers(table, init, types);
      var ri := CatsOfTypes(table, init, types).value;
      var r := CatsOfTypes(table, names, types).value;
      var tags := TagsOf(table.entries[name]).value;
      assert r == ri + if Shares(tags, types) then [name] else [];
      forall i, j | 0 <= i < j < |r|
        ensures r[i] in names && r[j] in names && IndexOf(names, r[i]) < IndexOf(names, r[j])
      {
        assert r[i] == ri[i];
        IndexOfPrefix(names, |names| - 1, r[i]);
        if j < |ri| {
          assert r[j] == ri[j];
          IndexOfPrefix(names, |names| - 1, r[j]);
        } else {
          assert r[j] == name;
        }
      }
      assert forall i, j :: 0 <= i < j < |r| ==>
              r[i] in names && r[j] in names && IndexOf(names, r[i]) < IndexOf(names, r[j]);
    } else {
      assert CatsOfTypes(table, names, types).value == [];
    }
  }

  /** The union of all tags among `names`: the set the build iterates over. */
  function TypeSet(table: Table, names: seq<string>): Result<set<string>>
    requires forall n :: n in names ==> n in table.entries
  {
    if |names| == 0 then Ok({})
    else
      var init :- TypeSet(table, names[..|names| - 1]);
      var tags :- TagsOf(table.entries[names[|names| - 1]]);
      Ok(init + set t | t in tags)
  }

  lemma {:induction false} TypeSetExact(table: Table, names: seq<string>)
    requires forall n :: n in names ==> n in table.entries
    ensures TypeSet(table, names).Ok? <==> forall n :: n in names ==> TagsOf(table.entries[n]).Ok?
    ensures TypeSet(table, names).Ok? ==>
              forall t :: t in TypeSet(table, names).value <==>
                exists n :: n in names && t in TagsOf(table.entries[n]).value
  {
    if |names| > 0 {
      var init := names[..|names| - 1];
      TypeSetExact(table, init);
      assert names == init + [names[|names| - 1]];
    }
  }

  /** `order` lists the set `s`, each element once: one possible iteration
      order of a Python set. */
  predicate Enumerates(order: seq<string>, s: set<string>)
  {
    && (forall i, j :: 0 <= i < j < |order| ==> order[i] != order[j])
    && (set t | t in order) == s
  }

  // ---------------------------------------------------------------------
  // The insertion-ordered dict

  /** A Python dict from group names to category lists: `keys` is its
      insertion order. */
  datatype GroupIndex = GroupIndex(keys: seq<string>, members: map<string, seq<string>>) {
    ghost predicate Valid() {
      && (forall i, j :: 0 <= i < j < |keys| ==> keys[i] != keys[j])
      && (forall k :: k in members <==> k in keys)
    }
  }

  const NoGroups: GroupIndex := GroupIndex([], map[])

  /** `d[key] = cats`: a new key goes last, an existing key keeps its place. */
  function Assign(g: GroupIndex, key: string, cats: seq<string>): GroupIndex
  {
    GroupIndex(if key in g.members then g.keys else g.keys + [key], g.members[key := cats])
  }

  datatype Assignment = Assignment(key: string, cats: seq<string>)

  function AssignAll(g: GroupIndex, ps: seq<Assignment>): GroupIndex
  {
    if |ps| == 0 then g
    else
      var p := ps[|ps| - 1];
      Assign(AssignAll(g, ps[..|ps| - 1]), p.key, p.cats)
  }

  function KeysOf(ps: seq<Assignment>): (ks: seq<string>)
    ensures |ks| == |ps|
    ensures forall i :: 0 <= i < |ps| ==> ks[i] == ps[i].key
  {
    if |ps| == 0 then [] else KeysOf(ps[..|ps| - 1]) + [ps[|ps| - 1].key]
  }

  /** The keys of `ks` in order of first appearance. */
  function FirstOccurrences(ks: seq<string>): seq<string>
  {
    if |ks| == 0 then []
    else
      var init := FirstOccurrences(ks[..|ks| - 1]);
      if ks[|ks| - 1] in ks[..|ks| - 1] then init else init + [ks[|ks| - 1]]
  }

  /** The value of the last assignment to `k`. */
  function LastAssigned(ps: seq<Assignment>, k: string): seq<string>
    requires k in KeysOf(ps)
  {
    var p := ps[|ps| - 1];
    if p.key == k then p.cats else LastAssigned(ps[..|ps| - 1], k)
  }

  lemma AssignAllSnoc(g: GroupIndex, ps: seq<Assignment>, p: Assignment)
    ensures AssignAll(g, ps + [p]) == Assign(AssignAll(g, ps), p.key, p.cats)
  {
    assert (ps + [p])[..|ps|] == ps;
  }

  /** The law of an insertion-ordered dict: after a run of assignments from
      empty, the keys are the assigned keys in order of first assignment,
      and each key holds its last assigned value. */
  lemma {:induction false} OrderedDictLaw(ps: seq<Assignment>)
    ensures AssignAll(NoGroups, ps).Valid()
    ensures AssignAll(NoGroups, ps).keys == FirstOccurrences(KeysOf(ps))
    ensures forall k :: k in AssignAll(NoGroups, ps).members <==> k in KeysOf(ps)
    ensures forall k :: k in AssignAll(NoGroups, ps).members ==>
              AssignAll(NoGroups, ps).members[k] == LastAssigned(ps, k)
  {
    if |ps| > 0 {
      var init := ps[..|ps| - 1];
      var p := ps[|ps| - 1];
      OrderedDictLaw(init);
      var g := AssignAll(NoGroups, init);
      AssignValid(g, p.key, p.cats);
      assert KeysOf(ps)[..|ps| - 1] == KeysOf(init);
      forall k ensures k in KeysOf(ps) <==> k in KeysOf(init) || k == p.key {
        assert KeysOf(ps) == KeysOf(init) + [p.key];
      }
    }
  }

  /** An assignment keeps the dict well formed. */
  lemma AssignValid(g: GroupIndex, key: string, cats: seq<string>)
    requires g.Valid()
    ensures Assign(g, key, cats).Valid()
  {
    if key !in g.members {
      var ks := g.keys + [key];
      forall i, j | 0 <= i < j < |ks| ensures ks[i] != ks[j] {
        if j == |ks| - 1 { assert ks[i] == g.keys[i]; }
      }
    }
  }

  /** The last assignment at index `j` to `k` decides its value. */
  lemma {:induction false} LastAssignedAt(ps: seq<Assignment>, k: string, j: int)
    requires 0 <= j < |ps| && ps[j].key == k
    requires forall i :: j < i < |ps| ==> ps[i].key != k
    ensures k in KeysOf(ps)
    ensures LastAssigned(ps, k) == ps[j].cats
  {
    assert KeysOf(ps)[j] == k;
    if j < |ps| - 1 {
      var init := ps[..|ps| - 1];
      assert init[j] == ps[j];
      LastAssignedAt(init, k, j);
    }
  }

  lemma {:induction false} KeysOfAppend(a: seq<Assignment>, b: seq<Assignment>)
    ensures KeysOf(a + b) == KeysOf(a) + KeysOf(b)
  {
    assert |KeysOf(a + b)| == |KeysOf(a) + KeysOf(b)|;
  }

  lemma {:induction false} AssignAllAppend(g: GroupIndex, a: seq<Assignment>, b: seq<Assignment>)
    ensures AssignAll(g, a + b) == AssignAll(AssignAll(g, a), b)
  {
    if |b| > 0 {
      var init := b[..|b| - 1];
      AssignAllAppend(g, a, init);
      assert (a + b)[..|a + b| - 1] == a + init;
      assert (a + b)[|a + b| - 1] == b[|b| - 1];
    } else {
      assert a + b == a;
    }
  }

  /** A later run of assignments overrides an earlier one. */
  lemma {:induction false} LastAssignedAppend(a: seq<Assignment>, b: seq<Assignment>, k: string)
    requires k in KeysOf(a) || k in KeysOf(b)
    ensures k in KeysOf(a + b)
    ensures k in KeysOf(b) ==> LastAssigned(a + b, k) == LastAssigned(b, k)
    ensures k !in KeysOf(b) ==> LastAssigned(a + b, k) == LastAssigned(a, k)
  {
    KeysOfAppend(a, b);
    if |b| > 0 {
      var init := b[..|b| - 1];
      assert (a + b)[..|a + b| - 1] == a + init;
      assert KeysOf(b) == KeysOf(init) + [b[|b| - 1].key];
      if b[|b| - 1].key != k {
        LastAssignedAppend(a, init, k);
      }
    } else {
      assert a + b == a;
    }
  }

  // ---------------------------------------------------------------------
  // The build

  /** The type tags the composite `food` and `in_container` groups collect. */
  const FoodTypes: seq<string> :=
    ["vegetable", "fruit", "sweets", "dairy", "meat", "bread_food", "pastry", "cooked_food"]

  /** The hand-written groups, assigned last and in this order. */
  const CustomGroups: seq<Assignment> := [
    Assignment("container", ["plate"]),
    Assignment("kettle", ["kettle_electric", "kettle_non_electric"]),
    Assignment("cookware", ["pan", "pot", "kettle_non_electric"]),
    Assignment("pots_and_pans", ["pan", "pot"]),
    Assignment("food_set1", ["apple", "baguette", "banana", "carrot", "cheese",
                             "cucumber", "egg", "lemon", "orange", "potato"]),
    Assignment("group1", ["apple", "carrot", "banana", "bowl", "can"]),
    Assignment("container_set2", ["plate", "bowl"])
  ]

  /** The keys assigned after the type groups. */
  const FixedKeys: seq<string> :=
    ["food", "in_container", "container", "kettle", "cookware", "pots_and_pans",
     "food_set1", "group1", "container_set2"]

  function Singletons(names: seq<string>): (ps: seq<Assignment>)
    ensures |ps| == |names|
    ensures forall i :: 0 <= i < |names| ==> ps[i] == Assignment(names[i], [names[i]])
  {
    seq(|names|, i requires 0 <= i < |names| => Assignment(names[i], [names[i]]))
  }

  lemma SingletonKeys(names: seq<string>)
    ensures KeysOf(Singletons(names)) == names
  {
    var ks := KeysOf(Singletons(names));
    assert forall i :: 0 <= i < |names| ==> ks[i] == names[i];
  }

  /** `all`, then one singleton group per category. */
  function Prelude(table: Table): seq<Assignment>
  {
    [Assignment("all", table.names)] + Singletons(table.names)
  }

  lemma ReadableCats(table: Table, types: set<string>)
    requires table.Valid() && Readable(table)
    ensures CatsOfTypes(table, table.names, types).Ok?
  {
    CatsOfTypesOk(table, table.names, types);
  }

  /** The group of one type: the categories carrying it. */
  function TypeGroup(table: Table, t: string): seq<string>
    requires table.Valid() && Readable(table)
  {
    ReadableCats(table, {t});
    CatsOfTypes(table, table.names, {t}).value
  }

  function FoodGroup(table: Table): seq<string>
    requires table.Valid() && Readable(table)
  {
    ReadableCats(table, set t | t in FoodTypes);
    CatsOfTypes(table, table.names, set t | t in FoodTypes).value
  }

  function TypeAssignments(table: Table, order: seq<string>): (ps: seq<Assignment>)
    requires table.Valid() && Readable(table)
    ensures |ps| == |order|
    ensures forall i :: 0 <= i < |order| ==> ps[i] == Assignment(order[i], TypeGroup(table, order[i]))
  {
    seq(|order|, i requires 0 <= i < |order| => Assignment(order[i], TypeGroup(table, order[i])))
  }

  function FoodAssignments(table: Table): seq<Assignment>
    requires table.Valid() && Readable(table)
  {
    [Assignment("food", FoodGroup(table)), Assignment("in_container", FoodGroup(table))]
  }

  function Closing(table: Table): seq<Assignment>
    requires table.Valid() && Readable(table)
  {
    FoodAssignments(table) + CustomGroups
  }

  /** Every assignment of the build, in program order. */
  function Assignments(table: Table, order: seq<string>): seq<Assignment>
    requires table.Valid() && Readable(table)
  {
    Prelude(table) + TypeAssignments(table, order) + Closing(table)
  }

  lemma ReadableFromTypeSet(table: Table)
    requires table.Valid()
    ensures TypeSet(table, table.names).Ok? <==> Readable(table)
  {
    TypeSetExact(table, table.names);
  }

  /** The group index the build produces, given the order in which the set of
      all types is iterated; an unreadable `types` value is the error. */
  function GroupsSpec(table: Table, order: seq<string>): Result<GroupIndex>
    requires table.Valid()
  {
    ReadableFromTypeSet(table);
    match TypeSet(table, table.names)
    case Err(e) => Err(e)
    case Ok(_) => Ok(AssignAll(NoGroups, Assignments(table, order)))
  }

  lemma {:induction false} TypeSetFailFast(table: Table, names: seq<string>, n: nat)
    requires forall c :: c in names ==> c in table.entries
    requires n <= |names|
    requires TypeSet(table, names[..n]).Err?
    ensures TypeSet(table, names) == TypeSet(table, names[..n])
    decreases |names| - n
  {
    if n < |names| {
      assert names[..n + 1][..n] == names[..n];
      TypeSetFailFast(table, names, n + 1);
    } else {
      assert names[..n] == names;
    }
  }

  /** `for k in OBJ_CATEGORIES: OBJ_GROUPS[k] = [k]`. */
  method AddSingletons(g0: GroupIndex, names: seq<string>) returns (g: GroupIndex)
    ensures g == AssignAll(g0, Singletons(names))
  {
    g := g0;
    for i := 0 to |names|
      invariant g == AssignAll(g0, Singletons(names)[..i])
    {
      AssignAllSnoc(g0, Singletons(names)[..i], Singletons(names)[i]);
      assert Singletons(names)[..i + 1] == Singletons(names)[..i] + [Singletons(names)[i]];
      g := Assign(g, names[i], [names[i]]);
    }
    assert Singletons(names)[..|names|] == Singletons(names);
  }

  /** The loop that collects the union of all tags; it fails on the first
      entry whose tags cannot be read. */
  method CollectTypes(table: Table) returns (r: Result<set<string>>)
    requires table.Valid()
    ensures r == TypeSet(table, table.names)
  {
    var names := table.names;
    var allTypes: set<string> := {};
    for i := 0 to |names|
      invariant TypeSet(table, names[..i]) == Ok(allTypes)
    {
      assert names[..i + 1][..i] == names[..i];
      var tags := TagsOf(table.entries[names[i]]);
      if tags.Err? {
        TypeSetFailFast(table, names, i + 1);
        return Err(tags.error);
      }
      allTypes := allTypes + set t | t in tags.value;
    }
    assert names[..|names|] == names;
    r := Ok(allTypes);
  }

  /** `for t in all_types: OBJ_GROUPS[t] = get_cats_by_type(types=[t])`,
      visiting the types in the order `typeOrder`. */
  method AddTypeGroups(g0: GroupIndex, table: Table, typeOrder: seq<string>) returns (g: GroupIndex)
    requires table.Valid() && Readable(table)
    ensures g == AssignAll(g0, TypeAssignments(table, typeOrder))
  {
    ghost var types := TypeAssignments(table, typeOrder);
    g := g0;
    for i := 0 to |typeOrder|
      invariant g == AssignAll(g0, types[..i])
    {
      var t := typeOrder[i];
      var cats := CatsByType(table, [t]);
      assert (set x | x in [t]) == {t};
      ReadableCats(table, {t});
      AssignAllSnoc(g0, types[..i], types[i]);
      assert types[..i + 1] == types[..i] + [types[i]];
      g := Assign(g, t, cats.value);
    }
    assert types[..|typeOrder|] == types;
  }

  /** The custom groups, assigned one after another. */
  method AddCustomGroups(g0: GroupIndex) returns (g: GroupIndex)
    ensures g == AssignAll(g0, CustomGroups)
  {
    g := g0;
    for i := 0 to |CustomGroups|
      invariant g == AssignAll(g0, CustomGroups[..i])
    {
      AssignAllSnoc(g0, CustomGroups[..i], CustomGroups[i]);
      assert CustomGroups[..i + 1] == CustomGroups[..i] + [CustomGroups[i]];
      g := Assign(g, CustomGroups[i].key, CustomGroups[i].cats);
    }
    assert CustomGroups[..|CustomGroups|] == CustomGroups;
  }

  lemma AssignTwo(g: GroupIndex, a: Assignment, b: Assignment)
    ensures AssignAll(g, [a, b]) == Assign(Assign(g, a.key, a.cats), b.key, b.cats)
  {
    assert [a, b][..1] == [a];
    assert [a][..0] == [];
    assert AssignAll(g, [a]) == Assign(g, a.key, a.cats);
  }

  /** `food` and `in_container`, each the categories of the food types. */
  method AddFoodGroups(g0: GroupIndex, table: Table) returns (g: GroupIndex)
    requires table.Valid() && Readable(table)
    ensures g == AssignAll(g0, FoodAssignments(table))
  {
    var food := CatsByType(table, FoodTypes);
    ReadableCats(table, set t | t in FoodTypes);
    assert food.value == FoodGroup(table);
    g := Assign(g0, "food", food.value);
    var inContainer := CatsByType(table, FoodTypes);
    assert inContainer.value == FoodGroup(table);
    g := Assign(g, "in_container", inContainer.value);
    ghost var foods := FoodAssignments(table);
    assert foods == [Assignment("food", FoodGroup(table)), Assignment("in_container", FoodGroup(table))];
    AssignTwo(g0, foods[0], foods[1]);
  }

  /** The two food groups, then the custom groups. */
  method AddClosingGroups(g0: GroupIndex, table: Table) returns (g: GroupIndex)
    requires table.Valid() && Readable(table)
    ensures g == AssignAll(g0, Closing(table))
  {
    g := AddFoodGroups(g0, table);
    g := AddCustomGroups(g);
    AssignAllAppend(g0, FoodAssignments(table), CustomGroups);
  }

  /** The module-level code that fills the group index: `all`, a singleton
      per category, the union of all tags (which fails on an unreadable
      entry), a group per tag in the set's iteration order `typeOrder`, the
      two food groups and the custom groups. */
  method BuildGroups(table: Table, typeOrder: seq<string>) returns (r: Result<GroupIndex>)
    requires table.Valid()
    requires TypeSet(table, table.names).Ok? ==> Enumerates(typeOrder, TypeSet(table, table.names).value)
    ensures r == GroupsSpec(table, typeOrder)
  {
    var g := Assign(NoGroups, "all", table.names);
    AssignAllSnoc(NoGroups, [], Assignment("all", table.names));
    assert [] + [Assignment("all", table.names)] == [Assignment("all", table.names)];
    g := AddSingletons(g, table.names);
    AssignAllAppend(NoGroups, [Assignment("all", table.names)], Singletons(table.names));
    var allTypes := CollectTypes(table);
    if allTypes.Err? {
      return Err(allTypes.error);
    }
    ReadableFromTypeSet(table);
    g := AddTypeGroups(g, table, typeOrder);
    AssignAllAppend(NoGroups, Prelude(table), TypeAssignments(table, typeOrder));
    g := AddClosingGroups(g, table);
    AssignAllAppend(NoGroups, Prelude(table) + TypeAssignments(table, typeOrder), Closing(table));
    GroupsSpecIs(table, typeOrder);
    r := Ok(g);
  }

  // ---------------------------------------------------------------------
  // Properties of the group index

  /** When every run of assignments to `k` writes the same value, that is
      the value `k` ends with. */
  lemma {:induction false} LastAssignedUniform(ps: seq<Assignment>, k: string, v: seq<string>)
    requires k in KeysOf(ps)
    requires forall i :: 0 <= i < |ps| && ps[i].key == k ==> ps[i].cats == v
    ensures LastAssigned(ps, k) == v
  {
    var init := ps[..|ps| - 1];
    if ps[|ps| - 1].key != k {
      assert KeysOf(ps) == KeysOf(init) + [ps[|ps| - 1].key];
      LastAssignedUniform(init, k, v);
    }
  }

  lemma GroupsSpecIs(table: Table, order: seq<string>)
    requires table.Valid() && Readable(table)
    ensures GroupsSpec(table, order) == Ok(AssignAll(NoGroups, Assignments(table, order)))
  {
    ReadableFromTypeSet(table);
  }

  /** The build fails exactly when some entry's tags cannot be read, and
      otherwise yields a well-formed ordered dict. */
  lemma GroupsFailOnlyOnUnreadableTags(table: Table, order: seq<string>)
    requires table.Valid()
    ensures GroupsSpec(table, order).Ok? <==> Readable(table)
    ensures GroupsSpec(table, order).Ok? ==> GroupsSpec(table, order).value.Valid()
  {
    ReadableFromTypeSet(table);
    if Readable(table) {
      OrderedDictLaw(Assignments(table, order));
    }
  }

  lemma PreludeKeys(table: Table)
    ensures KeysOf(Prelude(table)) == ["all"] + table.names
  {
    KeysOfAppend([Assignment("all", table.names)], Singletons(table.names));
    SingletonKeys(table.names);
  }

  lemma TypeKeys(table: Table, order: seq<string>)
    requires table.Valid() && Readable(table)
    ensures KeysOf(TypeAssignments(table, order)) == order
  {
  }

  lemma ClosingKeys(table: Table)
    requires table.Valid() && Readable(table)
    ensures KeysOf(Closing(table)) == FixedKeys
  {
  }

  lemma AssignmentKeys(table: Table, order: seq<string>)
    requires table.Valid() && Readable(table)
    ensures KeysOf(Prelude(table) + TypeAssignments(table, order)) == ["all"] + table.names + order
    ensures KeysOf(Assignments(table, order)) == ["all"] + table.names + order + FixedKeys
  {
    PreludeKeys(table);
    TypeKeys(table, order);
    ClosingKeys(table);
    KeysOfAppend(Prelude(table), TypeAssignments(table, order));
    KeysOfAppend(Prelude(table) + TypeAssignments(table, order), Closing(table));
  }

  lemma FixedKeysDistinct()
    ensures forall i, j :: 0 <= i < j < |FixedKeys| ==> FixedKeys[i] != FixedKeys[j]
  {
  }

  /** The fixed key number `m` ends with the value of closing assignment
      number `m`, since the fixed keys are distinct and assigned last. */
  lemma FixedGroupValue(table: Table, order: seq<string>, m: nat)
    requires table.Valid() && Readable(table)
    requires m < |FixedKeys|
    ensures GroupsSpec(table, order).Ok?
    ensures FixedKeys[m] in GroupsSpec(table, order).value.members
    ensures GroupsSpec(table, order).value.members[FixedKeys[m]] == Closing(table)[m].cats
  {
    var k := FixedKeys[m];
    var closing := Closing(table);
    GroupsSpecIs(table, order);
    OrderedDictLaw(Assignments(table, order));
    AssignmentKeys(table, order);
    ClosingKeys(table);
    FixedKeysDistinct();
    assert KeysOf(closing)[m] == k;
    LastAssignedAppend(Prelude(table) + TypeAssignments(table, order), closing, k);
    forall i | m < i < |closing| ensures closing[i].key != k {
      assert closing[i].key == KeysOf(closing)[i] == FixedKeys[i];
    }
    LastAssignedAt(closing, k, m);
  }

  /** Any other key ends with its value from before the closing assignments. */
  lemma EarlyGroupValue(table: Table, order: seq<string>, k: string)
    requires table.Valid() && Readable(table)
    requires k in ["all"] + table.names + order && k !in FixedKeys
    ensures GroupsSpec(table, order).Ok?
    ensures k in GroupsSpec(table, order).value.members
    ensures k in KeysOf(Prelude(table) + TypeAssignments(table, order))
    ensures GroupsSpec(table, order).value.members[k] == LastAssigned(Prelude(table) + TypeAssignments(table, order), k)
  {
    GroupsSpecIs(table, order);
    OrderedDictLaw(Assignments(table, order));
    AssignmentKeys(table, order);
    ClosingKeys(table);
    LastAssignedAppend(Prelude(table) + TypeAssignments(table, order), Closing(table), k);
  }

  /** The key order: `all`, the categories, the types in set order and the
      fixed groups, each at its first assignment. */
  lemma GroupKeyOrder(table: Table, order: seq<string>)
    requires table.Valid() && Readable(table)
    ensures GroupsSpec(table, order).Ok?
    ensures GroupsSpec(table, order).value.keys
         == FirstOccurrences(["all"] + table.names + order + FixedKeys)
  {
    GroupsSpecIs(table, order);
    OrderedDictLaw(Assignments(table, order));
    AssignmentKeys(table, order);
  }

  /** The two food groups both hold the food group: `in_container` is a copy
      of `food`, and no later assignment touches either. */
  lemma FoodGroupsExact(table: Table, order: seq<string>)
    requires table.Valid() && Readable(table)
    ensures GroupsSpec(table, order).Ok?
    ensures "food" in GroupsSpec(table, order).value.members
    ensures "in_container" in GroupsSpec(table, order).value.members
    ensures GroupsSpec(table, order).value.members["food"] == FoodGroup(table)
    ensures GroupsSpec(table, order).value.members["in_container"] == FoodGroup(table)
  {
    FixedGroupValue(table, order, 0);
    FixedGroupValue(table, order, 1);
  }

  /** The food group lists, in table order and once each, the categories
      tagged with at least one food type. */
  lemma FoodGroupMembers(table: Table)
    requires table.Valid() && Readable(table)
    ensures forall c :: c in FoodGroup(table) <==>
              c in table.names && Shares(TagsOf(table.entries[c]).value, set t | t in FoodTypes)
    ensures forall i, j :: 0 <= i < j < |FoodGroup(table)| ==> FoodGroup(table)[i] != FoodGroup(table)[j]
    ensures forall i, j :: 0 <= i < j < |FoodGroup(table)| ==>
              FoodGroup(table)[i] in table.names && FoodGroup(table)[j] in table.names &&
              IndexOf(table.names, FoodGroup(table)[i]) < IndexOf(table.names, FoodGroup(table)[j])
  {
    ReadableCats(table, set t | t in FoodTypes);
    CatsOfTypesMembers(table, table.names, set t | t in FoodTypes);
    CatsOfTypesDistinct(table, table.names, set t | t in FoodTypes);
    CatsOfTypesOrdered(table, table.names, set t | t in FoodTypes);
    var r := FoodGroup(table);
    assert r == CatsOfTypes(table, table.names, set t | t in FoodTypes).value;
    assert forall i, j :: 0 <= i < j < |r| ==>
             r[i] in table.names && r[j] in table.names && IndexOf(table.names, r[i]) < IndexOf(table.names, r[j]);
  }

  /** The custom groups hold exactly their hand-written lists. */
  lemma CustomGroupsExact(table: Table, order: seq<string>, m: nat)
    requires table.Valid() && Readable(table)
    requires m < |CustomGroups|
    ensures GroupsSpec(table, order).Ok?
    ensures CustomGroups[m].key in GroupsSpec(table, order).value.members
    ensures GroupsSpec(table, order).value.members[CustomGroups[m].key] == CustomGroups[m].cats
  {
    FixedGroupValue(table, order, m + 2);
    assert Closing(table)[m + 2] == CustomGroups[m];
    assert FixedKeys[m + 2] == CustomGroups[m].key;
  }

  /** A type's group, unless a fixed group reuses its name, lists exactly
      the categories carrying that type, in table order, each once. */
  lemma TypeGroupExact(table: Table, order: seq<string>, t: string)
    requires table.Valid() && TypeSet(table, table.names).Ok?
    requires Enumerates(order, TypeSet(table, table.names).value)
    requires t in TypeSet(table, table.names).value && t !in FixedKeys
    ensures Readable(table) && GroupsSpec(table, order).Ok?
    ensures t in GroupsSpec(table, order).value.members
    ensures forall c :: c in GroupsSpec(table, order).value.members[t] <==>
              c in table.names && t in TagsOf(table.entries[c]).value
    ensures var r := GroupsSpec(table, order).value.members[t];
            forall i, j :: 0 <= i < j < |r| ==> r[i] != r[j]
    ensures var r := GroupsSpec(table, order).value.members[t];
            forall i, j :: 0 <= i < j < |r| ==>
              r[i] in table.names && r[j] in table.names && IndexOf(table.names, r[i]) < IndexOf(table.names, r[j])
  {
    ReadableFromTypeSet(table);
    assert t in order;
    EarlyGroupValue(table, order, t);
    var types := TypeAssignments(table, order);
    TypeKeys(table, order);
    LastAssignedAppend(Prelude(table), types, t);
    LastAssignedUniform(types, t, TypeGroup(table, t));
    ReadableCats(table, {t});
    CatsOfTypesMembers(table, table.names, {t});
    CatsOfTypesDistinct(table, table.names, {t});
    CatsOfTypesOrdered(table, table.names, {t});
    forall c | c in table.names
      ensures Shares(TagsOf(table.entries[c]).value, {t}) <==> t in TagsOf(table.entries[c]).value
    {
    }
  }

  /** After the prelude, a category holds its singleton. */
  lemma PreludeSingleton(table: Table, c: string)
    requires c in table.names
    ensures c in KeysOf(Prelude(table))
    ensures LastAssigned(Prelude(table), c) == [c]
  {
    var singles := Singletons(table.names);
    SingletonKeys(table.names);
    LastAssignedAppend([Assignment("all", table.names)], singles, c);
    LastAssignedUniform(singles, c, [c]);
  }

  /** After the prelude, `all` holds every category, unless one of them is
      named `all`. */
  lemma PreludeAll(table: Table)
    requires "all" !in table.names
    ensures "all" in KeysOf(Prelude(table))
    ensures LastAssigned(Prelude(table), "all") == table.names
  {
    SingletonKeys(table.names);
    LastAssignedAppend([Assignment("all", table.names)], Singletons(table.names), "all");
  }

  /** A category's own group is `[name]` unless a type or a fixed group
      reuses the name. */
  lemma SingletonGroup(table: Table, order: seq<string>, c: string)
    requires table.Valid() && TypeSet(table, table.names).Ok?
    requires Enumerates(order, TypeSet(table, table.names).value)
    requires c in table.names && c !in TypeSet(table, table.names).value && c !in FixedKeys
    ensures GroupsSpec(table, order).Ok?
    ensures c in GroupsSpec(table, order).value.members
    ensures GroupsSpec(table, order).value.members[c] == [c]
  {
    ReadableFromTypeSet(table);
    EarlyGroupValue(table, order, c);
    TypeKeys(table, order);
    PreludeSingleton(table, c);
    LastAssignedAppend(Prelude(table), TypeAssignments(table, order), c);
  }

  /** `all` is the first key of the index. */
  lemma AllGroupFirst(table: Table, order: seq<string>)
    requires table.Valid() && Readable(table)
    ensures GroupsSpec(table, order).Ok?
    ensures |GroupsSpec(table, order).value.keys| > 0
    ensures GroupsSpec(table, order).value.keys[0] == "all"
  {
    GroupKeyOrder(table, order);
    var ks := ["all"] + table.names + order + FixedKeys;
    assert ks[0] == "all";
    FirstOccurrencesHead(ks);
  }

  /** `all` lists every category in table order, unless a category or a type
      is named `all`. */
  lemma AllGroup(table: Table, order: seq<string>)
    requires table.Valid() && TypeSet(table, table.names).Ok?
    requires Enumerates(order, TypeSet(table, table.names).value)
    requires "all" !in table.names && "all" !in TypeSet(table, table.names).value
    ensures GroupsSpec(table, order).Ok?
    ensures "all" in GroupsSpec(table, order).value.members
    ensures GroupsSpec(table, order).value.members["all"] == table.names
  {
    ReadableFromTypeSet(table);
    FixedKeysDistinct();
    assert "all" !in FixedKeys;
    EarlyGroupValue(table, order, "all");
    TypeKeys(table, order);
    PreludeAll(table);
    LastAssignedAppend(Prelude(table), TypeAssignments(table, order), "all");
  }

  lemma {:induction false} FirstOccurrencesHead(ks: seq<string>)
    requires |ks| > 0
    ensures |FirstOccurrences(ks)| > 0 && FirstOccurrences(ks)[0] == ks[0]
  {
    if |ks| > 1 {
      FirstOccurrencesHead(ks[..|ks| - 1]);
    }
  }
}
