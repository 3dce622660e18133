/** A few entries of the category table, written out as the table gives
    them, and what the registry and group builds make of them. */
module TableExcerpt {
  import opened Common
  import opened Paths
  import opened ObjectCategories
  import opened Groups

  /** `f"{prefix}{i}"`. */
  function Instance(prefix: string, i: nat): string
  {
    prefix + NatToString(i)
  }

  /** `[f"{prefix}{i}" for i in range(n) if i in ks]` when `keep` holds, and
      the same with `not in` otherwise. */
  function Indexed(prefix: string, n: nat, ks: set<nat>, keep: bool): seq<string>
  {
    if n == 0 then []
    else Indexed(prefix, n - 1, ks, keep) + (if ((n - 1) in ks) == keep then [Instance(prefix, n - 1)] else [])
  }

  /** An instance name is listed exactly when its index is in range and
      passes the filter. */
  lemma {:induction false} IndexedMembers(prefix: string, n: nat, ks: set<nat>, keep: bool, i: nat)
    ensures Instance(prefix, i) in Indexed(prefix, n, ks, keep) <==> i < n && (i in ks) == keep
  {
    if n > 0 {
      IndexedMembers(prefix, n - 1, ks, keep, i);
      if Instance(prefix, i) == Instance(prefix, n - 1) {
        assert NatToString(i) == Instance(prefix, i)[|prefix|..];
        assert NatToString(n - 1) == Instance(prefix, n - 1)[|prefix|..];
        NatToStringInjective(i, n - 1);
      }
    }
  }

  /** The five affordance flags of an entry. */
  function Flags(graspable: bool, washable: bool, microwavable: bool, cookable: bool, freezable: bool): Entry
  {
    map["graspable" := Plain(Bool(graspable)), "washable" := Plain(Bool(washable)),
        "microwavable" := Plain(Bool(microwavable)), "cookable" := Plain(Bool(cookable)),
        "freezable" := Plain(Bool(freezable))]
  }

  /** A registry block with its model folders and scale. */
  function Folder(folder: string, scale: real): Value
  {
    Block(map["model_folders" := List([folder]), "scale" := Num(scale)])
  }

  /** A registry block with only a scale. */
  function Scaled(scale: real): Value
  {
    Block(map["scale" := Num(scale)])
  }

  // ---------------------------------------------------------------------
  // The two kettles, which share their folders

  const KettleObjaverse: set<nat> := {0, 7, 9, 12, 13, 17, 24, 25, 26, 27}
  const KettleAigen: set<nat> := {0, 2, 6, 9, 10, 11}

  /** The electric kettle's entry around its two exclude lists. */
  function ElectricKettleEntry(objaverseExclude: seq<string>, aigenExclude: seq<string>): Entry
  {
    Flags(true, false, false, false, false) + map[
      "types" := Plain(Str("receptacle")),
      "objaverse" := Block(map["scale" := Num(1.35), "model_folders" := List(["objaverse/kettle"]),
                               "exclude" := List(objaverseExclude)]),
      "aigen" := Block(map["scale" := Num(1.5), "model_folders" := List(["aigen_objs/kettle"]),
                           "exclude" := List(aigenExclude)]),
      "objaverse_extra" := Folder("objaverse_extra/kettle", 1.3)]
  }

  /** The other kettle's entry around its two exclude lists. */
  function NonElectricKettleEntry(objaverseExclude: seq<string>, aigenExclude: seq<string>): Entry
  {
    Flags(true, true, false, false, false) + map[
      "types" := Plain(Str("receptacle")),
      "objaverse" := Block(map["scale" := Num(1.35), "model_folders" := List(["objaverse/kettle"]),
                               "exclude" := List(objaverseExclude)]),
      "aigen" := Block(map["scale" := Num(1.5), "model_folders" := List(["aigen_objs/kettle"]),
                           "exclude" := List(aigenExclude)])]
  }

  /** The electric kettle excludes the instances not in the index lists,
      the other kettle those in them. */
  const KettleElectric: Entry :=
    ElectricKettleEntry(Indexed("kettle_", 29, KettleObjaverse, false), Indexed("kettle_", 11, KettleAigen, false))
  const KettleNonElectric: Entry :=
    NonElectricKettleEntry(Indexed("kettle_", 29, KettleObjaverse, true), Indexed("kettle_", 11, KettleAigen, true))

  /** The exclude list of one registry block, as the descriptor receives it. */
  function ExcludeList(entry: Entry, reg: string): Result<seq<string>>
  {
    var block :- BlockOf(entry, reg);
    match block
    case None => Ok([])
    case Some(f) => StringsOr(f, "exclude", [])
  }

  /** The folders of one registry block, with the descriptor's default. */
  function FoldersOf(name: string, entry: Entry, reg: string): Result<seq<string>>
  {
    var block :- BlockOf(entry, reg);
    match block
    case None => Ok([])
    case Some(f) => StringsOr(f, "model_folders", [SourceOf(reg) + "/" + name])
  }

  /** Two filters over the same range, one keeping the indices in `ks` and
      one the others, list each instance name of the range exactly once. */
  lemma IndexedComplement(prefix: string, n: nat, ks: set<nat>)
    ensures forall i: nat :: i < n ==>
              (Instance(prefix, i) in Indexed(prefix, n, ks, false) <==> Instance(prefix, i) !in Indexed(prefix, n, ks, true))
  {
    forall i: nat | i < n
      ensures Instance(prefix, i) in Indexed(prefix, n, ks, false) <==> Instance(prefix, i) !in Indexed(prefix, n, ks, true)
    {
      IndexedMembers(prefix, n, ks, false, i);
      IndexedMembers(prefix, n, ks, true, i);
    }
  }

  /** What the descriptor reads from the electric kettle's blocks. */
  lemma ElectricKettleBlocks(objaverseExclude: seq<string>, aigenExclude: seq<string>)
    ensures FoldersOf("kettle_electric", ElectricKettleEntry(objaverseExclude, aigenExclude), "objaverse") == Ok(["objaverse/kettle"])
    ensures ExcludeList(ElectricKettleEntry(objaverseExclude, aigenExclude), "objaverse") == Ok(objaverseExclude)
    ensures ExcludeList(ElectricKettleEntry(objaverseExclude, aigenExclude), "aigen") == Ok(aigenExclude)
  {
  }

  /** What the descriptor reads from the other kettle's blocks. */
  lemma NonElectricKettleBlocks(objaverseExclude: seq<string>, aigenExclude: seq<string>)
    ensures FoldersOf("kettle_non_electric", NonElectricKettleEntry(objaverseExclude, aigenExclude), "objaverse") == Ok(["objaverse/kettle"])
    ensures ExcludeList(NonElectricKettleEntry(objaverseExclude, aigenExclude), "objaverse") == Ok(objaverseExclude)
    ensures ExcludeList(NonElectricKettleEntry(objaverseExclude, aigenExclude), "aigen") == Ok(aigenExclude)
  {
  }

  /** Both kettles walk the same objaverse folder, and their exclude lists
      split `kettle_0` to `kettle_28` between them: each instance is excluded
      by exactly one of the two. */
  lemma KettleObjaverseSplit()
    ensures FoldersOf("kettle_electric", KettleElectric, "objaverse") == Ok(["objaverse/kettle"])
    ensures FoldersOf("kettle_non_electric", KettleNonElectric, "objaverse") == Ok(["objaverse/kettle"])
    ensures ExcludeList(KettleElectric, "objaverse").Ok? && ExcludeList(KettleNonElectric, "objaverse").Ok?
    ensures forall i: nat :: i < 29 ==>
              (Instance("kettle_", i) in ExcludeList(KettleElectric, "objaverse").value
               <==> Instance("kettle_", i) !in ExcludeList(KettleNonElectric, "objaverse").value)
  {
    ElectricKettleBlocks(Indexed("kettle_", 29, KettleObjaverse, false), Indexed("kettle_", 11, KettleAigen, false));
    NonElectricKettleBlocks(Indexed("kettle_", 29, KettleObjaverse, true), Indexed("kettle_", 11, KettleAigen, true));
    IndexedComplement("kettle_", 29, KettleObjaverse);
  }

  /** The aigen lists split `kettle_0` to `kettle_10` the same way, but the
      ranges stop at 10 although the index list names 11: `kettle_11` is
      excluded by neither kettle. */
  lemma KettleAigenSplit()
    ensures ExcludeList(KettleElectric, "aigen").Ok? && ExcludeList(KettleNonElectric, "aigen").Ok?
    ensures forall i: nat :: i < 11 ==>
              (Instance("kettle_", i) in ExcludeList(KettleElectric, "aigen").value
               <==> Instance("kettle_", i) !in ExcludeList(KettleNonElectric, "aigen").value)
    ensures 11 in KettleAigen
    ensures Instance("kettle_", 11) !in ExcludeList(KettleElectric, "aigen").value
    ensures Instance("kettle_", 11) !in ExcludeList(KettleNonElectric, "aigen").value
  {
    ElectricKettleBlocks(Indexed("kettle_", 29, KettleObjaverse, false), Indexed("kettle_", 11, KettleAigen, false));
    NonElectricKettleBlocks(Indexed("kettle_", 29, KettleObjaverse, true), Indexed("kettle_", 11, KettleAigen, true));
    IndexedComplement("kettle_", 11, KettleAigen);
    IndexedMembers("kettle_", 11, KettleAigen, false, 11);
    IndexedMembers("kettle_", 11, KettleAigen, true, 11);
  }

  // ---------------------------------------------------------------------
  // Pan and pot, which share the objaverse pan folder

  const PotInstances: set<nat> := {0, 12, 17, 22}

  const Pan: Entry :=
    Flags(true, true, false, false, false) + map[
      "types" := Plain(Str("receptacle")),
      "aigen" := Scaled(2.25),
      "objaverse" := Block(map["scale" := Num(1.70),
                               "exclude" := List(["pan_16", "pan_0", "pan_12", "pan_17", "pan_22"])]),
      "objaverse_extra" := Block(map["model_folders" := List(["objaverse_extra/pan"]), "scale" := Num(2.0),
                                     "exclude" := List(["pan_11", "pan_5", "pan_6"])])]

  /** The pot's entry around its objaverse exclude list. */
  function PotEntry(objaverseExclude: seq<string>): Entry
  {
    Flags(true, true, false, false, false) + map[
      "types" := Plain(Str("receptacle")),
      "aigen" := Scaled(2.25),
      "objaverse" := Block(map["model_folders" := List(["objaverse/pan"]), "scale" := Num(1.70),
                               "exclude" := List(objaverseExclude)]),
      "objaverse_extra" := Folder("objaverse_extra/pot", 2.0)]
  }

  /** The pot excludes `list(set(pan_0 .. pan_24) - set(the four pots))`; that
      order is the set's, here index order, and only its members matter. */
  const Pot: Entry := PotEntry(Indexed("pan_", 25, PotInstances, false))

  lemma TwoDigits(n: nat)
    requires 10 <= n < 100
    ensures NatToString(n) == [DigitChar(n / 10), DigitChar(n % 10)]
  {
  }

  /** The pan's literal list names `pan_i` exactly for `i` in
      {0, 12, 16, 17, 22}. */
  lemma PanListMembers(i: nat)
    ensures Instance("pan_", i) in ["pan_16", "pan_0", "pan_12", "pan_17", "pan_22"]
            <==> i in PotInstances + {16}
  {
    var listed := ["pan_16", "pan_0", "pan_12", "pan_17", "pan_22"];
    var index := [16, 0, 12, 17, 22];
    forall k | 0 <= k < 5 ensures listed[k] == Instance("pan_", index[k]) {
      if index[k] >= 10 {
        TwoDigits(index[k]);
      }
    }
    if Instance("pan_", i) in listed {
      var k :| 0 <= k < 5 && listed[k] == Instance("pan_", i);
      assert NatToString(i) == Instance("pan_", i)[4..];
      assert NatToString(index[k]) == Instance("pan_", index[k])[4..];
      NatToStringInjective(i, index[k]);
    }
    if i in PotInstances + {16} {
      assert i in index;
    }
  }

  lemma PanBlocks()
    ensures FoldersOf("pan", Pan, "objaverse") == Ok(["objaverse/pan"])
    ensures ExcludeList(Pan, "objaverse") == Ok(["pan_16", "pan_0", "pan_12", "pan_17", "pan_22"])
  {
    assert SourceOf("objaverse") + "/" + "pan" == "objaverse/pan";
  }

  /** What the descriptor reads from the pot's objaverse block. */
  lemma PotBlocks(objaverseExclude: seq<string>)
    ensures FoldersOf("pot", PotEntry(objaverseExclude), "objaverse") == Ok(["objaverse/pan"])
    ensures ExcludeList(PotEntry(objaverseExclude), "objaverse") == Ok(objaverseExclude)
  {
  }

  /** The pan and the pot walk the same folder: the pot keeps `pan_0`,
      `pan_12`, `pan_17` and `pan_22` of `pan_0` to `pan_24` and the pan
      excludes exactly those, plus `pan_16`, which neither keeps. */
  lemma PanPotSplit()
    ensures FoldersOf("pan", Pan, "objaverse") == Ok(["objaverse/pan"])
    ensures FoldersOf("pot", Pot, "objaverse") == Ok(["objaverse/pan"])
    ensures ExcludeList(Pan, "objaverse").Ok? && ExcludeList(Pot, "objaverse").Ok?
    ensures forall i: nat :: i < 25 ==>
              (Instance("pan_", i) !in ExcludeList(Pot, "objaverse").value <==> i in PotInstances)
    ensures forall i: nat ::
              (Instance("pan_", i) in ExcludeList(Pan, "objaverse").value <==> i in PotInstances + {16})
  {
    PanBlocks();
    PotBlocks(Indexed("pan_", 25, PotInstances, false));
    forall i: nat | i < 25
      ensures Instance("pan_", i) !in Indexed("pan_", 25, PotInstances, false) <==> i in PotInstances
    {
      IndexedMembers("pan_", 25, PotInstances, false, i);
    }
    forall i: nat
      ensures Instance("pan_", i) in ["pan_16", "pan_0", "pan_12", "pan_17", "pan_22"] <==> i in PotInstances + {16}
    {
      PanListMembers(i);
    }
  }

  // ---------------------------------------------------------------------
  // Tags that are also names

  const Kiwi: Entry :=
    Flags(true, true, false, false, true) + map[
      "types" := Plain(Str("fruit")),
      "aigen" := Scaled(0.90),
      "objaverse" := Scaled(0.90),
      "objaverse_extra" := Folder("objaverse_extra/kiwi", 0.8)]

  const Fruit: Entry :=
    Flags(true, false, false, false, true) + map[
      "types" := Plain(Str("food")),
      "objaverse_extra" := Folder("objaverse_extra/fruit", 1.0)]

  const Melon: Entry :=
    Flags(true, false, false, false, true) + map[
      "types" := Plain(Str("food")),
      "objaverse_extra" := Folder("objaverse_extra/melon", 1.2)]

  const Walnut: Entry :=
    Flags(true, true, false, false, false) + map[
      "aigen" := Scaled(1.15),
      "types" := Plain(Tuple([])),
      "objaverse_extra" := Folder("objaverse_extra/walnut", 0.5)]

  const Whisk: Entry :=
    Flags(true, true, false, false, false) + map[
      "aigen" := Scaled(1.8),
      "types" := Plain(Str("utensil"))]

  const Utensil: Entry :=
    Flags(false, false, false, false, false) + map[
      "types" := Plain(Str("tool")),
      "objaverse_extra" := Folder("objaverse_extra/utensil", 1.0)]

  /** How the group build reads these entries' `types`: `("fruit")` and the
      like are strings, each one tag, and `()` is no tag at all. */
  lemma FruitTags()
    ensures TagsOf(Kiwi) == Ok(["fruit"]) && TagsOf(Fruit) == Ok(["food"])
  {
  }

  lemma MelonWalnutTags()
    ensures TagsOf(Melon) == Ok(["food"]) && TagsOf(Walnut) == Ok([])
  {
  }

  lemma UtensilTags()
    ensures TagsOf(Whisk) == Ok(["utensil"]) && TagsOf(Utensil) == Ok(["tool"])
  {
  }

  /** When a category's name is also another category's tag, the type
      group, assigned after the singletons, replaces the category's own
      group: it lists the tagged category and, unless the category carries
      its own name as a tag, not the category itself. */
  lemma TypeGroupShadowsName(table: Table, order: seq<string>, name: string, tagged: string)
    requires table.Valid() && TypeSet(table, table.names).Ok?
    requires Enumerates(order, TypeSet(table, table.names).value)
    requires name in table.names && tagged in table.names && name !in FixedKeys
    requires TagsOf(table.entries[tagged]) == Ok([name])
    requires TagsOf(table.entries[name]).Ok? && name !in TagsOf(table.entries[name]).value
    ensures GroupsSpec(table, order).Ok?
    ensures name in GroupsSpec(table, order).value.members
    ensures tagged in GroupsSpec(table, order).value.members[name]
    ensures name !in GroupsSpec(table, order).value.members[name]
  {
    TypeSetExact(table, table.names);
    assert name in TagsOf(table.entries[tagged]).value;
    TypeGroupExact(table, order, name);
  }

  /** `fruit` is a category name and the tag of `kiwi` (`FruitTags`), and
      `utensil` is a category name and the tag of `whisk` (`UtensilTags`):
      in any table holding all four, the `fruit` group lists `kiwi` and not
      `fruit`, and the `utensil` group lists `whisk` and not `utensil`. */
  lemma FruitAndUtensilGroups(table: Table, order: seq<string>)
    requires table.Valid() && TypeSet(table, table.names).Ok?
    requires Enumerates(order, TypeSet(table, table.names).value)
    requires "kiwi" in table.names && "fruit" in table.names
    requires "whisk" in table.names && "utensil" in table.names
    requires TagsOf(table.entries["kiwi"]) == Ok(["fruit"]) && TagsOf(table.entries["fruit"]) == Ok(["food"])
    requires TagsOf(table.entries["whisk"]) == Ok(["utensil"]) && TagsOf(table.entries["utensil"]) == Ok(["tool"])
    ensures GroupsSpec(table, order).Ok?
    ensures "fruit" in GroupsSpec(table, order).value.members
    ensures "kiwi" in GroupsSpec(table, order).value.members["fruit"]
    ensures "fruit" !in GroupsSpec(table, order).value.members["fruit"]
    ensures "utensil" in GroupsSpec(table, order).value.members
    ensures "whisk" in GroupsSpec(table, order).value.members["utensil"]
    ensures "utensil" !in GroupsSpec(table, order).value.members["utensil"]
  {
    TypeGroupShadowsName(table, order, "fruit", "kiwi");
    TypeGroupShadowsName(table, order, "utensil", "whisk");
  }

  /** `food` is a tag and also a fixed group: the fixed group, assigned
      later, collects the food types, among which `food` is not, so `fruit`
      and `melon`, tagged `food`, are not in the `food` group, while `kiwi`,
      tagged `fruit`, is. */
  lemma FoodTagNotInFoodGroup(table: Table, order: seq<string>)
    requires table.Valid() && TypeSet(table, table.names).Ok?
    requires "kiwi" in table.names && "fruit" in table.names && "melon" in table.names
    requires TagsOf(table.entries["kiwi"]) == Ok(["fruit"]) && TagsOf(table.entries["fruit"]) == Ok(["food"])
    requires TagsOf(table.entries["melon"]) == Ok(["food"])
    ensures GroupsSpec(table, order).Ok?
    ensures "food" in TypeSet(table, table.names).value
    ensures "food" in GroupsSpec(table, order).value.members
    ensures "kiwi" in GroupsSpec(table, order).value.members["food"]
    ensures "fruit" !in GroupsSpec(table, order).value.members["food"]
    ensures "melon" !in GroupsSpec(table, order).value.members["food"]
  {
    TypeSetExact(table, table.names);
    assert "food" in TagsOf(table.entries["fruit"]).value;
    ReadableFromTypeSet(table);
    FoodGroupsExact(table, order);
    FoodTypeFacts();
    TagsInFoodGroup(table, "kiwi", ["fruit"]);
    TagsInFoodGroup(table, "fruit", ["food"]);
    TagsInFoodGroup(table, "melon", ["food"]);
  }

  /** `fruit` is one of the food types and `food` is not. */
  lemma FoodTypeFacts()
    ensures Shares(["fruit"], set t | t in FoodTypes)
    ensures !Shares(["food"], set t | t in FoodTypes)
  {
    var food := set t | t in FoodTypes;
    assert FoodTypes[1] == "fruit";
    assert "fruit" in ["fruit"] && "fruit" in food;
    assert "food" !in FoodTypes;
    assert "food" !in food;
  }

  /** A category is in the food group exactly when one of its tags is a
      food type. */
  lemma TagsInFoodGroup(table: Table, c: string, tags: seq<string>)
    requires table.Valid() && Readable(table)
    requires c in table.names && TagsOf(table.entries[c]) == Ok(tags)
    ensures c in FoodGroup(table) <==> Shares(tags, set t | t in FoodTypes)
  {
    FoodGroupMembers(table);
  }

  /** `walnut`, whose types are the empty tuple, is in no type group. */
  lemma UntypedInNoTypeGroup(table: Table, order: seq<string>)
    requires table.Valid() && TypeSet(table, table.names).Ok?
    requires Enumerates(order, TypeSet(table, table.names).value)
    requires "walnut" in table.names && TagsOf(table.entries["walnut"]) == Ok([])
    ensures GroupsSpec(table, order).Ok?
    ensures forall t :: t in TypeSet(table, table.names).value && t !in FixedKeys ==>
              t in GroupsSpec(table, order).value.members && "walnut" !in GroupsSpec(table, order).value.members[t]
  {
    ReadableFromTypeSet(table);
    GroupsFailOnlyOnUnreadableTags(table, order);
    forall t | t in TypeSet(table, table.names).value && t !in FixedKeys
      ensures t in GroupsSpec(table, order).value.members && "walnut" !in GroupsSpec(table, order).value.members[t]
    {
      TypeGroupExact(table, order, t);
    }
  }
}
