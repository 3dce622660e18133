# Kitchen objects, cabinet panels and asset paths: a Dafny model

This project models three pieces of the robocasa kitchen simulator and proves properties of them.

1. **The kitchen-object registry and its samplers.**
   - The declarative category table becomes a value (`Table`). Each of its entries holds shared affordance flags, `types` and per-registry blocks.
   - `ObjCat` becomes a descriptor: the constructor's stored fields plus the sorted, exclusion-filtered list of `model.xml` paths found under its model folders.
   - The registry build turns every registry block into a descriptor. It first checks the allowed keys and the forbidden top-level `scale`, and it overwrites each block with the shared properties.
   - The group index `OBJ_GROUPS` is an ordered dictionary in which the last assignment wins. It holds `all`, one singleton per category, one group per type tag, the `food` and `in_container` groups and the custom groups.
   - `sample_kitchen_object_helper` has three modes:
     - replay of a caller's `info`;
     - reverse lookup of an exact `.xml` path;
     - group sampling: excluded groups, candidate filtering by registry and by requested flags, the train/test split, a registry weighted by the post-split list lengths, and a path.
   - `sample_kitchen_object` repeats the helper until the sampled object fits the per-axis size bounds.
   - Random choices come from an oracle of natural numbers (`Sampler.Draw`), so the proofs are about membership and the shape of the result, not about distributions.
2. **Cabinet panel layout arithmetic.**
   - The handle-type padding table and the handle position rule, with their `NotImplementedError` branches.
   - The half-extent and position dictionaries of the slab, shaker, raised, divided-window and full-windowed panels.
   - The shelf sizing.
   - The `exclude_from_prefixing` predicate.
3. **Asset path rewriting in `edit_model_xml`.**
   - The `file` path of a `mesh` or `texture` child of `<asset>` that contains a `robosuite` component is spliced. The components after the last `robosuite` are appended to the components of the local robosuite install directory.

File layout:

| file | module | contents |
|---|---|---|
| `common.dfy` | `Common` | `Option`, `Result`, and one error constructor per exception kind |
| `paths.dfy` | `Paths` | `str.split("/")`, `"/".join`, `os.path.join`, `basename`, `xs[-n:]`, and decimal rendering of indices |
| `sorting.dfy` | `Sorting` | the code-point order of `sorted()` on strings, and insertion sort |
| `categories.dfy` | `ObjectCategories` | the table, `ObjCat`, the folder walk, and the registry build |
| `groups.dfy` | `Groups` | `get_cats_by_type` and the construction of `OBJ_GROUPS` |
| `sampler.dfy` | `Sampler` | the helper's three modes and the size-rejection loop |
| `excerpt.dfy` | `TableExcerpt` | ten entries of the real table and the quirks they show |
| `panels.dfy` | `CabinetPanels` | handle pads and position, panel layouts, shelf and prefix exclusion |
| `assets.dfy` | `AssetPaths` | the path rewrite of `edit_model_xml` |

The code that changes state step by step is written as methods with loops and invariants. Each one is proved equal to a specification function, and the properties are proved as lemmas about that function:
- `NewObjCat`'s walk loop;
- the group-building loops (`CatsByType`, `BuildGroups` and its five stages);
- the registry build (`BuildCategory`, `BuildRegistry`);
- the helper's append loops (`CollectInvalid`, `CollectValid`, `FillChoices`, `GroupsContaining`, `ReverseLookup`);
- the rejection loop (`SampleKitchenObject`);
- the element loop of `edit_model_xml` (`EditModelXml` over an `array`).

The pure parts are functions: `get_mjcf_kwargs`, split slicing, the size expression and the panel arithmetic.

## Model

| member | source | states |
|---|---|---|
| ObjectCategories.ObjCatArguments | robocasa/models/objects/kitchen_objects.py:2781-2827 | Binding the keyword arguments of `ObjCat(...)`: an unknown keyword or a missing `types` is a TypeError. `types` becomes a tuple, and a bare string becomes a one-tuple. `friction` is always (1,1,1) whatever is passed. Without `model_folders` the folder is `"{source}/{name}"`, and `exclude` defaults to empty. The held flags are exactly those given as `True`. `aigen_cat` is set for the aigen registry. |
| ObjectCategories.NewObjCat | robocasa/models/objects/kitchen_objects.py:2823-2837 | The constructor keeps its fields. Its `mjcf_paths` is the sorted list of everything collected by walking every model folder in turn. |
| ObjectCategories.ModelPathsMembers | robocasa/models/objects/kitchen_objects.py:2831-2836 | One walk contributes `p` iff some walked directory lists `model.xml`, has a basename not in `exclude`, and `p` is `<root>/model.xml`. |
| ObjectCategories.CollectedMembers | robocasa/models/objects/kitchen_objects.py:2828-2836 | A path is collected iff it is `<root>/model.xml` for a qualifying directory of the walk of some model folder under the asset root. |
| ObjectCategories.MjcfPathsExact | robocasa/models/objects/kitchen_objects.py:2828-2837 | `mjcf_paths` is sorted, and it holds exactly the `model.xml` files of the non-excluded directories that hold one: every such directory appears, and nothing else does. |
| ObjectCategories.ExcludedNeverListed | robocasa/models/objects/kitchen_objects.py:2832-2836 | Every listed path is `<root>/model.xml` for a root whose basename is not excluded. |
| ObjectCategories.WalkOrderIrrelevant | robocasa/models/objects/kitchen_objects.py:2837 | Two walks that find the same multiset of files give the same descriptor, because of the final sort. |
| ObjectCategories.BuildCategory | robocasa/models/objects/kitchen_objects.py:2857-2890 | The loop body for one category equals the specification `CategorySpec`: key checks, popping the three blocks, `update(common_properties)`, then one `ObjCat` per present block in the order objaverse, aigen, objaverse_extra. |
| ObjectCategories.UnknownKeysRejected | robocasa/models/objects/kitchen_objects.py:2861-2876 | A category fails with AssertionError iff it has a key outside the nine allowed keys. A top-level `scale` is outside them, so it fails too. |
| ObjectCategories.NoAssertionFromArguments | robocasa/models/objects/kitchen_objects.py:2801-2837 | Building an `ObjCat` never raises AssertionError, so that error always comes from the key checks of the build. |
| ObjectCategories.OneDescriptorPerBlock | robocasa/models/objects/kitchen_objects.py:2873-2890 | A built category has a descriptor for a registry iff the entry has that registry block. |
| ObjectCategories.SharedPropertiesWin | robocasa/models/objects/kitchen_objects.py:2860-2890 | A shared flag or `types` overrides the block's value in every descriptor of the category. |
| ObjectCategories.SiblingDescriptorsAgree | robocasa/models/objects/kitchen_objects.py:2880-2890 | When all five flags and `types` are shared, any two descriptors of one category have the same flags and types. |
| ObjectCategories.BuildRegistry | robocasa/models/objects/kitchen_objects.py:2857-2890 | The module-level loop over the table equals `RegistrySpec`, the build of every category in table order. |
| ObjectCategories.RegistryExact | robocasa/models/objects/kitchen_objects.py:2857-2890 | The build succeeds iff every category builds. On success the registry has exactly the table's names, in table order, and each entry is that category's own build. |
| ObjectCategories.BuildAllFirstError | robocasa/models/objects/kitchen_objects.py:2857-2890 | A failed build reports the error of the first category, in table order, that fails; every earlier category builds. |
| Sorting.SortStrings | robocasa/models/objects/kitchen_objects.py:2837 | `sorted()` on strings gives a result that is sorted by code points and is a permutation of its input. |
| Sorting.SortedUnique | robocasa/models/objects/kitchen_objects.py:2837 | Two sorted permutations of the same multiset are equal, so the sorted list is determined by the files found. |
| Sorting.SortIgnoresOrder | robocasa/models/objects/kitchen_objects.py:2837 | Sorting inputs with the same elements gives the same list. |
| Groups.CatsByType | robocasa/models/objects/kitchen_objects.py:2651-2673 | The append loop of `get_cats_by_type` equals `CatsOfTypes` over the table's names in order. |
| Groups.CatsOfTypesOk | robocasa/models/objects/kitchen_objects.py:2665-2668 | The lookup fails only when some category's `types` is not a string, tuple or list (a missing `types` is a KeyError). |
| Groups.CatsOfTypesMembers | robocasa/models/objects/kitchen_objects.py:2664-2671 | A category is in the result iff one of its tags is in the requested set. A bare string is one tag, and `()` matches nothing. |
| Groups.CatsOfTypesDistinct | robocasa/models/objects/kitchen_objects.py:2664-2671 | Each category appears at most once. |
| Groups.CatsOfTypesOrdered | robocasa/models/objects/kitchen_objects.py:2664-2671 | The result keeps the scan order: for `i < j`, `r[i]` comes before `r[j]` in the table's names. |
| Groups.TypeSetExact | robocasa/models/objects/kitchen_objects.py:2684-2691 | `all_types` holds exactly the tags of some category, and it fails only on an unreadable `types`. |
| Groups.OrderedDictLaw | robocasa/models/objects/kitchen_objects.py:2677-2740 | Dict assignment in sequence: the key order is the order of first assignment, the keys are exactly the assigned ones, and each maps to its last assigned value. |
| Groups.AddSingletons | robocasa/models/objects/kitchen_objects.py:2681-2682 | The loop assigns `[k]` to every category name, in table order. |
| Groups.CollectTypes | robocasa/models/objects/kitchen_objects.py:2684-2691 | The union loop equals `TypeSet`. |
| Groups.AddTypeGroups | robocasa/models/objects/kitchen_objects.py:2694-2695 | The loop assigns every type its `get_cats_by_type([t])`, in the given iteration order. |
| Groups.AddFoodGroups | robocasa/models/objects/kitchen_objects.py:2697-2720 | Assigns `food` and then `in_container`, both to the categories of the eight food types. |
| Groups.AddCustomGroups | robocasa/models/objects/kitchen_objects.py:2722-2740 | Assigns the seven fixed custom groups in program order. |
| Groups.AddClosingGroups | robocasa/models/objects/kitchen_objects.py:2697-2740 | The food groups followed by the custom groups. |
| Groups.BuildGroups | robocasa/models/objects/kitchen_objects.py:2677-2740 | The whole construction of `OBJ_GROUPS` equals `GroupsSpec` for the iteration order of `all_types`. |
| Groups.GroupsFailOnlyOnUnreadableTags | robocasa/models/objects/kitchen_objects.py:2684-2695 | The build succeeds iff every `types` is readable, and then the index is a well-formed ordered dict. |
| Groups.GroupKeyOrder | robocasa/models/objects/kitchen_objects.py:2677-2740 | The keys are the first occurrences of `all`, then the names, then the types, then the fixed groups. |
| Groups.AllGroupFirst | robocasa/models/objects/kitchen_objects.py:2677-2679 | `all` is the first key. |
| Groups.AllGroup | robocasa/models/objects/kitchen_objects.py:2677-2682 | The `all` group holds every category in table order when no category or tag is named `all`. |
| Groups.SingletonGroup | robocasa/models/objects/kitchen_objects.py:2681-2682 | A category whose name is neither a tag nor a fixed group keeps its singleton group `[c]`. |
| Groups.TypeGroupExact | robocasa/models/objects/kitchen_objects.py:2694-2695 | A type group `t` that is not a fixed group holds exactly the categories tagged `t`, each once, and they appear in the order of the table's names. |
| Groups.FoodGroupsExact | robocasa/models/objects/kitchen_objects.py:2697-2720 | `food` and `in_container` both end as the food-type list, whatever an earlier type group called `food` held. |
| Groups.FoodGroupMembers | robocasa/models/objects/kitchen_objects.py:2697-2708 | The food list holds exactly the categories with a food-type tag, each once, in the order of the table's names. |
| Groups.CustomGroupsExact | robocasa/models/objects/kitchen_objects.py:2722-2740 | Each custom group ends as its literal list. |
| Groups.FixedGroupValue | robocasa/models/objects/kitchen_objects.py:2697-2740 | Every fixed group ends as its last assignment in the closing statements. |
| Groups.EarlyGroupValue | robocasa/models/objects/kitchen_objects.py:2677-2695 | A key that is not a fixed group ends as its last assignment among `all`, the singletons and the type groups. |
| TableExcerpt.KettleObjaverseSplit | robocasa/models/objects/kitchen_objects.py:898-945 | Both kettles use the folder `objaverse/kettle`, and for every index below 29 the electric kettle excludes `kettle_i` iff the non-electric one keeps it. |
| TableExcerpt.KettleAigenSplit | robocasa/models/objects/kitchen_objects.py:914-944 | The two aigen exclude lists are complementary over `kettle_0`..`kettle_10`. |
| TableExcerpt.PanPotSplit | robocasa/models/objects/kitchen_objects.py:1152-1199 | Pan and pot share `objaverse/pan`. Among `pan_0`..`pan_24`, pot excludes all but the four pot instances, and pan excludes exactly those four plus `pan_16`. |
| TableExcerpt.IndexedMembers | robocasa/models/objects/kitchen_objects.py:908-912 | A filtered comprehension over `range(n)` holds `prefix_i` iff `i < n` and `i` meets the filter. |
| TableExcerpt.FruitTags | robocasa/models/objects/kitchen_objects.py:946-963 | `kiwi`'s `("fruit")` is the one tag `fruit`; the category `fruit` (its entry at lines 2504-2515) is tagged `food`. |
| TableExcerpt.MelonWalnutTags | robocasa/models/objects/kitchen_objects.py:1630-1644 | `melon` (its entry at lines 2552-2563) is tagged `food`, and `walnut`'s `()` is no tag at all. |
| TableExcerpt.UtensilTags | robocasa/models/objects/kitchen_objects.py:1691-1701 | `whisk` is tagged `utensil`, and the category `utensil` (its entry at lines 2624-2635) is tagged `tool`. |
| TableExcerpt.TypeGroupShadowsName | robocasa/models/objects/kitchen_objects.py:2681-2695 | When a category's name is another category's tag, the type group replaces the singleton: the group holds the tagged category and not the category itself. |
| TableExcerpt.FruitAndUtensilGroups | robocasa/models/objects/kitchen_objects.py:2681-2695 | The group `fruit` lists `kiwi` and not the category `fruit`, and the group `utensil` lists `whisk` and not the category `utensil`. |
| TableExcerpt.FoodTagNotInFoodGroup | robocasa/models/objects/kitchen_objects.py:2694-2708 | `food` is a tag, but the composite group replaces its type group: `food` lists `kiwi` and neither `fruit` nor `melon`, the categories tagged `food`. |
| TableExcerpt.UntypedInNoTypeGroup | robocasa/models/objects/kitchen_objects.py:2694-2695 | `walnut`, typed `()`, is in no type group. |
| Sampler.SampleReplay | robocasa/models/objects/kitchen_objects.py:3048-3059 | The replay branch equals `Replay`. The path is rebuilt from the asset root and the last four components, and the registry is the fourth-from-last component. An unknown category or registry is a KeyError and a short path an IndexError. |
| Sampler.ReplayIgnoresDraws | robocasa/models/objects/kitchen_objects.py:3048-3059 | Replay does not depend on the draw. It returns the caller's info with only `mjcf_path` replaced. |
| Sampler.ReplayRebuildsPath | robocasa/models/objects/kitchen_objects.py:3052-3053 | For a path whose last four components are `reg/…`, the rebuilt path is the asset root joined with those four components, and its fourth-from-last component is `reg`. |
| Sampler.ReplayOfAigenPathFails | robocasa/models/objects/kitchen_objects.py:3052-3054 | A replayed path whose fourth-from-last component is `aigen_objs` is a KeyError, because descriptors are keyed `aigen`. |
| Sampler.ReverseLookup | robocasa/models/objects/kitchen_objects.py:3071-3082 | The nested search loop equals `FirstOwner`: categories in table order, registries in request order. |
| Sampler.FirstOwnerExact | robocasa/models/objects/kitchen_objects.py:3071-3084 | No owner is found iff no (category, requested registry) lists the path. Otherwise the result owns it, and no earlier category and no earlier registry of that category does. |
| Sampler.ExactPathMode | robocasa/models/objects/kitchen_objects.py:3065-3085 | A `.xml` groups string fails iff no requested registry of any category lists it. Otherwise the owner is the first one in table order, then in request order: the sample's category is that owner's, its kwargs copy that owner's descriptor (scaled by `object_scale`), and `mjcf_path` is the given path. |
| Sampler.CollectInvalid | robocasa/models/objects/kitchen_objects.py:3097-3100 | The append loop equals `InvalidCats`, and an unknown group is a KeyError. |
| Sampler.InvalidCatsExact | robocasa/models/objects/kitchen_objects.py:3097-3100 | The excluded categories are exactly the members of the excluded groups. |
| Sampler.FlagsInvalid | robocasa/models/objects/kitchen_objects.py:3118-3132 | The flag loop marks a category invalid iff some flag requested as `True` is not held in some requested registry where the category is present. |
| Sampler.CollectValid | robocasa/models/objects/kitchen_objects.py:3102-3137 | The nested candidate loops equal `ValidOver`. |
| Sampler.ValidOverExact | robocasa/models/objects/kitchen_objects.py:3102-3137 | The candidates have no duplicates. A category is a candidate iff it is in a requested group, is not excluded, is present in some requested registry and meets every requested flag in every requested registry where it is present. |
| Sampler.SplitPartition | robocasa/models/objects/kitchen_objects.py:3229-3234 | Split `A` followed by split `B` is the whole list, and the cut is at `max(#registries - 3, ceil(n/2))`, clamped to the list. |
| Sampler.SplitSublist | robocasa/models/objects/kitchen_objects.py:3228-3237 | Every path kept by a split is in the descriptor's `mjcf_paths`. |
| Sampler.DefaultSplitIsHalf | robocasa/models/objects/kitchen_objects.py:3230 | With the three default registries the threshold is `ceil(n/2)`. |
| Sampler.FillChoices | robocasa/models/objects/kitchen_objects.py:3224-3237 | The loop that fills `choices` equals `ChoicesMap`. `len(choices)` is the number of distinct requested registries. |
| Sampler.InvalidSplitFails | robocasa/models/objects/kitchen_objects.py:3235-3236 | In group mode a split other than `None`, `A` or `B` is an error. |
| Sampler.RegistryWeights | robocasa/models/objects/kitchen_objects.py:3224-3242 | A registry's weight is its post-split list length, and a registry lacking the category weighs 0. |
| Sampler.PickIndexExact | robocasa/models/objects/kitchen_objects.py:3239-3243 | The weighted choice by a draw below the total picks `i` iff the draw lies in `i`'s cumulative interval. |
| Sampler.PickIndexWeight | robocasa/models/objects/kitchen_objects.py:3239-3243 | The chosen registry has a positive weight. |
| Sampler.GroupsContaining | robocasa/models/objects/kitchen_objects.py:3252-3255 | The loop equals `Containing`. |
| Sampler.ContainingExact | robocasa/models/objects/kitchen_objects.py:3252-3255 | `groups_containing_sampled_obj` is exactly the groups whose lists contain the category, in index order and each once. |
| Sampler.ScaledCopy | robocasa/models/objects/kitchen_objects.py:2839-2852 | The kwargs are the descriptor's six fields with `mjcf_path` added, and `scale` is multiplied by `object_scale` when one is given. |
| Sampler.GroupModeSample | robocasa/models/objects/kitchen_objects.py:3087-3263 | A group-mode sample has these properties. Its category is in a requested group and in no excluded group. It is present in a requested registry and meets the requested flags. Its path is in the chosen registry's post-split list and so in its `mjcf_paths`. The info echoes the groups list and split, and `groups_containing` is exact. |
| Sampler.SampleFromGroups | robocasa/models/objects/kitchen_objects.py:3087-3263 | The group branch equals `GroupSpec`. |
| Sampler.SampleKitchenObjectHelper | robocasa/models/objects/kitchen_objects.py:2999-3267 | The helper equals `HelperSpec`: replay first, then an exact path, else group mode. |
| Sampler.CheckSize | robocasa/models/objects/kitchen_objects.py:2990-2993 | The axis loop accepts exactly when the `Accepts` test holds. |
| Sampler.AcceptsExact | robocasa/models/objects/kitchen_objects.py:2983-2993 | The size is accepted iff every non-None bound `max_size[i]` is at least the size on that axis, where the size is `(2·hr_x, 2·hr_y, top_z - bottom_z)·scale`. |
| Sampler.SampleKitchenObject | robocasa/models/objects/kitchen_objects.py:2946-2996 | The rejection loop equals `SampleSpec`: the first accepted attempt over the supply of draws. |
| Sampler.SampleIsFirstAccepted | robocasa/models/objects/kitchen_objects.py:2946-2993 | A returned sample is the accepted result of some draw, and every earlier draw was rejected. |
| Sampler.AcceptedSampleFits | robocasa/models/objects/kitchen_objects.py:2964-2993 | An accepted sample's file has the three anchor sites, and its size is within every given bound. |
| Sampler.FirstAcceptedError | robocasa/models/objects/kitchen_objects.py:2946-2993 | The loop runs out of draws iff every attempt is rejected, or the first non-rejected attempt itself ran out. |
| Sampler.RejectedReplayNeverEnds | robocasa/models/objects/kitchen_objects.py:2946-2993 | A replayed sample that is rejected once is rejected forever. Replay ignores the rng, so the source loop never ends. |
| CabinetPanels.HasTex | robocasa/models/fixtures/cabinet_panels.py:84 | The substring test: true iff `"tex"` occurs at some position. |
| CabinetPanels.ExcludeFromPrefixing | robocasa/models/fixtures/cabinet_panels.py:74-91 | A string is excluded iff it contains `"tex"`. An element is excluded iff its tag is `texture`. |
| CabinetPanels.PadsTable | robocasa/models/fixtures/cabinet_panels.py:127-142 | Only `bar`, `knob` and `boxed` have pads. `bar` gives (vpad 0.20, hpad 0.05), `knob` gives (0.05, 0.05) and `boxed` gives (0.20, 0.05). |
| CabinetPanels.HandleErrors | robocasa/models/fixtures/cabinet_panels.py:127-171 | No handle type adds no handle. A type other than `bar`, `knob` or `boxed` raises NotImplementedError. A known type without a config fails with TypeError when the handle is built. With a config, a position outside the three named ones on either axis raises NotImplementedError, and a known type with a config and named positions always yields a handle. |
| CabinetPanels.HandleMirror | robocasa/models/fixtures/cabinet_panels.py:155-173 | Top and bottom are mirror images in `z`, left and right in `x`; centre is on the axis and `y` is 0. A handle at the top, bottom, left or right edge is exactly its pad (`vpad` or `hpad`) away from that edge. |
| CabinetPanels.HandleInset | robocasa/models/fixtures/cabinet_panels.py:155-173 | When the panel is at least two pads wide and high, the handle lies within the panel face. |
| CabinetPanels.SizeMustHaveThreeParts | robocasa/models/fixtures/cabinet_panels.py:240-241 | Building a panel fails iff the size is not a triple or the handle fails; a size that is not a triple is a ValueError. |
| CabinetPanels.SlabFillsPanel | robocasa/models/fixtures/cabinet_panels.py:204-207 | The slab's only geom is the door, with half-extents `size/2`, centred at the origin. |
| CabinetPanels.ShakerEdges | robocasa/models/fixtures/cabinet_panels.py:240-262 | With half-extents `x`, `z` and half trim `ts`: the side trims span from their outer edges at `±x` over the full height, the door's half-width `x - 2ts` meets their inner edges, and the top and bottom trims lie at `±(z - ts)`. |
| CabinetPanels.ShakerTilesFace | robocasa/models/fixtures/cabinet_panels.py:240-262 | When the trims fit, the five pieces cover the whole face and overlap nowhere. |
| CabinetPanels.RaisedKeepsShaker | robocasa/models/fixtures/cabinet_panels.py:310-329 | The raised panel keeps the shaker geoms and adds `door_raised` with half-extents `(x - 2ts - 2·gap/2, trim_th/2, z - 2ts - 2·gap/2)`, centred at `(0, -(y - trim_th/2)/2, 0)`. |
| CabinetPanels.DividedWindowFrame | robocasa/models/fixtures/cabinet_panels.py:383-400 | The divided window has the shaker frame plus `vert_trim` (half-width `ts/3.5`, full height) and `horiz_trim` (half-height `ts/3.5`), both centred at `(0, trim_y, 0)`. |
| CabinetPanels.FullWindowedIsShaker | robocasa/models/fixtures/cabinet_panels.py:438-444 | The full-windowed panel's layout is the shaker layout. |
| CabinetPanels.ShelfFillsSize | robocasa/models/fixtures/cabinet_panels.py:553-560 | The shelf box spans exactly `size[i]` on every axis and is centred on the given position, or on `[0,0,0]` when none is given (the default set at line 491). |
| AssetPaths.EditModelXml | robocasa/demos/demonstrate_objects.py:39-64 | Every element of `<asset>` ends as the single-element edit of its old value. |
| AssetPaths.VisitTag | robocasa/demos/demonstrate_objects.py:46-64 | One pass over the elements of one tag rewrites each one that has a `file` and leaves every other element as it was. |
| AssetPaths.EditTouchesOnlyCandidateFiles | robocasa/demos/demonstrate_objects.py:45-53 | Tags never change. An element that is not a `mesh` or `texture`, or that has no `file`, is untouched, and a `file` is neither added nor removed. |
| AssetPaths.LastRobosuiteExact | robocasa/demos/demonstrate_objects.py:57-61 | The search gives -1 iff no component is `robosuite`. Otherwise it gives an index holding `robosuite` after which none occurs. |
| AssetPaths.NoRobosuiteUnchanged | robocasa/demos/demonstrate_objects.py:55-60 | A path with no `robosuite` component is left unchanged. |
| AssetPaths.RewrittenComponents | robocasa/demos/demonstrate_objects.py:55-64 | The old path is its prefix, the last `robosuite` and a suffix with no `robosuite`. The new path's components are the install components followed by that suffix. |
| AssetPaths.RewriteIdempotent | robocasa/demos/demonstrate_objects.py:39-64 | When the install directory ends in `robosuite`, rewriting a rewritten path changes nothing. |
| Paths.JoinSplit | robocasa/demos/demonstrate_objects.py:55-63 | Joining the `/`-split components of a string gives the string back. |
| Paths.SplitJoin | robocasa/demos/demonstrate_objects.py:62-63 | Splitting a join of separator-free components gives the components back. |

## Left out

- The module-level `json.load`/`torch.load` of `all_infos.json` and `rank_info.pt`: opaque external data. `cfg` carries only the optional replay `info`.
- The distractor branch of the helper (`target_obj_name` with `"distr"` in the configuration name): a float32 rank weighting, `argsort` and a top-30 cut over tensors loaded from files. A request in the model always takes the ordinary registry branch.
- `os.walk`: passed in as data (`FileTree`, a list of `(root, files)` per walked folder, in walk order). A missing folder yields nothing.
- `ET.parse` and the reading of the three anchor sites: passed in as a map from model path to the three optional site positions. A file outside the map is a `FileError`, and a missing site is an `AttributeError`.
- Distributions of `rng.choice`: the rng is an oracle of natural numbers (`Draw`). A choice is `list[d % n]`, and the weighted registry choice is an inverse-CDF pick over the integer weights. Only membership and positivity of the weight are proved.
- Sampler.SampleKitchenObject: the source loop has no retry cap. The model runs over a finite supply of draws and returns `DrawsExhausted` when every draw is rejected. So non-termination appears only as that result (see `RejectedReplayNeverEnds`).
- The iteration order of the Python set `all_types` is a parameter (`order`) of the group build. Any enumeration of the set is accepted.
- The numeric scale values of the table, and list-valued `scale *= object_scale`: `scale` is one real number. Other value shapes the constructor would store unchanged are reported as `Unsupported`.
- ObjectCategories.NumOr: a per-axis list `scale` is `Unsupported`. Six categories of the real table carry one (`bar`, `bar_soap`, `bread`, `chocolate`, `fish` and `steak`), so the model's build of the whole real table ends in `Err(Unsupported)` at `bar`. The registry properties are proved for every table, and they apply to tables whose scales are single numbers.
- Floating point: sizes, trims, pads, scales and the object size are Python floats, and the model computes them in exact real arithmetic. The exact equalities of the panel lemmas (`ShakerEdges`, `ShakerTilesFace`, `HandleMirror`, `HandleInset`, `RaisedKeepsShaker`, `ShelfFillsSize`) and the boundary case of the size test (`AcceptsExact`) hold only up to rounding in the program. With `size[0] = 0.3` and the default trim size 0.08, for example, the door's left edge and the left trim's inner edge differ in the last bit.
- `print` calls: they have no effect on results.
- In replay mode the source mutates the caller's `info` dict in place (`ori_info['mjcf_path'] = …`), and the caller sees the change through aliasing. The model returns the updated record instead.
- The robosuite install directory: its path is a parameter of `EditModelXml`. The XML parse and serialise around `edit_model_xml`, and a document without an `<asset>` element, are not modelled.
- The order of `pot`'s objaverse exclude list: the source builds it with `list(set(...) - set(...))`, whose order is arbitrary. The excerpt writes it in index order, and only its membership is used.
- The excerpt holds ten entries of the table (`kettle_electric`, `kettle_non_electric`, `kiwi`, `pan`, `pot`, `walnut`, `whisk`, `fruit`, `melon`, `utensil`). The rest of the table enters the proofs as an arbitrary `Table` parameter.
- In cabinet_panels.py, the XML element plumbing:
  - `MujocoXMLObject`, whose code is not part of this model;
  - `set_geom_dimensions`;
  - the texture and material `set` calls and `_set_opacity`;
  - creating the handle objects and `merge_assets`.

  The model computes the size and position dictionaries and the handle position that these calls receive.
- The callers of the cabinet panels: the constructor's defaults (`handle_type="bar"` with `handle_config=None`) fail with TypeError when the handle is built, and the model states that failure (`HandleErrors`). The fixtures that supply real configs are not part of this model.
- In demonstrate_objects.py: `read_model`, rendering, file output and the command-line entry point.
- The other scripts, the coffee task and the hood fixture: they render, copy files or depend on simulator classes that are not part of this model.
