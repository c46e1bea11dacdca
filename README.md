# Material assignment index of the material replacer

This project models the core of an editor tool that swaps materials on an
avatar. It has five parts:

- An **assignment index** (`AvatarMaterialConfiguration`) maps each material
  to the locations that use it. A location is a (game object, slot index)
  pair.
- The index is built from a sample: each game object with its ordered list of
  materials.
- **`Map`** builds a fresh index in which every bucket is re-filed under its
  replacement material.
- **`Applymaterials`** writes every bucket's material back into the slots it
  lists.
- A **default replacement plan** (`MaterialReplacementSettings`) maps every
  material to "no replacement" and selects every location.

The files:

- `MaterialIndex.dfy` holds the value-level model:
  - the handles, the `Location` value that stands for `MaterialLocation` and
    its constructor, the sample and the `Index` value;
  - `Add`, the effect of one `AddMaterialLocation`, and `IndexOf`, the index
    of a sample;
  - the theorems about the constructed index.
- `Remapping.dfy` holds the value-level meaning of `Map`:
  - `Remap` re-adds every bucket under `Target(rm, m)`, in key order;
  - its theorems;
  - a worked example.
- `Configuration.dfy` holds the classes:
  - `AvatarMaterialConfiguration` has the avatar, the dictionary's keys in
    insertion order, and the dictionary itself. Its constructor,
    `AddMaterialLocation` and `Map` update these fields: the constructor and
    `Map` in loops, `AddMaterialLocation` in one step. Each is proved against
    the functions above.
  - `Scene` holds one material array per game object that has a renderer.
    `ApplyMaterial` and `Applymaterials` write into those arrays in place.
- `ReplacementSettings.dfy` holds the settings value and its derivation from
  a configuration.

Where the code and its intended behaviour disagree, the model neither skips the case nor throws: it excludes the input.

- **Null materials and out-of-range slots.** The tool is meant to skip these
  silently; the code does not. It inserts a material as a dictionary key without a
  check, which throws on a null key. It also writes `materials[SlotIndex]`
  without a bounds check. The model therefore excludes null materials by type
  and requires slots to be in bounds.
- **`Materials` visibility.** The settings constructor reads `Materials`,
  which is declared `private`. It is modelled as a read-only view of the
  dictionary.

The code iterates a C# `Dictionary`, whose enumeration order .NET leaves
undefined. The model fixes it as insertion order, held in the `order` field,
and every ordering property is stated relative to it.

The constructor's inner loop and `Map`'s two loops live in their own methods:
`AddSlots`, `AddBuckets` and `AddBucket`. Each is proved against a
specification function, so the loop invariants stay small.

## Model

| member | source | states |
|---|---|---|
| MaterialIndex.Add | Editor/AvatarMaterialConfiguration.cs:31-39 | adding a location creates the material's key on first sight, appended to the key order; an existing key keeps its place. A new bucket is exactly the one location; an existing bucket keeps its earlier locations and gains the new one at the end; every other bucket is unchanged. Adding keeps the index well formed: distinct keys, keys equal to the order, no empty bucket. |
| MaterialIndex.IndexShape | Editor/AvatarMaterialConfiguration.cs:14-29 | the index of a sample is well formed. Its key set is exactly the set of materials in the sample, and no bucket is empty. Each bucket is the sample's slots holding that material, in flattening order. An empty sample gives the empty index. |
| MaterialIndex.EverySlotIndexed | Editor/AvatarMaterialConfiguration.cs:19-28 | for every game object and every slot i of its list, (object, i) is in the bucket of list[i] |
| MaterialIndex.IndexedAreSlots | Editor/AvatarMaterialConfiguration.cs:19-28 | every indexed location is a slot of the sample that holds exactly that bucket's material |
| MaterialIndex.IndexDistinct | Editor/AvatarMaterialConfiguration.cs:14-29 | when the sample has distinct game objects, no location occurs twice, whether in one bucket or in two |
| MaterialIndex.RoundTrip | Editor/AvatarMaterialConfiguration.cs:14-29 | looking a location up in the index gives exactly the material the sample has in that slot, and nothing for a slot the sample lacks; regrouping by location reproduces every input list |
| MaterialIndex.EncounterOrder | Editor/AvatarMaterialConfiguration.cs:19-38 | within each bucket, locations are in encounter order: game objects in sample order, then ascending slot |
| MaterialIndex.BeforeStrict | Editor/AvatarMaterialConfiguration.cs:19-27 | the encounter order between two slots is decided exactly by the objects' positions in the sample and then by slot index |
| MaterialIndex.LocationCount | Editor/AvatarMaterialConfiguration.cs:19-28 | the index's locations are exactly the sample's slots, one location per slot |
| Remapping.RemapShape | Editor/AvatarMaterialConfiguration.cs:41-59 | the result of Map is again a well-formed index without repeated locations. Its keys are the replacement targets of the original keys. A target's bucket is the concatenation, in key order, of the buckets of all keys that map to it, so merging is covered. |
| Remapping.MapLookup | Editor/AvatarMaterialConfiguration.cs:45-56 | after Map, each location's material is replacementMap[orig] when orig is a key and orig otherwise. The set of locations is unchanged. |
| Remapping.MapIdentity | Editor/AvatarMaterialConfiguration.cs:48-50 | a replacement map that is empty, or whose entries on the index's keys are all identities, gives back the same index |
| Remapping.ScenarioIndex | Editor/AvatarMaterialConfiguration.cs:14-39 | a concrete case: objects {g1: [x, y], g2: [x]} give x at (g1,0), (g2,0) and y at (g1,1) |
| Remapping.ScenarioRemap | Editor/AvatarMaterialConfiguration.cs:41-59 | in that case, replacing x by z moves both of x's locations to z, keeps y's location, and puts z first in key order |
| Configuration.AvatarMaterialConfiguration.constructor | Editor/AvatarMaterialConfiguration.cs:14-29 | the new object holds the avatar and exactly the index of the sample. The class invariant holds: well formed, no location twice. |
| Configuration.AvatarMaterialConfiguration.AddSlots | Editor/AvatarMaterialConfiguration.cs:24-27 | adds one game object's slots, in slot order, each under the material it holds |
| Configuration.AvatarMaterialConfiguration.AddMaterialLocation | Editor/AvatarMaterialConfiguration.cs:31-39 | the new state is the old index with the location appended to the material's bucket, the bucket being created first if it is missing |
| Configuration.AvatarMaterialConfiguration.Materials | Editor/AvatarMaterialConfiguration.cs:13 | the view is the dictionary. Its key set is the set of keys in `order`, every bucket is non-empty, and every listed location is owned by exactly its key. |
| Configuration.AvatarMaterialConfiguration.Map | Editor/AvatarMaterialConfiguration.cs:41-59 | returns a fresh configuration of the same avatar whose index is the remapped index. It satisfies the class invariant. The receiver is not modified (no modifies clause). |
| Configuration.AvatarMaterialConfiguration.AddBuckets | Editor/AvatarMaterialConfiguration.cs:45-56 | re-adds every bucket in key order under the key's replacement, or under the key itself when it has none |
| Configuration.AvatarMaterialConfiguration.AddBucket | Editor/AvatarMaterialConfiguration.cs:52-55 | re-adds one bucket's locations, in order, under a single material |
| Configuration.ApplyMaterial | Editor/AvatarMaterialConfiguration.cs:98-107 | writes the material into that one slot of that object's array. Every other slot and every other object is unchanged. A game object without a renderer is left alone. |
| Configuration.AppliedSlots | Editor/AvatarMaterialConfiguration.cs:74-85 | after applying, an object's array has its old length. Every indexed slot holds its bucket's material, and every slot the index does not list keeps its old material. |
| Configuration.Applymaterials | Editor/AvatarMaterialConfiguration.cs:74-85 | every renderer's array ends up equal to its old contents with each indexed slot overwritten by its bucket's material |
| ReplacementSettings.NewSettings | Editor/MaterialReplacementSettings.cs:13-21 | the settings hold the configuration passed in. The replacement map has exactly the configuration's materials as keys, each mapped to no replacement. The selection has exactly the configuration's locations as keys, each selected, with one entry per location. |
| ReplacementSettings.SelectionCount | Editor/MaterialReplacementSettings.cs:18-20 | a valid index has exactly as many distinct locations as (material, location) entries, so building the selection meets no duplicate key |
| ReplacementSettings.SelectionPerSlot | Editor/MaterialReplacementSettings.cs:18-20 | for a configuration built from a sample, the default selection has one entry per slot of the sample |
| ReplacementSettings.NonNullReplacements | Editor/View/AvatarReplacementView.cs:202-204 | a material is a key of the filtered map exactly when its plan entry names a replacement, and then maps to that replacement |
| ReplacementSettings.DefaultPlanKeepsIndex | Editor/MaterialReplacementSettings.cs:16-17 | transforming a configuration with its untouched default plan, after the null filter, gives the same index back |

## Left out

- `ExtractMaterialData` (Editor/AvatarMaterialConfiguration.cs:61-72) queries the Unity scene. Its result is the model's input sample instead.
- The editor windows and views are user-interface drawing, drag and drop, undo registration and scheduling. This covers AvatarReplacementView, SceneWideMaterialReplacementView, MaterialReplacementView, BaseMaterialReplacementView and MaterialReplacerWindow.
- The views call five members that have no body in the configuration class: `HasDifferences`, `MaterialGroups` (path grouping), `TransformMaterials`, a two-argument `Map`, and `ApplyMaterials`. They are not modelled.
- Null materials: `Material` handles are non-null by type. In the code, a null material or a null replacement value throws when it is used as a dictionary key (Editor/AvatarMaterialConfiguration.cs:33). That exception path is not modelled.
- Configuration.ApplyMaterial: requires the slot to lie inside the renderer's array. The code has no bounds check and throws when the slot is out of range. The exception, and the half-finished apply it would leave, are not modelled.
- Configuration.Applymaterials: has the same in-bounds precondition for every indexed location whose game object has a renderer, for the same reason.
- `GetComponent<Renderer>()` is modelled as the partial map `Scene.renderers`. Reading `sharedMaterials`, changing the copy and assigning it back is modelled as a direct write to the object's array.
- `Scene.Valid` assumes that distinct game objects own distinct material arrays. The Unity object model is not part of this model.
- `MaterialLocation` is a class without value equality, so the code keys the selection by reference. The model uses the value pair (game object, slot). The two agree because no location occurs twice in a valid index.
- Slot indices are `nat`, so the 32-bit `int` width of the code does not arise: a material list is far shorter than 2^31.
- The code relies on the `Dictionary` enumeration order. The model fixes it as insertion order (the `order` field) and promises nothing beyond that.
- The sample is a sequence of (game object, materials) pairs with distinct game objects. This stands for the code's `Dictionary<GameObject, List<Material>>`, which the model again takes in insertion order.
- The settings' dictionaries are later edited by the views. Those edits are out of scope.
