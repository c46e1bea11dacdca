/**
 The avatar's material configuration as an object: the constructor and
 AddMaterialLocation fill its dictionary in place, Map builds a fresh
 configuration, and Applymaterials writes the index back into the scene's
 renderers.
 */
module Configuration {
  import opened MaterialIndex
  import opened Remapping

  class AvatarMaterialConfiguration {
    /** The avatar the index was sampled from; informational only. */
    const avatar: GameObject
    /** The dictionary's keys in insertion order, i.e. its iteration order. */
    var order: seq<Material>
    /** The dictionary: material to the locations that use it. */
    var materials: map<Material, seq<Location>>

    /** The index held by this object, as a value. */
    function Contents(): Index
      reads this
    {
      Index(order, materials)
    }

    ghost predicate Valid()
      reads this
    {
      WellFormed(Contents()) && DistinctLocations(Contents())
    }

    /** Builds the inverse index of a sample: every slot is added under the material it holds. */
    constructor (avatar: GameObject, objectMaterialData: Sample)
      requires DistinctMeshes(objectMaterialData)
      ensures Valid()
      ensures this.avatar == avatar
      ensures Contents() == IndexOf(objectMaterialData)
    {
      this.avatar := avatar;
      order := [];
      materials := map[];
      new;
      var data := objectMaterialData;
      var k := 0;
      while k < |data|
        invariant 0 <= k <= |data|
        invariant WellFormed(Contents())
        invariant Contents() == AddAll(Empty, Flatten(data[..k]))
      {
        AddSlots(data[k].0, data[k].1);
        AddAllAppend(Empty, Flatten(data[..k]), Slots(data[k].0, data[k].1));
        FlattenSnoc(data, k);
        k := k + 1;
      }
      assert data[..k] == data;
      IndexDistinct(data);
    }

    /** The constructor's inner loop: adds every slot of one game object, in slot order. */
    method AddSlots(mesh: GameObject, list: seq<Material>)
      requires WellFormed(Contents())
      modifies this
      ensures WellFormed(Contents())
      ensures Contents() == AddAll(old(Contents()), Slots(mesh, list))
    {
      ghost var slots: seq<Assignment> := [];
      var i := 0;
      while i < |list|
        invariant 0 <= i <= |list|
        invariant WellFormed(Contents())
        invariant slots == Slots(mesh, list[..i])
        invariant Contents() == AddAll(old(Contents()), slots)
      {
        var material := list[i];
        AddMaterialLocation(material, mesh, i);
        ghost var added := (material, Location(mesh, i));
        AddAllSnoc(old(Contents()), slots, added);
        SlotsSnoc(mesh, list, i);
        slots := slots + [added];
        i := i + 1;
      }
      assert list[..i] == list;
    }

    /** Appends a location to a material's bucket, creating the bucket on first sight. */
    method AddMaterialLocation(material: Material, mesh: GameObject, slotIndex: nat)
      requires WellFormed(Contents())
      modifies this
      ensures WellFormed(Contents())
      ensures Contents() == Add(old(Contents()), (material, Location(mesh, slotIndex)))
    {
      var location := Location(mesh, slotIndex);
      if material in materials {
        materials := materials[material := materials[material] + [location]];
      } else {
        order := order + [material];
        materials := materials[material := [location]];
      }
    }

    /** The inner loop of Map: re-adds a bucket's locations, in order, under one material. */
    method AddBucket(material: Material, locations: seq<Location>)
      requires WellFormed(Contents())
      modifies this
      ensures WellFormed(Contents())
      ensures Contents() == AddAll(old(Contents()), Block(material, locations))
    {
      ghost var block: seq<Assignment> := [];
      var j := 0;
      while j < |locations|
        invariant 0 <= j <= |locations|
        invariant WellFormed(Contents())
        invariant block == Block(material, locations[..j])
        invariant Contents() == AddAll(old(Contents()), block)
      {
        var location := locations[j];
        AddMaterialLocation(material, location.mesh, location.slot);
        ghost var added := (material, location);
        AddAllSnoc(old(Contents()), block, added);
        BlockSnoc(material, locations, j);
        block := block + [added];
        j := j + 1;
      }
      assert locations[..j] == locations;
    }

    /**
     The read-only view of the dictionary: every key has a non-empty bucket
     and every listed location is owned by exactly that key.
     */
    function Materials(): (r: map<Material, seq<Location>>)
      reads this
      requires Valid()
      ensures r == Contents().buckets
      ensures forall m :: m in r <==> m in order
      ensures forall m :: m in r ==> r[m] != []
      ensures forall m, l :: m in r && l in r[m] ==> Lookup(Contents(), l) == Some(m)
    {
      var r := materials;
      assert forall m, l :: m in r && l in r[m] ==> Lookup(Contents(), l) == Some(m) by {
        forall m, l | m in r && l in r[m] ensures Lookup(Contents(), l) == Some(m) {
          LookupChar(Contents(), l, m);
        }
      }
      r
    }

    /** A fresh configuration of the same avatar, each bucket re-added under its replacement. */
    method Map(replacementMap: map<Material, Material>) returns (transformed: AvatarMaterialConfiguration)
      requires Valid()
      ensures fresh(transformed) && transformed.Valid()
      ensures transformed.avatar == avatar
      ensures transformed.Contents() == Remap(Contents(), replacementMap)
    {
      transformed := new AvatarMaterialConfiguration(avatar, []);
      transformed.AddBuckets(order, materials, replacementMap);
      RemapShape(Contents(), replacementMap);
    }

    /** The loops of Map: re-adds every bucket, key by key, under the key's replacement. */
    method AddBuckets(keys: seq<Material>, buckets: map<Material, seq<Location>>, replacementMap: map<Material, Material>)
      requires WellFormed(Contents())
      requires forall m :: m in keys ==> m in buckets
      modifies this
      ensures WellFormed(Contents())
      ensures Contents() == AddAll(old(Contents()), Reassigned(keys, buckets, replacementMap))
    {
      ghost var done: seq<Assignment> := [];
      var k := 0;
      while k < |keys|
        invariant 0 <= k <= |keys|
        invariant WellFormed(Contents())
        invariant done == Reassigned(keys[..k], buckets, replacementMap)
        invariant Contents() == AddAll(old(Contents()), done)
      {
        var originalMaterial := keys[k];
        var newMaterial := if originalMaterial in replacementMap then replacementMap[originalMaterial] else originalMaterial;
        AddBucket(newMaterial, buckets[originalMaterial]);
        AddAllAppend(old(Contents()), done, Block(newMaterial, buckets[originalMaterial]));
        ReassignedSnoc(keys, buckets, replacementMap, k);
        done := done + Block(newMaterial, buckets[originalMaterial]);
        k := k + 1;
      }
      assert keys[..k] == keys;
    }
  }

  /** The renderers of the scene: the material array of every game object that has one. */
  class Scene {
    var renderers: map<GameObject, array<Material>>

    /** Distinct game objects own distinct material arrays. */
    ghost predicate Valid()
      reads this
    {
      forall g1, g2 :: g1 in renderers && g2 in renderers && g1 != g2 ==> renderers[g1] != renderers[g2]
    }
  }

  /**
   Writes a material into one slot: only that slot of that object's array
   changes; nothing happens when the object has no renderer. There is no
   bounds check, so the slot must exist.
   */
  method ApplyMaterial(scene: Scene, location: Location, material: Material)
    requires scene.Valid()
    requires location.mesh in scene.renderers ==> location.slot < scene.renderers[location.mesh].Length
    modifies if location.mesh in scene.renderers then {scene.renderers[location.mesh]} else {}
    ensures location.mesh in scene.renderers ==>
      scene.renderers[location.mesh][..] == old(scene.renderers[location.mesh][..])[location.slot := material]
    ensures forall g :: g in scene.renderers && g != location.mesh ==> scene.renderers[g][..] == old(scene.renderers[g][..])
  {
    if location.mesh in scene.renderers {
      var sharedMaterials := scene.renderers[location.mesh];
      sharedMaterials[location.slot] := material;
    }
  }

  /** An object's material array after applying an index: indexed slots take their material. */
  function Applied(ix: Index, mesh: GameObject, before: seq<Material>): seq<Material>
  {
    seq(|before|, s requires 0 <= s < |before| => Lookup(ix, Location(mesh, s)).GetOr(before[s]))
  }

  /**
   Every indexed slot of an object ends up holding its bucket's material, and
   every slot the index does not list keeps its material.
   */
  lemma AppliedSlots(ix: Index, mesh: GameObject, before: seq<Material>)
    requires WellFormed(ix) && DistinctLocations(ix)
    ensures |Applied(ix, mesh, before)| == |before|
    ensures forall m, s :: 0 <= s < |before| && m in ix.buckets && Location(mesh, s) in ix.buckets[m] ==>
      Applied(ix, mesh, before)[s] == m
    ensures forall s :: 0 <= s < |before| && Location(mesh, s) !in Locations(ix) ==>
      Applied(ix, mesh, before)[s] == before[s]
  {
    forall m, s | 0 <= s < |before| && m in ix.buckets && Location(mesh, s) in ix.buckets[m]
      ensures Applied(ix, mesh, before)[s] == m
    {
      LookupChar(ix, Location(mesh, s), m);
    }
    forall s | 0 <= s < |before| && Location(mesh, s) !in Locations(ix)
      ensures Applied(ix, mesh, before)[s] == before[s]
    {
      LocationsLookup(ix, Location(mesh, s));
    }
  }

  /** Writes every bucket's material into each of its locations, bucket by bucket. */
  method Applymaterials(config: AvatarMaterialConfiguration, scene: Scene)
    requires config.Valid() && scene.Valid()
    requires forall l :: l in Locations(config.Contents()) && l.mesh in scene.renderers ==>
      l.slot < scene.renderers[l.mesh].Length
    modifies scene.renderers.Values
    ensures forall g :: g in scene.renderers ==>
      scene.renderers[g][..] == Applied(config.Contents(), g, old(scene.renderers[g][..]))
  {
    var ix := config.Contents();
    var k := 0;
    while k < |config.order|
      invariant 0 <= k <= |config.order|
      invariant forall g, s :: g in scene.renderers && 0 <= s < scene.renderers[g].Length ==>
        scene.renderers[g][s] == LookupIn(ix.order[..k], ix.buckets, Location(g, s)).GetOr(old(scene.renderers[g][s]))
    {
      var material := config.order[k];
      var locations := config.materials[material];
      var j := 0;
      while j < |locations|
        invariant 0 <= j <= |locations|
        invariant forall g, s :: g in scene.renderers && 0 <= s < scene.renderers[g].Length ==>
          scene.renderers[g][s] ==
            LookupIn(ix.order[..k], ix.buckets, Location(g, s)).GetOr(
              if Location(g, s) in locations[..j] then material else old(scene.renderers[g][s]))
      {
        var location := locations[j];
        NotInEarlierKeys(ix, k, location);
        assert location in Locations(ix);
        ApplyMaterial(scene, location, material);
        assert locations[..j + 1] == locations[..j] + [location];
        j := j + 1;
      }
      assert locations[..j] == locations;
      assert ix.order[..k + 1][..k] == ix.order[..k];
      k := k + 1;
    }
    assert ix.order[..k] == ix.order;
  }
}
