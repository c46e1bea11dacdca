/**
 The default replacement plan built beside a configuration: no material is
 replaced yet and every location is selected.
 */
module ReplacementSettings {
  import opened MaterialIndex
  import opened Remapping
  import opened Configuration

  /** `None` in the replacement map is "no replacement chosen"; `true` in the selection is "included". */
  datatype MaterialReplacementSettings = MaterialReplacementSettings(
    avatarMaterialConfig: AvatarMaterialConfiguration,
    replacementMap: map<Material, Option<Material>>,
    selectedMeshLocations: map<Location, bool>)

  /**
   The settings of a configuration: the configuration itself, every indexed
   material mapped to no replacement, every indexed location selected, one
   selection entry per location.
   */
  function NewSettings(config: AvatarMaterialConfiguration): (s: MaterialReplacementSettings)
    reads config
    requires config.Valid()
    ensures s.avatarMaterialConfig == config
    ensures s.replacementMap.Keys == config.materials.Keys
    ensures forall m :: m in s.replacementMap ==> s.replacementMap[m] == None
    ensures s.selectedMeshLocations.Keys == Locations(config.Contents())
    ensures forall l :: l in s.selectedMeshLocations ==> s.selectedMeshLocations[l]
    ensures |s.selectedMeshLocations| == |Assignments(config.Contents())|
  {
    var view := config.Materials();
    var locations := set m, l | m in view && l in view[m] :: l;
    SelectionCount(config.Contents());
    MaterialReplacementSettings(config, map m | m in view :: None, map l | l in locations :: true)
  }

  /** Every location of a valid index is one entry: as many locations as assignments. */
  lemma SelectionCount(ix: Index)
    requires WellFormed(ix) && DistinctLocations(ix)
    ensures |Locations(ix)| == |Assignments(ix)|
  {
    AssignmentsShape(ix);
    DistinctCount(Assignments(ix));
  }

  /** For a configuration built from a sample, the selection has one entry per slot of the sample. */
  lemma SelectionPerSlot(data: Sample, config: AvatarMaterialConfiguration)
    requires DistinctMeshes(data) && config.Valid() && config.Contents() == IndexOf(data)
    ensures |NewSettings(config).selectedMeshLocations| == |Flatten(data)|
  {
    LocationCount(data);
  }

  /** The replacement map with its no-replacement entries dropped, as the replacement step passes it to the transform. */
  function NonNullReplacements(replacementMap: map<Material, Option<Material>>): (r: map<Material, Material>)
    ensures forall m :: m in r <==> m in replacementMap && replacementMap[m].Some?
    ensures forall m :: m in r ==> replacementMap[m] == Some(r[m])
  {
    map m | m in replacementMap && replacementMap[m].Some? :: replacementMap[m].value
  }

  /** Transforming a configuration with its untouched default plan gives the same index back. */
  lemma DefaultPlanKeepsIndex(config: AvatarMaterialConfiguration)
    requires config.Valid()
    ensures Remap(config.Contents(), NonNullReplacements(NewSettings(config).replacementMap)) == config.Contents()
  {
    var rm := NonNullReplacements(NewSettings(config).replacementMap);
    assert rm == map[];
    MapIdentity(config.Contents(), rm);
  }
}
