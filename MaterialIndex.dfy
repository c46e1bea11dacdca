/**
 The material-assignment index of an avatar, as a value.

 A raw sample lists, for every renderer-carrying game object, its ordered
 material slots. The index inverts it: for every material, the locations
 (game object, slot) that use it, in the order the construction loops meet
 them. Dictionary iteration order is modelled by `order`, the sequence of
 keys in insertion order.
 */
module MaterialIndex {

  /** Game objects and materials are compared by identity: integer handles. */
  type GameObject = int
  type Material = int

  datatype Option<T> = None | Some(value: T)
  {
    function GetOr(default: T): T
    {
      if Some? then value else default
    }
  }

  /** One material slot: a game object and an index into its material array. */
  datatype Location = Location(mesh: GameObject, slot: nat)

  /** A material together with one place where it is (or is to be) assigned. */
  type Assignment = (Material, Location)

  /** The raw sample: each game object with its ordered material list. */
  type Sample = seq<(GameObject, seq<Material>)>

  /** The inverse index: keys in insertion order, and the bucket of each key. */
  datatype Index = Index(order: seq<Material>, buckets: map<Material, seq<Location>>)

  const Empty: Index := Index([], map[])

  /** The sample comes from a dictionary keyed by game object: no object twice. */
  ghost predicate DistinctMeshes(data: Sample)
  {
    forall i, j :: 0 <= i < j < |data| ==> data[i].0 != data[j].0
  }

  /** Structural invariant of the index: keys listed once, buckets never empty. */
  ghost predicate WellFormed(ix: Index)
  {
    && (forall i, j :: 0 <= i < j < |ix.order| ==> ix.order[i] != ix.order[j])
    && (forall m :: m in ix.buckets <==> m in ix.order)
    && (forall m :: m in ix.buckets ==> ix.buckets[m] != [])
  }

  /** No location occurs twice, neither in one bucket nor under two materials. */
  ghost predicate DistinctLocations(ix: Index)
  {
    forall m1, m2, i, j ::
      m1 in ix.buckets && m2 in ix.buckets &&
      0 <= i < |ix.buckets[m1]| && 0 <= j < |ix.buckets[m2]| && (m1 != m2 || i != j)
      ==> ix.buckets[m1][i] != ix.buckets[m2][j]
  }

  /** No location occurs twice in a sequence of assignments. */
  ghost predicate DistinctLocs(ps: seq<Assignment>)
  {
    forall i, j :: 0 <= i < j < |ps| ==> ps[i].1 != ps[j].1
  }

  /** The effect of one `AddMaterialLocation`: create the bucket on first sight, then append. */
  function Add(ix: Index, a: Assignment): (r: Index)
    ensures r.buckets.Keys == ix.buckets.Keys + {a.0}
    ensures a.0 in r.buckets && |r.buckets[a.0]| > 0 && r.buckets[a.0][|r.buckets[a.0]| - 1] == a.1
    ensures r.buckets[a.0] == (if a.0 in ix.buckets then ix.buckets[a.0] else []) + [a.1]
    ensures forall m :: m in ix.buckets && m != a.0 ==> r.buckets[m] == ix.buckets[m]
    ensures r.order == if a.0 in ix.buckets then ix.order else ix.order + [a.0]
    ensures WellFormed(ix) ==> WellFormed(r)
  {
    if a.0 in ix.buckets then
      Index(ix.order, ix.buckets[a.0 := ix.buckets[a.0] + [a.1]])
    else
      Index(ix.order + [a.0], ix.buckets[a.0 := [a.1]])
  }

  /** A run of `AddMaterialLocation` calls, in sequence order. */
  function AddAll(ix: Index, ps: seq<Assignment>): Index
    decreases |ps|
  {
    if ps == [] then ix else Add(AddAll(ix, ps[..|ps| - 1]), ps[|ps| - 1])
  }

  /** The slots of one game object paired with their index (the `Select((mat, index) => ...)`). */
  function Slots(mesh: GameObject, list: seq<Material>): seq<Assignment>
  {
    seq(|list|, i requires 0 <= i < |list| => (list[i], Location(mesh, i)))
  }

  /** All slots of the sample, objects in sample order, slots ascending. */
  function Flatten(data: Sample): seq<Assignment>
  {
    if data == [] then [] else Slots(data[0].0, data[0].1) + Flatten(data[1..])
  }

  /** The index the constructor builds from a sample. */
  function IndexOf(data: Sample): Index
  {
    AddAll(Empty, Flatten(data))
  }

  /** The locations recorded for material `m`, in sequence order. */
  function LocationsOf(ps: seq<Assignment>, m: Material): seq<Location>
    decreases |ps|
  {
    if ps == [] then []
    else LocationsOf(ps[..|ps| - 1], m) + (if ps[|ps| - 1].0 == m then [ps[|ps| - 1].1] else [])
  }

  ghost function MaterialsOf(ps: seq<Assignment>): set<Material>
  {
    set p | p in ps :: p.0
  }

  /** Every material that occurs in some slot of the sample. */
  ghost function SampleMaterials(data: Sample): set<Material>
  {
    set k, i | 0 <= k < |data| && 0 <= i < |data[k].1| :: data[k].1[i]
  }

  /** Every location held by the index. */
  function Locations(ix: Index): set<Location>
  {
    set m, l | m in ix.buckets && l in ix.buckets[m] :: l
  }

  /** The first key in `keys` whose bucket holds `loc`. */
  function LookupIn(keys: seq<Material>, buckets: map<Material, seq<Location>>, loc: Location): Option<Material>
    decreases |keys|
  {
    if keys == [] then None
    else
      var r := LookupIn(keys[..|keys| - 1], buckets, loc);
      var last := keys[|keys| - 1];
      if r.Some? then r
      else if last in buckets && loc in buckets[last] then Some(last)
      else None
  }

  /** The material the index records for a location (regrouping by location). */
  function Lookup(ix: Index, loc: Location): Option<Material>
  {
    LookupIn(ix.order, ix.buckets, loc)
  }

  /** The material the raw sample holds at a location, if that slot exists. */
  function SampleAt(data: Sample, loc: Location): Option<Material>
  {
    if data == [] then None
    else if data[0].0 == loc.mesh then
      (if loc.slot < |data[0].1| then Some(data[0].1[loc.slot]) else None)
    else SampleAt(data[1..], loc)
  }

  /** The position of a game object in the sample (|data| when absent). */
  function MeshIndex(data: Sample, mesh: GameObject): nat
  {
    if data == [] then 0
    else if data[0].0 == mesh then 0
    else 1 + MeshIndex(data[1..], mesh)
  }

  /** Encounter order of the constructor: earlier object first, then lower slot. */
  predicate Before(data: Sample, a: Location, b: Location)
  {
    MeshIndex(data, a.mesh) < MeshIndex(data, b.mesh) || (a.mesh == b.mesh && a.slot < b.slot)
  }

  // ---------------------------------------------------------------------
  // Facts about AddAll, LocationsOf and Flatten
  // ---------------------------------------------------------------------

  lemma {:induction false} AddAllAppend(ix: Index, ps: seq<Assignment>, qs: seq<Assignment>)
    ensures AddAll(ix, ps + qs) == AddAll(AddAll(ix, ps), qs)
    decreases |qs|
  {
    if qs == [] {
      assert ps + qs == ps;
    } else {
      var n := |qs| - 1;
      assert (ps + qs)[..|ps + qs| - 1] == ps + qs[..n];
      assert (ps + qs)[|ps + qs| - 1] == qs[n];
      AddAllAppend(ix, ps, qs[..n]);
    }
  }

  lemma AddAllSnoc(ix: Index, ps: seq<Assignment>, a: Assignment)
    ensures AddAll(ix, ps + [a]) == Add(AddAll(ix, ps), a)
  {
    assert (ps + [a])[..|ps|] == ps;
  }

  lemma SlotsSnoc(mesh: GameObject, list: seq<Material>, i: nat)
    requires i < |list|
    ensures Slots(mesh, list[..i + 1]) == Slots(mesh, list[..i]) + [(list[i], Location(mesh, i))]
  {
  }

  lemma FlattenSnoc(data: Sample, k: nat)
    requires k < |data|
    ensures Flatten(data[..k + 1]) == Flatten(data[..k]) + Slots(data[k].0, data[k].1)
  {
    assert data[..k + 1] == data[..k] + [data[k]];
    FlattenConcat(data[..k], [data[k]]);
    assert [data[k]][1..] == [];
  }

  lemma {:induction false} LocationsOfMember(ps: seq<Assignment>, m: Material, l: Location)
    ensures l in LocationsOf(ps, m) <==> (m, l) in ps
    decreases |ps|
  {
    if ps != [] {
      var n := |ps| - 1;
      assert ps == ps[..n] + [ps[n]];
      LocationsOfMember(ps[..n], m, l);
    }
  }

  lemma {:induction false} LocationsOfConcat(ps: seq<Assignment>, qs: seq<Assignment>, m: Material)
    ensures LocationsOf(ps + qs, m) == LocationsOf(ps, m) + LocationsOf(qs, m)
    decreases |qs|
  {
    if qs == [] {
      assert ps + qs == ps;
    } else {
      var n := |qs| - 1;
      assert (ps + qs)[..|ps + qs| - 1] == ps + qs[..n];
      assert (ps + qs)[|ps + qs| - 1] == qs[n];
      LocationsOfConcat(ps, qs[..n], m);
    }
  }

  lemma {:induction false} LocationsOfEmpty(ps: seq<Assignment>, m: Material)
    ensures LocationsOf(ps, m) == [] <==> m !in MaterialsOf(ps)
    decreases |ps|
  {
    if ps != [] {
      var n := |ps| - 1;
      assert ps == ps[..n] + [ps[n]];
      assert MaterialsOf(ps) == MaterialsOf(ps[..n]) + {ps[n].0};
      LocationsOfEmpty(ps[..n], m);
    }
  }

  lemma {:induction false} GroupWellFormed(ps: seq<Assignment>)
    ensures WellFormed(AddAll(Empty, ps))
    decreases |ps|
  {
    if ps != [] {
      GroupWellFormed(ps[..|ps| - 1]);
    }
  }

  lemma {:induction false} GroupKeys(ps: seq<Assignment>)
    ensures AddAll(Empty, ps).buckets.Keys == MaterialsOf(ps)
    decreases |ps|
  {
    if ps != [] {
      var n := |ps| - 1;
      GroupKeys(ps[..n]);
      assert AddAll(Empty, ps) == Add(AddAll(Empty, ps[..n]), ps[n]);
      MaterialsOfLast(ps);
    }
  }

  lemma MaterialsOfLast(ps: seq<Assignment>)
    requires ps != []
    ensures MaterialsOf(ps) == MaterialsOf(ps[..|ps| - 1]) + {ps[|ps| - 1].0}
  {
    var n := |ps| - 1;
    assert ps == ps[..n] + [ps[n]];
  }

  lemma {:induction false} GroupBuckets(ps: seq<Assignment>)
    ensures forall m :: m in AddAll(Empty, ps).buckets ==> AddAll(Empty, ps).buckets[m] == LocationsOf(ps, m)
    decreases |ps|
  {
    if ps != [] {
      var n := |ps| - 1;
      var pre := ps[..n];
      var a := ps[n];
      GroupBuckets(pre);
      GroupKeys(pre);
      var after := AddAll(Empty, ps);
      forall m | m in after.buckets ensures after.buckets[m] == LocationsOf(ps, m) {
        if m == a.0 {
          LocationsOfEmpty(pre, m);
        }
      }
    }
  }

  /** The shape of an index grouped from scratch: its buckets are the filters by material. */
  lemma GroupShape(ps: seq<Assignment>)
    ensures WellFormed(AddAll(Empty, ps))
    ensures AddAll(Empty, ps).buckets.Keys == MaterialsOf(ps)
    ensures forall m :: m in AddAll(Empty, ps).buckets ==> AddAll(Empty, ps).buckets[m] == LocationsOf(ps, m)
  {
    GroupWellFormed(ps);
    GroupKeys(ps);
    GroupBuckets(ps);
  }

  lemma GroupMember(ps: seq<Assignment>, m: Material, l: Location)
    ensures (m in AddAll(Empty, ps).buckets && l in AddAll(Empty, ps).buckets[m]) <==> (m, l) in ps
  {
    GroupShape(ps);
    LocationsOfMember(ps, m, l);
    if (m, l) in ps {
      assert m in MaterialsOf(ps);
    }
  }

  lemma {:induction false} LocationsOfDistinct(ps: seq<Assignment>, m: Material)
    requires DistinctLocs(ps)
    ensures forall i, j :: 0 <= i < j < |LocationsOf(ps, m)| ==> LocationsOf(ps, m)[i] != LocationsOf(ps, m)[j]
    decreases |ps|
  {
    if ps != [] {
      var n := |ps| - 1;
      var pre := ps[..n];
      assert DistinctLocs(pre);
      LocationsOfDistinct(pre, m);
      var L := LocationsOf(pre, m);
      if ps[n].0 == m {
        assert ps[..n] == pre;
        assert LocationsOf(ps, m) == L + [ps[n].1];
        forall i | 0 <= i < |L| ensures L[i] != ps[n].1 {
          LocationsOfMember(pre, m, L[i]);
          var a :| 0 <= a < |pre| && pre[a] == (m, L[i]);
          assert ps[a] == pre[a];
        }
      } else {
        assert ps[..n] == pre;
        assert LocationsOf(ps, m) == L;
      }
    }
  }

  /** Grouping assignments with distinct locations gives an index with distinct locations. */
  lemma GroupDistinct(ps: seq<Assignment>)
    requires DistinctLocs(ps)
    ensures DistinctLocations(AddAll(Empty, ps))
  {
    var ix := AddAll(Empty, ps);
    GroupShape(ps);
    forall m1, m2, i, j |
      m1 in ix.buckets && m2 in ix.buckets &&
      0 <= i < |ix.buckets[m1]| && 0 <= j < |ix.buckets[m2]| &&
      ix.buckets[m1][i] == ix.buckets[m2][j]
      ensures m1 == m2 && i == j
    {
      var l := ix.buckets[m1][i];
      if m1 != m2 {
        LocationsOfMember(ps, m1, l);
        LocationsOfMember(ps, m2, l);
        assert false;
      } else {
        LocationsOfDistinct(ps, m1);
      }
    }
  }

  lemma {:induction false} FlattenConcat(a: Sample, b: Sample)
    ensures Flatten(a + b) == Flatten(a) + Flatten(b)
    decreases |a|
  {
    if a == [] {
      assert a + b == b;
    } else {
      assert (a + b)[1..] == a[1..] + b;
      FlattenConcat(a[1..], b);
    }
  }

  /** Every slot of the sample is among the flattened assignments. */
  lemma {:induction false} FlattenHasSlot(data: Sample, k: nat, i: nat)
    requires k < |data| && i < |data[k].1|
    ensures (data[k].1[i], Location(data[k].0, i)) in Flatten(data)
    decreases k
  {
    if k == 0 {
      assert Slots(data[0].0, data[0].1)[i] == (data[0].1[i], Location(data[0].0, i));
    } else {
      FlattenHasSlot(data[1..], k - 1, i);
    }
  }

  /** Every flattened assignment belongs to a game object of the sample. */
  lemma {:induction false} FlattenMeshes(data: Sample, p: Assignment)
    requires p in Flatten(data)
    ensures exists k :: 0 <= k < |data| && data[k].0 == p.1.mesh && p.1.slot < |data[k].1| && data[k].1[p.1.slot] == p.0
    decreases |data|
  {
    if p in Slots(data[0].0, data[0].1) {
      assert data[0].0 == p.1.mesh;
    } else {
      FlattenMeshes(data[1..], p);
      var k :| 0 <= k < |data[1..]| && data[1..][k].0 == p.1.mesh && p.1.slot < |data[1..][k].1| && data[1..][k].1[p.1.slot] == p.0;
      assert data[k + 1] == data[1..][k];
    }
  }

  lemma {:induction false} FlattenDistinct(data: Sample)
    requires DistinctMeshes(data)
    ensures DistinctLocs(Flatten(data))
    decreases |data|
  {
    if data != [] {
      var head := Slots(data[0].0, data[0].1);
      var tail := Flatten(data[1..]);
      assert DistinctMeshes(data[1..]);
      FlattenDistinct(data[1..]);
      var all: seq<Assignment> := head + tail;
      forall i: int, j: int | 0 <= i < j < |all| ensures all[i].1 != all[j].1 {
        if j >= |head| && i < |head| {
          var p := tail[j - |head|];
          assert p in tail;
          FlattenMeshes(data[1..], p);
          var k :| 0 <= k < |data[1..]| && data[1..][k].0 == p.1.mesh && p.1.slot < |data[1..][k].1| && data[1..][k].1[p.1.slot] == p.0;
          assert data[k + 1].0 == p.1.mesh;
        }
      }
    }
  }

  /** In a sample without repeated objects, the slots of an object are its list. */
  lemma {:induction false} SampleAtEntry(data: Sample, k: nat, loc: Location)
    requires DistinctMeshes(data) && k < |data| && data[k].0 == loc.mesh
    ensures SampleAt(data, loc) == if loc.slot < |data[k].1| then Some(data[k].1[loc.slot]) else None
    decreases k
  {
    if k > 0 {
      assert data[0].0 != data[k].0;
      assert DistinctMeshes(data[1..]);
      SampleAtEntry(data[1..], k - 1, loc);
    }
  }

  lemma {:induction false} FlattenMember(data: Sample, m: Material, l: Location)
    requires DistinctMeshes(data)
    ensures (m, l) in Flatten(data) <==> SampleAt(data, l) == Some(m)
  {
    if (m, l) in Flatten(data) {
      FlattenMeshes(data, (m, l));
      var k :| 0 <= k < |data| && data[k].0 == l.mesh && l.slot < |data[k].1| && data[k].1[l.slot] == m;
      SampleAtEntry(data, k, l);
    }
    if SampleAt(data, l) == Some(m) {
      SampleAtHit(data, l);
      var k :| 0 <= k < |data| && data[k].0 == l.mesh && l.slot < |data[k].1| && data[k].1[l.slot] == m;
      FlattenHasSlot(data, k, l.slot);
    }
  }

  lemma {:induction false} SampleAtHit(data: Sample, l: Location)
    requires SampleAt(data, l).Some?
    ensures exists k :: 0 <= k < |data| && data[k].0 == l.mesh && l.slot < |data[k].1| && data[k].1[l.slot] == SampleAt(data, l).value
    decreases |data|
  {
    if data[0].0 == l.mesh {
      assert data[0].1[l.slot] == SampleAt(data, l).value;
    } else {
      SampleAtHit(data[1..], l);
      var k :| 0 <= k < |data[1..]| && data[1..][k].0 == l.mesh && l.slot < |data[1..][k].1| && data[1..][k].1[l.slot] == SampleAt(data, l).value;
      assert data[k + 1] == data[1..][k];
    }
  }

  /** The locations named by a sequence of assignments. */
  ghost function LocsOf(ps: seq<Assignment>): set<Location>
  {
    set p | p in ps :: p.1
  }

  lemma LocsOfSnoc(pre: seq<Assignment>, a: Assignment)
    ensures LocsOf(pre + [a]) == LocsOf(pre) + {a.1}
  {
  }

  /** Distinct locations in a sequence of assignments are as many as its length. */
  lemma {:induction false} DistinctCount(ps: seq<Assignment>)
    requires DistinctLocs(ps)
    ensures |LocsOf(ps)| == |ps|
    decreases |ps|
  {
    if ps != [] {
      var n := |ps| - 1;
      var pre := ps[..n];
      assert DistinctLocs(pre);
      DistinctCount(pre);
      assert ps == pre + [ps[n]];
      LocsOfSnoc(pre, ps[n]);
      forall p | p in pre ensures p.1 != ps[n].1 {
        var i :| 0 <= i < n && pre[i] == p;
        assert ps[i] == p;
      }
      assert ps[n].1 !in LocsOf(pre);
    }
  }

  /** With distinct game objects, the index holds exactly one location per slot of the sample. */
  lemma LocationCount(data: Sample)
    requires DistinctMeshes(data)
    ensures Locations(IndexOf(data)) == LocsOf(Flatten(data))
    ensures |Locations(IndexOf(data))| == |Flatten(data)|
  {
    var ps := Flatten(data);
    forall l | l in Locations(IndexOf(data)) ensures l in LocsOf(ps) {
      var m :| m in IndexOf(data).buckets && l in IndexOf(data).buckets[m];
      GroupMember(ps, m, l);
    }
    forall l | l in LocsOf(ps) ensures l in Locations(IndexOf(data)) {
      var p :| p in ps && p.1 == l;
      GroupMember(ps, p.0, l);
    }
    FlattenDistinct(data);
    DistinctCount(ps);
  }

  // ---------------------------------------------------------------------
  // Lookup
  // ---------------------------------------------------------------------

  lemma {:induction false} LookupInSound(keys: seq<Material>, buckets: map<Material, seq<Location>>, loc: Location)
    requires LookupIn(keys, buckets, loc).Some?
    ensures LookupIn(keys, buckets, loc).value in keys
    ensures LookupIn(keys, buckets, loc).value in buckets
    ensures loc in buckets[LookupIn(keys, buckets, loc).value]
    decreases |keys|
  {
    var n := |keys| - 1;
    if LookupIn(keys[..n], buckets, loc).Some? {
      LookupInSound(keys[..n], buckets, loc);
    }
  }

  lemma {:induction false} LookupInComplete(keys: seq<Material>, buckets: map<Material, seq<Location>>, loc: Location, m: Material)
    requires m in keys && m in buckets && loc in buckets[m]
    ensures LookupIn(keys, buckets, loc).Some?
    decreases |keys|
  {
    var n := |keys| - 1;
    if keys[n] != m {
      assert m in keys[..n];
      LookupInComplete(keys[..n], buckets, loc, m);
    }
  }

  /** In a well-formed index without repeated locations, Lookup finds exactly the owning bucket. */
  lemma LookupChar(ix: Index, loc: Location, m: Material)
    requires WellFormed(ix) && DistinctLocations(ix)
    ensures Lookup(ix, loc) == Some(m) <==> (m in ix.buckets && loc in ix.buckets[m])
  {
    if Lookup(ix, loc).Some? {
      LookupInSound(ix.order, ix.buckets, loc);
    }
    if m in ix.buckets && loc in ix.buckets[m] {
      LookupInComplete(ix.order, ix.buckets, loc, m);
      LookupInSound(ix.order, ix.buckets, loc);
      var m' := Lookup(ix, loc).value;
      var i :| 0 <= i < |ix.buckets[m]| && ix.buckets[m][i] == loc;
      var j :| 0 <= j < |ix.buckets[m']| && ix.buckets[m'][j] == loc;
    }
  }

  /** A location is held by the index exactly when Lookup finds it. */
  lemma LocationsLookup(ix: Index, loc: Location)
    requires WellFormed(ix) && DistinctLocations(ix)
    ensures loc in Locations(ix) <==> Lookup(ix, loc).Some?
  {
    if loc in Locations(ix) {
      var m :| m in ix.buckets && loc in ix.buckets[m];
      LookupChar(ix, loc, m);
    }
    if Lookup(ix, loc).Some? {
      LookupChar(ix, loc, Lookup(ix, loc).value);
    }
  }

  /** A location of the k-th key's bucket is in no earlier key's bucket. */
  lemma NotInEarlierKeys(ix: Index, k: nat, loc: Location)
    requires WellFormed(ix) && DistinctLocations(ix)
    requires k < |ix.order| && ix.order[k] in ix.buckets && loc in ix.buckets[ix.order[k]]
    ensures LookupIn(ix.order[..k], ix.buckets, loc) == None
  {
    if LookupIn(ix.order[..k], ix.buckets, loc).Some? {
      LookupInSound(ix.order[..k], ix.buckets, loc);
    }
  }

  // ---------------------------------------------------------------------
  // Properties of the constructed index
  // ---------------------------------------------------------------------

  /**
   The key set of the index is exactly the set of materials in the sample;
   keys are listed once and no bucket is empty; an empty sample gives the
   empty index; each bucket holds the sample's locations of that material in
   the order the constructor meets them.
   */
  lemma IndexShape(data: Sample)
    ensures WellFormed(IndexOf(data))
    ensures IndexOf(data).buckets.Keys == SampleMaterials(data)
    ensures forall m :: m in IndexOf(data).buckets ==> |IndexOf(data).buckets[m]| > 0
    ensures forall m :: m in IndexOf(data).buckets ==> IndexOf(data).buckets[m] == LocationsOf(Flatten(data), m)
    ensures data == [] ==> IndexOf(data) == Empty
  {
    GroupShape(Flatten(data));
    FlattenMaterials(data);
  }

  lemma FlattenMaterials(data: Sample)
    ensures MaterialsOf(Flatten(data)) == SampleMaterials(data)
  {
    var ps := Flatten(data);
    forall m | m in MaterialsOf(ps) ensures m in SampleMaterials(data) {
      var p :| p in ps && p.0 == m;
      FlattenMeshes(data, p);
    }
    forall m | m in SampleMaterials(data) ensures m in MaterialsOf(ps) {
      var k, i :| 0 <= k < |data| && 0 <= i < |data[k].1| && data[k].1[i] == m;
      FlattenHasSlot(data, k, i);
    }
  }

  /** Every slot of every game object is indexed under the material it holds. */
  lemma EverySlotIndexed(data: Sample)
    ensures forall k, i :: 0 <= k < |data| && 0 <= i < |data[k].1| ==>
      data[k].1[i] in IndexOf(data).buckets && Location(data[k].0, i) in IndexOf(data).buckets[data[k].1[i]]
  {
    forall k, i | 0 <= k < |data| && 0 <= i < |data[k].1|
      ensures data[k].1[i] in IndexOf(data).buckets && Location(data[k].0, i) in IndexOf(data).buckets[data[k].1[i]]
    {
      FlattenHasSlot(data, k, i);
      GroupMember(Flatten(data), data[k].1[i], Location(data[k].0, i));
    }
  }

  /** Every indexed location is a slot of the sample that holds that material. */
  lemma IndexedAreSlots(data: Sample, m: Material, l: Location)
    requires m in IndexOf(data).buckets && l in IndexOf(data).buckets[m]
    ensures exists k :: 0 <= k < |data| && data[k].0 == l.mesh && l.slot < |data[k].1| && data[k].1[l.slot] == m
  {
    GroupMember(Flatten(data), m, l);
    FlattenMeshes(data, (m, l));
  }

  /** No location is indexed twice, nor under two materials. */
  lemma IndexDistinct(data: Sample)
    requires DistinctMeshes(data)
    ensures DistinctLocations(IndexOf(data))
  {
    FlattenDistinct(data);
    GroupDistinct(Flatten(data));
  }

  /** Round trip: regrouping the index by location reproduces the sample's slots exactly. */
  lemma RoundTrip(data: Sample)
    requires DistinctMeshes(data)
    ensures forall loc :: Lookup(IndexOf(data), loc) == SampleAt(data, loc)
  {
    var ix := IndexOf(data);
    IndexShape(data);
    IndexDistinct(data);
    forall loc ensures Lookup(ix, loc) == SampleAt(data, loc) {
      if Lookup(ix, loc).Some? {
        var m := Lookup(ix, loc).value;
        LookupChar(ix, loc, m);
        GroupMember(Flatten(data), m, loc);
        FlattenMember(data, m, loc);
      } else if SampleAt(data, loc).Some? {
        var m := SampleAt(data, loc).value;
        FlattenMember(data, m, loc);
        GroupMember(Flatten(data), m, loc);
        LookupChar(ix, loc, m);
        assert false;
      }
    }
  }

  lemma {:induction false} MeshIndexOf(data: Sample, k: nat)
    requires DistinctMeshes(data) && k < |data|
    ensures MeshIndex(data, data[k].0) == k
    decreases k
  {
    if k > 0 {
      assert data[0].0 != data[k].0;
      assert DistinctMeshes(data[1..]);
      MeshIndexOf(data[1..], k - 1);
    }
  }

  lemma {:induction false} FlattenSorted(data: Sample)
    requires DistinctMeshes(data)
    ensures forall i, j :: 0 <= i < j < |Flatten(data)| ==> Before(data, Flatten(data)[i].1, Flatten(data)[j].1)
    decreases |data|
  {
    if data != [] {
      var head := Slots(data[0].0, data[0].1);
      var tail := Flatten(data[1..]);
      assert DistinctMeshes(data[1..]);
      FlattenSorted(data[1..]);
      var all: seq<Assignment> := head + tail;
      forall i: int, j: int | 0 <= i < j < |all| ensures Before(data, all[i].1, all[j].1) {
        if j >= |head| {
          var q := tail[j - |head|];
          assert q in tail;
          FlattenMeshes(data[1..], q);
          var kq :| 0 <= kq < |data[1..]| && data[1..][kq].0 == q.1.mesh;
          assert q.1.mesh != data[0].0 by { assert data[kq + 1].0 == q.1.mesh; }
          if i >= |head| {
            var p := tail[i - |head|];
            assert p in tail;
            FlattenMeshes(data[1..], p);
            var kp :| 0 <= kp < |data[1..]| && data[1..][kp].0 == p.1.mesh;
            assert p.1.mesh != data[0].0 by { assert data[kp + 1].0 == p.1.mesh; }
            assert Before(data[1..], p.1, q.1);
          }
        }
      }
    }
  }

  /** A filter of a sequence sorted by encounter order is itself sorted. */
  lemma {:induction false} LocationsOfSorted(data: Sample, ps: seq<Assignment>, m: Material)
    requires forall i, j :: 0 <= i < j < |ps| ==> Before(data, ps[i].1, ps[j].1)
    ensures forall i, j :: 0 <= i < j < |LocationsOf(ps, m)| ==> Before(data, LocationsOf(ps, m)[i], LocationsOf(ps, m)[j])
    decreases |ps|
  {
    if ps != [] {
      var n := |ps| - 1;
      var pre := ps[..n];
      LocationsOfSorted(data, pre, m);
      if ps[n].0 == m {
        forall x | x in LocationsOf(pre, m) ensures Before(data, x, ps[n].1) {
          LocationsOfMember(pre, m, x);
          var i :| 0 <= i < |pre| && pre[i] == (m, x);
          assert ps[i] == pre[i];
        }
      }
    }
  }

  /** Within a bucket, locations keep encounter order: objects in sample order, then ascending slot. */
  lemma EncounterOrder(data: Sample)
    requires DistinctMeshes(data)
    ensures forall m, i, j :: m in IndexOf(data).buckets && 0 <= i < j < |IndexOf(data).buckets[m]| ==>
      Before(data, IndexOf(data).buckets[m][i], IndexOf(data).buckets[m][j])
  {
    IndexShape(data);
    FlattenSorted(data);
    forall m | m in IndexOf(data).buckets
      ensures forall i, j :: 0 <= i < j < |IndexOf(data).buckets[m]| ==> Before(data, IndexOf(data).buckets[m][i], IndexOf(data).buckets[m][j])
    {
      LocationsOfSorted(data, Flatten(data), m);
    }
  }

  /** The encounter order is strict: a location is never before itself, and positions decide it. */
  lemma BeforeStrict(data: Sample, k1: nat, k2: nat, s1: nat, s2: nat)
    requires DistinctMeshes(data) && k1 < |data| && k2 < |data|
    ensures Before(data, Location(data[k1].0, s1), Location(data[k2].0, s2)) <==> (k1 < k2 || (k1 == k2 && s1 < s2))
  {
    MeshIndexOf(data, k1);
    MeshIndexOf(data, k2);
  }
}
