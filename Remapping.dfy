/**
 What `Map(replacementMap)` computes, as a value: every bucket of the index
 is re-added, key by key in iteration order, under the key's replacement
 (or under the key itself when the map has no entry for it), into a fresh
 index.
 */
module Remapping {
  import opened MaterialIndex

  /** The material a key is re-added under. */
  function Target(rm: map<Material, Material>, m: Material): Material
  {
    if m in rm then rm[m] else m
  }

  /** A bucket's locations, each paired with the material `t`. */
  function Block(t: Material, locs: seq<Location>): seq<Assignment>
  {
    seq(|locs|, i requires 0 <= i < |locs| => (t, locs[i]))
  }

  /** The `AddMaterialLocation` calls `Map` makes, in the order it makes them. */
  function Reassigned(keys: seq<Material>, buckets: map<Material, seq<Location>>, rm: map<Material, Material>): seq<Assignment>
    decreases |keys|
  {
    if keys == [] then []
    else
      var last := keys[|keys| - 1];
      Reassigned(keys[..|keys| - 1], buckets, rm) + (if last in buckets then Block(Target(rm, last), buckets[last]) else [])
  }

  /** The index `Map` returns. */
  function Remap(ix: Index, rm: map<Material, Material>): Index
  {
    AddAll(Empty, Reassigned(ix.order, ix.buckets, rm))
  }

  /** Everything the index holds, bucket by bucket in key order. */
  function Assignments(ix: Index): seq<Assignment>
  {
    Reassigned(ix.order, ix.buckets, map[])
  }

  /** The concatenation, in key order, of the buckets whose key is re-added under `t`. */
  function Merged(keys: seq<Material>, buckets: map<Material, seq<Location>>, rm: map<Material, Material>, t: Material): seq<Location>
    decreases |keys|
  {
    if keys == [] then []
    else
      var last := keys[|keys| - 1];
      Merged(keys[..|keys| - 1], buckets, rm, t) + (if last in buckets && Target(rm, last) == t then buckets[last] else [])
  }

  // ---------------------------------------------------------------------
  // Helpers
  // ---------------------------------------------------------------------

  lemma BlockSnoc(t: Material, locs: seq<Location>, j: nat)
    requires j < |locs|
    ensures Block(t, locs[..j + 1]) == Block(t, locs[..j]) + [(t, locs[j])]
  {
  }

  lemma ReassignedSnoc(keys: seq<Material>, buckets: map<Material, seq<Location>>, rm: map<Material, Material>, k: nat)
    requires k < |keys| && keys[k] in buckets
    ensures Reassigned(keys[..k + 1], buckets, rm) == Reassigned(keys[..k], buckets, rm) + Block(Target(rm, keys[k]), buckets[keys[k]])
  {
    assert keys[..k + 1][..k] == keys[..k];
  }

  lemma {:induction false} LocationsOfBlock(t: Material, locs: seq<Location>, m: Material)
    ensures LocationsOf(Block(t, locs), m) == if t == m then locs else []
    decreases |locs|
  {
    if locs != [] {
      var n := |locs| - 1;
      assert Block(t, locs)[..n] == Block(t, locs[..n]);
      LocationsOfBlock(t, locs[..n], m);
      assert locs == locs[..n] + [locs[n]];
    }
  }

  lemma {:induction false} ReassignedLocations(keys: seq<Material>, buckets: map<Material, seq<Location>>, rm: map<Material, Material>, t: Material)
    ensures LocationsOf(Reassigned(keys, buckets, rm), t) == Merged(keys, buckets, rm, t)
    decreases |keys|
  {
    if keys != [] {
      var n := |keys| - 1;
      var last := keys[n];
      ReassignedLocations(keys[..n], buckets, rm, t);
      if last in buckets {
        LocationsOfConcat(Reassigned(keys[..n], buckets, rm), Block(Target(rm, last), buckets[last]), t);
        LocationsOfBlock(Target(rm, last), buckets[last], t);
      } else {
        assert Reassigned(keys, buckets, rm) == Reassigned(keys[..n], buckets, rm);
      }
    }
  }

  lemma {:induction false} MergedMember(keys: seq<Material>, buckets: map<Material, seq<Location>>, rm: map<Material, Material>, t: Material, l: Location)
    ensures l in Merged(keys, buckets, rm, t) <==>
      exists m :: m in keys && m in buckets && Target(rm, m) == t && l in buckets[m]
    decreases |keys|
  {
    if keys != [] {
      var n := |keys| - 1;
      MergedMember(keys[..n], buckets, rm, t, l);
      assert keys == keys[..n] + [keys[n]];
      if exists m :: m in keys && m in buckets && Target(rm, m) == t && l in buckets[m] {
        var m :| m in keys && m in buckets && Target(rm, m) == t && l in buckets[m];
        if m != keys[n] {
          assert m in keys[..n];
        }
      }
    }
  }

  lemma {:induction false} ReassignedMember(keys: seq<Material>, buckets: map<Material, seq<Location>>, rm: map<Material, Material>, p: Assignment)
    ensures p in Reassigned(keys, buckets, rm) <==>
      exists m :: m in keys && m in buckets && Target(rm, m) == p.0 && p.1 in buckets[m]
    decreases |keys|
  {
    ReassignedLocations(keys, buckets, rm, p.0);
    LocationsOfMember(Reassigned(keys, buckets, rm), p.0, p.1);
    MergedMember(keys, buckets, rm, p.0, p.1);
  }

  lemma {:induction false} ReassignedDistinct(keys: seq<Material>, buckets: map<Material, seq<Location>>, rm: map<Material, Material>)
    requires forall i, j :: 0 <= i < j < |keys| ==> keys[i] != keys[j]
    requires DistinctLocations(Index(keys, buckets))
    ensures DistinctLocs(Reassigned(keys, buckets, rm))
    decreases |keys|
  {
    if keys != [] {
      var n := |keys| - 1;
      var last := keys[n];
      var pre := Reassigned(keys[..n], buckets, rm);
      assert DistinctLocations(Index(keys[..n], buckets));
      ReassignedDistinct(keys[..n], buckets, rm);
      if last in buckets {
        var blk := Block(Target(rm, last), buckets[last]);
        var all: seq<Assignment> := pre + blk;
        forall i: int, j: int | 0 <= i < j < |all| ensures all[i].1 != all[j].1 {
          if i < |pre| && j >= |pre| {
            ReassignedMember(keys[..n], buckets, rm, all[i]);
            var m :| m in keys[..n] && m in buckets && Target(rm, m) == all[i].0 && all[i].1 in buckets[m];
            var a :| 0 <= a < |buckets[m]| && buckets[m][a] == all[i].1;
            var b := j - |pre|;
            assert all[j].1 == buckets[last][b];
            assert m != last;
          } else if i >= |pre| {
            assert all[i].1 == buckets[last][i - |pre|];
            assert all[j].1 == buckets[last][j - |pre|];
          }
        }
      } else {
        assert Reassigned(keys, buckets, rm) == pre;
      }
    }
  }

  lemma {:induction false} AddBlockFresh(ix: Index, m: Material, locs: seq<Location>)
    requires m !in ix.buckets && locs != []
    ensures AddAll(ix, Block(m, locs)) == Index(ix.order + [m], ix.buckets[m := locs])
    decreases |locs|
  {
    var n := |locs| - 1;
    var blk := Block(m, locs);
    assert blk[..n] == Block(m, locs[..n]);
    if n == 0 {
      assert blk[..n] == [];
      assert locs == [locs[0]];
    } else {
      var prev := Index(ix.order + [m], ix.buckets[m := locs[..n]]);
      calc {
        AddAll(ix, blk);
        Add(AddAll(ix, blk[..n]), blk[n]);
        { AddBlockFresh(ix, m, locs[..n]); }
        Add(prev, (m, locs[n]));
        Index(prev.order, prev.buckets[m := locs[..n] + [locs[n]]]);
        { assert locs[..n] + [locs[n]] == locs; }
        Index(ix.order + [m], ix.buckets[m := locs[..n]][m := locs]);
        { assert ix.buckets[m := locs[..n]][m := locs] == ix.buckets[m := locs]; }
        Index(ix.order + [m], ix.buckets[m := locs]);
      }
    }
  }

  /** The prefix of a well-formed index holding only its first k keys. */
  function Prefix(ix: Index, k: nat): Index
    requires k <= |ix.order|
  {
    Index(ix.order[..k], map m | m in ix.order[..k] && m in ix.buckets :: ix.buckets[m])
  }

  lemma PrefixSnoc(ix: Index, k: nat)
    requires WellFormed(ix) && k < |ix.order|
    ensures ix.order[k] in ix.buckets && ix.order[k] !in Prefix(ix, k).buckets
    ensures Prefix(ix, k + 1) == Index(Prefix(ix, k).order + [ix.order[k]], Prefix(ix, k).buckets[ix.order[k] := ix.buckets[ix.order[k]]])
  {
    var m := ix.order[k];
    assert ix.order[..k + 1] == ix.order[..k] + [m];
    assert Prefix(ix, k + 1).buckets == Prefix(ix, k).buckets[m := ix.buckets[m]];
  }

  lemma {:induction false} IdentityPrefix(ix: Index, rm: map<Material, Material>, k: nat)
    requires WellFormed(ix) && k <= |ix.order|
    requires forall m :: m in rm && m in ix.buckets ==> rm[m] == m
    ensures AddAll(Empty, Reassigned(ix.order[..k], ix.buckets, rm)) == Prefix(ix, k)
    decreases k
  {
    if k == 0 {
      assert Prefix(ix, 0).buckets == map[];
    } else {
      IdentityPrefix(ix, rm, k - 1);
      IdentityStep(ix, rm, k - 1);
    }
  }

  lemma IdentityStep(ix: Index, rm: map<Material, Material>, k: nat)
    requires WellFormed(ix) && k < |ix.order|
    requires forall m :: m in rm && m in ix.buckets ==> rm[m] == m
    requires AddAll(Empty, Reassigned(ix.order[..k], ix.buckets, rm)) == Prefix(ix, k)
    ensures AddAll(Empty, Reassigned(ix.order[..k + 1], ix.buckets, rm)) == Prefix(ix, k + 1)
  {
    var m := ix.order[k];
    var before := Reassigned(ix.order[..k], ix.buckets, rm);
    var pre := Prefix(ix, k);
    PrefixSnoc(ix, k);
    ReassignedSnoc(ix.order, ix.buckets, rm, k);
    assert Target(rm, m) == m;
    var blk := Block(m, ix.buckets[m]);
    AddAllAppend(Empty, before, blk);
    AddBlockFresh(pre, m, ix.buckets[m]);
  }

  // ---------------------------------------------------------------------
  // Properties of Map
  // ---------------------------------------------------------------------

  /**
   The result is again a well-formed index without repeated locations; its
   keys are the targets of the original keys; the bucket of a target is the
   concatenation, in iteration order, of the buckets of all keys that map to it.
   */
  lemma RemapShape(ix: Index, rm: map<Material, Material>)
    requires WellFormed(ix) && DistinctLocations(ix)
    ensures WellFormed(Remap(ix, rm)) && DistinctLocations(Remap(ix, rm))
    ensures Remap(ix, rm).buckets.Keys == set m | m in ix.buckets :: Target(rm, m)
    ensures forall t :: t in Remap(ix, rm).buckets ==> Remap(ix, rm).buckets[t] == Merged(ix.order, ix.buckets, rm, t)
  {
    var ps := Reassigned(ix.order, ix.buckets, rm);
    GroupWellFormed(ps);
    ReassignedDistinct(ix.order, ix.buckets, rm);
    GroupDistinct(ps);
    RemapKeys(ix, rm);
    RemapBuckets(ix, rm);
  }

  lemma RemapKeys(ix: Index, rm: map<Material, Material>)
    requires WellFormed(ix)
    ensures Remap(ix, rm).buckets.Keys == set m | m in ix.buckets :: Target(rm, m)
  {
    var ps := Reassigned(ix.order, ix.buckets, rm);
    GroupKeys(ps);
    forall t | t in MaterialsOf(ps) ensures t in set m | m in ix.buckets :: Target(rm, m) {
      var p :| p in ps && p.0 == t;
      ReassignedMember(ix.order, ix.buckets, rm, p);
    }
    forall m | m in ix.buckets ensures Target(rm, m) in MaterialsOf(ps) {
      var p := (Target(rm, m), ix.buckets[m][0]);
      ReassignedMember(ix.order, ix.buckets, rm, p);
    }
  }

  lemma RemapBuckets(ix: Index, rm: map<Material, Material>)
    ensures forall t :: t in Remap(ix, rm).buckets ==> Remap(ix, rm).buckets[t] == Merged(ix.order, ix.buckets, rm, t)
  {
    var ps := Reassigned(ix.order, ix.buckets, rm);
    GroupBuckets(ps);
    forall t | t in Remap(ix, rm).buckets ensures Remap(ix, rm).buckets[t] == Merged(ix.order, ix.buckets, rm, t) {
      ReassignedLocations(ix.order, ix.buckets, rm, t);
    }
  }

  /**
   Map keeps every location and changes only its material: a location's new
   material is the replacement of its old one when the map has an entry for
   it, and the old one otherwise; no location is gained or lost.
   */
  lemma MapLookup(ix: Index, rm: map<Material, Material>)
    requires WellFormed(ix) && DistinctLocations(ix)
    ensures forall l ::
      Lookup(Remap(ix, rm), l) == (if Lookup(ix, l).Some? then Some(Target(rm, Lookup(ix, l).value)) else None)
    ensures Locations(Remap(ix, rm)) == Locations(ix)
  {
    var J := Remap(ix, rm);
    RemapShape(ix, rm);
    forall l ensures Lookup(J, l) == (if Lookup(ix, l).Some? then Some(Target(rm, Lookup(ix, l).value)) else None) {
      if Lookup(ix, l).Some? {
        var m := Lookup(ix, l).value;
        var t := Target(rm, m);
        LookupChar(ix, l, m);
        MergedMember(ix.order, ix.buckets, rm, t, l);
        assert t in J.buckets;
        LookupChar(J, l, t);
      } else if Lookup(J, l).Some? {
        var t := Lookup(J, l).value;
        LookupChar(J, l, t);
        MergedMember(ix.order, ix.buckets, rm, t, l);
        var m :| m in ix.order && m in ix.buckets && Target(rm, m) == t && l in ix.buckets[m];
        LookupChar(ix, l, m);
        assert false;
      }
    }
    forall l ensures l in Locations(J) <==> l in Locations(ix) {
      LocationsLookup(J, l);
      LocationsLookup(ix, l);
    }
  }

  /** A map whose entries for the index's keys are all identities (an empty map among them) changes nothing. */
  lemma MapIdentity(ix: Index, rm: map<Material, Material>)
    requires WellFormed(ix)
    requires forall m :: m in rm && m in ix.buckets ==> rm[m] == m
    ensures Remap(ix, rm) == ix
  {
    var n := |ix.order|;
    calc {
      Remap(ix, rm);
      AddAll(Empty, Reassigned(ix.order, ix.buckets, rm));
      { assert ix.order[..n] == ix.order; }
      AddAll(Empty, Reassigned(ix.order[..n], ix.buckets, rm));
      { IdentityPrefix(ix, rm, n); }
      Prefix(ix, n);
      { PrefixFull(ix); }
      ix;
    }
  }

  lemma PrefixFull(ix: Index)
    requires WellFormed(ix)
    ensures Prefix(ix, |ix.order|) == ix
  {
    var n := |ix.order|;
    assert ix.order[..n] == ix.order;
    var p := Prefix(ix, n);
    forall m ensures m in p.buckets <==> m in ix.buckets {
      assert m in ix.order[..n] <==> m in ix.order;
    }
    assert p.buckets.Keys == ix.buckets.Keys;
    assert p.buckets == ix.buckets;
  }

  /** Assignments lists every location of the index once, under its material. */
  lemma AssignmentsShape(ix: Index)
    requires WellFormed(ix) && DistinctLocations(ix)
    ensures DistinctLocs(Assignments(ix))
    ensures forall m, l :: (m, l) in Assignments(ix) <==> m in ix.buckets && l in ix.buckets[m]
    ensures Locations(ix) == LocsOf(Assignments(ix))
  {
    ReassignedDistinct(ix.order, ix.buckets, map[]);
    AssignmentsMember(ix);
    var fromPairs := LocsOf(Assignments(ix));
    forall l | l in Locations(ix) ensures l in fromPairs {
      var m :| m in ix.buckets && l in ix.buckets[m];
      assert (m, l) in Assignments(ix);
    }
    forall l | l in fromPairs ensures l in Locations(ix) {
      var p :| p in Assignments(ix) && p.1 == l;
      ReassignedMember(ix.order, ix.buckets, map[], p);
      var m :| m in ix.order && m in ix.buckets && Target(map[], m) == p.0 && p.1 in ix.buckets[m];
    }
  }

  lemma AssignmentsMember(ix: Index)
    requires WellFormed(ix)
    ensures forall m, l :: (m, l) in Assignments(ix) <==> m in ix.buckets && l in ix.buckets[m]
  {
    forall m, l ensures (m, l) in Assignments(ix) <==> m in ix.buckets && l in ix.buckets[m] {
      ReassignedMember(ix.order, ix.buckets, map[], (m, l));
      if m in ix.buckets && l in ix.buckets[m] {
        assert Target(map[], m) == m;
      }
    }
  }

  /**
   A worked case: object g1 holds materials x and y, object g2 holds x; the
   index lists x at (g1, 0) and (g2, 0) and y at (g1, 1).
   */
  lemma ScenarioIndex(g1: GameObject, g2: GameObject, x: Material, y: Material)
    requires g1 != g2 && x != y
    ensures IndexOf([(g1, [x, y]), (g2, [x])]) ==
      Index([x, y], map[x := [Location(g1, 0), Location(g2, 0)], y := [Location(g1, 1)]])
  {
    var a, b, c := (x, Location(g1, 0)), (y, Location(g1, 1)), (x, Location(g2, 0));
    var i1 := Index([x], map[x := [a.1]]);
    var i2 := Index([x, y], map[x := [a.1], y := [b.1]]);
    calc {
      IndexOf([(g1, [x, y]), (g2, [x])]);
      { ScenarioFlatten(g1, g2, x, y); }
      AddAll(Empty, [a, b, c]);
      { Triple(Empty, a, b, c); }
      Add(Add(Add(Empty, a), b), c);
      { assert Add(Empty, a) == i1; }
      Add(Add(i1, b), c);
      { assert Add(i1, b) == Index(i1.order + [y], i1.buckets[y := [b.1]]); assert [x] + [y] == [x, y]; }
      Add(i2, c);
      { assert Add(i2, c) == Index(i2.order, i2.buckets[x := i2.buckets[x] + [c.1]]); assert [a.1] + [c.1] == [a.1, c.1]; }
      Index([x, y], i2.buckets[x := [a.1, c.1]]);
      { assert i2.buckets[x := [a.1, c.1]] == map[x := [a.1, c.1], y := [b.1]]; }
      Index([x, y], map[x := [a.1, c.1], y := [b.1]]);
    }
  }

  lemma ScenarioFlatten(g1: GameObject, g2: GameObject, x: Material, y: Material)
    ensures Flatten([(g1, [x, y]), (g2, [x])]) == [(x, Location(g1, 0)), (y, Location(g1, 1)), (x, Location(g2, 0))]
  {
    var data: Sample := [(g1, [x, y]), (g2, [x])];
    assert Slots(g1, [x, y]) == [(x, Location(g1, 0)), (y, Location(g1, 1))];
    assert Slots(g2, [x]) == [(x, Location(g2, 0))];
    assert data[1..] == [(g2, [x])] && data[1..][1..] == [];
    assert Flatten(data[1..]) == Slots(g2, [x]) + Flatten([]);
  }

  /** Replacing x by z in the worked case moves both of x's locations to z and leaves y's alone. */
  lemma ScenarioRemap(g1: GameObject, g2: GameObject, x: Material, y: Material, z: Material)
    requires g1 != g2 && x != y && z != y
    ensures Remap(Index([x, y], map[x := [Location(g1, 0), Location(g2, 0)], y := [Location(g1, 1)]]), map[x := z]) ==
      Index([z, y], map[z := [Location(g1, 0), Location(g2, 0)], y := [Location(g1, 1)]])
  {
    var a, b, c := Location(g1, 0), Location(g1, 1), Location(g2, 0);
    var i1 := Index([z], map[z := [a]]);
    var i2 := Index([z], map[z := [a, c]]);
    calc {
      Remap(Index([x, y], map[x := [a, c], y := [b]]), map[x := z]);
      { ScenarioReassigned(a, b, c, x, y, z); }
      AddAll(Empty, [(z, a), (z, c), (y, b)]);
      { Triple(Empty, (z, a), (z, c), (y, b)); }
      Add(Add(Add(Empty, (z, a)), (z, c)), (y, b));
      { assert Add(Empty, (z, a)) == i1; }
      Add(Add(i1, (z, c)), (y, b));
      { assert Add(i1, (z, c)) == Index(i1.order, i1.buckets[z := i1.buckets[z] + [c]]); assert [a] + [c] == [a, c]; assert i1.buckets[z := [a, c]] == i2.buckets; }
      Add(i2, (y, b));
      { assert Add(i2, (y, b)) == Index(i2.order + [y], i2.buckets[y := [b]]); assert [z] + [y] == [z, y]; }
      Index([z, y], map[z := [a, c], y := [b]]);
    }
  }

  lemma ScenarioReassigned(a: Location, b: Location, c: Location, x: Material, y: Material, z: Material)
    requires x != y && z != y
    ensures Reassigned([x, y], map[x := [a, c], y := [b]], map[x := z]) == [(z, a), (z, c), (y, b)]
  {
    var keys, buckets, rm := [x, y], map[x := [a, c], y := [b]], map[x := z];
    assert Target(rm, x) == z && Target(rm, y) == y;
    assert Block(z, [a, c]) == [(z, a), (z, c)];
    assert Block(y, [b]) == [(y, b)];
    ReassignedSnoc(keys, buckets, rm, 1);
    ReassignedSnoc(keys, buckets, rm, 0);
    assert keys[..2] == keys && keys[..0] == [];
  }

  lemma Triple(ix: Index, a: Assignment, b: Assignment, c: Assignment)
    ensures AddAll(ix, [a, b, c]) == Add(Add(Add(ix, a), b), c)
  {
    assert [a, b, c] == [a, b] + [c] && [a, b] == [a] + [b] && [a] == [] + [a];
    AddAllSnoc(ix, [a, b], c);
    AddAllSnoc(ix, [a], b);
    AddAllSnoc(ix, [], a);
  }
}
