/** Two-rank Halos on which the offset of a pair falls short. */
module PairOverHalo {
  import opened Seqs
  import opened Collectives
  import opened Contract
  import opened Streams
  import opened HaloDistribution
  import opened Companions
  import opened Extension
  import opened ExtendedWorld
  import PairDistribution

  /**
   Location 0 is held by rank 0 only, location 1 by rank 1 only, and location 2, the last one, by
   both; rank 0 is at least as near to it.
   */
  ghost predicate SharedLast(world: seq<Rule>, s: seq<Obs>) {
    && |world| == 2 && IsHaloWorld(world)
    && |s| == 3 && (forall i :: 0 <= i < 3 ==> Appears(s, i) && s[i].rec == s[i].loc == i)
    && Mine(world[0], s, 0) && !Mine(world[1], s, 0)
    && !Mine(world[0], s, 1) && Mine(world[1], s, 1)
    && Mine(world[0], s, 2) && Mine(world[1], s, 2)
    && DistanceTo(world[0], s, 2) <= DistanceTo(world[1], s, 2)
  }

  /** The views of both ranks, as the protocol computes them. */
  const Views := [View([0, 2], [true, true], [0, 1]), View([1, 2], [true, false], [2, 1])]

  function Owners(world: seq<Rule>, s: seq<Obs>): seq<DistRank>
    requires |world| == 2 && world[0].InHalo? && world[1].InHalo?
    requires Appears(s, 0) && Appears(s, 1) && Appears(s, 2)
  {
    [DistRank(Finite(DistanceTo(world[0], s, 0)), 0), DistRank(Finite(DistanceTo(world[1], s, 1)), 1),
     DistRank(Finite(DistanceTo(world[0], s, 2)), 0)]
  }

  lemma OwnersThere(world: seq<Rule>, s: seq<Obs>)
    requires SharedLast(world, s)
    ensures AscendingStream(s) && NamesOwners(world, s, Owners(world, s))
  {
    var glb := Owners(world, s);
    forall g | 0 <= g < 3
      ensures OwnsRecord(world, s, g, glb[g].rank) && LocationHeld(world, s, g)
    {
      assert s[g] in s && Mine(world[glb[g].rank], s, g);
    }
  }

  lemma {:induction false} OfRecordsThree(a: Obs, b: Obs, c: Obs, recs: set<nat>)
    ensures OfRecords([a, b, c], recs)
            == (if a.rec in recs then [a] else []) + (if b.rec in recs then [b] else [])
               + if c.rec in recs then [c] else []
  {
    assert [a, b, c][..2] == [a, b] && [a, b][..1] == [a] && [a][..0] == [];
    assert OfRecords([a], recs) == if a.rec in recs then [a] else [];
    assert OfRecords([a, b], recs) == OfRecords([a], recs) + if b.rec in recs then [b] else [];
  }

  lemma KeptThere(world: seq<Rule>, s: seq<Obs>)
    requires SharedLast(world, s)
    ensures Locs(Kept(world[0], s)) == [0, 2] && Locs(Kept(world[1], s)) == [1, 2]
    ensures Recs(Kept(world[0], s)) == [0, 2] && Recs(Kept(world[1], s)) == [1, 2]
  {
    assert s == [s[0], s[1], s[2]];
    forall r, i | 0 <= r < 2 && 0 <= i < 3
      ensures s[i].rec in MyRecords(world[r], s) <==> Mine(world[r], s, i)
    {
      InMyRecords(world[r], s, i);
    }
    OfRecordsThree(s[0], s[1], s[2], MyRecords(world[0], s));
    OfRecordsThree(s[0], s[1], s[2], MyRecords(world[1], s));
    assert Kept(world[0], s) == [s[0], s[2]] && Kept(world[1], s) == [s[1], s[2]];
  }

  lemma OwnedThere(glb: seq<DistRank>)
    requires |glb| == 3 && glb[0].rank == 0 && glb[1].rank == 1 && glb[2].rank == 0
    requires glb[0].dist.Finite? && glb[1].dist.Finite? && glb[2].dist.Finite?
    ensures OwnedLists(glb, 2) == [[0, 2], [1]] && Flatten([[0, 2], [1]]) == [0, 2, 1]
    ensures GatheredIndex(glb, 2, 0) == 0 && GatheredIndex(glb, 2, 1) == 2 && GatheredIndex(glb, 2, 2) == 1
  {
    assert OwnedLocs(glb, 0, 1) == [0] && OwnedLocs(glb, 0, 2) == [0] && OwnedLocs(glb, 0, 3) == [0, 2];
    assert OwnedLocs(glb, 1, 1) == [] && OwnedLocs(glb, 1, 2) == [1] && OwnedLocs(glb, 1, 3) == [1];
    var lists := OwnedLists(glb, 2);
    assert lists == [[0, 2], [1]];
    assert lists[..0] == [] && lists[..1] == [[0, 2]] && [[0, 2]][..0] == [];
    assert Flatten([[0, 2]]) == [0, 2];
  }

  lemma OffsetThere()
    ensures WellFormed(Views) && PairDistribution.Offset(Views) == 2
  {
    var offsets := seq(2, r requires 0 <= r < 2 => PairDistribution.LocalOffset(Views[r]));
    assert offsets == [2, 2];
    assert [2, 2][..1] == [2] && [2][..0] == [];
    assert MaxAll([2]) == 2 && MaxAll([2, 2]) == 2;
  }

  /** On every such Halo the ranks compute `Views`: three distinct locations, but an offset of two. */
  lemma OffsetFallsShort(world: seq<Rule>, s: seq<Obs>)
    requires SharedLast(world, s)
    ensures AscendingStream(s) && NamesOwners(world, s, Owners(world, s))
    ensures forall r :: 0 <= r < 2 ==> IsHaloView(world, s, Owners(world, s), r, Views[r])
    ensures Sound(Views) && |Gathered(Views)| == 3
    ensures PairDistribution.Offset(Views) == 2
  {
    var glb := Owners(world, s);
    OwnersThere(world, s);
    KeptThere(world, s);
    OwnedThere(glb);
    assert IsHaloView(world, s, glb, 0, Views[0]) && IsHaloView(world, s, glb, 1, Views[1]);
    HaloIsSound(world, s, glb, Views);
    GatheredIsOwned(world, s, glb, Views);
    OffsetThere();
  }

  lemma CompanionsThere(second: seq<View>, nlevs: nat)
    requires nlevs > 0 && Sound(second) && AreCompanionViews(second, [[0, 2], [1, 2]], [{0, 2}, {1}], nlevs)
    ensures Gathered(second) != []
  {
    var held: seq<seq<nat>>, all: seq<nat> := [[0, 2], [1, 2]], [0, 1, 2];
    forall rec: nat
      ensures rec in all <==> exists r :: 0 <= r < |held| && rec in held[r]
    {
      if rec in all { assert rec in held[0] || rec in held[1]; }
    }
    CompanionCount(second, held, [{0, 2}, {1}], nlevs, all);
  }

  /** The record numbers of both ranks. */
  ghost function RecnumsThere(world: seq<Rule>, s: seq<Obs>): (recnums: seq<seq<nat>>)
    requires SharedLast(world, s)
    ensures recnums == [[0, 2], [1, 2]]
  {
    KeptThere(world, s);
    [Recs(Kept(world[0], s)), Recs(Kept(world[1], s))]
  }

  /** The records that the extension finds on the ranks, and those of their patch locations. */
  lemma RecordsThere(world: seq<Rule>, s: seq<Obs>)
    requires SharedLast(world, s)
    ensures HeldRecs(RecnumsThere(world, s), 3) == [[0, 2], [1, 2]]
    ensures PatchRecs(RecnumsThere(world, s), Views) == [{0, 2}, {1}]
  {
    HeldRecsThere(RecnumsThere(world, s));
    PatchRecsThere(RecnumsThere(world, s));
  }

  lemma FirstThree(items: set<nat>)
    ensures Enumerate(items, 3)
            == (if 0 in items then [0] else []) + (if 1 in items then [1] else []) + if 2 in items then [2] else []
  {
    assert Enumerate(items, 1) == if 0 in items then [0] else [];
    assert Enumerate(items, 2) == Enumerate(items, 1) + if 1 in items then [1] else [];
  }

  lemma SelectedThere(a: seq<nat>, b: seq<nat>)
    requires a == [0, 2] && b == [1, 2]
    ensures Select(a, [true, true]) == a && Select(b, [true, false]) == [1]
  {
    assert a[..1] == [0] && [true, true][..1] == [true] && Select(a[..1], [true]) == a[..1];
    assert b[..1] == [1] && [true, false][..1] == [true] && Select(b[..1], [true]) == b[..1];
  }

  lemma HeldThere(a: seq<nat>, b: seq<nat>)
    requires a == [0, 2] && b == [1, 2]
    ensures OriginalRecs(a, 3) == a && OriginalRecs(b, 3) == b
  {
    FirstThree(Elements(a));
    FirstThree(Elements(b));
    assert a[0] in a && a[1] in a && b[0] in b && b[1] in b;
  }

  lemma HeldRecsThere(recnums: seq<seq<nat>>)
    requires recnums == [[0, 2], [1, 2]]
    ensures HeldRecs(recnums, 3) == recnums
  {
    HeldThere(recnums[0], recnums[1]);
  }

  lemma PatchRecsThere(recnums: seq<seq<nat>>)
    requires recnums == [[0, 2], [1, 2]]
    ensures PatchRecs(recnums, Views) == [{0, 2}, {1}]
  {
    SelectedThere(recnums[0], recnums[1]);
    var owned := PatchRecs(recnums, Views);
    assert owned[0] == Elements(recnums[0]) == {0, 2} && owned[1] == {1};
  }

  /**
   Extending any such Halo makes a companion share its index with an original location: the pair
   breaks the contract for every number of levels and every bound above the original locations.
   */
  lemma PairCollides(world: seq<Rule>, s: seq<Obs>, second: seq<View>, nlevs: nat, locBound: nat)
    requires SharedLast(world, s) && nlevs > 0 && locBound >= 3 && Sound(second)
    requires AreCompanionViews(second, HeldRecs(RecnumsThere(world, s), 3), PatchRecs(RecnumsThere(world, s), Views),
                               nlevs)
    ensures WellFormed(PairDistribution.PairViews(Views, second, locBound))
    ensures PairDistribution.Collides(PairDistribution.PairViews(Views, second, locBound))
  {
    OffsetFallsShort(world, s);
    RecordsThere(world, s);
    CompanionsThere(second, nlevs);
    PairDistribution.PairIndexCollides(Views, Gathered(Views), second, Gathered(second), locBound);
  }

  /** The records held and owned there. */
  lemma OwnershipThere()
    ensures OwnershipOf([[0, 2], [1, 2]], [{0, 2}, {1}])
  {
    var held: seq<seq<nat>>, owned: seq<set<nat>> := [[0, 2], [1, 2]], [{0, 2}, {1}];
    forall r, rec | 0 <= r < |held| && rec in held[r]
      ensures exists q :: 0 <= q < |owned| && rec in owned[q]
    {
      assert rec in owned[0] || rec in owned[1];
    }
  }

  /** There are such Halos. */
  lemma SharedLastExists()
    ensures exists world, s :: SharedLast(world, s)
  {
    var world := [InHalo((p: Point2) => p.lon, 5.0), InHalo((p: Point2) => p.lat, 5.0)];
    var s := [Obs(0, 0, Point2(0.0, 9.0)), Obs(1, 1, Point2(9.0, 0.0)), Obs(2, 2, Point2(0.0, 1.0))];
    assert s[0].rec == 0 && s[1].rec == 1 && s[2].rec == 2;
    assert s[..2] == [s[0], s[1]] && s[..2][..1] == [s[0]] && s[..2][..1][..0] == [];
    assert s[..2][0].rec == 0 && s[..2][1].rec == 1 && s[..2][..1][0].rec == 0;
    assert FirstPoint(s, 0) == s[0].point && FirstPoint(s, 1) == s[1].point && FirstPoint(s, 2) == s[2].point;
    assert SharedLast(world, s);
  }
}
