/**
 The Halo distribution (src/distribution/Halo.cc). A rank holds every record whose first location
 lies within a radius of its centre, so ranks overlap; the ranks then agree on one owner per
 location. The method run by all ranks together is cut at its MPI calls.
 */
module HaloDistribution {
  import opened Seqs
  import opened Collectives
  import opened Contract
  import opened Streams

  // ----- Specification: the owner of a record

  ghost predicate IsHaloWorld(world: seq<Rule>) {
    forall r :: 0 <= r < |world| ==> world[r].InHalo?
  }

  function DistanceTo(d: Rule, s: seq<Obs>, rec: nat): real
    requires d.InHalo? && Appears(s, rec)
  {
    (d.distance)(FirstPoint(s, rec))
  }

  /** Rank `r` holds the record, no holder is closer, and no holder as close has a lower number. */
  ghost predicate OwnsRecord(world: seq<Rule>, s: seq<Obs>, rec: nat, r: nat)
    requires IsHaloWorld(world)
  {
    && r < |world| && Appears(s, rec) && Mine(world[r], s, rec)
    && forall q :: 0 <= q < |world| && Mine(world[q], s, rec) ==>
         var dr, dq := DistanceTo(world[r], s, rec), DistanceTo(world[q], s, rec);
         dr < dq || (dr == dq && r <= q)
  }

  /**
   The owner of a record without the words of the specification: among the ranks with the record's
   first point `p` inside their radius, the nearest one, and the lowest-numbered of several.
   */
  lemma OwnerIsNearest(world: seq<Rule>, s: seq<Obs>, rec: nat, r: nat, i: nat)
    requires IsHaloWorld(world) && r < |world|
    requires i < |s| && s[i].rec == rec && forall j :: 0 <= j < i ==> s[j].rec != rec
    ensures var p := s[i].point;
            OwnsRecord(world, s, rec, r) <==>
            && (world[r].distance)(p) <= world[r].radius
            && forall q :: 0 <= q < |world| && (world[q].distance)(p) <= world[q].radius ==>
                 (world[r].distance)(p) < (world[q].distance)(p)
                 || ((world[r].distance)(p) == (world[q].distance)(p) && r <= q)
  {
    FirstPointIs(s, rec, i);
  }

  ghost predicate HeldSomewhere(world: seq<Rule>, s: seq<Obs>, rec: nat) {
    exists r :: 0 <= r < |world| && Mine(world[r], s, rec)
  }

  /** A rank's contribution to the reduction at location `g`, having stored the locations `os`. */
  ghost predicate IsEntry(d: Rule, s: seq<Obs>, os: seq<Obs>, rank: nat, g: nat, e: DistRank)
    requires d.InHalo? && forall o :: o in os ==> Appears(s, o.rec)
  {
    && e.rank == rank
    && (forall o :: o in os && o.loc == g ==> e.dist == Finite(DistanceTo(d, s, o.rec)))
    && ((forall o :: o in os ==> o.loc != g) ==> e.dist == Infinite)
  }

  /** The reduced vector names, for each held location, the rank owning its record. */
  ghost predicate NamesOwners(world: seq<Rule>, s: seq<Obs>, glb: seq<DistRank>)
    requires IsHaloWorld(world)
  {
    && (forall o :: o in s && o.loc < |glb| && HeldSomewhere(world, s, o.rec) ==>
          glb[o.loc].dist.Finite? && OwnsRecord(world, s, o.rec, glb[o.loc].rank))
    && (forall g :: 0 <= g < |glb| && glb[g].dist.Finite? ==> LocationHeld(world, s, g))
  }

  ghost predicate LocationHeld(world: seq<Rule>, s: seq<Obs>, g: nat) {
    exists o :: o in s && o.loc == g && HeldSomewhere(world, s, o.rec)
  }

  lemma KeptAppears(d: Rule, s: seq<Obs>)
    ensures forall o :: o in Kept(d, s) ==> o in s && Appears(s, o.rec)
  {
    KeptMember(d, s);
  }

  // ----- The class, one object per rank

  class Halo {
    const rank: nat
    const distance: Point2 -> real
    const radius: real
    var recordsInHalo: set<nat>
    var recordsOutsideHalo: set<nat>
    var recordDistancesFromCenter: map<nat, real>
    var haloLocVector: seq<nat>
    var haloLocRecords: seq<nat>
    var patchObsBool: seq<bool>
    var globalUniqueConsecutiveLocIndices: seq<nat>
    /** Everything assigned so far. */
    ghost var stream: seq<Obs>

    function MyRule(): (d: Rule)
      ensures d.InHalo?
    {
      InHalo(distance, radius)
    }

    /** While records are being assigned: every container is determined by the stream. */
    ghost predicate Assigning()
      reads this
    {
      var kept := Kept(MyRule(), stream);
      && recordsInHalo == MyRecords(MyRule(), stream)
      && (forall rec :: rec in recordsOutsideHalo <==> Appears(stream, rec) && !Mine(MyRule(), stream, rec))
      && recordDistancesFromCenter.Keys == recordsInHalo
      && (forall rec :: rec in recordsInHalo ==>
            Appears(stream, rec) && recordDistancesFromCenter[rec] == DistanceTo(MyRule(), stream, rec))
      && haloLocVector == Locs(kept)
      && haloLocRecords == Recs(kept)
      && patchObsBool == [] && globalUniqueConsecutiveLocIndices == []
    }

    constructor (rank: nat, distance: Point2 -> real, radius: real, haloSize: real)
      ensures this.rank == rank && this.distance == distance && this.radius == radius + haloSize
      ensures Assigning() && stream == []
    {
      this.rank, this.distance, this.radius := rank, distance, radius + haloSize;
      recordsInHalo, recordsOutsideHalo, recordDistancesFromCenter := {}, {}, map[];
      haloLocVector, haloLocRecords, patchObsBool, globalUniqueConsecutiveLocIndices := [], [], [], [];
      stream := [];
    }

    method AssignRecord(recNum: nat, locNum: nat, point: Point2)
      requires Assigning()
      modifies this
      ensures Assigning() && stream == old(stream) + [Obs(recNum, locNum, point)]
      ensures recNum !in old(recordsInHalo) && recNum !in old(recordsOutsideHalo) ==>
                (recNum in recordsInHalo <==> distance(point) <= radius)
      ensures recNum in old(recordsInHalo) || recNum in old(recordsOutsideHalo) ==> recordsInHalo == old(recordsInHalo)
      ensures haloLocVector == old(haloLocVector) + if recNum in recordsInHalo then [locNum] else []
    {
      ghost var o := Obs(recNum, locNum, point);
      ghost var s := stream;
      ghost var all := s + [o];
      ghost var d := MyRule();
      StepFacts(d, s, o);
      if recNum in recordsOutsideHalo {
        stream := all;
        return;
      }
      if recNum !in recordsInHalo {
        var dist := distance(point);
        if dist <= radius {
          recordsInHalo := recordsInHalo + {recNum};
          recordDistancesFromCenter := recordDistancesFromCenter[recNum := dist];
        } else {
          recordsOutsideHalo := recordsOutsideHalo + {recNum};
          stream := all;
          return;
        }
      }
      haloLocVector := haloLocVector + [locNum];
      haloLocRecords := haloLocRecords + [recNum];
      stream := all;
    }

    /** Every location of a record in the halo is stored, and no other. */
    lemma StoresExactly(l: nat)
      requires Assigning()
      ensures l in haloLocVector <==>
              exists k :: 0 <= k < |stream| && stream[k].loc == l && stream[k].rec in recordsInHalo
    {
      LocIsKept(MyRule(), stream, l);
    }

    /** The distance stored for a record is that of its first location. */
    lemma StoresFirstDistance(i: nat)
      requires Assigning() && i < |stream| && stream[i].rec in recordsInHalo
      requires forall j :: 0 <= j < i ==> stream[j].rec != stream[i].rec
      ensures recordDistancesFromCenter[stream[i].rec] == distance(stream[i].point)
    {
      FirstPointIs(stream, stream[i].rec, i);
    }

    /** A Halo answers for exactly the records whose first location lies within the radius. */
    lemma HoldsWithinRadius()
      requires recordsInHalo == MyRecords(MyRule(), stream)
      ensures forall rec: nat :: rec in recordsInHalo <==>
                exists i :: 0 <= i < |stream| && stream[i].rec == rec
                  && (forall j :: 0 <= j < i ==> stream[j].rec != rec)
                            && distance(stream[i].point) <= radius
    {
      forall rec: nat
        ensures rec in recordsInHalo <==>
                exists i :: 0 <= i < |stream| && stream[i].rec == rec
                  && (forall j :: 0 <= j < i ==> stream[j].rec != rec)
                            && distance(stream[i].point) <= radius
      {
        InMyRecords(MyRule(), stream, rec);
        MineMeans(MyRule(), stream, rec);
      }
    }

    predicate IsMyRecord(recNum: nat): (b: bool)
      reads this
    {
      recNum in recordsInHalo
    }

    /** The stream `s` has been assigned; this outlives the containers used while assigning. */
    ghost predicate HasAssigned(s: seq<Obs>)
      reads this
    {
      stream == s && recordsInHalo == MyRecords(MyRule(), s)
    }

    /** What this rank offers its callers; the held locations are those the reader has recorded. */
    ghost function MyView(): View
      reads this
    {
      View(Locs(Kept(MyRule(), stream)), patchObsBool, globalUniqueConsecutiveLocIndices)
    }

    /** allGathervImpl up to the gather: the elements of `x` at patch locations, if `x` has the right size. */
    method AtPatchObs<T>(x: seq<T>) returns (ok: bool, xtmp: seq<T>)
      ensures ok <==> |x| == |patchObsBool|
      ensures ok ==> xtmp == Select(x, patchObsBool)
    {
      xtmp := [];
      if |x| != |patchObsBool| {
        return false, xtmp;
      }
      for ii := 0 to |x|
        invariant xtmp == Select(x[..ii], patchObsBool[..ii])
      {
        SelectSnoc(x, patchObsBool, ii);
        if patchObsBool[ii] {
          xtmp := xtmp + [x[ii]];
        }
      }
      assert x[..|x|] == x && patchObsBool[..|x|] == patchObsBool;
      return true, xtmp;
    }

    /** One more than the last stored location: this rank's contribution to the first reduction. */
    method LocalNumGlobalLocs() returns (n: nat)
      ensures haloLocVector == [] ==> n == 0
      ensures haloLocVector != [] ==> n == haloLocVector[|haloLocVector| - 1] + 1
    {
      n := 0;
      if haloLocVector != [] {
        n := haloLocVector[|haloLocVector| - 1] + 1;
      }
    }

    /** This rank's contribution to the min-with-location reduction. */
    method LocalDistances(nglocs: nat) returns (v: seq<DistRank>)
      requires Assigning() && AscendingStream(stream)
      requires forall i :: 0 <= i < |haloLocVector| ==> haloLocVector[i] < nglocs
      ensures |v| == nglocs
      ensures forall o :: o in Kept(MyRule(), stream) ==> Appears(stream, o.rec)
      ensures forall g :: 0 <= g < nglocs ==> IsEntry(MyRule(), stream, Kept(MyRule(), stream), rank, g, v[g])
    {
      ghost var kept := Kept(MyRule(), stream);
      KeptAppears(MyRule(), stream);
      KeptMember(MyRule(), stream);
      OfRecordsAscending(stream, MyRecords(MyRule(), stream));
      v := seq(nglocs, _ => DistRank(Infinite, rank));
      for loc := 0 to |haloLocVector|
        invariant |v| == nglocs
        invariant forall g :: 0 <= g < nglocs ==> IsEntry(MyRule(), stream, kept[..loc], rank, g, v[g])
      {
        var gloc := haloLocVector[loc];
        var recNum := haloLocRecords[loc];
        assert kept[loc] in kept;
        InMyRecords(MyRule(), stream, kept[loc].rec);
        var dist := recordDistancesFromCenter[recNum];
        v := v[gloc := DistRank(Finite(dist), rank)];
        assert kept[..loc + 1] == kept[..loc] + [kept[loc]];
        forall o | o in kept[..loc]
          ensures o.loc != gloc
        {
          var i :| 0 <= i < loc && kept[i] == o;
          assert Locs(kept)[i] < Locs(kept)[loc];
        }
      }
      assert kept[..|haloLocVector|] == kept;
    }

    /** Marks the stored locations whose reduced owner is this rank. */
    method MarkPatchObs(glb: seq<DistRank>)
      requires patchObsBool == []
      requires forall i :: 0 <= i < |haloLocVector| ==> haloLocVector[i] < |glb|
      modifies this`patchObsBool
      ensures |patchObsBool| == |haloLocVector|
      ensures forall j :: 0 <= j < |haloLocVector| ==> (patchObsBool[j] <==> glb[haloLocVector[j]].rank == rank)
    {
      var patchObsLoc: set<nat> := {};
      for i := 0 to |haloLocVector|
        invariant patchObsLoc == set k | 0 <= k < i && glb[haloLocVector[k]].rank == rank :: haloLocVector[k]
      {
        if glb[haloLocVector[i]].rank == rank {
          patchObsLoc := patchObsLoc + {haloLocVector[i]};
        }
      }
      for j := 0 to |haloLocVector|
        invariant |patchObsBool| == j
        invariant forall k :: 0 <= k < j ==> (patchObsBool[k] <==> glb[haloLocVector[k]].rank == rank)
      {
        patchObsBool := patchObsBool + [haloLocVector[j] in patchObsLoc];
      }
    }

    /** Gives every stored location its index in the vector gathered over `size` ranks. */
    method ComputeGlobalUniqueConsecutiveLocIndices(glb: seq<DistRank>, size: nat)
      requires globalUniqueConsecutiveLocIndices == [] && size > 0
      requires Ascending(haloLocVector)
      requires forall g :: 0 <= g < |glb| && glb[g].dist.Finite? ==> glb[g].rank < size
      requires forall i :: 0 <= i < |haloLocVector| ==> haloLocVector[i] < |glb| && glb[haloLocVector[i]].dist.Finite?
      modifies this`globalUniqueConsecutiveLocIndices
      ensures |globalUniqueConsecutiveLocIndices| == |haloLocVector|
      ensures forall j :: 0 <= j < |haloLocVector| ==>
                globalUniqueConsecutiveLocIndices[j] == GatheredIndex(glb, size, haloLocVector[j])
    {
      var indices, counts := IndicesOnOwners(haloLocVector, glb, size);
      var previous := ExclusiveScan(counts);
      ScanIsStart(counts, previous, OwnedLists(glb, size));
      // Make the indices globally unique.
      globalUniqueConsecutiveLocIndices := indices;
      for loc := 0 to |indices|
        invariant |globalUniqueConsecutiveLocIndices| == |indices|
        invariant forall j :: 0 <= j < loc ==>
                    globalUniqueConsecutiveLocIndices[j] == GatheredIndex(glb, size, haloLocVector[j])
        invariant forall j :: loc <= j < |indices| ==> globalUniqueConsecutiveLocIndices[j] == indices[j]
      {
        var owner := glb[haloLocVector[loc]].rank;
        globalUniqueConsecutiveLocIndices :=
          globalUniqueConsecutiveLocIndices[loc := globalUniqueConsecutiveLocIndices[loc] + previous[owner]];
      }
    }

    /** What this rank does with the result of the reductions. */
    method ReceiveOwners(glb: seq<DistRank>, size: nat)
      requires Assigning() && size > 0
      requires Ascending(haloLocVector)
      requires forall g :: 0 <= g < |glb| && glb[g].dist.Finite? ==> glb[g].rank < size
      requires forall i :: 0 <= i < |haloLocVector| ==> haloLocVector[i] < |glb| && glb[haloLocVector[i]].dist.Finite?
      modifies this
      ensures stream == old(stream) && recordsInHalo == old(recordsInHalo)
      ensures FollowsOwners(glb, size, rank, MyView())
      ensures recordsOutsideHalo == {}
    {
      assert haloLocVector != [] ==> haloLocVector[0] < |glb|;
      recordsOutsideHalo := {};
      if |glb| > 0 {
        MarkPatchObs(glb);
        recordDistancesFromCenter := map[];
        haloLocRecords := [];
        ComputeGlobalUniqueConsecutiveLocIndices(glb, size);
        haloLocVector := [];
      }
    }
  }

  /**
   Step 1: the index of each stored location among the locations of the rank that owns it, and the
   number of locations each rank owns.
   */
  method IndicesOnOwners(locs: seq<nat>, glb: seq<DistRank>, size: nat) returns (indices: seq<nat>, counts: seq<nat>)
    requires Ascending(locs)
    requires forall g :: 0 <= g < |glb| && glb[g].dist.Finite? ==> glb[g].rank < size
    requires forall i :: 0 <= i < |locs| ==> locs[i] < |glb| && glb[locs[i]].dist.Finite?
    ensures |counts| == size && |indices| == |locs|
    ensures forall q :: 0 <= q < size ==> counts[q] == |OwnedLocs(glb, q, |glb|)|
    ensures forall j :: 0 <= j < |locs| ==> indices[j] == |OwnedLocs(glb, glb[locs[j]].rank, locs[j])|
  {
    indices := [];
    var haloLocSet := set i | 0 <= i < |locs| :: locs[i];
    counts := seq(size, _ => 0);
    for gloc := 0 to |glb|
      invariant |counts| == size
      invariant forall q :: 0 <= q < size ==> counts[q] == |OwnedLocs(glb, q, gloc)|
      invariant |indices| <= |locs|
      invariant forall j :: 0 <= j < |indices| ==> locs[j] < gloc
      invariant forall j :: |indices| <= j < |locs| ==> locs[j] >= gloc
      invariant forall j :: 0 <= j < |indices| ==> indices[j] == |OwnedLocs(glb, glb[locs[j]].rank, locs[j])|
    {
      if glb[gloc].dist.Finite? {
        var owner := glb[gloc].rank;
        if gloc in haloLocSet {
          assert locs[|indices|] == gloc;
          indices := indices + [counts[owner]];
        }
        counts := counts[owner := counts[owner] + 1];
      }
    }
  }

  /** Step 2: the sums of the counts of all lower ranks. */
  method ExclusiveScan(counts: seq<nat>) returns (previous: seq<nat>)
    ensures |previous| == |counts|
    ensures counts != [] ==> previous[0] == 0
    ensures forall q :: 0 < q < |counts| ==> previous[q] == previous[q - 1] + counts[q - 1]
  {
    previous := seq(|counts|, _ => 0);
    if counts == [] { return; }
    for q := 1 to |counts|
      invariant |previous| == |counts| && previous[0] == 0
      invariant forall k :: 0 < k < q ==> previous[k] == previous[k - 1] + counts[k - 1]
    {
      previous := previous[q := previous[q - 1] + counts[q - 1]];
    }
  }

  // ----- The gathered vector in terms of the reduced owners

  /** The held locations below `n` that rank `r` owns, ascending. */
  function OwnedLocs(glb: seq<DistRank>, r: nat, n: nat): seq<nat>
    requires n <= |glb|
  {
    if n == 0 then []
    else OwnedLocs(glb, r, n - 1) + if glb[n - 1].dist.Finite? && glb[n - 1].rank == r then [n - 1] else []
  }

  lemma {:induction false} OwnedLocsMember(glb: seq<DistRank>, r: nat, n: nat)
    requires n <= |glb|
    ensures Ascending(OwnedLocs(glb, r, n))
    ensures forall g: nat :: g in OwnedLocs(glb, r, n) <==> g < n && glb[g].dist.Finite? && glb[g].rank == r
  {
    if n > 0 {
      OwnedLocsMember(glb, r, n - 1);
      var ls := OwnedLocs(glb, r, n - 1);
      assert forall i :: 0 <= i < |ls| ==> ls[i] in ls;
    }
  }

  function OwnedLists(glb: seq<DistRank>, size: nat): seq<seq<nat>> {
    seq(size, r requires 0 <= r < size => OwnedLocs(glb, r, |glb|))
  }

  lemma {:induction false} ScanIsStart(counts: seq<nat>, previous: seq<nat>, lists: seq<seq<nat>>)
    requires |counts| == |previous| == |lists|
    requires forall q :: 0 <= q < |lists| ==> counts[q] == |lists[q]|
    requires counts != [] ==> previous[0] == 0
    requires forall q :: 0 < q < |counts| ==> previous[q] == previous[q - 1] + counts[q - 1]
    ensures forall q :: 0 <= q < |lists| ==> previous[q] == Start(lists, q)
  {
    for n := 0 to |lists|
      invariant forall q :: 0 <= q < n ==> previous[q] == Start(lists, q)
    {
      if n > 0 { StartStep(lists, n - 1); }
    }
  }

  /** Owned by lower ranks, plus owned by the same rank and before `g`. */
  function GatheredIndex(glb: seq<DistRank>, size: nat, g: nat): nat
    requires g < |glb| && glb[g].rank < size
  {
    Start(OwnedLists(glb, size), glb[g].rank) + |OwnedLocs(glb, glb[g].rank, g)|
  }

  /** What one more location does to the specification of a rank's containers. */
  lemma StepFacts(d: Rule, s: seq<Obs>, o: Obs)
    requires d.InHalo?
    ensures MyRecords(d, s + [o]) == MyRecords(d, s) + if Mine(d, s + [o], o.rec) then {o.rec} else {}
    ensures Locs(Kept(d, s + [o])) == Locs(Kept(d, s)) + if Mine(d, s + [o], o.rec) then [o.loc] else []
    ensures Recs(Kept(d, s + [o])) == Recs(Kept(d, s)) + if Mine(d, s + [o], o.rec) then [o.rec] else []
    ensures forall rec :: Appears(s + [o], rec) <==> Appears(s, rec) || rec == o.rec
    ensures forall rec :: Appears(s, rec) ==>
              Mine(d, s + [o], rec) == Mine(d, s, rec) && DistanceTo(d, s + [o], rec) == DistanceTo(d, s, rec)
    ensures !Appears(s, o.rec) ==> DistanceTo(d, s + [o], o.rec) == (d.distance)(o.point)
    ensures forall rec :: rec in MyRecords(d, s) <==> Appears(s, rec) && Mine(d, s, rec)
  {
    MyRecordsSnoc(d, s, o);
    KeptSnoc(d, s, o);
    assert (s + [o])[..|s|] == s;
    forall rec
      ensures Appears(s + [o], rec) <==> Appears(s, rec) || rec == o.rec
      ensures rec in MyRecords(d, s) <==> Appears(s, rec) && Mine(d, s, rec)
    {
      AppearsSnoc(s, o, rec);
      InMyRecords(d, s, rec);
    }
    forall rec | Appears(s, rec)
      ensures Mine(d, s + [o], rec) == Mine(d, s, rec) && DistanceTo(d, s + [o], rec) == DistanceTo(d, s, rec)
    {
      FirstPointStable(s, [o], rec);
    }
  }

  lemma {:induction false} OwnedLocsAt(glb: seq<DistRank>, r: nat, n: nat, g: nat)
    requires g < n <= |glb| && glb[g].dist.Finite? && glb[g].rank == r
    ensures |OwnedLocs(glb, r, g)| < |OwnedLocs(glb, r, n)|
    ensures OwnedLocs(glb, r, n)[|OwnedLocs(glb, r, g)|] == g
  {
    if g < n - 1 {
      OwnedLocsAt(glb, r, n - 1, g);
    }
  }

  // ----- All ranks together

  /** The contributions of all ranks: each entry is that of the locations the rank has stored. */
  ghost predicate AreEntries(world: seq<Rule>, s: seq<Obs>, vs: seq<seq<DistRank>>, n: nat)
    requires IsHaloWorld(world)
  {
    && |vs| == |world| && (forall r :: 0 <= r < |world| ==> |vs[r]| == n)
    && (forall r, o :: 0 <= r < |world| && o in Kept(world[r], s) ==> Appears(s, o.rec))
    && (forall r, g :: 0 <= r < |world| && 0 <= g < n ==> IsEntry(world[r], s, Kept(world[r], s), r, g, vs[r][g]))
  }

  /** The reduced entry at a location is one of the contributions, and the least of them. */
  ghost predicate IsLeastEntry(vs: seq<seq<DistRank>>, g: nat, e: DistRank)
    requires forall r :: 0 <= r < |vs| ==> g < |vs[r]|
  {
    && e.rank < |vs| && e == vs[e.rank][g]
    && forall q :: 0 <= q < |vs| ==> e.dist.Less(vs[q][g].dist) || (e.dist == vs[q][g].dist && e.rank <= q)
  }

  lemma ReducedIsLeast(world: seq<Rule>, s: seq<Obs>, vs: seq<seq<DistRank>>, n: nat, g: nat)
    requires IsHaloWorld(world) && AreEntries(world, s, vs, n) && |world| > 0 && g < n
    ensures IsLeastEntry(vs, g, MinLocAll(vs, n)[g])
  {
    var column := seq(|vs|, r requires 0 <= r < |vs| => vs[r][g]);
    MinLocIsLeast(column);
    assert forall r :: 0 <= r < |vs| ==>
             column[r] == vs[r][g] && IsEntry(world[r], s, Kept(world[r], s), r, g, vs[r][g]);
  }

  lemma LeastOwns(world: seq<Rule>, s: seq<Obs>, vs: seq<seq<DistRank>>, n: nat, o: Obs, e: DistRank)
    requires IsHaloWorld(world) && AscendingStream(s) && AreEntries(world, s, vs, n) && |world| > 0
    requires o in s && o.loc < n && HeldSomewhere(world, s, o.rec) && IsLeastEntry(vs, o.loc, e)
    ensures e.dist.Finite? && OwnsRecord(world, s, o.rec, e.rank)
  {
    EntryTellsHolder(world, s, vs, n, o);
  }

  lemma FiniteIsHeld(world: seq<Rule>, s: seq<Obs>, vs: seq<seq<DistRank>>, n: nat, g: nat, e: DistRank)
    requires IsHaloWorld(world) && AreEntries(world, s, vs, n) && |world| > 0 && g < n
    requires IsLeastEntry(vs, g, e) && e.dist.Finite?
    ensures LocationHeld(world, s, g)
  {
    var r := e.rank;
    assert IsEntry(world[r], s, Kept(world[r], s), r, g, vs[r][g]);
    var o :| o in Kept(world[r], s) && o.loc == g;
    KeptMember(world[r], s);
  }

  /** Each location's reduced entry names the owner of its record. */
  lemma ReductionNamesOwners(world: seq<Rule>, s: seq<Obs>, vs: seq<seq<DistRank>>, n: nat)
    requires IsHaloWorld(world) && AscendingStream(s) && AreEntries(world, s, vs, n) && |world| > 0
    ensures NamesOwners(world, s, MinLocAll(vs, n))
  {
    var glb := MinLocAll(vs, n);
    forall o | o in s && o.loc < n && HeldSomewhere(world, s, o.rec)
      ensures glb[o.loc].dist.Finite? && OwnsRecord(world, s, o.rec, glb[o.loc].rank)
    {
      ReducedIsLeast(world, s, vs, n, o.loc);
      LeastOwns(world, s, vs, n, o, glb[o.loc]);
    }
    forall g | 0 <= g < n && glb[g].dist.Finite?
      ensures LocationHeld(world, s, g)
    {
      ReducedIsLeast(world, s, vs, n, g);
      FiniteIsHeld(world, s, vs, n, g, glb[g]);
    }
  }

  lemma EntryTellsHolder(world: seq<Rule>, s: seq<Obs>, vs: seq<seq<DistRank>>, n: nat, o: Obs)
    requires IsHaloWorld(world) && AscendingStream(s) && o in s && o.loc < n && AreEntries(world, s, vs, n)
    ensures Appears(s, o.rec)
    ensures forall r :: 0 <= r < |world| ==>
              vs[r][o.loc].dist == if Mine(world[r], s, o.rec) then Finite(DistanceTo(world[r], s, o.rec)) else Infinite
  {
    forall r | 0 <= r < |world|
      ensures vs[r][o.loc].dist == if Mine(world[r], s, o.rec) then Finite(DistanceTo(world[r], s, o.rec)) else Infinite
    {
      KeptMember(world[r], s);
      assert IsEntry(world[r], s, Kept(world[r], s), r, o.loc, vs[r][o.loc]);
      forall p | p in Kept(world[r], s) && p.loc == o.loc
        ensures p == o
      {
        SameLocation(s, p, o);
      }
    }
  }

  /** Patch flags and indices of a rank, in terms of the reduced vector. */
  predicate FollowsOwners(glb: seq<DistRank>, size: nat, r: nat, v: View) {
    && |v.patch| == |v.index| == |v.locs|
    && forall j :: 0 <= j < |v.locs| ==>
         && v.locs[j] < |glb| && glb[v.locs[j]].rank < size
         && (v.patch[j] <==> glb[v.locs[j]].rank == r)
         && v.index[j] == GatheredIndex(glb, size, v.locs[j])
  }

  ghost predicate IsHaloView(world: seq<Rule>, s: seq<Obs>, glb: seq<DistRank>, r: nat, v: View)
    requires r < |world|
  {
    v.locs == Locs(Kept(world[r], s)) && FollowsOwners(glb, |world|, r, v)
  }

  /** A stored location's reduced entry names the owner of its record. */
  lemma StoredIsOwned(world: seq<Rule>, s: seq<Obs>, glb: seq<DistRank>, r: nat, j: nat)
    requires IsHaloWorld(world) && NamesOwners(world, s, glb) && r < |world|
    requires j < |Kept(world[r], s)| && Kept(world[r], s)[j].loc < |glb|
    ensures var o := Kept(world[r], s)[j];
            o in s && glb[o.loc].dist.Finite? && OwnsRecord(world, s, o.rec, glb[o.loc].rank)
  {
    KeptMember(world[r], s);
    assert Kept(world[r], s)[j] in Kept(world[r], s);
  }

  lemma OwnersAreRanks(world: seq<Rule>, s: seq<Obs>, glb: seq<DistRank>)
    requires IsHaloWorld(world) && NamesOwners(world, s, glb)
    ensures forall g :: 0 <= g < |glb| && glb[g].dist.Finite? ==> glb[g].rank < |world|
  {
    forall g | 0 <= g < |glb| && glb[g].dist.Finite?
      ensures glb[g].rank < |world|
    {
      assert LocationHeld(world, s, g);
    }
  }

  lemma ReadyToReceive(world: seq<Rule>, s: seq<Obs>, glb: seq<DistRank>, r: nat)
    requires IsHaloWorld(world) && AscendingStream(s) && NamesOwners(world, s, glb) && r < |world|
    requires forall i :: 0 <= i < |Kept(world[r], s)| ==> Locs(Kept(world[r], s))[i] < |glb|
    ensures Ascending(Locs(Kept(world[r], s)))
    ensures forall i :: 0 <= i < |Kept(world[r], s)| ==> glb[Locs(Kept(world[r], s))[i]].dist.Finite?
  {
    var kept := Kept(world[r], s);
    OfRecordsAscending(s, MyRecords(world[r], s));
    forall i | 0 <= i < |kept|
      ensures glb[Locs(kept)[i]].dist.Finite?
    {
      assert Locs(kept)[i] == kept[i].loc;
      StoredIsOwned(world, s, glb, r, i);
    }
  }

  lemma MarkedIsOwned(world: seq<Rule>, s: seq<Obs>, glb: seq<DistRank>, r: nat, v: View, g: nat)
    requires IsHaloWorld(world) && NamesOwners(world, s, glb)
    requires r < |world| && IsHaloView(world, s, glb, r, v) && g in Select(v.locs, v.patch)
    ensures g < |glb| && glb[g].dist.Finite? && glb[g].rank == r
  {
    var k :| 0 <= k < |Select(v.locs, v.patch)| && Select(v.locs, v.patch)[k] == g;
    var j := SelectFrom(v.locs, v.patch, k);
    assert v.locs[j] == Kept(world[r], s)[j].loc;
    StoredIsOwned(world, s, glb, r, j);
  }

  lemma OwnedIsMarked(world: seq<Rule>, s: seq<Obs>, glb: seq<DistRank>, r: nat, v: View, g: nat)
    requires IsHaloWorld(world) && NamesOwners(world, s, glb)
    requires r < |world| && IsHaloView(world, s, glb, r, v)
    requires g < |glb| && glb[g].dist.Finite? && glb[g].rank == r
    ensures g in Select(v.locs, v.patch)
  {
    var kept := Kept(world[r], s);
    assert LocationHeld(world, s, g);
    var o :| o in s && o.loc == g && HeldSomewhere(world, s, o.rec);
    KeptMember(world[r], s);
    assert o in kept;
    var j :| 0 <= j < |kept| && kept[j] == o;
    assert v.locs[j] == g;
    SelectAt(v.locs, v.patch, j);
  }

  /** The selected locations of a rank are the ones the reduced vector gives it. */
  lemma PatchIsOwned(world: seq<Rule>, s: seq<Obs>, glb: seq<DistRank>, r: nat, v: View)
    requires IsHaloWorld(world) && AscendingStream(s) && NamesOwners(world, s, glb)
    requires r < |world| && IsHaloView(world, s, glb, r, v)
    ensures Select(v.locs, v.patch) == OwnedLocs(glb, r, |glb|)
  {
    OfRecordsAscending(s, MyRecords(world[r], s));
    SelectAscending(v.locs, v.patch);
    OwnedLocsMember(glb, r, |glb|);
    forall g: nat
      ensures g in Select(v.locs, v.patch) <==> g in OwnedLocs(glb, r, |glb|)
    {
      if g in Select(v.locs, v.patch) { MarkedIsOwned(world, s, glb, r, v, g); }
      if g in OwnedLocs(glb, r, |glb|) { OwnedIsMarked(world, s, glb, r, v, g); }
    }
    AscendingUnique(Select(v.locs, v.patch), OwnedLocs(glb, r, |glb|));
  }

  lemma OwnedListsDistinct(glb: seq<DistRank>, size: nat)
    ensures Distinct(Flatten(OwnedLists(glb, size)))
  {
    var lists := OwnedLists(glb, size);
    forall r | 0 <= r < size
      ensures Distinct(lists[r]) && forall x :: x in lists[r] ==> x < |glb| && glb[x].rank == r
    {
      OwnedLocsMember(glb, r, |glb|);
    }
    FlattenDistinct(lists);
  }

  lemma GatheredIndexPoints(glb: seq<DistRank>, size: nat, g: nat)
    requires g < |glb| && glb[g].dist.Finite? && glb[g].rank < size
    ensures GatheredIndex(glb, size, g) < |Flatten(OwnedLists(glb, size))|
    ensures Flatten(OwnedLists(glb, size))[GatheredIndex(glb, size, g)] == g
  {
    var q := glb[g].rank;
    OwnedLocsAt(glb, q, |glb|, g);
    FlattenAt(OwnedLists(glb, size), q, |OwnedLocs(glb, q, g)|);
  }

  lemma GatheredIsOwned(world: seq<Rule>, s: seq<Obs>, glb: seq<DistRank>, w: seq<View>)
    requires IsHaloWorld(world) && AscendingStream(s) && NamesOwners(world, s, glb) && |w| == |world|
    requires forall r :: 0 <= r < |w| ==> IsHaloView(world, s, glb, r, w[r])
    ensures WellFormed(w) && PatchOnly(w, LocsOf(w)) == OwnedLists(glb, |w|)
  {
    var lists := OwnedLists(glb, |w|);
    forall r | 0 <= r < |w|
      ensures Select(w[r].locs, w[r].patch) == lists[r]
    {
      PatchIsOwned(world, s, glb, r, w[r]);
    }
    assert PatchOnly(w, LocsOf(w)) == lists;
  }

  /** Main result: the views the ranks compute together meet the contract of a distribution. */
  lemma HaloIsSound(world: seq<Rule>, s: seq<Obs>, glb: seq<DistRank>, w: seq<View>)
    requires IsHaloWorld(world) && AscendingStream(s) && NamesOwners(world, s, glb) && |w| == |world|
    requires forall r :: 0 <= r < |w| ==> IsHaloView(world, s, glb, r, w[r])
    ensures Sound(w)
  {
    GatheredIsOwned(world, s, glb, w);
    OwnedListsDistinct(glb, |w|);
    GatheredIsHeld(w);
    forall r | 0 <= r < |w|
      ensures IndexPoints(w[r], Gathered(w))
    {
      HaloIndexPoints(world, s, glb, r, w[r]);
    }
  }

  lemma HaloIndexPoints(world: seq<Rule>, s: seq<Obs>, glb: seq<DistRank>, r: nat, v: View)
    requires IsHaloWorld(world) && NamesOwners(world, s, glb)
    requires r < |world| && IsHaloView(world, s, glb, r, v)
    ensures IndexPoints(v, Flatten(OwnedLists(glb, |world|)))
  {
    forall j | 0 <= j < |v.locs|
      ensures v.index[j] < |Flatten(OwnedLists(glb, |world|))|
      ensures Flatten(OwnedLists(glb, |world|))[v.index[j]] == v.locs[j]
    {
      assert v.locs[j] == Kept(world[r], s)[j].loc;
      StoredIsOwned(world, s, glb, r, j);
      GatheredIndexPoints(glb, |world|, v.locs[j]);
    }
  }

  // ----- The protocol

  function RulesOf(ranks: seq<Halo>): (world: seq<Rule>)
    ensures |world| == |ranks| && forall r :: 0 <= r < |ranks| ==> world[r] == ranks[r].MyRule()
  {
    seq(|ranks|, r requires 0 <= r < |ranks| => ranks[r].MyRule())
  }

  ghost function ViewsOf(ranks: seq<Halo>): (w: seq<View>)
    reads ranks
  {
    seq(|ranks|, r requires 0 <= r < |ranks| reads ranks => ranks[r].MyView())
  }

  ghost predicate IsCommunicator(ranks: seq<Halo>) {
    ranks != [] && forall r :: 0 <= r < |ranks| ==> ranks[r].rank == r
  }

  /** A location is marked as a patch location exactly where its record's owner is the rank itself. */
  ghost predicate MarksOwnRecords(world: seq<Rule>, s: seq<Obs>, w: seq<View>)
    requires IsHaloWorld(world)
  {
    && |w| == |world|
    && forall r, j :: 0 <= r < |w| && 0 <= j < |w[r].patch| ==>
         && j < |Kept(world[r], s)|
         && (w[r].patch[j] <==> OwnsRecord(world, s, Kept(world[r], s)[j].rec, r))
  }

  lemma OwnerIsUnique(world: seq<Rule>, s: seq<Obs>, rec: nat, r: nat, q: nat)
    requires IsHaloWorld(world) && OwnsRecord(world, s, rec, r) && OwnsRecord(world, s, rec, q)
    ensures r == q
  {
  }

  lemma HaloMarksOwnRecords(world: seq<Rule>, s: seq<Obs>, glb: seq<DistRank>, w: seq<View>)
    requires IsHaloWorld(world) && AscendingStream(s) && NamesOwners(world, s, glb) && |w| == |world|
    requires forall r :: 0 <= r < |w| ==> IsHaloView(world, s, glb, r, w[r])
    ensures MarksOwnRecords(world, s, w)
  {
    forall r, j | 0 <= r < |w| && 0 <= j < |w[r].patch|
      ensures j < |Kept(world[r], s)|
      ensures w[r].patch[j] <==> OwnsRecord(world, s, Kept(world[r], s)[j].rec, r)
    {
      assert IsHaloView(world, s, glb, r, w[r]);
      assert w[r].locs[j] == Kept(world[r], s)[j].loc;
      StoredIsOwned(world, s, glb, r, j);
      var rec := Kept(world[r], s)[j].rec;
      if OwnsRecord(world, s, rec, r) {
        OwnerIsUnique(world, s, rec, r, glb[w[r].locs[j]].rank);
      }
    }
  }

  /** The first reduction: one more than the largest location held on any rank. */
  method GlobalNumLocs(ranks: seq<Halo>, ghost s: seq<Obs>) returns (nglocs: nat)
    requires AscendingStream(s)
    requires forall r :: 0 <= r < |ranks| ==> ranks[r].Assigning() && ranks[r].stream == s
    ensures forall r, i :: 0 <= r < |ranks| && 0 <= i < |ranks[r].haloLocVector| ==> ranks[r].haloLocVector[i] < nglocs
  {
    var locals: seq<nat> := [];
    for r := 0 to |ranks|
      invariant |locals| == r
      invariant forall q, i :: 0 <= q < r && 0 <= i < |ranks[q].haloLocVector| ==> ranks[q].haloLocVector[i] < locals[q]
    {
      var n := ranks[r].LocalNumGlobalLocs();
      OfRecordsAscending(s, MyRecords(ranks[r].MyRule(), s));
      locals := locals + [n];
    }
    nglocs := MaxAll(locals);
    MaxAllIsMaximum(locals);
  }

  /** The second reduction: the closest rank holding each location. */
  method GlobalOwners(ranks: seq<Halo>, nglocs: nat, ghost s: seq<Obs>) returns (glb: seq<DistRank>)
    requires IsCommunicator(ranks) && AscendingStream(s)
    requires forall r :: 0 <= r < |ranks| ==> ranks[r].Assigning() && ranks[r].stream == s
    requires forall r, i :: 0 <= r < |ranks| && 0 <= i < |ranks[r].haloLocVector| ==> ranks[r].haloLocVector[i] < nglocs
    ensures |glb| == nglocs
    ensures IsHaloWorld(RulesOf(ranks)) && NamesOwners(RulesOf(ranks), s, glb)
  {
    ghost var world := RulesOf(ranks);
    var vs: seq<seq<DistRank>> := [];
    for r := 0 to |ranks|
      invariant |vs| == r && forall q :: 0 <= q < r ==> |vs[q]| == nglocs
      invariant forall q, o :: 0 <= q < r && o in Kept(world[q], s) ==> Appears(s, o.rec)
      invariant forall q, g :: 0 <= q < r && 0 <= g < nglocs ==>
                  IsEntry(world[q], s, Kept(world[q], s), q, g, vs[q][g])
    {
      var v := ranks[r].LocalDistances(nglocs);
      vs := vs + [v];
    }
    glb := MinLocAll(vs, nglocs);
    ReductionNamesOwners(world, s, vs, nglocs);
  }

  method ReceiveAll(ranks: seq<Halo>, glb: seq<DistRank>)
    requires IsCommunicator(ranks)
    requires forall r :: 0 <= r < |ranks| ==> ranks[r].Assigning() && Ascending(ranks[r].haloLocVector)
    requires forall g :: 0 <= g < |glb| && glb[g].dist.Finite? ==> glb[g].rank < |ranks|
    requires forall r, i :: 0 <= r < |ranks| && 0 <= i < |ranks[r].haloLocVector| ==>
               ranks[r].haloLocVector[i] < |glb| && glb[ranks[r].haloLocVector[i]].dist.Finite?
    modifies ranks
    ensures forall r :: 0 <= r < |ranks| ==>
              && ranks[r].stream == old(ranks[r].stream) && ranks[r].recordsInHalo == old(ranks[r].recordsInHalo)
              && FollowsOwners(glb, |ranks|, r, ranks[r].MyView())
  {
    for r := 0 to |ranks|
      invariant forall q :: r <= q < |ranks| ==> unchanged(ranks[q])
      invariant forall q :: 0 <= q < r ==>
                  && ranks[q].stream == old(ranks[q].stream) && ranks[q].recordsInHalo == old(ranks[q].recordsInHalo)
                  && FollowsOwners(glb, |ranks|, q, ranks[q].MyView())
    {
      ranks[r].ReceiveOwners(glb, |ranks|);
    }
  }

  /** Views `w` that meet the contract, with patches on the owners of the records. */
  ghost predicate ArePatches(world: seq<Rule>, s: seq<Obs>, w: seq<View>) {
    Sound(w) && IsHaloWorld(world) && MarksOwnRecords(world, s, w)
  }

  /**
   The stream `s` has been assigned and the patches have been computed: `w` are the views. The
   universal form keeps the definition closed until `HavePatched` is asserted.
   */
  ghost predicate IsPatched(ranks: seq<Halo>, s: seq<Obs>, w: seq<View>)
    reads ranks
  {
    forall t :: t == s ==> HavePatched(ranks, t, w)
  }

  ghost predicate HavePatched(ranks: seq<Halo>, s: seq<Obs>, w: seq<View>)
    reads ranks
  {
    && w == ViewsOf(ranks) && ArePatches(RulesOf(ranks), s, w)
    && forall r :: 0 <= r < |ranks| ==> ranks[r].HasAssigned(s)
  }

  lemma PatchedAt(ranks: seq<Halo>, s: seq<Obs>, w: seq<View>, r: nat)
    requires IsPatched(ranks, s, w) && r < |ranks|
    ensures |w| == |ranks| && w[r] == ranks[r].MyView() && |w[r].patch| == |w[r].locs| && ranks[r].HasAssigned(s)
  {
    assert HavePatched(ranks, s, w);
  }

  /**
   After the protocol, in terms of the stream alone: a held location is a patch location exactly on
   the nearest rank, the lowest-numbered of several, by the first location of its record.
   */
  lemma PatchGoesToNearest(ranks: seq<Halo>, s: seq<Obs>, w: seq<View>, r: nat, k: nat, i: nat, j: nat)
    requires IsPatched(ranks, s, w) && AscendingStream(s) && r < |ranks| == |w|
    requires k < |s| && i < |s| && s[i].rec == s[k].rec && forall e :: 0 <= e < i ==> s[e].rec != s[k].rec
    requires j < |w[r].locs| && w[r].locs[j] == s[k].loc && |w[r].patch| == |w[r].locs|
    ensures var p := s[i].point;
            w[r].patch[j] <==>
            && ranks[r].distance(p) <= ranks[r].radius
            && forall q :: 0 <= q < |ranks| && ranks[q].distance(p) <= ranks[q].radius ==>
                 ranks[r].distance(p) < ranks[q].distance(p)
                 || (ranks[r].distance(p) == ranks[q].distance(p) && r <= q)
  {
    assert HavePatched(ranks, s, w);
    var world := RulesOf(ranks);
    var kept := Kept(world[r], s);
    KeptMember(world[r], s);
    assert kept[j] in kept;
    SameLocation(s, kept[j], s[k]);
    OwnerIsNearest(world, s, s[k].rec, r, i);
  }

  /** computePatchLocs, run by all ranks in step. */
  method ComputePatchLocs(ranks: seq<Halo>, ghost s: seq<Obs>)
    requires IsCommunicator(ranks) && AscendingStream(s)
    requires forall r :: 0 <= r < |ranks| ==> ranks[r].Assigning() && ranks[r].stream == s
    modifies ranks
    ensures IsPatched(ranks, s, ViewsOf(ranks))
  {
    ghost var world := RulesOf(ranks);
    var nglocs := GlobalNumLocs(ranks, s);
    var glb := GlobalOwners(ranks, nglocs, s);
    forall r | 0 <= r < |ranks|
      ensures Ascending(ranks[r].haloLocVector)
      ensures forall i :: 0 <= i < |ranks[r].haloLocVector| ==> glb[ranks[r].haloLocVector[i]].dist.Finite?
    {
      ReadyToReceive(world, s, glb, r);
    }
    OwnersAreRanks(world, s, glb);
    ReceiveAll(ranks, glb);
    HaloIsSound(world, s, glb, ViewsOf(ranks));
    HaloMarksOwnRecords(world, s, glb, ViewsOf(ranks));
    assert HavePatched(ranks, s, ViewsOf(ranks));
  }

  /** allGatherv, run by all ranks in step; `ok` is false where some rank's assertion fails. */
  method GatherAll<T>(ranks: seq<Halo>, xs: seq<seq<T>>) returns (ok: bool, gathered: seq<T>)
    requires |xs| == |ranks|
    ensures ok <==> Shaped(ViewsOf(ranks), xs)
    ensures ok ==> gathered == AllGatherv(ViewsOf(ranks), xs)
  {
    ghost var w := ViewsOf(ranks);
    var parts: seq<seq<T>> := [];
    ok := true;
    for r := 0 to |ranks|
      invariant |parts| == r
      invariant ok <==> forall q :: 0 <= q < r ==> |xs[q]| == |w[q].patch|
      invariant ok ==> forall q :: 0 <= q < r ==> parts[q] == Select(xs[q], w[q].patch)
    {
      var fits, part := ranks[r].AtPatchObs(xs[r]);
      ok := ok && fits;
      parts := parts + [part];
    }
    gathered := Flatten(parts);
    if ok {
      assert parts == PatchOnly(w, xs);
    }
  }

  /** A rank holding one location of a record holds them all, and owns all or none of them. */
  lemma RecordsAreCoherent(world: seq<Rule>, s: seq<Obs>, w: seq<View>, r: nat, a: Obs, b: Obs)
    requires IsHaloWorld(world) && MarksOwnRecords(world, s, w) && r < |w| && |w[r].patch| == |Kept(world[r], s)|
    requires a in s && b in s && a.rec == b.rec
    ensures a in Kept(world[r], s) <==> b in Kept(world[r], s)
    ensures forall i, j | 0 <= i < |w[r].patch| && 0 <= j < |w[r].patch| ::
              Kept(world[r], s)[i] == a && Kept(world[r], s)[j] == b ==> w[r].patch[i] == w[r].patch[j]
  {
    KeptMember(world[r], s);
  }
}
