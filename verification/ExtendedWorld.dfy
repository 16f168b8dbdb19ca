/**
 What extending an ObsSpace means across ranks: companions are told apart globally, live on the ranks
 of their originals, and are counted once (extendObsSpace, src/ObsSpace.cc).
 */
module ExtendedWorld {
  import opened Seqs
  import opened Collectives
  import opened Contract
  import opened Streams
  import opened Companions
  import opened RecordIndex
  import opened ReplicaDistribution
  import opened Extension
  import opened Accumulators
  import H = HaloDistribution
  import N = NonoverlappingDistribution
  import I = InefficientDistribution
  import P = PairDistribution

  // ----- The bounds that all ranks agree on

  function LocalLocBound(indx: seq<nat>): nat {
    if indx == [] then 0 else indx[|indx| - 1] + 1
  }

  function LocalRecBound(recnums: seq<nat>): nat {
    if recnums == [] then 0 else MaxAll(recnums) + 1
  }

  /**
   What all ranks agree on: every rank's last location and all of its records lie below the bounds,
   and the numbers just below the bounds are the last location and a record of some rank.
   */
  ghost predicate AreLastBounds(vs: seq<Vectors>, locBound: nat, recBound: nat) {
    && (forall r :: 0 <= r < |vs| && vs[r].indx != [] ==> vs[r].indx[|vs[r].indx| - 1] < locBound)
    && (locBound > 0 ==>
          exists r :: 0 <= r < |vs| && vs[r].indx != [] && vs[r].indx[|vs[r].indx| - 1] == locBound - 1)
    && (forall r, rec :: 0 <= r < |vs| && rec in vs[r].recnums ==> rec < recBound)
    && (recBound > 0 ==> exists r :: 0 <= r < |vs| && recBound - 1 in vs[r].recnums)
  }

  /** The bounds lie just above the largest location and the largest record of all ranks. */
  ghost predicate AreBounds(vs: seq<Vectors>, locBound: nat, recBound: nat) {
    forall b :: b == recBound ==> HaveBounds(vs, locBound, b)
  }

  ghost predicate HaveBounds(vs: seq<Vectors>, locBound: nat, recBound: nat) {
    && (forall r, l :: 0 <= r < |vs| && l in vs[r].indx ==> l < locBound)
    && (locBound > 0 ==> exists r :: 0 <= r < |vs| && locBound - 1 in vs[r].indx)
    && (forall r, rec :: 0 <= r < |vs| && rec in vs[r].recnums ==> rec < recBound)
    && (recBound > 0 ==> exists r :: 0 <= r < |vs| && recBound - 1 in vs[r].recnums)
  }

  /** With ascending locations the last one stands for all of them. */
  lemma BoundsHold(vs: seq<Vectors>, locBound: nat, recBound: nat)
    requires AreLastBounds(vs, locBound, recBound) && forall r :: 0 <= r < |vs| ==> Ascending(vs[r].indx)
    ensures AreBounds(vs, locBound, recBound) && HaveBounds(vs, locBound, recBound)
  {
    forall r, l | 0 <= r < |vs| && l in vs[r].indx
      ensures l < locBound
    {
      var indx := vs[r].indx;
      var i :| 0 <= i < |indx| && indx[i] == l;
      assert indx[i] <= indx[|indx| - 1];
    }
  }

  lemma RecBoundIsTight(vs: seq<Vectors>, recs: seq<nat>)
    requires |recs| == |vs| && forall r :: 0 <= r < |vs| ==> recs[r] == LocalRecBound(vs[r].recnums)
    ensures forall r, rec :: 0 <= r < |vs| && rec in vs[r].recnums ==> rec < MaxAll(recs)
    ensures MaxAll(recs) > 0 ==> exists r :: 0 <= r < |vs| && MaxAll(recs) - 1 in vs[r].recnums
  {
    MaxAllIsMaximum(recs);
    forall r | 0 <= r < |vs|
      ensures forall rec :: rec in vs[r].recnums ==> rec < recs[r]
      ensures recs[r] > 0 ==> recs[r] - 1 in vs[r].recnums
    {
      MaxAllIsMaximum(vs[r].recnums);
    }
    if MaxAll(recs) > 0 {
      var r :| 0 <= r < |recs| && recs[r] == MaxAll(recs);
      assert MaxAll(recs) - 1 in vs[r].recnums;
    }
  }

  lemma LocBoundIsTight(vs: seq<Vectors>, locs: seq<nat>)
    requires |locs| == |vs| && forall r :: 0 <= r < |vs| ==> locs[r] == LocalLocBound(vs[r].indx)
    ensures forall r :: 0 <= r < |vs| && vs[r].indx != [] ==> vs[r].indx[|vs[r].indx| - 1] < MaxAll(locs)
    ensures MaxAll(locs) > 0 ==>
              exists r :: 0 <= r < |vs| && vs[r].indx != [] && vs[r].indx[|vs[r].indx| - 1] == MaxAll(locs) - 1
  {
    MaxAllIsMaximum(locs);
    forall r | 0 <= r < |vs|
      ensures locs[r] <= MaxAll(locs)
    {
    }
    if MaxAll(locs) > 0 {
      var r :| 0 <= r < |locs| && locs[r] == MaxAll(locs);
      assert vs[r].indx != [] && vs[r].indx[|vs[r].indx| - 1] == MaxAll(locs) - 1;
    }
  }

  /** The local bounds of a rank and their maxima over all ranks. */
  method GlobalBounds(spaces: seq<ObsSpace>, ghost vs: seq<Vectors>) returns (locBound: nat, recBound: nat)
    requires |vs| == |spaces| && forall r :: 0 <= r < |vs| ==> vs[r] == spaces[r].Now()
    ensures AreLastBounds(vs, locBound, recBound)
  {
    var locs: seq<nat>, recs: seq<nat> := [], [];
    for r := 0 to |spaces|
      invariant |locs| == |recs| == r
      invariant forall q :: 0 <= q < r ==> locs[q] == LocalLocBound(vs[q].indx)
      invariant forall q :: 0 <= q < r ==> recs[q] == LocalRecBound(vs[q].recnums)
    {
      assert vs[r] == spaces[r].Now();
      locs := locs + [LocalLocBound(spaces[r].indx)];
      recs := recs + [LocalRecBound(spaces[r].recnums)];
    }
    locBound, recBound := MaxAll(locs), MaxAll(recs);
    LocBoundIsTight(vs, locs);
    RecBoundIsTight(vs, recs);
  }

  // ----- Locations

  /** Where an extended location comes from. */
  datatype Place = Original(loc: nat) | Companion(rec: nat, lev: int)

  function CompanionsOf(v: Vectors, nlevs: nat, recBound: nat): seq<Obs> {
    CompanionObs(OriginalRecs(v.recnums, recBound), nlevs)
  }

  function PlaceOf(v: Vectors, nlevs: nat, recBound: nat, j: nat): Place
    requires j < |v.indx| + |CompanionsOf(v, nlevs, recBound)|
  {
    if j < |v.indx| then Original(v.indx[j])
    else
      var o := CompanionsOf(v, nlevs, recBound)[j - |v.indx|];
      Companion(o.rec, o.loc - o.rec * nlevs)
  }

  /** `now` is the rank `v` after the extension. */
  ghost predicate IsExtended(v: Vectors, now: Vectors, nlevs: nat, locBound: nat, recBound: nat) {
    forall os :: os == CompanionsOf(v, nlevs, recBound) ==> IsExtendedBy(v, now, os, locBound, recBound)
  }

  ghost predicate IsExtendedBy(v: Vectors, now: Vectors, os: seq<Obs>, locBound: nat, recBound: nat) {
    && |v.indx| == |v.recnums| && IsGrown(v, now, os, locBound, recBound)
    && now.nrecs == v.nrecs + |OriginalRecs(v.recnums, recBound)|
    && (forall l :: l in v.indx ==> l < locBound) && (forall rec :: rec in v.recnums ==> rec < recBound)
  }

  lemma ExtendedAt(v: Vectors, now: Vectors, nlevs: nat, locBound: nat, recBound: nat, j: nat)
    requires IsExtended(v, now, nlevs, locBound, recBound) && j < |now.indx|
    ensures |now.indx| == |now.recnums| == |v.indx| + |CompanionsOf(v, nlevs, recBound)| && |v.recnums| == |v.indx|
    ensures j < |v.indx| ==> now.indx[j] == v.indx[j] < locBound && now.recnums[j] == v.recnums[j] < recBound
    ensures j >= |v.indx| ==>
              var o := CompanionsOf(v, nlevs, recBound)[j - |v.indx|];
              && now.indx[j] == locBound + o.loc && now.recnums[j] == recBound + o.rec
              && o in CompanionsOf(v, nlevs, recBound)
  {
    assert IsExtendedBy(v, now, CompanionsOf(v, nlevs, recBound), locBound, recBound);
    if j < |v.indx| {
      assert v.indx[j] in v.indx && v.recnums[j] in v.recnums;
    }
  }

  /**
   The extended vectors, written out: after the original elements come, for each distinct record of the
   rank in ascending order, `nlevs` locations numbered from `locBound + rec * nlevs` on.
   */
  lemma ExtendedVectorsAre(v: Vectors, now: Vectors, nlevs: nat, locBound: nat, recBound: nat, recs: seq<nat>, k: nat,
                           lev: nat)
    requires IsExtended(v, now, nlevs, locBound, recBound) && Ascending(recs)
    requires (forall rec :: rec in recs <==> rec in v.recnums) && k < |recs| && lev < nlevs
    ensures v.indx <= now.indx && v.recnums <= now.recnums
    ensures |now.indx| == |now.recnums| == |v.indx| + |recs| * nlevs && |v.recnums| == |v.indx|
    ensures var p := |v.indx| + (k * nlevs + lev);
            && p < |now.indx| && now.indx[p] == locBound + (recs[k] * nlevs + lev)
            && now.recnums[p] == recBound + recs[k]
  {
    assert IsExtendedBy(v, now, CompanionsOf(v, nlevs, recBound), locBound, recBound);
    OriginalRecsMember(v.recnums, recBound);
    AscendingUnique(recs, OriginalRecs(v.recnums, recBound));
    LevelAt(recs, nlevs, k, lev);
    ExtendedAt(v, now, nlevs, locBound, recBound, |v.indx| + (k * nlevs + lev));
  }

  /** The record index of an extended rank: original entries stay, a companion entry lists its own locations. */
  lemma ExtendedIndexIs(v: Vectors, now: Vectors, nlevs: nat, locBound: nat, recBound: nat, rec: nat)
    requires IsExtended(v, now, nlevs, locBound, recBound)
    ensures rec < recBound ==> (rec in now.recidx <==> rec in v.recidx)
    ensures rec < recBound && rec in v.recidx ==> now.recidx[rec] == v.recidx[rec]
    ensures rec >= recBound ==> (rec in now.recidx <==> rec in now.recnums)
    ensures rec >= recBound && rec in now.recidx ==>
              && Ascending(now.recidx[rec])
              && forall l: nat :: l in now.recidx[rec] <==> l < |now.recnums| && now.recnums[l] == rec
  {
    assert IsExtendedBy(v, now, CompanionsOf(v, nlevs, recBound), locBound, recBound);
    assert EntryIs(v.recidx, now.recidx, now.recnums, recBound, rec);
    PositionsMember(now.recnums, rec);
  }

  /**
   Main result on locations: two extended locations, on any two ranks, have the same global index
   exactly if they are the same original location or the same level of the same companion record.
   */
  lemma SameIndexSamePlace(a: Vectors, a2: Vectors, b: Vectors, b2: Vectors, nlevs: nat, locBound: nat, recBound: nat,
                           j: nat, k: nat)
    requires IsExtended(a, a2, nlevs, locBound, recBound) && IsExtended(b, b2, nlevs, locBound, recBound)
    requires j < |a2.indx| && k < |b2.indx|
    ensures j < |a.indx| + |CompanionsOf(a, nlevs, recBound)| && k < |b.indx| + |CompanionsOf(b, nlevs, recBound)|
    ensures a2.indx[j] == b2.indx[k] <==> PlaceOf(a, nlevs, recBound, j) == PlaceOf(b, nlevs, recBound, k)
  {
    ExtendedAt(a, a2, nlevs, locBound, recBound, j);
    ExtendedAt(b, b2, nlevs, locBound, recBound, k);
    if j >= |a.indx| && k >= |b.indx| {
      var x := CompanionsOf(a, nlevs, recBound)[j - |a.indx|];
      var y := CompanionsOf(b, nlevs, recBound)[k - |b.indx|];
      if x.loc == y.loc {
        SameCompanionObs(OriginalRecs(a.recnums, recBound), OriginalRecs(b.recnums, recBound), nlevs, x, y);
      }
    }
  }

  /** The global index stays strictly increasing. */
  lemma ExtendedAscends(v: Vectors, now: Vectors, nlevs: nat, locBound: nat, recBound: nat)
    requires IsExtended(v, now, nlevs, locBound, recBound) && Ascending(v.indx)
    ensures Ascending(now.indx)
  {
    assert IsExtendedBy(v, now, CompanionsOf(v, nlevs, recBound), locBound, recBound);
    OriginalRecsMember(v.recnums, recBound);
    CompanionAscending(OriginalRecs(v.recnums, recBound), nlevs);
    var os := CompanionsOf(v, nlevs, recBound);
    forall i, j | 0 <= i < j < |now.indx|
      ensures now.indx[i] < now.indx[j]
    {
      ExtendedAt(v, now, nlevs, locBound, recBound, i);
      ExtendedAt(v, now, nlevs, locBound, recBound, j);
      if i >= |v.indx| {
        assert Locs(os)[i - |v.indx|] < Locs(os)[j - |v.indx|];
      }
    }
  }

  // ----- Records

  lemma RecordHasCompanion(v: Vectors, now: Vectors, nlevs: nat, locBound: nat, recBound: nat, rec: nat)
    requires IsExtended(v, now, nlevs, locBound, recBound) && nlevs > 0 && rec in v.recnums
    ensures recBound + rec in now.recnums && rec in now.recnums
  {
    assert IsExtendedBy(v, now, CompanionsOf(v, nlevs, recBound), locBound, recBound);
    OriginalRecsMember(v.recnums, recBound);
    var os, o := CompanionsOf(v, nlevs, recBound), Levels(rec, nlevs)[0];
    CompanionMember(OriginalRecs(v.recnums, recBound), nlevs, o);
    var k :| 0 <= k < |os| && os[k] == o;
    assert now.recnums[|v.recnums| + k] == recBound + rec;
    var i :| 0 <= i < |v.recnums| && v.recnums[i] == rec;
    assert now.recnums[i] == rec;
  }

  /** A rank holds a companion record exactly if it holds the original. */
  lemma CompanionsFollowOriginals(v: Vectors, now: Vectors, nlevs: nat, locBound: nat, recBound: nat, rec: nat)
    requires IsExtended(v, now, nlevs, locBound, recBound) && nlevs > 0
    ensures recBound + rec in now.recnums <==> rec in v.recnums
    ensures rec < recBound ==> (rec in now.recnums <==> rec in v.recnums)
  {
    assert IsExtendedBy(v, now, CompanionsOf(v, nlevs, recBound), locBound, recBound);
    OriginalRecsMember(v.recnums, recBound);
    var recs, os := OriginalRecs(v.recnums, recBound), CompanionsOf(v, nlevs, recBound);
    if rec in v.recnums {
      RecordHasCompanion(v, now, nlevs, locBound, recBound, rec);
    }
    forall j | 0 <= j < |now.recnums|
      ensures now.recnums[j] == recBound + rec ==> rec in v.recnums
      ensures now.recnums[j] == rec < recBound ==> rec in v.recnums
    {
      ExtendedAt(v, now, nlevs, locBound, recBound, j);
      if j >= |v.indx| {
        CompanionMember(recs, nlevs, os[j - |v.indx|]);
      }
    }
  }

  /** The records of an extended rank are the original ones and their companions. */
  lemma RecordIsExtended(v: Vectors, now: Vectors, nlevs: nat, locBound: nat, recBound: nat, rec: nat)
    requires IsExtended(v, now, nlevs, locBound, recBound) && nlevs > 0
    ensures rec in now.recnums <==> rec in v.recnums || rec in P.Shift(recBound, OriginalRecs(v.recnums, recBound))
  {
    assert IsExtendedBy(v, now, CompanionsOf(v, nlevs, recBound), locBound, recBound);
    OriginalRecsMember(v.recnums, recBound);
    ShiftMember(recBound, OriginalRecs(v.recnums, recBound), rec);
    CompanionsFollowOriginals(v, now, nlevs, locBound, recBound, if rec < recBound then rec else rec - recBound);
  }

  /** As many records as there are distinct record numbers, before and after. */
  lemma RecordsAreCounted(v: Vectors, now: Vectors, nlevs: nat, locBound: nat, recBound: nat)
    requires IsExtended(v, now, nlevs, locBound, recBound) && nlevs > 0
    ensures |Elements(now.recnums)| == |Elements(v.recnums)| + |OriginalRecs(v.recnums, recBound)|
    ensures v.nrecs == |Elements(v.recnums)| ==> now.nrecs == |Elements(now.recnums)|
  {
    assert IsExtendedBy(v, now, CompanionsOf(v, nlevs, recBound), locBound, recBound);
    var recs := OriginalRecs(v.recnums, recBound);
    OriginalRecsMember(v.recnums, recBound);
    var companions := P.Shift(recBound, recs);
    assert Distinct(companions);
    DistinctCount(companions);
    forall rec: nat
      ensures rec in now.recnums <==> rec in v.recnums || rec in companions
    {
      RecordIsExtended(v, now, nlevs, locBound, recBound, rec);
    }
    assert Elements(now.recnums) == Elements(v.recnums) + Elements(companions);
    assert forall rec :: rec in companions ==> rec >= recBound;
    assert Elements(v.recnums) !! Elements(companions);
  }

  lemma ShiftMember(shift: nat, xs: seq<nat>, y: nat)
    ensures y in P.Shift(shift, xs) <==> y >= shift && y - shift in xs
  {
    var ys := P.Shift(shift, xs);
    if y >= shift && y - shift in xs {
      var i :| 0 <= i < |xs| && xs[i] == y - shift;
      assert ys[i] == y;
    }
  }

  /** An unsorted record index stays one. */
  lemma ExtendedIndexIsUnsorted(v: Vectors, now: Vectors, nlevs: nat, locBound: nat, recBound: nat)
    requires IsExtended(v, now, nlevs, locBound, recBound) && nlevs > 0 && IsUnsortedIndex(v.recnums, v.recidx)
    ensures IsUnsortedIndex(now.recnums, now.recidx)
  {
    assert IsExtendedBy(v, now, CompanionsOf(v, nlevs, recBound), locBound, recBound);
    forall rec: nat
      ensures rec in now.recidx <==> rec in now.recnums
      ensures rec in now.recidx ==> now.recidx[rec] == Positions(now.recnums, rec)
    {
      assert EntryIs(v.recidx, now.recidx, now.recnums, recBound, rec);
      if rec < recBound {
        CompanionsFollowOriginals(v, now, nlevs, locBound, recBound, rec);
        PositionsStay(v.recnums, P.Shift(recBound, Recs(CompanionsOf(v, nlevs, recBound))), rec);
      }
    }
  }

  lemma {:induction false} PositionsStay(recnums: seq<nat>, more: seq<nat>, rec: nat)
    requires rec !in more
    ensures Positions(recnums + more, rec) == Positions(recnums, rec)
  {
    if more == [] {
      assert recnums + more == recnums;
    } else {
      var n := |more| - 1;
      PositionsStay(recnums, more[..n], rec);
      assert recnums + more == (recnums + more[..n]) + [more[n]];
      PositionsSnoc(recnums + more[..n], more[n], rec);
    }
  }

  // ----- Who owns which record

  function HeldRecs(recnums: seq<seq<nat>>, recBound: nat): (held: seq<seq<nat>>)
    ensures |held| == |recnums|
    ensures forall r :: 0 <= r < |recnums| ==> held[r] == OriginalRecs(recnums[r], recBound)
  {
    seq(|recnums|, r requires 0 <= r < |recnums| => OriginalRecs(recnums[r], recBound))
  }

  /** The records some patch location of a rank belongs to. */
  function PatchRecs(recnums: seq<seq<nat>>, w: seq<View>): (owned: seq<set<nat>>)
    requires |recnums| == |w| && forall r :: 0 <= r < |w| ==> |recnums[r]| == |w[r].patch|
    ensures |owned| == |w|
  {
    seq(|w|, r requires 0 <= r < |w| => Elements(Select(recnums[r], w[r].patch)))
  }

  /** Over a Halo: the record numbers are those of the kept locations and patches mark owned records. */
  ghost predicate IsHaloMaster(world: seq<Rule>, s: seq<Obs>, recnums: seq<seq<nat>>, w: seq<View>, recBound: nat) {
    && H.IsHaloWorld(world) && H.MarksOwnRecords(world, s, w) && |recnums| == |w|
    && (forall r :: 0 <= r < |w| ==> recnums[r] == Recs(Kept(world[r], s)) && |w[r].patch| == |recnums[r]|)
    && (forall r, rec :: 0 <= r < |w| && rec in recnums[r] ==> rec < recBound)
  }

  lemma RecIsHeld(d: Rule, s: seq<Obs>, rec: nat)
    ensures rec in Recs(Kept(d, s)) <==> Appears(s, rec) && Mine(d, s, rec)
  {
    KeptMember(d, s);
    var kept := Kept(d, s);
    if rec in Recs(kept) {
      var i :| 0 <= i < |kept| && Recs(kept)[i] == rec;
      assert kept[i] in kept;
    }
    if Appears(s, rec) && Mine(d, s, rec) {
      var i :| 0 <= i < |s| && s[i].rec == rec;
      assert s[i] in kept;
      var k :| 0 <= k < |kept| && kept[k] == s[i];
      assert Recs(kept)[k] == rec;
    }
  }

  /** The patch records of a rank are those it owns. */
  lemma PatchRecIsOwned(world: seq<Rule>, s: seq<Obs>, recnums: seq<seq<nat>>, w: seq<View>, recBound: nat, r: nat,
                        rec: nat)
    requires IsHaloMaster(world, s, recnums, w, recBound) && r < |w|
    ensures rec in PatchRecs(recnums, w)[r] <==> rec in recnums[r] && H.OwnsRecord(world, s, rec, r)
  {
    SelectMember(recnums[r], w[r].patch, rec);
    assert forall j :: 0 <= j < |w[r].patch| ==>
             recnums[r][j] == Kept(world[r], s)[j].rec && (w[r].patch[j] <==> H.OwnsRecord(world, s, recnums[r][j], r));
    if rec in recnums[r] && H.OwnsRecord(world, s, rec, r) {
      var j :| 0 <= j < |recnums[r]| && recnums[r][j] == rec;
      assert w[r].patch[j];
    }
  }

  lemma HaloOwnership(world: seq<Rule>, s: seq<Obs>, recnums: seq<seq<nat>>, w: seq<View>, recBound: nat)
    requires IsHaloMaster(world, s, recnums, w, recBound)
    ensures OwnershipOf(HeldRecs(recnums, recBound), PatchRecs(recnums, w))
  {
    var held, owned := HeldRecs(recnums, recBound), PatchRecs(recnums, w);
    forall r, rec: nat | 0 <= r < |w|
      ensures Ascending(held[r]) && (rec in held[r] <==> rec in recnums[r])
      ensures rec in owned[r] <==> rec in recnums[r] && H.OwnsRecord(world, s, rec, r)
    {
      OriginalRecsMember(recnums[r], recBound);
      PatchRecIsOwned(world, s, recnums, w, recBound, r, rec);
    }
    forall r, rec | 0 <= r < |held| && rec in held[r]
      ensures exists q :: 0 <= q < |owned| && rec in owned[q]
    {
      RecIsHeld(world[r], s, rec);
      var q := NearestHolder(world, s, rec, r);
      RecIsHeld(world[q], s, rec);
    }
    forall r, q, rec | 0 <= r < |owned| && 0 <= q < |owned| && rec in owned[r] && rec in owned[q]
      ensures r == q
    {
      H.OwnerIsUnique(world, s, rec, r, q);
    }
  }

  /** A record held anywhere has an owner. */
  lemma NearestHolder(world: seq<Rule>, s: seq<Obs>, rec: nat, holder: nat) returns (r: nat)
    requires H.IsHaloWorld(world) && holder < |world| && Appears(s, rec) && Mine(world[holder], s, rec)
    ensures H.OwnsRecord(world, s, rec, r)
  {
    var found := false;
    r := 0;
    for q := 0 to |world|
      invariant found ==> r < q && Mine(world[r], s, rec)
      invariant forall p :: 0 <= p < q && Mine(world[p], s, rec) ==> found
      invariant found ==> forall p :: 0 <= p < q && Mine(world[p], s, rec) ==>
                  var dr, dp := H.DistanceTo(world[r], s, rec), H.DistanceTo(world[p], s, rec);
                  dr < dp || (dr == dp && r <= p)
    {
      if Mine(world[q], s, rec) {
        if !found || H.DistanceTo(world[q], s, rec) < H.DistanceTo(world[r], s, rec) {
          found, r := true, q;
        }
      }
    }
  }

  /** In a nonoverlapping world a rank owns all records it holds. */
  lemma NonoverlappingOwnership(world: seq<Rule>, s: seq<Obs>, recnums: seq<seq<nat>>, recBound: nat,
                                owned: seq<set<nat>>)
    requires N.IsNonoverlappingWorld(world) && |recnums| == |world| == |owned|
    requires forall r :: 0 <= r < |world| ==> recnums[r] == Recs(Kept(world[r], s)) && owned[r] == Elements(recnums[r])
    requires forall r, rec :: 0 <= r < |world| && rec in recnums[r] ==> rec < recBound
    ensures OwnershipOf(HeldRecs(recnums, recBound), owned)
  {
    var held := HeldRecs(recnums, recBound);
    forall r | 0 <= r < |world|
      ensures Ascending(held[r]) && (forall rec :: rec in held[r] <==> rec in owned[r])
    {
      OriginalRecsMember(recnums[r], recBound);
    }
    forall r, q, rec | 0 <= r < |owned| && 0 <= q < |owned| && rec in owned[r] && rec in owned[q]
      ensures r == q
    {
      RecIsHeld(world[r], s, rec);
      RecIsHeld(world[q], s, rec);
      N.AtMostOneRank(world, s, rec, r, q);
    }
  }

  /** Where every rank holds everything, rank 0 owns it all. */
  lemma IdentityOwnership(recs: seq<nat>, held: seq<seq<nat>>, owned: seq<set<nat>>)
    requires Ascending(recs) && |held| == |owned| > 0
    requires forall r :: 0 <= r < |held| ==> held[r] == recs && owned[r] == if r == 0 then Elements(recs) else {}
    ensures OwnershipOf(held, owned)
  {
    assert forall rec :: rec in recs ==> rec in owned[0];
  }

  // ----- The patches of the replicas

  lemma SameGather(w: seq<View>, v: seq<View>)
    requires |w| == |v| && forall r :: 0 <= r < |w| ==> w[r].locs == v[r].locs && w[r].patch == v[r].patch
    requires Shaped(w, LocsOf(w))
    ensures Shaped(v, LocsOf(v)) && AllGatherv(v, LocsOf(v)) == AllGatherv(w, LocsOf(w))
  {
    assert LocsOf(v) == LocsOf(w);
    assert PatchOnly(v, LocsOf(v)) == PatchOnly(w, LocsOf(w));
  }

  /** Views that have received their indices. */
  lemma PatchedCompanions(w: seq<View>, v: seq<View>, held: seq<seq<nat>>, owned: seq<set<nat>>, nlevs: nat)
    requires AreCompanionViews(w, held, owned, nlevs) && Shaped(w, LocsOf(w))
    requires |w| == |v| && forall r :: 0 <= r < |w| ==> w[r].locs == v[r].locs && w[r].patch == v[r].patch
    requires forall r :: 0 <= r < |v| ==> IndexPoints(v[r], AllGatherv(w, LocsOf(w)))
    ensures Sound(v) && AreCompanionViews(v, held, owned, nlevs)
  {
    SameGather(w, v);
    assert forall r :: 0 <= r < |v| ==> IsCompanionView(w[r], held[r], owned[r], nlevs);
    CompanionsAreSound(v, held, owned, nlevs);
  }

  /** A general replica that has been assigned the companions of its records. */
  ghost predicate IsGeneralCompanion(replica: ReplicaOfGeneral, held: seq<nat>, owned: set<nat>, nlevs: nat)
    reads replica
  {
    && replica.Assigning() && replica.stream == CompanionObs(held, nlevs) && replica.masterPatchRecords == owned
    && forall rec :: rec in held ==> replica.isMasterRecord(rec)
  }

  lemma GeneralCompanionView(replica: ReplicaOfGeneral, held: seq<nat>, owned: set<nat>, nlevs: nat)
    requires IsGeneralCompanion(replica, held, owned, nlevs) && Ascending(held)
    ensures IsCompanionView(replica.MyView(), held, owned, nlevs) && Ascending(replica.myGlobalLocs)
  {
    CompanionAllKept(replica.MyRule(), held, nlevs);
    CompanionAscending(held, nlevs);
  }

  /** computePatchLocs on general replicas of the companions: no rank throws, and the contract is met. */
  method PatchGeneral(replicas: seq<ReplicaOfGeneral>, ghost held: seq<seq<nat>>, ghost owned: seq<set<nat>>,
                      ghost nlevs: nat)
      returns (ok: bool)
    requires OwnershipOf(held, owned) && |replicas| == |held|
    requires forall r, q :: 0 <= r < q < |replicas| ==> replicas[r] != replicas[q]
    requires forall r :: 0 <= r < |replicas| ==> IsGeneralCompanion(replicas[r], held[r], owned[r], nlevs)
    modifies replicas
    ensures ok && Sound(ViewsOf(replicas)) && AreCompanionViews(ViewsOf(replicas), held, owned, nlevs)
    ensures forall r :: 0 <= r < |replicas| ==> replicas[r].myRecords == old(replicas[r].myRecords)
  {
    ghost var w := ViewsOf(replicas);
    forall r | 0 <= r < |replicas|
      ensures IsCompanionView(w[r], held[r], owned[r], nlevs) && Ascending(replicas[r].myGlobalLocs)
    {
      GeneralCompanionView(replicas[r], held[r], owned[r], nlevs);
    }
    CompanionsAreCovered(w, held, owned, nlevs);
    ok := ComputePatchLocs(replicas, w);
    ghost var v := ViewsOf(replicas);
    assert forall r :: 0 <= r < |replicas| ==> v[r].locs == w[r].locs && v[r].patch == w[r].patch;
    PatchedCompanions(w, v, held, owned, nlevs);
  }

  /** computePatchLocs on replicas of a nonoverlapping distribution. */
  method PatchNonoverlapping(replicas: seq<N.Nonoverlapping>, ghost held: seq<seq<nat>>, ghost owned: seq<set<nat>>,
                             ghost nlevs: nat)
    requires OwnershipOf(held, owned) && |replicas| == |held|
    requires forall r, q :: 0 <= r < q < |replicas| ==> replicas[r] != replicas[q]
    requires forall r :: 0 <= r < |replicas| ==> IsNonoverlappingCompanion(replicas[r], held[r], owned[r], nlevs)
    modifies set r | 0 <= r < |replicas| :: replicas[r]`numLocationsOnLowerRanks
    ensures Sound(N.ViewsOf(replicas)) && AreCompanionViews(N.ViewsOf(replicas), held, owned, nlevs)
    ensures Gathered(N.ViewsOf(replicas)) == Flatten(LocsOf(N.ViewsOf(replicas)))
  {
    ghost var locs := seq(|held|, r requires 0 <= r < |held| => Locs(CompanionObs(held[r], nlevs)));
    forall r | 0 <= r < |replicas|
      ensures Locs(Kept(replicas[r].rule, replicas[r].stream)) == locs[r]
    {
      NonoverlappingCompanionView(replicas[r], held[r], owned[r], nlevs);
    }
    N.ComputePatchLocs(replicas, locs);
    ghost var w := N.ViewsOf(replicas);
    forall r | 0 <= r < |w|
      ensures w[r] == N.CountingView(locs, r)
    {
      N.CountsUp(replicas[r], locs, r);
    }
    CountedCompanions(w, locs, held, owned, nlevs);
  }

  lemma CountedCompanions(w: seq<View>, locs: seq<seq<nat>>, held: seq<seq<nat>>, owned: seq<set<nat>>, nlevs: nat)
    requires OwnershipOf(held, owned) && |w| == |locs| == |held|
    requires forall r :: 0 <= r < |w| ==>
               w[r] == N.CountingView(locs, r) && locs[r] == Locs(CompanionObs(held[r], nlevs))
               && owned[r] == Elements(held[r])
    ensures Sound(w) && AreCompanionViews(w, held, owned, nlevs) && Gathered(w) == Flatten(LocsOf(w))
  {
    forall r | 0 <= r < |w|
      ensures IsCompanionView(w[r], held[r], owned[r], nlevs)
    {
      CompanionsOwned(held[r], owned[r], nlevs);
    }
    assert LocsOf(w) == locs;
    N.CountingUpPoints(w);
    PatchedCompanions(w, w, held, owned, nlevs);
  }

  lemma CompanionsOwned(held: seq<nat>, owned: set<nat>, nlevs: nat)
    requires owned == Elements(held)
    ensures forall j :: 0 <= j < |CompanionObs(held, nlevs)| ==> CompanionObs(held, nlevs)[j].rec in owned
  {
    var os := CompanionObs(held, nlevs);
    forall j | 0 <= j < |os|
      ensures os[j].rec in owned
    {
      assert os[j] in os;
      CompanionMember(held, nlevs, os[j]);
    }
  }

  ghost predicate IsNonoverlappingCompanion(replica: N.Nonoverlapping, held: seq<nat>, owned: set<nat>, nlevs: nat)
    reads replica
  {
    && replica.Valid() && replica.rule.Delegate? && replica.stream == CompanionObs(held, nlevs)
    && owned == Elements(held)
    && forall rec :: rec in held ==> (replica.rule.isMasterRecord)(rec)
  }

  lemma NonoverlappingCompanionView(replica: N.Nonoverlapping, held: seq<nat>, owned: set<nat>, nlevs: nat)
    requires IsNonoverlappingCompanion(replica, held, owned, nlevs)
    ensures Locs(Kept(replica.rule, replica.stream)) == Locs(CompanionObs(held, nlevs))
  {
    CompanionAllKept(replica.rule, held, nlevs);
  }

  /** Replicas of the identity distribution. */
  lemma IdentityCompanions(w: seq<View>, recs: seq<nat>, held: seq<seq<nat>>, owned: seq<set<nat>>, nlevs: nat)
    requires Ascending(recs) && |w| == |held| == |owned| > 0
    requires forall r :: 0 <= r < |held| ==> held[r] == recs && owned[r] == if r == 0 then Elements(recs) else {}
    requires I.IsIdentityWorld(w) && w[0].locs == Locs(CompanionObs(recs, nlevs))
    ensures Sound(w) && AreCompanionViews(w, held, owned, nlevs) && Gathered(w) == w[0].locs
  {
    IdentityOwnership(recs, held, owned);
    CompanionAscending(recs, nlevs);
    I.IdentityIsSound(w);
    I.IdentityGathered(w);
    CompanionsOwned(recs, Elements(recs), nlevs);
  }

  // ----- Counting the new locations

  /** The terms of `n` locations. */
  function Ones(n: nat): (ones: seq<real>)
    ensures |ones| == n && forall i :: 0 <= i < n ==> ones[i] == 1.0
  {
    seq(n, _ => 1.0)
  }

  lemma {:induction false} SumOfOnes(n: nat)
    ensures Sum(Ones(n)) == n as real
  {
    if n > 0 {
      SumOfOnes(n - 1);
      assert Ones(n)[..n - 1] == Ones(n - 1);
    }
  }

  /** Each companion location of one rank adds one. */
  method CountLocal(kind: Kind, numCompanionLocs: nat) returns (acc: Accumulator)
    requires kind.General? ==> numCompanionLocs <= |kind.patchObs|
    ensures fresh(acc) && acc.kind == kind && acc.localResult == kind.Local(Ones(numCompanionLocs))
  {
    acc := new Accumulator(kind);
    ghost var terms: seq<real> := [];
    for companionLoc := 0 to numCompanionLocs
      invariant |terms| == companionLoc && forall i :: 0 <= i < |terms| ==> terms[i] == 1.0
      invariant acc.localResult == kind.Local(terms)
    {
      LocalSnoc(kind, terms, 1.0);
      acc.AddTerm(companionLoc, 1.0);
      terms := terms + [1.0];
    }
    assert terms == Ones(numCompanionLocs);
  }

  lemma OnesAreField(n: nat, locs: seq<nat>, one: nat -> real)
    requires |locs| == n && forall g :: one(g) == 1.0
    ensures Ones(n) == Map(one, locs)
  {
  }

  /** Every rank learns how many distinct companion locations there are. */
  method CountCompanions(kinds: seq<Kind>, nums: seq<nat>, ghost w: seq<View>, ghost n: nat, ghost one: nat -> real)
      returns (results: seq<real>)
    requires Sound(w) && KindsFor(w, kinds) && |nums| == |w| && forall g :: one(g) == 1.0
    requires forall r :: 0 <= r < |w| ==> nums[r] == |w[r].locs|
    requires forall g :: g in Gathered(w) ==> g < n
    ensures |results| == |w| && forall r :: 0 <= r < |w| ==> results[r] == |Gathered(w)| as real
  {
    PatchFits(w, kinds);
    var accs: seq<Accumulator> := [];
    for r := 0 to |nums|
      invariant |accs| == r
      invariant forall q :: 0 <= q < r ==> fresh(accs[q]) && HasTaken(accs[q], kinds[q], w[q], one)
    {
      OnesAreField(nums[r], w[r].locs, one);
      var acc := CountLocal(kinds[r], nums[r]);
      assert HasTakenTerms(acc, kinds[r], Map(one, w[r].locs));
      accs := accs + [acc];
    }
    results := ReduceAll(accs, kinds, w, one, n);
    SumEnumeration(Gathered(w), one, n);
    OnesAreField(|Gathered(w)|, Gathered(w), one);
    SumOfOnes(|Gathered(w)|);
  }

  // ----- The extended distribution

  /** The locations of the pair are those of the extended ObsSpace. */
  lemma PairHoldsExtended(v: Vectors, now: Vectors, first: View, second: View, nlevs: nat, locBound: nat, recBound: nat,
                          offset: nat)
    requires IsExtended(v, now, nlevs, locBound, recBound) && |first.index| == |first.locs|
    requires first.locs == v.indx && second.locs == Locs(CompanionsOf(v, nlevs, recBound))
    ensures P.PairView(first, second, locBound, offset).locs == now.indx
  {
    assert IsExtendedBy(v, now, CompanionsOf(v, nlevs, recBound), locBound, recBound);
  }

  /** The pair holds exactly the records that the extended ObsSpace lists. */
  lemma PairOwnsExtendedRecords(v: Vectors, now: Vectors, nlevs: nat, locBound: nat, recBound: nat,
                                first: nat -> bool, second: nat -> bool, rec: nat)
    requires IsExtended(v, now, nlevs, locBound, recBound) && nlevs > 0
    requires forall r: nat :: r < recBound ==> (first(r) <==> r in v.recnums)
    requires forall r: nat :: second(r) <==> r in v.recnums
    ensures P.IsMyRecord(first, second, recBound, rec) <==> rec in now.recnums
  {
    assert IsExtendedBy(v, now, CompanionsOf(v, nlevs, recBound), locBound, recBound);
    if rec < recBound {
      CompanionsFollowOriginals(v, now, nlevs, locBound, recBound, rec);
    } else {
      CompanionsFollowOriginals(v, now, nlevs, locBound, recBound, rec - recBound);
    }
  }

  /** After the extension of a nonoverlapping distribution the pair meets the contract. */
  lemma ExtendedNonoverlapping(first: seq<View>, second: seq<View>, locBound: nat)
    requires |first| == |second| && Sound(first) && Sound(second) && P.Separate(first, locBound)
    requires Gathered(first) == Flatten(LocsOf(first))
    ensures Consistent(P.PairViews(first, second, locBound), P.Joined(Gathered(first), Gathered(second), locBound))
  {
    P.OffsetOfNonoverlapping(first);
    P.PairConsistentIf(first, Gathered(first), second, Gathered(second), locBound);
  }

  /** After the extension of the identity distribution the pair meets the contract. */
  lemma ExtendedIdentity(first: seq<View>, second: seq<View>, locBound: nat)
    requires |first| == |second| > 0 && Sound(first) && Sound(second) && P.Separate(first, locBound)
    requires Gathered(first) == first[0].locs
    ensures Consistent(P.PairViews(first, second, locBound), P.Joined(Gathered(first), Gathered(second), locBound))
  {
    P.OffsetOfIdentity(first);
    P.PairConsistentIf(first, Gathered(first), second, Gathered(second), locBound);
  }

  /**
   Over any other distribution it does exactly if the last gathered location is the last location of
   some rank, or there is nothing to gather on one side.
   */
  lemma ExtendedGeneral(first: seq<View>, second: seq<View>, locBound: nat)
    requires |first| == |second| && Sound(first) && Sound(second) && P.Separate(first, locBound)
    ensures Consistent(P.PairViews(first, second, locBound), P.Joined(Gathered(first), Gathered(second), locBound)) <==>
            Gathered(first) == [] || Gathered(second) == []
            || exists r :: 0 <= r < |first| && P.EndsWithLast(first[r], Gathered(first))
  {
    P.OffsetExact(first, Gathered(first));
    P.PairConsistentExactly(first, Gathered(first), second, Gathered(second), locBound);
  }
}
