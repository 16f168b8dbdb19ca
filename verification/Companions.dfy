/**
 Companion locations: every original record gets `nlevs` of them, placed on the ranks of the record
 (extendObsSpace, src/ObsSpace.cc). Here only what the ranks feed to the replica distribution.
 */
module Companions {
  import opened Seqs
  import opened Contract
  import opened Streams

  // ----- Iterating over a std::set of indices

  /** The members of `items` below `n`, ascending. */
  function Enumerate(items: set<nat>, n: nat): seq<nat> {
    if n == 0 then [] else Enumerate(items, n - 1) + if n - 1 in items then [n - 1] else []
  }

  lemma {:induction false} EnumerateMember(items: set<nat>, n: nat)
    ensures Ascending(Enumerate(items, n))
    ensures forall x: nat :: x in Enumerate(items, n) <==> x < n && x in items
  {
    if n > 0 {
      EnumerateMember(items, n - 1);
      var xs := Enumerate(items, n - 1);
      assert forall i :: 0 <= i < |xs| ==> xs[i] in xs;
    }
  }

  // ----- The companion locations of a list of records

  const Origin := Point2(0.0, 0.0)

  function Levels(rec: nat, nlevs: nat): (os: seq<Obs>)
    ensures |os| == nlevs
  {
    seq(nlevs, lev requires 0 <= lev < nlevs => Obs(rec, rec * nlevs + lev, Origin))
  }

  function CompanionObs(recs: seq<nat>, nlevs: nat): seq<Obs> {
    if recs == [] then [] else CompanionObs(recs[..|recs| - 1], nlevs) + Levels(recs[|recs| - 1], nlevs)
  }

  /** Companion locations are numbered without overlap. */
  lemma LevelsInOrder(a: nat, i: nat, b: nat, j: nat, nlevs: nat)
    requires i < nlevs && a < b
    ensures a * nlevs + i < b * nlevs + j
  {
    MulMonotone(a + 1, b, nlevs);
  }

  lemma SameCompanion(a: nat, i: nat, b: nat, j: nat, nlevs: nat)
    requires i < nlevs && j < nlevs
    ensures a * nlevs + i == b * nlevs + j <==> a == b && i == j
  {
    if a < b { LevelsInOrder(a, i, b, j, nlevs); }
    if b < a { LevelsInOrder(b, j, a, i, nlevs); }
  }

  lemma {:induction false} CompanionMember(recs: seq<nat>, nlevs: nat, o: Obs)
    ensures o in CompanionObs(recs, nlevs) <==> o.rec in recs && o in Levels(o.rec, nlevs)
  {
    if recs != [] {
      var n := |recs| - 1;
      CompanionMember(recs[..n], nlevs, o);
      assert recs == recs[..n] + [recs[n]];
      if o in Levels(recs[n], nlevs) { assert o.rec == recs[n]; }
    }
  }

  /** Where the levels of each record stand, and how they are numbered. */
  lemma {:induction false} LevelAt(recs: seq<nat>, nlevs: nat, k: nat, lev: nat)
    requires k < |recs| && lev < nlevs
    ensures |CompanionObs(recs, nlevs)| == |recs| * nlevs && k * nlevs + lev < |recs| * nlevs
    ensures CompanionObs(recs, nlevs)[k * nlevs + lev] == Obs(recs[k], recs[k] * nlevs + lev, Point2(0.0, 0.0))
  {
    var n := |recs| - 1;
    CompanionSize(recs[..n], nlevs);
    CompanionSize(recs, nlevs);
    LevelsInOrder(k, lev, |recs|, 0, nlevs);
    if k < n {
      LevelAt(recs[..n], nlevs, k, lev);
    }
  }

  lemma {:induction false} CompanionSize(recs: seq<nat>, nlevs: nat)
    ensures |CompanionObs(recs, nlevs)| == |recs| * nlevs
  {
    if recs != [] {
      var n := |recs| - 1;
      CompanionSize(recs[..n], nlevs);
      assert (n + 1) * nlevs == n * nlevs + nlevs;
    }
  }

  lemma {:induction false} CompanionAscending(recs: seq<nat>, nlevs: nat)
    requires Ascending(recs)
    ensures AscendingStream(CompanionObs(recs, nlevs))
    ensures |CompanionObs(recs, nlevs)| == |recs| * nlevs
  {
    if recs != [] {
      var n := |recs| - 1;
      CompanionAscending(recs[..n], nlevs);
      var before, last := CompanionObs(recs[..n], nlevs), Levels(recs[n], nlevs);
      forall i, j | 0 <= i < |before| && 0 <= j < |last|
        ensures before[i].loc < last[j].loc
      {
        assert before[i] in before;
        CompanionMember(recs[..n], nlevs, before[i]);
        var lev :| 0 <= lev < nlevs && before[i] == Levels(before[i].rec, nlevs)[lev];
        LevelsInOrder(before[i].rec, lev, recs[n], j, nlevs);
      }
      var locs := Locs(CompanionObs(recs, nlevs));
      assert locs == Locs(before) + Locs(last);
      assert Ascending(Locs(last));
    }
  }

  /** A companion location determines its record and level. */
  lemma SameCompanionObs(recs: seq<nat>, more: seq<nat>, nlevs: nat, a: Obs, b: Obs)
    requires a in CompanionObs(recs, nlevs) && b in CompanionObs(more, nlevs) && a.loc == b.loc
    ensures a == b
  {
    CompanionMember(recs, nlevs, a);
    CompanionMember(more, nlevs, b);
    var i :| 0 <= i < nlevs && a == Levels(a.rec, nlevs)[i];
    var j :| 0 <= j < nlevs && b == Levels(b.rec, nlevs)[j];
    SameCompanion(a.rec, i, b.rec, j, nlevs);
  }

  /** A replica keeps everything it is fed, as it is fed the records of its own rank only. */
  lemma CompanionAllKept(d: Rule, recs: seq<nat>, nlevs: nat)
    requires d.Delegate? || d.Everyone?
    requires d.Delegate? ==> forall rec :: rec in recs ==> (d.isMasterRecord)(rec)
    ensures Kept(d, CompanionObs(recs, nlevs)) == CompanionObs(recs, nlevs)
  {
    var s := CompanionObs(recs, nlevs);
    forall i | 0 <= i < |s|
      ensures s[i].rec in MyRecords(d, s)
    {
      assert s[i] in s;
      CompanionMember(recs, nlevs, s[i]);
    }
    KeepsAll(s, MyRecords(d, s));
  }

  lemma {:induction false} KeepsAll(s: seq<Obs>, recs: set<nat>)
    requires forall i :: 0 <= i < |s| ==> s[i].rec in recs
    ensures OfRecords(s, recs) == s
  {
    if s != [] {
      KeepsAll(s[..|s| - 1], recs);
    }
  }

  // ----- The patches of a replica

  /**
   Per rank, the records it holds (ascending) and the ones it owns: owned records are held, and a
   record held anywhere is owned by exactly one rank.
   */
  ghost predicate OwnershipOf(held: seq<seq<nat>>, owned: seq<set<nat>>) {
    && |held| == |owned|
    && (forall r :: 0 <= r < |held| ==> Ascending(held[r]))
    && (forall r, rec :: 0 <= r < |held| && rec in owned[r] ==> rec in held[r])
    && (forall r, rec :: 0 <= r < |held| && rec in held[r] ==> exists q :: 0 <= q < |owned| && rec in owned[q])
    && (forall r, q, rec :: 0 <= r < |owned| && 0 <= q < |owned| && rec in owned[r] && rec in owned[q] ==> r == q)
  }

  /** A rank of a replica after the extension loop: companions of its records, patch by ownership. */
  predicate IsCompanionView(v: View, held: seq<nat>, owned: set<nat>, nlevs: nat) {
    && v.locs == Locs(CompanionObs(held, nlevs))
    && |v.patch| == |v.locs|
    && forall j :: 0 <= j < |v.locs| ==> (v.patch[j] <==> CompanionObs(held, nlevs)[j].rec in owned)
  }

  ghost predicate AreCompanionViews(w: seq<View>, held: seq<seq<nat>>, owned: seq<set<nat>>, nlevs: nat) {
    && |w| == |held| && OwnershipOf(held, owned)
    && forall r :: 0 <= r < |w| ==> IsCompanionView(w[r], held[r], owned[r], nlevs)
  }

  lemma LocationOf(v: View, held: seq<nat>, owned: set<nat>, nlevs: nat, o: Obs)
    requires IsCompanionView(v, held, owned, nlevs) && o in Levels(o.rec, nlevs) && o.rec in held
    ensures o.loc in v.locs
    ensures o.rec in owned ==> o.loc in Select(v.locs, v.patch)
  {
    var os := CompanionObs(held, nlevs);
    CompanionMember(held, nlevs, o);
    var j :| 0 <= j < |os| && os[j] == o;
    assert v.locs[j] == o.loc;
    if o.rec in owned { SelectAt(v.locs, v.patch, j); }
  }

  lemma CompanionAt(v: View, held: seq<nat>, owned: set<nat>, nlevs: nat, g: nat) returns (o: Obs)
    requires IsCompanionView(v, held, owned, nlevs) && g in v.locs
    ensures o.loc == g && o in Levels(o.rec, nlevs) && o.rec in held && o in CompanionObs(held, nlevs)
  {
    var os := CompanionObs(held, nlevs);
    var j :| 0 <= j < |v.locs| && v.locs[j] == g;
    o := os[j];
    assert o in os;
    CompanionMember(held, nlevs, o);
  }

  lemma PatchCompanionAt(v: View, held: seq<nat>, owned: set<nat>, nlevs: nat, g: nat) returns (o: Obs)
    requires IsCompanionView(v, held, owned, nlevs) && g in Select(v.locs, v.patch)
    ensures o.loc == g && o.rec in owned && o in CompanionObs(held, nlevs)
  {
    var os := CompanionObs(held, nlevs);
    var k :| 0 <= k < |Select(v.locs, v.patch)| && Select(v.locs, v.patch)[k] == g;
    var j := SelectFrom(v.locs, v.patch, k);
    o := os[j];
    assert o in os;
  }

  /** Every companion location is in the patch of some rank: the replica's error is unreachable. */
  lemma CompanionsAreCovered(w: seq<View>, held: seq<seq<nat>>, owned: seq<set<nat>>, nlevs: nat)
    requires AreCompanionViews(w, held, owned, nlevs)
    ensures Shaped(w, LocsOf(w))
    ensures forall r, g :: 0 <= r < |w| && g in w[r].locs ==> g in AllGatherv(w, LocsOf(w))
  {
    var ss := PatchOnly(w, LocsOf(w));
    forall r, g | 0 <= r < |w| && g in w[r].locs
      ensures g in AllGatherv(w, LocsOf(w))
    {
      var o := CompanionAt(w[r], held[r], owned[r], nlevs, g);
      var q :| 0 <= q < |owned| && o.rec in owned[q];
      LocationOf(w[q], held[q], owned[q], nlevs, o);
      assert g in ss[q];
      FlattenMember(ss, g);
    }
  }

  /** No companion location is in the patches of two ranks. */
  lemma CompanionsAreDistinct(w: seq<View>, held: seq<seq<nat>>, owned: seq<set<nat>>, nlevs: nat)
    requires AreCompanionViews(w, held, owned, nlevs)
    ensures Shaped(w, LocsOf(w)) && Distinct(AllGatherv(w, LocsOf(w)))
  {
    var ss := PatchOnly(w, LocsOf(w));
    forall r | 0 <= r < |w|
      ensures Distinct(ss[r])
    {
      CompanionAscending(held[r], nlevs);
      SelectAscending(w[r].locs, w[r].patch);
    }
    forall r, q, g | 0 <= r < q < |ss| && g in ss[r] && g in ss[q]
      ensures false
    {
      var a := PatchCompanionAt(w[r], held[r], owned[r], nlevs, g);
      var b := PatchCompanionAt(w[q], held[q], owned[q], nlevs, g);
      SameCompanionObs(held[r], held[q], nlevs, a, b);
    }
    FlattenDistinct(ss);
  }

  /** Main result for replicas: with indices that point, the views meet the contract. */
  lemma CompanionsAreSound(w: seq<View>, held: seq<seq<nat>>, owned: seq<set<nat>>, nlevs: nat)
    requires AreCompanionViews(w, held, owned, nlevs) && WellFormed(w)
    requires Shaped(w, LocsOf(w))
    requires forall r, j :: 0 <= r < |w| && 0 <= j < |w[r].locs| ==>
               w[r].index[j] < |AllGatherv(w, LocsOf(w))| && AllGatherv(w, LocsOf(w))[w[r].index[j]] == w[r].locs[j]
    ensures Sound(w)
  {
    CompanionsAreDistinct(w, held, owned, nlevs);
    GatheredIsHeld(w);
  }

  // ----- How many there are

  /** The companion locations of all ranks together number `nlevs` times the records held anywhere. */
  lemma CompanionCount(w: seq<View>, held: seq<seq<nat>>, owned: seq<set<nat>>, nlevs: nat, all: seq<nat>)
    requires AreCompanionViews(w, held, owned, nlevs) && Ascending(all)
    requires forall rec :: rec in all <==> exists r :: 0 <= r < |held| && rec in held[r]
    ensures Shaped(w, LocsOf(w)) && |AllGatherv(w, LocsOf(w))| == nlevs * |all|
  {
    CompanionsAreCovered(w, held, owned, nlevs);
    CompanionsAreDistinct(w, held, owned, nlevs);
    CompanionAscending(all, nlevs);
    var gathered, serial := AllGatherv(w, LocsOf(w)), Locs(CompanionObs(all, nlevs));
    GatheredIsHeld(w);
    forall g: nat
      ensures g in gathered <==> g in serial
    {
      if g in gathered {
        var r :| 0 <= r < |w| && g in w[r].locs;
        var o := CompanionAt(w[r], held[r], owned[r], nlevs, g);
        CompanionMember(all, nlevs, o);
        var k :| 0 <= k < |CompanionObs(all, nlevs)| && CompanionObs(all, nlevs)[k] == o;
        assert serial[k] == g;
      }
      if g in serial {
        var k :| 0 <= k < |serial| && serial[k] == g;
        var o := CompanionObs(all, nlevs)[k];
        assert o in CompanionObs(all, nlevs);
        CompanionMember(all, nlevs, o);
        var r :| 0 <= r < |held| && o.rec in held[r];
        LocationOf(w[r], held[r], owned[r], nlevs, o);
      }
    }
    assert Elements(gathered) == Elements(serial);
    DistinctCount(gathered);
    DistinctCount(serial);
  }
}
