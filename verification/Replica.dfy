/**
 A distribution that places records on the ranks holding the same records of a master distribution
 (src/distribution/ReplicaOfGeneralDistribution.cc).
 */
module ReplicaDistribution {
  import opened Seqs
  import opened Collectives
  import opened Contract
  import opened Streams

  /** How looking up the indices of the held locations can end. */
  datatype Outcome =
    | Indexed
    | OutOfRange          // a gathered location is beyond the lookup vector
    | NotInAnyPatch       // a held location belongs to the patch of no rank

  class ReplicaOfGeneral {
    /** The master's answer for this rank; no record is assigned to the master any more. */
    const isMasterRecord: nat -> bool
    var masterPatchRecords: set<nat>
    var myRecords: set<nat>
    var myGlobalLocs: seq<nat>
    var isMyPatchObs: seq<bool>
    var globalUniqueConsecutiveLocIndices: seq<nat>
    ghost var stream: seq<Obs>

    function MyRule(): Rule {
      Delegate(isMasterRecord)
    }

    ghost predicate Assigning()
      reads this
    {
      var kept := Kept(MyRule(), stream);
      && myRecords == MyRecords(MyRule(), stream)
      && myGlobalLocs == Locs(kept)
      && |isMyPatchObs| == |kept|
      && (forall j :: 0 <= j < |kept| ==> (isMyPatchObs[j] <==> kept[j].rec in masterPatchRecords))
      && globalUniqueConsecutiveLocIndices == []
    }

    ghost function MyView(): View
      reads this
    {
      View(Locs(Kept(MyRule(), stream)), isMyPatchObs, globalUniqueConsecutiveLocIndices)
    }

    constructor (isMasterRecord: nat -> bool, masterRecordNumbers: seq<nat>, isMasterPatchObs: seq<bool>)
      requires |isMasterPatchObs| == |masterRecordNumbers|
      ensures this.isMasterRecord == isMasterRecord && Assigning() && stream == []
      ensures forall rec :: rec in masterPatchRecords <==>
                exists loc :: 0 <= loc < |masterRecordNumbers| && isMasterPatchObs[loc]
                  && masterRecordNumbers[loc] == rec
    {
      this.isMasterRecord := isMasterRecord;
      myRecords, myGlobalLocs, isMyPatchObs, globalUniqueConsecutiveLocIndices := {}, [], [], [];
      stream := [];
      var patchRecords: set<nat> := {};
      for loc := 0 to |masterRecordNumbers|
        invariant forall rec :: rec in patchRecords <==>
                    exists l :: 0 <= l < loc && isMasterPatchObs[l] && masterRecordNumbers[l] == rec
      {
        if isMasterPatchObs[loc] {
          patchRecords := patchRecords + {masterRecordNumbers[loc]};
        }
      }
      masterPatchRecords := patchRecords;
    }

    method AssignRecord(recNum: nat, locNum: nat, point: Point2)
      requires Assigning()
      modifies this
      ensures Assigning() && stream == old(stream) + [Obs(recNum, locNum, point)]
      ensures masterPatchRecords == old(masterPatchRecords)
    {
      ghost var o := Obs(recNum, locNum, point);
      MyRecordsSnoc(MyRule(), stream, o);
      KeptSnoc(MyRule(), stream, o);
      if isMasterRecord(recNum) {
        myRecords := myRecords + {recNum};
        myGlobalLocs := myGlobalLocs + [locNum];
        isMyPatchObs := isMyPatchObs + [recNum in masterPatchRecords];
      }
      stream := stream + [o];
    }

    predicate IsMyRecord(recNum: nat)
      reads this
    {
      recNum in myRecords
    }

    method LocalNumGlobalLocs() returns (n: nat)
      ensures myGlobalLocs == [] ==> n == 0
      ensures myGlobalLocs != [] ==> n == myGlobalLocs[|myGlobalLocs| - 1] + 1
    {
      n := 0;
      if myGlobalLocs != [] {
        n := myGlobalLocs[|myGlobalLocs| - 1] + 1;
      }
    }

    /** The elements of `x` at patch locations, or nothing if `x` has the wrong size. */
    method AtPatchObs<T>(x: seq<T>) returns (ok: bool, y: seq<T>)
      ensures ok <==> |x| == |isMyPatchObs|
      ensures ok ==> y == Select(x, isMyPatchObs)
    {
      y := [];
      if |x| != |isMyPatchObs| {
        return false, y;
      }
      for i := 0 to |x|
        invariant y == Select(x[..i], isMyPatchObs[..i])
      {
        SelectSnoc(x, isMyPatchObs, i);
        if isMyPatchObs[i] {
          y := y + [x[i]];
        }
      }
      assert x[..|x|] == x && isMyPatchObs[..|x|] == isMyPatchObs;
      return true, y;
    }

    /** Looks up each held location among the gathered patch locations. */
    method ReceivePatchLocs(nglocs: nat, gathered: seq<nat>) returns (outcome: Outcome)
      requires Assigning()
      requires forall i :: 0 <= i < |myGlobalLocs| ==> myGlobalLocs[i] < nglocs
      modifies this
      ensures stream == old(stream) && isMyPatchObs == old(isMyPatchObs) && myRecords == old(myRecords)
      ensures outcome.OutOfRange? <==> !Below(gathered, nglocs)
      ensures outcome.Indexed? <==> Below(gathered, nglocs) && Covered(MyView(), gathered)
      ensures outcome.Indexed? ==> IndexPoints(MyView(), gathered)
    {
      // -1 stands for the UNASSIGNED marker.
      var consecutiveLocIndices := seq(nglocs, _ => -1);
      for i := 0 to |gathered|
        invariant forall k :: 0 <= k < i ==> gathered[k] < nglocs
        invariant IsLookup(consecutiveLocIndices, nglocs, gathered[..i])
      {
        if gathered[i] >= nglocs {
          return OutOfRange;
        }
        consecutiveLocIndices := consecutiveLocIndices[gathered[i] := i];
        assert gathered[..i + 1] == gathered[..i] + [gathered[i]];
      }
      assert gathered[..|gathered|] == gathered;
      for loc := 0 to |myGlobalLocs|
        modifies this`globalUniqueConsecutiveLocIndices
        invariant |globalUniqueConsecutiveLocIndices| == loc
        invariant forall j :: 0 <= j < loc ==>
                    && globalUniqueConsecutiveLocIndices[j] < |gathered|
                    && gathered[globalUniqueConsecutiveLocIndices[j]] == myGlobalLocs[j]
      {
        var found := consecutiveLocIndices[myGlobalLocs[loc]];
        if found == -1 {
          assert myGlobalLocs[loc] in myGlobalLocs && myGlobalLocs[loc] !in gathered;
          return NotInAnyPatch;
        }
        globalUniqueConsecutiveLocIndices := globalUniqueConsecutiveLocIndices + [found];
      }
      masterPatchRecords := {};
      myGlobalLocs := [];
      return Indexed;
    }
  }

  /** `lookup` maps each gathered location to a position where it stands, and all others to -1. */
  ghost predicate IsLookup(lookup: seq<int>, n: nat, gathered: seq<nat>) {
    && |lookup| == n
    && forall g :: 0 <= g < n ==>
         if g in gathered then 0 <= lookup[g] < |gathered| && gathered[lookup[g]] == g
         else lookup[g] == -1
  }

  ghost predicate Below(gathered: seq<nat>, n: nat) {
    forall i :: 0 <= i < |gathered| ==> gathered[i] < n
  }

  ghost predicate Covered(v: View, gathered: seq<nat>) {
    forall g :: g in v.locs ==> g in gathered
  }

  ghost function ViewsOf(ranks: seq<ReplicaOfGeneral>): seq<View>
    reads ranks
  {
    seq(|ranks|, r requires 0 <= r < |ranks| reads ranks => ranks[r].MyView())
  }

  /** `w` holds the locations and patch flags of the ranks; their indices are yet to come. */
  ghost predicate Describes(w: seq<View>, ranks: seq<ReplicaOfGeneral>)
    reads ranks
  {
    && |w| == |ranks|
    && forall r :: 0 <= r < |ranks| ==>
         w[r].locs == Locs(Kept(ranks[r].MyRule(), ranks[r].stream)) && w[r].patch == ranks[r].isMyPatchObs
  }

  /** The first collective step: one more than the largest location held on any rank. */
  method GlobalNumLocs(ranks: seq<ReplicaOfGeneral>) returns (nglocs: nat)
    requires forall r :: 0 <= r < |ranks| ==> Ascending(ranks[r].myGlobalLocs)
    ensures forall r, i :: 0 <= r < |ranks| && 0 <= i < |ranks[r].myGlobalLocs| ==> ranks[r].myGlobalLocs[i] < nglocs
  {
    var ends: seq<nat> := [];
    for r := 0 to |ranks|
      invariant |ends| == r
      invariant forall q, i :: 0 <= q < r && 0 <= i < |ranks[q].myGlobalLocs| ==> ranks[q].myGlobalLocs[i] < ends[q]
    {
      var n := ranks[r].LocalNumGlobalLocs();
      ends := ends + [n];
    }
    nglocs := MaxAll(ends);
    MaxAllIsMaximum(ends);
  }

  /** The second collective step: the patch locations of all ranks, in rank order. */
  method GatherPatchLocs(ranks: seq<ReplicaOfGeneral>, ghost w: seq<View>) returns (gathered: seq<nat>)
    requires forall r :: 0 <= r < |ranks| ==> ranks[r].Assigning()
    requires Describes(w, ranks)
    ensures Shaped(w, LocsOf(w)) && gathered == AllGatherv(w, LocsOf(w))
  {
    assert forall r :: 0 <= r < |w| ==> ranks[r].myGlobalLocs == w[r].locs && |w[r].patch| == |w[r].locs|;
    var patchLocs: seq<seq<nat>> := [];
    for r := 0 to |ranks|
      invariant |patchLocs| == r
      invariant forall q :: 0 <= q < r ==> patchLocs[q] == Select(w[q].locs, w[q].patch)
    {
      var _, mine := ranks[r].AtPatchObs(ranks[r].myGlobalLocs);
      patchLocs := patchLocs + [mine];
    }
    assert patchLocs == PatchOnly(w, LocsOf(w));
    gathered := Flatten(patchLocs);
  }

  /** The lookups of all ranks; an element of `oks` is false where that rank throws. */
  method LookupAll(ranks: seq<ReplicaOfGeneral>, nglocs: nat, gathered: seq<nat>) returns (oks: seq<bool>)
    requires forall r :: 0 <= r < |ranks| ==> ranks[r].Assigning()
    requires forall r, i :: 0 <= r < |ranks| && 0 <= i < |ranks[r].myGlobalLocs| ==> ranks[r].myGlobalLocs[i] < nglocs
    requires forall r, q :: 0 <= r < q < |ranks| ==> ranks[r] != ranks[q]
    requires Below(gathered, nglocs)
    modifies ranks
    ensures |oks| == |ranks|
    ensures forall r :: 0 <= r < |ranks| ==>
              && ranks[r].stream == old(ranks[r].stream) && ranks[r].isMyPatchObs == old(ranks[r].isMyPatchObs)
              && ranks[r].myRecords == old(ranks[r].myRecords)
              && (oks[r] <==> Covered(ranks[r].MyView(), gathered))
              && (oks[r] ==> IndexPoints(ranks[r].MyView(), gathered))
  {
    oks := [];
    for r := 0 to |ranks|
      invariant |oks| == r
      invariant forall q :: r <= q < |ranks| ==> unchanged(ranks[q])
      invariant forall q :: 0 <= q < r ==>
                  && ranks[q].stream == old(ranks[q].stream) && ranks[q].isMyPatchObs == old(ranks[q].isMyPatchObs)
                  && ranks[q].myRecords == old(ranks[q].myRecords)
                  && (oks[q] <==> Covered(ranks[q].MyView(), gathered))
                  && (oks[q] ==> IndexPoints(ranks[q].MyView(), gathered))
    {
      var outcome := ranks[r].ReceivePatchLocs(nglocs, gathered);
      oks := oks + [outcome.Indexed?];
    }
  }

  /** computePatchLocs, run by all ranks in step; `ok` is false where some rank throws. */
  method ComputePatchLocs(ranks: seq<ReplicaOfGeneral>, ghost w: seq<View>) returns (ok: bool)
    requires forall r :: 0 <= r < |ranks| ==> ranks[r].Assigning() && Ascending(ranks[r].myGlobalLocs)
    requires forall r, q :: 0 <= r < q < |ranks| ==> ranks[r] != ranks[q]
    requires Describes(w, ranks)
    modifies ranks
    ensures Describes(w, ranks) && Shaped(w, LocsOf(w))
    ensures forall r :: 0 <= r < |ranks| ==> ranks[r].myRecords == old(ranks[r].myRecords)
    ensures ok <==> forall r :: 0 <= r < |ranks| ==> Covered(w[r], AllGatherv(w, LocsOf(w)))
    ensures ok ==> forall r :: 0 <= r < |ranks| ==> IndexPoints(ranks[r].MyView(), AllGatherv(w, LocsOf(w)))
  {
    var nglocs := GlobalNumLocs(ranks);
    var gathered := GatherPatchLocs(ranks, w);
    GatheredIsBelow(ranks, w, nglocs);
    var oks := LookupAll(ranks, nglocs, gathered);
    ok := false !in oks;
    assert forall r :: 0 <= r < |ranks| ==> ranks[r].MyView().locs == w[r].locs;
    assert forall r :: 0 <= r < |ranks| ==> (oks[r] <==> Covered(w[r], gathered));
  }

  /** The write past the end of the lookup vector cannot happen. */
  lemma GatheredIsBelow(ranks: seq<ReplicaOfGeneral>, w: seq<View>, nglocs: nat)
    requires forall r :: 0 <= r < |ranks| ==> ranks[r].Assigning()
    requires forall r, i :: 0 <= r < |ranks| && 0 <= i < |ranks[r].myGlobalLocs| ==> ranks[r].myGlobalLocs[i] < nglocs
    requires Describes(w, ranks) && Shaped(w, LocsOf(w))
    ensures Below(AllGatherv(w, LocsOf(w)), nglocs)
  {
    var gathered := AllGatherv(w, LocsOf(w));
    GatheredIsHeld(w);
    forall i | 0 <= i < |gathered|
      ensures gathered[i] < nglocs
    {
      assert gathered[i] in gathered;
      var r :| 0 <= r < |w| && gathered[i] in w[r].locs;
    }
  }
}
