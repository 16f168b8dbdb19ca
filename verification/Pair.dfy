/**
 Two distributions joined into one (src/distribution/PairOfDistributions.cc): the first covers the
 original locations, the second the companions. The index of a companion location is shifted by an
 offset that is meant to be the number of distinct original locations.
 */
module PairDistribution {
  import opened Seqs
  import opened Collectives
  import opened Contract

  // ----- One rank

  predicate IsMyRecord(firstIsMine: nat -> bool, secondIsMine: nat -> bool, secondRecordNumOffset: nat, recNum: nat) {
    if recNum < secondRecordNumOffset then firstIsMine(recNum) else secondIsMine(recNum - secondRecordNumOffset)
  }

  function GlobalUniqueConsecutiveLocationIndex(first: View, second: View, offset: nat, loc: nat): nat
    requires |first.index| == |first.locs| && loc < |first.locs| + |second.index|
  {
    if loc < |first.locs| then first.index[loc] else offset + second.index[loc - |first.locs|]
  }

  /** A rank's contribution to the maximum that fixes the offset. */
  function LocalOffset(first: View): nat
    requires |first.index| == |first.locs|
  {
    if |first.locs| > 0 then first.index[|first.locs| - 1] + 1 else 0
  }

  /** How a distribution answers patchObs: with flags of its own, or by filling what it is given. */
  datatype Flags = Own(flags: seq<bool>) | Filled(flag: bool) {
    function PatchObs(patchObsVec: seq<bool>): seq<bool> {
      match this
      case Own(flags) => flags
      case Filled(flag) => seq(|patchObsVec|, _ => flag)
    }

    /** The flags are those of `v`, for a vector with one element per location. */
    ghost predicate IsFor(v: View) {
      match this
      case Own(flags) => flags == v.patch
      case Filled(flag) => forall j :: 0 <= j < |v.patch| ==> v.patch[j] == flag
    }
  }

  /** patchObs: the assertion fails where the caller's vector is shorter than the first distribution. */
  method PatchObs(first: Flags, second: Flags, firstNumLocs: nat, patchObsVec: seq<bool>)
      returns (ok: bool, patch: seq<bool>)
    ensures ok <==> |patchObsVec| >= firstNumLocs
    ensures ok ==> patch == first.PatchObs(patchObsVec[..firstNumLocs]) + second.PatchObs(patchObsVec[firstNumLocs..])
    ensures forall a, b | first.IsFor(a) && second.IsFor(b) && |a.patch| == firstNumLocs ::
              |patchObsVec| == |a.patch| + |b.patch| ==> ok && patch == a.patch + b.patch
  {
    if |patchObsVec| < firstNumLocs {
      return false, [];
    }
    var secondNumObs := |patchObsVec| - firstNumLocs;
    var secondPatchObsVec := second.PatchObs(seq(secondNumObs, _ => false));
    patch := first.PatchObs(patchObsVec[..firstNumLocs]);
    patch := patch + secondPatchObsVec;
    return true, patch;
  }

  // ----- All ranks

  function Offset(first: seq<View>): nat
    requires WellFormed(first)
  {
    MaxAll(seq(|first|, r requires 0 <= r < |first| => LocalOffset(first[r])))
  }

  function Shift(shift: nat, xs: seq<nat>): (ys: seq<nat>)
    ensures |ys| == |xs| && forall i :: 0 <= i < |xs| ==> ys[i] == shift + xs[i]
  {
    seq(|xs|, i requires 0 <= i < |xs| => shift + xs[i])
  }

  /** The view of a rank: companion location `g` of the second distribution is location `shift + g`. */
  function PairView(first: View, second: View, shift: nat, offset: nat): View
    requires |first.index| == |first.locs|
  {
    View(first.locs + Shift(shift, second.locs), first.patch + second.patch,
         seq(|first.locs| + |second.index|, loc requires 0 <= loc < |first.locs| + |second.index| =>
           GlobalUniqueConsecutiveLocationIndex(first, second, offset, loc)))
  }

  function PairViews(first: seq<View>, second: seq<View>, shift: nat): (w: seq<View>)
    requires |first| == |second| && WellFormed(first)
    ensures |w| == |first|
  {
    seq(|first|, r requires 0 <= r < |first| => PairView(first[r], second[r], shift, Offset(first)))
  }

  /** One vector per rank, with one element for each location of both distributions. */
  predicate PairShaped<T>(first: seq<View>, second: seq<View>, xs: seq<seq<T>>) {
    && |first| == |second| == |xs|
    && forall r :: 0 <= r < |xs| ==> |xs[r]| == |first[r].patch| + |second[r].patch|
  }

  function FirstPart<T>(first: seq<View>, second: seq<View>, xs: seq<seq<T>>): seq<seq<T>>
    requires PairShaped(first, second, xs)
  {
    seq(|xs|, r requires 0 <= r < |xs| => xs[r][..|first[r].patch|])
  }

  function SecondPart<T>(first: seq<View>, second: seq<View>, xs: seq<seq<T>>): seq<seq<T>>
    requires PairShaped(first, second, xs)
  {
    seq(|xs|, r requires 0 <= r < |xs| => xs[r][|first[r].patch|..])
  }

  /** Both distributions are gathered in turn and the results joined. */
  function AllGatherv<T>(first: seq<View>, second: seq<View>, xs: seq<seq<T>>): seq<T>
    requires PairShaped(first, second, xs)
  {
    Contract.AllGatherv(first, FirstPart(first, second, xs))
    + Contract.AllGatherv(second, SecondPart(first, second, xs))
  }

  /** The joined location vector, from those gathered by the two distributions. */
  function Joined(firstGathered: seq<nat>, secondGathered: seq<nat>, shift: nat): seq<nat> {
    firstGathered + Shift(shift, secondGathered)
  }

  lemma FieldParts<T>(first: seq<View>, second: seq<View>, shift: nat, f: nat -> T, h: nat -> T)
    requires |first| == |second| && WellFormed(first) && WellFormed(second)
    requires forall g: nat :: h(g) == f(shift + g)
    ensures var xs := FieldOf(PairViews(first, second, shift), f);
            && PairShaped(first, second, xs)
            && FirstPart(first, second, xs) == FieldOf(first, f)
            && SecondPart(first, second, xs) == FieldOf(second, h)
  {
    var xs := FieldOf(PairViews(first, second, shift), f);
    assert PairShaped(first, second, xs);
    forall r | 0 <= r < |xs|
      ensures xs[r][..|first[r].locs|] == Map(f, first[r].locs)
      ensures xs[r][|first[r].locs|..] == Map(h, second[r].locs)
    {
    }
    assert FirstPart(first, second, xs) == FieldOf(first, f);
    assert SecondPart(first, second, xs) == FieldOf(second, h);
  }

  /** Gathering any field over the pair gives that field of the joined locations. */
  lemma GatherPairField<T>(first: seq<View>, second: seq<View>, shift: nat, f: nat -> T)
    requires |first| == |second| && WellFormed(first) && WellFormed(second)
    ensures var xs := FieldOf(PairViews(first, second, shift), f);
            && PairShaped(first, second, xs)
            && AllGatherv(first, second, xs) == Map(f, Joined(Gathered(first), Gathered(second), shift))
  {
    var h := (g: nat) => f(shift + g);
    FieldParts(first, second, shift, f, h);
    GatherField(first, f);
    GatherField(second, h);
    MapOverJoin(f, h, shift, Gathered(first), Gathered(second));
  }

  lemma MapOverJoin<T>(f: nat -> T, h: nat -> T, shift: nat, a: seq<nat>, b: seq<nat>)
    requires forall g: nat :: h(g) == f(shift + g)
    ensures Map(f, a) + Map(h, b) == Map(f, a + Shift(shift, b))
  {
  }

  // ----- The offset

  /** The last location held by rank `r` is the last one gathered. */
  predicate EndsWithLast(v: View, gathered: seq<nat>) {
    |v.locs| > 0 && gathered != [] && v.locs[|v.locs| - 1] == gathered[|gathered| - 1]
  }

  lemma LocalOffsetExact(v: View, gathered: seq<nat>)
    requires IndexPoints(v, gathered) && Distinct(gathered)
    ensures LocalOffset(v) <= |gathered|
    ensures gathered != [] ==> (LocalOffset(v) == |gathered| <==> EndsWithLast(v, gathered))
  {
    if |v.locs| > 0 {
      var last := |v.locs| - 1;
      assert v.index[last] < |gathered| && gathered[v.index[last]] == v.locs[last];
    }
  }

  /** The offset never exceeds the number of distinct original locations; exactly when it reaches it. */
  lemma OffsetExact(first: seq<View>, gathered: seq<nat>)
    requires Consistent(first, gathered)
    ensures Offset(first) <= |gathered|
    ensures Offset(first) == |gathered| <==>
              gathered == [] || exists r :: 0 <= r < |first| && EndsWithLast(first[r], gathered)
  {
    var offsets := seq(|first|, r requires 0 <= r < |first| => LocalOffset(first[r]));
    MaxAllIsMaximum(offsets);
    forall r | 0 <= r < |first|
      ensures LocalOffset(first[r]) <= |gathered|
      ensures gathered != [] ==> (LocalOffset(first[r]) == |gathered| <==> EndsWithLast(first[r], gathered))
    {
      LocalOffsetExact(first[r], gathered);
    }
    if Offset(first) == |gathered| && gathered != [] {
      var r :| 0 <= r < |offsets| && offsets[r] == MaxAll(offsets);
      assert EndsWithLast(first[r], gathered);
    }
    if r :| 0 <= r < |first| && EndsWithLast(first[r], gathered) {
      assert offsets[r] == |gathered|;
    }
  }

  /** With a nonoverlapping first distribution the offset is right. */
  lemma OffsetOfNonoverlapping(first: seq<View>)
    requires Consistent(first, Flatten(LocsOf(first)))
    ensures Offset(first) == |Flatten(LocsOf(first))|
  {
    var ss := LocsOf(first);
    var gathered := Flatten(ss);
    OffsetExact(first, gathered);
    if gathered != [] {
      var r, j := FlattenFrom(ss, |gathered| - 1);
      if j + 1 < |ss[r]| { FlattenAt(ss, r, j + 1); }
      assert EndsWithLast(first[r], gathered);
    }
  }

  /** The same where every rank holds everything and what is gathered is what each rank holds. */
  lemma OffsetOfIdentity(first: seq<View>)
    requires first != [] && Consistent(first, first[0].locs)
    ensures Offset(first) == |first[0].locs|
  {
    OffsetExact(first, first[0].locs);
    if first[0].locs != [] {
      assert EndsWithLast(first[0], first[0].locs);
    }
  }

  // ----- When the pair meets the contract

  /** Original locations lie below `shift`, so companions never coincide with them. */
  ghost predicate Separate(first: seq<View>, shift: nat) {
    forall r, j :: 0 <= r < |first| && 0 <= j < |first[r].locs| ==> first[r].locs[j] < shift
  }

  ghost predicate Joinable(first: seq<View>, g1: seq<nat>, second: seq<View>, g2: seq<nat>, shift: nat) {
    |first| == |second| && Consistent(first, g1) && Consistent(second, g2) && Separate(first, shift)
  }

  lemma PairAt(first: seq<View>, second: seq<View>, shift: nat, r: nat, j: nat)
    requires |first| == |second| && WellFormed(first) && WellFormed(second)
    requires r < |first| && j < |first[r].locs| + |second[r].locs|
    ensures var w, n := PairViews(first, second, shift), |first[r].locs|;
            && |w[r].locs| == |w[r].index| == |w[r].patch| == n + |second[r].locs|
            && w[r].locs[j] == (if j < n then first[r].locs[j] else shift + second[r].locs[j - n])
            && w[r].patch[j] == (if j < n then first[r].patch[j] else second[r].patch[j - n])
            && w[r].index[j] == (if j < n then first[r].index[j] else Offset(first) + second[r].index[j - n])
  {
  }

  lemma JoinedDistinct(first: seq<View>, g1: seq<nat>, second: seq<View>, g2: seq<nat>, shift: nat)
    requires Joinable(first, g1, second, g2, shift)
    ensures Distinct(Joined(g1, g2, shift))
  {
    forall i | 0 <= i < |g1|
      ensures g1[i] < shift
    {
      assert g1[i] in g1;
      var r :| 0 <= r < |first| && g1[i] in first[r].locs;
    }
  }

  lemma SecondIsHeld(first: seq<View>, second: seq<View>, shift: nat, r: nat, h: nat)
    requires WellFormed(first) && WellFormed(second) && |first| == |second|
    requires r < |second| && h in second[r].locs
    ensures shift + h in PairViews(first, second, shift)[r].locs
  {
    var j :| 0 <= j < |second[r].locs| && second[r].locs[j] == h;
    PairAt(first, second, shift, r, |first[r].locs| + j);
  }

  lemma JoinedIsHeld(first: seq<View>, g1: seq<nat>, second: seq<View>, g2: seq<nat>, shift: nat, g: nat)
    requires Joinable(first, g1, second, g2, shift) && g in Joined(g1, g2, shift)
    ensures IsHeld(PairViews(first, second, shift), g)
  {
    var w := PairViews(first, second, shift);
    var i :| 0 <= i < |Joined(g1, g2, shift)| && Joined(g1, g2, shift)[i] == g;
    if i < |g1| {
      assert g1[i] in g1;
      var r :| 0 <= r < |first| && g in first[r].locs;
      var j :| 0 <= j < |first[r].locs| && first[r].locs[j] == g;
      PairAt(first, second, shift, r, j);
      assert g in w[r].locs;
    } else {
      var h := g2[i - |g1|];
      assert h in g2;
      var r :| 0 <= r < |second| && h in second[r].locs;
      SecondIsHeld(first, second, shift, r, h);
      assert g in w[r].locs;
    }
  }

  lemma PairIndexPoints(first: seq<View>, g1: seq<nat>, second: seq<View>, g2: seq<nat>, shift: nat, r: nat)
    requires Joinable(first, g1, second, g2, shift) && r < |first|
    requires Offset(first) == |g1| || g2 == []
    ensures IndexPoints(PairViews(first, second, shift)[r], Joined(g1, g2, shift))
  {
    var v := PairViews(first, second, shift)[r];
    forall j | 0 <= j < |v.locs|
      ensures v.index[j] < |Joined(g1, g2, shift)| && Joined(g1, g2, shift)[v.index[j]] == v.locs[j]
    {
      PairAt(first, second, shift, r, j);
      assert IndexPoints(first[r], g1) && IndexPoints(second[r], g2);
    }
  }

  lemma PairConsistentIf(first: seq<View>, g1: seq<nat>, second: seq<View>, g2: seq<nat>, shift: nat)
    requires Joinable(first, g1, second, g2, shift)
    requires Offset(first) == |g1| || g2 == []
    ensures Consistent(PairViews(first, second, shift), Joined(g1, g2, shift))
  {
    JoinedDistinct(first, g1, second, g2, shift);
    forall g | g in Joined(g1, g2, shift)
      ensures IsHeld(PairViews(first, second, shift), g)
    {
      JoinedIsHeld(first, g1, second, g2, shift, g);
    }
    forall r | 0 <= r < |first|
      ensures IndexPoints(PairViews(first, second, shift)[r], Joined(g1, g2, shift))
    {
      PairIndexPoints(first, g1, second, g2, shift, r);
    }
  }

  /** Two different locations share an index. */
  ghost predicate Collides(w: seq<View>)
    requires WellFormed(w)
  {
    exists r, j, q, k :: 0 <= r < |w| && 0 <= j < |w[r].locs| && 0 <= q < |w| && 0 <= k < |w[q].locs|
                         && w[r].locs[j] != w[q].locs[k] && w[r].index[j] == w[q].index[k]
  }

  lemma ConsistentNeverCollides(w: seq<View>, gathered: seq<nat>)
    requires WellFormed(w)
    ensures Consistent(w, gathered) ==> !Collides(w)
  {
  }

  lemma CollidesAt(first: seq<View>, second: seq<View>, shift: nat, q: nat, k: nat, r: nat, j: nat)
    requires |first| == |second| && WellFormed(first) && WellFormed(second) && Separate(first, shift)
    requires q < |first| && k < |first[q].locs| && r < |second| && j < |second[r].locs|
    requires first[q].index[k] == Offset(first) + second[r].index[j]
    ensures WellFormed(PairViews(first, second, shift)) && Collides(PairViews(first, second, shift))
  {
    PairAt(first, second, shift, q, k);
    PairAt(first, second, shift, r, |first[r].locs| + j);
  }

  /** An offset that falls short makes some companion share its index with an original location. */
  lemma PairIndexCollides(first: seq<View>, g1: seq<nat>, second: seq<View>, g2: seq<nat>, shift: nat)
    requires Joinable(first, g1, second, g2, shift) && Offset(first) < |g1| && g2 != []
    ensures WellFormed(PairViews(first, second, shift)) && Collides(PairViews(first, second, shift))
  {
    var q, k := HolderOfIndex(first, g1, Offset(first));
    var r, j := HolderOfIndex(second, g2, 0);
    CollidesAt(first, second, shift, q, k, r, j);
  }

  /** The pair meets the contract exactly when the offset is right or there are no companions. */
  lemma PairConsistentExactly(first: seq<View>, g1: seq<nat>, second: seq<View>, g2: seq<nat>, shift: nat)
    requires Joinable(first, g1, second, g2, shift)
    ensures Consistent(PairViews(first, second, shift), Joined(g1, g2, shift))
            <==> Offset(first) == |g1| || g2 == []
  {
    if Offset(first) == |g1| || g2 == [] {
      PairConsistentIf(first, g1, second, g2, shift);
    } else {
      OffsetExact(first, g1);
      PairIndexCollides(first, g1, second, g2, shift);
      ConsistentNeverCollides(PairViews(first, second, shift), Joined(g1, g2, shift));
    }
  }

  /** Where the offset is right, the element of the joined vector at a location's index is its own. */
  lemma PairGatherAgrees<T>(first: seq<View>, second: seq<View>, shift: nat, f: nat -> T, r: nat, j: nat)
    requires |first| == |second| && Sound(first) && Sound(second) && Separate(first, shift)
    requires Offset(first) == |Gathered(first)| || Gathered(second) == []
    requires r < |first| && j < |first[r].locs| + |second[r].locs|
    ensures var w := PairViews(first, second, shift);
            && PairShaped(first, second, FieldOf(w, f)) && WellFormed(w) && j < |w[r].locs|
            && w[r].index[j] < |AllGatherv(first, second, FieldOf(w, f))|
            && AllGatherv(first, second, FieldOf(w, f))[w[r].index[j]] == FieldOf(w, f)[r][j]
  {
    PairConsistentIf(first, Gathered(first), second, Gathered(second), shift);
    GatherPairField(first, second, shift, f);
    assert IndexPoints(PairViews(first, second, shift)[r], Joined(Gathered(first), Gathered(second), shift));
  }
}
