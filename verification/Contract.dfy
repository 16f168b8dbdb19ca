/**
 What every distribution promises its callers (src/distribution/Distribution.h): the patch locations
 of all ranks form a complete, non-overlapping partition of the locations held anywhere, and the
 global unique consecutive index of a location points at its element of the gathered vector.

 The promise is stated once, on the views of all ranks, and each distribution is proved to meet it.
 The consequences that callers rely on (unique owner, bijective index, agreement of gathered data,
 reductions free of duplicates) are proved here from the promise alone.
 */
module Contract {
  import opened Seqs

  /** One rank: the global locations it holds, which of them are patch locations, their indices. */
  datatype View = View(locs: seq<nat>, patch: seq<bool>, index: seq<nat>)

  predicate WellFormed(w: seq<View>) {
    forall r :: 0 <= r < |w| ==> |w[r].patch| == |w[r].locs| && |w[r].index| == |w[r].locs|
  }

  /** One vector per rank, with one element for each location the rank holds. */
  predicate Shaped<T>(w: seq<View>, xs: seq<seq<T>>) {
    |xs| == |w| && forall r :: 0 <= r < |w| ==> |xs[r]| == |w[r].patch|
  }

  function PatchOnly<T>(w: seq<View>, xs: seq<seq<T>>): (ys: seq<seq<T>>)
    requires Shaped(w, xs)
  {
    seq(|w|, r requires 0 <= r < |w| => Select(xs[r], w[r].patch))
  }

  /** Gathering to all ranks the elements of `xs` that belong to patch locations. */
  function AllGatherv<T>(w: seq<View>, xs: seq<seq<T>>): seq<T>
    requires Shaped(w, xs)
  {
    Flatten(PatchOnly(w, xs))
  }

  function LocsOf(w: seq<View>): seq<seq<nat>> {
    seq(|w|, r requires 0 <= r < |w| => w[r].locs)
  }

  /** The vector in which rank `r` stores, for each of its locations, `f` of the global location. */
  function FieldOf<T>(w: seq<View>, f: nat -> T): seq<seq<T>> {
    seq(|w|, r requires 0 <= r < |w| => Map(f, w[r].locs))
  }

  function Gathered(w: seq<View>): seq<nat>
    requires WellFormed(w)
  {
    AllGatherv(w, LocsOf(w))
  }

  predicate Owns(w: seq<View>, r: nat, g: nat)
    requires WellFormed(w) && r < |w|
  {
    g in Select(w[r].locs, w[r].patch)
  }

  predicate IsHeld(w: seq<View>, g: nat) {
    exists r :: 0 <= r < |w| && g in w[r].locs
  }

  /** Each held location has an index at which it stands in the gathered vector. */
  predicate IndexPoints(v: View, gathered: seq<nat>) {
    && |v.index| == |v.locs|
    && forall j :: 0 <= j < |v.locs| ==> v.index[j] < |gathered| && gathered[v.index[j]] == v.locs[j]
  }

  /** `gathered` is what gathering the location vectors themselves delivers to every rank. */
  ghost predicate Consistent(w: seq<View>, gathered: seq<nat>) {
    && WellFormed(w)
    && Distinct(gathered)
    && (forall g :: g in gathered ==> IsHeld(w, g))
    && (forall r :: 0 <= r < |w| ==> IndexPoints(w[r], gathered))
  }

  /** The promise for a distribution whose gather selects patch locations rank by rank. */
  ghost predicate Sound(w: seq<View>) {
    WellFormed(w) && Consistent(w, Gathered(w))
  }

  predicate IsIndex(w: seq<View>, n: nat)
    requires WellFormed(w)
  {
    exists r, j :: 0 <= r < |w| && 0 <= j < |w[r].locs| && w[r].index[j] == n
  }

  // ----- Consequences

  /** Only held locations are gathered. */
  lemma GatheredIsHeld(w: seq<View>)
    requires Shaped(w, LocsOf(w))
    ensures forall g :: g in AllGatherv(w, LocsOf(w)) ==> IsHeld(w, g)
  {
    var ss := PatchOnly(w, LocsOf(w));
    forall g | g in AllGatherv(w, LocsOf(w))
      ensures IsHeld(w, g)
    {
      FlattenMember(ss, g);
      var r :| 0 <= r < |ss| && g in ss[r];
      var k :| 0 <= k < |ss[r]| && ss[r][k] == g;
      var j := SelectFrom(w[r].locs, w[r].patch, k);
    }
  }

  /** The index is a bijection from the locations held anywhere onto 0 .. N-1. */
  lemma IndexIsBijection(w: seq<View>, gathered: seq<nat>)
    requires Consistent(w, gathered)
    ensures forall g :: g in gathered <==> IsHeld(w, g)
    ensures forall r, j, q, k :: 0 <= r < |w| && 0 <= j < |w[r].locs| && 0 <= q < |w| && 0 <= k < |w[q].locs| ==>
              (w[r].index[j] == w[q].index[k] <==> w[r].locs[j] == w[q].locs[k])
    ensures forall n: nat :: n < |gathered| <==> IsIndex(w, n)
  {
    forall g | IsHeld(w, g)
      ensures g in gathered
    {
      var r :| 0 <= r < |w| && g in w[r].locs;
      var j :| 0 <= j < |w[r].locs| && w[r].locs[j] == g;
      assert IndexPoints(w[r], gathered);
    }
    forall n: nat | n < |gathered|
      ensures IsIndex(w, n)
    {
      var _, _ := HolderOfIndex(w, gathered, n);
    }
  }

  lemma HolderOfIndex(w: seq<View>, gathered: seq<nat>, n: nat) returns (r: nat, j: nat)
    requires Consistent(w, gathered) && n < |gathered|
    ensures r < |w| && j < |w[r].locs| && w[r].index[j] == n
  {
    assert gathered[n] in gathered;
    r :| 0 <= r < |w| && gathered[n] in w[r].locs;
    j :| 0 <= j < |w[r].locs| && w[r].locs[j] == gathered[n];
  }

  /** Each location held by some rank is a patch location of exactly one rank. */
  lemma OwnedExactlyOnce(w: seq<View>, g: nat)
    requires Sound(w) && IsHeld(w, g)
    ensures exists r :: 0 <= r < |w| && Owns(w, r, g) && g in w[r].locs
                        && forall q :: 0 <= q < |w| && Owns(w, q, g) ==> q == r
  {
    IndexIsBijection(w, Gathered(w));
    var ss := PatchOnly(w, LocsOf(w));
    FlattenMember(ss, g);
    var r :| 0 <= r < |ss| && g in ss[r];
    var i :| 0 <= i < |ss[r]| && ss[r][i] == g;
    FlattenAt(ss, r, i);
    var _ := SelectFrom(w[r].locs, w[r].patch, i);
    forall q | 0 <= q < |w| && Owns(w, q, g)
      ensures q == r
    {
      var k :| 0 <= k < |ss[q]| && ss[q][k] == g;
      FlattenAt(ss, q, k);
      assert Start(ss, r) + i == Start(ss, q) + k;
      if q < r { StartMonotone(ss, q + 1, r); StartStep(ss, q); }
      if r < q { StartMonotone(ss, r + 1, q); StartStep(ss, r); }
    }
  }

  lemma {:induction false} StartMonotone<T>(ss: seq<seq<T>>, r: nat, q: nat)
    requires r <= q <= |ss|
    ensures Start(ss, r) <= Start(ss, q)
    decreases q - r
  {
    if r < q {
      StartStep(ss, r);
      StartMonotone(ss, r + 1, q);
    }
  }

  /** Gathering commutes with computing a field from the locations. */
  lemma GatherField<T>(w: seq<View>, f: nat -> T)
    requires WellFormed(w)
    ensures Shaped(w, FieldOf(w, f))
    ensures AllGatherv(w, FieldOf(w, f)) == Map(f, Gathered(w))
  {
    var ss := PatchOnly(w, LocsOf(w));
    forall r | 0 <= r < |w|
      ensures Select(Map(f, w[r].locs), w[r].patch) == Map(f, ss[r])
    {
      SelectMap(f, w[r].locs, w[r].patch);
    }
    assert PatchOnly(w, FieldOf(w, f)) == seq(|ss|, r requires 0 <= r < |ss| => Map(f, ss[r]));
    FlattenMap(f, ss);
  }

  /** The gathered element at a location's index is the value its holder passed in. */
  lemma GatherAgrees<T>(w: seq<View>, f: nat -> T, xs: seq<seq<T>>)
    requires Sound(w) && Shaped(w, xs)
    requires forall r, j :: 0 <= r < |w| && 0 <= j < |w[r].locs| ==> xs[r][j] == f(w[r].locs[j])
    ensures |AllGatherv(w, xs)| == |Gathered(w)|
    ensures forall r, j :: 0 <= r < |w| && 0 <= j < |w[r].locs| ==>
              w[r].index[j] < |AllGatherv(w, xs)| && AllGatherv(w, xs)[w[r].index[j]] == xs[r][j]
  {
    forall r | 0 <= r < |w|
      ensures xs[r] == Map(f, w[r].locs)
    {
      assert |xs[r]| == |w[r].locs|;
    }
    assert xs == FieldOf(w, f);
    GatherField(w, f);
  }

  /**
   Adding up, over all ranks, the terms of patch locations only counts every location held anywhere
   exactly once.
   */
  lemma ReductionCountsOnce(w: seq<View>, f: nat -> real, n: nat)
    requires Sound(w)
    requires forall g :: g in Gathered(w) ==> g < n
    ensures Shaped(w, FieldOf(w, f))
    ensures Sum(seq(|w|, r requires 0 <= r < |w| => Sum(PatchOnly(w, FieldOf(w, f))[r])))
            == SumOver(Elements(Gathered(w)), f, n)
  {
    GatherField(w, f);
    var ss := PatchOnly(w, FieldOf(w, f));
    SumFlatten(ss);
    assert seq(|ss|, r requires 0 <= r < |ss| => Sum(ss[r])) == seq(|w|, r requires 0 <= r < |w| => Sum(ss[r]));
    SumEnumeration(Gathered(w), f, n);
  }
}
