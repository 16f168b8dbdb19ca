/**
 The MPI reductions used by the distributions, as functions from the contributions of all ranks (in
 rank order) to the value every rank receives. Gather-to-all (section 5.7 of MPI 3.1) is
 `Seqs.Flatten`, the sum reduction is `Seqs.Sum`, and the exclusive scan (section 5.11.2) is the sum
 of the contributions of the lower ranks.
 */
module Collectives {

  function Max(a: nat, b: nat): nat {
    if a < b then b else a
  }

  function MaxAll(xs: seq<nat>): nat {
    if xs == [] then 0 else Max(MaxAll(xs[..|xs| - 1]), xs[|xs| - 1])
  }

  lemma {:induction false} MaxAllIsMaximum(xs: seq<nat>)
    ensures forall i :: 0 <= i < |xs| ==> xs[i] <= MaxAll(xs)
    ensures xs != [] ==> MaxAll(xs) in xs
  {
    if xs != [] {
      MaxAllIsMaximum(xs[..|xs| - 1]);
      if |xs| == 1 {
        assert xs[..0] == [];
        assert xs[0] in xs;
      }
    }
  }

  /** A distance, or the infinity that stands for "not held on this rank". */
  datatype Distance = Finite(d: real) | Infinite {
    predicate Less(other: Distance) {
      Finite? && (other.Infinite? || d < other.d)
    }
  }

  datatype DistRank = DistRank(dist: Distance, rank: nat)

  /** MPI_MINLOC on two operands: smaller value, ties to the smaller index. */
  function MinLoc2(a: DistRank, b: DistRank): DistRank {
    if a.dist.Less(b.dist) then a
    else if b.dist.Less(a.dist) then b
    else if a.rank <= b.rank then a
    else b
  }

  function MinLoc(xs: seq<DistRank>): DistRank
    requires xs != []
  {
    if |xs| == 1 then xs[0] else MinLoc2(MinLoc(xs[..|xs| - 1]), xs[|xs| - 1])
  }

  /** The reduced pair is a contribution that no other one precedes (section 5.9.4 of MPI 3.1). */
  lemma {:induction false} MinLocIsLeast(xs: seq<DistRank>)
    requires xs != []
    ensures MinLoc(xs) in xs
    ensures forall i :: 0 <= i < |xs| ==>
              MinLoc(xs).dist.Less(xs[i].dist) || (MinLoc(xs).dist == xs[i].dist && MinLoc(xs).rank <= xs[i].rank)
    ensures forall i :: 0 <= i < |xs| && xs[i].dist.Finite? ==>
              MinLoc(xs).dist.Finite? && MinLoc(xs).dist.d <= xs[i].dist.d
  {
    if |xs| == 1 {
      assert xs[0] in xs;
    } else {
      MinLocIsLeast(xs[..|xs| - 1]);
    }
  }

  /** Element-wise MPI_MINLOC over equally long vectors, one per rank. */
  function MinLocAll(vs: seq<seq<DistRank>>, n: nat): (glb: seq<DistRank>)
    requires vs != [] && forall r :: 0 <= r < |vs| ==> |vs[r]| == n
    ensures |glb| == n
  {
    seq(n, g requires 0 <= g < n => MinLoc(seq(|vs|, r requires 0 <= r < |vs| => vs[r][g])))
  }
}
