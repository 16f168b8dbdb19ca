/** Accumulators of vectors: every item is reduced like a scalar (src/distribution). */
module VectorAccumulators {
  import opened Seqs
  import opened Contract
  import opened PairDistribution
  import opened Accumulators

  class VectorAccumulator {
    const kind: Kind
    var localResult: seq<real>

    constructor (kind: Kind, n: nat)
      ensures this.kind == kind && |localResult| == n && forall i :: 0 <= i < n ==> localResult[i] == 0.0
    {
      this.kind := kind;
      localResult := seq(n, _ => 0.0);
    }

    method AddTerm(loc: nat, term: seq<real>)
      requires kind.General? ==> loc < |kind.patchObs|
      requires |term| == |localResult|
      modifies this
      ensures |localResult| == |old(localResult)|
      ensures forall i :: 0 <= i < |localResult| ==>
                localResult[i] == old(localResult[i]) + if kind.Counts(loc) then term[i] else 0.0
    {
      if kind.General? && !kind.patchObs[loc] {
        return;
      }
      ghost var before := localResult;
      for i := 0 to |localResult|
        invariant |localResult| == |before|
        invariant forall k :: 0 <= k < i ==> localResult[k] == before[k] + term[k]
        invariant forall k :: i <= k < |before| ==> localResult[k] == before[k]
      {
        localResult := localResult[i := localResult[i] + term[i]];
      }
    }

    method AddTermToItem(loc: nat, item: nat, term: real)
      requires kind.General? ==> loc < |kind.patchObs|
      requires item < |localResult|
      modifies this
      ensures |localResult| == |old(localResult)|
      ensures forall i :: 0 <= i < |localResult| ==>
                localResult[i] == old(localResult[i]) + if i == item && kind.Counts(loc) then term else 0.0
    {
      if kind.General? && !kind.patchObs[loc] {
        return;
      }
      localResult := localResult[item := localResult[item] + term];
    }
  }

  // ----- What has been added up, item by item

  predicate AreVectors(terms: seq<seq<real>>, n: nat) {
    forall j :: 0 <= j < |terms| ==> |terms[j]| == n
  }

  /** The terms of item `i`. */
  function Item(terms: seq<seq<real>>, i: nat): (xs: seq<real>)
    requires forall j :: 0 <= j < |terms| ==> i < |terms[j]|
    ensures |xs| == |terms|
  {
    seq(|terms|, j requires 0 <= j < |terms| => terms[j][i])
  }

  lemma ItemSnoc(terms: seq<seq<real>>, term: seq<real>, n: nat, i: nat)
    requires AreVectors(terms, n) && |term| == n && i < n
    ensures AreVectors(terms + [term], n) && Item(terms + [term], i) == Item(terms, i) + [term[i]]
  {
  }

  /** An accumulator as created by a distribution: one, or the two behind a pair. */
  datatype VectorHandle =
    | One(acc: VectorAccumulator)
    | Two(first: VectorAccumulator, second: VectorAccumulator, firstNumLocs: nat)
  {
    function Objects(): set<VectorAccumulator> {
      match this
      case One(acc) => {acc}
      case Two(first, second, _) => {first, second}
    }

    /** It can take vectors of `n` items at `m` locations. */
    predicate Fits(n: nat, m: nat)
      reads Objects()
    {
      match this
      case One(acc) => |acc.localResult| == n && (acc.kind.General? ==> m <= |acc.kind.patchObs|)
      case Two(first, second, firstNumLocs) =>
        && first != second && |first.localResult| == |second.localResult| == n
        && SplitFits(first.kind, second.kind, firstNumLocs, m)
    }

    /** Item `i` of the local results after the terms `xs` of that item at locations 0, 1, ... */
    ghost predicate HoldsItem(i: nat, xs: seq<real>)
      reads Objects()
    {
      match this
      case One(acc) =>
        i < |acc.localResult| && (acc.kind.General? ==> |xs| <= |acc.kind.patchObs|)
        && acc.localResult[i] == acc.kind.Local(xs)
      case Two(first, second, n) =>
        i < |first.localResult| && i < |second.localResult| && SplitFits(first.kind, second.kind, n, |xs|)
        && SplitLocals(first.kind, first.localResult[i], second.kind, second.localResult[i], n, xs)
    }

    ghost predicate Holds(n: nat, terms: seq<seq<real>>)
      requires AreVectors(terms, n)
      reads Objects()
    {
      forall i :: 0 <= i < n ==> HoldsItem(i, Item(terms, i))
    }
  }

  /** addTerm for a whole vector, routed by a pair to the accumulator of the location. */
  method AddTerm(h: VectorHandle, loc: nat, term: seq<real>, ghost n: nat, ghost terms: seq<seq<real>>)
    requires AreVectors(terms, n) && |term| == n && loc == |terms| && h.Fits(n, |terms| + 1) && h.Holds(n, terms)
    modifies h.Objects()
    ensures h.Fits(n, |terms| + 1) && AreVectors(terms + [term], n) && h.Holds(n, terms + [term])
  {
    match h {
      case One(acc) =>
        ghost var before := acc.localResult;
        assert forall i :: 0 <= i < n ==> h.HoldsItem(i, Item(terms, i));
        acc.AddTerm(loc, term);
        forall i | 0 <= i < n
          ensures h.HoldsItem(i, Item(terms + [term], i))
        {
          ItemSnoc(terms, term, n, i);
          LocalSnoc(acc.kind, Item(terms, i), term[i]);
        }
      case Two(first, second, m) =>
        ghost var xs, ys := first.localResult, second.localResult;
        assert forall i :: 0 <= i < n ==> h.HoldsItem(i, Item(terms, i));
        if loc < m {
          first.AddTerm(loc, term);
        } else {
          second.AddTerm(loc - m, term);
        }
        forall i | 0 <= i < n
          ensures h.HoldsItem(i, Item(terms + [term], i))
        {
          ItemSnoc(terms, term, n, i);
          SplitSnoc(first.kind, xs[i], second.kind, ys[i], m, Item(terms, i), term[i],
                    first.localResult[i], second.localResult[i]);
        }
    }
  }

  /** Adding a vector item by item is adding it at once. */
  method AddItems(acc: VectorAccumulator, loc: nat, term: seq<real>)
    requires acc.kind.General? ==> loc < |acc.kind.patchObs|
    requires |term| == |acc.localResult|
    modifies acc
    ensures |acc.localResult| == |old(acc.localResult)|
    ensures forall i :: 0 <= i < |acc.localResult| ==>
              acc.localResult[i] == old(acc.localResult[i]) + if acc.kind.Counts(loc) then term[i] else 0.0
  {
    ghost var before := acc.localResult;
    for item := 0 to |term|
      invariant |acc.localResult| == |before|
      invariant forall i :: 0 <= i < item ==>
                  acc.localResult[i] == before[i] + if acc.kind.Counts(loc) then term[i] else 0.0
      invariant forall i :: item <= i < |before| ==> acc.localResult[i] == before[i]
    {
      acc.AddTermToItem(loc, item, term[item]);
    }
  }

  // ----- Reducing over the ranks

  /** Item `i` of the local results of all ranks. */
  ghost function ItemLocals(accs: seq<VectorAccumulator>, i: nat): (ls: seq<real>)
    requires forall r :: 0 <= r < |accs| ==> i < |accs[r].localResult|
    reads accs
    ensures |ls| == |accs| && forall r :: 0 <= r < |accs| ==> ls[r] == accs[r].localResult[i]
  {
    seq(|accs|, r requires 0 <= r < |accs| && i < |accs[r].localResult| reads accs => accs[r].localResult[i])
  }

  /** The sum reduction of a vector: item by item over the ranks. */
  method SumOverRanks(accs: seq<VectorAccumulator>, n: nat) returns (total: seq<real>)
    requires forall r :: 0 <= r < |accs| ==> |accs[r].localResult| == n
    ensures |total| == n && forall i :: 0 <= i < n ==> total[i] == Sum(ItemLocals(accs, i))
  {
    total := [];
    for i := 0 to n
      invariant |total| == i && forall k :: 0 <= k < i ==> total[k] == Sum(ItemLocals(accs, k))
    {
      ghost var locals := ItemLocals(accs, i);
      var x := 0.0;
      for r := 0 to |accs|
        invariant x == Sum(locals[..r])
      {
        assert locals[..r + 1][..r] == locals[..r];
        x := x + accs[r].localResult[i];
      }
      assert locals[..|accs|] == locals;
      total := total + [x];
    }
  }

  /** computeResult on every rank of one kind of accumulator. */
  method ComputeResults(accs: seq<VectorAccumulator>, n: nat) returns (results: seq<seq<real>>)
    requires forall r :: 0 <= r < |accs| ==> |accs[r].localResult| == n
    ensures |results| == |accs| && forall r :: 0 <= r < |accs| ==> |results[r]| == n
    ensures forall r, i :: 0 <= r < |accs| && 0 <= i < n ==>
              results[r][i] == Reduced(accs[r].kind, ItemLocals(accs, i), r)
  {
    var total := SumOverRanks(accs, n);
    results := [];
    for r := 0 to |accs|
      invariant |results| == r && forall q :: 0 <= q < r ==> |results[q]| == n
      invariant forall q, i :: 0 <= q < r && 0 <= i < n ==>
                  results[q][i] == Reduced(accs[q].kind, ItemLocals(accs, i), q)
    {
      var result := if accs[r].kind.Inefficient? then accs[r].localResult else total;
      results := results + [result];
    }
  }

  /** The item-wise sum in computeResult of a pair. */
  method AddUp(a: seq<real>, b: seq<real>) returns (result: seq<real>)
    requires |a| == |b|
    ensures |result| == |a| && forall i :: 0 <= i < |a| ==> result[i] == a[i] + b[i]
  {
    result := a;
    for i := 0 to |result|
      invariant |result| == |a|
      invariant forall k :: 0 <= k < i ==> result[k] == a[k] + b[k]
      invariant forall k :: i <= k < |a| ==> result[k] == a[k]
    {
      result := result[i := result[i] + b[i]];
    }
  }

  /** computeResult on every rank of a pair. */
  method ComputePairResults(first: seq<VectorAccumulator>, second: seq<VectorAccumulator>, n: nat)
      returns (results: seq<seq<real>>)
    requires |first| == |second|
    requires forall r :: 0 <= r < |first| ==> |first[r].localResult| == |second[r].localResult| == n
    ensures |results| == |first| && forall r :: 0 <= r < |first| ==> |results[r]| == n
    ensures forall r, i :: 0 <= r < |first| && 0 <= i < n ==>
              results[r][i] == Reduced(first[r].kind, ItemLocals(first, i), r)
              + Reduced(second[r].kind, ItemLocals(second, i), r)
  {
    var a := ComputeResults(first, n);
    var b := ComputeResults(second, n);
    results := [];
    for r := 0 to |first|
      invariant |results| == r && forall q :: 0 <= q < r ==> |results[q]| == n
      invariant forall q, i :: 0 <= q < r && 0 <= i < n ==> results[q][i] == a[q][i] + b[q][i]
    {
      var sum := AddUp(a[r], b[r]);
      results := results + [sum];
    }
  }

  // ----- Every location counts once, in every item

  /** The vectors of a rank are the fields `fs` at its locations. */
  ghost predicate AreFields(terms: seq<seq<real>>, locs: seq<nat>, fs: seq<nat -> real>) {
    && |terms| == |locs| && AreVectors(terms, |fs|)
    && forall j, i :: 0 <= j < |terms| && 0 <= i < |fs| ==> terms[j][i] == fs[i](locs[j])
  }

  lemma ItemIsField(terms: seq<seq<real>>, locs: seq<nat>, fs: seq<nat -> real>, i: nat)
    requires AreFields(terms, locs, fs) && i < |fs|
    ensures Item(terms, i) == Map(fs[i], locs)
  {
  }

  /** Item `i` of an accumulator has taken the terms of field `f` at the locations of a rank. */
  ghost predicate HasTakenItem(acc: VectorAccumulator, kind: Kind, v: View, i: nat, f: nat -> real)
    reads acc
  {
    && acc.kind == kind && i < |acc.localResult| && (kind.General? ==> |v.locs| <= |kind.patchObs|)
    && acc.localResult[i] == kind.Local(Map(f, v.locs))
  }

  ghost predicate HasTakenAll(acc: VectorAccumulator, kind: Kind, v: View, fs: seq<nat -> real>)
    reads acc
  {
    && acc.kind == kind && |acc.localResult| == |fs|
    && forall i :: 0 <= i < |fs| ==> HasTakenItem(acc, kind, v, i, fs[i])
  }

  /** All terms of a rank are added. */
  method TakeTerms(h: VectorHandle, terms: seq<seq<real>>, ghost n: nat)
    requires AreVectors(terms, n) && h.Fits(n, |terms|) && h.Fits(n, 0) && h.Holds(n, [])
    modifies h.Objects()
    ensures h.Fits(n, |terms|) && h.Holds(n, terms)
  {
    for loc := 0 to |terms|
      invariant h.Fits(n, |terms|) && h.Fits(n, loc) && AreVectors(terms[..loc], n) && h.Holds(n, terms[..loc])
    {
      assert terms[..loc + 1] == terms[..loc] + [terms[loc]];
      AddTerm(h, loc, terms[loc], n, terms[..loc]);
    }
    assert terms[..|terms|] == terms;
  }

  /** The accumulator of one rank after all its terms. */
  method TakeOne(kind: Kind, n: nat, terms: seq<seq<real>>, ghost v: View, ghost fs: seq<nat -> real>)
      returns (acc: VectorAccumulator)
    requires |fs| == n && FitsView(kind, v) && AreFields(terms, v.locs, fs)
    ensures fresh(acc) && HasTakenAll(acc, kind, v, fs)
  {
    acc := new VectorAccumulator(kind, n);
    ghost var h := VectorHandle.One(acc);
    forall i | 0 <= i < n
      ensures h.HoldsItem(i, Item([], i))
    {
      assert Item([], i) == [];
    }
    TakeTerms(VectorHandle.One(acc), terms, n);
    forall i | 0 <= i < n
      ensures HasTakenItem(acc, kind, v, i, fs[i])
    {
      assert h.HoldsItem(i, Item(terms, i));
      ItemIsField(terms, v.locs, fs, i);
    }
  }

  /** The two accumulators of one rank of a pair after all its terms. */
  method TakeTwo(firstKind: Kind, secondKind: Kind, firstNumLocs: nat, n: nat, terms: seq<seq<real>>, ghost first: View,
                 ghost second: View, ghost shift: nat, ghost fs: seq<nat -> real>, ghost hs: seq<nat -> real>)
      returns (a: VectorAccumulator, b: VectorAccumulator)
    requires |fs| == |hs| == n && firstNumLocs == |first.locs| && FitsView(firstKind, first)
             && FitsView(secondKind, second)
    requires AreFields(terms, PairLocs(first, second, shift), fs)
    requires forall i, g: nat :: 0 <= i < n ==> hs[i](g) == fs[i](shift + g)
    ensures fresh(a) && fresh(b) && HasTakenAll(a, firstKind, first, fs) && HasTakenAll(b, secondKind, second, hs)
  {
    a := new VectorAccumulator(firstKind, n);
    b := new VectorAccumulator(secondKind, n);
    ghost var h := VectorHandle.Two(a, b, firstNumLocs);
    forall i | 0 <= i < n
      ensures h.HoldsItem(i, Item([], i))
    {
      assert Item([], i) == [];
    }
    TakeTerms(VectorHandle.Two(a, b, firstNumLocs), terms, n);
    forall i | 0 <= i < n
      ensures HasTakenItem(a, firstKind, first, i, fs[i]) && HasTakenItem(b, secondKind, second, i, hs[i])
    {
      assert h.HoldsItem(i, Item(terms, i));
      ItemIsField(terms, PairLocs(first, second, shift), fs, i);
      PairField(first, second, shift, fs[i], hs[i]);
      SplitDone(firstKind, a.localResult[i], secondKind, b.localResult[i], Map(fs[i], first.locs),
                Map(hs[i], second.locs));
    }
  }

  lemma ItemLocalsAre(accs: seq<VectorAccumulator>, kinds: seq<Kind>, w: seq<View>, fs: seq<nat -> real>, i: nat)
    requires |accs| == |kinds| == |w| && i < |fs|
    requires forall r :: 0 <= r < |w| ==> HasTakenAll(accs[r], kinds[r], w[r], fs)
    ensures forall r :: 0 <= r < |w| ==>
              i < |accs[r].localResult| && (kinds[r].General? ==> |w[r].locs| <= |kinds[r].patchObs|)
    ensures ItemLocals(accs, i) == LocalsFor(w, fs[i], kinds)
  {
    forall r | 0 <= r < |w|
      ensures HasTakenItem(accs[r], kinds[r], w[r], i, fs[i])
    {
    }
    assert forall r :: 0 <= r < |w| ==> ItemLocals(accs, i)[r] == LocalsFor(w, fs[i], kinds)[r];
  }

  /** Main result: on every rank, item `i` of the result is the serial sum of field `i` over distinct locations. */
  method SumVectors(kinds: seq<Kind>, n: nat, terms: seq<seq<seq<real>>>,
                    ghost w: seq<View>, ghost fs: seq<nat -> real>, ghost bound: nat) returns (results: seq<seq<real>>)
    requires Sound(w) && KindsFor(w, kinds) && |terms| == |w| && |fs| == n
    requires forall r :: 0 <= r < |w| ==> AreFields(terms[r], w[r].locs, fs)
    requires forall g :: g in Gathered(w) ==> g < bound
    ensures |results| == |w| && forall r :: 0 <= r < |w| ==> |results[r]| == n
    ensures forall r, i :: 0 <= r < |w| && 0 <= i < n ==> results[r][i] == SumOver(Elements(Gathered(w)), fs[i], bound)
  {
    PatchFits(w, kinds);
    var accs := TakeOnAll(kinds, n, terms, w, fs);
    results := ComputeResults(accs, n);
    forall r, i | 0 <= r < |w| && 0 <= i < n
      ensures results[r][i] == SumOver(Elements(Gathered(w)), fs[i], bound)
    {
      ItemLocalsAre(accs, kinds, w, fs, i);
      ReducesToSerialSum(w, kinds, fs[i], bound, r);
    }
  }

  method TakeOnAll(kinds: seq<Kind>, n: nat, terms: seq<seq<seq<real>>>, ghost w: seq<View>, ghost fs: seq<nat -> real>)
      returns (accs: seq<VectorAccumulator>)
    requires |kinds| == |terms| == |w| && |fs| == n
    requires forall r :: 0 <= r < |w| ==> FitsView(kinds[r], w[r]) && AreFields(terms[r], w[r].locs, fs)
    ensures |accs| == |w|
    ensures forall r :: 0 <= r < |w| ==> HasTakenAll(accs[r], kinds[r], w[r], fs)
  {
    accs := [];
    for r := 0 to |terms|
      invariant |accs| == r
      invariant forall q :: 0 <= q < r ==> HasTakenAll(accs[q], kinds[q], w[q], fs)
    {
      var acc := TakeOne(kinds[r], n, terms[r], w[r], fs);
      accs := accs + [acc];
    }
  }

  method TakeOnPairs(firstKinds: seq<Kind>, secondKinds: seq<Kind>, firstNumLocs: seq<nat>, n: nat,
                     terms: seq<seq<seq<real>>>, ghost first: seq<View>, ghost second: seq<View>, ghost shift: nat,
                     ghost fs: seq<nat -> real>, ghost hs: seq<nat -> real>)
      returns (firstAccs: seq<VectorAccumulator>, secondAccs: seq<VectorAccumulator>)
    requires |terms| == |firstNumLocs| == |firstKinds| == |secondKinds| == |first| == |second| && |fs| == |hs| == n
    requires forall r :: 0 <= r < |first| ==> FitsView(firstKinds[r], first[r]) && FitsView(secondKinds[r], second[r])
    requires forall r :: 0 <= r < |first| ==>
               firstNumLocs[r] == |first[r].locs| && AreFields(terms[r], PairLocs(first[r], second[r], shift), fs)
    requires forall i, g: nat :: 0 <= i < n ==> hs[i](g) == fs[i](shift + g)
    ensures |firstAccs| == |secondAccs| == |first|
    ensures forall r :: 0 <= r < |first| ==> HasTakenAll(firstAccs[r], firstKinds[r], first[r], fs)
    ensures forall r :: 0 <= r < |first| ==> HasTakenAll(secondAccs[r], secondKinds[r], second[r], hs)
  {
    firstAccs, secondAccs := [], [];
    for r := 0 to |terms|
      invariant |firstAccs| == |secondAccs| == r
      invariant forall q :: 0 <= q < r ==> HasTakenAll(firstAccs[q], firstKinds[q], first[q], fs)
      invariant forall q :: 0 <= q < r ==> HasTakenAll(secondAccs[q], secondKinds[q], second[q], hs)
    {
      var a, b := TakeTwo(firstKinds[r], secondKinds[r], firstNumLocs[r], n, terms[r], first[r], second[r], shift, fs,
                          hs);
      firstAccs, secondAccs := firstAccs + [a], secondAccs + [b];
    }
  }

  lemma PairItemSum(firstAccs: seq<VectorAccumulator>, secondAccs: seq<VectorAccumulator>, firstKinds: seq<Kind>,
                    secondKinds: seq<Kind>, first: seq<View>, second: seq<View>, shift: nat, fs: seq<nat -> real>,
                    hs: seq<nat -> real>, bound: nat, r: nat, i: nat)
    requires Sound(first) && Sound(second) && KindsFor(first, firstKinds) && KindsFor(second, secondKinds)
    requires |firstAccs| == |secondAccs| == |first| == |second| && r < |first| && i < |fs| == |hs|
    requires forall q :: 0 <= q < |first| ==> |firstAccs[q].localResult| == |secondAccs[q].localResult| == |fs|
    requires forall q :: 0 <= q < |first| ==> HasTakenAll(firstAccs[q], firstKinds[q], first[q], fs)
    requires forall q :: 0 <= q < |first| ==> HasTakenAll(secondAccs[q], secondKinds[q], second[q], hs)
    requires forall g: nat :: hs[i](g) == fs[i](shift + g)
    requires (forall g :: g in Gathered(first) ==> g < shift) && (forall g :: g in Gathered(second) ==> g < bound)
    ensures Reduced(firstAccs[r].kind, ItemLocals(firstAccs, i), r)
            + Reduced(secondAccs[r].kind, ItemLocals(secondAccs, i), r)
            == SumOver(Elements(Joined(Gathered(first), Gathered(second), shift)), fs[i], shift + bound)
  {
    ItemLocalsAre(firstAccs, firstKinds, first, fs, i);
    ItemLocalsAre(secondAccs, secondKinds, second, hs, i);
    PairReducesToSerialSum(first, second, firstKinds, secondKinds, fs[i], hs[i], shift, bound, r);
  }

  /** computeResult of a pair on all ranks, once both sides have taken their terms. */
  method ReducePair(firstAccs: seq<VectorAccumulator>, secondAccs: seq<VectorAccumulator>, ghost firstKinds: seq<Kind>,
                    ghost secondKinds: seq<Kind>, n: nat, ghost first: seq<View>, ghost second: seq<View>,
                    ghost shift: nat, ghost fs: seq<nat -> real>, ghost hs: seq<nat -> real>, ghost bound: nat)
      returns (results: seq<seq<real>>)
    requires Sound(first) && Sound(second) && KindsFor(first, firstKinds) && KindsFor(second, secondKinds)
    requires |firstAccs| == |secondAccs| == |first| == |second| && |fs| == |hs| == n
    requires forall r :: 0 <= r < |first| ==> HasTakenAll(firstAccs[r], firstKinds[r], first[r], fs)
    requires forall r :: 0 <= r < |first| ==> HasTakenAll(secondAccs[r], secondKinds[r], second[r], hs)
    requires forall i, g: nat :: 0 <= i < n ==> hs[i](g) == fs[i](shift + g)
    requires (forall g :: g in Gathered(first) ==> g < shift) && (forall g :: g in Gathered(second) ==> g < bound)
    ensures |results| == |first| && forall r :: 0 <= r < |first| ==> |results[r]| == n
    ensures forall r, i :: 0 <= r < |first| && 0 <= i < n ==>
              results[r][i] == SumOver(Elements(Joined(Gathered(first), Gathered(second), shift)), fs[i], shift + bound)
  {
    results := ComputePairResults(firstAccs, secondAccs, n);
    forall r, i | 0 <= r < |first| && 0 <= i < n
      ensures results[r][i] == SumOver(Elements(Joined(Gathered(first), Gathered(second), shift)), fs[i], shift + bound)
    {
      PairItemSum(firstAccs, secondAccs, firstKinds, secondKinds, first, second, shift, fs, hs, bound, r, i);
    }
  }

  /** The same over a pair: the sum runs over the distinct locations of both distributions. */
  method SumVectorsOfPair(firstKinds: seq<Kind>, secondKinds: seq<Kind>, firstNumLocs: seq<nat>, n: nat,
                          terms: seq<seq<seq<real>>>, ghost first: seq<View>, ghost second: seq<View>, ghost shift: nat,
                          ghost fs: seq<nat -> real>, ghost hs: seq<nat -> real>, ghost bound: nat)
      returns (results: seq<seq<real>>)
    requires Sound(first) && Sound(second) && KindsFor(first, firstKinds) && KindsFor(second, secondKinds)
    requires |terms| == |firstNumLocs| == |first| == |second| && |fs| == |hs| == n
    requires forall r :: 0 <= r < |first| ==>
               firstNumLocs[r] == |first[r].locs| && AreFields(terms[r], PairLocs(first[r], second[r], shift), fs)
    requires forall i, g: nat :: 0 <= i < n ==> hs[i](g) == fs[i](shift + g)
    requires (forall g :: g in Gathered(first) ==> g < shift) && (forall g :: g in Gathered(second) ==> g < bound)
    ensures |results| == |first| && forall r :: 0 <= r < |first| ==> |results[r]| == n
    ensures forall r, i :: 0 <= r < |first| && 0 <= i < n ==>
              results[r][i] == SumOver(Elements(Joined(Gathered(first), Gathered(second), shift)), fs[i], shift + bound)
  {
    PatchFits(first, firstKinds);
    PatchFits(second, secondKinds);
    var firstAccs, secondAccs := TakeOnPairs(firstKinds, secondKinds, firstNumLocs, n, terms, first, second, shift, fs,
                                             hs);
    results := ReducePair(firstAccs, secondAccs, firstKinds, secondKinds, n, first, second, shift, fs, hs, bound);
  }
}
