/**
 Sums over all ranks that count every location once (the accumulators of src/distribution and the
 two reductions of src/distribution/DistributionUtils.cc), in exact arithmetic.
 */
module Accumulators {
  import opened Seqs
  import opened Contract
  import opened PairDistribution

  /** Which terms a rank adds, and whether the local results are then added up over all ranks. */
  datatype Kind =
    | General(patchObs: seq<bool>)
    | Nonoverlapping
    | Inefficient
  {
    predicate Counts(loc: nat)
      requires General? ==> loc < |patchObs|
    {
      General? ==> patchObs[loc]
    }

    /** What a rank has added up after the terms of its locations 0, 1, ... */
    function Local(terms: seq<real>): real
      requires General? ==> |terms| <= |patchObs|
    {
      if General? then Sum(Select(terms, patchObs[..|terms|])) else Sum(terms)
    }
  }

  class Accumulator {
    const kind: Kind
    var localResult: real

    constructor (kind: Kind)
      ensures this.kind == kind && localResult == 0.0
    {
      this.kind := kind;
      localResult := 0.0;
    }

    method AddTerm(loc: nat, term: real)
      requires kind.General? ==> loc < |kind.patchObs|
      modifies this
      ensures localResult == old(localResult) + if kind.Counts(loc) then term else 0.0
    {
      match kind
      case General(patchObs) =>
        if patchObs[loc] {
          localResult := localResult + term;
        }
      case Nonoverlapping =>
        localResult := localResult + term;
      case Inefficient =>
        localResult := localResult + term;
    }
  }

  /** An accumulator as created by a distribution: one, or the two behind a pair. */
  datatype Handle =
    | One(acc: Accumulator)
    | Two(first: Accumulator, second: Accumulator, firstNumLocs: nat)
  {
    function Objects(): set<Accumulator> {
      match this
      case One(acc) => {acc}
      case Two(first, second, _) => {first, second}
    }

    /** It can take the terms of `n` locations. */
    predicate Fits(n: nat) {
      match this
      case One(acc) => acc.kind.General? ==> n <= |acc.kind.patchObs|
      case Two(first, second, firstNumLocs) => first != second && SplitFits(first.kind, second.kind, firstNumLocs, n)
    }

    /** The local results after the terms of locations 0, 1, ... */
    ghost predicate Holds(terms: seq<real>)
      requires Fits(|terms|)
      reads Objects()
    {
      match this
      case One(acc) => acc.localResult == acc.kind.Local(terms)
      case Two(first, second, n) =>
        SplitLocals(first.kind, first.localResult, second.kind, second.localResult, n, terms)
    }
  }

  /** The kinds behind a pair can take the terms of `n` locations. */
  predicate SplitFits(first: Kind, second: Kind, firstNumLocs: nat, n: nat) {
    && (first.General? ==> firstNumLocs <= |first.patchObs|)
    && (second.General? ==> n <= firstNumLocs + |second.patchObs|)
  }

  /** Two local results `x` and `y` that have divided the terms between them after `n` locations. */
  predicate SplitLocals(first: Kind, x: real, second: Kind, y: real, n: nat, terms: seq<real>)
    requires SplitFits(first, second, n, |terms|)
  {
    if |terms| <= n then x == first.Local(terms) && y == 0.0
    else x == first.Local(terms[..n]) && y == second.Local(terms[n..])
  }

  lemma SplitSnoc(first: Kind, x: real, second: Kind, y: real, n: nat, terms: seq<real>, term: real, x': real, y': real)
    requires SplitFits(first, second, n, |terms| + 1) && SplitLocals(first, x, second, y, n, terms)
    requires |terms| < n ==> x' == x + (if first.Counts(|terms|) then term else 0.0) && y' == y
    requires |terms| >= n ==> x' == x && y' == y + if second.Counts(|terms| - n) then term else 0.0
    ensures SplitLocals(first, x', second, y', n, terms + [term])
  {
    var all := terms + [term];
    if |terms| < n {
      LocalSnoc(first, terms, term);
      if |all| == n { assert all[..n] == all && all[n..] == []; }
    } else {
      if |terms| == n { assert terms[..n] == terms && terms[n..] == []; }
      assert all[..n] == terms[..n] && all[n..] == terms[n..] + [term];
      LocalSnoc(second, terms[n..], term);
    }
  }

  /** Once all locations have been seen, each side has the terms of its own locations. */
  lemma SplitDone(first: Kind, x: real, second: Kind, y: real, a: seq<real>, b: seq<real>)
    requires SplitFits(first, second, |a|, |a + b|) && SplitLocals(first, x, second, y, |a|, a + b)
    ensures x == first.Local(a) && y == second.Local(b)
  {
    assert (a + b)[..|a|] == a && (a + b)[|a|..] == b;
    if b == [] {
      assert a + b == a;
      assert second.Local([]) == 0.0;
    }
  }

  method AddTerm(h: Handle, loc: nat, term: real, ghost terms: seq<real>)
    requires h.Fits(|terms| + 1) && loc == |terms| && h.Holds(terms)
    modifies h.Objects()
    ensures h.Fits(|terms + [term]|) && h.Holds(terms + [term])
  {
    match h
    case One(acc) =>
      LocalSnoc(acc.kind, terms, term);
      acc.AddTerm(loc, term);
    case Two(first, second, n) =>
      ghost var x, y := first.localResult, second.localResult;
      if loc < n {
        first.AddTerm(loc, term);
      } else {
        second.AddTerm(loc - n, term);
      }
      SplitSnoc(first.kind, x, second.kind, y, n, terms, term, first.localResult, second.localResult);
  }

  lemma LocalSnoc(kind: Kind, terms: seq<real>, term: real)
    requires kind.General? ==> |terms| < |kind.patchObs|
    ensures kind.Local([]) == 0.0
    ensures kind.Local(terms + [term]) == kind.Local(terms) + if kind.Counts(|terms|) then term else 0.0
  {
    var all := terms + [term];
    assert all[..|terms|] == terms;
    if kind.General? {
      var keep := kind.patchObs[..|all|];
      assert keep[..|terms|] == kind.patchObs[..|terms|];
      if keep[|terms|] {
        var ys := Select(terms, keep[..|terms|]);
        assert (ys + [term])[..|ys|] == ys;
      } else {
        assert Select(all, keep) == Select(terms, keep[..|terms|]);
      }
    }
  }

  // ----- Reducing over the ranks

  /** What rank `r` gets from the local results of all ranks. */
  function Reduced(kind: Kind, locals: seq<real>, r: nat): real
    requires r < |locals|
  {
    if kind.Inefficient? then locals[r] else Sum(locals)
  }

  ghost function Locals(accs: seq<Accumulator>): (ls: seq<real>)
    reads accs
    ensures |ls| == |accs| && forall r :: 0 <= r < |accs| ==> ls[r] == accs[r].localResult
  {
    seq(|accs|, r requires 0 <= r < |accs| reads accs => accs[r].localResult)
  }

  /** computeResult on every rank of one kind of accumulator. */
  method ComputeResults(accs: seq<Accumulator>) returns (results: seq<real>)
    ensures |results| == |accs|
    ensures forall r :: 0 <= r < |accs| ==> results[r] == Reduced(accs[r].kind, Locals(accs), r)
  {
    var total := 0.0;
    for r := 0 to |accs|
      invariant total == Sum(Locals(accs)[..r])
    {
      assert Locals(accs)[..r + 1][..r] == Locals(accs)[..r];
      total := total + accs[r].localResult;
    }
    assert Locals(accs)[..|accs|] == Locals(accs);
    results := [];
    for r := 0 to |accs|
      invariant |results| == r
      invariant forall q :: 0 <= q < r ==> results[q] == Reduced(accs[q].kind, Locals(accs), q)
    {
      var result := if accs[r].kind.Inefficient? then accs[r].localResult else total;
      results := results + [result];
    }
  }

  /** computeResult on every rank of a pair. */
  method ComputePairResults(first: seq<Accumulator>, second: seq<Accumulator>) returns (results: seq<real>)
    requires |first| == |second|
    ensures |results| == |first|
    ensures forall r :: 0 <= r < |first| ==>
              results[r] == Reduced(first[r].kind, Locals(first), r) + Reduced(second[r].kind, Locals(second), r)
  {
    var a := ComputeResults(first);
    var b := ComputeResults(second);
    results := [];
    for r := 0 to |first|
      invariant |results| == r
      invariant forall q :: 0 <= q < r ==>
                  results[q] == Reduced(first[q].kind, Locals(first), q) + Reduced(second[q].kind, Locals(second), q)
    {
      results := results + [a[r] + b[r]];
    }
  }

  // ----- Every location counts once

  /** The kind of accumulator that a distribution with these views hands out. */
  ghost predicate KindFor(w: seq<View>, r: nat, kind: Kind)
    requires WellFormed(w) && r < |w|
  {
    match kind
    case General(patchObs) => patchObs == w[r].patch
    case Nonoverlapping => forall q, j :: 0 <= q < |w| && 0 <= j < |w[q].patch| ==> w[q].patch[j]
    case Inefficient => Gathered(w) == w[r].locs
  }

  function LocalsFor(w: seq<View>, f: nat -> real, kinds: seq<Kind>): seq<real>
    requires |kinds| == |w| && forall r :: 0 <= r < |w| ==> kinds[r].General? ==> |w[r].locs| <= |kinds[r].patchObs|
  {
    seq(|w|, r requires 0 <= r < |w| => kinds[r].Local(Map(f, w[r].locs)))
  }

  /** The kinds of all ranks agree on whether they reduce, and follow the patch flags. */
  ghost predicate KindsFor(w: seq<View>, kinds: seq<Kind>)
    requires WellFormed(w)
  {
    && |kinds| == |w|
    && (forall r :: 0 <= r < |w| ==> KindFor(w, r, kinds[r]))
    && ((forall r :: 0 <= r < |w| ==> kinds[r].Inefficient?) || (forall r :: 0 <= r < |w| ==> !kinds[r].Inefficient?))
  }

  /**
   Main result: the value every rank receives is the serial sum in which each location held
   anywhere occurs once, for every kind of distribution.
   */
  lemma ReducesToSerialSum(w: seq<View>, kinds: seq<Kind>, f: nat -> real, n: nat, r: nat)
    requires Sound(w) && KindsFor(w, kinds) && r < |w|
    requires forall g :: g in Gathered(w) ==> g < n
    ensures Reduced(kinds[r], LocalsFor(w, f, kinds), r) == SumOver(Elements(Gathered(w)), f, n)
  {
    var locals := LocalsFor(w, f, kinds);
    if kinds[r].Inefficient? {
      SumEnumeration(Gathered(w), f, n);
    } else {
      ReductionCountsOnce(w, f, n);
      forall q | 0 <= q < |w|
        ensures locals[q] == Sum(PatchOnly(w, FieldOf(w, f))[q])
      {
        var terms := Map(f, w[q].locs);
        assert KindFor(w, q, kinds[q]);
        if kinds[q].General? {
          assert kinds[q].patchObs[..|terms|] == w[q].patch;
        } else {
          SelectAll(terms, w[q].patch);
        }
      }
      assert locals == seq(|w|, q requires 0 <= q < |w| => Sum(PatchOnly(w, FieldOf(w, f))[q]));
    }
  }

  lemma JoinedFacts(a: seq<nat>, b: seq<nat>, shift: nat, n: nat)
    requires Distinct(a) && Distinct(b)
    requires (forall g :: g in a ==> g < shift) && (forall g :: g in b ==> g < n)
    ensures Distinct(Joined(a, b, shift)) && forall x :: x in Joined(a, b, shift) ==> x < shift + n
  {
    assert forall i :: 0 <= i < |a| ==> a[i] in a;
    assert forall i :: 0 <= i < |b| ==> b[i] in b;
  }

  lemma JoinedMapsAddUp(a: seq<nat>, b: seq<nat>, f: nat -> real, h: nat -> real, shift: nat)
    requires forall g: nat :: h(g) == f(shift + g)
    ensures Sum(Map(f, Joined(a, b, shift))) == Sum(Map(f, a)) + Sum(Map(h, b))
  {
    MapOverJoin(f, h, shift, a, b);
    SumConcat(Map(f, a), Map(h, b));
  }

  lemma SumOfJoined(a: seq<nat>, b: seq<nat>, f: nat -> real, h: nat -> real, shift: nat, n: nat)
    requires Distinct(a) && Distinct(b)
    requires (forall g :: g in a ==> g < shift) && (forall g :: g in b ==> g < n)
    requires forall g: nat :: h(g) == f(shift + g)
    ensures SumOver(Elements(a), f, shift) + SumOver(Elements(b), h, n)
            == SumOver(Elements(Joined(a, b, shift)), f, shift + n)
  {
    var all := Joined(a, b, shift);
    JoinedFacts(a, b, shift, n);
    SumEnumeration(a, f, shift);
    SumEnumeration(b, h, n);
    SumEnumeration(all, f, shift + n);
    JoinedMapsAddUp(a, b, f, h, shift);
  }

  /**
   Over a pair, the two results together count original and companion locations once each; `h` is
   the field `f` seen from the second distribution.
   */
  lemma PairReducesToSerialSum(first: seq<View>, second: seq<View>, firstKinds: seq<Kind>, secondKinds: seq<Kind>,
                               f: nat -> real, h: nat -> real, shift: nat, n: nat, r: nat)
    requires Sound(first) && Sound(second) && |first| == |second| && r < |first|
    requires KindsFor(first, firstKinds) && KindsFor(second, secondKinds)
    requires forall g :: g in Gathered(first) ==> g < shift
    requires forall g :: g in Gathered(second) ==> g < n
    requires forall g: nat :: h(g) == f(shift + g)
    ensures Reduced(firstKinds[r], LocalsFor(first, f, firstKinds), r)
            + Reduced(secondKinds[r], LocalsFor(second, h, secondKinds), r)
            == SumOver(Elements(Joined(Gathered(first), Gathered(second), shift)), f, shift + n)
  {
    ReducesToSerialSum(first, firstKinds, f, shift, r);
    ReducesToSerialSum(second, secondKinds, h, n, r);
    SumOfJoined(Gathered(first), Gathered(second), f, h, shift, n);
  }

  // ----- The two reductions of DistributionUtils

  datatype Datum = Missing | Present(v: real)

  /** How many elements of a row are not missing. */
  function NonMissing(row: seq<Datum>): real {
    if row == [] then 0.0 else NonMissing(row[..|row| - 1]) + if row[|row| - 1].Present? then 1.0 else 0.0
  }

  /** The sum of products over the elements missing in neither row. */
  function Dot(a: seq<Datum>, b: seq<Datum>): real
    requires |a| == |b|
  {
    if a == [] then 0.0
    else
      var n := |a| - 1;
      Dot(a[..n], b[..n]) + if a[n].Present? && b[n].Present? then a[n].v * b[n].v else 0.0
  }

  /** A row has as many non-missing elements as there are positions with a value. */
  lemma {:induction false} NonMissingIsCount(row: seq<Datum>)
    ensures NonMissing(row) == |set k | 0 <= k < |row| && row[k] != Missing| as real
  {
    if row != [] {
      var n := |row| - 1;
      NonMissingIsCount(row[..n]);
      var before := set k | 0 <= k < n && row[..n][k] != Missing;
      var now := set k | 0 <= k < |row| && row[k] != Missing;
      assert now == if row[n] != Missing then before + {n} else before;
    }
  }

  /** The positions with a value in both rows. */
  ghost function BothPresent(a: seq<Datum>, b: seq<Datum>): set<nat> {
    set k: nat | k < |a| && k < |b| && a[k] != Missing && b[k] != Missing
  }

  ghost function ProductAt(a: seq<Datum>, b: seq<Datum>, k: nat): real {
    if k < |a| && k < |b| && a[k] != Missing && b[k] != Missing then a[k].v * b[k].v else 0.0
  }

  /** The dot product written out: the products at all positions with a value in both rows. */
  ghost function PlainDot(a: seq<Datum>, b: seq<Datum>): real {
    SumOver(BothPresent(a, b), (k: nat) => ProductAt(a, b, k), |a|)
  }

  lemma {:induction false} DotIsPlain(a: seq<Datum>, b: seq<Datum>)
    requires |a| == |b|
    ensures Dot(a, b) == PlainDot(a, b)
  {
    if a != [] {
      var n := |a| - 1;
      DotIsPlain(a[..n], b[..n]);
      SumOverSame(BothPresent(a[..n], b[..n]), BothPresent(a, b), (k: nat) => ProductAt(a[..n], b[..n], k),
                  (k: nat) => ProductAt(a, b, k), n);
    }
  }

  /** The values at the locations `held`: pairs of a location and a position in its row. */
  ghost function ValuesAt(held: set<nat>, data: nat -> seq<Datum>): set<(nat, nat)> {
    set g, k | g in held && 0 <= k < |data(g)| && data(g)[k] != Missing :: (g, k)
  }

  ghost function Tagged(g: nat, ks: set<nat>): set<(nat, nat)> {
    set k | k in ks :: (g, k)
  }

  lemma {:induction false} TaggedCount(g: nat, ks: set<nat>)
    ensures |Tagged(g, ks)| == |ks|
  {
    if ks == {} {
      assert Tagged(g, ks) == {};
    } else {
      var x :| x in ks;
      TaggedCount(g, ks - {x});
      assert Tagged(g, ks) == Tagged(g, ks - {x}) + {(g, x)};
      assert (g, x) !in Tagged(g, ks - {x});
    }
  }

  lemma RowValues(g: nat, data: nat -> seq<Datum>)
    ensures |ValuesAt({g}, data)| as real == NonMissing(data(g))
  {
    var ks := set k: nat | k < |data(g)| && data(g)[k] != Missing;
    assert ks == set k | 0 <= k < |data(g)| && data(g)[k] != Missing;
    NonMissingIsCount(data(g));
    assert ValuesAt({g}, data) == Tagged(g, ks);
    TaggedCount(g, ks);
  }

  lemma ValuesSplit(held: set<nat>, data: nat -> seq<Datum>, m: nat)
    requires m in held
    ensures |ValuesAt(held, data)| == |ValuesAt(held - {m}, data)| + |ValuesAt({m}, data)|
  {
    var rest, last := ValuesAt(held - {m}, data), ValuesAt({m}, data);
    assert ValuesAt(held, data) == rest + last;
    assert rest !! last;
  }

  /** Adding up the counts of all rows counts the values at all locations. */
  lemma {:induction false} CountsAddUp(held: set<nat>, data: nat -> seq<Datum>, f: nat -> real, n: nat)
    requires (forall g: nat :: f(g) == NonMissing(data(g))) && forall g :: g in held ==> g < n
    ensures SumOver(held, f, n) == |ValuesAt(held, data)| as real
  {
    if n == 0 {
      assert held == {} && ValuesAt(held, data) == {};
    } else {
      var m := n - 1;
      CountsAddUp(held - {m}, data, f, m);
      SumOverSame(held - {m}, held, f, f, m);
      if m in held {
        RowValues(m, data);
        ValuesSplit(held, data, m);
      } else {
        assert held - {m} == held;
      }
    }
  }

  /** The elements of location `loc` in a vector holding `nvars` elements per location. */
  function Row(v: seq<Datum>, nvars: nat, loc: nat): seq<Datum>
    requires (loc + 1) * nvars <= |v|
  {
    assert (loc + 1) * nvars == loc * nvars + nvars;
    v[loc * nvars..loc * nvars + nvars]
  }

  lemma RowFits(size: nat, nvars: nat, loc: nat)
    requires nvars > 0 && loc < size / nvars
    ensures (loc + 1) * nvars <= size
  {
    MulMonotone(loc + 1, size / nvars, nvars);
  }

  function NonMissingTerms(v: seq<Datum>, nvars: nat): (terms: seq<real>)
    requires nvars > 0
    ensures |terms| == |v| / nvars
  {
    seq(|v| / nvars, loc requires 0 <= loc < |v| / nvars => RowFits(|v|, nvars, loc); NonMissing(Row(v, nvars, loc)))
  }

  function DotTerms(v1: seq<Datum>, v2: seq<Datum>, nvars: nat): (terms: seq<real>)
    requires nvars > 0 && |v1| == |v2|
    ensures |terms| == |v1| / nvars
  {
    seq(|v1| / nvars, loc requires 0 <= loc < |v1| / nvars =>
      RowFits(|v1|, nvars, loc); Dot(Row(v1, nvars, loc), Row(v2, nvars, loc)))
  }

  /** The inner loop of globalNumNonMissingObs, from `element` on. */
  method CountRow(v: seq<Datum>, nvars: nat, element: nat) returns (term: real, next: nat)
    requires element + nvars <= |v|
    ensures next == element + nvars && term == NonMissing(v[element..element + nvars])
    ensures var row := v[element..element + nvars];
            term == |set k | 0 <= k < |row| && row[k] != Missing| as real
  {
    ghost var row := v[element..element + nvars];
    term, next := 0.0, element;
    for k := 0 to nvars
      invariant next == element + k && term == NonMissing(row[..k])
    {
      assert row[..k + 1][..k] == row[..k];
      if v[next].Present? {
        term := term + 1.0;
      }
      next := next + 1;
    }
    assert row[..nvars] == row;
    NonMissingIsCount(row);
  }

  lemma DotStep(a: seq<Datum>, b: seq<Datum>, k: nat)
    requires k < |a| == |b|
    ensures !(a[k].Present? && b[k].Present?) ==> Dot(a[..k + 1], b[..k + 1]) == Dot(a[..k], b[..k])
    ensures a[k].Present? && b[k].Present? ==> Dot(a[..k + 1], b[..k + 1]) == Dot(a[..k], b[..k]) + a[k].v * b[k].v
  {
    assert a[..k + 1][..k] == a[..k] && b[..k + 1][..k] == b[..k];
  }

  /** The inner loop of dotProduct, from `element` on. */
  method MultiplyRow(v1: seq<Datum>, v2: seq<Datum>, nvars: nat, element: nat) returns (term: real, next: nat)
    requires element + nvars <= |v1| == |v2|
    ensures next == element + nvars
    ensures term == Dot(v1[element..element + nvars], v2[element..element + nvars])
  {
    ghost var row1, row2 := v1[element..element + nvars], v2[element..element + nvars];
    term, next := 0.0, element;
    for k := 0 to nvars
      invariant next == element + k && term == Dot(row1[..k], row2[..k])
    {
      DotStep(row1, row2, k);
      if v1[next].Present? && v2[next].Present? {
        term := term + v1[next].v * v2[next].v;
      }
      next := next + 1;
    }
    assert row1[..nvars] == row1 && row2[..nvars] == row2;
  }

  /** globalNumNonMissingObs on one rank, up to the reduction. */
  method AddNonMissing(h: Handle, nvars: nat, v: seq<Datum>)
    requires nvars > 0 && h.Fits(|v| / nvars) && h.Fits(0) && h.Holds([])
    modifies h.Objects()
    ensures h.Holds(NonMissingTerms(v, nvars))
  {
    ghost var terms := NonMissingTerms(v, nvars);
    var element := 0;
    for loc := 0 to |v| / nvars
      invariant element == loc * nvars
      invariant h.Fits(loc) && h.Holds(terms[..loc])
    {
      RowFits(|v|, nvars, loc);
      assert (loc + 1) * nvars == element + nvars;
      var term, next := CountRow(v, nvars, element);
      element := next;
      assert terms[..loc + 1] == terms[..loc] + [term];
      AddTerm(h, loc, term, terms[..loc]);
    }
    assert terms[..|terms|] == terms;
  }

  /** dotProduct on one rank, up to the reduction; `ok` is false where the sizes differ. */
  method AddProducts(h: Handle, nvars: nat, v1: seq<Datum>, v2: seq<Datum>) returns (ok: bool)
    requires nvars > 0 && h.Fits(|v1| / nvars) && h.Fits(0) && h.Holds([])
    modifies h.Objects()
    ensures ok <==> |v1| == |v2|
    ensures ok ==> h.Holds(DotTerms(v1, v2, nvars))
  {
    if |v1| != |v2| {
      return false;
    }
    ghost var terms := DotTerms(v1, v2, nvars);
    var element := 0;
    for loc := 0 to |v1| / nvars
      invariant element == loc * nvars
      invariant h.Fits(loc) && h.Holds(terms[..loc])
    {
      RowFits(|v1|, nvars, loc);
      assert (loc + 1) * nvars == element + nvars;
      var term, next := MultiplyRow(v1, v2, nvars, element);
      element := next;
      assert terms[..loc + 1] == terms[..loc] + [term];
      AddTerm(h, loc, term, terms[..loc]);
    }
    assert terms[..|terms|] == terms;
    return true;
  }

  // ----- End to end, on all ranks

  /** A rank's vector consists of the rows that the unlayered `data` has at its locations. */
  ghost predicate HoldsRows(v: seq<Datum>, nvars: nat, locs: seq<nat>, data: nat -> seq<Datum>) {
    exists ls :: ls == locs && HasRows(v, nvars, ls, data)
  }

  ghost predicate HasRows(v: seq<Datum>, nvars: nat, locs: seq<nat>, data: nat -> seq<Datum>) {
    && |v| == |locs| * nvars
    && forall j :: 0 <= j < |locs| ==> (j + 1) * nvars <= |v| && Row(v, nvars, j) == data(locs[j])
  }

  lemma RowCount(v: seq<Datum>, nvars: nat, locs: seq<nat>, data: nat -> seq<Datum>)
    requires nvars > 0 && HoldsRows(v, nvars, locs, data)
    ensures |v| / nvars == |locs|
  {
    DivModUnique(|v|, nvars, |locs|, 0);
  }

  lemma NonMissingTermsAreField(v: seq<Datum>, nvars: nat, locs: seq<nat>, data: nat -> seq<Datum>, f: nat -> real)
    requires nvars > 0 && HoldsRows(v, nvars, locs, data)
    requires forall g :: f(g) == NonMissing(data(g))
    ensures |v| / nvars == |locs| && NonMissingTerms(v, nvars) == Map(f, locs)
  {
    RowCount(v, nvars, locs, data);
    forall j | 0 <= j < |locs|
      ensures NonMissingTerms(v, nvars)[j] == f(locs[j])
    {
      RowFits(|v|, nvars, j);
    }
  }

  lemma DotTermsAreField(v1: seq<Datum>, v2: seq<Datum>, nvars: nat, locs: seq<nat>,
                         data1: nat -> seq<Datum>, data2: nat -> seq<Datum>, f: nat -> real)
    requires nvars > 0 && HoldsRows(v1, nvars, locs, data1) && HoldsRows(v2, nvars, locs, data2)
    requires forall g :: |data1(g)| == |data2(g)| && f(g) == Dot(data1(g), data2(g))
    ensures |v1| / nvars == |locs| && DotTerms(v1, v2, nvars) == Map(f, locs)
  {
    RowCount(v1, nvars, locs, data1);
    forall j | 0 <= j < |locs|
      ensures DotTerms(v1, v2, nvars)[j] == f(locs[j])
    {
      RowFits(|v1|, nvars, j);
      assert Row(v1, nvars, j) == data1(locs[j]) && Row(v2, nvars, j) == data2(locs[j]);
    }
  }

  /** Accumulator `acc` has taken the terms `f` of the locations of rank `r`. */
  ghost predicate HasTaken(acc: Accumulator, kind: Kind, v: View, f: nat -> real)
    reads acc
  {
    exists terms :: terms == Map(f, v.locs) && HasTakenTerms(acc, kind, terms)
  }

  ghost predicate HasTakenTerms(acc: Accumulator, kind: Kind, terms: seq<real>)
    reads acc
  {
    acc.kind == kind && (kind.General? ==> |terms| <= |kind.patchObs|) && acc.localResult == kind.Local(terms)
  }

  method ReduceAll(accs: seq<Accumulator>, ghost kinds: seq<Kind>, ghost w: seq<View>, ghost f: nat -> real,
                   ghost n: nat)
      returns (results: seq<real>)
    requires Sound(w) && KindsFor(w, kinds) && |accs| == |w|
    requires forall r :: 0 <= r < |w| ==> HasTaken(accs[r], kinds[r], w[r], f)
    requires forall g :: g in Gathered(w) ==> g < n
    ensures |results| == |w|
    ensures forall r :: 0 <= r < |w| ==> results[r] == SumOver(Elements(Gathered(w)), f, n)
  {
    results := ComputeResults(accs);
    assert Locals(accs) == LocalsFor(w, f, kinds);
    forall r | 0 <= r < |w|
      ensures results[r] == SumOver(Elements(Gathered(w)), f, n)
    {
      ReducesToSerialSum(w, kinds, f, n, r);
    }
  }

  lemma PatchFits(w: seq<View>, kinds: seq<Kind>)
    requires WellFormed(w) && KindsFor(w, kinds)
    ensures forall r :: 0 <= r < |w| ==> FitsView(kinds[r], w[r])
  {
    forall r | 0 <= r < |w|
      ensures FitsView(kinds[r], w[r])
    {
      assert KindFor(w, r, kinds[r]);
    }
  }

  /** An accumulator with patch flags has one for each location. */
  predicate FitsView(kind: Kind, v: View) {
    kind.General? ==> |kind.patchObs| == |v.locs|
  }

  /** The locations held anywhere, below `n`. */
  ghost function HeldBelow(w: seq<View>, n: nat): set<nat> {
    set g: nat | g < n && IsHeld(w, g)
  }

  lemma GatheredAreHeld(w: seq<View>, n: nat)
    requires Sound(w) && forall g :: g in Gathered(w) ==> g < n
    ensures Elements(Gathered(w)) == HeldBelow(w, n)
  {
    IndexIsBijection(w, Gathered(w));
  }

  /** The locations held anywhere by either side of a pair, the second ones shifted. */
  ghost function HeldByPair(first: seq<View>, second: seq<View>, shift: nat, n: nat): set<nat> {
    set g: nat | g < shift + n && if g < shift then IsHeld(first, g) else IsHeld(second, g - shift)
  }

  lemma JoinedMember(a: seq<nat>, b: seq<nat>, shift: nat, x: nat)
    requires forall g :: g in a ==> g < shift
    ensures x in Joined(a, b, shift) <==> if x < shift then x in a else x - shift in b
  {
    var joined := Joined(a, b, shift);
    if x in joined {
      var i :| 0 <= i < |joined| && joined[i] == x;
      assert i >= |a| ==> b[i - |a|] in b;
      assert i < |a| ==> a[i] in a;
    }
    if i :| 0 <= i < |a| && a[i] == x {
      assert joined[i] == x;
    }
    if x >= shift && x - shift in b {
      var i :| 0 <= i < |b| && b[i] == x - shift;
      assert joined[|a| + i] == x;
    }
  }

  lemma JoinedAreHeld(first: seq<View>, second: seq<View>, shift: nat, n: nat)
    requires Sound(first) && Sound(second)
    requires (forall g :: g in Gathered(first) ==> g < shift) && (forall g :: g in Gathered(second) ==> g < n)
    ensures Elements(Joined(Gathered(first), Gathered(second), shift)) == HeldByPair(first, second, shift, n)
  {
    IndexIsBijection(first, Gathered(first));
    IndexIsBijection(second, Gathered(second));
    forall x: nat
      ensures x in Joined(Gathered(first), Gathered(second), shift) <==> x in HeldByPair(first, second, shift, n)
    {
      JoinedMember(Gathered(first), Gathered(second), shift, x);
    }
  }

  /** Every rank ends up with the number of non-missing values at distinct locations. */
  method GlobalNumNonMissingObs(kinds: seq<Kind>, nvars: nat, vs: seq<seq<Datum>>,
                                ghost w: seq<View>, ghost data: nat -> seq<Datum>, ghost f: nat -> real, ghost n: nat)
      returns (results: seq<real>)
    requires Sound(w) && KindsFor(w, kinds) && |vs| == |w| && nvars > 0
    requires forall r :: 0 <= r < |w| ==> HoldsRows(vs[r], nvars, w[r].locs, data)
    requires forall g :: f(g) == NonMissing(data(g))
    requires forall g :: g in Gathered(w) ==> g < n
    ensures |results| == |w|
    ensures forall r :: 0 <= r < |w| ==> results[r] == SumOver(Elements(Gathered(w)), f, n)
    ensures forall r :: 0 <= r < |w| ==> results[r] == |ValuesAt(HeldBelow(w, n), data)| as real
  {
    PatchFits(w, kinds);
    GatheredAreHeld(w, n);
    CountsAddUp(HeldBelow(w, n), data, f, n);
    var accs: seq<Accumulator> := [];
    for r := 0 to |vs|
      invariant |accs| == r
      invariant forall q :: 0 <= q < r ==> fresh(accs[q]) && HasTaken(accs[q], kinds[q], w[q], f)
    {
      var acc := new Accumulator(kinds[r]);
      NonMissingTermsAreField(vs[r], nvars, w[r].locs, data, f);
      AddNonMissing(One(acc), nvars, vs[r]);
      assert HasTakenTerms(acc, kinds[r], Map(f, w[r].locs));
      accs := accs + [acc];
    }
    results := ReduceAll(accs, kinds, w, f, n);
  }

  lemma DotsArePlain(held: set<nat>, data1: nat -> seq<Datum>, data2: nat -> seq<Datum>, f: nat -> real, n: nat)
    requires forall g :: |data1(g)| == |data2(g)| && f(g) == Dot(data1(g), data2(g))
    ensures SumOver(held, f, n) == SumOver(held, (g: nat) => PlainDot(data1(g), data2(g)), n)
  {
    forall g: nat
      ensures f(g) == PlainDot(data1(g), data2(g))
    {
      DotIsPlain(data1(g), data2(g));
    }
    SumOverSame(held, held, f, (g: nat) => PlainDot(data1(g), data2(g)), n);
  }

  /** Every rank ends up with the dot product over distinct locations. */
  method DotProduct(kinds: seq<Kind>, nvars: nat, vs1: seq<seq<Datum>>, vs2: seq<seq<Datum>>,
                    ghost w: seq<View>, ghost data1: nat -> seq<Datum>, ghost data2: nat -> seq<Datum>,
                    ghost f: nat -> real, ghost n: nat)
      returns (results: seq<real>)
    requires Sound(w) && KindsFor(w, kinds) && |vs1| == |vs2| == |w| && nvars > 0
    requires forall r :: 0 <= r < |w| ==>
               HoldsRows(vs1[r], nvars, w[r].locs, data1) && HoldsRows(vs2[r], nvars, w[r].locs, data2)
    requires forall g :: |data1(g)| == |data2(g)| && f(g) == Dot(data1(g), data2(g))
    requires forall g :: g in Gathered(w) ==> g < n
    ensures |results| == |w|
    ensures forall r :: 0 <= r < |w| ==> results[r] == SumOver(Elements(Gathered(w)), f, n)
    ensures forall r :: 0 <= r < |w| ==>
              results[r] == SumOver(HeldBelow(w, n), (g: nat) => PlainDot(data1(g), data2(g)), n)
  {
    PatchFits(w, kinds);
    GatheredAreHeld(w, n);
    DotsArePlain(HeldBelow(w, n), data1, data2, f, n);
    var accs: seq<Accumulator> := [];
    for r := 0 to |vs1|
      invariant |accs| == r
      invariant forall q :: 0 <= q < r ==> fresh(accs[q]) && HasTaken(accs[q], kinds[q], w[q], f)
    {
      var acc := new Accumulator(kinds[r]);
      DotTermsAreField(vs1[r], vs2[r], nvars, w[r].locs, data1, data2, f);
      var _ := AddProducts(One(acc), nvars, vs1[r], vs2[r]);
      assert HasTakenTerms(acc, kinds[r], Map(f, w[r].locs));
      accs := accs + [acc];
    }
    results := ReduceAll(accs, kinds, w, f, n);
  }

  // ----- End to end over a pair, as for every extended ObsSpace

  /** The locations of a rank of a pair, the second ones shifted. */
  function PairLocs(first: View, second: View, shift: nat): seq<nat> {
    first.locs + Shift(shift, second.locs)
  }

  /** The field `h` of the second distribution is `f` at the shifted location. */
  lemma PairField(first: View, second: View, shift: nat, f: nat -> real, h: nat -> real)
    requires forall g: nat :: h(g) == f(shift + g)
    ensures Map(f, PairLocs(first, second, shift)) == Map(f, first.locs) + Map(h, second.locs)
  {
    MapOverJoin(f, h, shift, first.locs, second.locs);
  }

  /** Both accumulators of a rank have taken the terms of their own locations. */
  lemma PairTaken(a: Accumulator, b: Accumulator, first: View, second: View, shift: nat, f: nat -> real, h: nat -> real)
    requires forall g: nat :: h(g) == f(shift + g)
    requires Two(a, b, |first.locs|).Fits(|PairLocs(first, second, shift)|)
    requires Two(a, b, |first.locs|).Holds(Map(f, PairLocs(first, second, shift)))
    ensures HasTaken(a, a.kind, first, f) && HasTaken(b, b.kind, second, h)
  {
    PairField(first, second, shift, f, h);
    SplitDone(a.kind, a.localResult, b.kind, b.localResult, Map(f, first.locs), Map(h, second.locs));
    assert HasTakenTerms(a, a.kind, Map(f, first.locs)) && HasTakenTerms(b, b.kind, Map(h, second.locs));
  }

  /** computeResult of a pair on all ranks, once both sides have taken their terms. */
  method ReducePair(firstAccs: seq<Accumulator>, secondAccs: seq<Accumulator>, ghost firstKinds: seq<Kind>,
                    ghost secondKinds: seq<Kind>, ghost first: seq<View>, ghost second: seq<View>, ghost shift: nat,
                    ghost f: nat -> real, ghost h: nat -> real, ghost n: nat) returns (results: seq<real>)
    requires Sound(first) && Sound(second) && |firstAccs| == |secondAccs| == |first| == |second|
    requires KindsFor(first, firstKinds) && KindsFor(second, secondKinds)
    requires forall r :: 0 <= r < |first| ==> HasTaken(firstAccs[r], firstKinds[r], first[r], f)
    requires forall r :: 0 <= r < |first| ==> HasTaken(secondAccs[r], secondKinds[r], second[r], h)
    requires forall g :: g in Gathered(first) ==> g < shift
    requires forall g :: g in Gathered(second) ==> g < n
    requires forall g: nat :: h(g) == f(shift + g)
    ensures |results| == |first|
    ensures forall r :: 0 <= r < |first| ==>
              results[r] == SumOver(Elements(Joined(Gathered(first), Gathered(second), shift)), f, shift + n)
  {
    results := ComputePairResults(firstAccs, secondAccs);
    assert Locals(firstAccs) == LocalsFor(first, f, firstKinds);
    assert Locals(secondAccs) == LocalsFor(second, h, secondKinds);
    forall r | 0 <= r < |first|
      ensures results[r] == SumOver(Elements(Joined(Gathered(first), Gathered(second), shift)), f, shift + n)
    {
      PairReducesToSerialSum(first, second, firstKinds, secondKinds, f, h, shift, n, r);
    }
  }

  /** The accumulators of one rank of a pair after globalNumNonMissingObs has added its terms. */
  method CountOnPair(firstKind: Kind, secondKind: Kind, firstNumLocs: nat, nvars: nat, v: seq<Datum>, ghost first: View,
                     ghost second: View, ghost shift: nat, ghost data: nat -> seq<Datum>, ghost f: nat -> real,
                     ghost h: nat -> real)
      returns (a: Accumulator, b: Accumulator)
    requires nvars > 0 && firstNumLocs == |first.locs|
    requires FitsView(firstKind, first) && FitsView(secondKind, second)
    requires HoldsRows(v, nvars, PairLocs(first, second, shift), data)
    requires (forall g :: f(g) == NonMissing(data(g))) && (forall g: nat :: h(g) == f(shift + g))
    ensures fresh(a) && fresh(b) && HasTaken(a, firstKind, first, f) && HasTaken(b, secondKind, second, h)
  {
    a := new Accumulator(firstKind);
    b := new Accumulator(secondKind);
    NonMissingTermsAreField(v, nvars, PairLocs(first, second, shift), data, f);
    AddNonMissing(Two(a, b, firstNumLocs), nvars, v);
    PairTaken(a, b, first, second, shift, f, h);
  }

  method MultiplyOnPair(firstKind: Kind, secondKind: Kind, firstNumLocs: nat, nvars: nat, v1: seq<Datum>,
                        v2: seq<Datum>, ghost first: View, ghost second: View, ghost shift: nat,
                        ghost data1: nat -> seq<Datum>, ghost data2: nat -> seq<Datum>, ghost f: nat -> real,
                        ghost h: nat -> real)
      returns (a: Accumulator, b: Accumulator)
    requires nvars > 0 && firstNumLocs == |first.locs|
    requires FitsView(firstKind, first) && FitsView(secondKind, second)
    requires HoldsRows(v1, nvars, PairLocs(first, second, shift), data1)
    requires HoldsRows(v2, nvars, PairLocs(first, second, shift), data2)
    requires forall g :: |data1(g)| == |data2(g)| && f(g) == Dot(data1(g), data2(g))
    requires forall g: nat :: h(g) == f(shift + g)
    ensures fresh(a) && fresh(b) && HasTaken(a, firstKind, first, f) && HasTaken(b, secondKind, second, h)
  {
    a := new Accumulator(firstKind);
    b := new Accumulator(secondKind);
    DotTermsAreField(v1, v2, nvars, PairLocs(first, second, shift), data1, data2, f);
    var _ := AddProducts(Two(a, b, firstNumLocs), nvars, v1, v2);
    PairTaken(a, b, first, second, shift, f, h);
  }

  method CountOnPairs(firstKinds: seq<Kind>, secondKinds: seq<Kind>, firstNumLocs: seq<nat>, nvars: nat,
                      vs: seq<seq<Datum>>, ghost first: seq<View>, ghost second: seq<View>, ghost shift: nat,
                      ghost data: nat -> seq<Datum>, ghost f: nat -> real, ghost h: nat -> real)
      returns (firstAccs: seq<Accumulator>, secondAccs: seq<Accumulator>)
    requires |vs| == |firstNumLocs| == |firstKinds| == |secondKinds| == |first| == |second| && nvars > 0
    requires forall r :: 0 <= r < |first| ==> FitsView(firstKinds[r], first[r]) && FitsView(secondKinds[r], second[r])
    requires forall r :: 0 <= r < |first| ==>
               firstNumLocs[r] == |first[r].locs| && HoldsRows(vs[r], nvars, PairLocs(first[r], second[r], shift), data)
    requires (forall g :: f(g) == NonMissing(data(g))) && (forall g: nat :: h(g) == f(shift + g))
    ensures |firstAccs| == |secondAccs| == |first|
    ensures forall r :: 0 <= r < |first| ==> HasTaken(firstAccs[r], firstKinds[r], first[r], f)
    ensures forall r :: 0 <= r < |first| ==> HasTaken(secondAccs[r], secondKinds[r], second[r], h)
  {
    firstAccs, secondAccs := [], [];
    for r := 0 to |vs|
      invariant |firstAccs| == |secondAccs| == r
      invariant forall q :: 0 <= q < r ==> HasTaken(firstAccs[q], firstKinds[q], first[q], f)
      invariant forall q :: 0 <= q < r ==> HasTaken(secondAccs[q], secondKinds[q], second[q], h)
    {
      var a, b := CountOnPair(firstKinds[r], secondKinds[r], firstNumLocs[r], nvars, vs[r], first[r], second[r], shift,
                              data, f, h);
      firstAccs, secondAccs := firstAccs + [a], secondAccs + [b];
    }
  }

  method MultiplyOnPairs(firstKinds: seq<Kind>, secondKinds: seq<Kind>, firstNumLocs: seq<nat>, nvars: nat,
                         vs1: seq<seq<Datum>>, vs2: seq<seq<Datum>>, ghost first: seq<View>, ghost second: seq<View>,
                         ghost shift: nat, ghost data1: nat -> seq<Datum>, ghost data2: nat -> seq<Datum>,
                         ghost f: nat -> real, ghost h: nat -> real)
      returns (firstAccs: seq<Accumulator>, secondAccs: seq<Accumulator>)
    requires |vs1| == |vs2| == |firstNumLocs| == |firstKinds| == |secondKinds| == |first| == |second| && nvars > 0
    requires forall r :: 0 <= r < |first| ==> FitsView(firstKinds[r], first[r]) && FitsView(secondKinds[r], second[r])
    requires forall r :: 0 <= r < |first| ==>
               && firstNumLocs[r] == |first[r].locs|
               && HoldsRows(vs1[r], nvars, PairLocs(first[r], second[r], shift), data1)
               && HoldsRows(vs2[r], nvars, PairLocs(first[r], second[r], shift), data2)
    requires forall g :: |data1(g)| == |data2(g)| && f(g) == Dot(data1(g), data2(g))
    requires forall g: nat :: h(g) == f(shift + g)
    ensures |firstAccs| == |secondAccs| == |first|
    ensures forall r :: 0 <= r < |first| ==> HasTaken(firstAccs[r], firstKinds[r], first[r], f)
    ensures forall r :: 0 <= r < |first| ==> HasTaken(secondAccs[r], secondKinds[r], second[r], h)
  {
    firstAccs, secondAccs := [], [];
    for r := 0 to |vs1|
      invariant |firstAccs| == |secondAccs| == r
      invariant forall q :: 0 <= q < r ==> HasTaken(firstAccs[q], firstKinds[q], first[q], f)
      invariant forall q :: 0 <= q < r ==> HasTaken(secondAccs[q], secondKinds[q], second[q], h)
    {
      var a, b := MultiplyOnPair(firstKinds[r], secondKinds[r], firstNumLocs[r], nvars, vs1[r], vs2[r],
                                 first[r], second[r], shift, data1, data2, f, h);
      firstAccs, secondAccs := firstAccs + [a], secondAccs + [b];
    }
  }

  /** Over a pair, too, every rank ends up with the number of non-missing values at distinct locations. */
  method GlobalNumNonMissingObsOfPair(firstKinds: seq<Kind>, secondKinds: seq<Kind>, firstNumLocs: seq<nat>, nvars: nat,
                                      vs: seq<seq<Datum>>, ghost first: seq<View>, ghost second: seq<View>,
                                      ghost shift: nat, ghost data: nat -> seq<Datum>, ghost f: nat -> real,
                                      ghost h: nat -> real, ghost n: nat)
      returns (results: seq<real>)
    requires Sound(first) && Sound(second) && |vs| == |firstNumLocs| == |first| == |second| && nvars > 0
    requires KindsFor(first, firstKinds) && KindsFor(second, secondKinds)
    requires forall r :: 0 <= r < |first| ==>
               firstNumLocs[r] == |first[r].locs| && HoldsRows(vs[r], nvars, PairLocs(first[r], second[r], shift), data)
    requires forall g :: g in Gathered(first) ==> g < shift
    requires forall g :: g in Gathered(second) ==> g < n
    requires (forall g :: f(g) == NonMissing(data(g))) && (forall g: nat :: h(g) == f(shift + g))
    ensures |results| == |first|
    ensures forall r :: 0 <= r < |first| ==>
              results[r] == SumOver(Elements(Joined(Gathered(first), Gathered(second), shift)), f, shift + n)
    ensures forall r :: 0 <= r < |first| ==>
              results[r] == |ValuesAt(HeldByPair(first, second, shift, n), data)| as real
  {
    PatchFits(first, firstKinds);
    PatchFits(second, secondKinds);
    JoinedAreHeld(first, second, shift, n);
    CountsAddUp(Elements(Joined(Gathered(first), Gathered(second), shift)), data, f, shift + n);
    var firstAccs, secondAccs := CountOnPairs(firstKinds, secondKinds, firstNumLocs, nvars, vs, first, second, shift,
                                              data, f, h);
    results := ReducePair(firstAccs, secondAccs, firstKinds, secondKinds, first, second, shift, f, h, n);
  }

  /** Over a pair, too, every rank ends up with the dot product over distinct locations. */
  method DotProductOfPair(firstKinds: seq<Kind>, secondKinds: seq<Kind>, firstNumLocs: seq<nat>, nvars: nat,
                          vs1: seq<seq<Datum>>, vs2: seq<seq<Datum>>, ghost first: seq<View>, ghost second: seq<View>,
                          ghost shift: nat, ghost data1: nat -> seq<Datum>, ghost data2: nat -> seq<Datum>,
                          ghost f: nat -> real, ghost h: nat -> real, ghost n: nat)
      returns (results: seq<real>)
    requires Sound(first) && Sound(second) && |vs1| == |vs2| == |firstNumLocs| == |first| == |second| && nvars > 0
    requires KindsFor(first, firstKinds) && KindsFor(second, secondKinds)
    requires forall r :: 0 <= r < |first| ==>
               && firstNumLocs[r] == |first[r].locs|
               && HoldsRows(vs1[r], nvars, PairLocs(first[r], second[r], shift), data1)
               && HoldsRows(vs2[r], nvars, PairLocs(first[r], second[r], shift), data2)
    requires forall g :: g in Gathered(first) ==> g < shift
    requires forall g :: g in Gathered(second) ==> g < n
    requires forall g :: |data1(g)| == |data2(g)| && f(g) == Dot(data1(g), data2(g))
    requires forall g: nat :: h(g) == f(shift + g)
    ensures |results| == |first|
    ensures forall r :: 0 <= r < |first| ==>
              results[r] == SumOver(Elements(Joined(Gathered(first), Gathered(second), shift)), f, shift + n)
    ensures forall r :: 0 <= r < |first| ==>
              results[r] == SumOver(HeldByPair(first, second, shift, n),
                                    (g: nat) => PlainDot(data1(g), data2(g)), shift + n)
  {
    PatchFits(first, firstKinds);
    PatchFits(second, secondKinds);
    JoinedAreHeld(first, second, shift, n);
    DotsArePlain(Elements(Joined(Gathered(first), Gathered(second), shift)), data1, data2, f, shift + n);
    var firstAccs, secondAccs := MultiplyOnPairs(firstKinds, secondKinds, firstNumLocs, nvars, vs1, vs2,
                                                 first, second, shift, data1, data2, f, h);
    results := ReducePair(firstAccs, secondAccs, firstKinds, secondKinds, first, second, shift, f, h, n);
  }
}
