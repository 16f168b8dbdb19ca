/**
 Facts about sequences shared by every distribution: selecting the flagged elements of a vector,
 concatenating the vectors of all ranks, ascending enumerations of a set, and sums.
 */
module Seqs {

  function Min(a: nat, b: nat): nat {
    if a < b then a else b
  }

  function Map<T, U>(f: T -> U, xs: seq<T>): (ys: seq<U>)
    ensures |ys| == |xs|
    ensures forall i :: 0 <= i < |xs| ==> ys[i] == f(xs[i])
  {
    seq(|xs|, i requires 0 <= i < |xs| => f(xs[i]))
  }

  predicate Distinct<T(==)>(xs: seq<T>) {
    forall i, j :: 0 <= i < j < |xs| ==> xs[i] != xs[j]
  }

  predicate Ascending(xs: seq<nat>) {
    forall i, j :: 0 <= i < j < |xs| ==> xs[i] < xs[j]
  }

  function Elements<T(==)>(xs: seq<T>): set<T> {
    set x | x in xs
  }

  lemma {:induction false} DistinctCount<T>(xs: seq<T>)
    requires Distinct(xs)
    ensures |Elements(xs)| == |xs|
  {
    if xs == [] {
      assert Elements(xs) == {};
    } else {
      var n := |xs| - 1;
      DistinctCount(xs[..n]);
      assert Elements(xs) == Elements(xs[..n]) + {xs[n]};
    }
  }

  // ----- Selecting flagged elements

  /** The elements of `xs` whose flag is set, in order. */
  function Select<T>(xs: seq<T>, keep: seq<bool>): (ys: seq<T>)
    requires |xs| == |keep|
    ensures |ys| <= |xs|
  {
    if xs == [] then []
    else
      var n := |xs| - 1;
      Select(xs[..n], keep[..n]) + if keep[n] then [xs[n]] else []
  }

  lemma SelectSnoc<T>(xs: seq<T>, keep: seq<bool>, i: nat)
    requires |xs| == |keep| && i < |xs|
    ensures Select(xs[..i + 1], keep[..i + 1]) == Select(xs[..i], keep[..i]) + if keep[i] then [xs[i]] else []
  {
    assert xs[..i + 1][..i] == xs[..i] && keep[..i + 1][..i] == keep[..i];
  }

  /** A flagged element lands after as many selected elements as were flagged before it. */
  lemma {:induction false} SelectAt<T>(xs: seq<T>, keep: seq<bool>, j: nat)
    requires |xs| == |keep| && j < |xs| && keep[j]
    ensures |Select(xs[..j], keep[..j])| < |Select(xs, keep)|
    ensures Select(xs, keep)[|Select(xs[..j], keep[..j])|] == xs[j]
  {
    var n := |xs| - 1;
    if j < n {
      SelectAt(xs[..n], keep[..n], j);
      assert xs[..n][..j] == xs[..j] && keep[..n][..j] == keep[..j];
    }
  }

  /** Every selected element comes from a flagged position. */
  lemma {:induction false} SelectFrom<T>(xs: seq<T>, keep: seq<bool>, k: nat) returns (j: nat)
    requires |xs| == |keep| && k < |Select(xs, keep)|
    ensures j < |xs| && keep[j] && xs[j] == Select(xs, keep)[k] && k == |Select(xs[..j], keep[..j])|
  {
    var n := |xs| - 1;
    if k < |Select(xs[..n], keep[..n])| {
      j := SelectFrom(xs[..n], keep[..n], k);
      assert xs[..n][..j] == xs[..j] && keep[..n][..j] == keep[..j];
    } else {
      j := n;
    }
  }

  lemma {:induction false} SelectMap<T, U>(f: T -> U, xs: seq<T>, keep: seq<bool>)
    requires |xs| == |keep|
    ensures Select(Map(f, xs), keep) == Map(f, Select(xs, keep))
  {
    if xs != [] {
      var n := |xs| - 1;
      SelectMap(f, xs[..n], keep[..n]);
      assert Map(f, xs)[..n] == Map(f, xs[..n]);
    }
  }

  lemma {:induction false} SelectAscending(xs: seq<nat>, keep: seq<bool>)
    requires |xs| == |keep| && Ascending(xs)
    ensures Ascending(Select(xs, keep))
    ensures forall x :: x in Select(xs, keep) ==> x in xs
  {
    if xs != [] {
      var n := |xs| - 1;
      SelectAscending(xs[..n], keep[..n]);
      var ys := Select(xs[..n], keep[..n]);
      assert forall i :: 0 <= i < |ys| ==> ys[i] in ys && ys[i] in xs[..n];
      assert forall x :: x in xs[..n] ==> x < xs[n];
    }
  }

  lemma {:induction false} SelectAll<T>(xs: seq<T>, keep: seq<bool>)
    requires |xs| == |keep| && forall i :: 0 <= i < |keep| ==> keep[i]
    ensures Select(xs, keep) == xs
  {
    if xs != [] {
      SelectAll(xs[..|xs| - 1], keep[..|xs| - 1]);
    }
  }

  lemma {:induction false} SelectNone<T>(xs: seq<T>, keep: seq<bool>)
    requires |xs| == |keep| && forall i :: 0 <= i < |keep| ==> !keep[i]
    ensures Select(xs, keep) == []
  {
    if xs != [] {
      SelectNone(xs[..|xs| - 1], keep[..|xs| - 1]);
    }
  }

  // ----- Concatenating the vectors of all ranks

  function Flatten<T>(ss: seq<seq<T>>): seq<T> {
    if ss == [] then [] else Flatten(ss[..|ss| - 1]) + ss[|ss| - 1]
  }

  /** Where the vector of rank `r` starts in the concatenation. */
  function Start<T>(ss: seq<seq<T>>, r: nat): nat
    requires r <= |ss|
  {
    |Flatten(ss[..r])|
  }

  lemma StartStep<T>(ss: seq<seq<T>>, r: nat)
    requires r < |ss|
    ensures Start(ss, r + 1) == Start(ss, r) + |ss[r]|
  {
    assert ss[..r + 1][..r] == ss[..r];
  }

  lemma {:induction false} FlattenAt<T>(ss: seq<seq<T>>, r: nat, j: nat)
    requires r < |ss| && j < |ss[r]|
    ensures Start(ss, r) + j < |Flatten(ss)|
    ensures Flatten(ss)[Start(ss, r) + j] == ss[r][j]
  {
    var n := |ss| - 1;
    if r < n {
      FlattenAt(ss[..n], r, j);
      assert ss[..n][..r] == ss[..r];
    }
  }

  lemma {:induction false} FlattenFrom<T>(ss: seq<seq<T>>, k: nat) returns (r: nat, j: nat)
    requires k < |Flatten(ss)|
    ensures r < |ss| && j < |ss[r]| && k == Start(ss, r) + j && Flatten(ss)[k] == ss[r][j]
  {
    var n := |ss| - 1;
    if k < |Flatten(ss[..n])| {
      r, j := FlattenFrom(ss[..n], k);
      assert ss[..n][..r] == ss[..r];
    } else {
      r, j := n, k - |Flatten(ss[..n])|;
    }
  }

  /** The concatenation of pairwise disjoint duplicate-free vectors is duplicate-free. */
  lemma FlattenDistinct<T>(ss: seq<seq<T>>)
    requires forall r :: 0 <= r < |ss| ==> Distinct(ss[r])
    requires forall r, q, x :: 0 <= r < q < |ss| && x in ss[r] ==> x !in ss[q]
    ensures Distinct(Flatten(ss))
  {
    forall a, b | 0 <= a < b < |Flatten(ss)|
      ensures Flatten(ss)[a] != Flatten(ss)[b]
    {
      var r, i := FlattenFrom(ss, a);
      var q, j := FlattenFrom(ss, b);
      assert ss[r][i] in ss[r] && ss[q][j] in ss[q];
    }
  }

  lemma FlattenMember<T>(ss: seq<seq<T>>, x: T)
    ensures x in Flatten(ss) <==> exists r :: 0 <= r < |ss| && x in ss[r]
  {
    if x in Flatten(ss) {
      var k :| 0 <= k < |Flatten(ss)| && Flatten(ss)[k] == x;
      var r, j := FlattenFrom(ss, k);
    }
    forall r | 0 <= r < |ss| && x in ss[r]
      ensures x in Flatten(ss)
    {
      var j :| 0 <= j < |ss[r]| && ss[r][j] == x;
      FlattenAt(ss, r, j);
    }
  }

  lemma {:induction false} FlattenMap<T, U>(f: T -> U, ss: seq<seq<T>>)
    ensures Flatten(seq(|ss|, r requires 0 <= r < |ss| => Map(f, ss[r]))) == Map(f, Flatten(ss))
  {
    if ss != [] {
      var n := |ss| - 1;
      FlattenMap(f, ss[..n]);
      var ms := seq(|ss|, r requires 0 <= r < |ss| => Map(f, ss[r]));
      assert ms[..n] == seq(n, r requires 0 <= r < n => Map(f, ss[..n][r]));
    }
  }

  // ----- Ascending enumerations

  /** An ascending enumeration is determined by its set of elements. */
  lemma {:induction false} AscendingUnique(a: seq<nat>, b: seq<nat>)
    requires Ascending(a) && Ascending(b)
    requires forall x :: x in a <==> x in b
    ensures a == b
    decreases |a|
  {
    assert a != [] ==> a[0] in a;
    assert b != [] ==> b[0] in b;
    if a != [] {
      assert a[|a| - 1] in a;
      var m, n := |a| - 1, |b| - 1;
      assert b[n] in b;
      assert a[m] == b[n] by {
        var i :| 0 <= i < |b| && b[i] == a[m];
        var j :| 0 <= j < |a| && a[j] == b[n];
      }
      forall x
        ensures x in a[..m] <==> x in b[..n]
      {
        assert x in a[..m] <==> x in a && x != a[m];
        assert x in b[..n] <==> x in b && x != b[n];
      }
      AscendingUnique(a[..m], b[..n]);
    }
  }

  // ----- Sums

  function Sum(xs: seq<real>): real {
    if xs == [] then 0.0 else Sum(xs[..|xs| - 1]) + xs[|xs| - 1]
  }

  lemma {:induction false} SumConcat(a: seq<real>, b: seq<real>)
    ensures Sum(a + b) == Sum(a) + Sum(b)
  {
    if b == [] {
      assert a + b == a;
    } else {
      SumConcat(a, b[..|b| - 1]);
      assert (a + b)[..|a + b| - 1] == a + b[..|b| - 1];
    }
  }

  /** Adding up the local sums of all ranks adds up their concatenated vectors. */
  lemma {:induction false} SumFlatten(ss: seq<seq<real>>)
    ensures Sum(seq(|ss|, r requires 0 <= r < |ss| => Sum(ss[r]))) == Sum(Flatten(ss))
  {
    if ss != [] {
      var n := |ss| - 1;
      SumFlatten(ss[..n]);
      var sums := seq(|ss|, r requires 0 <= r < |ss| => Sum(ss[r]));
      assert sums[..n] == seq(n, r requires 0 <= r < n => Sum(ss[..n][r]));
      SumConcat(Flatten(ss[..n]), ss[n]);
    }
  }

  /** The serial reference: each member of `held` below `n` contributes `f` of itself once. */
  function SumOver(held: set<nat>, f: nat -> real, n: nat): real {
    if n == 0 then 0.0
    else SumOver(held, f, n - 1) + if n - 1 in held then f(n - 1) else 0.0
  }

  lemma {:induction false} SumOverInsert(held: set<nat>, f: nat -> real, n: nat, x: nat)
    requires x !in held
    ensures SumOver(held + {x}, f, n) == SumOver(held, f, n) + if x < n then f(x) else 0.0
  {
    if n != 0 {
      SumOverInsert(held, f, n - 1, x);
    }
  }

  lemma {:induction false} SumOverSame(held: set<nat>, other: set<nat>, f: nat -> real, g: nat -> real, n: nat)
    requires forall x :: 0 <= x < n ==> (x in held <==> x in other) && (x in held ==> f(x) == g(x))
    ensures SumOver(held, f, n) == SumOver(other, g, n)
  {
    if n != 0 {
      SumOverSame(held, other, f, g, n - 1);
    }
  }

  /** Summing a duplicate-free enumeration, in any order, is summing over the set. */
  lemma {:induction false} SumEnumeration(xs: seq<nat>, f: nat -> real, n: nat)
    requires Distinct(xs) && forall x :: x in xs ==> x < n
    ensures Sum(Map(f, xs)) == SumOver(Elements(xs), f, n)
  {
    if xs == [] {
      SumOverNone(f, n);
      assert Elements(xs) == {};
    } else {
      var m := |xs| - 1;
      assert forall x :: x in xs[..m] ==> x in xs;
      SumEnumeration(xs[..m], f, n);
      assert Map(f, xs)[..m] == Map(f, xs[..m]);
      var rest := Elements(xs[..m]);
      assert Elements(xs) == rest + {xs[m]};
      assert xs[m] in xs;
      SumOverInsert(rest, f, n, xs[m]);
    }
  }

  lemma {:induction false} SumOverNone(f: nat -> real, n: nat)
    ensures SumOver({}, f, n) == 0.0
  {
    if n != 0 {
      SumOverNone(f, n - 1);
    }
  }

  lemma MulMonotone(x: nat, y: nat, z: nat)
    requires x <= y
    ensures x * z <= y * z
  {
    assert y * z == x * z + (y - x) * z;
  }

  lemma DivModUnique(n: nat, size: nat, q: nat, r: nat)
    requires size > 0 && r < size && n == q * size + r
    ensures n / size == q && n % size == r
  {
    var a := n / size;
    assert n == a * size + n % size;
    if a > q {
      MulMonotone(q + 1, a, size);
    } else if a < q {
      MulMonotone(a + 1, q, size);
    }
  }
}
