/**
 The observation source as the reader sees it, and the serial reference for what a load must
 deliver: one pass over the source that filters, numbers records and streams locations.
 */
module ObsSource {
  import opened Seqs
  import opened Streams
  import opened Numbering

  /** A value of a variable; `Mark` is the missing-value mark used inside the container. */
  datatype Cell = Num(v: real) | Infinity | NotANumber | Mark

  datatype FillValue = NoFill | Fill(cell: Cell)

  /** A variable: a row of `width` values for each index of its first dimension. */
  datatype Variable = Variable(dims: seq<string>, width: nat, rows: seq<seq<Cell>>, fill: FillValue) {
    predicate ByLocation()
      requires dims != []
    {
      dims[0] == "Location"
    }
  }

  datatype Source = Source(
    times: seq<int>, lats: seq<real>, lons: seq<real>, latFill: real, lonFill: real,
    windowStart: int, windowEnd: int, applyLocationsCheck: bool,
    groupVars: seq<seq<string>>, dimSizes: map<string, nat>, vars: seq<Variable>)
  {
    /** Every location has a time, a position and a string for each grouping variable. */
    ghost predicate Valid() {
      |lats| == |lons| == |times| && forall v :: 0 <= v < |groupVars| ==> |groupVars[v]| == |times|
    }

    /** Every variable has one row per index of its first dimension. */
    ghost predicate HasVariables() {
      && "Location" in dimSizes && dimSizes["Location"] == |times|
      && forall v :: 0 <= v < |vars| ==> IsShaped(vars[v])
    }

    predicate IsShaped(v: Variable) {
      v.dims != [] && v.dims[0] in dimSizes && |v.rows| == dimSizes[v.dims[0]]
    }

    function NumLocs(): nat {
      |times|
    }

    predicate InsideTimingWindow(i: nat)
      requires i < |times|
    {
      windowStart < times[i] <= windowEnd
    }

    predicate HasPosition(i: nat)
      requires i < |lats| && i < |lons|
    {
      lats[i] != latFill && lons[i] != lonFill
    }

    predicate Keeps(i: nat)
      requires i < |times| == |lats| == |lons|
    {
      !applyLocationsCheck || (InsideTimingWindow(i) && HasPosition(i))
    }

    /** The strings of the first `n` grouping variables at location `i`. */
    function Segments(n: nat, i: nat): (segments: seq<string>)
      requires Valid() && n <= |groupVars| && i < NumLocs()
      ensures |segments| == n
    {
      seq(n, v requires 0 <= v < n => groupVars[v][i])
    }

    /** The key by which location `i` is grouped. */
    function KeyOf(i: nat): string
      requires Valid() && groupVars != [] && i < NumLocs()
    {
      Join(Segments(|groupVars|, i))
    }

    function PointOf(i: nat): Point2
      requires i < |lats| && i < |lons|
    {
      Point2(lons[i], lats[i])
    }
  }

  // ----- One pass over the source

  /** The locations below `n` that pass the checks. */
  function KeptLocs(src: Source, n: nat): (locs: seq<nat>)
    requires src.Valid() && n <= src.NumLocs()
    ensures InSource(src, locs)
  {
    if n == 0 then []
    else if src.Keeps(n - 1) then KeptLocs(src, n - 1) + [n - 1]
    else KeptLocs(src, n - 1)
  }

  /** How many locations below `n` lie outside the timing window. */
  function OutsideWindow(src: Source, n: nat): nat
    requires n <= |src.times|
  {
    if n == 0 then 0 else OutsideWindow(src, n - 1) + if src.InsideTimingWindow(n - 1) then 0 else 1
  }

  /** How many locations below `n` lie inside the window but lack a latitude or longitude. */
  function WithoutPosition(src: Source, n: nat): nat
    requires src.Valid() && n <= src.NumLocs()
  {
    if n == 0 then 0
    else WithoutPosition(src, n - 1) + if src.InsideTimingWindow(n - 1) && !src.HasPosition(n - 1) then 1 else 0
  }

  predicate InSource(src: Source, locs: seq<nat>) {
    forall i :: 0 <= i < |locs| ==> locs[i] < src.NumLocs()
  }

  function KeysOf(src: Source, locs: seq<nat>): (keys: seq<string>)
    requires src.Valid() && src.groupVars != [] && InSource(src, locs)
    ensures |keys| == |locs|
  {
    seq(|locs|, i requires 0 <= i < |locs| => src.KeyOf(locs[i]))
  }

  /** Record numbers: one per location, or one per grouping key. */
  function RecNums(src: Source, locs: seq<nat>): (recs: seq<nat>)
    requires src.Valid() && InSource(src, locs)
    ensures |recs| == |locs|
  {
    if src.groupVars == [] then seq(|locs|, i requires 0 <= i < |locs| => i) else Numbers(KeysOf(src, locs))
  }

  function NextRecNum(src: Source, locs: seq<nat>): nat
    requires src.Valid() && InSource(src, locs)
  {
    if src.groupVars == [] then |locs| else |Table(KeysOf(src, locs))|
  }

  /** What the reader feeds to the distribution. */
  function StreamOf(src: Source, locs: seq<nat>): (s: seq<Obs>)
    requires src.Valid() && InSource(src, locs)
    ensures |s| == |locs|
  {
    seq(|locs|, i requires 0 <= i < |locs| => Obs(RecNums(src, locs)[i], locs[i], src.PointOf(locs[i])))
  }

  // ----- Properties of the one-pass load

  lemma {:induction false} KeptLocsMember(src: Source, n: nat)
    requires src.Valid() && n <= src.NumLocs()
    ensures Ascending(KeptLocs(src, n))
    ensures forall i: nat :: i in KeptLocs(src, n) <==> i < n && src.Keeps(i)
    ensures forall i: nat :: i in KeptLocs(src, n) <==>
              i < n && (src.applyLocationsCheck ==>
                          && src.windowStart < src.times[i] <= src.windowEnd
                          && src.lats[i] != src.latFill && src.lons[i] != src.lonFill)
  {
    if n > 0 {
      KeptLocsMember(src, n - 1);
      var ls := KeptLocs(src, n - 1);
      assert forall i :: 0 <= i < |ls| ==> ls[i] in ls;
    }
  }

  /** The locations below `n` that pass the checks, written out. */
  ghost function PassingLocs(src: Source, n: nat): set<nat>
    requires src.Valid() && n <= src.NumLocs()
  {
    set i: nat | i < n && (src.applyLocationsCheck ==>
                             && src.windowStart < src.times[i] <= src.windowEnd
                             && src.lats[i] != src.latFill && src.lons[i] != src.lonFill)
  }

  lemma KeptLocsCount(src: Source, n: nat)
    requires src.Valid() && n <= src.NumLocs()
    ensures |KeptLocs(src, n)| == |PassingLocs(src, n)|
  {
    KeptLocsMember(src, n);
    DistinctCount(KeptLocs(src, n));
    assert Elements(KeptLocs(src, n)) == PassingLocs(src, n);
  }

  /** The locations from `a` on and below `b` whose time is not after the start and up to the end. */
  ghost function OutsideLocs(src: Source, a: nat, b: nat): set<nat>
    requires b <= |src.times|
  {
    set i: nat | a <= i < b && !(src.windowStart < src.times[i] <= src.windowEnd)
  }

  lemma {:induction false} OutsideIsCounted(src: Source, a: nat, b: nat)
    requires a <= b <= |src.times|
    ensures OutsideWindow(src, b) - OutsideWindow(src, a) == |OutsideLocs(src, a, b)|
    decreases b
  {
    if a < b {
      var m := b - 1;
      OutsideIsCounted(src, a, m);
      if m in OutsideLocs(src, a, b) {
        assert OutsideLocs(src, a, b) == OutsideLocs(src, a, m) + {m};
      } else {
        assert OutsideLocs(src, a, b) == OutsideLocs(src, a, m);
      }
    }
  }

  /** The locations below `n` in the window without a latitude or longitude. */
  ghost function UnplacedLocs(src: Source, n: nat): set<nat>
    requires src.Valid() && n <= src.NumLocs()
  {
    set i: nat | i < n && src.windowStart < src.times[i] <= src.windowEnd
                 && (src.lats[i] == src.latFill || src.lons[i] == src.lonFill)
  }

  lemma {:induction false} WithoutPositionIsCounted(src: Source, n: nat)
    requires src.Valid() && n <= src.NumLocs()
    ensures WithoutPosition(src, n) == |UnplacedLocs(src, n)|
  {
    if n > 0 {
      var m := n - 1;
      WithoutPositionIsCounted(src, m);
      if m in UnplacedLocs(src, n) {
        assert UnplacedLocs(src, n) == UnplacedLocs(src, m) + {m};
      } else {
        assert UnplacedLocs(src, n) == UnplacedLocs(src, m);
      }
    }
  }

  /** With the checks on, kept and rejected locations add up to all of them. */
  lemma {:induction false} LocationsAddUp(src: Source, n: nat)
    requires src.Valid() && n <= src.NumLocs() && src.applyLocationsCheck
    ensures |KeptLocs(src, n)| + OutsideWindow(src, n) + WithoutPosition(src, n) == n
  {
    if n > 0 {
      LocationsAddUp(src, n - 1);
    }
  }

  /** What the distribution is fed: a location's own longitude and latitude make up its point. */
  lemma StreamElement(src: Source, locs: seq<nat>, k: nat)
    requires src.Valid() && InSource(src, locs) && k < |locs|
    ensures StreamOf(src, locs)[k].loc == locs[k]
    ensures StreamOf(src, locs)[k].point == Point2(src.lons[locs[k]], src.lats[locs[k]])
  {
  }

  /** One more location extends the stream and changes nothing before it. */
  lemma StreamSnoc(src: Source, locs: seq<nat>, l: nat)
    requires src.Valid() && InSource(src, locs) && l < src.NumLocs()
    ensures InSource(src, locs + [l])
    ensures var rec := RecNums(src, locs + [l])[|locs|];
            && RecNums(src, locs + [l]) == RecNums(src, locs) + [rec]
            && StreamOf(src, locs + [l]) == StreamOf(src, locs) + [Obs(rec, l, src.PointOf(l))]
            && rec <= NextRecNum(src, locs)
            && NextRecNum(src, locs + [l]) == if rec == NextRecNum(src, locs) then rec + 1 else NextRecNum(src, locs)
    ensures src.groupVars != [] ==>
              var key, table := src.KeyOf(l), Table(KeysOf(src, locs));
              && Table(KeysOf(src, locs + [l])) == (if key in table then table else table[key := |table|])
              && RecNums(src, locs + [l])[|locs|] == (if key in table then table[key] else |table|)
  {
    if src.groupVars != [] {
      var keys := KeysOf(src, locs);
      assert KeysOf(src, locs + [l]) == keys + [src.KeyOf(l)];
      TableSnoc(keys, src.KeyOf(l));
      TableIsOneToOne(keys);
    }
  }

  /** Record numbers reach the distribution in consecutive order. */
  lemma {:induction false} StreamIsConsecutive(src: Source, locs: seq<nat>)
    requires src.Valid() && InSource(src, locs)
    ensures Consecutive(StreamOf(src, locs)) && NextRecord(StreamOf(src, locs)) == NextRecNum(src, locs)
  {
    if locs == [] {
      assert StreamOf(src, locs) == [];
      if src.groupVars != [] { assert KeysOf(src, locs) == []; }
    } else {
      var before, last := locs[..|locs| - 1], locs[|locs| - 1];
      assert locs == before + [last];
      StreamIsConsecutive(src, before);
      StreamStep(src, before, last);
    }
  }

  lemma StreamStep(src: Source, locs: seq<nat>, l: nat)
    requires src.Valid() && InSource(src, locs) && l < src.NumLocs()
    requires Consecutive(StreamOf(src, locs)) && NextRecord(StreamOf(src, locs)) == NextRecNum(src, locs)
    ensures InSource(src, locs + [l])
    ensures Consecutive(StreamOf(src, locs + [l]))
    ensures NextRecord(StreamOf(src, locs + [l])) == NextRecNum(src, locs + [l])
  {
    StreamSnoc(src, locs, l);
    ConsecutiveSnoc(StreamOf(src, locs), Obs(RecNums(src, locs + [l])[|locs|], l, src.PointOf(l)));
  }

  lemma StreamIsAscending(src: Source, locs: seq<nat>)
    requires src.Valid() && InSource(src, locs) && Ascending(locs)
    ensures AscendingStream(StreamOf(src, locs)) && Locs(StreamOf(src, locs)) == locs
  {
    assert Locs(StreamOf(src, locs)) == locs;
  }

  /**
   The record numbers are what their keys alone determine: without grouping every location is a
   record of its own, with grouping equal keys and only they share a number.
   */
  lemma RecNumsFollowKeys(src: Source, locs: seq<nat>)
    requires src.Valid() && InSource(src, locs) && Ascending(locs)
    ensures src.groupVars == [] ==> IsNumbering(locs, RecNums(src, locs))
    ensures src.groupVars != [] ==> IsNumbering(KeysOf(src, locs), RecNums(src, locs))
  {
    if src.groupVars == [] {
      var recs := RecNums(src, locs);
      forall i | 0 <= i < |recs|
        ensures RepeatsOrCountsUp(recs, i)
      {
        if i > 0 { assert recs[i - 1] == i - 1; }
      }
    } else {
      NumbersAreNumbering(KeysOf(src, locs));
    }
  }

  // ----- Records in terms of the grouping variables

  /** Two locations belong to the same record: their keys agree, or there is no grouping and they are one. */
  ghost predicate SameGroup(src: Source, a: nat, b: nat)
    requires src.Valid() && a < src.NumLocs() && b < src.NumLocs()
  {
    if src.groupVars == [] then a == b else src.KeyOf(a) == src.KeyOf(b)
  }

  lemma SameRecordSameGroup(src: Source, locs: seq<nat>, a: nat, b: nat)
    requires src.Valid() && InSource(src, locs) && Ascending(locs) && a < |locs| && b < |locs|
    ensures StreamOf(src, locs)[a].rec == StreamOf(src, locs)[b].rec <==> SameGroup(src, locs[a], locs[b])
  {
    RecNumsFollowKeys(src, locs);
  }

  /** No string of any grouping variable but the `c`-th contains a colon. */
  ghost predicate ColonsOnlyIn(src: Source, c: nat)
    requires src.Valid()
  {
    forall v, i :: 0 <= v < |src.groupVars| && v != c && 0 <= i < src.NumLocs() ==> ':' !in src.groupVars[v][i]
  }

  /** Keys agree exactly if all grouping variables do. */
  lemma KeysAgree(src: Source, c: nat, i: nat, j: nat)
    requires src.Valid() && src.groupVars != [] && ColonsOnlyIn(src, c) && i < src.NumLocs() && j < src.NumLocs()
    ensures src.KeyOf(i) == src.KeyOf(j) <==> forall v :: 0 <= v < |src.groupVars| ==>
              src.groupVars[v][i] == src.groupVars[v][j]
  {
    var a, b := src.Segments(|src.groupVars|, i), src.Segments(|src.groupVars|, j);
    JoinIsInjective(a, b, c);
    assert a == b <==> forall v :: 0 <= v < |src.groupVars| ==> a[v] == b[v];
    assert forall v :: 0 <= v < |src.groupVars| ==> a[v] == src.groupVars[v][i] && b[v] == src.groupVars[v][j];
  }

  /**
   Two locations share a record number exactly if every grouping variable agrees at both, provided
   that at most one variable has strings with colons; without grouping variables, if they are the same.
   */
  lemma SameRecordExactly(src: Source, locs: seq<nat>, c: nat, a: nat, b: nat)
    requires src.Valid() && InSource(src, locs) && Ascending(locs) && a < |locs| && b < |locs|
    requires ColonsOnlyIn(src, c)
    ensures src.groupVars != [] ==>
              (RecNums(src, locs)[a] == RecNums(src, locs)[b] <==>
               forall v :: 0 <= v < |src.groupVars| ==> src.groupVars[v][locs[a]] == src.groupVars[v][locs[b]])
    ensures src.groupVars == [] ==> (RecNums(src, locs)[a] == RecNums(src, locs)[b] <==> locs[a] == locs[b])
  {
    RecNumsFollowKeys(src, locs);
    if src.groupVars != [] {
      KeysAgree(src, c, locs[a], locs[b]);
    }
  }
}
