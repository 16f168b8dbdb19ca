/**
 The distributions the reader can be configured with, behind one interface. Virtual dispatch is a
 match on the kind of distribution.
 */
module Distributions {
  import opened Streams
  import opened HaloDistribution
  import opened NonoverlappingDistribution

  datatype Distribution =
    | HaloDist(halo: Halo)
    | NonoverlappingDist(non: Nonoverlapping)
    | InefficientDist
  {
    function MyRule(): Rule {
      match this
      case HaloDist(halo) => halo.MyRule()
      case NonoverlappingDist(non) => non.rule
      case InefficientDist => Everyone
    }

    function Objects(): set<object> {
      match this
      case HaloDist(halo) => {halo}
      case NonoverlappingDist(non) => {non}
      case InefficientDist => {}
    }

    /** Exactly the stream `s` has been assigned. */
    ghost predicate InStep(s: seq<Obs>)
      reads Objects()
    {
      match this
      case HaloDist(halo) => halo.Assigning() && halo.stream == s
      case NonoverlappingDist(non) => non.Valid() && non.stream == s
      case InefficientDist => true
    }
  }

  /** Assigns a location and asks whether its record is held here; `ok` is false on an assertion. */
  method AssignRecord(d: Distribution, recNum: nat, locNum: nat, point: Point2, ghost s: seq<Obs>)
      returns (ok: bool, mine: bool)
    requires d.InStep(s)
    modifies d.Objects()
    ensures ok <==> (d.MyRule().Atlas? ==> recNum <= NextRecord(s))
    ensures ok ==> d.InStep(s + [Obs(recNum, locNum, point)])
    ensures ok ==> (mine <==> Mine(d.MyRule(), s + [Obs(recNum, locNum, point)], recNum))
  {
    ghost var o := Obs(recNum, locNum, point);
    AppearsSnoc(s, o, recNum);
    ok, mine := true, true;
    match d
    case HaloDist(halo) =>
      halo.AssignRecord(recNum, locNum, point);
      InMyRecords(halo.MyRule(), s + [o], recNum);
      mine := halo.IsMyRecord(recNum);
    case NonoverlappingDist(non) =>
      ok := non.AssignRecord(recNum, locNum, point);
      if ok {
        mine := non.IsMyRecord(recNum);
      }
    case InefficientDist =>
  }
}

/** The framed reader (src/io/ObsFrameRead.cc). */
module FrameReader {
  import opened Seqs
  import opened Streams
  import opened Numbering
  import opened ObsSource
  import opened Distributions

  /** What a load knows about the locations it has gone through. */
  datatype Progress = Progress(
    nextRecNum: nat, obsGrouping: map<string, nat>, indx: seq<nat>, recnums: seq<nat>, uniqueRecNums: set<nat>,
    nlocs: nat, nrecs: nat, gnlocs: nat, gnlocsOutsideTimewindow: nat)

  /** The record number of location `i`, given the numbers handed out so far. */
  function RecordOf(src: Source, obsGrouping: map<string, nat>, nextRecNum: nat, i: nat): nat
    requires src.Valid() && i < src.NumLocs()
  {
    if src.groupVars != [] && src.KeyOf(i) in obsGrouping then obsGrouping[src.KeyOf(i)] else nextRecNum
  }

  /** The serial reference takes one location at a time; `s` is what the distribution was fed before. */
  function Step(src: Source, d: Rule, p: Progress, s: seq<Obs>, i: nat): Progress
    requires src.Valid() && i < src.NumLocs()
  {
    if !src.Keeps(i) then
      p.(gnlocsOutsideTimewindow := p.gnlocsOutsideTimewindow + if src.InsideTimingWindow(i) then 0 else 1)
    else
      var rec := RecordOf(src, p.obsGrouping, p.nextRecNum, i);
      var numbered := p.(
        gnlocs := p.gnlocs + 1,
        nextRecNum := if rec == p.nextRecNum then rec + 1 else p.nextRecNum,
        obsGrouping := if src.groupVars == [] then p.obsGrouping else p.obsGrouping[src.KeyOf(i) := rec]);
      if Mine(d, s + [Obs(rec, i, src.PointOf(i))], rec) then
        numbered.(
          indx := p.indx + [i], recnums := p.recnums + [rec], uniqueRecNums := p.uniqueRecNums + {rec},
          nlocs := p.nlocs + 1, nrecs := |p.uniqueRecNums + {rec}|)
      else numbered
  }

  /** One pass over the locations below `n`, without frames. */
  function OnePass(src: Source, d: Rule, n: nat): Progress
    requires src.Valid() && n <= src.NumLocs()
  {
    if n == 0 then Progress(0, map[], [], [], {}, 0, 0, 0, 0)
    else Step(src, d, OnePass(src, d, n - 1), StreamOf(src, KeptLocs(src, n - 1)), n - 1)
  }

  function Grouping(src: Source, locs: seq<nat>): map<string, nat>
    requires src.Valid() && InSource(src, locs)
  {
    if src.groupVars == [] then map[] else Table(KeysOf(src, locs))
  }

  ghost predicate IsNumbered(src: Source, locs: seq<nat>, p: Progress)
    requires src.Valid() && InSource(src, locs)
  {
    p.nextRecNum == NextRecNum(src, locs) && p.obsGrouping == Grouping(src, locs)
  }

  ghost predicate IsHolding(kept: seq<Obs>, p: Progress) {
    && p.indx == Locs(kept) && p.recnums == Recs(kept) && p.nlocs == |kept|
    && p.uniqueRecNums == Elements(p.recnums) && p.nrecs == |p.uniqueRecNums|
  }

  ghost predicate IsCounted(src: Source, n: nat, p: Progress)
    requires src.Valid() && n <= src.NumLocs()
  {
    && p.gnlocs == |KeptLocs(src, n)|
    && p.gnlocsOutsideTimewindow == if src.applyLocationsCheck then OutsideWindow(src, n) else 0
  }

  ghost predicate IsClosedAs(src: Source, n: nat, kept: seq<Obs>, p: Progress)
    requires src.Valid() && n <= src.NumLocs()
  {
    IsNumbered(src, KeptLocs(src, n), p) && IsHolding(kept, p) && IsCounted(src, n, p)
  }

  /**
   The one-pass load in closed form: it holds the locations that pass the checks and whose record
   belongs to the rank, with the numbers their keys determine.
   */
  ghost predicate IsClosed(src: Source, d: Rule, n: nat, p: Progress)
    requires src.Valid() && n <= src.NumLocs()
  {
    exists kept :: kept == Kept(d, StreamOf(src, KeptLocs(src, n))) && IsClosedAs(src, n, kept, p)
  }

  lemma OnePassIsClosed(src: Source, d: Rule, n: nat)
    requires src.Valid() && n <= src.NumLocs()
    ensures IsClosed(src, d, n, OnePass(src, d, n))
  {
    OnePassCounts(src, d, n);
    OnePassNumbers(src, d, n);
    var kept := OnePassHolds(src, d, n);
    assert IsHolding(kept, OnePass(src, d, n));
    assert IsClosedAs(src, n, kept, OnePass(src, d, n));
  }

  lemma {:induction false} OnePassCounts(src: Source, d: Rule, n: nat)
    requires src.Valid() && n <= src.NumLocs()
    ensures IsCounted(src, n, OnePass(src, d, n))
  {
    if n > 0 {
      OnePassCounts(src, d, n - 1);
      CountedStep(src, d, OnePass(src, d, n - 1), StreamOf(src, KeptLocs(src, n - 1)), n - 1);
    }
  }

  lemma {:induction false} OnePassNumbers(src: Source, d: Rule, n: nat)
    requires src.Valid() && n <= src.NumLocs()
    ensures IsNumbered(src, KeptLocs(src, n), OnePass(src, d, n))
  {
    if n == 0 {
      NothingRead(src);
    } else {
      var m, locs := n - 1, KeptLocs(src, n - 1);
      OnePassNumbers(src, d, m);
      if src.Keeps(m) {
        NumberedStep(src, d, OnePass(src, d, m), StreamOf(src, locs), m, locs);
      }
    }
  }

  ghost predicate PassHolds(src: Source, d: Rule, n: nat, kept: seq<Obs>)
    requires src.Valid() && n <= src.NumLocs()
  {
    forall p :: p == OnePass(src, d, n) ==> IsHolding(kept, p)
  }

  lemma {:induction false} OnePassHolds(src: Source, d: Rule, n: nat) returns (kept: seq<Obs>)
    requires src.Valid() && n <= src.NumLocs()
    ensures kept == Kept(d, StreamOf(src, KeptLocs(src, n))) && PassHolds(src, d, n, kept)
  {
    if n == 0 {
      kept := [];
      HoldsNothing(src, d);
    } else {
      kept := OnePassHolds(src, d, n - 1);
      kept := HoldsAfter(src, d, n - 1, n, kept);
    }
  }

  lemma HoldsNothing(src: Source, d: Rule)
    requires src.Valid()
    ensures Kept(d, StreamOf(src, KeptLocs(src, 0))) == [] && PassHolds(src, d, 0, [])
  {
    NothingRead(src);
    assert Kept(d, []) == [];
  }

  lemma HoldsAfter(src: Source, d: Rule, m: nat, n: nat, kept: seq<Obs>) returns (grown: seq<Obs>)
    requires src.Valid() && m < src.NumLocs() && n == m + 1
    requires kept == Kept(d, StreamOf(src, KeptLocs(src, m))) && PassHolds(src, d, m, kept)
    ensures grown == Kept(d, StreamOf(src, KeptLocs(src, n))) && PassHolds(src, d, n, grown)
  {
    assert IsHolding(kept, OnePass(src, d, m));
    grown := HoldsMore(src, d, m, OnePass(src, d, m), KeptLocs(src, m), kept);
    assert IsHolding(grown, OnePass(src, d, n));
  }

  lemma HoldsMore(src: Source, d: Rule, m: nat, p: Progress, locs: seq<nat>, kept: seq<Obs>) returns (grown: seq<Obs>)
    requires src.Valid() && m < src.NumLocs() && p == OnePass(src, d, m) && locs == KeptLocs(src, m)
    requires kept == Kept(d, StreamOf(src, locs)) && IsHolding(kept, p)
    ensures grown == Kept(d, StreamOf(src, KeptLocs(src, m + 1)))
    ensures IsHolding(grown, Step(src, d, p, StreamOf(src, locs), m))
  {
    OnePassNumbers(src, d, m);
    grown := HoldsStep(src, d, m, p, locs, if src.Keeps(m) then locs + [m] else locs, kept);
  }

  lemma HoldsStep(src: Source, d: Rule, n: nat, p: Progress, locs: seq<nat>, longer: seq<nat>, kept: seq<Obs>)
      returns (grown: seq<Obs>)
    requires src.Valid() && n < src.NumLocs() && InSource(src, locs) && IsNumbered(src, locs, p)
    requires longer == if src.Keeps(n) then locs + [n] else locs
    requires kept == Kept(d, StreamOf(src, locs)) && IsHolding(kept, p)
    ensures InSource(src, longer) && grown == Kept(d, StreamOf(src, longer))
    ensures IsHolding(grown, Step(src, d, p, StreamOf(src, locs), n))
  {
    grown := kept;
    if src.Keeps(n) {
      grown := HoldsNext(src, d, n, p, locs, kept);
    }
  }

  lemma HoldsNext(src: Source, d: Rule, n: nat, p: Progress, locs: seq<nat>, kept: seq<Obs>) returns (grown: seq<Obs>)
    requires src.Valid() && n < src.NumLocs() && src.Keeps(n) && InSource(src, locs) && IsNumbered(src, locs, p)
    requires kept == Kept(d, StreamOf(src, locs)) && IsHolding(kept, p)
    ensures InSource(src, locs + [n]) && grown == Kept(d, StreamOf(src, locs + [n]))
    ensures IsHolding(grown, Step(src, d, p, StreamOf(src, locs), n))
  {
    var rec, s := RecordOf(src, p.obsGrouping, p.nextRecNum, n), StreamOf(src, locs);
    var o := Obs(rec, n, src.PointOf(n));
    NumberingStep(src, locs, n, rec);
    grown := Kept(d, s + [o]);
    HoldingStep(src, d, p, s, n, o, kept, grown);
  }

  /** How the numbering grows by a location. */
  lemma NumberingStep(src: Source, locs: seq<nat>, l: nat, rec: nat)
    requires src.Valid() && InSource(src, locs) && l < src.NumLocs()
    requires rec == RecordOf(src, Grouping(src, locs), NextRecNum(src, locs), l)
    ensures InSource(src, locs + [l])
    ensures StreamOf(src, locs + [l]) == StreamOf(src, locs) + [Obs(rec, l, src.PointOf(l))]
    ensures NextRecNum(src, locs + [l]) == if rec == NextRecNum(src, locs) then rec + 1 else NextRecNum(src, locs)
    ensures Grouping(src, locs + [l])
            == if src.groupVars == [] then Grouping(src, locs) else Grouping(src, locs)[src.KeyOf(l) := rec]
  {
    StreamSnoc(src, locs, l);
  }

  lemma AppendHeld(kept: seq<Obs>, o: Obs, grown: seq<Obs>)
    requires grown == kept + [o]
    ensures Locs(grown) == Locs(kept) + [o.loc] && Recs(grown) == Recs(kept) + [o.rec]
    ensures Elements(Recs(grown)) == Elements(Recs(kept)) + {o.rec}
  {
  }

  /** How the held locations grow by an observation. */
  lemma HeldStep(d: Rule, s: seq<Obs>, o: Obs, kept: seq<Obs>, grown: seq<Obs>)
    requires kept == Kept(d, s) && grown == Kept(d, s + [o])
    ensures if Mine(d, s + [o], o.rec) then
              && Locs(grown) == Locs(kept) + [o.loc] && Recs(grown) == Recs(kept) + [o.rec]
              && |grown| == |kept| + 1 && Elements(Recs(grown)) == Elements(Recs(kept)) + {o.rec}
            else grown == kept
  {
    KeptSnoc(d, s, o);
    if Mine(d, s + [o], o.rec) {
      AppendHeld(kept, o, grown);
    }
  }

  lemma HoldingStep(src: Source, d: Rule, p: Progress, s: seq<Obs>, n: nat, o: Obs, kept: seq<Obs>, grown: seq<Obs>)
    requires src.Valid() && n < src.NumLocs() && src.Keeps(n)
    requires o == Obs(RecordOf(src, p.obsGrouping, p.nextRecNum, n), n, src.PointOf(n))
    requires kept == Kept(d, s) && grown == Kept(d, s + [o]) && IsHolding(kept, p)
    ensures IsHolding(grown, Step(src, d, p, s, n))
  {
    HeldStep(d, s, o, kept, grown);
  }

  lemma NumberedStep(src: Source, d: Rule, p: Progress, s: seq<Obs>, n: nat, locs: seq<nat>)
    requires src.Valid() && n < src.NumLocs() && src.Keeps(n) && InSource(src, locs) && IsNumbered(src, locs, p)
    ensures InSource(src, locs + [n]) && IsNumbered(src, locs + [n], Step(src, d, p, s, n))
  {
    NumberingStep(src, locs, n, RecordOf(src, p.obsGrouping, p.nextRecNum, n));
  }

  lemma CountedStep(src: Source, d: Rule, p: Progress, s: seq<Obs>, n: nat)
    requires src.Valid() && n < src.NumLocs() && IsCounted(src, n, p)
    ensures IsCounted(src, n + 1, Step(src, d, p, s, n))
  {
  }

  /** What a pass holds and counts, in terms of the source. */
  lemma PassHoldsPassing(src: Source, d: Rule, n: nat)
    requires src.Valid() && n <= src.NumLocs()
    ensures var p := OnePass(src, d, n);
            && Ascending(p.indx) && (forall l :: l in p.indx ==> l in PassingLocs(src, n))
            && p.gnlocs == |PassingLocs(src, n)|
            && p.gnlocsOutsideTimewindow == if src.applyLocationsCheck then |OutsideLocs(src, 0, n)| else 0
  {
    var locs := KeptLocs(src, n);
    var s := StreamOf(src, locs);
    OnePassIsClosed(src, d, n);
    KeptLocsMember(src, n);
    KeptLocsCount(src, n);
    OutsideIsCounted(src, 0, n);
    StreamIsAscending(src, locs);
    OfRecordsAscending(s, MyRecords(d, s));
    forall l: nat | l in Locs(Kept(d, s))
      ensures l in locs
    {
      LocIsKept(d, s, l);
    }
  }

  class ObsFrameRead {
    const src: Source
    const maxFrameSize: nat
    /** The largest first dimension in the backend, over all variables and dimensions. */
    const maxVarSize: nat
    const dist: Distribution
    var frameStart: nat
    var nextRecNum: nat
    var obsGrouping: map<string, nat>
    var uniqueRecNums: set<nat>
    var indx: seq<nat>
    var recnums: seq<nat>
    var nlocs: nat
    var nrecs: nat
    var gnlocs: nat
    var gnlocsOutsideTimewindow: nat
    var frameLocIndex: seq<nat>
    var adjustedLocationFrameStart: nat
    var adjustedLocationFrameCount: nat
    /** How often the distribution has been told to compute its patches. */
    var patchCalls: nat

    constructor (src: Source, maxFrameSize: nat, maxVarSize: nat, dist: Distribution)
      ensures this.src == src && this.maxFrameSize == maxFrameSize && this.maxVarSize == maxVarSize && this.dist == dist
      ensures IsNew()
    {
      this.src, this.maxFrameSize, this.maxVarSize, this.dist := src, maxFrameSize, maxVarSize, dist;
      frameStart, nextRecNum, obsGrouping, uniqueRecNums := 0, 0, map[], {};
      indx, recnums, frameLocIndex := [], [], [];
      nlocs, nrecs, gnlocs, gnlocsOutsideTimewindow := 0, 0, 0, 0;
      adjustedLocationFrameStart, adjustedLocationFrameCount := 0, 0;
      patchCalls := 0;
    }

    ghost predicate IsNew()
      reads this
    {
      obsGrouping == map[] && indx == [] && recnums == [] && gnlocsOutsideTimewindow == 0 && patchCalls == 0
    }

    method FrameInit()
      requires src.Valid() && IsNew()
      modifies this
      ensures frameStart == 0 && HasRead(0) && ReadStream(0) == [] && adjustedLocationFrameStart == 0 && patchCalls == 0
    {
      frameStart := 0;
      adjustedLocationFrameStart := 0;
      nextRecNum := 0;
      uniqueRecNums := {};
      nlocs := 0;
      gnlocs := 0;
      nrecs := 0;
      NothingRead(src);
    }

    // ----- What the state says about the locations read so far

    ghost predicate Numbered(locs: seq<nat>)
      requires src.Valid() && InSource(src, locs)
      reads this`nextRecNum, this`obsGrouping
    {
      nextRecNum == NextRecNum(src, locs) && obsGrouping == Grouping(src, locs)
    }

    ghost predicate HoldsKept(kept: seq<Obs>)
      reads this`indx, this`recnums, this`nlocs, this`uniqueRecNums
    {
      && indx == Locs(kept) && recnums == Recs(kept) && nlocs == |kept|
      && uniqueRecNums == Elements(recnums)
    }

    /** Out of the stream `s`, exactly the locations kept on this rank are held. */
    ghost predicate Holds(s: seq<Obs>)
      reads this`indx, this`recnums, this`nlocs, this`uniqueRecNums
    {
      exists kept :: kept == Kept(dist.MyRule(), s) && HoldsKept(kept)
    }

    ghost predicate Counted(n: nat)
      requires src.Valid() && n <= src.NumLocs()
      reads this`gnlocs, this`gnlocsOutsideTimewindow
    {
      && gnlocs == |KeptLocs(src, n)|
      && gnlocsOutsideTimewindow == if src.applyLocationsCheck then OutsideWindow(src, n) else 0
    }

    ghost function MyProgress(): Progress
      reads this`nextRecNum, this`obsGrouping, this`indx, this`recnums, this`uniqueRecNums
      reads this`nlocs, this`nrecs, this`gnlocs, this`gnlocsOutsideTimewindow
    {
      Progress(nextRecNum, obsGrouping, indx, recnums, uniqueRecNums, nlocs, nrecs, gnlocs, gnlocsOutsideTimewindow)
    }

    /** The state is that of a one-pass load of the locations below `n`. */
    ghost predicate HasRead(n: nat)
      requires src.Valid() && n <= src.NumLocs()
      reads this`nextRecNum, this`obsGrouping, this`indx, this`recnums, this`uniqueRecNums
      reads this`nlocs, this`nrecs, this`gnlocs, this`gnlocsOutsideTimewindow
    {
      MyProgress() == OnePass(src, dist.MyRule(), n)
    }

    /** What has been fed to the distribution when the locations below `n` have been read. */
    ghost function ReadStream(n: nat): seq<Obs>
      requires src.Valid() && n <= src.NumLocs()
    {
      StreamOf(src, KeptLocs(src, n))
    }

    /** The distribution has been fed exactly the kept locations below `n`. */
    ghost predicate HasFed(n: nat)
      requires src.Valid() && n <= src.NumLocs()
      reads dist.Objects()
    {
      exists s :: s == ReadStream(n) && dist.InStep(s)
    }

    /** How much of a first dimension of size `size` the current frame covers. */
    function BasicFrameCount(size: nat): (count: nat)
      reads this`frameStart
      ensures Min(frameStart, size) + count == Min(frameStart + maxFrameSize, size)
    {
      if frameStart + maxFrameSize > size then
        if size < frameStart then 0 else size - frameStart
      else maxFrameSize
    }

    // ----- One frame

    method GenFrameLocationsAll() returns (locIndex: seq<nat>, frameIndex: seq<nat>)
      requires src.Valid() && !src.applyLocationsCheck
      modifies this`gnlocs
      ensures gnlocs == old(gnlocs) + |locIndex|
      ensures IsFrameOf(locIndex, frameIndex)
    {
      var locSize := BasicFrameCount(src.NumLocs());
      gnlocs := gnlocs + locSize;
      locIndex, frameIndex := [], [];
      ghost var a := Min(frameStart, src.NumLocs());
      ghost var before := KeptLocs(src, a);
      for i := 0 to locSize
        invariant |locIndex| == |frameIndex| == i
        invariant forall k :: 0 <= k < i ==> locIndex[k] == frameStart + k && frameIndex[k] == k
        invariant KeptLocs(src, a + i) == before + locIndex
      {
        assert KeptLocs(src, a + i + 1) == before + (locIndex + [frameStart + i]);
        locIndex := locIndex + [frameStart + i];
        frameIndex := frameIndex + [i];
      }
    }

    /** The locations of the frame that pass the checks, relative to the source and to the frame. */
    ghost predicate IsFrameOf(locIndex: seq<nat>, frameIndex: seq<nat>)
      requires src.Valid()
      reads this`frameStart
    {
      var a, b := Min(frameStart, src.NumLocs()), Min(frameStart + maxFrameSize, src.NumLocs());
      && KeptLocs(src, b) == KeptLocs(src, a) + locIndex
      && |frameIndex| == |locIndex|
      && forall k :: 0 <= k < |locIndex| ==> locIndex[k] == frameStart + frameIndex[k] && frameIndex[k] < b - a
    }

    method GenFrameLocationsWithQcheck() returns (locIndex: seq<nat>, frameIndex: seq<nat>)
      requires src.Valid() && src.applyLocationsCheck
      modifies this`gnlocs, this`gnlocsOutsideTimewindow
      ensures gnlocs == old(gnlocs) + |locIndex|
      ensures gnlocsOutsideTimewindow == old(gnlocsOutsideTimewindow)
                + OutsideWindow(src, Min(frameStart + maxFrameSize, src.NumLocs()))
                - OutsideWindow(src, Min(frameStart, src.NumLocs()))
      ensures gnlocsOutsideTimewindow == old(gnlocsOutsideTimewindow)
                + |OutsideLocs(src, Min(frameStart, src.NumLocs()), Min(frameStart + maxFrameSize, src.NumLocs()))|
      ensures IsFrameOf(locIndex, frameIndex)
      ensures forall l: nat :: l in locIndex <==>
                && frameStart <= l < Min(frameStart + maxFrameSize, src.NumLocs())
                && src.windowStart < src.times[l] <= src.windowEnd
                && src.lats[l] != src.latFill && src.lons[l] != src.lonFill
    {
      var frameCount := BasicFrameCount(src.NumLocs());
      locIndex, frameIndex := [], [];
      ghost var a := Min(frameStart, src.NumLocs());
      for i := 0 to frameCount
        invariant gnlocs == old(gnlocs)
        invariant |locIndex| == |frameIndex| <= i
        invariant forall k :: 0 <= k < |locIndex| ==> locIndex[k] == frameStart + frameIndex[k] && frameIndex[k] < i
        invariant KeptLocs(src, a + i) == KeptLocs(src, a) + locIndex
        invariant gnlocsOutsideTimewindow == old(gnlocsOutsideTimewindow)
                  + OutsideWindow(src, a + i) - OutsideWindow(src, a)
      {
        var keepThisLocation := src.InsideTimingWindow(frameStart + i);
        if !keepThisLocation {
          gnlocsOutsideTimewindow := gnlocsOutsideTimewindow + 1;
        }
        if keepThisLocation {
          if src.lats[frameStart + i] == src.latFill {
            keepThisLocation := false;
          }
        }
        if keepThisLocation {
          if src.lons[frameStart + i] == src.lonFill {
            keepThisLocation := false;
          }
        }
        if keepThisLocation {
          locIndex := locIndex + [frameStart + i];
          frameIndex := frameIndex + [i];
        }
      }
      gnlocs := gnlocs + |locIndex|;
      OutsideIsCounted(src, a, a + frameCount);
      FramePasses(locIndex, frameIndex);
    }

    /** The locations of a frame that pass the checks, written out. */
    lemma FramePasses(locIndex: seq<nat>, frameIndex: seq<nat>)
      requires src.Valid() && src.applyLocationsCheck && IsFrameOf(locIndex, frameIndex)
      ensures forall l: nat :: l in locIndex <==>
                && frameStart <= l < Min(frameStart + maxFrameSize, src.NumLocs())
                && src.windowStart < src.times[l] <= src.windowEnd
                && src.lats[l] != src.latFill && src.lons[l] != src.lonFill
    {
      var a, b := Min(frameStart, src.NumLocs()), Min(frameStart + maxFrameSize, src.NumLocs());
      KeptLocsMember(src, a);
      KeptLocsMember(src, b);
      forall l: nat
        ensures l in locIndex <==> l in KeptLocs(src, b) && frameStart <= l
      {
        assert l in KeptLocs(src, b) <==> l in KeptLocs(src, a) || l in locIndex;
      }
    }

    method BuildObsGroupingKeys(frameIndex: seq<nat>) returns (groupingKeys: seq<string>)
      requires src.Valid() && src.groupVars != []
      requires forall k :: 0 <= k < |frameIndex| ==> frameStart + frameIndex[k] < src.NumLocs()
      ensures |groupingKeys| == |frameIndex|
      ensures forall k :: 0 <= k < |frameIndex| ==> groupingKeys[k] == src.KeyOf(frameStart + frameIndex[k])
    {
      groupingKeys := seq(|frameIndex|, _ => "");
      for i := 0 to |src.groupVars|
        invariant |groupingKeys| == |frameIndex|
        invariant i > 0 ==> forall k :: 0 <= k < |frameIndex| ==>
                    groupingKeys[k] == Join(src.Segments(i, frameStart + frameIndex[k]))
      {
        ghost var before := groupingKeys;
        for j := 0 to |frameIndex|
          invariant |groupingKeys| == |frameIndex|
          invariant forall k :: j <= k < |frameIndex| ==> groupingKeys[k] == before[k]
          invariant forall k :: 0 <= k < j ==> groupingKeys[k] == Join(src.Segments(i + 1, frameStart + frameIndex[k]))
        {
          var keySegment := src.groupVars[i][frameStart + frameIndex[j]];
          JoinStep(src, i, frameStart + frameIndex[j]);
          if i == 0 {
            groupingKeys := groupingKeys[j := keySegment];
          } else {
            groupingKeys := groupingKeys[j := groupingKeys[j] + ":" + keySegment];
          }
        }
      }
    }

    method GenRecordNumbersAll(locIndex: seq<nat>, ghost before: seq<nat>) returns (records: seq<nat>)
      requires src.Valid() && src.groupVars == [] && InSource(src, before + locIndex)
      requires InSource(src, before) && Numbered(before)
      modifies this`nextRecNum
      ensures Numbered(before + locIndex)
      ensures |records| == |locIndex| && RecNums(src, before + locIndex) == RecNums(src, before) + records
    {
      records := [];
      for i := 0 to |locIndex|
        invariant |records| == i && nextRecNum == |before| + i
        invariant forall k :: 0 <= k < i ==> records[k] == |before| + k
      {
        records := records + [nextRecNum];
        nextRecNum := nextRecNum + 1;
      }
    }

    /** The key map and the next number after the keys `keys`. */
    ghost predicate Grouped(keys: seq<string>)
      reads this`nextRecNum, this`obsGrouping
    {
      obsGrouping == Table(keys) && nextRecNum == |Table(keys)|
    }

    /** Looks a key up, giving it the next number if it is new. */
    method NumberKey(key: string, ghost keys: seq<string>) returns (rec: nat)
      requires Grouped(keys)
      modifies this`nextRecNum, this`obsGrouping
      ensures Grouped(keys + [key]) && Numbers(keys + [key]) == Numbers(keys) + [rec]
    {
      TableSnoc(keys, key);
      if key !in obsGrouping {
        obsGrouping := obsGrouping[key := nextRecNum];
        nextRecNum := nextRecNum + 1;
      }
      rec := obsGrouping[key];
    }

    method NumberKeys(frameKeys: seq<string>, ghost keys: seq<string>) returns (records: seq<nat>)
      requires Grouped(keys)
      modifies this`nextRecNum, this`obsGrouping
      ensures |records| == |frameKeys|
      ensures Grouped(keys + frameKeys) && Numbers(keys + frameKeys) == Numbers(keys) + records
    {
      records := [];
      assert keys + frameKeys[..0] == keys;
      for i := 0 to |frameKeys|
        invariant |records| == i
        invariant Grouped(keys + frameKeys[..i])
        invariant Numbers(keys + frameKeys[..i]) == Numbers(keys) + records
      {
        SliceSnoc(keys, frameKeys, i);
        var rec := NumberKey(frameKeys[i], keys + frameKeys[..i]);
        records := records + [rec];
      }
      assert frameKeys[..|frameKeys|] == frameKeys;
    }

    method GenRecordNumbersGrouping(frameIndex: seq<nat>, ghost keys: seq<string>)
        returns (records: seq<nat>, ghost frameKeys: seq<string>)
      requires src.Valid() && src.groupVars != [] && Grouped(keys)
      requires forall k :: 0 <= k < |frameIndex| ==> frameStart + frameIndex[k] < src.NumLocs()
      modifies this`nextRecNum, this`obsGrouping
      ensures |records| == |frameKeys| == |frameIndex|
      ensures forall k :: 0 <= k < |frameIndex| ==> frameKeys[k] == src.KeyOf(frameStart + frameIndex[k])
      ensures Grouped(keys + frameKeys) && Numbers(keys + frameKeys) == Numbers(keys) + records
    {
      var obsGroupingKeys := BuildObsGroupingKeys(frameIndex);
      records := NumberKeys(obsGroupingKeys, keys);
      frameKeys := obsGroupingKeys;
    }

    /** Records a location that is held here. */
    method Record(rowNum: nat, recNum: nat, mine: bool, ghost s: seq<Obs>, ghost o: Obs, ghost start: seq<nat>)
      requires frameStart <= rowNum && Appended(start, indx, frameStart, frameLocIndex)
      requires o.loc == rowNum && o.rec == recNum && Holds(s) && (mine <==> Mine(dist.MyRule(), s + [o], recNum))
      modifies this`indx, this`recnums, this`uniqueRecNums, this`nlocs, this`frameLocIndex
      ensures Appended(start, indx, frameStart, frameLocIndex) && Holds(s + [o])
    {
      HeldStep(dist.MyRule(), s, o, Kept(dist.MyRule(), s), Kept(dist.MyRule(), s + [o]));
      AppendedSnoc(start, indx, frameStart, frameLocIndex, rowNum);
      var frameIndex := rowNum - frameStart;
      if mine {
        indx := indx + [rowNum];
        recnums := recnums + [recNum];
        uniqueRecNums := uniqueRecNums + {recNum};
        frameLocIndex := frameLocIndex + [frameIndex];
        nlocs := nlocs + 1;
      }
      assert HoldsKept(Kept(dist.MyRule(), s + [o]));
    }

    /** Feeds one location to the distribution and records it if it is held here. */
    method AssignOne(rowNum: nat, recNum: nat, point: Point2, ghost s: seq<Obs>, ghost start: seq<nat>)
      requires frameStart <= rowNum && Appended(start, indx, frameStart, frameLocIndex)
      requires Holds(s) && dist.InStep(s) && recNum <= NextRecord(s)
      modifies this`indx, this`recnums, this`uniqueRecNums, this`nlocs, this`frameLocIndex, dist.Objects()
      ensures Appended(start, indx, frameStart, frameLocIndex)
      ensures Holds(s + [Obs(recNum, rowNum, point)]) && dist.InStep(s + [Obs(recNum, rowNum, point)])
    {
      var ok, mine := AssignRecord(dist, recNum, rowNum, point, s);
      assert ok;
      Record(rowNum, recNum, mine, s, Obs(recNum, rowNum, point), start);
    }

    /** Feeds the frame, which continues the stream `s` by `more`, to the distribution. */
    method AssignAll(locIndex: seq<nat>, records: seq<nat>, ghost s: seq<Obs>, ghost more: seq<Obs>)
      requires |more| == |locIndex| == |records| && |src.lats| == |src.lons|
      requires forall k :: 0 <= k < |locIndex| ==>
                 frameStart <= locIndex[k] < |src.lats|
                 && more[k] == Obs(records[k], locIndex[k], src.PointOf(locIndex[k]))
      requires Holds(s) && dist.InStep(s) && Consecutive(s + more)
      modifies this`indx, this`recnums, this`uniqueRecNums, this`nlocs, this`frameLocIndex, dist.Objects()
      ensures Holds(s + more) && dist.InStep(s + more)
      ensures Appended(old(indx), indx, frameStart, frameLocIndex)
    {
      frameLocIndex := [];
      ghost var start := indx;
      ghost var t := s;
      for i := 0 to |locIndex|
        invariant t == s + more[..i]
        invariant Holds(t) && dist.InStep(t)
        invariant Appended(start, indx, frameStart, frameLocIndex)
      {
        InTurn(s, more, i);
        AssignOne(locIndex[i], records[i], src.PointOf(locIndex[i]), t, start);
        t := t + [more[i]];
      }
      assert more[..|locIndex|] == more;
    }

    method ApplyMpiDistribution(locIndex: seq<nat>, records: seq<nat>, ghost s: seq<Obs>, ghost more: seq<Obs>)
      requires |more| == |locIndex| == |records| && |src.lats| == |src.lons|
      requires forall k :: 0 <= k < |locIndex| ==>
                 frameStart <= locIndex[k] < |src.lats|
                 && more[k] == Obs(records[k], locIndex[k], src.PointOf(locIndex[k]))
      requires Holds(s) && dist.InStep(s) && Consecutive(s + more)
      modifies this`indx, this`recnums, this`uniqueRecNums, this`nlocs, this`nrecs
      modifies this`frameLocIndex, this`adjustedLocationFrameCount, dist.Objects()
      ensures Holds(s + more) && dist.InStep(s + more) && nrecs == |uniqueRecNums|
      ensures Appended(old(indx), indx, frameStart, frameLocIndex) && adjustedLocationFrameCount == |frameLocIndex|
    {
      AssignAll(locIndex, records, s, more);
      nrecs := |uniqueRecNums|;
      adjustedLocationFrameCount := |frameLocIndex|;
    }

    /** The number of source locations covered once the current frame has been read. */
    function FrameEnd(): nat
      reads this`frameStart
    {
      Min(frameStart + maxFrameSize, src.NumLocs())
    }

    method GenFrameLocations() returns (locIndex: seq<nat>, frameIndex: seq<nat>)
      requires src.Valid() && Counted(Min(frameStart, src.NumLocs()))
      modifies this`gnlocs, this`gnlocsOutsideTimewindow
      ensures IsFrameOf(locIndex, frameIndex) && Counted(FrameEnd())
    {
      if src.applyLocationsCheck {
        locIndex, frameIndex := GenFrameLocationsWithQcheck();
      } else {
        locIndex, frameIndex := GenFrameLocationsAll();
      }
    }

    method GenRecordNumbers(locIndex: seq<nat>, frameIndex: seq<nat>, ghost before: seq<nat>)
        returns (records: seq<nat>)
      requires src.Valid() && InSource(src, before) && Numbered(before)
      requires |frameIndex| == |locIndex| && InSource(src, locIndex)
      requires forall k :: 0 <= k < |locIndex| ==> locIndex[k] == frameStart + frameIndex[k]
      modifies this`nextRecNum, this`obsGrouping
      ensures InSource(src, before + locIndex) && Numbered(before + locIndex)
      ensures |records| == |locIndex| && RecNums(src, before + locIndex) == RecNums(src, before) + records
    {
      if src.groupVars == [] {
        records := GenRecordNumbersAll(locIndex, before);
      } else {
        ghost var frameKeys;
        KeysOfFrame(src, before, locIndex);
        records, frameKeys := GenRecordNumbersGrouping(frameIndex, KeysOf(src, before));
        assert frameKeys == KeysOf(src, locIndex);
      }
    }

    lemma FrameIsInside(locIndex: seq<nat>, frameIndex: seq<nat>, before: seq<nat>, after: seq<nat>)
      requires src.Valid() && IsFrameOf(locIndex, frameIndex)
      requires before == KeptLocs(src, Min(frameStart, src.NumLocs())) && after == KeptLocs(src, FrameEnd())
      ensures InSource(src, before) && InSource(src, after) && after == before + locIndex
      ensures forall k :: 0 <= k < |locIndex| ==> frameStart <= locIndex[k] < src.NumLocs()
    {
      assert forall k :: 0 <= k < |locIndex| ==> after[|before| + k] == locIndex[k];
    }

    /** The kept locations of the frame and their record numbers. */
    method NumberFrame(ghost before: seq<nat>, ghost after: seq<nat>) returns (locIndex: seq<nat>, records: seq<nat>)
      requires src.Valid()
      requires before == KeptLocs(src, Min(frameStart, src.NumLocs())) && after == KeptLocs(src, FrameEnd())
      requires Counted(Min(frameStart, src.NumLocs())) && Numbered(before)
      modifies this`gnlocs, this`gnlocsOutsideTimewindow, this`nextRecNum, this`obsGrouping
      ensures Counted(FrameEnd()) && Numbered(after)
      ensures after == before + locIndex && forall k :: 0 <= k < |locIndex| ==>
                frameStart <= locIndex[k] < src.NumLocs()
      ensures |records| == |locIndex| && RecNums(src, after) == RecNums(src, before) + records
    {
      var frameIndex;
      locIndex, frameIndex := GenFrameLocations();
      FrameIsInside(locIndex, frameIndex, before, after);
      records := GenRecordNumbers(locIndex, frameIndex, before);
    }

    method DistributeFrame(locIndex: seq<nat>, records: seq<nat>, ghost before: seq<nat>, ghost after: seq<nat>)
      requires src.Valid() && InSource(src, before) && InSource(src, after) && after == before + locIndex
      requires forall k :: 0 <= k < |locIndex| ==> frameStart <= locIndex[k] < src.NumLocs()
      requires |records| == |locIndex| && RecNums(src, after) == RecNums(src, before) + records
      requires Holds(StreamOf(src, before)) && dist.InStep(StreamOf(src, before))
      modifies this`indx, this`recnums, this`uniqueRecNums, this`nlocs, this`nrecs
      modifies this`frameLocIndex, this`adjustedLocationFrameCount, dist.Objects()
      ensures Holds(StreamOf(src, after)) && dist.InStep(StreamOf(src, after)) && nrecs == |uniqueRecNums|
      ensures Appended(old(indx), indx, frameStart, frameLocIndex) && adjustedLocationFrameCount == |frameLocIndex|
    {
      ghost var more := FrameStream(src, before, locIndex, records);
      ApplyMpiDistribution(locIndex, records, StreamOf(src, before), more);
    }

    /** Filters, numbers and distributes the locations of the current frame. */
    method GenFrameIndexRecNums(ghost before: seq<nat>, ghost after: seq<nat>)
      requires src.Valid()
      requires before == KeptLocs(src, Min(frameStart, src.NumLocs())) && after == KeptLocs(src, FrameEnd())
      requires Counted(Min(frameStart, src.NumLocs())) && Numbered(before)
      requires Holds(StreamOf(src, before)) && dist.InStep(StreamOf(src, before))
      modifies this`gnlocs, this`gnlocsOutsideTimewindow, this`nextRecNum, this`obsGrouping
      modifies this`indx, this`recnums, this`uniqueRecNums, this`nlocs, this`nrecs
      modifies this`frameLocIndex, this`adjustedLocationFrameCount, dist.Objects()
      ensures Counted(FrameEnd()) && Numbered(after)
      ensures Holds(StreamOf(src, after)) && nrecs == |uniqueRecNums| && dist.InStep(StreamOf(src, after))
      ensures Appended(old(indx), indx, frameStart, frameLocIndex) && adjustedLocationFrameCount == |frameLocIndex|
    {
      assert this !in dist.Objects();
      var locIndex, records := NumberFrame(before, after);
      DistributeFrame(locIndex, records, before, after);
    }

    /** The state before a frame, spelled out. */
    lemma Unfold(n: nat)
      requires src.Valid() && n <= src.NumLocs() && HasRead(n)
      ensures Counted(n) && Numbered(KeptLocs(src, n)) && Holds(StreamOf(src, KeptLocs(src, n)))
              && nrecs == |uniqueRecNums|
    {
      OnePassIsClosed(src, dist.MyRule(), n);
      assert HoldsKept(Kept(dist.MyRule(), StreamOf(src, KeptLocs(src, n))));
    }

    lemma Fold(n: nat)
      requires src.Valid() && n <= src.NumLocs()
      requires Counted(n) && Numbered(KeptLocs(src, n)) && Holds(StreamOf(src, KeptLocs(src, n)))
               && nrecs == |uniqueRecNums|
      ensures HasRead(n)
    {
      OnePassIsClosed(src, dist.MyRule(), n);
    }

    /** What has been recorded here is what the distribution has stored or counted. */
    lemma AgreesWithDistribution(n: nat)
      requires src.Valid() && n <= src.NumLocs() && HasRead(n) && dist.InStep(ReadStream(n))
      ensures dist.HaloDist? ==> dist.halo.haloLocVector == indx && dist.halo.haloLocRecords == recnums
      ensures dist.NonoverlappingDist? ==> dist.non.numLocationsOnThisRank == |indx|
      ensures Ascending(indx)
    {
      Unfold(n);
      IndexAscends(src, dist.MyRule(), n);
    }

    /** Reads the next frame, or, when there is none, has the distribution compute its patches. */
    method FrameAvailable() returns (haveAnotherFrame: bool)
      requires src.Valid() && HasRead(Min(frameStart, src.NumLocs()))
      requires HasFed(Min(frameStart, src.NumLocs()))
      modifies this`gnlocs, this`gnlocsOutsideTimewindow, this`nextRecNum, this`obsGrouping
      modifies this`indx, this`recnums, this`uniqueRecNums, this`nlocs, this`nrecs
      modifies this`frameLocIndex, this`adjustedLocationFrameCount, dist.Objects()
      modifies this`patchCalls
      ensures haveAnotherFrame <==> frameStart < maxVarSize
      ensures haveAnotherFrame ==>
                && HasRead(FrameEnd()) && HasFed(FrameEnd())
                && Appended(old(indx), indx, frameStart, frameLocIndex) && adjustedLocationFrameCount == |frameLocIndex|
                && patchCalls == old(patchCalls)
      ensures !haveAnotherFrame ==>
                && HasRead(Min(frameStart, src.NumLocs())) && indx == old(indx)
                && HasFed(Min(frameStart, src.NumLocs())) && patchCalls == old(patchCalls) + 1
    {
      if frameStart < maxVarSize {
        Unfold(Min(frameStart, src.NumLocs()));
        GenFrameIndexRecNums(KeptLocs(src, Min(frameStart, src.NumLocs())), KeptLocs(src, FrameEnd()));
        Fold(FrameEnd());
        return true;
      } else {
        patchCalls := patchCalls + 1;
        return false;
      }
    }

    method FrameNext()
      modifies this`frameStart, this`adjustedLocationFrameStart
      ensures frameStart == old(frameStart) + maxFrameSize
      ensures adjustedLocationFrameStart == old(adjustedLocationFrameStart) + adjustedLocationFrameCount
    {
      frameStart := frameStart + maxFrameSize;
      adjustedLocationFrameStart := adjustedLocationFrameStart + adjustedLocationFrameCount;
    }
  }

  lemma KeysOfFrame(src: Source, before: seq<nat>, more: seq<nat>)
    requires src.Valid() && src.groupVars != [] && InSource(src, before) && InSource(src, more)
    ensures InSource(src, before + more) && KeysOf(src, before + more) == KeysOf(src, before) + KeysOf(src, more)
  {
    forall i | 0 <= i < |before + more|
      ensures KeysOf(src, before + more)[i] == (KeysOf(src, before) + KeysOf(src, more))[i]
    {
      assert (before + more)[i] == if i < |before| then before[i] else more[i - |before|];
    }
  }

  /** One location of the stream, before or in a frame. */
  lemma StreamAt(src: Source, before: seq<nat>, more: seq<nat>, records: seq<nat>, all: seq<nat>, i: nat)
    requires src.Valid() && InSource(src, before) && all == before + more && InSource(src, all) && i < |all|
    requires |records| == |more| && RecNums(src, all) == RecNums(src, before) + records
    ensures i < |before| ==> StreamOf(src, all)[i] == StreamOf(src, before)[i]
    ensures i >= |before| ==>
              var k := i - |before|;
              more[k] < src.NumLocs() && StreamOf(src, all)[i] == Obs(records[k], more[k], src.PointOf(more[k]))
  {
    if i < |before| {
      assert all[i] == before[i] && RecNums(src, all)[i] == RecNums(src, before)[i];
    } else {
      assert all[i] == more[i - |before|] && RecNums(src, all)[i] == records[i - |before|];
    }
  }

  lemma StreamSplits(src: Source, before: seq<nat>, more: seq<nat>, records: seq<nat>, all: seq<nat>)
    requires src.Valid() && InSource(src, before) && all == before + more && InSource(src, all)
    requires |records| == |more| && RecNums(src, all) == RecNums(src, before) + records
    ensures StreamOf(src, all)[..|before|] == StreamOf(src, before)
  {
    forall i | 0 <= i < |before|
      ensures StreamOf(src, all)[i] == StreamOf(src, before)[i]
    {
      StreamAt(src, before, more, records, all, i);
    }
  }

  /** The part of the stream that comes out of one frame. */
  lemma FrameStream(src: Source, before: seq<nat>, more: seq<nat>, records: seq<nat>) returns (os: seq<Obs>)
    requires src.Valid() && InSource(src, before) && InSource(src, before + more)
    requires |records| == |more| && RecNums(src, before + more) == RecNums(src, before) + records
    ensures StreamOf(src, before + more) == StreamOf(src, before) + os && Consecutive(StreamOf(src, before + more))
    ensures |os| == |more|
    ensures forall k :: 0 <= k < |more| ==>
              more[k] < src.NumLocs() && os[k] == Obs(records[k], more[k], src.PointOf(more[k]))
  {
    var all := before + more;
    var s := StreamOf(src, all);
    os := s[|before|..];
    StreamSplits(src, before, more, records, all);
    assert s == s[..|before|] + os;
    forall k | 0 <= k < |more|
      ensures more[k] < src.NumLocs() && os[k] == Obs(records[k], more[k], src.PointOf(more[k]))
    {
      StreamAt(src, before, more, records, all, |before| + k);
    }
    StreamIsConsecutive(src, all);
  }

  /** The index vector of a one-pass load is strictly increasing and within what has been read. */
  lemma {:induction false} IndexAscends(src: Source, d: Rule, n: nat)
    requires src.Valid() && n <= src.NumLocs()
    ensures Ascending(OnePass(src, d, n).indx)
    ensures forall k :: 0 <= k < |OnePass(src, d, n).indx| ==> OnePass(src, d, n).indx[k] < n
  {
    OnePassIsClosed(src, d, n);
    var locs := KeptLocs(src, n);
    var s := StreamOf(src, locs);
    KeptLocsMember(src, n);
    StreamIsAscending(src, locs);
    OfRecordsAscending(s, MyRecords(d, s));
    KeptMember(d, s);
    forall k | 0 <= k < |Kept(d, s)|
      ensures Locs(Kept(d, s))[k] < n
    {
      var o := Kept(d, s)[k];
      assert o in Kept(d, s);
      var i :| 0 <= i < |s| && s[i] == o;
      assert Locs(s)[i] == o.loc && locs[i] in locs;
    }
  }

  /** The locations at `offsets` from `start` have been appended. */
  ghost predicate Appended(before: seq<nat>, after: seq<nat>, start: nat, offsets: seq<nat>) {
    && |after| == |before| + |offsets| && after[..|before|] == before
    && forall k :: 0 <= k < |offsets| ==> after[|before| + k] == start + offsets[k]
  }

  lemma AppendedSnoc(before: seq<nat>, after: seq<nat>, start: nat, offsets: seq<nat>, l: nat)
    requires Appended(before, after, start, offsets) && l >= start
    ensures Appended(before, after + [l], start, offsets + [l - start])
  {
  }

  lemma SliceSnoc<T>(before: seq<T>, more: seq<T>, i: nat)
    requires i < |more|
    ensures before + more[..i + 1] == (before + more[..i]) + [more[i]]
  {
  }

  lemma NothingRead(src: Source)
    requires src.Valid()
    ensures KeptLocs(src, 0) == [] && StreamOf(src, []) == [] && NextRecNum(src, []) == 0
    ensures Grouping(src, []) == map[]
  {
    if src.groupVars != [] { assert KeysOf(src, []) == []; }
  }

  lemma JoinStep(src: Source, n: nat, loc: nat)
    requires src.Valid() && n < |src.groupVars| && loc < src.NumLocs()
    ensures Join(src.Segments(n + 1, loc))
            == if n == 0 then src.groupVars[0][loc] else Join(src.Segments(n, loc)) + ":" + src.groupVars[n][loc]
  {
    assert src.Segments(n + 1, loc)[..n] == src.Segments(n, loc);
  }

  /** In a consecutively numbered stream no record number is ahead of its turn. */
  lemma InTurn(s: seq<Obs>, more: seq<Obs>, i: nat)
    requires Consecutive(s + more) && i < |more|
    ensures s + more[..i + 1] == (s + more[..i]) + [more[i]]
    ensures more[i].rec <= NextRecord(s + more[..i])
  {
    SliceSnoc(s, more, i);
    assert (s + more)[..|s| + i + 1] == s + more[..i + 1];
    ConsecutivePrefix(s + more, |s| + i + 1);
    ConsecutiveSnoc(s + more[..i], more[i]);
  }

  lemma {:induction false} ConsecutivePrefix(s: seq<Obs>, n: nat)
    requires Consecutive(s) && n <= |s|
    ensures Consecutive(s[..n])
  {
    if n == |s| {
      assert s[..n] == s;
    } else {
      ConsecutivePrefix(s[..|s| - 1], n);
      assert s[..|s| - 1][..n] == s[..n];
    }
  }
}
