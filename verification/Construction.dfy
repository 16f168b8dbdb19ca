/** The constructor of ObsSpace, run by all ranks of a Halo in step (src/ObsSpace.cc). */
module Construction {
  import opened Seqs
  import opened Collectives
  import opened Contract
  import opened Streams
  import opened RecordIndex
  import opened ReplicaDistribution
  import opened Extension
  import opened ExtendedWorld
  import opened ExtendedVariables
  import opened WideVariables
  import opened ExtendedContainers
  import opened ExtendAll
  import H = HaloDistribution
  import S = ObsSource
  import F = FrameReader
  import Loader
  import LoadAll

  // ----- The record index

  /** How the records are sorted: the value of the sort variable at each location of the source. */
  datatype Sorting =
    | Unsorted
    | SortedBy(value: nat -> real, isMissing: nat -> bool, ascending: bool, treatment: Treatment)

  /** The record index that the sorting asks for. */
  ghost predicate IsRecordIndex(sorting: Sorting, v: Vectors) {
    |v.indx| == |v.recnums| &&
    match sorting
    case Unsorted => IsUnsortedIndex(v.recnums, v.recidx)
    case SortedBy(value, isMissing, ascending, treatment) =>
      IsSortedIndex(Order(Map(value, v.indx), ascending), treatment, Map(isMissing, v.indx), v.recnums, v.recidx)
  }

  lemma IndexedRecordsAreHeld(sorting: Sorting, v: Vectors)
    requires IsRecordIndex(sorting, v)
    ensures forall rec :: rec in v.recidx ==> rec in v.recnums
  {
    forall rec: nat | rec in v.recidx
      ensures rec in v.recnums
    {
      NoPositions(v.recnums, rec);
    }
  }

  /** One rank's ObsSpace before its extension, given what its reader has found. */
  method BuildSpace(reader: F.ObsFrameRead, sorting: Sorting) returns (space: ObsSpace)
    requires |reader.indx| == |reader.recnums|
    ensures fresh(space) && space.gnlocs == reader.gnlocs
    ensures space.Now() == Vectors(reader.indx, reader.recnums, space.recidx, reader.nrecs)
    ensures IsRecordIndex(sorting, space.Now())
  {
    space := new ObsSpace(reader.indx, reader.recnums, reader.nrecs, reader.gnlocs);
    var recidx;
    match sorting {
      case Unsorted =>
        recidx := BuildRecIdxUnsorted(space.recnums);
      case SortedBy(value, isMissing, ascending, treatment) =>
        var order := Order(Map(value, space.indx), ascending);
        recidx := BuildSortedObsGroups(order, treatment, Map(isMissing, space.indx), space.recnums);
    }
    space.recidx := recidx;
  }

  /** What a rank holds before the extension: what a single pass over the source finds, and its index. */
  ghost predicate IsBuilt(sorting: Sorting, p: F.Progress, v: Vectors) {
    forall t :: t == v ==> HasFound(sorting, p, t)
  }

  ghost predicate HasFound(sorting: Sorting, p: F.Progress, v: Vectors) {
    IsRecordIndex(sorting, v) && v.indx == p.indx && v.recnums == p.recnums && v.nrecs == p.nrecs
  }

  ghost predicate AreBuilt(src: S.Source, halos: seq<H.Halo>, sorting: Sorting, vs: seq<Vectors>)
    requires src.Valid()
  {
    |vs| == |halos| && forall r: nat :: r < |halos| ==> IsBuiltAt(src, halos, sorting, vs, r)
  }

  ghost predicate IsBuiltAt(src: S.Source, halos: seq<H.Halo>, sorting: Sorting, vs: seq<Vectors>, r: nat)
    requires src.Valid()
  {
    r < |vs| && r < |halos| && IsBuilt(sorting, LoadAll.WholePass(src, halos[r].MyRule()), vs[r])
  }

  method BuildSpaces(readers: seq<F.ObsFrameRead>, sorting: Sorting, ghost ps: seq<F.Progress>)
      returns (spaces: seq<ObsSpace>)
    requires |readers| == |ps|
    requires forall r :: 0 <= r < |readers| ==> readers[r].MyProgress() == ps[r] && |ps[r].indx| == |ps[r].recnums|
    ensures |spaces| == |readers| && forall r :: 0 <= r < |spaces| ==> IsBuilt(sorting, ps[r], spaces[r].Now())
    ensures forall r :: 0 <= r < |spaces| ==> fresh(spaces[r]) && spaces[r].gnlocs == ps[r].gnlocs
    ensures forall r, q :: 0 <= r < q < |spaces| ==> spaces[r] != spaces[q]
  {
    spaces := [];
    for r := 0 to |readers|
      invariant |spaces| == r && forall q :: 0 <= q < r ==> IsBuilt(sorting, ps[q], spaces[q].Now())
      invariant forall q :: 0 <= q < r ==> fresh(spaces[q]) && spaces[q].gnlocs == ps[q].gnlocs
      invariant forall p, q :: 0 <= p < q < r ==> spaces[p] != spaces[q]
    {
      assert readers[r].MyProgress() == ps[r];
      var space := BuildSpace(readers[r], sorting);
      assert HasFound(sorting, ps[r], space.Now());
      spaces := spaces + [space];
    }
  }

  lemma BuiltIsOriginal(src: S.Source, halos: seq<H.Halo>, sorting: Sorting, vs: seq<Vectors>)
    requires src.Valid() && AreBuilt(src, halos, sorting, vs) && AscendingStream(LoadAll.WholeStream(src))
    ensures AreOriginal(vs, halos, LoadAll.WholeStream(src))
  {
    forall r: nat | r < |halos|
      ensures IsOriginalAt(vs, halos, LoadAll.WholeStream(src), r)
    {
      assert IsBuiltAt(src, halos, sorting, vs, r)
             && HasFound(sorting, LoadAll.WholePass(src, halos[r].MyRule()), vs[r]);
      IndexedRecordsAreHeld(sorting, vs[r]);
      LoadAll.WholePassHolds(src, halos[r].MyRule());
    }
  }

  // ----- The records held anywhere

  lemma AllRecords(vs: seq<Vectors>) returns (all: seq<nat>)
    ensures ListsAll(vs, all)
  {
    var recs: seq<nat> := [];
    for r := 0 to |vs|
      invariant forall rec :: rec in recs <==> exists q :: 0 <= q < r && rec in vs[q].recnums
    {
      recs := recs + vs[r].recnums;
    }
    MaxAllIsMaximum(recs);
    OriginalRecsMember(recs, MaxAll(recs) + 1);
    all := OriginalRecs(recs, MaxAll(recs) + 1);
  }

  /** The records of the stream whose first location lies within the radius of some rank. */
  ghost predicate ListsHeld(halos: seq<H.Halo>, s: seq<Obs>, all: seq<nat>) {
    Ascending(all) && forall rec: nat :: rec in all <==>
      exists i :: 0 <= i < |s| && s[i].rec == rec && (forall j :: 0 <= j < i ==> s[j].rec != rec)
                  && exists r :: 0 <= r < |halos| && halos[r].distance(s[i].point) <= halos[r].radius
  }

  lemma HeldBySome(vs: seq<Vectors>, halos: seq<H.Halo>, s: seq<Obs>, all: seq<nat>, rec: nat, i: nat)
    requires AreOriginal(vs, halos, s) && ListsAll(vs, all)
    requires i < |s| && s[i].rec == rec && forall j :: 0 <= j < i ==> s[j].rec != rec
    ensures rec in all <==> exists r :: 0 <= r < |halos| && halos[r].distance(s[i].point) <= halos[r].radius
  {
    FirstPointIs(s, rec, i);
    forall r: nat | r < |vs|
      ensures rec in vs[r].recnums <==> halos[r].distance(s[i].point) <= halos[r].radius
    {
      assert IsOriginalAt(vs, halos, s, r);
      RecIsHeld(halos[r].MyRule(), s, rec);
    }
    if r :| 0 <= r < |halos| && halos[r].distance(s[i].point) <= halos[r].radius {
      assert rec in vs[r].recnums;
    }
  }

  lemma AllAreHeld(vs: seq<Vectors>, halos: seq<H.Halo>, s: seq<Obs>, all: seq<nat>)
    requires AreOriginal(vs, halos, s) && ListsAll(vs, all)
    ensures ListsHeld(halos, s, all)
  {
    forall rec: nat
      ensures rec in all <==>
              exists i :: 0 <= i < |s| && s[i].rec == rec && (forall j :: 0 <= j < i ==> s[j].rec != rec)
                          && exists r :: 0 <= r < |halos| && halos[r].distance(s[i].point) <= halos[r].radius
    {
      if Appears(s, rec) {
        var i := FirstIndex(s, rec);
        HeldBySome(vs, halos, s, all, rec, i);
      } else {
        NotListed(vs, halos, s, all, rec);
      }
    }
  }

  lemma NotListed(vs: seq<Vectors>, halos: seq<H.Halo>, s: seq<Obs>, all: seq<nat>, rec: nat)
    requires AreOriginal(vs, halos, s) && ListsAll(vs, all) && !Appears(s, rec)
    ensures rec !in all
  {
    forall r: nat | r < |vs|
      ensures rec !in vs[r].recnums
    {
      assert IsOriginalAt(vs, halos, s, r);
      RecIsHeld(halos[r].MyRule(), s, rec);
    }
  }

  /** What a built rank holds and how its records are sorted, in terms of the source. */
  lemma BuiltHoldsExactly(src: S.Source, halos: seq<H.Halo>, sorting: Sorting, vs: seq<Vectors>, r: nat, l: nat)
    requires src.Valid() && AreBuilt(src, halos, sorting, vs) && r < |halos|
    ensures l in vs[r].indx <==>
            && l in S.PassingLocs(src, src.NumLocs())
            && exists f: nat :: LoadAll.IsFirstOf(src, f, l)
                                && halos[r].distance(Point2(src.lons[f], src.lats[f])) <= halos[r].radius
    ensures |vs[r].indx| == |vs[r].recnums|
    ensures sorting.SortedBy? ==>
              forall rec: nat :: rec in vs[r].recidx ==>
                IsArranged(Map(sorting.value, vs[r].indx), sorting.ascending, sorting.treatment,
                           Map(sorting.isMissing, vs[r].indx), vs[r].recnums, rec, vs[r].recidx[rec])
  {
    assert IsBuiltAt(src, halos, sorting, vs, r)
           && HasFound(sorting, LoadAll.WholePass(src, halos[r].MyRule()), vs[r]);
    LoadAll.HoldsExactly(src, halos[r].MyRule(), l);
    if sorting.SortedBy? {
      SortedIndexIsArranged(Order(Map(sorting.value, vs[r].indx), sorting.ascending), sorting.treatment,
                            Map(sorting.isMissing, vs[r].indx), vs[r].recnums, vs[r].recidx);
    }
  }

  // ----- The whole constructor

  /** Every reader is done, and its container has the rows of exactly the locations that the rank holds. */
  ghost predicate AreLoaded(src: S.Source, readers: seq<F.ObsFrameRead>, halos: seq<H.Halo>,
                            containers: seq<seq<Loader.Table>>, w: seq<View>)
    reads readers, halos
  {
    forall v :: v == w ==> HaveLoaded(src, readers, halos, containers, v)
  }

  ghost predicate HaveLoaded(src: S.Source, readers: seq<F.ObsFrameRead>, halos: seq<H.Halo>,
                             containers: seq<seq<Loader.Table>>, w: seq<View>)
    reads readers, halos
  {
    && src.Valid() && src.HasVariables() && |containers| == |halos| == |readers| == |w|
    && forall r: nat :: r < |w| ==> IsLoadedAt(src, readers, halos, containers, w, r)
  }

  ghost predicate IsLoadedAt(src: S.Source, readers: seq<F.ObsFrameRead>, halos: seq<H.Halo>,
                             containers: seq<seq<Loader.Table>>, w: seq<View>, r: nat)
    requires src.Valid() && src.HasVariables()
    reads readers, halos
  {
    && r < |containers| && r < |halos| && r < |readers| && r < |w|
    && LoadAll.IsOnRank(src, readers[r], halos[r], containers[r], w[r])
  }

  lemma LoadedFacts(src: S.Source, readers: seq<F.ObsFrameRead>, halos: seq<H.Halo>,
                    containers: seq<seq<Loader.Table>>, w: seq<View>) returns (ps: seq<F.Progress>)
    requires src.Valid() && src.HasVariables() && |containers| == |halos| == |readers| == |w|
    requires forall r :: 0 <= r < |halos| ==> LoadAll.IsOnRank(src, readers[r], halos[r], containers[r], w[r])
    ensures AreLoaded(src, readers, halos, containers, w) && |ps| == |halos|
    ensures forall r :: 0 <= r < |halos| ==> ps[r] == LoadAll.WholePass(src, halos[r].MyRule())
    ensures forall r :: 0 <= r < |halos| ==> readers[r].MyProgress() == ps[r] && |ps[r].indx| == |ps[r].recnums|
    ensures forall r :: 0 <= r < |halos| ==> ps[r].gnlocs == |S.KeptLocs(src, src.NumLocs())|
  {
    ps := seq(|halos|, r requires 0 <= r < |halos| => LoadAll.WholePass(src, halos[r].MyRule()));
    forall r: nat | r < |halos|
      ensures readers[r].MyProgress() == ps[r] && |ps[r].indx| == |ps[r].recnums|
      ensures ps[r].gnlocs == |S.KeptLocs(src, src.NumLocs())|
      ensures IsLoadedAt(src, readers, halos, containers, w, r)
    {
      assert LoadAll.IsOnRank(src, readers[r], halos[r], containers[r], w[r]);
      LoadAll.WholePassHolds(src, halos[r].MyRule());
    }
    assert HaveLoaded(src, readers, halos, containers, w);
  }

  /** Up to the extension. */
  method LoadAndIndex(readers: seq<F.ObsFrameRead>, halos: seq<H.Halo>, sorting: Sorting, ghost src: S.Source)
      returns (containers: seq<seq<Loader.Table>>, spaces: seq<ObsSpace>)
    requires src.Valid() && src.HasVariables() && |readers| == |halos| && H.IsCommunicator(halos)
    requires forall r, q :: 0 <= r < q < |readers| ==> readers[r] != readers[q] && halos[r] != halos[q]
    requires forall r :: 0 <= r < |readers| ==> LoadAll.IsFresh(src, readers[r], halos[r])
    modifies readers, halos
    ensures H.IsPatched(halos, LoadAll.WholeStream(src), H.ViewsOf(halos)) && AscendingStream(LoadAll.WholeStream(src))
    ensures |containers| == |halos| && AreLoaded(src, readers, halos, containers, H.ViewsOf(halos))
    ensures AreBuilt(src, halos, sorting, NowsOf(spaces))
    ensures forall r :: 0 <= r < |spaces| ==> fresh(spaces[r]) && spaces[r].gnlocs == |S.KeptLocs(src, src.NumLocs())|
    ensures forall r, q :: 0 <= r < q < |spaces| ==> spaces[r] != spaces[q]
  {
    containers := LoadAll.LoadOverHalo(readers, halos, src);
    ghost var ps := LoadedFacts(src, readers, halos, containers, H.ViewsOf(halos));
    spaces := BuildSpaces(readers, sorting, ps);
    assert forall r: nat :: r < |halos| ==> IsBuiltAt(src, halos, sorting, NowsOf(spaces), r);
  }

  // ----- The containers of extended ranks

  /** Variables to be filled at companion locations have one value or more at each location. */
  ghost predicate CanFill(src: S.Source, listed: seq<nat>) {
    forall i :: 0 <= i < |listed| ==> listed[i] < |src.vars| && HasValues(src.vars[listed[i]])
  }

  ghost predicate HasValues(x: S.Variable) {
    && x.dims != [] && x.ByLocation() && x.width >= 1
    && forall k :: 0 <= k < |x.rows| ==> |x.rows[k]| == x.width
  }

  lemma LoadedIsListable(src: S.Source, listed: seq<nat>, vars: seq<Loader.Table>, idx: seq<nat>, i: nat)
    requires src.HasVariables() && CanFill(src, listed) && Loader.IsLoaded(src, vars, idx) && i < |listed|
    ensures IsListable(src.vars[listed[i]], vars[listed[i]])
  {
  }

  /** A rank that has been built and extended is ready for its variables. */
  lemma BuiltIsFillable(sorting: Sorting, v: Vectors, now: Vectors, nlevs: nat, locBound: nat, recBound: nat)
    requires IsRecordIndex(sorting, v) && IsExtended(v, now, nlevs, locBound, recBound) && nlevs > 0
    ensures IsFillable(v, now, nlevs, locBound, recBound)
  {
    match sorting {
      case Unsorted =>
        UnsortedListsOwn(v.recnums, v.recidx);
      case SortedBy(value, isMissing, ascending, treatment) =>
        SortedListsOwn(Order(Map(value, v.indx), ascending), treatment, Map(isMissing, v.indx), v.recnums, v.recidx);
    }
    ExtensionIsReady(v, now, nlevs, locBound, recBound);
  }

  /** The containers `loaded` after the extension of all ranks to `nows`. */
  ghost predicate AreFinal(src: S.Source, loaded: seq<seq<Loader.Table>>, listed: seq<nat>, nows: seq<Vectors>,
                           recBound: nat, containers: seq<seq<Loader.Table>>)
  {
    && |containers| == |loaded| == |nows|
    && forall r: nat :: r < |nows| ==> IsFinalRank(src, loaded, listed, nows, recBound, containers, r)
  }

  ghost predicate IsFinalRank(src: S.Source, loaded: seq<seq<Loader.Table>>, listed: seq<nat>, nows: seq<Vectors>,
                              recBound: nat, containers: seq<seq<Loader.Table>>, r: nat)
  {
    && r < |loaded| && r < |nows| && r < |containers| && ListsOwn(nows[r].recnums, nows[r].recidx)
    && IsFinal(src, loaded[r], listed, nows[r], recBound, containers[r])
  }

  /** What filling the variables of a rank needs. */
  ghost predicate IsReadyToFill(src: S.Source, loaded: seq<seq<Loader.Table>>, listed: seq<nat>, vs: seq<Vectors>,
                                nows: seq<Vectors>, nlevs: nat, locBound: nat, recBound: nat, r: nat)
  {
    && r < |loaded| && r < |vs| && r < |nows| && IsFillable(vs[r], nows[r], nlevs, locBound, recBound)
    && |loaded[r]| == |src.vars|
    && forall i :: 0 <= i < |listed| ==>
         listed[i] < |src.vars| && IsListable(src.vars[listed[i]], loaded[r][listed[i]])
  }

  method ExtendContainers(src: S.Source, loaded: seq<seq<Loader.Table>>, listed: seq<nat>, spaces: seq<ObsSpace>,
                          recBound: nat, ghost vs: seq<Vectors>, ghost nows: seq<Vectors>, ghost nlevs: nat,
                          ghost locBound: nat)
      returns (containers: seq<seq<Loader.Table>>)
    requires src.HasVariables() && nows == NowsOf(spaces) && |loaded| == |vs| == |spaces|
    requires forall r: nat :: r < |vs| ==> IsReadyToFill(src, loaded, listed, vs, nows, nlevs, locBound, recBound, r)
    ensures AreFinal(src, loaded, listed, nows, recBound, containers)
  {
    containers := [];
    for r := 0 to |spaces|
      invariant |containers| == r
      invariant forall q: nat :: q < r ==> IsFinalRank(src, loaded, listed, nows, recBound, containers, q)
    {
      assert IsReadyToFill(src, loaded, listed, vs, nows, nlevs, locBound, recBound, r);
      var recidx, numExtendedLocs := spaces[r].recidx, |spaces[r].recnums|;
      var out, _ := ExtendContainer(src, loaded[r], listed, recidx, numExtendedLocs, recBound, vs[r], nows[r], nlevs,
                                    locBound);
      ghost var before := containers;
      containers := containers + [out];
      forall q: nat | q < r
        ensures IsFinalRank(src, loaded, listed, nows, recBound, containers, q)
      {
        assert IsFinalRank(src, loaded, listed, nows, recBound, before, q);
      }
    }
  }

  lemma ReadyRank(src: S.Source, readers: seq<F.ObsFrameRead>, halos: seq<H.Halo>, loaded: seq<seq<Loader.Table>>,
                  listed: seq<nat>, sorting: Sorting, vs: seq<Vectors>, nows: seq<Vectors>, w: seq<View>,
                  replicas: seq<ReplicaOfGeneral>, pairs: seq<HaloPair>, nlevs: nat, locBound: nat, recBound: nat,
                  r: nat)
    requires src.Valid() && src.HasVariables() && |readers| == |halos|
    requires AreLoaded(src, readers, halos, loaded, w) && AreBuilt(src, halos, sorting, vs) && CanFill(src, listed)
    requires nlevs > 0 && AreExtended(nows, halos, replicas, pairs, nlevs, locBound, recBound, vs, w) && r < |halos|
    ensures IsReadyToFill(src, loaded, listed, vs, nows, nlevs, locBound, recBound, r)
  {
    assert HaveLoaded(src, readers, halos, loaded, w);
    assert IsLoadedAt(src, readers, halos, loaded, w, r) && IsBuiltAt(src, halos, sorting, vs, r);
    assert HasFound(sorting, LoadAll.WholePass(src, halos[r].MyRule()), vs[r]);
    assert HaveExtended(nows, halos, replicas, pairs, nlevs, locBound, recBound, vs, w);
    assert IsExtendedRank(vs[r], nows[r], pairs[r], nlevs, locBound, recBound);
    BuiltIsFillable(sorting, vs[r], nows[r], nlevs, locBound, recBound);
    forall i: nat | i < |listed|
      ensures listed[i] < |src.vars| && IsListable(src.vars[listed[i]], loaded[r][listed[i]])
    {
      LoadedIsListable(src, listed, loaded[r], readers[r].indx, i);
    }
  }

  /** The variables of all ranks of an extended Halo. */
  method FillOverHalo(readers: seq<F.ObsFrameRead>, halos: seq<H.Halo>, loaded: seq<seq<Loader.Table>>,
                      listed: seq<nat>, spaces: seq<ObsSpace>, recBound: nat, ghost src: S.Source,
                      ghost sorting: Sorting, ghost vs: seq<Vectors>, ghost w: seq<View>,
                      ghost replicas: seq<ReplicaOfGeneral>, ghost pairs: seq<HaloPair>, ghost nlevs: nat,
                      ghost locBound: nat)
      returns (containers: seq<seq<Loader.Table>>)
    requires src.Valid() && src.HasVariables() && |readers| == |halos| == |loaded|
    requires AreLoaded(src, readers, halos, loaded, w) && AreBuilt(src, halos, sorting, vs) && CanFill(src, listed)
    requires halos != [] && readers[0].src == src && |spaces| == |halos| && nlevs > 0
    requires AreExtended(NowsOf(spaces), halos, replicas, pairs, nlevs, locBound, recBound, vs, w)
    ensures AreFinal(src, loaded, listed, NowsOf(spaces), recBound, containers)
  {
    ghost var nows := NowsOf(spaces);
    forall r: nat | r < |vs|
      ensures IsReadyToFill(src, loaded, listed, vs, nows, nlevs, locBound, recBound, r)
    {
      ReadyRank(src, readers, halos, loaded, listed, sorting, vs, nows, w, replicas, pairs, nlevs, locBound, recBound,
                r);
    }
    containers := ExtendContainers(readers[0].src, loaded, listed, spaces, recBound, vs, nows, nlevs, locBound);
  }

  /** The records held anywhere on built ranks. */
  lemma HeldRecords(src: S.Source, halos: seq<H.Halo>, sorting: Sorting, vs: seq<Vectors>) returns (all: seq<nat>)
    requires src.Valid() && AreBuilt(src, halos, sorting, vs) && AscendingStream(LoadAll.WholeStream(src))
    ensures AreOriginal(vs, halos, LoadAll.WholeStream(src)) && ListsAll(vs, all)
    ensures ListsHeld(halos, LoadAll.WholeStream(src), all)
  {
    BuiltIsOriginal(src, halos, sorting, vs);
    all := AllRecords(vs);
    AllAreHeld(vs, halos, LoadAll.WholeStream(src), all);
  }

  /** From the indexed spaces on. */
  method ExtendAndFill(readers: seq<F.ObsFrameRead>, halos: seq<H.Halo>, ghost sorting: Sorting, nlevs: int,
                       listed: seq<nat>, spaces: seq<ObsSpace>, loaded: seq<seq<Loader.Table>>, ghost src: S.Source,
                       ghost vs: seq<Vectors>, ghost w: seq<View>, ghost all: seq<nat>)
      returns (containers: seq<seq<Loader.Table>>, extended: bool, ok: bool, pairs: seq<HaloPair>,
               replicas: seq<ReplicaOfGeneral>, locBound: nat, recBound: nat)
    requires src.Valid() && src.HasVariables() && halos != [] && |readers| == |halos| == |spaces| == |loaded|
    requires CanFill(src, listed) && readers[0].src == src && vs == NowsOf(spaces)
    requires AreLoaded(src, readers, halos, loaded, w) && AreBuilt(src, halos, sorting, vs)
    requires H.IsPatched(halos, LoadAll.WholeStream(src), w)
    requires AreOriginal(vs, halos, LoadAll.WholeStream(src)) && ListsAll(vs, all)
    requires forall r, q :: 0 <= r < q < |spaces| ==> spaces[r] != spaces[q]
    requires forall r :: 0 <= r < |spaces| ==> spaces[r].gnlocs == |S.KeptLocs(src, src.NumLocs())|
    modifies spaces
    ensures extended <==> nlevs > 0 && S.KeptLocs(src, src.NumLocs()) != [] && src.groupVars != []
    ensures !extended ==> unchanged(spaces) && containers == loaded
    ensures extended ==> ok && AreBounds(vs, locBound, recBound)
    ensures extended ==> nlevs > 0 && AreReplicas(replicas, vs, w, nlevs, recBound)
    ensures extended ==>
              nlevs > 0 && AreExtended(NowsOf(spaces), halos, replicas, pairs, nlevs, locBound, recBound, vs, w)
    ensures extended ==> nlevs > 0 && forall r :: 0 <= r < |spaces| ==>
              spaces[r].gnlocs == |S.KeptLocs(src, src.NumLocs())| + NumCompanions(nlevs, all)
    ensures extended ==> AreFinal(src, loaded, listed, NowsOf(spaces), recBound, containers)
  {
    containers := loaded;
    ghost var gnlocs := spaces[0].gnlocs;
    var recordsExist := readers[0].src.groupVars != [];
    extended, ok, pairs, replicas, locBound, recBound :=
      ExtendOverHalo(spaces, halos, nlevs, recordsExist, LoadAll.WholeStream(src), vs, w, all);
    assert extended <==> nlevs > 0 && gnlocs > 0 && recordsExist;
    if extended {
      containers := FillOverHalo(readers, halos, loaded, listed, spaces, recBound, src, sorting, vs, w, replicas,
                                 pairs, nlevs, locBound);
    }
  }

  /**
   Main result: a source read on all ranks of a Halo, indexed and extended. Nothing fails. Before the
   extension (`vs`, `loaded`) each rank holds what a single pass over the source finds within its
   radius. The extension takes place exactly if the source has locations and groups and `nlevs` is
   positive (zero stands for an absent option); it then adds `nlevs` locations for each record within
   some rank's radius, extends the containers and fills the listed variables, and the pairs cover the
   extended locations and records of all ranks.
   */
  method ConstructOverHalo(readers: seq<F.ObsFrameRead>, halos: seq<H.Halo>, sorting: Sorting, nlevs: int,
                           listed: seq<nat>, ghost src: S.Source)
      returns (containers: seq<seq<Loader.Table>>, spaces: seq<ObsSpace>, extended: bool, ok: bool,
               pairs: seq<HaloPair>, replicas: seq<ReplicaOfGeneral>, locBound: nat, recBound: nat,
               ghost loaded: seq<seq<Loader.Table>>, ghost vs: seq<Vectors>, ghost all: seq<nat>)
    requires src.Valid() && src.HasVariables() && halos != [] && |readers| == |halos| && H.IsCommunicator(halos)
    requires CanFill(src, listed)
    requires forall r, q :: 0 <= r < q < |readers| ==> readers[r] != readers[q] && halos[r] != halos[q]
    requires forall r :: 0 <= r < |readers| ==> LoadAll.IsFresh(src, readers[r], halos[r])
    modifies readers, halos
    ensures H.IsPatched(halos, LoadAll.WholeStream(src), H.ViewsOf(halos))
    ensures AreLoaded(src, readers, halos, loaded, H.ViewsOf(halos))
    ensures AreBuilt(src, halos, sorting, vs) && ListsHeld(halos, LoadAll.WholeStream(src), all)
    ensures |spaces| == |halos|
    ensures extended <==> nlevs > 0 && S.KeptLocs(src, src.NumLocs()) != [] && src.groupVars != []
    ensures !extended ==> NowsOf(spaces) == vs && containers == loaded
    ensures !extended ==> forall r :: 0 <= r < |spaces| ==> spaces[r].gnlocs == |S.KeptLocs(src, src.NumLocs())|
    ensures extended ==> ok && AreBounds(vs, locBound, recBound)
    ensures extended ==> nlevs > 0 && AreReplicas(replicas, vs, H.ViewsOf(halos), nlevs, recBound)
    ensures extended ==>
              nlevs > 0 && AreExtended(NowsOf(spaces), halos, replicas, pairs, nlevs, locBound, recBound, vs,
                                       H.ViewsOf(halos))
    ensures extended ==> nlevs > 0 && forall r :: 0 <= r < |spaces| ==>
              spaces[r].gnlocs == |S.KeptLocs(src, src.NumLocs())| + NumCompanions(nlevs, all)
    ensures extended ==> AreFinal(src, loaded, listed, NowsOf(spaces), recBound, containers)
  {
    containers, spaces := LoadAndIndex(readers, halos, sorting, src);
    vs, loaded := NowsOf(spaces), containers;
    all := HeldRecords(src, halos, sorting, vs);
    containers, extended, ok, pairs, replicas, locBound, recBound :=
      ExtendAndFill(readers, halos, sorting, nlevs, listed, spaces, containers, src, vs, H.ViewsOf(halos), all);
  }
}
