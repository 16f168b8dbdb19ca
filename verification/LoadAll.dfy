/** Loading one source on all ranks of a Halo: the reader, the loader and the distribution together. */
module LoadAll {
  import opened Seqs
  import opened Contract
  import opened Streams
  import opened HaloDistribution
  import opened ObsSource
  import opened Distributions
  import opened FrameReader
  import opened Loader

  /** A rank that has not read anything yet. Ranks may read with different frame sizes. */
  ghost predicate IsFresh(src: Source, reader: ObsFrameRead, halo: Halo)
    reads reader, halo
  {
    && reader.src == src && reader.dist == HaloDist(halo) && reader.IsNew() && reader.maxFrameSize >= 1
    && (forall d :: d in src.dimSizes ==> src.dimSizes[d] <= reader.maxVarSize)
    && halo.Assigning() && halo.stream == []
  }

  /** Everything that is fed to the distribution on every rank. */
  ghost function WholeStream(src: Source): seq<Obs>
    requires src.Valid()
  {
    StreamOf(src, KeptLocs(src, src.NumLocs()))
  }

  /** What a reader must know when it is done. */
  ghost function WholePass(src: Source, d: Rule): Progress
    requires src.Valid()
  {
    OnePass(src, d, src.NumLocs())
  }

  /** A rank that has read everything: its reader, the stream of its distribution and its container. */
  ghost predicate HasLoaded(src: Source, reader: ObsFrameRead, halo: Halo, vars: seq<Table>)
    requires src.Valid() && src.HasVariables()
    reads reader, halo
  {
    forall p :: p == WholePass(src, halo.MyRule()) ==> HasLoadedAs(src, reader, halo, vars, p)
  }

  ghost predicate HasLoadedAs(src: Source, reader: ObsFrameRead, halo: Halo, vars: seq<Table>, p: Progress)
    requires src.Valid() && src.HasVariables()
    reads reader, halo
  {
    HoldsRows(src, reader, vars, p) && reader.patchCalls == 1 && halo.Assigning() && halo.stream == WholeStream(src)
  }

  /** The reader is where a single pass ends, and the container has the rows of the held locations. */
  ghost predicate HoldsRows(src: Source, reader: ObsFrameRead, vars: seq<Table>, p: Progress)
    requires src.Valid() && src.HasVariables()
    reads reader
  {
    reader.MyProgress() == p && IsLoaded(src, vars, p.indx)
  }

  method LoadRank(reader: ObsFrameRead, halo: Halo, ghost src: Source) returns (vars: seq<Table>)
    requires src.Valid() && src.HasVariables() && IsFresh(src, reader, halo)
    modifies reader, halo
    ensures HasLoaded(src, reader, halo, vars)
  {
    vars := InitFromObsSource(reader);
    assert HasLoadedAs(src, reader, halo, vars, WholePass(src, halo.MyRule()));
  }

  method LoadRanks(readers: seq<ObsFrameRead>, halos: seq<Halo>, ghost src: Source)
      returns (containers: seq<seq<Table>>)
    requires src.Valid() && src.HasVariables() && |readers| == |halos|
    requires forall r, q :: 0 <= r < q < |readers| ==> readers[r] != readers[q] && halos[r] != halos[q]
    requires forall r :: 0 <= r < |readers| ==> IsFresh(src, readers[r], halos[r])
    modifies readers, halos
    ensures |containers| == |readers|
    ensures forall r :: 0 <= r < |readers| ==> HasLoaded(src, readers[r], halos[r], containers[r])
  {
    containers := [];
    for r := 0 to |readers|
      invariant |containers| == r && forall q :: 0 <= q < r ==> HasLoaded(src, readers[q], halos[q], containers[q])
      invariant forall q :: r <= q < |readers| ==> unchanged(readers[q]) && unchanged(halos[q])
    {
      assert forall q :: 0 <= q < |readers| && q != r ==> readers[q] != readers[r] && halos[q] != halos[r];
      var vars := LoadRank(readers[r], halos[r], src);
      assert forall q :: 0 <= q < r ==> HasLoaded(src, readers[q], halos[q], containers[q]);
      containers := containers + [vars];
    }
  }

  /** A whole pass in terms of the stream. */
  lemma WholePassHolds(src: Source, d: Rule)
    requires src.Valid()
    ensures WholePass(src, d).indx == Locs(Kept(d, WholeStream(src)))
    ensures WholePass(src, d).recnums == Recs(Kept(d, WholeStream(src)))
    ensures WholePass(src, d).nlocs == |WholePass(src, d).indx| == |WholePass(src, d).recnums|
    ensures WholePass(src, d).nrecs == |Elements(WholePass(src, d).recnums)|
    ensures WholePass(src, d).gnlocs == |KeptLocs(src, src.NumLocs())| == |PassingLocs(src, src.NumLocs())|
  {
    OnePassIsClosed(src, d, src.NumLocs());
    KeptLocsCount(src, src.NumLocs());
  }

  /** Location `f` is the first of the record of `l` among the locations that pass the checks. */
  ghost predicate IsFirstOf(src: Source, f: nat, l: nat)
    requires src.Valid() && l < src.NumLocs()
  {
    var passing := PassingLocs(src, src.NumLocs());
    f in passing && SameGroup(src, f, l) && forall e :: e in passing && SameGroup(src, e, l) ==> f <= e
  }

  /** The stream `s` has exactly the locations `passing`, in ascending order. */
  ghost predicate ListsLocs(s: seq<Obs>, passing: set<nat>) {
    && (forall j :: 0 <= j < |s| ==> s[j].loc in passing)
    && (forall e :: e in passing ==> exists j :: 0 <= j < |s| && s[j].loc == e)
    && (forall i, j :: 0 <= i < j < |s| ==> s[i].loc < s[j].loc)
  }

  lemma AscendingLists(s: seq<Obs>, locs: seq<nat>, passing: set<nat>)
    requires Locs(s) == locs && Ascending(locs) && passing == Elements(locs)
    ensures ListsLocs(s, passing)
  {
    assert forall j :: 0 <= j < |s| ==> s[j].loc == locs[j];
  }

  lemma StreamListsPassing(src: Source)
    requires src.Valid()
    ensures ListsLocs(WholeStream(src), PassingLocs(src, src.NumLocs()))
  {
    var locs := KeptLocs(src, src.NumLocs());
    KeptLocsMember(src, src.NumLocs());
    StreamIsAscending(src, locs);
    assert PassingLocs(src, src.NumLocs()) == Elements(locs);
    AscendingLists(WholeStream(src), locs, PassingLocs(src, src.NumLocs()));
  }

  lemma SharesRecord(src: Source, j: nat, k: nat)
    requires src.Valid() && j < |WholeStream(src)| && k < |WholeStream(src)|
    ensures var s := WholeStream(src);
            && s[j].loc < src.NumLocs() && s[k].loc < src.NumLocs()
            && (s[j].rec == s[k].rec <==> SameGroup(src, s[j].loc, s[k].loc))
  {
    KeptLocsMember(src, src.NumLocs());
    SameRecordSameGroup(src, KeptLocs(src, src.NumLocs()), j, k);
  }

  lemma FirstOfRecord(src: Source, i: nat, k: nat)
    requires src.Valid() && i < |WholeStream(src)| && k < |WholeStream(src)|
    requires WholeStream(src)[i].rec == WholeStream(src)[k].rec
    requires forall j :: 0 <= j < i ==> WholeStream(src)[j].rec != WholeStream(src)[k].rec
    ensures WholeStream(src)[k].loc < src.NumLocs()
    ensures IsFirstOf(src, WholeStream(src)[i].loc, WholeStream(src)[k].loc)
  {
    var s := WholeStream(src);
    StreamListsPassing(src);
    SharesRecord(src, i, k);
    forall e | e in PassingLocs(src, src.NumLocs()) && SameGroup(src, e, s[k].loc)
      ensures s[i].loc <= e
    {
      var j :| 0 <= j < |s| && s[j].loc == e;
      SharesRecord(src, j, k);
    }
  }

  /**
   What a rank of a Halo holds, in terms of the source alone: the locations that pass the checks and
   whose record has its first passing location within the radius.
   */
  lemma HoldsExactly(src: Source, d: Rule, l: nat)
    requires src.Valid() && d.InHalo?
    ensures l in WholePass(src, d).indx <==>
            && l in PassingLocs(src, src.NumLocs())
            && exists f: nat :: IsFirstOf(src, f, l) && (d.distance)(Point2(src.lons[f], src.lats[f])) <= d.radius
  {
    StreamListsPassing(src);
    WholePassHolds(src, d);
    if l in PassingLocs(src, src.NumLocs()) {
      var k := KeptAt(d, WholeStream(src), PassingLocs(src, src.NumLocs()), l);
      HeldByFirst(src, d, k);
    } else {
      LocIsKept(d, WholeStream(src), l);
    }
  }

  lemma KeptAt(d: Rule, s: seq<Obs>, passing: set<nat>, l: nat) returns (k: nat)
    requires ListsLocs(s, passing) && l in passing
    ensures k < |s| && s[k].loc == l && (l in Locs(Kept(d, s)) <==> s[k].rec in MyRecords(d, s))
  {
    k :| 0 <= k < |s| && s[k].loc == l;
    LocIsKept(d, s, l);
  }

  lemma HeldByFirst(src: Source, d: Rule, k: nat)
    requires src.Valid() && d.InHalo? && k < |WholeStream(src)|
    ensures var s := WholeStream(src);
            s[k].loc < src.NumLocs() &&
            (s[k].rec in MyRecords(d, s) <==>
             exists f: nat :: IsFirstOf(src, f, s[k].loc) && (d.distance)(Point2(src.lons[f], src.lats[f])) <= d.radius)
  {
    var locs, s := KeptLocs(src, src.NumLocs()), WholeStream(src);
    assert Appears(s, s[k].rec);
    InMyRecords(d, s, s[k].rec);
    var i := FirstIndex(s, s[k].rec);
    FirstOfRecord(src, i, k);
    StreamElement(src, locs, i);
    forall f: nat | IsFirstOf(src, f, s[k].loc)
      ensures f == s[i].loc
    {
    }
  }

  /** One rank of a loaded Halo. */
  ghost predicate IsOnRank(src: Source, reader: ObsFrameRead, halo: Halo, vars: seq<Table>, view: View)
    requires src.Valid() && src.HasVariables()
    reads reader, halo
  {
    && HoldsRows(src, reader, vars, WholePass(src, halo.MyRule()))
    && reader.patchCalls == 1 && view.locs == reader.indx && |halo.patchObsBool| == |view.patch| == reader.nlocs
  }

  lemma RankIsLoaded(src: Source, reader: ObsFrameRead, halo: Halo, vars: seq<Table>)
    requires src.Valid() && src.HasVariables() && HoldsRows(src, reader, vars, WholePass(src, halo.MyRule()))
    requires reader.patchCalls == 1 && halo.stream == WholeStream(src) && |halo.MyView().patch| == |halo.MyView().locs|
    ensures IsOnRank(src, reader, halo, vars, halo.MyView())
  {
    WholePassHolds(src, halo.MyRule());
  }

  lemma RanksAreLoaded(src: Source, readers: seq<ObsFrameRead>, halos: seq<Halo>, containers: seq<seq<Table>>,
                       w: seq<View>)
    requires src.Valid() && src.HasVariables() && |readers| == |halos| == |containers|
    requires IsPatched(halos, WholeStream(src), w) && |w| == |halos|
    requires forall r :: 0 <= r < |halos| ==>
               HoldsRows(src, readers[r], containers[r], WholePass(src, halos[r].MyRule()))
               && readers[r].patchCalls == 1
    ensures forall r :: 0 <= r < |halos| ==> IsOnRank(src, readers[r], halos[r], containers[r], w[r])
  {
    forall r | 0 <= r < |halos|
      ensures IsOnRank(src, readers[r], halos[r], containers[r], w[r])
    {
      PatchedAt(halos, WholeStream(src), w, r);
      RankIsLoaded(src, readers[r], halos[r], containers[r]);
    }
  }

  /**
   Main result: after all ranks have loaded, whatever their frame sizes, and have computed their
   patches, the Halo meets the contract of a distribution, with the nearest rank as the owner of each
   record. Each reader is where a single pass over the source ends, the records a Halo answers for are
   those of the stream that lie within its radius, and the container of each rank has the rows of
   exactly the locations that the rank holds.
   */
  method LoadOverHalo(readers: seq<ObsFrameRead>, halos: seq<Halo>, ghost src: Source)
      returns (containers: seq<seq<Table>>)
    requires src.Valid() && src.HasVariables() && |readers| == |halos| && IsCommunicator(halos)
    requires forall r, q :: 0 <= r < q < |readers| ==> readers[r] != readers[q] && halos[r] != halos[q]
    requires forall r :: 0 <= r < |readers| ==> IsFresh(src, readers[r], halos[r])
    modifies readers, halos
    ensures IsPatched(halos, WholeStream(src), ViewsOf(halos)) && AscendingStream(WholeStream(src))
    ensures |containers| == |halos|
    ensures forall r :: 0 <= r < |halos| ==> IsOnRank(src, readers[r], halos[r], containers[r], ViewsOf(halos)[r])
  {
    containers := LoadRanks(readers, halos, src);
    ghost var s := WholeStream(src);
    KeptLocsMember(src, src.NumLocs());
    StreamIsAscending(src, KeptLocs(src, src.NumLocs()));
    forall r | 0 <= r < |halos|
      ensures HoldsRows(src, readers[r], containers[r], WholePass(src, halos[r].MyRule())) && readers[r].patchCalls == 1
      ensures halos[r].Assigning() && halos[r].stream == s
    {
      assert HasLoadedAs(src, readers[r], halos[r], containers[r], WholePass(src, halos[r].MyRule()));
    }
    ComputePatchLocs(halos, s);
    RanksAreLoaded(src, readers, halos, containers, ViewsOf(halos));
  }
}
