/**
 The variables of an extended rank: every table by location grows by blank rows, and the listed ones
 are filled at companion locations (extendObsSpace, src/ObsSpace.cc).
 */
module ExtendedContainers {
  import opened Seqs
  import opened ObsSource
  import opened Loader
  import opened Extension
  import opened ExtendedVariables
  import opened WideVariables

  // ----- A table as one row-major vector

  ghost predicate HasWidth(t: Table, width: nat) {
    forall k :: 0 <= k < |t| ==> |t[k]| == width
  }

  lemma {:induction false} FlattenSize(t: Table, width: nat)
    requires HasWidth(t, width)
    ensures |Flatten(t)| == |t| * width
  {
    if t != [] {
      var n := |t| - 1;
      FlattenSize(t[..n], width);
      assert (n + 1) * width == n * width + width;
    }
  }

  lemma {:induction false} FlattenCell(t: Table, width: nat, l: nat, j: nat)
    requires HasWidth(t, width) && l < |t| && j < width
    ensures |Flatten(t)| == |t| * width && CellAt(Flatten(t), |t|, width, l, j) == t[l][j]
  {
    var n := |t| - 1;
    FlattenSize(t, width);
    FlattenSize(t[..n], width);
    if l < n {
      FlattenCell(t[..n], width, l, j);
      CellFits(n, width, l, j);
    }
  }

  /** The rows of a row-major vector. */
  function RowsOf(flat: seq<Cell>, n: nat, width: nat): (t: Table)
    requires |flat| == n * width
    ensures |t| == n && HasWidth(t, width)
    ensures forall l, j :: 0 <= l < n && 0 <= j < width ==> t[l][j] == CellAt(flat, n, width, l, j)
  {
    seq(n, l requires 0 <= l < n => seq(width, j requires 0 <= j < width => CellAt(flat, n, width, l, j)))
  }

  lemma RowsOfFlatten(t: Table, width: nat)
    requires HasWidth(t, width)
    ensures |Flatten(t)| == |t| * width && RowsOf(Flatten(t), |t|, width) == t
  {
    FlattenSize(t, width);
    var rows := RowsOf(Flatten(t), |t|, width);
    forall l | 0 <= l < |t|
      ensures rows[l] == t[l]
    {
      forall j | 0 <= j < width
        ensures rows[l][j] == t[l][j]
      {
        FlattenCell(t, width, l, j);
      }
    }
  }

  lemma FlattenRowsOf(flat: seq<Cell>, n: nat, width: nat)
    requires |flat| == n * width
    ensures Flatten(RowsOf(flat, n, width)) == flat
  {
    var t := RowsOf(flat, n, width);
    FlattenSize(t, width);
    forall p | 0 <= p < |flat|
      ensures Flatten(t)[p] == flat[p]
    {
      var l, j := CellOf(n, width, p);
      FlattenCell(t, width, l, j);
    }
  }

  /** Every position is that of a cell. */
  lemma {:induction false} CellOf(n: nat, width: nat, p: nat) returns (l: nat, j: nat)
    requires p < n * width
    ensures l < n && j < width && p == l * width + j
  {
    if p >= (n - 1) * width {
      l, j := n - 1, p - (n - 1) * width;
    } else {
      l, j := CellOf(n - 1, width, p);
    }
  }

  // ----- One variable

  /** The table of a listed variable once its companions have been filled. */
  ghost function FilledTable(t: Table, width: nat, now: Vectors, recBound: nat): (r: Table)
    requires HasWidth(t, width) && |now.recnums| <= |t| * width && ListsOwn(now.recnums, now.recidx)
    ensures |r| == |t| && HasWidth(r, width)
  {
    FlattenSize(t, width);
    RowsOf(FilledVector(Flatten(t), Mark, now.recnums, now.recidx, recBound), |t|, width)
  }

  /** extendVariable on a table, which is read and written as one vector; the record index stays. */
  method FillTable(t: Table, width: nat, recidx: map<nat, seq<nat>>, recBound: nat, ghost now: Vectors)
      returns (r: Table, index: map<nat, seq<nat>>)
    requires HasWidth(t, width) && |now.recnums| <= |t| * width
    requires recidx == now.recidx && ListsOwn(now.recnums, now.recidx)
    requires forall rec :: rec in recidx && rec < recBound ==> recBound + rec in recidx
    ensures r == FilledTable(t, width, now, recBound) && index == recidx
  {
    FlattenSize(t, width);
    var out;
    out, index := ExtendVariable(Flatten(t), Mark, recidx, recBound, now.recnums);
    IndexStays(Flatten(t), Mark, now.recnums, recidx, recBound, index);
    r := RowsOf(out, |t|, width);
  }

  /** Filling reads positions of original locations and writes positions of companions. */
  lemma FilledFirstValue<T>(v: Vectors, now: Vectors, nlevs: nat, locBound: nat, recBound: nat, vals: seq<T>,
                            missing: T, rec: nat)
    requires IsFillable(v, now, nlevs, locBound, recBound) && |now.recnums| <= |vals| && rec in v.recidx
    ensures rec in now.recidx
    ensures FirstValue(FilledVector(vals, missing, now.recnums, now.recidx, recBound), missing, now.recidx[rec])
            == FirstValue(vals, missing, now.recidx[rec])
  {
    FillableFacts(v, now, nlevs, locBound, recBound);
    var out := FilledVector(vals, missing, now.recnums, now.recidx, recBound);
    forall k | 0 <= k < |now.recidx[rec]|
      ensures out[now.recidx[rec][k]] == vals[now.recidx[rec][k]]
    {
      OtherValue(vals, missing, now.recnums, now.recidx, recBound, now.recidx[rec][k]);
    }
    FirstValueSame(out, vals, missing, now.recidx[rec]);
  }

  /** So a variable that is listed twice ends like one that is listed once. */
  lemma FillingTwice<T>(v: Vectors, now: Vectors, nlevs: nat, locBound: nat, recBound: nat, vals: seq<T>, missing: T)
    requires IsFillable(v, now, nlevs, locBound, recBound) && |now.recnums| <= |vals|
    ensures var once := FilledVector(vals, missing, now.recnums, now.recidx, recBound);
            FilledVector(once, missing, now.recnums, now.recidx, recBound) == once
  {
    var once := FilledVector(vals, missing, now.recnums, now.recidx, recBound);
    var twice := FilledVector(once, missing, now.recnums, now.recidx, recBound);
    forall p | 0 <= p < |vals|
      ensures twice[p] == once[p]
    {
      if twice[p] != once[p] {
        ChangedIsCompanion(v, now, nlevs, locBound, recBound, once, missing, p);
        var rec := now.recnums[p] - recBound;
        FillableFacts(v, now, nlevs, locBound, recBound);
        FilledFirstValue(v, now, nlevs, locBound, recBound, vals, missing, rec);
      }
    }
  }

  lemma FillingTableTwice(v: Vectors, now: Vectors, nlevs: nat, locBound: nat, recBound: nat, t: Table, width: nat)
    requires IsFillable(v, now, nlevs, locBound, recBound) && HasWidth(t, width) && |now.recnums| <= |t| * width
    ensures FilledTable(FilledTable(t, width, now, recBound), width, now, recBound)
            == FilledTable(t, width, now, recBound)
  {
    FlattenSize(t, width);
    FillingTwice(v, now, nlevs, locBound, recBound, Flatten(t), Mark);
    FlattenRowsOf(FilledVector(Flatten(t), Mark, now.recnums, now.recidx, recBound), |t|, width);
  }

  // ----- The container of a rank

  /** A variable that can be filled: it has a value, or several, at each location. */
  ghost predicate IsListable(v: Variable, t: Table) {
    v.dims != [] && v.ByLocation() && v.width >= 1 && HasWidth(t, v.width)
  }

  /** A table by location after resizeLocation. */
  function Sized(v: Variable, t: Table, n: nat): Table
    requires v.dims != []
  {
    if v.ByLocation() then Resize(v, t, n) else t
  }

  lemma SizedFits(v: Variable, t: Table, n: nat)
    requires IsListable(v, t)
    ensures HasWidth(Sized(v, t, n), v.width) && n <= |Sized(v, t, n)| * v.width
  {
    MulMonotone(1, v.width, n);
  }

  /** The table of a variable after the extension of its rank. */
  ghost function FinalTable(v: Variable, t: Table, listed: bool, now: Vectors, recBound: nat): Table
    requires v.dims != [] && (listed ==> IsListable(v, t)) && ListsOwn(now.recnums, now.recidx)
  {
    var sized := Sized(v, t, |now.recnums|);
    if listed then
      SizedFits(v, t, |now.recnums|);
      FilledTable(sized, v.width, now, recBound)
    else sized
  }

  ghost predicate IsFinalAt(src: Source, vars: seq<Table>, listed: seq<nat>, now: Vectors, recBound: nat,
                            out: seq<Table>, u: nat)
    requires ListsOwn(now.recnums, now.recidx)
  {
    && u < |vars| && u < |src.vars| && u < |out| && src.vars[u].dims != []
    && (u in listed ==> IsListable(src.vars[u], vars[u]))
    && out[u] == FinalTable(src.vars[u], vars[u], u in listed, now, recBound)
  }

  /** The container `vars` of a rank after its extension to `now`. */
  ghost predicate IsFinal(src: Source, vars: seq<Table>, listed: seq<nat>, now: Vectors, recBound: nat, out: seq<Table>)
    requires ListsOwn(now.recnums, now.recidx)
  {
    |out| == |vars| && forall u: nat :: u < |vars| ==> IsFinalAt(src, vars, listed, now, recBound, out, u)
  }

  /** One listed variable, which may have been filled before. */
  lemma ListedStep(v: Vectors, now: Vectors, nlevs: nat, locBound: nat, recBound: nat, src: Source, vars: seq<Table>,
                   done: seq<nat>, u: nat, out: seq<Table>, filled: Table)
    requires IsFillable(v, now, nlevs, locBound, recBound) && IsFinal(src, vars, done, now, recBound, out)
    requires u < |vars| == |src.vars| && IsListable(src.vars[u], vars[u])
    requires HasWidth(out[u], src.vars[u].width) && |now.recnums| <= |out[u]| * src.vars[u].width
    requires filled == FilledTable(out[u], src.vars[u].width, now, recBound)
    ensures IsFinal(src, vars, done + [u], now, recBound, out[u := filled])
  {
    SizedFits(src.vars[u], vars[u], |now.recnums|);
    var more, later := done + [u], out[u := filled];
    forall k: nat | k < |vars|
      ensures IsFinalAt(src, vars, more, now, recBound, later, k)
    {
      assert IsFinalAt(src, vars, done, now, recBound, out, k);
      if k == u && u in done {
        FillingTableTwice(v, now, nlevs, locBound, recBound, Sized(src.vars[u], vars[u], |now.recnums|),
                          src.vars[u].width);
      }
    }
  }

  /** The table of a variable that is going to be filled. */
  lemma ReadyToFill(src: Source, vars: seq<Table>, done: seq<nat>, now: Vectors, recBound: nat, out: seq<Table>, u: nat)
    requires ListsOwn(now.recnums, now.recidx) && IsFinal(src, vars, done, now, recBound, out)
    requires u < |vars| == |src.vars| && IsListable(src.vars[u], vars[u])
    ensures HasWidth(out[u], src.vars[u].width) && |now.recnums| <= |out[u]| * src.vars[u].width
  {
    assert IsFinalAt(src, vars, done, now, recBound, out, u);
    SizedFits(src.vars[u], vars[u], |now.recnums|);
  }

  method ExtendContainer(src: Source, vars: seq<Table>, listed: seq<nat>, recidx: map<nat, seq<nat>>,
                         numExtendedLocs: nat, recBound: nat, ghost v: Vectors, ghost now: Vectors, ghost nlevs: nat,
                         ghost locBound: nat)
      returns (out: seq<Table>, index: map<nat, seq<nat>>)
    requires |vars| == |src.vars| && src.HasVariables() && IsFillable(v, now, nlevs, locBound, recBound)
    requires forall i :: 0 <= i < |listed| ==> listed[i] < |vars| && IsListable(src.vars[listed[i]], vars[listed[i]])
    requires recidx == now.recidx && numExtendedLocs == |now.recnums|
    ensures IsFinal(src, vars, listed, now, recBound, out) && index == recidx
  {
    var resized, _ := ResizeLocation(src, vars, 0, numExtendedLocs, false);
    out, index := resized, recidx;
    forall u: nat | u < |vars|
      ensures IsFinalAt(src, vars, [], now, recBound, out, u)
    {
      assert src.IsShaped(src.vars[u]);
    }
    ExtensionIsReady(v, now, nlevs, locBound, recBound);
    for i := 0 to |listed|
      invariant IsFinal(src, vars, listed[..i], now, recBound, out) && index == recidx
    {
      var u := listed[i];
      ReadyToFill(src, vars, listed[..i], now, recBound, out, u);
      var filled;
      filled, index := FillTable(out[u], src.vars[u].width, index, recBound, now);
      ListedStep(v, now, nlevs, locBound, recBound, src, vars, listed[..i], u, out, filled);
      assert listed[..i + 1] == listed[..i] + [u];
      out := out[u := filled];
    }
    assert listed[..|listed|] == listed;
  }

  // ----- What the final rows are

  lemma SizedContent(v: Variable, t: Table, now: Vectors)
    requires IsListable(v, t) && |t| <= |now.recnums|
    ensures IsContent(Flatten(Sized(v, t, |now.recnums|)), Mark, now, |t|, v.width)
  {
    var sized, n := Sized(v, t, |now.recnums|), |now.recnums|;
    SizedFits(v, t, n);
    FlattenSize(sized, v.width);
    forall p | |t| * v.width <= p < n * v.width
      ensures Flatten(sized)[p] == Mark
    {
      var l, j := CellOf(n, v.width, p);
      if l < |t| {
        CellFits(|t|, v.width, l, j);
      }
      FlattenCell(sized, v.width, l, j);
    }
  }

  lemma KeptCell<T>(flat: seq<T>, out: seq<T>, numOriginal: nat, n: nat, width: nat, k: nat, j: nat)
    requires KeepsOriginals(flat, out, numOriginal, width) && |flat| == n * width && k < numOriginal <= n && j < width
    ensures CellAt(out, n, width, k, j) == CellAt(flat, n, width, k, j)
  {
    CellFits(numOriginal, width, k, j);
    CellFits(n, width, k, j);
  }

  lemma ListedOriginalCell(x: Variable, t: Table, v: Vectors, now: Vectors, nlevs: nat, locBound: nat, recBound: nat,
                           k: nat, j: nat)
    requires IsFillable(v, now, nlevs, locBound, recBound) && |t| == |v.recnums| && k < |t| && IsListable(x, t)
    requires x.width == 1 || FillsBeyond(v, now, recBound, x.width)
    requires |t| <= |now.recnums| && j < x.width
    ensures FinalTable(x, t, true, now, recBound)[k][j] == t[k][j]
  {
    var sized, n := Sized(x, t, |now.recnums|), |now.recnums|;
    SizedFits(x, t, n);
    SizedContent(x, t, now);
    FlattenCell(sized, x.width, k, j);
    KeptThere(v, now, nlevs, locBound, recBound, x.width, Flatten(sized), Mark);
    var filled := FilledVector(Flatten(sized), Mark, now.recnums, now.recidx, recBound);
    KeptCell(Flatten(sized), filled, |t|, n, x.width, k, j);
  }

  /**
   The rows of original locations stay, also those of a listed variable if it has one value per
   location or its companions are numbered beyond its original values.
   */
  lemma OriginalRowStays(x: Variable, t: Table, listed: bool, v: Vectors, now: Vectors, nlevs: nat, locBound: nat,
                         recBound: nat, k: nat)
    requires IsFillable(v, now, nlevs, locBound, recBound) && |t| == |v.recnums| && k < |t|
    requires x.dims != [] && x.ByLocation() && (listed ==> IsListable(x, t))
    requires listed ==> x.width == 1 || FillsBeyond(v, now, recBound, x.width)
    ensures k < |FinalTable(x, t, listed, now, recBound)| && FinalTable(x, t, listed, now, recBound)[k] == t[k]
  {
    FillableFacts(v, now, nlevs, locBound, recBound);
    if listed {
      var out := FinalTable(x, t, listed, now, recBound);
      SizedFits(x, t, |now.recnums|);
      forall j | 0 <= j < x.width
        ensures out[k][j] == t[k][j]
      {
        ListedOriginalCell(x, t, v, now, nlevs, locBound, recBound, k, j);
      }
    }
  }

  /** The final row of an original location is the normalised source row. */
  lemma FinalOriginalRow(src: Source, vars: seq<Table>, listed: seq<nat>, v: Vectors, now: Vectors, nlevs: nat,
                         locBound: nat, recBound: nat, out: seq<Table>, u: nat, k: nat)
    requires IsFillable(v, now, nlevs, locBound, recBound) && IsFinal(src, vars, listed, now, recBound, out)
    requires src.HasVariables() && IsLoaded(src, vars, v.indx) && |v.indx| == |v.recnums|
    requires u < |vars| && src.vars[u].dims != [] && src.vars[u].ByLocation() && k < |v.indx|
    requires u in listed ==> src.vars[u].width == 1 || FillsBeyond(v, now, recBound, src.vars[u].width)
    ensures k < |out[u]| && v.indx[k] < |src.vars[u].rows|
    ensures out[u][k] == NormaliseRow(src.vars[u].fill, src.vars[u].rows[v.indx[k]])
  {
    assert IsFinalAt(src, vars, listed, now, recBound, out, u);
    OriginalRowStays(src.vars[u], vars[u], u in listed, v, now, nlevs, locBound, recBound, k);
  }

  /** The same cell by cell, without the words of the loader. */
  lemma FinalOriginalCell(src: Source, vars: seq<Table>, listed: seq<nat>, v: Vectors, now: Vectors, nlevs: nat,
                          locBound: nat, recBound: nat, out: seq<Table>, u: nat, k: nat, i: nat)
    requires IsFillable(v, now, nlevs, locBound, recBound) && IsFinal(src, vars, listed, now, recBound, out)
    requires src.HasVariables() && IsLoaded(src, vars, v.indx) && |v.indx| == |v.recnums|
    requires u < |vars| && src.vars[u].dims != [] && src.vars[u].ByLocation() && k < |v.indx|
    requires u in listed ==> src.vars[u].width == 1 || FillsBeyond(v, now, recBound, src.vars[u].width)
    requires v.indx[k] < |src.vars[u].rows| && i < |src.vars[u].rows[v.indx[k]]|
    ensures k < |out[u]| && |out[u][k]| == |src.vars[u].rows[v.indx[k]]|
    ensures var cell, fill := src.vars[u].rows[v.indx[k]][i], src.vars[u].fill;
            out[u][k][i]
            == if fill != NoFill && (cell == fill.cell || cell == Infinity || cell == NotANumber) then Mark else cell
  {
    FinalOriginalRow(src, vars, listed, v, now, nlevs, locBound, recBound, out, u, k);
    LoadedCell(src, vars, v.indx, u, k, i);
  }

  /** The rows of companion locations of an unlisted variable are blank. */
  lemma UnlistedCompanionIsBlank(x: Variable, t: Table, now: Vectors, recBound: nat, k: nat)
    requires x.dims != [] && x.ByLocation() && ListsOwn(now.recnums, now.recidx) && |t| <= k < |now.recnums|
    ensures k < |FinalTable(x, t, false, now, recBound)|
    ensures |FinalTable(x, t, false, now, recBound)[k]| == x.width
    ensures forall i :: 0 <= i < x.width ==> FinalTable(x, t, false, now, recBound)[k][i] == Mark
  {
  }

  /** The first value of each row. */
  function FirstCells(t: Table): (cells: seq<Cell>)
    requires HasWidth(t, 1)
    ensures |cells| == |t| && forall k :: 0 <= k < |t| ==> cells[k] == t[k][0]
  {
    seq(|t|, k requires 0 <= k < |t| => t[k][0])
  }

  /**
   With one value per location, the companion rows of a listed variable hold the first value of their
   record, if it has an entry, and are blank otherwise.
   */
  lemma ListedCompanionRow(x: Variable, t: Table, v: Vectors, now: Vectors, nlevs: nat, locBound: nat, recBound: nat,
                           rec: nat, k: nat)
    requires IsFillable(v, now, nlevs, locBound, recBound) && |t| == |v.recnums| && IsListable(x, t) && x.width == 1
    requires k < |now.recnums| && now.recnums[k] == recBound + rec
    ensures k < |FinalTable(x, t, true, now, recBound)|
    ensures rec in v.recidx ==> (forall i :: 0 <= i < |v.recidx[rec]| ==> v.recidx[rec][i] < |t|)
    ensures FinalTable(x, t, true, now, recBound)[k]
            == if rec in v.recidx then [FirstValue(FirstCells(t), Mark, v.recidx[rec])] else BlankRow(x)
  {
    FillableFacts(v, now, nlevs, locBound, recBound);
    var sized := Sized(x, t, |now.recnums|);
    SizedFits(x, t, |now.recnums|);
    FlattenOfOne(sized);
    FilledOfOne(sized, now, recBound, k);
    if rec in v.recidx {
      FirstValueSame(FirstCells(sized), FirstCells(t), Mark, v.recidx[rec]);
    }
    CompanionCell(v, now, nlevs, locBound, recBound, FirstCells(sized), Mark, rec, k);
  }

  /** The position of a companion that was missing. */
  lemma CompanionCell<T>(v: Vectors, now: Vectors, nlevs: nat, locBound: nat, recBound: nat, vals: seq<T>, missing: T,
                         rec: nat, k: nat)
    requires IsFillable(v, now, nlevs, locBound, recBound) && |now.recnums| <= |vals|
    requires k < |now.recnums| && now.recnums[k] == recBound + rec && vals[k] == missing
    ensures rec in v.recidx ==> rec in now.recidx && now.recidx[rec] == v.recidx[rec]
    ensures FilledVector(vals, missing, now.recnums, now.recidx, recBound)[k]
            == if rec in v.recidx then FirstValue(vals, missing, now.recidx[rec]) else missing
  {
    FillableFacts(v, now, nlevs, locBound, recBound);
    if rec in v.recidx {
      CompanionEntry(v, now, nlevs, locBound, recBound, rec, k);
      CompanionValue(vals, missing, now.recnums, now.recidx, recBound, rec, k);
    } else {
      OtherValue(vals, missing, now.recnums, now.recidx, recBound, k);
    }
  }

  lemma FilledOfOne(t: Table, now: Vectors, recBound: nat, k: nat)
    requires HasWidth(t, 1) && |now.recnums| <= |t| && ListsOwn(now.recnums, now.recidx) && k < |t|
    ensures FilledTable(t, 1, now, recBound)[k]
            == [FilledVector(FirstCells(t), Mark, now.recnums, now.recidx, recBound)[k]]
  {
    FlattenOfOne(t);
    var filled := FilledVector(FirstCells(t), Mark, now.recnums, now.recidx, recBound);
    assert CellAt(filled, |t|, 1, k, 0) == filled[k];
  }

  lemma {:induction false} FlattenOfOne(t: Table)
    requires HasWidth(t, 1)
    ensures Flatten(t) == FirstCells(t)
  {
    FlattenSize(t, 1);
    forall k | 0 <= k < |t|
      ensures Flatten(t)[k] == t[k][0]
    {
      FlattenCell(t, 1, k, 0);
    }
  }
}
