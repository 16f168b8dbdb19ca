/**
 Copying the frames into the container (initFromObsSource, resizeLocation, readObsSource and
 storeVar of src/ObsSpace.cc, readFrameVarHelper of src/io/ObsFrameRead.h).
 */
module Selections {
  import opened Seqs
  import opened ObsSource

  /** A selection of part of a variable or buffer with the given extent. */
  datatype Selection =
    | Range(extent: seq<nat>, start: nat, count: nat)
    | Indices(extent: seq<nat>, indices: seq<nat>)

  /** The product of the sizes of all dimensions after the first. */
  function Trailing(shape: seq<nat>): nat {
    if |shape| <= 1 then 1 else Trailing(shape[..|shape| - 1]) * shape[|shape| - 1]
  }

  /** The memory buffer for `count` rows of a variable of the given shape. */
  function MemSelection(shape: seq<nat>, count: nat): Selection {
    Range([count * Trailing(shape)], 0, count * Trailing(shape))
  }

  function EntireFrameSelection(shape: seq<nat>, count: nat): Selection {
    Range(if shape == [] then [] else shape[0 := count], 0, count)
  }

  predicate Selects(n: nat, sel: Selection) {
    match sel
    case Range(_, start, count) => start + count <= n
    case Indices(_, indices) => forall k :: 0 <= k < |indices| ==> indices[k] < n
  }

  function SelectRows<T>(rows: seq<T>, sel: Selection): seq<T>
    requires Selects(|rows|, sel)
  {
    match sel
    case Range(_, start, count) => rows[start..start + count]
    case Indices(_, indices) => seq(|indices|, k requires 0 <= k < |indices| => rows[indices[k]])
  }

  /** The current frame: where it starts, how large it can be, and which of its locations are held. */
  datatype Frame = Frame(start: nat, size: nat, dimSizes: map<string, nat>, locIndex: seq<nat>, adjustedStart: nat) {
    /** How much of a first dimension of size `n` the frame covers. */
    function BasicCount(n: nat): nat {
      Min(start + size, n) - Min(start, n)
    }

    predicate Knows(dims: seq<string>) {
      dims != [] && dims[0] in dimSizes
    }

    /** frameCount for a variable with these dimensions. */
    function Count(dims: seq<string>): nat
      requires Knows(dims)
    {
      if dims[0] == "Location" then |locIndex| else BasicCount(dimSizes[dims[0]])
    }

    /** The size of a dimension in the frame: cropped to the frame, except for channels. */
    function Dim(d: string): nat {
      if d !in dimSizes then 0
      else if d == "Location" then BasicCount(dimSizes[d])
      else if d == "Channel" then dimSizes[d]
      else Min(dimSizes[d], size)
    }

    function Shape(dims: seq<string>): (shape: seq<nat>)
      ensures |shape| == |dims|
    {
      seq(|dims|, i requires 0 <= i < |dims| => Dim(dims[i]))
    }

    /** The selections that would be built for a variable with these dimensions. */
    function FreshMem(dims: seq<string>): Selection
      requires Knows(dims)
    {
      MemSelection(Shape(dims), Count(dims))
    }

    function FreshFrame(dims: seq<string>): Selection
      requires Knows(dims)
    {
      if dims[0] == "Location" then Indices(Shape(dims), locIndex) else EntireFrameSelection(Shape(dims), Count(dims))
    }

    /** The shape of a variable in the container, resized to hold this frame. */
    function ContainerShape(dims: seq<string>): (shape: seq<nat>)
      ensures |shape| == |dims|
    {
      seq(|dims|, i requires 0 <= i < |dims| =>
        if dims[i] == "Location" then adjustedStart + |locIndex|
        else if dims[i] in dimSizes then dimSizes[dims[i]] else 0)
    }

    /** Where in the container the rows of a variable with these dimensions start. */
    function TargetStart(dims: seq<string>): nat
      requires dims != []
    {
      if dims[0] == "Location" then adjustedStart else start
    }

    /** The selections for storing a variable: the whole buffer, and the place it goes to. */
    function FreshSource(dims: seq<string>): Selection
      requires Knows(dims)
    {
      MemSelection(ContainerShape(dims), Count(dims))
    }

    function FreshTarget(dims: seq<string>): Selection
      requires Knows(dims)
    {
      Range(ContainerShape(dims), TargetStart(dims), Count(dims))
    }

    /** The rows of a variable that the frame contains. */
    function Rows<T>(rows: seq<T>): seq<T> {
      rows[Min(start, |rows|)..Min(start + size, |rows|)]
    }

    /** The held locations lie in the frame. */
    predicate IsWithin(n: nat) {
      forall k :: 0 <= k < |locIndex| ==> locIndex[k] < BasicCount(n)
    }

    predicate Fits(v: Variable) {
      Knows(v.dims) && |v.rows| == dimSizes[v.dims[0]] && (v.ByLocation() ==> IsWithin(|v.rows|))
    }
  }

  /** The rows of the frame held on this rank, or all of them if they are not by location. */
  function WantedRows(f: Frame, v: Variable): seq<seq<Cell>>
    requires f.Fits(v)
  {
    if v.ByLocation() then seq(|f.locIndex|, k requires 0 <= k < |f.locIndex| => f.Rows(v.rows)[f.locIndex[k]])
    else f.Rows(v.rows)
  }

  /** Reading through the fresh selection gives the wanted rows. */
  lemma FreshSelectionReads(f: Frame, v: Variable)
    requires f.Fits(v)
    ensures Selects(|f.Rows(v.rows)|, f.FreshFrame(v.dims))
    ensures SelectRows(f.Rows(v.rows), f.FreshFrame(v.dims)) == WantedRows(f, v)
    ensures |WantedRows(f, v)| == f.Count(v.dims)
  {
  }

  /** The product of all sizes. */
  ghost function Product(shape: seq<nat>): nat {
    if shape == [] then 1 else shape[0] * Product(shape[1..])
  }

  lemma {:induction false} ProductSnoc(shape: seq<nat>, last: nat)
    ensures Product(shape + [last]) == Product(shape) * last
  {
    if shape == [] {
      assert shape + [last] == [last] && [last][1..] == [];
    } else {
      assert (shape + [last])[1..] == shape[1..] + [last];
      ProductSnoc(shape[1..], last);
      assert shape[0] * (Product(shape[1..]) * last) == shape[0] * Product(shape[1..]) * last;
    }
  }

  lemma {:induction false} TrailingIsProduct(shape: seq<nat>, count: nat)
    requires shape != []
    ensures count * Trailing(shape) == Product(shape[0 := count])
  {
    var n := |shape| - 1;
    if n == 0 {
      assert shape[0 := count] == [] + [count];
      ProductSnoc([], count);
    } else {
      TrailingIsProduct(shape[..n], count);
      assert shape[0 := count] == shape[..n][0 := count] + [shape[n]];
      ProductSnoc(shape[..n][0 := count], shape[n]);
      assert count * (Trailing(shape[..n]) * shape[n]) == count * Trailing(shape[..n]) * shape[n];
    }
  }

  /**
   The selections of a frame, written out: the buffer has as many elements as the selected block, whose
   other dimensions are cropped to the frame, except for channels, and not cropped in the container.
   */
  lemma SelectionShapes(f: Frame, dims: seq<string>)
    requires f.Knows(dims) && forall i :: 0 <= i < |dims| ==> dims[i] in f.dimSizes
    ensures var n := Product(f.Shape(dims)[0 := f.Count(dims)]); f.FreshMem(dims) == Range([n], 0, n)
    ensures var n := Product(f.ContainerShape(dims)[0 := f.Count(dims)]); f.FreshSource(dims) == Range([n], 0, n)
    ensures forall i :: 0 < i < |dims| && dims[i] != "Location" ==>
              && f.Shape(dims)[i] <= f.dimSizes[dims[i]] == f.ContainerShape(dims)[i]
              && (dims[i] == "Channel" ==> f.Shape(dims)[i] == f.dimSizes[dims[i]])
              && (dims[i] != "Channel" ==>
                    f.Shape(dims)[i] == if f.size < f.dimSizes[dims[i]] then f.size else f.dimSizes[dims[i]])
    ensures dims[0] == "Location" ==> f.ContainerShape(dims)[0] == f.adjustedStart + |f.locIndex|
    ensures f.Count(dims) == if dims[0] == "Location" then |f.locIndex|
                             else if f.start + f.size <= f.dimSizes[dims[0]] then f.size
                             else if f.start <= f.dimSizes[dims[0]] then f.dimSizes[dims[0]] - f.start else 0
  {
    TrailingIsProduct(f.Shape(dims), f.Count(dims));
    TrailingIsProduct(f.ContainerShape(dims), f.Count(dims));
  }

  /** The caches of the reader and of the container, keyed by the attached dimensions. */
  class SelectionCaches {
    var knownMem: map<seq<string>, Selection>
    var knownFrame: map<seq<string>, Selection>
    var knownSource: map<seq<string>, Selection>
    var knownTarget: map<seq<string>, Selection>

    /** Every cached selection is the one that would be built for the frame `f`. */
    ghost predicate FreshFor(f: Frame)
      reads this
    {
      && knownMem.Keys == knownFrame.Keys
      && (forall dims :: dims in knownMem ==>
            f.Knows(dims) && knownMem[dims] == f.FreshMem(dims) && knownFrame[dims] == f.FreshFrame(dims))
      && knownSource.Keys == knownTarget.Keys
      && (forall dims :: dims in knownSource ==>
            f.Knows(dims) && knownSource[dims] == f.FreshSource(dims) && knownTarget[dims] == f.FreshTarget(dims))
    }

    constructor ()
    {
      knownMem, knownFrame, knownSource, knownTarget := map[], map[], map[], map[];
    }

    /** At the start of a frame: no selection survives from an earlier one. */
    method Clear(ghost f: Frame)
      modifies this
      ensures FreshFor(f)
    {
      knownMem, knownFrame := map[], map[];
      knownSource, knownTarget := map[], map[];
    }

    /** Reads a variable of the frame; false if there is nothing to read. */
    method ReadFrameVar(f: Frame, v: Variable) returns (available: bool, memSelect: Selection, rows: seq<seq<Cell>>)
      requires f.Fits(v) && FreshFor(f)
      modifies this`knownMem, this`knownFrame
      ensures FreshFor(f)
      ensures available <==> f.Count(v.dims) > 0
      ensures available ==> memSelect == f.FreshMem(v.dims) && rows == WantedRows(f, v)
    {
      FreshSelectionReads(f, v);
      memSelect, rows := Range([0], 0, 0), [];
      var frameCount := f.Count(v.dims);
      if frameCount == 0 {
        return false, memSelect, rows;
      }
      var dims := v.dims;
      if dims !in knownMem {
        knownMem := knownMem[dims := MemSelection(f.Shape(dims), frameCount)];
        if v.ByLocation() {
          knownFrame := knownFrame[dims := Indices(f.Shape(dims), f.locIndex)];
        } else {
          knownFrame := knownFrame[dims := EntireFrameSelection(f.Shape(dims), frameCount)];
        }
      }
      memSelect := knownMem[dims];
      rows := SelectRows(f.Rows(v.rows), knownFrame[dims]);
      return true, memSelect, rows;
    }

    /** Where `frameCount` rows of a variable go, from `frameStart` on. */
    method StoreSelections(f: Frame, dims: seq<string>, frameStart: nat, frameCount: nat)
        returns (source: Selection, target: Selection)
      requires f.Knows(dims) && FreshFor(f)
      requires frameStart == f.TargetStart(dims) && frameCount == f.Count(dims)
      modifies this`knownSource, this`knownTarget
      ensures FreshFor(f)
      ensures source == f.FreshSource(dims) && target == f.FreshTarget(dims)
    {
      if dims !in knownSource {
        knownSource := knownSource[dims := MemSelection(f.ContainerShape(dims), frameCount)];
        knownTarget := knownTarget[dims := Range(f.ContainerShape(dims), frameStart, frameCount)];
      }
      source, target := knownSource[dims], knownTarget[dims];
    }
  }
}

/** The load loop and its correctness. */
module Loader {
  import opened Seqs
  import opened Streams
  import opened ObsSource
  import opened FrameReader
  import opened Selections

  type Table = seq<seq<Cell>>

  // ----- Fill values become missing-value marks

  function NormaliseCell(fill: FillValue, c: Cell): Cell {
    if fill.Fill? && (c == fill.cell || c.Infinity? || c.NotANumber?) then Mark else c
  }

  function NormaliseRow(fill: FillValue, row: seq<Cell>): seq<Cell> {
    seq(|row|, i requires 0 <= i < |row| => NormaliseCell(fill, row[i]))
  }

  function Normalise(fill: FillValue, rows: Table): (out: Table)
    ensures |out| == |rows|
  {
    seq(|rows|, k requires 0 <= k < |rows| => NormaliseRow(fill, rows[k]))
  }

  /** The replacement loop of readObsSource. */
  method ReplaceFillValues(fill: FillValue, rows: Table) returns (out: Table)
    ensures out == Normalise(fill, rows)
    ensures |out| == |rows| && forall k :: 0 <= k < |rows| ==> |out[k]| == |rows[k]|
    ensures forall k, i :: 0 <= k < |rows| && 0 <= i < |rows[k]| ==>
              out[k][i] == if fill != NoFill
              && (rows[k][i] == fill.cell || rows[k][i] == Infinity || rows[k][i] == NotANumber)
                           then Mark else rows[k][i]
  {
    if fill.NoFill? {
      assert forall k :: 0 <= k < |rows| ==> NormaliseRow(fill, rows[k]) == rows[k];
      return rows;
    }
    out := [];
    for k := 0 to |rows|
      invariant out == Normalise(fill, rows[..k])
    {
      var row: seq<Cell> := [];
      for i := 0 to |rows[k]|
        invariant row == NormaliseRow(fill, rows[k][..i])
      {
        var c := rows[k][i];
        if c == fill.cell || c.Infinity? || c.NotANumber? {
          c := Mark;
        }
        row := row + [c];
      }
      assert rows[k][..|rows[k]|] == rows[k];
      out := out + [row];
    }
    assert rows[..|rows|] == rows;
  }

  // ----- What the container must hold

  /** The source rows at the given locations, normalised. */
  function RowsAt(v: Variable, idx: seq<nat>): (t: Table)
    requires forall k :: 0 <= k < |idx| ==> idx[k] < |v.rows|
    ensures |t| == |idx|
  {
    seq(|idx|, k requires 0 <= k < |idx| => NormaliseRow(v.fill, v.rows[idx[k]]))
  }

  /** A variable not dimensioned by location has been copied up to row `p`. */
  ghost predicate CopiedUpTo(v: Variable, t: Table, p: nat) {
    |t| == |v.rows| && forall k :: 0 <= k < p && k < |v.rows| ==> t[k] == NormaliseRow(v.fill, v.rows[k])
  }

  function BlankRow(v: Variable): seq<Cell> {
    seq(v.width, _ => Mark)
  }

  function Resize(v: Variable, t: Table, n: nat): (r: Table)
    ensures |r| == n
    ensures forall k :: 0 <= k < n ==> r[k] == if k < |t| then t[k] else BlankRow(v)
  {
    if n <= |t| then t[..n] else t + seq(n - |t|, _ => BlankRow(v))
  }

  function StoreAt(t: Table, start: nat, block: Table): (r: Table)
    requires start + |block| <= |t|
    ensures |r| == |t|
  {
    t[..start] + block + t[start + |block|..]
  }

  /** One variable of one frame: read through the caches, normalised, stored as one block. */
  method TransferVar(caches: SelectionCaches, f: Frame, v: Variable, t: Table) returns (r: Table)
    requires f.Fits(v) && caches.FreshFor(f)
    requires |t| == if v.ByLocation() then f.adjustedStart + |f.locIndex| else |v.rows|
    modifies caches
    ensures caches.FreshFor(f)
    ensures if f.Count(v.dims) == 0 then r == t
            else f.TargetStart(v.dims) + |WantedRows(f, v)| <= |t|
                 && r == StoreAt(t, f.TargetStart(v.dims), Normalise(v.fill, WantedRows(f, v)))
  {
    FreshSelectionReads(f, v);
    var available, _, rows := caches.ReadFrameVar(f, v);
    if !available {
      return t;
    }
    var values := ReplaceFillValues(v.fill, rows);
    var beFrameStart := if v.ByLocation() then f.adjustedStart else f.start;
    var _, target := caches.StoreSelections(f, v.dims, beFrameStart, f.Count(v.dims));
    r := StoreAt(t, target.start, values);
  }

  /** The held rows of the frame are the source rows at the frame's locations. */
  lemma WantedAreRowsAt(f: Frame, v: Variable, added: seq<nat>)
    requires f.Fits(v) && v.ByLocation() && |added| == |f.locIndex|
    requires forall k :: 0 <= k < |added| ==> added[k] == f.start + f.locIndex[k]
    ensures forall k :: 0 <= k < |added| ==> added[k] < |v.rows|
    ensures Normalise(v.fill, WantedRows(f, v)) == RowsAt(v, added)
  {
    var wanted := WantedRows(f, v);
    forall k | 0 <= k < |added|
      ensures added[k] < |v.rows| && wanted[k] == v.rows[added[k]]
    {
      assert f.locIndex[k] < f.BasicCount(|v.rows|);
      assert wanted[k] == f.Rows(v.rows)[f.locIndex[k]];
      assert Min(f.start, |v.rows|) == f.start;
    }
  }

  lemma RowsAtJoin(v: Variable, idx: seq<nat>, added: seq<nat>)
    requires forall k :: 0 <= k < |idx| ==> idx[k] < |v.rows|
    requires forall k :: 0 <= k < |added| ==> added[k] < |v.rows|
    ensures RowsAt(v, idx + added) == RowsAt(v, idx) + RowsAt(v, added)
  {
  }

  /** Appending a block of held rows extends what the container holds by the frame's locations. */
  lemma StoredByLocation(f: Frame, v: Variable, idx: seq<nat>, added: seq<nat>, t: Table)
    requires f.Fits(v) && v.ByLocation() && |added| == |f.locIndex|
    requires forall k :: 0 <= k < |added| ==> added[k] == f.start + f.locIndex[k]
    requires forall k :: 0 <= k < |idx| ==> idx[k] < |v.rows|
    requires |t| == |idx| + |added| && t[..|idx|] == RowsAt(v, idx)
    ensures forall k :: 0 <= k < |idx + added| ==> (idx + added)[k] < |v.rows|
    ensures StoreAt(t, |idx|, Normalise(v.fill, WantedRows(f, v))) == RowsAt(v, idx + added)
  {
    WantedAreRowsAt(f, v, added);
    RowsAtJoin(v, idx, added);
  }

  lemma StoredAsCopied(f: Frame, v: Variable, t: Table)
    requires f.Fits(v) && !v.ByLocation() && CopiedUpTo(v, t, f.start) && f.Count(v.dims) > 0
    ensures f.start + |WantedRows(f, v)| <= |t|
    ensures CopiedUpTo(v, StoreAt(t, f.start, Normalise(v.fill, WantedRows(f, v))), f.start + f.size)
  {
  }

  // ----- One frame of all variables

  /** What TransferVar does to the table of a variable. */
  ghost predicate Transferred(f: Frame, v: Variable, t: Table, r: Table)
    requires f.Fits(v)
  {
    if f.Count(v.dims) == 0 then r == t
    else f.TargetStart(v.dims) + |WantedRows(f, v)| <= |t|
         && r == StoreAt(t, f.TargetStart(v.dims), Normalise(v.fill, WantedRows(f, v)))
  }

  method ResizeLocation(src: Source, vars: seq<Table>, locationSize: nat, size: nat, append: bool)
      returns (resized: seq<Table>, newSize: nat)
    requires |vars| == |src.vars| && src.HasVariables()
    ensures newSize == if append then locationSize + size else size
    ensures |resized| == |vars|
    ensures forall v :: 0 <= v < |vars| ==>
              resized[v] == if src.vars[v].ByLocation() then Resize(src.vars[v], vars[v], newSize) else vars[v]
  {
    if append {
      newSize := locationSize + size;
    } else {
      newSize := size;
    }
    resized := [];
    for v := 0 to |vars|
      invariant |resized| == v
      invariant forall u :: 0 <= u < v ==>
                  resized[u] == if src.vars[u].ByLocation() then Resize(src.vars[u], vars[u], newSize) else vars[u]
    {
      assert src.IsShaped(src.vars[v]);
      var t := if src.vars[v].ByLocation() then Resize(src.vars[v], vars[v], newSize) else vars[v];
      resized := resized + [t];
    }
  }

  method TransferFrame(caches: SelectionCaches, src: Source, f: Frame, vars: seq<Table>) returns (out: seq<Table>)
    requires |vars| == |src.vars|
    requires forall v :: 0 <= v < |vars| ==>
               && f.Fits(src.vars[v])
               && |vars[v]| == if src.vars[v].ByLocation() then f.adjustedStart + |f.locIndex| else |src.vars[v].rows|
    requires caches.FreshFor(f)
    modifies caches
    ensures |out| == |vars| && forall v :: 0 <= v < |vars| ==> Transferred(f, src.vars[v], vars[v], out[v])
  {
    out := [];
    for v := 0 to |vars|
      invariant |out| == v && caches.FreshFor(f)
      invariant forall u :: 0 <= u < v ==> Transferred(f, src.vars[u], vars[u], out[u])
    {
      var t := TransferVar(caches, f, src.vars[v], vars[v]);
      out := out + [t];
    }
  }

  /** The table of a variable after the locations `idx` have been kept and `p` rows gone through. */
  ghost predicate VarAt(v: Variable, t: Table, idx: seq<nat>, p: nat)
    requires v.dims != []
  {
    if v.ByLocation() then (forall k :: 0 <= k < |idx| ==> idx[k] < |v.rows|) && t == RowsAt(v, idx)
    else CopiedUpTo(v, t, p)
  }

  /** A frame takes the table of a variable from one such state to the next. */
  lemma FrameAdvances(f: Frame, v: Variable, t: Table, sized: Table, r: Table, idx: seq<nat>, added: seq<nat>)
    requires f.Fits(v) && |added| == |f.locIndex| && f.adjustedStart == |idx|
    requires forall k :: 0 <= k < |added| ==> added[k] == f.start + f.locIndex[k]
    requires VarAt(v, t, idx, f.start) || (v.ByLocation() && idx == [])
    requires sized == if v.ByLocation() then Resize(v, t, |idx| + |added|) else t
    requires Transferred(f, v, sized, r)
    ensures VarAt(v, r, idx + added, f.start + f.size)
  {
    if v.ByLocation() {
      assert sized[..|idx|] == RowsAt(v, idx);
      if f.Count(v.dims) == 0 {
        assert idx + added == idx && sized == RowsAt(v, idx);
      } else {
        StoredByLocation(f, v, idx, added, sized);
      }
    } else if f.Count(v.dims) > 0 {
      StoredAsCopied(f, v, t);
    }
  }

  // ----- All frames

  ghost predicate ContainerAt(src: Source, vars: seq<Table>, idx: seq<nat>, p: nat)
    requires src.HasVariables()
  {
    |vars| == |src.vars| && forall v :: 0 <= v < |vars| ==>
      src.IsShaped(src.vars[v]) && VarAt(src.vars[v], vars[v], idx, p)
  }

  /** The container before the first frame: missing marks everywhere, the locations limited to one frame. */
  ghost predicate IsBlank(src: Source, vars: seq<Table>)
    requires src.HasVariables()
  {
    |vars| == |src.vars| && forall v :: 0 <= v < |vars| ==>
      && src.IsShaped(src.vars[v])
      && |vars[v]| <= |src.vars[v].rows|
      && (!src.vars[v].ByLocation() ==> |vars[v]| == |src.vars[v].rows|)
      && forall k :: 0 <= k < |vars[v]| ==> vars[v][k] == BlankRow(src.vars[v])
  }

  /** Resizes the container for a frame and copies all variables of the frame into it. */
  method LoadFrame(caches: SelectionCaches, src: Source, f: Frame, vars: seq<Table>, locationSize: nat, append: bool,
                   ghost idx: seq<nat>, ghost added: seq<nat>)
      returns (out: seq<Table>, newSize: nat)
    requires src.HasVariables() && f.dimSizes == src.dimSizes && f.IsWithin(src.NumLocs())
    requires |added| == |f.locIndex| && forall k :: 0 <= k < |added| ==> added[k] == f.start + f.locIndex[k]
    requires f.adjustedStart == |idx|
    requires if append then ContainerAt(src, vars, idx, f.start) && locationSize == |idx|
             else IsBlank(src, vars) && idx == [] && f.start == 0
    modifies caches
    ensures ContainerAt(src, out, idx + added, f.start + f.size) && newSize == |idx + added|
  {
    var sized, size := ResizeLocation(src, vars, locationSize, |f.locIndex|, append);
    newSize := size;
    forall v | 0 <= v < |vars|
      ensures src.IsShaped(src.vars[v]) && f.Fits(src.vars[v])
      ensures VarAt(src.vars[v], vars[v], idx, f.start) || (src.vars[v].ByLocation() && idx == [])
    {
      assert src.IsShaped(src.vars[v]);
    }
    caches.Clear(f);
    out := TransferFrame(caches, src, f, sized);
    forall v | 0 <= v < |vars|
      ensures VarAt(src.vars[v], out[v], idx + added, f.start + f.size)
    {
      FrameAdvances(f, src.vars[v], vars[v], sized[v], out[v], idx, added);
    }
  }

  /** The finished container: held rows for variables by location, all rows for the others. */
  ghost predicate IsLoaded(src: Source, vars: seq<Table>, idx: seq<nat>)
    requires src.HasVariables()
  {
    |vars| == |src.vars| && forall v :: 0 <= v < |vars| ==>
      && src.IsShaped(src.vars[v])
      && if src.vars[v].ByLocation() then
           (forall k :: 0 <= k < |idx| ==> idx[k] < |src.vars[v].rows|) && vars[v] == RowsAt(src.vars[v], idx)
         else vars[v] == Normalise(src.vars[v].fill, src.vars[v].rows)
  }

  /**
   A finished container, cell by cell: a source cell is copied, unless the variable has a fill value
   and the cell equals it, is infinite or is not a number; then it is a mark. The k-th row of a
   variable by location is the source row of the k-th held location.
   */
  lemma LoadedCell(src: Source, vars: seq<Table>, idx: seq<nat>, v: nat, k: nat, i: nat)
    requires src.HasVariables() && IsLoaded(src, vars, idx) && v < |vars| && k < |vars[v]|
    ensures src.vars[v].dims != [] && |vars[v]| == if src.vars[v].dims[0] == "Location" then |idx|
            else |src.vars[v].rows|
    ensures var l := if src.vars[v].dims[0] == "Location" then idx[k] else k;
            && l < |src.vars[v].rows| && |vars[v][k]| == |src.vars[v].rows[l]|
            && (i < |vars[v][k]| ==>
                  var cell := src.vars[v].rows[l][i];
                  vars[v][k][i] == if src.vars[v].fill != NoFill
                                      && (cell == src.vars[v].fill.cell || cell == Infinity || cell == NotANumber)
                                   then Mark else cell)
  {
  }

  lemma ContainerIsLoaded(src: Source, vars: seq<Table>, idx: seq<nat>, p: nat)
    requires src.HasVariables() && ContainerAt(src, vars, idx, p)
    requires forall v :: 0 <= v < |vars| ==> |src.vars[v].rows| <= p
    ensures IsLoaded(src, vars, idx)
  {
  }

  /** The current frame of a reader. */
  function CurrentFrame(reader: ObsFrameRead): Frame
    reads reader
  {
    Frame(reader.frameStart, reader.maxFrameSize, reader.src.dimSizes, reader.frameLocIndex,
          reader.adjustedLocationFrameStart)
  }

  /** The blank container that createObsGroupFromObsFrame sets up. */
  method BlankContainer(src: Source, maxFrameSize: nat) returns (vars: seq<Table>)
    requires src.HasVariables()
    ensures IsBlank(src, vars)
    ensures forall v :: 0 <= v < |vars| && src.vars[v].ByLocation() ==> |vars[v]| == Min(src.NumLocs(), maxFrameSize)
  {
    vars := [];
    for v := 0 to |src.vars|
      invariant |vars| == v
      invariant forall u :: 0 <= u < v ==>
                  && src.IsShaped(src.vars[u])
                  && |vars[u]| == (if src.vars[u].ByLocation() then Min(src.NumLocs(), maxFrameSize)
                                   else |src.vars[u].rows|)
                  && forall k :: 0 <= k < |vars[u]| ==> vars[u][k] == BlankRow(src.vars[u])
    {
      assert src.IsShaped(src.vars[v]);
      var n := if src.vars[v].ByLocation() then Min(src.NumLocs(), maxFrameSize) else |src.vars[v].rows|;
      vars := vars + [Resize(src.vars[v], [], n)];
    }
  }

  lemma HeldAreWithin(src: Source, d: Rule, f: Frame, before: seq<nat>, after: seq<nat>)
    requires src.Valid()
    requires Appended(before, after, f.start, f.locIndex)
    requires after == OnePass(src, d, Min(f.start + f.size, src.NumLocs())).indx
    ensures f.IsWithin(src.NumLocs())
  {
    IndexAscends(src, d, Min(f.start + f.size, src.NumLocs()));
    forall k | 0 <= k < |f.locIndex|
      ensures f.locIndex[k] < f.BasicCount(src.NumLocs())
    {
      assert after[|before| + k] == f.start + f.locIndex[k];
    }
  }

  /** The container between two frames. */
  ghost predicate Between(src: Source, vars: seq<Table>, idx: seq<nat>, p: nat, locationSize: nat, first: bool)
    requires src.HasVariables()
  {
    if first then IsBlank(src, vars) && idx == [] && p == 0
    else ContainerAt(src, vars, idx, p) && locationSize == |idx|
  }

  /** Copies the frame that brought the held locations from `before` to `after`. */
  method CopyFrame(caches: SelectionCaches, src: Source, f: Frame, vars: seq<Table>, locationSize: nat, first: bool,
                   ghost p: Progress, ghost d: Rule, ghost before: seq<nat>, ghost after: seq<nat>)
      returns (out: seq<Table>, newSize: nat)
    requires src.Valid() && src.HasVariables() && f.dimSizes == src.dimSizes && f.adjustedStart == |before|
    requires Appended(before, after, f.start, f.locIndex)
    requires p == OnePass(src, d, Min(f.start + f.size, src.NumLocs())) && after == p.indx
    requires Between(src, vars, before, f.start, locationSize, first)
    modifies caches
    ensures Between(src, out, after, f.start + f.size, newSize, false)
  {
    ghost var added := after[|before|..];
    assert after == before + added;
    HeldAreWithin(src, d, f, before, after);
    out, newSize := LoadFrame(caches, src, f, vars, locationSize, !first, before, added);
  }

  /** Copies the frame just read and moves on to the next one. */
  method TakeFrame(reader: ObsFrameRead, caches: SelectionCaches, vars: seq<Table>, locationSize: nat, first: bool,
                   ghost before: seq<nat>)
      returns (out: seq<Table>, newSize: nat)
    requires reader.src.Valid() && reader.src.HasVariables()
    requires reader.MyProgress() == OnePass(reader.src, reader.dist.MyRule(), reader.FrameEnd())
    requires Appended(before, reader.indx, reader.frameStart, reader.frameLocIndex)
    requires reader.adjustedLocationFrameCount == |reader.frameLocIndex|
             && reader.adjustedLocationFrameStart == |before|
    requires Between(reader.src, vars, before, reader.frameStart, locationSize, first)
    modifies reader`frameStart, reader`adjustedLocationFrameStart, caches
    ensures reader.adjustedLocationFrameStart == |reader.indx|
    ensures reader.frameStart == old(reader.frameStart) + reader.maxFrameSize
    ensures Between(reader.src, out, reader.indx, reader.frameStart, newSize, false)
  {
    out, newSize := CopyFrame(caches, reader.src, CurrentFrame(reader), vars, locationSize, first,
                              reader.MyProgress(), reader.dist.MyRule(), before, reader.indx);
    reader.FrameNext();
  }

  /** One turn of the load loop: reads a frame, if there is one, and copies it. */
  method LoadNext(reader: ObsFrameRead, caches: SelectionCaches, vars: seq<Table>, locationSize: nat, first: bool)
      returns (more: bool, out: seq<Table>, newSize: nat)
    requires reader.src.Valid() && reader.src.HasVariables()
    requires reader.HasRead(Min(reader.frameStart, reader.src.NumLocs()))
    requires reader.HasFed(Min(reader.frameStart, reader.src.NumLocs()))
    requires reader.adjustedLocationFrameStart == |reader.indx|
    requires Between(reader.src, vars, reader.indx, reader.frameStart, locationSize, first)
    modifies reader, reader.dist.Objects(), caches
    ensures more <==> old(reader.frameStart) < reader.maxVarSize
    ensures reader.HasRead(Min(reader.frameStart, reader.src.NumLocs()))
    ensures reader.HasFed(Min(reader.frameStart, reader.src.NumLocs()))
    ensures reader.adjustedLocationFrameStart == |reader.indx|
    ensures if more then reader.frameStart == old(reader.frameStart) + reader.maxFrameSize
            else reader.frameStart == old(reader.frameStart)
    ensures reader.patchCalls == old(reader.patchCalls) + if more then 0 else 1
    ensures Between(reader.src, out, reader.indx, reader.frameStart, newSize, first && !more)
  {
    ghost var before := reader.indx;
    assert reader !in reader.dist.Objects() && caches !in reader.dist.Objects();
    out, newSize := vars, locationSize;
    more := reader.FrameAvailable();
    if more {
      ghost var n := reader.FrameEnd();
      out, newSize := TakeFrame(reader, caches, vars, locationSize, first, before);
      assert Min(reader.frameStart, reader.src.NumLocs()) == n;
      assert reader.HasRead(n) && reader.HasFed(n);
    }
  }

  /**
   Main result: whatever the frame size, the load ends in the state of the one-pass load, with the
   distribution in step and told once to compute its patches, and with a container whose row k is
   the normalised source row of the k-th held location.
   */
  method InitFromObsSource(reader: ObsFrameRead) returns (vars: seq<Table>)
    requires reader.src.Valid() && reader.src.HasVariables() && reader.IsNew() && reader.maxFrameSize >= 1
    requires forall d :: d in reader.src.dimSizes ==> reader.src.dimSizes[d] <= reader.maxVarSize
    requires reader.dist.InStep([])
    modifies reader, reader.dist.Objects()
    ensures reader.HasRead(reader.src.NumLocs())
    ensures reader.HasFed(reader.src.NumLocs()) && reader.patchCalls == 1
    ensures IsLoaded(reader.src, vars, reader.indx)
    ensures Ascending(reader.indx) && forall l: nat :: l in reader.indx ==>
              && l < reader.src.NumLocs()
              && (reader.src.applyLocationsCheck ==>
                    && reader.src.windowStart < reader.src.times[l] <= reader.src.windowEnd
                    && reader.src.lats[l] != reader.src.latFill && reader.src.lons[l] != reader.src.lonFill)
    ensures reader.gnlocs == |PassingLocs(reader.src, reader.src.NumLocs())|
    ensures reader.gnlocsOutsideTimewindow
            == if reader.src.applyLocationsCheck then |OutsideLocs(reader.src, 0, reader.src.NumLocs())| else 0
  {
    reader.FrameInit();
    vars := BlankContainer(reader.src, reader.maxFrameSize);
    var caches := new SelectionCaches();
    var locationSize := Min(reader.src.NumLocs(), reader.maxFrameSize);
    var first, more := true, true;
    while more
      invariant fresh(caches)
      invariant reader.HasRead(Min(reader.frameStart, reader.src.NumLocs()))
      invariant reader.HasFed(Min(reader.frameStart, reader.src.NumLocs()))
      invariant reader.adjustedLocationFrameStart == |reader.indx|
      invariant Between(reader.src, vars, reader.indx, reader.frameStart, locationSize, first)
      invariant reader.patchCalls == if more then 0 else 1
      invariant !more ==> reader.frameStart >= reader.maxVarSize
      decreases more, reader.maxVarSize - reader.frameStart
    {
      var another, newVars, newSize := LoadNext(reader, caches, vars, locationSize, first);
      first := first && !another;
      more, vars, locationSize := another, newVars, newSize;
    }
    Finished(reader.src, vars, reader.indx, reader.frameStart, locationSize, first, reader.maxVarSize);
    PassHoldsPassing(reader.src, reader.dist.MyRule(), reader.src.NumLocs());
  }

  /** Past the end of every dimension, everything has been read. */
  lemma Finished(src: Source, vars: seq<Table>, idx: seq<nat>, p: nat, locationSize: nat, first: bool, maxVarSize: nat)
    requires src.Valid() && src.HasVariables() && Between(src, vars, idx, p, locationSize, first)
    requires maxVarSize <= p && forall d :: d in src.dimSizes ==> src.dimSizes[d] <= maxVarSize
    ensures Min(p, src.NumLocs()) == src.NumLocs()
    ensures IsLoaded(src, vars, idx)
  {
    forall v | 0 <= v < |vars|
      ensures src.IsShaped(src.vars[v]) && |src.vars[v].rows| <= p
    {
      assert src.IsShaped(src.vars[v]);
    }
    if first {
      assert forall v :: 0 <= v < |vars| ==> |src.vars[v].rows| == 0 && vars[v] == [];
    } else {
      ContainerIsLoaded(src, vars, idx, p);
    }
  }
}
