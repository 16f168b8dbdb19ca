/**
 extendVariable on variables with several values per location (src/ObsSpace.cc). The variable is read
 as one row-major vector, which the loop indexes by location.
 */
module WideVariables {
  import opened Seqs
  import opened Streams
  import opened Companions
  import opened RecordIndex
  import opened Extension
  import opened ExtendedWorld
  import opened ExtendedVariables

  // ----- Cells in a row-major vector

  lemma CellFits(n: nat, width: nat, l: nat, j: nat)
    requires l < n && j < width
    ensures l * width + j < n * width
  {
    MulMonotone(l + 1, n, width);
  }

  /** The `j`-th value of location `l`, out of `n`. */
  function CellAt<T>(vals: seq<T>, n: nat, width: nat, l: nat, j: nat): T
    requires |vals| == n * width && l < n && j < width
  {
    CellFits(n, width, l, j);
    vals[l * width + j]
  }

  /** The `j`-th value of every one of `n` locations. */
  function Column<T>(vals: seq<T>, n: nat, width: nat, j: nat): (column: seq<T>)
    requires |vals| == n * width && j < width
    ensures |column| == n && forall l :: 0 <= l < n ==> column[l] == CellAt(vals, n, width, l, j)
  {
    seq(n, l requires 0 <= l < n => CellAt(vals, n, width, l, j))
  }

  // ----- What filling a variable promises

  /** A variable of an extended rank, of which the first `numOriginal` locations are original. */
  ghost predicate IsContent<T>(vals: seq<T>, missing: T, now: Vectors, numOriginal: nat, width: nat) {
    && numOriginal <= |now.recnums| && |vals| == |now.recnums| * width
    && forall p :: numOriginal * width <= p < |vals| ==> vals[p] == missing
  }

  /** No value of an original location has changed. */
  ghost predicate KeepsOriginals<T>(vals: seq<T>, out: seq<T>, numOriginal: nat, width: nat) {
    |out| == |vals| && forall p :: 0 <= p < numOriginal * width && p < |vals| ==> out[p] == vals[p]
  }

  /** Each value of a companion location is the first such value of its original record. */
  ghost predicate FillsCompanions<T>(vals: seq<T>, out: seq<T>, missing: T, now: Vectors, recBound: nat, width: nat)
    requires |vals| == |out| == |now.recnums| * width && ListsOwn(now.recnums, now.recidx)
  {
    forall rec: nat, l: nat, j: nat ::
      rec in now.recidx && rec < recBound && l in Get(now.recidx, recBound + rec) && j < width ==>
      FillsCell(vals, out, missing, now, width, rec, l, j)
  }

  ghost predicate FillsCell<T>(vals: seq<T>, out: seq<T>, missing: T, now: Vectors, width: nat, rec: nat, l: nat,
                               j: nat)
    requires |vals| == |out| == |now.recnums| * width && ListsOwn(now.recnums, now.recidx) && rec in now.recidx
             && j < width
  {
    && l < |now.recnums|
    && CellAt(out, |now.recnums|, width, l, j)
      == FirstValue(Column(vals, |now.recnums|, width, j), missing, now.recidx[rec])
  }

  ghost predicate IsFilledRight<T>(vals: seq<T>, missing: T, now: Vectors, numOriginal: nat, recBound: nat, width: nat)
    requires |vals| == |now.recnums| * width && width >= 1 && ListsOwn(now.recnums, now.recidx)
  {
    MulMonotone(1, width, |now.recnums|);
    var out := FilledVector(vals, missing, now.recnums, now.recidx, recBound);
    KeepsOriginals(vals, out, numOriginal, width) && FillsCompanions(vals, out, missing, now, recBound, width)
  }

  /** An extended rank whose record index lists locations of its own records. */
  ghost predicate IsFillable(v: Vectors, now: Vectors, nlevs: nat, locBound: nat, recBound: nat) {
    && IsExtended(v, now, nlevs, locBound, recBound) && nlevs > 0
    && ListsOwn(v.recnums, v.recidx) && (forall rec :: rec in v.recidx ==> rec in v.recnums)
    && ListsOwn(now.recnums, now.recidx)
  }

  lemma FillableFacts(v: Vectors, now: Vectors, nlevs: nat, locBound: nat, recBound: nat)
    requires IsFillable(v, now, nlevs, locBound, recBound)
    ensures |v.recnums| <= |now.recnums|
    ensures forall p :: 0 <= p < |now.recnums| ==> (p < |v.recnums| <==> now.recnums[p] < recBound)
    ensures forall rec :: rec in v.recidx ==> rec < recBound && rec in now.recidx && now.recidx[rec] == v.recidx[rec]
    ensures forall rec :: rec in now.recidx && rec < recBound ==> rec in v.recidx
    ensures forall rec, k :: rec in v.recidx && 0 <= k < |v.recidx[rec]| ==> v.recidx[rec][k] < |v.recnums|
  {
    assert IsExtendedBy(v, now, CompanionsOf(v, nlevs, recBound), locBound, recBound);
    forall p | 0 <= p < |now.recnums|
      ensures p < |v.recnums| <==> now.recnums[p] < recBound
    {
      ExtendedAt(v, now, nlevs, locBound, recBound, p);
    }
    forall rec: nat | rec < recBound
      ensures rec in now.recidx <==> rec in v.recidx
      ensures rec in v.recidx ==> now.recidx[rec] == v.recidx[rec]
    {
      assert EntryIs(v.recidx, now.recidx, now.recnums, recBound, rec);
    }
  }

  /** The companion entry of a record lists its companions' locations. */
  lemma CompanionEntry(v: Vectors, now: Vectors, nlevs: nat, locBound: nat, recBound: nat, rec: nat, l: nat)
    requires IsExtended(v, now, nlevs, locBound, recBound)
    ensures l in Get(now.recidx, recBound + rec) <==> l < |now.recnums| && now.recnums[l] == recBound + rec
  {
    assert IsExtendedBy(v, now, CompanionsOf(v, nlevs, recBound), locBound, recBound);
    assert EntryIs(v.recidx, now.recidx, now.recnums, recBound, recBound + rec);
    PositionsMember(now.recnums, recBound + rec);
  }

  // ----- One value per location

  lemma ColumnOfOne<T>(vals: seq<T>, n: nat)
    requires |vals| == n * 1
    ensures Column(vals, n, 1, 0) == vals
  {
    forall l | 0 <= l < n
      ensures CellAt(vals, n, 1, l, 0) == vals[l]
    {
    }
  }

  lemma OneValueIsKept<T>(v: Vectors, now: Vectors, nlevs: nat, locBound: nat, recBound: nat, vals: seq<T>, missing: T)
    requires IsFillable(v, now, nlevs, locBound, recBound) && IsContent(vals, missing, now, |v.recnums|, 1)
    ensures KeepsOriginals(vals, FilledVector(vals, missing, now.recnums, now.recidx, recBound), |v.recnums|, 1)
  {
    FillableFacts(v, now, nlevs, locBound, recBound);
    forall p | 0 <= p < |v.recnums|
      ensures FilledVector(vals, missing, now.recnums, now.recidx, recBound)[p] == vals[p]
    {
      OtherValue(vals, missing, now.recnums, now.recidx, recBound, p);
    }
  }

  lemma OneCellIsFilled<T>(v: Vectors, now: Vectors, nlevs: nat, locBound: nat, recBound: nat, vals: seq<T>, missing: T,
                           rec: nat, l: nat)
    requires IsFillable(v, now, nlevs, locBound, recBound) && IsContent(vals, missing, now, |v.recnums|, 1)
    requires rec in now.recidx && rec < recBound && l in Get(now.recidx, recBound + rec)
    ensures FillsCell(vals, FilledVector(vals, missing, now.recnums, now.recidx, recBound), missing, now, 1, rec, l, 0)
  {
    var out := FilledVector(vals, missing, now.recnums, now.recidx, recBound);
    FillableFacts(v, now, nlevs, locBound, recBound);
    ColumnOfOne(vals, |now.recnums|);
    CompanionValue(vals, missing, now.recnums, now.recidx, recBound, rec, l);
    assert vals[l] == missing && CellAt(out, |now.recnums|, 1, l, 0) == out[l];
  }

  lemma OneValueIsFilled<T>(v: Vectors, now: Vectors, nlevs: nat, locBound: nat, recBound: nat, vals: seq<T>,
                            missing: T)
    requires IsFillable(v, now, nlevs, locBound, recBound) && IsContent(vals, missing, now, |v.recnums|, 1)
    ensures FillsCompanions(vals, FilledVector(vals, missing, now.recnums, now.recidx, recBound), missing, now,
                            recBound, 1)
  {
    var out := FilledVector(vals, missing, now.recnums, now.recidx, recBound);
    forall rec: nat, l: nat, j: nat |
      rec in now.recidx && rec < recBound && l in Get(now.recidx, recBound + rec) && j < 1
      ensures FillsCell(vals, out, missing, now, 1, rec, l, j)
    {
      OneCellIsFilled(v, now, nlevs, locBound, recBound, vals, missing, rec, l);
    }
  }

  // ----- Several values per location

  /** Later records have later companions. */
  lemma CompanionsInOrder(v: Vectors, now: Vectors, nlevs: nat, locBound: nat, recBound: nat, p: nat, l: nat)
    requires IsFillable(v, now, nlevs, locBound, recBound) && |v.recnums| <= p < |now.recnums|
             && |v.recnums| <= l < |now.recnums|
    requires now.recnums[p] <= now.recnums[l]
    ensures now.recnums[p] < now.recnums[l] ==> p < l
  {
    assert IsExtendedBy(v, now, CompanionsOf(v, nlevs, recBound), locBound, recBound);
    var recs, os := OriginalRecs(v.recnums, recBound), CompanionsOf(v, nlevs, recBound);
    OriginalRecsMember(v.recnums, recBound);
    CompanionAscending(recs, nlevs);
    var a, b := os[p - |v.recnums|], os[l - |v.recnums|];
    CompanionMember(recs, nlevs, a);
    CompanionMember(recs, nlevs, b);
    assert l < p ==> Locs(os)[l - |v.recnums|] < Locs(os)[p - |v.recnums|];
    if a.rec < b.rec {
      var i :| 0 <= i < nlevs && a == Levels(a.rec, nlevs)[i];
      var j :| 0 <= j < nlevs && b == Levels(b.rec, nlevs)[j];
      LevelsInOrder(a.rec, i, b.rec, j, nlevs);
    }
  }

  /** The last record with a value to offer. */
  lemma LastIndexed(v: Vectors, recBound: nat, some: nat) returns (last: nat)
    requires some in v.recidx && v.recidx[some] != [] && forall rec :: rec in v.recidx ==> rec < recBound
    ensures last in v.recidx && v.recidx[last] != []
    ensures forall rec :: rec in v.recidx && v.recidx[rec] != [] ==> rec <= last
  {
    last := some;
    for rec: nat := 0 to recBound
      invariant last in v.recidx && v.recidx[last] != []
      invariant forall r :: r in v.recidx && v.recidx[r] != [] && r < rec ==> r <= last
    {
      if rec in v.recidx && v.recidx[rec] != [] && rec > last {
        last := rec;
      }
    }
  }

  /** Where a position beyond the original locations differs afterwards, it is a companion of an indexed record. */
  lemma ChangedIsCompanion<T>(v: Vectors, now: Vectors, nlevs: nat, locBound: nat, recBound: nat, vals: seq<T>,
                              missing: T, p: nat)
    requires IsFillable(v, now, nlevs, locBound, recBound) && |now.recnums| <= |vals| && p < |vals|
    requires FilledVector(vals, missing, now.recnums, now.recidx, recBound)[p] != vals[p]
    ensures |v.recnums| <= p < |now.recnums| && now.recnums[p] >= recBound
    ensures var rec := now.recnums[p] - recBound;
            rec in v.recidx && v.recidx[rec] != [] && p in Get(now.recidx, recBound + rec)
  {
    FillableFacts(v, now, nlevs, locBound, recBound);
    if p < |now.recnums| && recBound <= now.recnums[p] < 2 * recBound && now.recnums[p] - recBound in now.recidx {
      var rec := now.recnums[p] - recBound;
      CompanionEntry(v, now, nlevs, locBound, recBound, rec, p);
    } else {
      OtherValue(vals, missing, now.recnums, now.recidx, recBound, p);
    }
  }

  /** All original values are `x`. */
  function Uniform<T>(x: T, missing: T, now: Vectors, numOriginal: nat, width: nat): (vals: seq<T>)
    ensures |vals| == |now.recnums| * width
    ensures forall p :: 0 <= p < |vals| ==> vals[p] == if p < numOriginal * width then x else missing
  {
    seq(|now.recnums| * width, p => if p < numOriginal * width then x else missing)
  }

  /** The last value of a location lies beyond the position that has the number of the location. */
  lemma LastCellIsBeyond(n: nat, width: nat, l: nat, numOriginal: nat)
    requires numOriginal <= l < n && width >= 2
    ensures l < l * width + (width - 1) < n * width && numOriginal * width <= l * width + (width - 1)
  {
    CellFits(n, width, l, width - 1);
    MulMonotone(numOriginal, l, width);
    MulMonotone(2, width, l);
  }

  /** Positions beyond the last companion of the last indexed record stay. */
  lemma BeyondIsUntouched<T>(v: Vectors, now: Vectors, nlevs: nat, locBound: nat, recBound: nat, vals: seq<T>,
                             missing: T, last: nat, l: nat, q: nat)
    requires IsFillable(v, now, nlevs, locBound, recBound) && |now.recnums| <= |vals|
    requires forall rec :: rec in v.recidx && v.recidx[rec] != [] ==> rec <= last
    requires |v.recnums| <= l < |now.recnums| && now.recnums[l] == recBound + last
    requires forall k :: 0 <= k < |now.recnums| && now.recnums[k] == recBound + last ==> k <= l
    requires l < q < |vals|
    ensures FilledVector(vals, missing, now.recnums, now.recidx, recBound)[q] == vals[q]
  {
    if FilledVector(vals, missing, now.recnums, now.recidx, recBound)[q] != vals[q] {
      ChangedIsCompanion(v, now, nlevs, locBound, recBound, vals, missing, q);
      CompanionsInOrder(v, now, nlevs, locBound, recBound, q, l);
    }
  }

  lemma LastCellStays<T>(v: Vectors, now: Vectors, nlevs: nat, locBound: nat, recBound: nat, width: nat, vals: seq<T>,
                         missing: T, last: nat, l: nat)
    requires IsFillable(v, now, nlevs, locBound, recBound) && width >= 2 && |now.recnums| <= |vals|
    requires IsContent(vals, missing, now, |v.recnums|, width)
    requires forall rec :: rec in v.recidx && v.recidx[rec] != [] ==> rec <= last
    requires |v.recnums| <= l < |now.recnums| && now.recnums[l] == recBound + last
    requires forall k :: 0 <= k < |now.recnums| && now.recnums[k] == recBound + last ==> k <= l
    ensures CellAt(FilledVector(vals, missing, now.recnums, now.recidx, recBound), |now.recnums|, width, l, width - 1)
            == missing
  {
    LastCellIsBeyond(|now.recnums|, width, l, |v.recnums|);
    BeyondIsUntouched(v, now, nlevs, locBound, recBound, vals, missing, last, l, l * width + (width - 1));
  }

  /** With several values per location some value of a companion is not filled. */
  lemma UnfilledCell<T>(v: Vectors, now: Vectors, nlevs: nat, locBound: nat, recBound: nat, width: nat, x: T,
                        missing: T, vals: seq<T>, some: nat) returns (last: nat, l: nat)
    requires IsFillable(v, now, nlevs, locBound, recBound) && width >= 2 && x != missing
    requires some in v.recidx && v.recidx[some] != []
    requires vals == Uniform(x, missing, now, |v.recnums|, width) && |now.recnums| <= |vals|
    ensures last in now.recidx && last < recBound && l in Get(now.recidx, recBound + last)
    ensures !FillsCell(vals, FilledVector(vals, missing, now.recnums, now.recidx, recBound), missing, now, width, last,
                       l, width - 1)
  {
    FillableFacts(v, now, nlevs, locBound, recBound);
    last := LastIndexed(v, recBound, some);
    l := LastCompanion(v, now, nlevs, locBound, recBound, last);
    LastCellStays(v, now, nlevs, locBound, recBound, width, vals, missing, last, l);
    ColumnOfUniform(v, now, width, x, missing, last);
  }

  lemma WideIsNotFilled<T>(v: Vectors, now: Vectors, nlevs: nat, locBound: nat, recBound: nat, width: nat, x: T,
                           missing: T, vals: seq<T>, some: nat)
    requires IsFillable(v, now, nlevs, locBound, recBound) && width >= 2 && x != missing
    requires some in v.recidx && v.recidx[some] != []
    requires vals == Uniform(x, missing, now, |v.recnums|, width) && |now.recnums| <= |vals|
    ensures !IsFilledRight(vals, missing, now, |v.recnums|, recBound, width)
  {
    var last, l := UnfilledCell(v, now, nlevs, locBound, recBound, width, x, missing, vals, some);
  }

  /** The last companion location of a record. */
  lemma LastCompanion(v: Vectors, now: Vectors, nlevs: nat, locBound: nat, recBound: nat, rec: nat) returns (l: nat)
    requires IsFillable(v, now, nlevs, locBound, recBound) && rec in v.recnums
    ensures |v.recnums| <= l < |now.recnums| && now.recnums[l] == recBound + rec && l in Get(now.recidx, recBound + rec)
    ensures forall k :: 0 <= k < |now.recnums| && now.recnums[k] == recBound + rec ==> k <= l
  {
    RecordHasCompanion(v, now, nlevs, locBound, recBound, rec);
    FillableFacts(v, now, nlevs, locBound, recBound);
    var i :| 0 <= i < |now.recnums| && now.recnums[i] == recBound + rec;
    l := i;
    for k := 0 to |now.recnums|
      invariant l < |now.recnums| && now.recnums[l] == recBound + rec
      invariant forall m :: 0 <= m < k && now.recnums[m] == recBound + rec ==> m <= l
    {
      if now.recnums[k] == recBound + rec && k > l {
        l := k;
      }
    }
    CompanionEntry(v, now, nlevs, locBound, recBound, rec, l);
  }

  lemma ColumnOfUniform<T>(v: Vectors, now: Vectors, width: nat, x: T, missing: T, rec: nat)
    requires width >= 1 && x != missing && |v.recnums| <= |now.recnums|
    requires rec in v.recidx && v.recidx[rec] != [] && v.recidx[rec][0] < |v.recnums|
    requires forall k :: 0 <= k < |v.recidx[rec]| ==> v.recidx[rec][k] < |now.recnums|
    ensures var vals := Uniform(x, missing, now, |v.recnums|, width);
            FirstValue(Column(vals, |now.recnums|, width, width - 1), missing, v.recidx[rec]) == x
  {
    CellFits(|v.recnums|, width, v.recidx[rec][0], width - 1);
  }

  // ----- When the promise is kept

  ghost predicate AlwaysFilledRight<T(!new)>(missing: T, now: Vectors, numOriginal: nat, recBound: nat, width: nat)
    requires width >= 1 && ListsOwn(now.recnums, now.recidx)
  {
    forall vals: seq<T> :: IsContent(vals, missing, now, numOriginal, width) ==>
      IsFilledRight(vals, missing, now, numOriginal, recBound, width)
  }

  /**
   Main result: on an extended rank with an indexed record, filling keeps the original values and gives
   each companion its record's first value, for every content of the variable, exactly if the variable
   has one value per location.
   */
  lemma FilledRightExactly<T(!new)>(v: Vectors, now: Vectors, nlevs: nat, locBound: nat, recBound: nat, width: nat,
                                    x: T, missing: T, some: nat)
    requires IsFillable(v, now, nlevs, locBound, recBound) && width >= 1 && x != missing
    requires some in v.recidx && v.recidx[some] != []
    ensures AlwaysFilledRight(missing, now, |v.recnums|, recBound, width) <==> width == 1
  {
    if width == 1 {
      forall vals: seq<T> | IsContent(vals, missing, now, |v.recnums|, 1)
        ensures IsFilledRight(vals, missing, now, |v.recnums|, recBound, 1)
      {
        OneValueIsKept(v, now, nlevs, locBound, recBound, vals, missing);
        OneValueIsFilled(v, now, nlevs, locBound, recBound, vals, missing);
      }
    } else {
      var vals := Uniform(x, missing, now, |v.recnums|, width);
      MulMonotone(1, width, |now.recnums|);
      FillableFacts(v, now, nlevs, locBound, recBound);
      assert IsContent(vals, missing, now, |v.recnums|, width);
      WideIsNotFilled(v, now, nlevs, locBound, recBound, width, x, missing, vals, some);
    }
  }

  ghost predicate AlwaysKeepsOriginals<T(!new)>(missing: T, now: Vectors, numOriginal: nat, recBound: nat, width: nat)
    requires width >= 1 && ListsOwn(now.recnums, now.recidx)
  {
    forall vals: seq<T> :: IsContent(vals, missing, now, numOriginal, width) ==>
      IsKept(vals, missing, now, numOriginal, recBound, width)
  }

  ghost predicate IsKept<T>(vals: seq<T>, missing: T, now: Vectors, numOriginal: nat, recBound: nat, width: nat)
    requires |vals| == |now.recnums| * width && width >= 1 && ListsOwn(now.recnums, now.recidx)
  {
    MulMonotone(1, width, |now.recnums|);
    KeepsOriginals(vals, FilledVector(vals, missing, now.recnums, now.recidx, recBound), numOriginal, width)
  }

  /** A companion location whose original record has an entry. */
  ghost predicate IsToBeFilled(v: Vectors, now: Vectors, recBound: nat, l: nat) {
    && l < |now.recnums| && recBound <= now.recnums[l]
    && now.recnums[l] - recBound in v.recidx && v.recidx[now.recnums[l] - recBound] != []
  }

  /** The locations of all companions to be filled, taken as positions, lie beyond the original values. */
  ghost predicate FillsBeyond(v: Vectors, now: Vectors, recBound: nat, width: nat) {
    forall l: nat :: IsToBeFilled(v, now, recBound, l) ==> l >= |v.recnums| * width
  }

  /** Writing at a location's number hits an original value: the first value of the record is copied there. */
  lemma OriginalIsHit<T>(v: Vectors, now: Vectors, nlevs: nat, locBound: nat, recBound: nat, width: nat, x: T,
                         missing: T, l: nat) returns (vals: seq<T>)
    requires IsFillable(v, now, nlevs, locBound, recBound) && width >= 1 && x != missing
    requires IsToBeFilled(v, now, recBound, l) && l < |v.recnums| * width
    ensures IsContent(vals, missing, now, |v.recnums|, width)
    ensures !IsKept(vals, missing, now, |v.recnums|, recBound, width)
  {
    FillableFacts(v, now, nlevs, locBound, recBound);
    MulMonotone(1, width, |now.recnums|);
    MulMonotone(1, width, |v.recnums|);
    MulMonotone(|v.recnums|, |now.recnums|, width);
    var rec := now.recnums[l] - recBound;
    var first := v.recidx[rec][0];
    CompanionEntry(v, now, nlevs, locBound, recBound, rec, l);
    vals := seq(|now.recnums| * width, p => if p == first then x else missing);
    CompanionValue(vals, missing, now.recnums, now.recidx, recBound, rec, l);
    assert FirstValue(vals, missing, now.recidx[rec]) == x;
    assert vals[l] == missing;
  }

  /**
   The original values alone are kept, for every content, exactly if there is one value per location
   or no companion to be filled has a number among the positions of original values.
   */
  lemma OriginalsKeptExactly<T(!new)>(v: Vectors, now: Vectors, nlevs: nat, locBound: nat, recBound: nat, width: nat,
                                      x: T, missing: T)
    requires IsFillable(v, now, nlevs, locBound, recBound) && width >= 1 && x != missing
    ensures AlwaysKeepsOriginals(missing, now, |v.recnums|, recBound, width)
            <==> width == 1 || FillsBeyond(v, now, recBound, width)
  {
    if width == 1 || FillsBeyond(v, now, recBound, width) {
      forall vals: seq<T> | IsContent(vals, missing, now, |v.recnums|, width)
        ensures IsKept(vals, missing, now, |v.recnums|, recBound, width)
      {
        KeptThere(v, now, nlevs, locBound, recBound, width, vals, missing);
      }
    } else {
      var l: nat :| IsToBeFilled(v, now, recBound, l) && l < |v.recnums| * width;
      var vals := OriginalIsHit(v, now, nlevs, locBound, recBound, width, x, missing, l);
    }
  }

  lemma KeptThere<T>(v: Vectors, now: Vectors, nlevs: nat, locBound: nat, recBound: nat, width: nat, vals: seq<T>,
                     missing: T)
    requires IsFillable(v, now, nlevs, locBound, recBound) && width >= 1
    requires IsContent(vals, missing, now, |v.recnums|, width) && (width == 1 || FillsBeyond(v, now, recBound, width))
    ensures IsKept(vals, missing, now, |v.recnums|, recBound, width)
  {
    MulMonotone(1, width, |now.recnums|);
    var out := FilledVector(vals, missing, now.recnums, now.recidx, recBound);
    forall p | 0 <= p < |v.recnums| * width && p < |vals|
      ensures out[p] == vals[p]
    {
      if out[p] != vals[p] {
        ChangedIsCompanion(v, now, nlevs, locBound, recBound, vals, missing, p);
        assert IsToBeFilled(v, now, recBound, p);
      }
    }
  }

  /** The first companion belongs to the lowest record. */
  lemma FirstCompanion(v: Vectors, now: Vectors, nlevs: nat, locBound: nat, recBound: nat, rec: nat)
    requires IsFillable(v, now, nlevs, locBound, recBound)
    requires rec in v.recnums && forall r :: r in v.recnums ==> rec <= r
    ensures |v.recnums| < |now.recnums| && now.recnums[|v.recnums|] == recBound + rec
  {
    FillableFacts(v, now, nlevs, locBound, recBound);
    RecordHasCompanion(v, now, nlevs, locBound, recBound, rec);
    var i :| 0 <= i < |now.recnums| && now.recnums[i] == recBound + rec;
    var r := now.recnums[|v.recnums|] - recBound;
    CompanionsFollowOriginals(v, now, nlevs, locBound, recBound, r);
    CompanionsInOrder(v, now, nlevs, locBound, recBound, i, |v.recnums|);
  }

  /** If the rank's lowest record is indexed, several values per location are enough to lose one. */
  lemma LowestIsHit(v: Vectors, now: Vectors, nlevs: nat, locBound: nat, recBound: nat, width: nat, rec: nat)
    requires IsFillable(v, now, nlevs, locBound, recBound) && width >= 2
    requires rec in v.recidx && v.recidx[rec] != [] && forall r :: r in v.recnums ==> rec <= r
    ensures !FillsBeyond(v, now, recBound, width)
  {
    FirstCompanion(v, now, nlevs, locBound, recBound, rec);
    assert v.recnums != [] && IsToBeFilled(v, now, recBound, |v.recnums|);
    MulMonotone(2, width, |v.recnums|);
  }

  /**
   The smallest case: two values per location, one record of two locations, one level. Position 2,
   the number of the companion, is the first value of location 1, which is overwritten; the companion
   stays missing.
   */
  lemma ValueIsLost()
    ensures var recidx: map<nat, seq<nat>> := map[0 := [0, 1], 1 := [2]];
            && ListsOwn([0, 0, 1], recidx)
            && FilledVector([1, 2, 3, 4, -1, -1], -1, [0, 0, 1], recidx, 1) == [1, 2, 1, 4, -1, -1]
  {
    var recidx: map<nat, seq<nat>>, vals := map[0 := [0, 1], 1 := [2]], [1, 2, 3, 4, -1, -1];
    var recnums: seq<nat> := [0, 0, 1];
    assert ListsOwn(recnums, recidx);
    assert FirstValue(vals, -1, recidx[0]) == 1;
    CompanionValue(vals, -1, recnums, recidx, 1, 0, 2);
    forall p: nat | p < 6 && p != 2
      ensures Filled(vals, -1, recnums, recidx, 1, Enumerate(recidx.Keys, 1), p) == vals[p]
    {
      OtherValue(vals, -1, recnums, recidx, 1, p);
    }
  }
}
