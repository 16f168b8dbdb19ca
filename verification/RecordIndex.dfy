/**
 The index from records to the locations they own (buildRecIdxUnsorted and buildSortedObsGroups,
 src/ObsSpace.cc). A location with its sort value is represented by the location alone.
 */
module RecordIndex {
  import opened Seqs

  /** The locations of a record, ascending. */
  function Positions(recnums: seq<nat>, rec: nat): (locs: seq<nat>)
    ensures forall k :: 0 <= k < |locs| ==> locs[k] < |recnums|
  {
    if recnums == [] then []
    else
      var n := |recnums| - 1;
      Positions(recnums[..n], rec) + if recnums[n] == rec then [n] else []
  }

  lemma {:induction false} PositionsMember(recnums: seq<nat>, rec: nat)
    ensures Ascending(Positions(recnums, rec))
    ensures forall l: nat :: l in Positions(recnums, rec) <==> l < |recnums| && recnums[l] == rec
  {
    if recnums != [] {
      PositionsMember(recnums[..|recnums| - 1], rec);
    }
  }

  lemma {:induction false} NoPositions(recnums: seq<nat>, rec: nat)
    ensures Positions(recnums, rec) == [] <==> rec !in recnums
  {
    if recnums != [] {
      NoPositions(recnums[..|recnums| - 1], rec);
    }
  }

  lemma PositionsSnoc(recnums: seq<nat>, last: nat, rec: nat)
    ensures Positions(recnums + [last], rec) == Positions(recnums, rec) + if last == rec then [|recnums|] else []
  {
    assert (recnums + [last])[..|recnums|] == recnums;
  }

  // ----- Maps that grow as std::map::operator[] and push_back grow them

  function Get<T>(m: map<nat, seq<T>>, rec: nat): seq<T> {
    if rec in m then m[rec] else []
  }

  function Push<T>(m: map<nat, seq<T>>, rec: nat, x: T): map<nat, seq<T>> {
    m[rec := Get(m, rec) + [x]]
  }

  lemma GetPush<T>(m: map<nat, seq<T>>, rec: nat, x: T, r: nat)
    ensures Get(Push(m, rec, x), r) == Get(m, r) + if r == rec then [x] else []
  {
  }

  /** Each record of the space has an entry, listing all of its locations in ascending order. */
  ghost predicate IsUnsortedIndex(recnums: seq<nat>, recidx: map<nat, seq<nat>>) {
    && (forall rec :: rec in recidx <==> rec in recnums)
    && (forall rec :: rec in recidx ==> recidx[rec] == Positions(recnums, rec))
  }

  /** Appending a location keeps the index in step. */
  lemma IndexSnoc(recnums: seq<nat>, last: nat, recidx: map<nat, seq<nat>>)
    requires IsUnsortedIndex(recnums, recidx)
    ensures IsUnsortedIndex(recnums + [last], Push(recidx, last, |recnums|))
  {
    forall rec: nat
      ensures Positions(recnums + [last], rec) == Positions(recnums, rec) + if last == rec then [|recnums|] else []
    {
      PositionsSnoc(recnums, last, rec);
    }
    NoPositions(recnums, last);
  }

  method BuildRecIdxUnsorted(recnums: seq<nat>) returns (recidx: map<nat, seq<nat>>)
    ensures IsUnsortedIndex(recnums, recidx)
  {
    recidx := map[];
    for iloc: nat := 0 to |recnums|
      invariant IsUnsortedIndex(recnums[..iloc], recidx)
    {
      assert recnums[..iloc + 1] == recnums[..iloc] + [recnums[iloc]];
      IndexSnoc(recnums[..iloc], recnums[iloc], recidx);
      recidx := Push(recidx, recnums[iloc], iloc);
    }
    assert recnums[..|recnums|] == recnums;
  }

  // ----- The order of a sorted record

  datatype Order = Order(values: seq<real>, ascending: bool) {
    /** By sort value, up or down; equal values by ascending location either way. */
    predicate Before(a: nat, b: nat)
      requires a < |values| && b < |values|
    {
      if values[a] == values[b] then a < b else (values[a] < values[b] <==> ascending)
    }

    predicate InRange(ls: seq<nat>) {
      forall i :: 0 <= i < |ls| ==> ls[i] < |values|
    }

    predicate IsSorted(ls: seq<nat>)
      requires InRange(ls)
    {
      forall i, j :: 0 <= i < j < |ls| ==> Before(ls[i], ls[j])
    }

    function Insert(l: nat, ls: seq<nat>): (r: seq<nat>)
      requires l < |values| && InRange(ls)
      ensures |r| == |ls| + 1 && forall x :: x in r <==> x == l || x in ls
      ensures InRange(r)
    {
      if ls == [] then [l]
      else if Before(l, ls[0]) then [l] + ls
      else
        assert ls == [ls[0]] + ls[1..];
        [ls[0]] + Insert(l, ls[1..])
    }

    /** Stands for std::sort: the order is total, so a sorted arrangement is unique. */
    function Sort(ls: seq<nat>): (r: seq<nat>)
      requires InRange(ls)
      ensures |r| == |ls| && forall x :: x in r <==> x in ls
      ensures InRange(r)
    {
      if ls == [] then []
      else
        assert ls == [ls[0]] + ls[1..];
        Insert(ls[0], Sort(ls[1..]))
    }

    lemma {:induction false} InsertSorts(l: nat, ls: seq<nat>)
      requires l < |values| && InRange(ls) && IsSorted(ls) && l !in ls
      ensures IsSorted(Insert(l, ls))
    {
      if ls != [] && !Before(l, ls[0]) {
        var rest := Insert(l, ls[1..]);
        InsertSorts(l, ls[1..]);
        forall j | 0 <= j < |rest|
          ensures Before(ls[0], rest[j])
        {
          assert rest[j] in rest;
          if rest[j] != l {
            var k :| 0 <= k < |ls[1..]| && ls[1..][k] == rest[j];
            assert ls[k + 1] == rest[j];
          }
        }
      }
    }

    lemma {:induction false} SortSorts(ls: seq<nat>)
      requires InRange(ls) && Distinct(ls)
      ensures IsSorted(Sort(ls))
      ensures forall i, j :: 0 <= i < j < |ls| ==>
                var a, b := Sort(ls)[i], Sort(ls)[j];
                && (ascending ==> values[a] <= values[b]) && (!ascending ==> values[a] >= values[b])
                && (values[a] == values[b] ==> a < b)
    {
      if ls != [] {
        SortSorts(ls[1..]);
        InsertSorts(ls[0], Sort(ls[1..]));
      }
    }
  }

  // ----- What the entry of a record is

  datatype Treatment = SORT | NO_SORT | IGNORE_MISSING

  function MaskOf(missing: seq<bool>, locs: seq<nat>): (mask: seq<bool>)
    requires forall k :: 0 <= k < |locs| ==> locs[k] < |missing|
    ensures |mask| == |locs|
  {
    seq(|locs|, k requires 0 <= k < |locs| => missing[locs[k]])
  }

  function Not(mask: seq<bool>): (r: seq<bool>)
    ensures |r| == |mask| && forall k :: 0 <= k < |mask| ==> r[k] == !mask[k]
  {
    seq(|mask|, k requires 0 <= k < |mask| => !mask[k])
  }

  /** The slots of a record that sorting must leave alone. */
  function FixedSlots(treatment: Treatment, missing: seq<bool>, locs: seq<nat>): (fixed: seq<bool>)
    requires forall k :: 0 <= k < |locs| ==> locs[k] < |missing|
    ensures |fixed| == |locs|
  {
    match treatment
    case SORT => seq(|locs|, _ => false)
    case NO_SORT => seq(|locs|, _ => true in MaskOf(missing, locs))
    case IGNORE_MISSING => MaskOf(missing, locs)
  }

  /**
   `entry` lists each of the locations `locs` once. Fixed slots keep their location; the others are
   in order among themselves.
   */
  ghost predicate IsEntry(order: Order, locs: seq<nat>, fixed: seq<bool>, entry: seq<nat>)
    requires order.InRange(locs)
  {
    && |entry| == |locs| == |fixed| && Distinct(entry) && order.InRange(entry)
    && (forall l :: l in entry <==> l in locs)
    && (forall k :: 0 <= k < |locs| && fixed[k] ==> entry[k] == locs[k])
    && (forall i, j :: 0 <= i < j < |entry| && !fixed[i] && !fixed[j] ==> order.Before(entry[i], entry[j]))
  }

  /** Where `a` and `b` agree up to a free slot, `b` does not have a later location there. */
  lemma NotAfter(order: Order, locs: seq<nat>, fixed: seq<bool>, a: seq<nat>, b: seq<nat>, k: nat)
    requires order.InRange(locs) && IsEntry(order, locs, fixed, a) && IsEntry(order, locs, fixed, b)
    requires k < |locs| && !fixed[k] && forall i :: 0 <= i < k ==> a[i] == b[i]
    ensures a[k] == b[k] || order.Before(b[k], a[k])
  {
    assert a[k] in a;
    var j :| 0 <= j < |b| && b[j] == a[k];
  }

  /** The requirements leave no choice: an entry is determined by them. */
  lemma EntryIsUnique(order: Order, locs: seq<nat>, fixed: seq<bool>, a: seq<nat>, b: seq<nat>)
    requires order.InRange(locs) && IsEntry(order, locs, fixed, a) && IsEntry(order, locs, fixed, b)
    ensures a == b
  {
    for k := 0 to |locs|
      invariant forall i :: 0 <= i < k ==> a[i] == b[i]
    {
      if !fixed[k] {
        NotAfter(order, locs, fixed, a, b, k);
        NotAfter(order, locs, fixed, b, a, k);
      }
    }
  }

  // ----- Building the sorted index

  /** The temporary maps of buildSortedObsGroups. */
  datatype Groups = Groups(
    /** Locations to sort, by record. */
    present: map<nat, seq<nat>>,
    /** Locations without a sort value, by record. */
    missing: map<nat, seq<nat>>,
    /** For each location of a record, whether its sort value is missing. */
    flags: map<nat, seq<bool>>,
    /** Records with a missing sort value. */
    tainted: set<nat>)

  /** What the maps say about a record whose locations are `locs`. */
  ghost predicate AreGroups(g: Groups, treatment: Treatment, locs: seq<nat>, mask: seq<bool>, rec: nat)
    requires |mask| == |locs|
  {
    && (rec in g.present <==> Get(g.present, rec) != [])
    && match treatment
       case SORT => Get(g.present, rec) == locs
       case NO_SORT => Get(g.present, rec) == locs && (rec in g.tainted <==> true in mask)
       case IGNORE_MISSING =>
         && Get(g.present, rec) == Select(locs, Not(mask))
         && Get(g.missing, rec) == Select(locs, mask)
         && Get(g.flags, rec) == mask
  }

  /** One turn of the first loop: files location `iloc` under its record. */
  function File(g: Groups, treatment: Treatment, recnum: nat, iloc: nat, isMissing: bool): Groups {
    match treatment
    case SORT => g.(present := Push(g.present, recnum, iloc))
    case NO_SORT =>
      g.(present := Push(g.present, recnum, iloc), tainted := if isMissing then g.tainted + {recnum} else g.tainted)
    case IGNORE_MISSING =>
      if isMissing then
        g.(missing := Push(g.missing, recnum, iloc), flags := Push(g.flags, recnum, true))
      else
        g.(present := Push(g.present, recnum, iloc), flags := Push(g.flags, recnum, false))
  }

  lemma NotSnoc(mask: seq<bool>, b: bool)
    ensures Not(mask + [b]) == Not(mask) + [!b]
  {
  }

  lemma SelectAppend<T>(xs: seq<T>, keep: seq<bool>, x: T, b: bool)
    requires |xs| == |keep|
    ensures Select(xs + [x], keep + [b]) == Select(xs, keep) + if b then [x] else []
  {
    assert (xs + [x])[..|xs|] == xs && (keep + [b])[..|xs|] == keep;
  }

  lemma FileSame(g: Groups, treatment: Treatment, locs: seq<nat>, mask: seq<bool>, recnum: nat, iloc: nat,
                 isMissing: bool)
    requires |mask| == |locs| && AreGroups(g, treatment, locs, mask, recnum)
    ensures AreGroups(File(g, treatment, recnum, iloc, isMissing), treatment, locs + [iloc], mask + [isMissing], recnum)
  {
    NotSnoc(mask, isMissing);
    SelectAppend(locs, mask, iloc, isMissing);
    SelectAppend(locs, Not(mask), iloc, !isMissing);
  }

  lemma FileOther(g: Groups, treatment: Treatment, locs: seq<nat>, mask: seq<bool>, recnum: nat, iloc: nat,
                  isMissing: bool, rec: nat)
    requires |mask| == |locs| && AreGroups(g, treatment, locs, mask, rec) && rec != recnum
    ensures AreGroups(File(g, treatment, recnum, iloc, isMissing), treatment, locs, mask, rec)
  {
  }

  /** The maps after the locations whose record numbers are `recnums`. */
  ghost predicate GroupsAt(g: Groups, treatment: Treatment, recnums: seq<nat>, missing: seq<bool>, rec: nat)
    requires |recnums| <= |missing|
  {
    var locs := Positions(recnums, rec);
    AreGroups(g, treatment, locs, MaskOf(missing, locs), rec)
  }

  lemma FileUnder(g: Groups, treatment: Treatment, recnums: seq<nat>, missing: seq<bool>, rec: nat)
    requires |recnums| < |missing| && GroupsAt(g, treatment, recnums, missing, rec)
    ensures GroupsAt(File(g, treatment, rec, |recnums|, missing[|recnums|]), treatment, recnums + [rec], missing, rec)
  {
    var i := |recnums|;
    PositionsSnoc(recnums, rec, rec);
    var locs, longer := Positions(recnums, rec), Positions(recnums + [rec], rec);
    assert MaskOf(missing, longer) == MaskOf(missing, locs) + [missing[i]];
    FileSame(g, treatment, locs, MaskOf(missing, locs), rec, i, missing[i]);
  }

  lemma FileElsewhere(g: Groups, treatment: Treatment, recnums: seq<nat>, missing: seq<bool>, last: nat, rec: nat)
    requires |recnums| < |missing| && GroupsAt(g, treatment, recnums, missing, rec) && rec != last
    ensures GroupsAt(File(g, treatment, last, |recnums|, missing[|recnums|]), treatment, recnums + [last], missing, rec)
  {
    PositionsSnoc(recnums, last, rec);
    var locs := Positions(recnums, rec);
    assert Positions(recnums + [last], rec) == locs;
    FileOther(g, treatment, locs, MaskOf(missing, locs), last, |recnums|, missing[|recnums|], rec);
  }

  method Collect(recnums: seq<nat>, missing: seq<bool>, treatment: Treatment) returns (g: Groups)
    requires |missing| == |recnums|
    ensures forall rec: nat :: GroupsAt(g, treatment, recnums, missing, rec)
  {
    g := Groups(map[], map[], map[], {});
    ghost var done: seq<nat> := [];
    for iloc: nat := 0 to |recnums|
      invariant done == recnums[..iloc]
      invariant forall rec: nat :: GroupsAt(g, treatment, done, missing, rec)
    {
      var next := File(g, treatment, recnums[iloc], iloc, missing[iloc]);
      forall rec: nat
        ensures GroupsAt(next, treatment, done + [recnums[iloc]], missing, rec)
      {
        if rec == recnums[iloc] {
          FileUnder(g, treatment, done, missing, rec);
        } else {
          FileElsewhere(g, treatment, done, missing, recnums[iloc], rec);
        }
      }
      g, done := next, done + [recnums[iloc]];
    }
    assert done == recnums;
  }

  /** The locations of a record in the order they have after the second loop. */
  function Arranged(order: Order, g: Groups, treatment: Treatment, rec: nat): seq<nat>
    requires rec in g.present && order.InRange(g.present[rec])
  {
    if treatment.NO_SORT? && rec in g.tainted then g.present[rec] else order.Sort(g.present[rec])
  }

  method SortRecords(order: Order, g: Groups, treatment: Treatment) returns (sorted: map<nat, seq<nat>>)
    requires forall rec :: rec in g.present ==> order.InRange(g.present[rec])
    ensures sorted.Keys == g.present.Keys
    ensures forall rec :: rec in sorted ==> sorted[rec] == Arranged(order, g, treatment, rec)
  {
    sorted := g.present;
    var todo := g.present.Keys;
    while todo != {}
      invariant todo <= g.present.Keys == sorted.Keys
      invariant forall rec :: rec in todo ==> sorted[rec] == g.present[rec]
      invariant forall rec :: rec in sorted && rec !in todo ==> sorted[rec] == Arranged(order, g, treatment, rec)
    {
      var rec :| rec in todo;
      todo := todo - {rec};
      if !(treatment.NO_SORT? && rec in g.tainted) {
        sorted := sorted[rec := order.Sort(sorted[rec])];
      }
    }
  }

  /** How many of the first `k` slots are flagged. */
  function Count(flags: seq<bool>, k: nat): (c: nat)
    requires k <= |flags|
    ensures c <= k
  {
    if k == 0 then 0 else Count(flags, k - 1) + if flags[k - 1] then 1 else 0
  }

  lemma {:induction false} CountMonotone(flags: seq<bool>, i: nat, j: nat)
    requires i <= j <= |flags|
    ensures Count(flags, i) <= Count(flags, j) <= Count(flags, i) + j - i
  {
    if i < j {
      CountMonotone(flags, i, j - 1);
    }
  }

  lemma {:induction false} CountPrefix(flags: seq<bool>, n: nat, k: nat)
    requires k <= n <= |flags|
    ensures Count(flags[..n], k) == Count(flags, k)
  {
    if k > 0 {
      CountPrefix(flags, n, k - 1);
    }
  }

  lemma {:induction false} CountNot(flags: seq<bool>, k: nat)
    requires k <= |flags|
    ensures Count(Not(flags), k) == k - Count(flags, k)
  {
    if k > 0 {
      CountNot(flags, k - 1);
    }
  }

  /** Selecting in terms of counts. */
  lemma {:induction false} SelectCount(xs: seq<nat>, keep: seq<bool>)
    requires |xs| == |keep|
    ensures |Select(xs, keep)| == Count(keep, |keep|)
  {
    if xs != [] {
      var n := |xs| - 1;
      SelectCount(xs[..n], keep[..n]);
      CountPrefix(keep, n, n);
    }
  }

  lemma SelectAtCount(xs: seq<nat>, keep: seq<bool>, k: nat)
    requires |xs| == |keep| && k < |xs| && keep[k]
    ensures Count(keep, k) < |Select(xs, keep)| && Select(xs, keep)[Count(keep, k)] == xs[k]
  {
    SelectAt(xs, keep, k);
    SelectCount(xs[..k], keep[..k]);
    CountPrefix(keep, k, k);
  }

  /** Every count below the total is reached at a flagged slot. */
  lemma {:induction false} SlotOf(flags: seq<bool>, n: nat, c: nat) returns (k: nat)
    requires n <= |flags| && c < Count(flags, n)
    ensures k < n && flags[k] && Count(flags, k) == c
  {
    if c < Count(flags, n - 1) {
      k := SlotOf(flags, n - 1, c);
    } else {
      k := n - 1;
    }
  }

  /** A flagged slot takes the next missing location, any other the next present one. */
  ghost predicate SlotIs(flags: seq<bool>, missing: seq<nat>, present: seq<nat>, k: nat, l: nat)
    requires k < |flags|
  {
    var c := Count(flags, k);
    if flags[k] then c < |missing| && l == missing[c] else k - c < |present| && l == present[k - c]
  }

  ghost predicate Dealt(flags: seq<bool>, missing: seq<nat>, present: seq<nat>, entry: seq<nat>) {
    && |entry| <= |flags|
    && forall k :: 0 <= k < |entry| ==> SlotIs(flags, missing, present, k, entry[k])
  }

  ghost predicate Fits(flags: seq<bool>, missing: seq<nat>, present: seq<nat>) {
    |missing| == Count(flags, |flags|) && |present| == |flags| - Count(flags, |flags|)
  }

  lemma LocationLeft(flags: seq<bool>, missing: seq<nat>, present: seq<nat>, i: nat)
    requires Fits(flags, missing, present) && i < |flags|
    ensures var c := Count(flags, i);
            && Count(flags, i + 1) == (if flags[i] then c + 1 else c)
            && if flags[i] then c < |missing| else i - c < |present|
  {
    CountMonotone(flags, i + 1, |flags|);
  }

  method Merge(flags: seq<bool>, missing: seq<nat>, present: seq<nat>) returns (entry: seq<nat>)
    requires Fits(flags, missing, present)
    ensures |entry| == |flags| && Dealt(flags, missing, present, entry)
  {
    entry := [];
    var countPresent, countMissing := 0, 0;
    for iloc := 0 to |flags|
      invariant |entry| == iloc && countMissing == Count(flags, iloc) && countPresent == iloc - countMissing
      invariant Dealt(flags, missing, present, entry)
    {
      LocationLeft(flags, missing, present, iloc);
      if flags[iloc] {
        entry := entry + [missing[countMissing]];
        countMissing := countMissing + 1;
      } else {
        entry := entry + [present[countPresent]];
        countPresent := countPresent + 1;
      }
    }
  }

  // ----- Why the entries are right

  /** `x` stands at a flagged slot. */
  ghost predicate Flagged(xs: seq<nat>, flags: seq<bool>, x: nat)
    requires |xs| == |flags|
  {
    exists k :: 0 <= k < |xs| && flags[k] && xs[k] == x
  }

  lemma {:induction false} SelectMember(xs: seq<nat>, flags: seq<bool>, x: nat)
    requires |xs| == |flags|
    ensures x in Select(xs, flags) <==> Flagged(xs, flags, x)
  {
    if xs != [] {
      var n := |xs| - 1;
      SelectMember(xs[..n], flags[..n], x);
      if Flagged(xs[..n], flags[..n], x) {
        var k :| 0 <= k < n && flags[..n][k] && xs[..n][k] == x;
        assert flags[k] && xs[k] == x;
      }
      if Flagged(xs, flags, x) && !(flags[n] && xs[n] == x) {
        var k :| 0 <= k < |xs| && flags[k] && xs[k] == x;
        assert flags[..n][k] && xs[..n][k] == x;
      }
    }
  }

  /** Fixed slots keep their locations; free slots share out the same locations, in order. */
  ghost predicate IsDealt(order: Order, locs: seq<nat>, fixed: seq<bool>, free: seq<bool>, entry: seq<nat>) {
    && |entry| == |locs| == |fixed| && free == Not(fixed) && order.InRange(entry)
    && (forall k :: 0 <= k < |locs| && fixed[k] ==> entry[k] == locs[k])
    && (forall i, j :: 0 <= i < j < |locs| && !fixed[i] && !fixed[j] ==> order.Before(entry[i], entry[j]))
    && (forall l :: Flagged(entry, free, l) <==> Flagged(locs, free, l))
  }

  lemma MergedFixed(locs: seq<nat>, fixed: seq<bool>, missing: seq<nat>, present: seq<nat>, entry: seq<nat>, k: nat)
    requires |locs| == |fixed| && missing == Select(locs, fixed) && |entry| == |fixed|
             && Dealt(fixed, missing, present, entry)
    requires k < |locs| && fixed[k]
    ensures entry[k] == locs[k]
  {
    SelectAtCount(locs, fixed, k);
    assert SlotIs(fixed, missing, present, k, entry[k]);
  }

  lemma MergedInOrder(order: Order, fixed: seq<bool>, missing: seq<nat>, present: seq<nat>, entry: seq<nat>, i: nat,
                      j: nat)
    requires |entry| == |fixed| && Dealt(fixed, missing, present, entry)
    requires order.InRange(present) && order.IsSorted(present)
    requires i < j < |fixed| && !fixed[i] && !fixed[j]
    ensures entry[i] < |order.values| && entry[j] < |order.values| && order.Before(entry[i], entry[j])
  {
    CountMonotone(fixed, i + 1, j);
    assert SlotIs(fixed, missing, present, i, entry[i]) && SlotIs(fixed, missing, present, j, entry[j]);
  }

  /** The free slots hold exactly the present locations. */
  lemma MergedPresent(fixed: seq<bool>, free: seq<bool>, missing: seq<nat>, present: seq<nat>, entry: seq<nat>, l: nat)
    requires |entry| == |fixed| && Fits(fixed, missing, present) && Dealt(fixed, missing, present, entry)
             && free == Not(fixed)
    ensures Flagged(entry, free, l) <==> l in present
  {
    if l in present {
      var c :| 0 <= c < |present| && present[c] == l;
      CountNot(fixed, |fixed|);
      var k := SlotOf(free, |free|, c);
      CountNot(fixed, k);
      assert SlotIs(fixed, missing, present, k, entry[k]);
      assert free[k] && entry[k] == l;
    }
    if Flagged(entry, free, l) {
      var k :| 0 <= k < |entry| && free[k] && entry[k] == l;
      assert SlotIs(fixed, missing, present, k, entry[k]);
    }
  }

  lemma MergedIsDealt(order: Order, locs: seq<nat>, fixed: seq<bool>, free: seq<bool>,
                      missing: seq<nat>, present: seq<nat>, entry: seq<nat>)
    requires |locs| == |fixed| && order.InRange(locs) && free == Not(fixed)
    requires missing == Select(locs, fixed) && Fits(fixed, missing, present)
    requires |entry| == |fixed| && Dealt(fixed, missing, present, entry)
    requires order.InRange(present) && order.IsSorted(present)
    requires forall l :: l in present <==> l in Select(locs, free)
    ensures IsDealt(order, locs, fixed, free, entry)
  {
    forall k | 0 <= k < |locs|
      ensures entry[k] < |order.values| && (fixed[k] ==> entry[k] == locs[k])
    {
      assert SlotIs(fixed, missing, present, k, entry[k]);
      if fixed[k] { MergedFixed(locs, fixed, missing, present, entry, k); }
    }
    forall i, j | 0 <= i < j < |locs| && !fixed[i] && !fixed[j]
      ensures order.Before(entry[i], entry[j])
    {
      MergedInOrder(order, fixed, missing, present, entry, i, j);
    }
    forall l: nat
      ensures Flagged(entry, free, l) <==> Flagged(locs, free, l)
    {
      MergedPresent(fixed, free, missing, present, entry, l);
      SelectMember(locs, free, l);
    }
  }

  lemma DealtHas(order: Order, locs: seq<nat>, fixed: seq<bool>, free: seq<bool>, entry: seq<nat>, k: nat)
    requires IsDealt(order, locs, fixed, free, entry) && k < |locs|
    ensures entry[k] in locs && locs[k] in entry
  {
    if free[k] {
      assert Flagged(entry, free, entry[k]) && Flagged(locs, free, locs[k]);
    }
  }

  /** The location of a fixed slot is in no other slot. */
  lemma DealtDiffers(order: Order, locs: seq<nat>, fixed: seq<bool>, free: seq<bool>, entry: seq<nat>, i: nat, j: nat)
    requires IsDealt(order, locs, fixed, free, entry) && Distinct(locs)
    requires i < |entry| && j < |entry| && i != j && fixed[i]
    ensures entry[i] != entry[j]
  {
    if free[j] {
      assert Flagged(entry, free, entry[j]);
      var k :| 0 <= k < |locs| && free[k] && locs[k] == entry[j];
    }
  }

  lemma DealtDistinct(order: Order, locs: seq<nat>, fixed: seq<bool>, free: seq<bool>, entry: seq<nat>)
    requires Distinct(locs) && IsDealt(order, locs, fixed, free, entry)
    ensures Distinct(entry)
  {
    forall i, j | 0 <= i < j < |entry|
      ensures entry[i] != entry[j]
    {
      if fixed[i] {
        DealtDiffers(order, locs, fixed, free, entry, i, j);
      } else if fixed[j] {
        DealtDiffers(order, locs, fixed, free, entry, j, i);
      } else {
        assert order.Before(entry[i], entry[j]);
      }
    }
  }

  lemma DealtMembers(order: Order, locs: seq<nat>, fixed: seq<bool>, free: seq<bool>, entry: seq<nat>)
    requires IsDealt(order, locs, fixed, free, entry)
    ensures forall l :: l in entry <==> l in locs
  {
    forall k | 0 <= k < |locs|
      ensures entry[k] in locs && locs[k] in entry
    {
      DealtHas(order, locs, fixed, free, entry, k);
    }
  }

  lemma DealtIsEntry(order: Order, locs: seq<nat>, fixed: seq<bool>, free: seq<bool>, entry: seq<nat>)
    requires order.InRange(locs) && Distinct(locs) && IsDealt(order, locs, fixed, free, entry)
    ensures IsEntry(order, locs, fixed, entry)
  {
    DealtDistinct(order, locs, fixed, free, entry);
    DealtMembers(order, locs, fixed, free, entry);
  }

  /** A record sorted as a whole. */
  lemma SortedIsEntry(order: Order, locs: seq<nat>, fixed: seq<bool>)
    requires order.InRange(locs) && Distinct(locs) && |fixed| == |locs| && forall k :: 0 <= k < |fixed| ==> !fixed[k]
    ensures IsEntry(order, locs, fixed, order.Sort(locs))
  {
    order.SortSorts(locs);
  }

  /** Whether a record gets an entry at all. */
  ghost predicate HasEntry(treatment: Treatment, missing: seq<bool>, locs: seq<nat>)
    requires forall k :: 0 <= k < |locs| ==> locs[k] < |missing|
  {
    if treatment.IGNORE_MISSING? then false in MaskOf(missing, locs) else locs != []
  }

  /** Turns what the loops have collected about a record into its entry. */
  method MakeEntry(order: Order, treatment: Treatment, g: Groups, sorted: seq<nat>, rec: nat,
                   ghost locs: seq<nat>, ghost missing: seq<bool>) returns (entry: seq<nat>)
    requires Ascending(locs) && order.InRange(locs) && |missing| == |order.values|
    requires AreGroups(g, treatment, locs, MaskOf(missing, locs), rec) && rec in g.present
    requires order.InRange(g.present[rec]) && sorted == Arranged(order, g, treatment, rec)
    ensures IsEntry(order, locs, FixedSlots(treatment, missing, locs), entry)
  {
    ghost var mask := MaskOf(missing, locs);
    match treatment
    case SORT =>
      entry := sorted;
      SortedIsEntry(order, locs, FixedSlots(treatment, missing, locs));
    case NO_SORT =>
      entry := sorted;
      if rec !in g.tainted {
        SortedIsEntry(order, locs, FixedSlots(treatment, missing, locs));
      }
    case IGNORE_MISSING =>
      MergeFits(order, locs, mask);
      entry := Merge(Get(g.flags, rec), Get(g.missing, rec), sorted);
      MergedIsDealt(order, locs, mask, Not(mask), Select(locs, mask), sorted, entry);
      DealtIsEntry(order, locs, mask, Not(mask), entry);
  }

  lemma MergeFits(order: Order, locs: seq<nat>, mask: seq<bool>)
    requires Ascending(locs) && |mask| == |locs|
    ensures |Select(locs, mask)| == Count(mask, |mask|) && |Select(locs, Not(mask))| == |mask| - Count(mask, |mask|)
    ensures order.InRange(Select(locs, Not(mask))) ==> order.IsSorted(order.Sort(Select(locs, Not(mask))))
  {
    SelectCount(locs, mask);
    SelectCount(locs, Not(mask));
    CountNot(mask, |mask|);
    SelectAscending(locs, Not(mask));
    if order.InRange(Select(locs, Not(mask))) {
      order.SortSorts(Select(locs, Not(mask)));
    }
  }

  /** Which records have an entry, and what each entry is. */
  ghost predicate IsSortedIndex(order: Order, treatment: Treatment, missing: seq<bool>, recnums: seq<nat>,
                                recidx: map<nat, seq<nat>>)
    requires |missing| == |recnums| == |order.values|
  {
    && (forall rec: nat :: rec in recidx <==> HasEntry(treatment, missing, Positions(recnums, rec)))
    && (forall rec: nat :: rec in recidx ==>
          IsEntry(order, Positions(recnums, rec), FixedSlots(treatment, missing, Positions(recnums, rec)), recidx[rec]))
  }

  /** A record has locations to sort exactly if it is to get an entry, and they are in range. */
  lemma PresentIsEntry(order: Order, treatment: Treatment, missing: seq<bool>, recnums: seq<nat>, g: Groups, rec: nat)
    requires |missing| == |recnums| == |order.values| && GroupsAt(g, treatment, recnums, missing, rec)
    ensures rec in g.present <==> HasEntry(treatment, missing, Positions(recnums, rec))
    ensures rec in g.present ==> order.InRange(g.present[rec])
    ensures Ascending(Positions(recnums, rec))
  {
    PositionsMember(recnums, rec);
    var locs := Positions(recnums, rec);
    var mask := MaskOf(missing, locs);
    if treatment.IGNORE_MISSING? {
      SelectAscending(locs, Not(mask));
      SelectSome(locs, Not(mask));
      assert true in Not(mask) <==> false in mask by {
        assert forall k :: 0 <= k < |mask| ==> Not(mask)[k] == !mask[k];
      }
      var present := Select(locs, Not(mask));
      forall k | 0 <= k < |present|
        ensures present[k] < |order.values|
      {
        assert present[k] in present;
      }
    }
  }

  lemma {:induction false} SelectSome(xs: seq<nat>, keep: seq<bool>)
    requires |xs| == |keep|
    ensures Select(xs, keep) != [] <==> true in keep
  {
    if xs != [] {
      var n := |xs| - 1;
      SelectSome(xs[..n], keep[..n]);
      assert keep == keep[..n] + [keep[n]];
    }
  }

  // ----- What the entries are, written out

  /** Location `a` may come before `b`: the values go up or down, and equal values by location. */
  ghost predicate InOrder(values: seq<real>, ascending: bool, a: nat, b: nat)
    requires a < |values| && b < |values|
  {
    && (ascending ==> values[a] <= values[b]) && (!ascending ==> values[a] >= values[b])
    && (values[a] == values[b] ==> a < b)
  }

  /** As many locations of the record precede location `l` as slots precede slot `k`. */
  ghost predicate IsAtHome(recnums: seq<nat>, rec: nat, l: nat, k: nat) {
    |set i: nat | i < l && i < |recnums| && recnums[i] == rec| == k
  }

  /** The locations of the record, arranged as the treatment of missing sort values asks. */
  ghost predicate IsArranged(values: seq<real>, ascending: bool, treatment: Treatment, missing: seq<bool>,
                             recnums: seq<nat>, rec: nat, entry: seq<nat>)
    requires |values| == |missing| == |recnums|
  {
    && Distinct(entry) && (forall k :: 0 <= k < |entry| ==> entry[k] < |recnums| && recnums[entry[k]] == rec)
    && (forall l :: 0 <= l < |recnums| && recnums[l] == rec ==> l in entry)
    && match treatment
       case SORT => forall i, j :: 0 <= i < j < |entry| ==> InOrder(values, ascending, entry[i], entry[j])
       case NO_SORT =>
         if forall k :: 0 <= k < |entry| ==> !missing[entry[k]] then
           forall i, j :: 0 <= i < j < |entry| ==> InOrder(values, ascending, entry[i], entry[j])
         else Ascending(entry)
       case IGNORE_MISSING =>
         && (forall k :: 0 <= k < |entry| && missing[entry[k]] ==> IsAtHome(recnums, rec, entry[k], k))
         && (forall i, j :: 0 <= i < j < |entry| && !missing[entry[i]] && !missing[entry[j]] ==>
               InOrder(values, ascending, entry[i], entry[j]))
  }

  lemma {:induction false} PositionIsHome(recnums: seq<nat>, rec: nat, k: nat)
    requires k < |Positions(recnums, rec)|
    ensures IsAtHome(recnums, rec, Positions(recnums, rec)[k], k)
  {
    PositionsMember(recnums, rec);
    var ps := Positions(recnums, rec);
    var before := set i: nat | i < ps[k] && i < |recnums| && recnums[i] == rec;
    assert before == Elements(ps[..k]) by {
      forall i: nat
        ensures i in before <==> i in ps[..k]
      {
        if i in before {
          assert i in ps;
        }
      }
    }
    DistinctCount(ps[..k]);
  }

  lemma FreeAreInOrder(order: Order, locs: seq<nat>, fixed: seq<bool>, entry: seq<nat>)
    requires order.InRange(locs) && IsEntry(order, locs, fixed, entry)
    ensures forall i, j :: 0 <= i < j < |entry| && !fixed[i] && !fixed[j] ==>
              InOrder(order.values, order.ascending, entry[i], entry[j])
  {
    assert forall i, j :: 0 <= i < j < |entry| && !fixed[i] && !fixed[j] ==> order.Before(entry[i], entry[j]);
  }

  /** Missing locations are in the fixed slots, which are theirs. */
  lemma MissingStay(order: Order, missing: seq<bool>, locs: seq<nat>, entry: seq<nat>, k: nat)
    requires order.InRange(locs) && (forall i :: 0 <= i < |locs| ==> locs[i] < |missing|) && Distinct(locs)
    requires IsEntry(order, locs, MaskOf(missing, locs), entry) && k < |entry|
    ensures entry[k] < |missing| && (missing[entry[k]] <==> MaskOf(missing, locs)[k])
    ensures missing[entry[k]] ==> entry[k] == locs[k]
  {
    assert entry[k] in entry;
    var i :| 0 <= i < |locs| && locs[i] == entry[k];
  }

  lemma EntryIsArranged(order: Order, treatment: Treatment, missing: seq<bool>, recnums: seq<nat>, rec: nat,
                        entry: seq<nat>)
    requires |missing| == |recnums| == |order.values|
    requires IsEntry(order, Positions(recnums, rec), FixedSlots(treatment, missing, Positions(recnums, rec)), entry)
    ensures IsArranged(order.values, order.ascending, treatment, missing, recnums, rec, entry)
  {
    var locs := Positions(recnums, rec);
    var fixed := FixedSlots(treatment, missing, locs);
    PositionsMember(recnums, rec);
    FreeAreInOrder(order, locs, fixed, entry);
    forall k | 0 <= k < |entry|
      ensures entry[k] < |recnums| && recnums[entry[k]] == rec
    {
      assert entry[k] in entry;
    }
    match treatment {
      case SORT =>
      case NO_SORT =>
        NoSortIsArranged(missing, locs, entry, fixed);
      case IGNORE_MISSING =>
        forall k | 0 <= k < |entry|
          ensures entry[k] < |missing| && (missing[entry[k]] <==> fixed[k])
          ensures missing[entry[k]] ==> IsAtHome(recnums, rec, entry[k], k)
        {
          MissingStay(order, missing, locs, entry, k);
          PositionIsHome(recnums, rec, k);
        }
    }
  }

  lemma NoSortIsArranged(missing: seq<bool>, locs: seq<nat>, entry: seq<nat>, fixed: seq<bool>)
    requires |entry| == |locs| && (forall l :: l in entry <==> l in locs) && Ascending(locs)
    requires (forall i :: 0 <= i < |locs| ==> locs[i] < |missing|) && fixed == FixedSlots(NO_SORT, missing, locs)
    requires forall k :: 0 <= k < |locs| && fixed[k] ==> entry[k] == locs[k]
    ensures forall k :: 0 <= k < |entry| ==> entry[k] < |missing|
    ensures (forall k :: 0 <= k < |entry| ==> !missing[entry[k]]) ==> forall k :: 0 <= k < |fixed| ==> !fixed[k]
    ensures !(forall k :: 0 <= k < |entry| ==> !missing[entry[k]]) ==> Ascending(entry)
  {
    var mask := MaskOf(missing, locs);
    forall k | 0 <= k < |entry|
      ensures entry[k] < |missing| && (missing[entry[k]] ==> true in mask)
    {
      assert entry[k] in locs;
      var i :| 0 <= i < |locs| && locs[i] == entry[k];
      assert mask[i] in mask;
    }
    if true in mask {
      var i :| 0 <= i < |mask| && mask[i];
      assert entry == locs && missing[entry[i]];
    }
  }

  method BuildSortedObsGroups(order: Order, treatment: Treatment, missing: seq<bool>, recnums: seq<nat>)
      returns (recidx: map<nat, seq<nat>>)
    requires |missing| == |recnums| == |order.values|
    ensures IsSortedIndex(order, treatment, missing, recnums, recidx)
    ensures forall rec: nat :: rec in recidx ==>
              IsArranged(order.values, order.ascending, treatment, missing, recnums, rec, recidx[rec])
  {
    var g := Collect(recnums, missing, treatment);
    forall rec: nat
      ensures rec in g.present <==> HasEntry(treatment, missing, Positions(recnums, rec))
      ensures rec in g.present ==> order.InRange(g.present[rec])
      ensures Ascending(Positions(recnums, rec))
    {
      PresentIsEntry(order, treatment, missing, recnums, g, rec);
    }
    var sorted := SortRecords(order, g, treatment);
    recidx := map[];
    var todo := sorted.Keys;
    while todo != {}
      invariant todo <= sorted.Keys && recidx.Keys == sorted.Keys - todo
      invariant forall rec: nat :: rec in recidx ==>
                  IsEntry(order, Positions(recnums, rec), FixedSlots(treatment, missing, Positions(recnums, rec)),
                          recidx[rec])
    {
      var rec :| rec in todo;
      assert GroupsAt(g, treatment, recnums, missing, rec);
      var entry := MakeEntry(order, treatment, g, sorted[rec], rec, Positions(recnums, rec), missing);
      recidx := recidx[rec := entry];
      todo := todo - {rec};
    }
    SortedIndexIsArranged(order, treatment, missing, recnums, recidx);
  }

  lemma SortedIndexIsArranged(order: Order, treatment: Treatment, missing: seq<bool>, recnums: seq<nat>,
                              recidx: map<nat, seq<nat>>)
    requires |missing| == |recnums| == |order.values| && IsSortedIndex(order, treatment, missing, recnums, recidx)
    ensures forall rec: nat :: rec in recidx ==>
              IsArranged(order.values, order.ascending, treatment, missing, recnums, rec, recidx[rec])
  {
    forall rec: nat | rec in recidx
      ensures IsArranged(order.values, order.ascending, treatment, missing, recnums, rec, recidx[rec])
    {
      PositionsMember(recnums, rec);
      EntryIsArranged(order, treatment, missing, recnums, rec, recidx[rec]);
    }
  }

  // ----- What the index covers

  /** A location is listed, and then once and under its own record only, unless its record has no entry. */
  lemma SortedIndexCovers(order: Order, treatment: Treatment, missing: seq<bool>, recnums: seq<nat>,
                          recidx: map<nat, seq<nat>>, l: nat)
    requires |missing| == |recnums| == |order.values| && IsSortedIndex(order, treatment, missing, recnums, recidx)
    requires l < |recnums|
    ensures forall rec :: rec in recidx && l in recidx[rec] ==> rec == recnums[l] && Distinct(recidx[rec])
    ensures recnums[l] in recidx <==> exists rec :: rec in recidx && l in recidx[rec]
  {
    forall rec: nat
      ensures l in Positions(recnums, rec) <==> recnums[l] == rec
    {
      PositionsMember(recnums, rec);
    }
  }

  /** The records that go without an entry: those ignored because every sort value is missing. */
  lemma SortedIndexLacks(order: Order, treatment: Treatment, missing: seq<bool>, recnums: seq<nat>,
                         recidx: map<nat, seq<nat>>, rec: nat)
    requires |missing| == |recnums| == |order.values| && IsSortedIndex(order, treatment, missing, recnums, recidx)
    requires rec in recnums
    ensures rec !in recidx <==>
              treatment.IGNORE_MISSING? && forall l :: 0 <= l < |recnums| && recnums[l] == rec ==> missing[l]
  {
    var locs := Positions(recnums, rec);
    PositionsMember(recnums, rec);
    NoPositions(recnums, rec);
    if treatment.IGNORE_MISSING? {
      var mask := MaskOf(missing, locs);
      if l :| 0 <= l < |recnums| && recnums[l] == rec && !missing[l] {
        var k :| 0 <= k < |locs| && locs[k] == l;
        assert mask[k] == false;
      }
      if false in mask {
        var k :| 0 <= k < |mask| && mask[k] == false;
        assert locs[k] in locs;
      }
    }
  }
}
