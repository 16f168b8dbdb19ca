/** Filling variables at companion locations (extendVariable, src/ObsSpace.cc). */
module ExtendedVariables {
  import opened Companions
  import opened RecordIndex
  import opened Extension
  import opened ExtendedWorld

  /** Each entry of the record index lists locations of its own record. */
  ghost predicate ListsOwn(recnums: seq<nat>, recidx: map<nat, seq<nat>>) {
    forall rec, k :: rec in recidx && 0 <= k < |recidx[rec]| ==>
      recidx[rec][k] < |recnums| && recnums[recidx[rec][k]] == rec
  }

  /** The value of the first location in `locs` that has one, or `missing`. */
  function FirstValue<T(==)>(vals: seq<T>, missing: T, locs: seq<nat>): T
    requires forall k :: 0 <= k < |locs| ==> locs[k] < |vals|
  {
    if locs == [] then missing
    else if vals[locs[0]] != missing then vals[locs[0]]
    else FirstValue(vals, missing, locs[1..])
  }

  lemma {:induction false} FirstValueIsFirst<T>(vals: seq<T>, missing: T, locs: seq<nat>, k: nat)
    requires forall i :: 0 <= i < |locs| ==> locs[i] < |vals|
    requires k <= |locs| && forall i :: 0 <= i < k ==> vals[locs[i]] == missing
    ensures k < |locs| && vals[locs[k]] != missing ==> FirstValue(vals, missing, locs) == vals[locs[k]]
    ensures k == |locs| ==> FirstValue(vals, missing, locs) == missing
  {
    if k > 0 {
      FirstValueIsFirst(vals, missing, locs[1..], k - 1);
    }
  }

  /** Only the values at `locs` matter. */
  lemma {:induction false} FirstValueSame<T>(vals: seq<T>, other: seq<T>, missing: T, locs: seq<nat>)
    requires forall i :: 0 <= i < |locs| ==> locs[i] < |vals| && locs[i] < |other| && vals[locs[i]] == other[locs[i]]
    ensures FirstValue(vals, missing, locs) == FirstValue(other, missing, locs)
  {
    if locs != [] {
      FirstValueSame(vals, other, missing, locs[1..]);
    }
  }

  /** The search for a value in a record. */
  method FindFillValue<T(==)>(varVals: seq<T>, missing: T, locs: seq<nat>) returns (fillValue: T)
    requires forall i :: 0 <= i < |locs| ==> locs[i] < |varVals|
    ensures fillValue == FirstValue(varVals, missing, locs)
  {
    fillValue := missing;
    for k := 0 to |locs|
      invariant fillValue == missing && forall i :: 0 <= i < k ==> varVals[locs[i]] == missing
    {
      if varVals[locs[k]] != missing {
        fillValue := varVals[locs[k]];
        FirstValueIsFirst(varVals, missing, locs, k);
        return;
      }
    }
    FirstValueIsFirst(varVals, missing, locs, |locs|);
  }

  method FillRecord<T>(varVals: seq<T>, locs: seq<nat>, fillValue: T) returns (out: seq<T>)
    requires forall k :: 0 <= k < |locs| ==> locs[k] < |varVals|
    ensures |out| == |varVals| && forall l :: 0 <= l < |out| ==> out[l] == if l in locs then fillValue else varVals[l]
  {
    out := varVals;
    for k := 0 to |locs|
      invariant |out| == |varVals|
      invariant forall l :: 0 <= l < |out| ==> out[l] == if l in locs[..k] then fillValue else varVals[l]
    {
      out := out[locs[k] := fillValue];
      assert locs[..k + 1] == locs[..k] + [locs[k]];
    }
    assert locs[..|locs|] == locs;
  }

  /**
   Position `l` of the values once the companions of the records `done` have been filled. The values
   are those of the whole variable in one row-major vector, and the loop indexes them by location; so
   `l` is a location only where a variable has one value per location.
   */
  function Filled<T(==)>(vals: seq<T>, missing: T, recnums: seq<nat>, recidx: map<nat, seq<nat>>, recBound: nat,
                         done: seq<nat>, l: nat): T
    requires |recnums| <= |vals| && ListsOwn(recnums, recidx) && l < |vals|
  {
    if l < |recnums| && recnums[l] - recBound in done && recnums[l] - recBound in recidx && l in Get(recidx, recnums[l])
      && FirstValue(vals, missing, recidx[recnums[l] - recBound]) != missing then
      FirstValue(vals, missing, recidx[recnums[l] - recBound])
    else vals[l]
  }

  lemma OwnLocation(recnums: seq<nat>, recidx: map<nat, seq<nat>>, rec: nat, l: nat)
    requires ListsOwn(recnums, recidx)
    ensures l in Get(recidx, rec) ==> l < |recnums| && recnums[l] == rec
  {
  }

  /** Filling one more record. */
  lemma FilledStep<T>(vals: seq<T>, missing: T, recnums: seq<nat>, recidx: map<nat, seq<nat>>, recBound: nat,
                      done: seq<nat>, rec: nat, l: nat)
    requires |recnums| <= |vals| && ListsOwn(recnums, recidx) && l < |vals| && rec in recidx && rec !in done
    ensures var fill := FirstValue(vals, missing, recidx[rec]);
            Filled(vals, missing, recnums, recidx, recBound, done + [rec], l)
            == if fill != missing && l in Get(recidx, recBound + rec) then fill
               else Filled(vals, missing, recnums, recidx, recBound, done, l)
  {
    OwnLocation(recnums, recidx, recBound + rec, l);
  }

  /** A record whose companion entry is looked up, and thereby created where it does not exist. */
  predicate LooksUp<T(==)>(vals: seq<T>, missing: T, recnums: seq<nat>, recidx: map<nat, seq<nat>>, recBound: nat,
                           rec: nat)
    requires |recnums| <= |vals| && ListsOwn(recnums, recidx)
  {
    rec in recidx && rec < recBound && FirstValue(vals, missing, recidx[rec]) != missing
  }

  /** An entry of the record index stays; a companion entry that is looked up in vain is created empty. */
  ghost predicate LookedUpAt<T>(vals: seq<T>, missing: T, recnums: seq<nat>, recidx: map<nat, seq<nat>>, recBound: nat,
                                done: seq<nat>, grown: map<nat, seq<nat>>, rec: nat)
    requires |recnums| <= |vals| && ListsOwn(recnums, recidx)
  {
    if rec in recidx then rec in grown && grown[rec] == recidx[rec]
    else if rec >= recBound && rec - recBound in done
      && LooksUp(vals, missing, recnums, recidx, recBound, rec - recBound) then
      rec in grown && grown[rec] == []
    else rec !in grown
  }

  /** `grown` is `recidx` after the companions of the records in `done` have been looked up. */
  ghost predicate IsLookedUp<T>(vals: seq<T>, missing: T, recnums: seq<nat>, recidx: map<nat, seq<nat>>, recBound: nat,
                                done: seq<nat>, grown: map<nat, seq<nat>>)
    requires |recnums| <= |vals| && ListsOwn(recnums, recidx)
  {
    forall rec: nat :: LookedUpAt(vals, missing, recnums, recidx, recBound, done, grown, rec)
  }

  lemma LookUpStep<T>(vals: seq<T>, missing: T, recnums: seq<nat>, recidx: map<nat, seq<nat>>, recBound: nat,
                      done: seq<nat>, grown: map<nat, seq<nat>>, rec: nat, index: map<nat, seq<nat>>)
    requires |recnums| <= |vals| && ListsOwn(recnums, recidx)
    requires IsLookedUp(vals, missing, recnums, recidx, recBound, done, grown)
    requires index == if LooksUp(vals, missing, recnums, recidx, recBound, rec) && recBound + rec !in grown
                      then grown[recBound + rec := []] else grown
    ensures IsLookedUp(vals, missing, recnums, recidx, recBound, done + [rec], index)
  {
    forall c: nat
      ensures LookedUpAt(vals, missing, recnums, recidx, recBound, done + [rec], index, c)
    {
      assert LookedUpAt(vals, missing, recnums, recidx, recBound, done, grown, c);
    }
  }

  /** One turn of the loop over the original records; `grown` is the record index by now. */
  method ExtendRecord<T(==)>(varVals: seq<T>, missing: T, grown: map<nat, seq<nat>>, recBound: nat, rec: nat,
                             ghost vals: seq<T>, ghost recidx: map<nat, seq<nat>>, ghost recnums: seq<nat>,
                             ghost done: seq<nat>)
      returns (out: seq<T>, index: map<nat, seq<nat>>)
    requires |recnums| <= |varVals| == |vals| && ListsOwn(recnums, recidx)
    requires rec in recidx && rec < recBound && rec !in done
    requires forall l :: 0 <= l < |vals| ==> varVals[l] == Filled(vals, missing, recnums, recidx, recBound, done, l)
    requires IsLookedUp(vals, missing, recnums, recidx, recBound, done, grown)
    ensures |out| == |vals|
    ensures forall l :: 0 <= l < |vals| ==> out[l] == Filled(vals, missing, recnums, recidx, recBound, done + [rec], l)
    ensures IsLookedUp(vals, missing, recnums, recidx, recBound, done + [rec], index)
  {
    out, index := varVals, grown;
    assert LookedUpAt(vals, missing, recnums, recidx, recBound, done, grown, rec);
    assert LookedUpAt(vals, missing, recnums, recidx, recBound, done, grown, recBound + rec);
    FirstValueSame(varVals, vals, missing, recidx[rec]);
    var fillValue := FindFillValue(varVals, missing, grown[rec]);
    if fillValue != missing {
      if recBound + rec !in index {
        index := index[recBound + rec := []];
      }
      assert index[recBound + rec] == Get(recidx, recBound + rec);
      out := FillRecord(out, index[recBound + rec], fillValue);
    }
    LookUpStep(vals, missing, recnums, recidx, recBound, done, grown, rec, index);
    forall l | 0 <= l < |out|
      ensures out[l] == Filled(vals, missing, recnums, recidx, recBound, done + [rec], l)
    {
      FilledStep(vals, missing, recnums, recidx, recBound, done, rec, l);
    }
  }

  /** All values once every companion has been filled. */
  function FilledVector<T(==)>(vals: seq<T>, missing: T, recnums: seq<nat>, recidx: map<nat, seq<nat>>, recBound: nat)
      : (out: seq<T>)
    requires |recnums| <= |vals| && ListsOwn(recnums, recidx)
    ensures |out| == |vals| && forall l :: 0 <= l < |vals| ==>
              out[l] == Filled(vals, missing, recnums, recidx, recBound, Enumerate(recidx.Keys, recBound), l)
  {
    seq(|vals|, l requires 0 <= l < |vals| =>
      Filled(vals, missing, recnums, recidx, recBound, Enumerate(recidx.Keys, recBound), l))
  }

  method ExtendVariable<T(==)>(varVals: seq<T>, missing: T, recidx: map<nat, seq<nat>>, recBound: nat,
                               ghost recnums: seq<nat>)
      returns (out: seq<T>, index: map<nat, seq<nat>>)
    requires |recnums| <= |varVals| && ListsOwn(recnums, recidx)
    ensures out == FilledVector(varVals, missing, recnums, recidx, recBound)
    ensures IsLookedUp(varVals, missing, recnums, recidx, recBound, Enumerate(recidx.Keys, recBound), index)
  {
    out, index := varVals, recidx;
    var recs := Enumerate(recidx.Keys, recBound);
    EnumerateMember(recidx.Keys, recBound);
    ghost var done: seq<nat> := [];
    for i := 0 to |recs|
      invariant done == recs[..i] && |out| == |varVals|
      invariant forall l :: 0 <= l < |out| ==> out[l] == Filled(varVals, missing, recnums, recidx, recBound, done, l)
      invariant IsLookedUp(varVals, missing, recnums, recidx, recBound, done, index)
    {
      var rec := recs[i];
      assert rec in recs && rec !in done;
      out, index := ExtendRecord(out, missing, index, recBound, rec, varVals, recidx, recnums, done);
      done := done + [rec];
    }
    assert done == recs;
  }

  /** Where every original entry has a companion entry, as after the extension, the record index stays. */
  lemma IndexStays<T>(vals: seq<T>, missing: T, recnums: seq<nat>, recidx: map<nat, seq<nat>>, recBound: nat,
                      index: map<nat, seq<nat>>)
    requires |recnums| <= |vals| && ListsOwn(recnums, recidx)
    requires forall rec :: rec in recidx && rec < recBound ==> recBound + rec in recidx
    requires IsLookedUp(vals, missing, recnums, recidx, recBound, Enumerate(recidx.Keys, recBound), index)
    ensures index == recidx
  {
    EnumerateMember(recidx.Keys, recBound);
    forall rec: nat
      ensures rec in index <==> rec in recidx
      ensures rec in recidx ==> index[rec] == recidx[rec]
    {
      assert LookedUpAt(vals, missing, recnums, recidx, recBound, Enumerate(recidx.Keys, recBound), index, rec);
    }
  }

  /** The position of a companion location. */
  lemma CompanionValue<T>(varVals: seq<T>, missing: T, recnums: seq<nat>, recidx: map<nat, seq<nat>>, recBound: nat,
                          rec: nat, l: nat)
    requires |recnums| <= |varVals| && ListsOwn(recnums, recidx)
    requires rec in recidx && rec < recBound && l in Get(recidx, recBound + rec)
    ensures l < |recnums| && recnums[l] == recBound + rec
    ensures Filled(varVals, missing, recnums, recidx, recBound, Enumerate(recidx.Keys, recBound), l)
            == if FirstValue(varVals, missing, recidx[rec]) != missing then FirstValue(varVals, missing, recidx[rec])
               else varVals[l]
  {
    OwnLocation(recnums, recidx, recBound + rec, l);
    EnumerateMember(recidx.Keys, recBound);
  }

  /** Any other position. */
  lemma OtherValue<T>(varVals: seq<T>, missing: T, recnums: seq<nat>, recidx: map<nat, seq<nat>>, recBound: nat, l: nat)
    requires |recnums| <= |varVals| && ListsOwn(recnums, recidx) && l < |varVals|
    requires l < |recnums| && recBound <= recnums[l] < 2 * recBound ==> recnums[l] - recBound !in recidx
    ensures Filled(varVals, missing, recnums, recidx, recBound, Enumerate(recidx.Keys, recBound), l) == varVals[l]
  {
    EnumerateMember(recidx.Keys, recBound);
  }

  /**
   Main result, in positions of the flat vector: those of original locations keep their values, that
   of every companion location gets the first value of its original record, in the order of the record
   index, that of a companion whose original has no entry stays as it is, and so do all others.
   */
  lemma ExtendedValues<T>(varVals: seq<T>, missing: T, recnums: seq<nat>, recidx: map<nat, seq<nat>>, recBound: nat,
                          l: nat, out: T)
    requires |recnums| <= |varVals| && ListsOwn(recnums, recidx) && l < |varVals|
    requires out == Filled(varVals, missing, recnums, recidx, recBound, Enumerate(recidx.Keys, recBound), l)
    ensures l < |recnums| && recnums[l] < recBound ==> out == varVals[l]
    ensures forall rec ::
              rec in recidx && rec < recBound && l in Get(recidx, recBound + rec) && varVals[l] == missing ==>
              out == FirstValue(varVals, missing, recidx[rec])
    ensures l < |recnums| && recnums[l] >= recBound && recnums[l] - recBound !in recidx ==> out == varVals[l]
    ensures l >= |recnums| ==> out == varVals[l]
  {
    if l >= |recnums| || recnums[l] < recBound || recnums[l] - recBound !in recidx {
      OtherValue(varVals, missing, recnums, recidx, recBound, l);
    }
    forall rec | rec in recidx && rec < recBound && l in Get(recidx, recBound + rec) && varVals[l] == missing
      ensures out == FirstValue(varVals, missing, recidx[rec])
    {
      CompanionValue(varVals, missing, recnums, recidx, recBound, rec, l);
    }
  }

  /** After the extension every original entry has a companion entry, and entries list their own locations. */
  lemma ExtensionIsReady(v: Vectors, now: Vectors, nlevs: nat, locBound: nat, recBound: nat)
    requires IsExtended(v, now, nlevs, locBound, recBound) && nlevs > 0
    requires ListsOwn(v.recnums, v.recidx)
    requires forall rec :: rec in v.recidx ==> rec in v.recnums
    ensures ListsOwn(now.recnums, now.recidx)
    ensures forall rec :: rec in now.recidx && rec < recBound ==> recBound + rec in now.recidx
  {
    assert IsExtendedBy(v, now, CompanionsOf(v, nlevs, recBound), locBound, recBound);
    forall rec, k | rec in now.recidx && 0 <= k < |now.recidx[rec]|
      ensures now.recidx[rec][k] < |now.recnums| && now.recnums[now.recidx[rec][k]] == rec
    {
      assert EntryIs(v.recidx, now.recidx, now.recnums, recBound, rec);
      if rec >= recBound {
        PositionsMember(now.recnums, rec);
        assert now.recidx[rec][k] in Positions(now.recnums, rec);
      }
    }
    forall rec | rec in now.recidx && rec < recBound
      ensures recBound + rec in now.recidx
    {
      assert EntryIs(v.recidx, now.recidx, now.recnums, recBound, rec);
      assert EntryIs(v.recidx, now.recidx, now.recnums, recBound, recBound + rec);
      CompanionsFollowOriginals(v, now, nlevs, locBound, recBound, rec);
    }
  }

  lemma UnsortedListsOwn(recnums: seq<nat>, recidx: map<nat, seq<nat>>)
    requires IsUnsortedIndex(recnums, recidx)
    ensures ListsOwn(recnums, recidx) && forall rec :: rec in recidx ==> rec in recnums
  {
    forall rec, k | rec in recidx && 0 <= k < |recidx[rec]|
      ensures recidx[rec][k] < |recnums| && recnums[recidx[rec][k]] == rec
    {
      PositionsMember(recnums, rec);
      assert recidx[rec][k] in Positions(recnums, rec);
    }
  }

  lemma SortedListsOwn(order: Order, treatment: Treatment, missing: seq<bool>, recnums: seq<nat>,
                       recidx: map<nat, seq<nat>>)
    requires |missing| == |recnums| == |order.values| && IsSortedIndex(order, treatment, missing, recnums, recidx)
    ensures ListsOwn(recnums, recidx) && forall rec :: rec in recidx ==> rec in recnums
  {
    forall rec | rec in recidx
      ensures rec in recnums
      ensures forall k :: 0 <= k < |recidx[rec]| ==> recidx[rec][k] < |recnums| && recnums[recidx[rec][k]] == rec
    {
      PositionsMember(recnums, rec);
      NoPositions(recnums, rec);
      assert forall k :: 0 <= k < |recidx[rec]| ==> recidx[rec][k] in recidx[rec];
    }
  }
}
