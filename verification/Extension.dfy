/**
 Extending an ObsSpace: every original record gets a companion record of `nlevs` locations on the
 ranks that hold it (extendObsSpace and extendVariable, src/ObsSpace.cc).
 */
module Extension {
  import opened Seqs
  import opened Streams
  import opened Companions
  import opened RecordIndex
  import opened ReplicaDistribution
  import N = NonoverlappingDistribution
  import P = PairDistribution

  // ----- The replica distribution, by the kind of its master

  datatype Replica =
    | GeneralReplica(general: ReplicaOfGeneral)
    | NonoverlappingReplica(non: N.Nonoverlapping)
    | IdentityReplica
  {
    function MyRule(): Rule {
      match this
      case GeneralReplica(general) => general.MyRule()
      case NonoverlappingReplica(non) => non.rule
      case IdentityReplica => Everyone
    }

    function Objects(): set<object> {
      match this
      case GeneralReplica(general) => {general}
      case NonoverlappingReplica(non) => {non}
      case IdentityReplica => {}
    }

    /** The replica asks its master which records belong to this rank. */
    ghost predicate Follows(isMasterRecord: nat -> bool) {
      !IdentityReplica? ==> MyRule() == Delegate(isMasterRecord)
    }

    /** Exactly the companion locations `s` have been assigned. */
    ghost predicate InStep(s: seq<Obs>)
      reads Objects()
    {
      exists t :: t == s && HasAssigned(t)
    }

    ghost predicate HasAssigned(s: seq<Obs>)
      reads Objects()
    {
      match this
      case GeneralReplica(general) => general.Assigning() && general.stream == s
      case NonoverlappingReplica(non) => non.Valid() && non.stream == s
      case IdentityReplica => true
    }
  }

  method CreateReplicaDistribution(isNonoverlapping: bool, isIdentity: bool, isMasterRecord: nat -> bool,
                                   recnums: seq<nat>, masterPatchObs: seq<bool>) returns (replica: Replica)
    requires |masterPatchObs| == |recnums|
    ensures replica.NonoverlappingReplica? <==> isNonoverlapping
    ensures replica.IdentityReplica? <==> !isNonoverlapping && isIdentity
    ensures fresh(replica.Objects()) && replica.Follows(isMasterRecord) && replica.InStep([])
    ensures replica.GeneralReplica? ==> replica.general.masterPatchRecords == Elements(Select(recnums, masterPatchObs))
  {
    if isNonoverlapping {
      var non := new N.Nonoverlapping(Delegate(isMasterRecord));
      replica := NonoverlappingReplica(non);
    } else if isIdentity {
      replica := IdentityReplica;
    } else {
      var general := new ReplicaOfGeneral(isMasterRecord, recnums, masterPatchObs);
      replica := GeneralReplica(general);
      forall rec: nat
        ensures rec in general.masterPatchRecords <==> rec in Select(recnums, masterPatchObs)
      {
        SelectMember(recnums, masterPatchObs, rec);
      }
    }
    assert replica.HasAssigned([]);
  }

  /** Assigns a companion location and asks whether its record is held here. */
  method AssignCompanion(replica: Replica, rec: nat, loc: nat, ghost s: seq<Obs>) returns (mine: bool)
    requires replica.InStep(s)
    modifies replica.Objects()
    ensures replica.MyRule().Delegate? || replica.IdentityReplica? ==> replica.InStep(s + [Obs(rec, loc, Origin)])
    ensures replica.MyRule().Delegate? ==> (mine <==> (replica.MyRule().isMasterRecord)(rec))
    ensures replica.IdentityReplica? ==> mine
    ensures replica.GeneralReplica? ==> replica.general.masterPatchRecords == old(replica.general.masterPatchRecords)
  {
    ghost var o := Obs(rec, loc, Origin);
    AppearsSnoc(s, o, rec);
    mine := true;
    match replica {
      case GeneralReplica(general) =>
        general.AssignRecord(rec, loc, Origin);
        InMyRecords(general.MyRule(), s + [o], rec);
        mine := general.IsMyRecord(rec);
      case NonoverlappingReplica(non) =>
        var ok := non.AssignRecord(rec, loc, Origin);
        if ok {
          mine := non.IsMyRecord(rec);
        }
      case IdentityReplica =>
    }
    assert replica.MyRule().Delegate? || replica.IdentityReplica? ==> replica.HasAssigned(s + [o]);
  }

  // ----- What the loop adds

  /** What an ObsSpace knows of its locations and records. */
  datatype Vectors = Vectors(indx: seq<nat>, recnums: seq<nat>, recidx: map<nat, seq<nat>>, nrecs: nat)

  /** An original entry is untouched; a companion entry lists the locations of its record. */
  ghost predicate EntryIs(before: map<nat, seq<nat>>, recidx: map<nat, seq<nat>>, recnums: seq<nat>, recBound: nat,
                          rec: nat) {
    if rec < recBound then
      (rec in recidx <==> rec in before) && Get(recidx, rec) == Get(before, rec)
    else
      (rec in recidx <==> rec in recnums) && Get(recidx, rec) == Positions(recnums, rec)
  }

  ghost predicate IsCompanionIndex(before: map<nat, seq<nat>>, recidx: map<nat, seq<nat>>, recnums: seq<nat>,
                                   recBound: nat) {
    forall rec: nat :: EntryIs(before, recidx, recnums, recBound, rec)
  }

  /** `now` is `before` with the companions `os` appended. */
  ghost predicate IsGrown(before: Vectors, now: Vectors, os: seq<Obs>, locBound: nat, recBound: nat) {
    && now.indx == before.indx + P.Shift(locBound, Locs(os))
    && now.recnums == before.recnums + P.Shift(recBound, Recs(os))
    && IsCompanionIndex(before.recidx, now.recidx, now.recnums, recBound)
  }

  function Grow(v: Vectors, rec: nat, loc: nat): Vectors {
    v.(indx := v.indx + [loc], recnums := v.recnums + [rec], recidx := Push(v.recidx, rec, |v.recnums|))
  }

  lemma IndexGrows(before: map<nat, seq<nat>>, recidx: map<nat, seq<nat>>, recnums: seq<nat>, recBound: nat, last: nat)
    requires IsCompanionIndex(before, recidx, recnums, recBound) && last >= recBound
    ensures IsCompanionIndex(before, Push(recidx, last, |recnums|), recnums + [last], recBound)
  {
    forall rec: nat
      ensures EntryIs(before, Push(recidx, last, |recnums|), recnums + [last], recBound, rec)
    {
      assert EntryIs(before, recidx, recnums, recBound, rec);
      PositionsSnoc(recnums, last, rec);
      GetPush(recidx, last, |recnums|, rec);
    }
  }

  lemma ShiftSnoc(os: seq<Obs>, o: Obs, shift: nat)
    ensures P.Shift(shift, Locs(os + [o])) == P.Shift(shift, Locs(os)) + [shift + o.loc]
    ensures P.Shift(shift, Recs(os + [o])) == P.Shift(shift, Recs(os)) + [shift + o.rec]
  {
  }

  lemma GrownSnoc(before: Vectors, now: Vectors, os: seq<Obs>, o: Obs, locBound: nat, recBound: nat)
    requires IsGrown(before, now, os, locBound, recBound)
    ensures IsGrown(before, Grow(now, recBound + o.rec, locBound + o.loc), os + [o], locBound, recBound)
  {
    ShiftSnoc(os, o, locBound);
    ShiftSnoc(os, o, recBound);
    var later := Grow(now, recBound + o.rec, locBound + o.loc);
    assert later.indx == before.indx + P.Shift(locBound, Locs(os + [o]));
    assert later.recnums == before.recnums + P.Shift(recBound, Recs(os + [o]));
    IndexGrows(before.recidx, now.recidx, now.recnums, recBound, recBound + o.rec);
  }

  // ----- The loop on one rank

  class ObsSpace {
    var indx: seq<nat>
    var recnums: seq<nat>
    var recidx: map<nat, seq<nat>>
    var nrecs: nat
    var gnlocs: nat

    constructor (indx: seq<nat>, recnums: seq<nat>, nrecs: nat, gnlocs: nat)
      ensures Now() == Vectors(indx, recnums, map[], nrecs) && this.gnlocs == gnlocs
    {
      this.indx, this.recnums, this.recidx, this.nrecs, this.gnlocs := indx, recnums, map[], nrecs, gnlocs;
    }

    ghost function Now(): Vectors
      reads this`indx, this`recnums, this`recidx, this`nrecs
    {
      Vectors(indx, recnums, recidx, nrecs)
    }

    /** Adds one companion location; `ok` is false where the assertion on the replica fails. */
    method AddLocation(replica: Replica, isMasterRecord: nat -> bool, rec: nat, loc: nat, locBound: nat, recBound: nat,
                       extendedLoc: nat, ghost before: Vectors, ghost os: seq<Obs>) returns (ok: bool)
      requires replica.Follows(isMasterRecord) && replica.InStep(os)
      requires IsGrown(before, Now(), os, locBound, recBound) && extendedLoc == |recnums| && isMasterRecord(rec)
      modifies this`indx, this`recnums, this`recidx, replica.Objects()
      ensures ok && replica.InStep(os + [Obs(rec, loc, Origin)])
      ensures IsGrown(before, Now(), os + [Obs(rec, loc, Origin)], locBound, recBound)
      ensures replica.GeneralReplica? ==> replica.general.masterPatchRecords == old(replica.general.masterPatchRecords)
    {
      assert this !in replica.Objects();
      GrownSnoc(before, Now(), os, Obs(rec, loc, Origin), locBound, recBound);
      ok := AssignCompanion(replica, rec, loc, os);
      recnums := recnums + [recBound + rec];
      indx := indx + [locBound + loc];
      recidx := Push(recidx, recBound + rec, extendedLoc);
    }

    /** The loop over the levels of a companion record. */
    method AddLevels(replica: Replica, isMasterRecord: nat -> bool, originalRec: nat, nlevs: nat, locBound: nat,
                     recBound: nat, numOriginalLocs: nat, firstLoc: nat, ghost before: Vectors, ghost start: seq<Obs>)
        returns (ok: bool, companionLoc: nat)
      requires replica.Follows(isMasterRecord) && replica.InStep(start) && isMasterRecord(originalRec)
      requires IsGrown(before, Now(), start, locBound, recBound) && numOriginalLocs + firstLoc == |recnums|
      modifies this`indx, this`recnums, this`recidx, replica.Objects()
      ensures ok && replica.InStep(start + Levels(originalRec, nlevs))
      ensures IsGrown(before, Now(), start + Levels(originalRec, nlevs), locBound, recBound)
      ensures numOriginalLocs + companionLoc == |recnums|
      ensures replica.GeneralReplica? ==> replica.general.masterPatchRecords == old(replica.general.masterPatchRecords)
    {
      ok, companionLoc := true, firstLoc;
      ghost var os, levels := start, Levels(originalRec, nlevs);
      for ilev := 0 to nlevs
        invariant ok && os == start + levels[..ilev] && replica.InStep(os)
        invariant IsGrown(before, Now(), os, locBound, recBound) && numOriginalLocs + companionLoc == |recnums|
        invariant replica.GeneralReplica? ==>
                    replica.general.masterPatchRecords == old(replica.general.masterPatchRecords)
      {
        MulMonotone(0, originalRec, nlevs);
        var globalCompanionLoc := originalRec * nlevs + ilev;
        ok := AddLocation(replica, isMasterRecord, originalRec, globalCompanionLoc, locBound, recBound,
                          numOriginalLocs + companionLoc, before, os);
        if !ok {
          return;
        }
        os := os + [levels[ilev]];
        companionLoc := companionLoc + 1;
      }
      assert levels[..nlevs] == levels;
    }

    /** Adds the companion record of an original record; `ok` is false where an assertion fails. */
    method AddRecord(replica: Replica, isMasterRecord: nat -> bool, originalRec: nat, nlevs: nat, locBound: nat,
                     recBound: nat, numOriginalLocs: nat, firstLoc: nat, ghost before: Vectors, ghost start: seq<Obs>)
        returns (ok: bool, companionLoc: nat)
      requires replica.Follows(isMasterRecord) && replica.InStep(start)
      requires IsGrown(before, Now(), start, locBound, recBound) && numOriginalLocs + firstLoc == |recnums|
      modifies this`indx, this`recnums, this`recidx, this`nrecs, replica.Objects()
      ensures ok <==> isMasterRecord(originalRec)
      ensures ok ==> replica.InStep(start + Levels(originalRec, nlevs))
      ensures ok ==> IsGrown(before, Now(), start + Levels(originalRec, nlevs), locBound, recBound)
      ensures ok ==> numOriginalLocs + companionLoc == |recnums| && nrecs == old(nrecs) + 1
      ensures replica.GeneralReplica? ==> replica.general.masterPatchRecords == old(replica.general.masterPatchRecords)
    {
      assert this !in replica.Objects();
      companionLoc := firstLoc;
      if !isMasterRecord(originalRec) {
        return false, companionLoc;
      }
      nrecs := nrecs + 1;
      ok, companionLoc := AddLevels(replica, isMasterRecord, originalRec, nlevs, locBound, recBound,
                                    numOriginalLocs, firstLoc, before, start);
    }

    /** The loop over the original records of this rank; `ok` is false where an assertion fails. */
    method AddRecords(replica: Replica, isMasterRecord: nat -> bool, recs: seq<nat>, nlevs: nat, locBound: nat,
                      recBound: nat, ghost before: Vectors) returns (ok: bool, companionLoc: nat)
      requires replica.Follows(isMasterRecord) && replica.InStep([])
      requires before == Now() && IsGrown(before, Now(), [], locBound, recBound)
      modifies this`indx, this`recnums, this`recidx, this`nrecs, replica.Objects()
      ensures ok <==> forall k :: 0 <= k < |recs| ==> isMasterRecord(recs[k])
      ensures ok ==> replica.InStep(CompanionObs(recs, nlevs))
      ensures ok ==> IsGrown(before, Now(), CompanionObs(recs, nlevs), locBound, recBound)
      ensures ok ==> |before.recnums| + companionLoc == |recnums| && nrecs == old(nrecs) + |recs|
      ensures replica.GeneralReplica? ==> replica.general.masterPatchRecords == old(replica.general.masterPatchRecords)
    {
      var numOriginalLocs := |recnums|;
      companionLoc := 0;
      ghost var os: seq<Obs> := [];
      for k := 0 to |recs|
        invariant os == CompanionObs(recs[..k], nlevs) && replica.InStep(os)
        invariant IsGrown(before, Now(), os, locBound, recBound) && numOriginalLocs + companionLoc == |recnums|
        invariant nrecs == old(nrecs) + k
        invariant forall i :: 0 <= i < k ==> isMasterRecord(recs[i])
        invariant replica.GeneralReplica? ==>
                    replica.general.masterPatchRecords == old(replica.general.masterPatchRecords)
      {
        CompanionStep(recs, nlevs, k);
        ok, companionLoc := AddRecord(replica, isMasterRecord, recs[k], nlevs, locBound, recBound,
                                      numOriginalLocs, companionLoc, before, os);
        if !ok {
          return false, companionLoc;
        }
        os := os + Levels(recs[k], nlevs);
      }
      assert recs[..|recs|] == recs;
      ok := true;
    }

    /** Adds the companion records of this rank; `ok` is false where an assertion fails. */
    method AddCompanions(replica: Replica, isMasterRecord: nat -> bool, nlevs: nat, locBound: nat, recBound: nat)
        returns (ok: bool, numCompanionLocs: nat)
      requires replica.Follows(isMasterRecord) && replica.InStep([])
      requires forall rec :: rec in recnums ==> rec < recBound
      requires forall rec :: rec in recidx ==> rec < recBound
      modifies this`indx, this`recnums, this`recidx, this`nrecs, replica.Objects()
      ensures ok <==> forall rec :: rec in old(recnums) ==> isMasterRecord(rec)
      ensures ok ==> replica.InStep(CompanionObs(OriginalRecs(old(recnums), recBound), nlevs))
      ensures ok ==> IsGrown(old(Now()), Now(), CompanionObs(OriginalRecs(old(recnums), recBound), nlevs), locBound,
                             recBound)
      ensures ok ==> nrecs == old(nrecs) + |OriginalRecs(old(recnums), recBound)|
      ensures ok ==> |old(recnums)| + numCompanionLocs == |recnums|
      ensures replica.GeneralReplica? ==> replica.general.masterPatchRecords == old(replica.general.masterPatchRecords)
    {
      var uniqueOriginalRecs := OriginalRecs(recnums, recBound);
      NothingGrown(Now(), locBound, recBound);
      AllMaster(recnums, recBound, isMasterRecord);
      ok, numCompanionLocs := AddRecords(replica, isMasterRecord, uniqueOriginalRecs, nlevs, locBound, recBound, Now());
    }
  }

  /** The records of a rank, in the order of a std::set. */
  function OriginalRecs(recnums: seq<nat>, recBound: nat): seq<nat> {
    Enumerate(Elements(recnums), recBound)
  }

  lemma OriginalRecsMember(recnums: seq<nat>, recBound: nat)
    requires forall rec :: rec in recnums ==> rec < recBound
    ensures Ascending(OriginalRecs(recnums, recBound))
    ensures forall rec :: rec in OriginalRecs(recnums, recBound) <==> rec in recnums
  {
    EnumerateMember(Elements(recnums), recBound);
  }

  lemma AllMaster(recnums: seq<nat>, recBound: nat, isMasterRecord: nat -> bool)
    requires forall rec :: rec in recnums ==> rec < recBound
    ensures (forall rec :: rec in recnums ==> isMasterRecord(rec)) <==>
            (forall k :: 0 <= k < |OriginalRecs(recnums, recBound)| ==>
               isMasterRecord(OriginalRecs(recnums, recBound)[k]))
  {
    OriginalRecsMember(recnums, recBound);
    var recs := OriginalRecs(recnums, recBound);
    assert forall k :: 0 <= k < |recs| ==> recs[k] in recs;
  }

  lemma CompanionStep(recs: seq<nat>, nlevs: nat, k: nat)
    requires k < |recs|
    ensures CompanionObs(recs[..k + 1], nlevs) == CompanionObs(recs[..k], nlevs) + Levels(recs[k], nlevs)
  {
    assert recs[..k + 1][..k] == recs[..k];
  }

  lemma NothingGrown(v: Vectors, locBound: nat, recBound: nat)
    requires forall rec :: rec in v.recnums ==> rec < recBound
    requires forall rec :: rec in v.recidx ==> rec < recBound
    ensures IsGrown(v, v, [], locBound, recBound)
  {
    forall rec: nat
      ensures EntryIs(v.recidx, v.recidx, v.recnums, recBound, rec)
    {
      NoPositions(v.recnums, rec);
    }
  }
}
