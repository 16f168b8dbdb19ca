/** extendObsSpace over a RoundRobin or Atlas distribution, run by all ranks in step (src/ObsSpace.cc). */
module ExtendNonoverlapping {
  import opened Seqs
  import opened Collectives
  import opened Contract
  import opened Streams
  import opened Companions
  import opened Extension
  import opened ExtendedWorld
  import opened Accumulators
  import opened ExtendAll
  import N = NonoverlappingDistribution
  import P = PairDistribution

  // ----- The masters

  /** A distribution that has been assigned the stream `s`. */
  ghost predicate IsAssigned(non: N.Nonoverlapping, s: seq<Obs>)
    reads non`myRecords, non`nextRecordToAssign, non`numLocationsOnThisRank, non`stream
  {
    non.Valid() && !non.rule.Delegate? && non.stream == s
  }

  /** Of the records assigned anywhere, it says yes to exactly those its reader has kept. */
  lemma HoldsItsRecords(non: N.Nonoverlapping, s: seq<Obs>, rec: nat)
    requires IsAssigned(non, s) && Appears(s, rec)
    ensures non.IsMyRecord(rec) <==> rec in Recs(Kept(non.rule, s))
  {
    RecIsHeld(non.rule, s, rec);
    InMyRecords(non.rule, s, rec);
  }

  predicate Answers(rule: Rule, records: set<nat>, rec: nat) {
    match rule
    case RoundRobin(rank, size) => size > 0 && rec % size == rank
    case Atlas(_, _) => rec in records
    case _ => false
  }

  /** What the extension asks of the distribution: isMyRecord, and patchObs, which sets every flag. */
  method MasterOf(non: N.Nonoverlapping, numLocs: nat, ghost s: seq<Obs>) returns (master: Master)
    requires IsAssigned(non, s)
    ensures master.patchObs == seq(numLocs, _ => true)
    ensures forall rec: nat :: master.isMyRecord(rec) <==> non.IsMyRecord(rec)
  {
    var rule, records := non.rule, non.myRecords;
    master := Master((rec: nat) => Answers(rule, records, rec), seq(numLocs, _ => true));
  }

  /** An ObsSpace that holds what its rank keeps of the stream. */
  ghost predicate AreHeld(vs: seq<Vectors>, world: seq<Rule>, s: seq<Obs>) {
    |vs| == |world| && AscendingStream(s) && forall r: nat :: r < |world| ==> IsHeldAt(vs, world, s, r)
  }

  ghost predicate IsHeldAt(vs: seq<Vectors>, world: seq<Rule>, s: seq<Obs>, r: nat) {
    r < |vs| && r < |world| && IsOriginal(vs[r], world[r], s)
  }

  /** The assertion on the master holds for every record of the rank. */
  lemma MasterAdmits(non: N.Nonoverlapping, s: seq<Obs>, v: Vectors, master: Master)
    requires IsAssigned(non, s) && AscendingStream(s) && IsOriginal(v, non.rule, s)
    requires master.patchObs == seq(|v.indx|, _ => true)
    requires forall rec: nat :: master.isMyRecord(rec) <==> non.IsMyRecord(rec)
    ensures IsReady(v, master)
  {
    OfRecordsAscending(s, MyRecords(non.rule, s));
    forall rec: nat | rec in v.recnums
      ensures master.isMyRecord(rec)
    {
      RecIsHeld(non.rule, s, rec);
      HoldsItsRecords(non, s, rec);
    }
  }

  /** All ranks have been assigned `s` and have computed their patches: `w` are the views. */
  ghost predicate ArePatched(nons: seq<N.Nonoverlapping>, s: seq<Obs>, w: seq<View>)
    reads nons
  {
    forall t :: t == s ==> HavePatched(nons, t, w)
  }

  ghost predicate HavePatched(nons: seq<N.Nonoverlapping>, s: seq<Obs>, w: seq<View>)
    reads nons
  {
    && w == N.ViewsOf(nons) && N.IsNonoverlappingWorld(N.RulesOf(nons))
    && Sound(w) && Gathered(w) == Flatten(LocsOf(w))
    && forall r :: 0 <= r < |nons| ==> IsAssigned(nons[r], s)
  }

  /** computePatchLocs after the ranks have been assigned a stream. */
  method PatchRanks(nons: seq<N.Nonoverlapping>, ghost s: seq<Obs>)
    requires N.IsNonoverlappingWorld(N.RulesOf(nons)) && AscendingStream(s)
    requires forall r, q :: 0 <= r < q < |nons| ==> nons[r] != nons[q]
    requires forall r :: 0 <= r < |nons| ==> IsAssigned(nons[r], s)
    modifies set r | 0 <= r < |nons| :: nons[r]`numLocationsOnLowerRanks
    ensures ArePatched(nons, s, N.ViewsOf(nons))
  {
    N.PatchAfterRead(nons, s);
    assert HavePatched(nons, s, N.ViewsOf(nons));
  }

  lemma AssignedAt(nons: seq<N.Nonoverlapping>, s: seq<Obs>, w: seq<View>, r: nat)
    requires ArePatched(nons, s, w) && r < |nons|
    ensures IsAssigned(nons[r], s) && |w| == |nons| && w[r] == nons[r].MyView()
  {
    assert HavePatched(nons, s, w);
  }

  /** A master answers like the distribution of its rank. */
  ghost predicate IsMasterAt(nons: seq<N.Nonoverlapping>, masters: seq<Master>, r: nat)
    reads nons
  {
    && r < |nons| && r < |masters| && (nons[r].rule.RoundRobin? || nons[r].rule.Atlas?)
    && (nons[r].rule.RoundRobin? ==> nons[r].rule.size > 0)
    && forall rec: nat :: masters[r].isMyRecord(rec) <==> nons[r].IsMyRecord(rec)
  }

  method MastersOf(nons: seq<N.Nonoverlapping>, spaces: seq<ObsSpace>, ghost s: seq<Obs>, ghost w: seq<View>,
                   ghost vs: seq<Vectors>)
      returns (masters: seq<Master>)
    requires |nons| == |spaces| && vs == NowsOf(spaces) && ArePatched(nons, s, w) && AreHeld(vs, N.RulesOf(nons), s)
    ensures AreReady(vs, masters) && forall r: nat :: r < |nons| ==> IsMasterAt(nons, masters, r)
  {
    masters := [];
    for r := 0 to |nons|
      invariant |masters| == r
      invariant forall q: nat :: q < r ==> IsReadyAt(vs, masters, q) && IsMasterAt(nons, masters, q)
    {
      AssignedAt(nons, s, w, r);
      assert IsHeldAt(vs, N.RulesOf(nons), s, r);
      var master := MasterOf(nons[r], |spaces[r].indx|, s);
      MasterAdmits(nons[r], s, vs[r], master);
      ghost var before := masters;
      masters := masters + [master];
      forall q: nat | q < r
        ensures IsReadyAt(vs, masters, q) && IsMasterAt(nons, masters, q)
      {
        assert IsReadyAt(vs, before, q) && IsMasterAt(nons, before, q);
      }
    }
  }

  // ----- The vectors and the replicas

  /** The companions of a rank's records have been assigned to its replica. */
  ghost predicate HasCompanions(replica: N.Nonoverlapping, recnums: seq<nat>, master: Master, nlevs: nat, recBound: nat)
    reads replica
  {
    replica.rule == Delegate(master.isMyRecord) &&
    forall held :: held == OriginalRecs(recnums, recBound) ==>
      IsNonoverlappingCompanion(replica, held, Elements(held), nlevs)
  }

  method ExtendOne(space: ObsSpace, master: Master, nlevs: nat, locBound: nat, recBound: nat, ghost v: Vectors)
      returns (replica: N.Nonoverlapping)
    requires v == space.Now() && IsReady(v, master)
    requires (forall l :: l in v.indx ==> l < locBound) && (forall rec :: rec in v.recnums ==> rec < recBound)
    modifies space`indx, space`recnums, space`recidx, space`nrecs
    ensures IsExtended(v, space.Now(), nlevs, locBound, recBound)
    ensures HasCompanions(replica, v.recnums, master, nlevs, recBound) && fresh(replica)
  {
    var ok, r, _ := ExtendRank(space, master, true, false, nlevs, locBound, recBound, v);
    assert ok;
    replica := r.non;
    OriginalRecsMember(v.recnums, recBound);
    assert replica.rule == Delegate(master.isMyRecord);
    assert IsNonoverlappingCompanion(replica, OriginalRecs(v.recnums, recBound),
                                     Elements(OriginalRecs(v.recnums, recBound)), nlevs);
  }

  method ExtendEach(spaces: seq<ObsSpace>, masters: seq<Master>, nlevs: nat, locBound: nat, recBound: nat,
                    ghost vs: seq<Vectors>)
      returns (replicas: seq<N.Nonoverlapping>)
    requires |spaces| == |masters| == |vs|
    requires forall r, q :: 0 <= r < q < |spaces| ==> spaces[r] != spaces[q]
    requires forall r :: 0 <= r < |spaces| ==> vs[r] == spaces[r].Now() && IsReady(vs[r], masters[r])
    requires forall r, l :: 0 <= r < |vs| && l in vs[r].indx ==> l < locBound
    requires forall r, rec :: 0 <= r < |vs| && rec in vs[r].recnums ==> rec < recBound
    modifies spaces`indx, spaces`recnums, spaces`recidx, spaces`nrecs
    ensures |replicas| == |spaces|
    ensures forall r :: 0 <= r < |spaces| ==> IsExtended(vs[r], spaces[r].Now(), nlevs, locBound, recBound)
    ensures forall r :: 0 <= r < |spaces| ==>
              HasCompanions(replicas[r], vs[r].recnums, masters[r], nlevs, recBound) && fresh(replicas[r])
    ensures forall r, q :: 0 <= r < q < |spaces| ==> replicas[r] != replicas[q]
  {
    replicas := [];
    ghost var now := vs;
    for r := 0 to |spaces|
      invariant |replicas| == r && |now| == |spaces|
      invariant forall q :: 0 <= q < |spaces| ==> spaces[q].Now() == now[q]
      invariant forall q :: 0 <= q < r ==> IsExtended(vs[q], now[q], nlevs, locBound, recBound)
      invariant forall q :: r <= q < |spaces| ==> now[q] == vs[q]
      invariant forall q :: 0 <= q < r ==> HasCompanions(replicas[q], vs[q].recnums, masters[q], nlevs, recBound)
      invariant forall q :: 0 <= q < r ==> fresh(replicas[q])
      invariant forall p, q :: 0 <= p < q < r ==> replicas[p] != replicas[q]
    {
      assert forall q :: 0 <= q < |spaces| && q != r ==> spaces[q] != spaces[r];
      var replica := ExtendOne(spaces[r], masters[r], nlevs, locBound, recBound, vs[r]);
      replicas := replicas + [replica];
      now := now[r := spaces[r].Now()];
    }
  }

  ghost predicate AllHaveCompanions(replicas: seq<N.Nonoverlapping>, vs: seq<Vectors>, masters: seq<Master>, nlevs: nat,
                                    recBound: nat)
    reads replicas
  {
    && |replicas| == |vs| == |masters|
    && forall r: nat :: r < |replicas| ==> HasCompanionsAt(replicas, vs, masters, nlevs, recBound, r)
  }

  ghost predicate HasCompanionsAt(replicas: seq<N.Nonoverlapping>, vs: seq<Vectors>, masters: seq<Master>, nlevs: nat,
                                  recBound: nat, r: nat)
    reads replicas
  {
    && r < |replicas| && r < |vs| && r < |masters|
    && HasCompanions(replicas[r], vs[r].recnums, masters[r], nlevs, recBound)
    && forall rec :: rec in vs[r].recnums ==> rec < recBound
  }

  method GrowAll(spaces: seq<ObsSpace>, masters: seq<Master>, nlevs: nat, ghost vs: seq<Vectors>)
      returns (replicas: seq<N.Nonoverlapping>, locBound: nat, recBound: nat)
    requires forall r, q :: 0 <= r < q < |spaces| ==> spaces[r] != spaces[q]
    requires vs == NowsOf(spaces) && AreReady(vs, masters)
    modifies spaces`indx, spaces`recnums, spaces`recidx, spaces`nrecs
    ensures AreBounds(vs, locBound, recBound) && AreGrown(vs, NowsOf(spaces), nlevs, locBound, recBound)
    ensures AllHaveCompanions(replicas, vs, masters, nlevs, recBound)
    ensures forall r :: 0 <= r < |replicas| ==> fresh(replicas[r])
    ensures forall r, q :: 0 <= r < q < |replicas| ==> replicas[r] != replicas[q]
  {
    locBound, recBound := GlobalBounds(spaces, vs);
    forall r: nat | r < |vs|
      ensures IsReady(vs[r], masters[r])
    {
      assert IsReadyAt(vs, masters, r);
    }
    BoundsHold(vs, locBound, recBound);
    replicas := ExtendEach(spaces, masters, nlevs, locBound, recBound, vs);
    assert forall r: nat :: r < |vs| ==> HasCompanionsAt(replicas, vs, masters, nlevs, recBound, r);
    assert forall r: nat :: r < |vs| ==> IsGrownAt(vs, NowsOf(spaces), nlevs, locBound, recBound, r);
  }

  // ----- The patches and the count

  /** A rank owns the records it holds. */
  function OwnedRecs(held: seq<seq<nat>>): (owned: seq<set<nat>>)
    ensures |owned| == |held| && forall r :: 0 <= r < |held| ==> owned[r] == Elements(held[r])
  {
    seq(|held|, r requires 0 <= r < |held| => Elements(held[r]))
  }

  /** The replicas meet the contract on the companions of `vs`, and all that they hold is gathered. */
  ghost predicate AreReplicas(replicas: seq<N.Nonoverlapping>, vs: seq<Vectors>, nlevs: nat, recBound: nat)
    reads replicas
  {
    forall v :: v == N.ViewsOf(replicas) ==> HaveReplicaViews(v, vs, nlevs, recBound)
  }

  ghost predicate HaveReplicaViews(v: seq<View>, vs: seq<Vectors>, nlevs: nat, recBound: nat) {
    var held := HeldRecs(RecnumsOf(vs), recBound);
    Sound(v) && AreCompanionViews(v, held, OwnedRecs(held), nlevs) && Gathered(v) == Flatten(LocsOf(v))
  }

  lemma RecordsHaveOneOwner(world: seq<Rule>, s: seq<Obs>, vs: seq<Vectors>, recBound: nat)
    requires N.IsNonoverlappingWorld(world) && AreHeld(vs, world, s)
    requires forall r, rec :: 0 <= r < |vs| && rec in vs[r].recnums ==> rec < recBound
    ensures var held := HeldRecs(RecnumsOf(vs), recBound); OwnershipOf(held, OwnedRecs(held))
  {
    var recnums := RecnumsOf(vs);
    var held := HeldRecs(recnums, recBound);
    forall r: nat | r < |world|
      ensures recnums[r] == Recs(Kept(world[r], s)) && OwnedRecs(held)[r] == Elements(recnums[r])
    {
      assert IsHeldAt(vs, world, s, r);
      OriginalRecsMember(recnums[r], recBound);
    }
    NonoverlappingOwnership(world, s, recnums, recBound, OwnedRecs(held));
  }

  /** The patches of the replicas. */
  method PatchReplicas(replicas: seq<N.Nonoverlapping>, ghost world: seq<Rule>, ghost s: seq<Obs>,
                       ghost vs: seq<Vectors>, ghost masters: seq<Master>, ghost nlevs: nat, ghost recBound: nat)
    requires N.IsNonoverlappingWorld(world) && AreHeld(vs, world, s)
    requires AllHaveCompanions(replicas, vs, masters, nlevs, recBound)
    requires forall r, q :: 0 <= r < q < |replicas| ==> replicas[r] != replicas[q]
    modifies set r | 0 <= r < |replicas| :: replicas[r]`numLocationsOnLowerRanks
    ensures AreReplicas(replicas, vs, nlevs, recBound)
    ensures forall r, rec :: 0 <= r < |vs| && rec in vs[r].recnums ==> rec < recBound
  {
    ghost var held := HeldRecs(RecnumsOf(vs), recBound);
    forall r: nat | r < |replicas|
      ensures IsNonoverlappingCompanion(replicas[r], held[r], OwnedRecs(held)[r], nlevs)
      ensures forall rec :: rec in vs[r].recnums ==> rec < recBound
    {
      assert HasCompanionsAt(replicas, vs, masters, nlevs, recBound, r);
      assert IsNonoverlappingCompanion(replicas[r], held[r], Elements(held[r]), nlevs);
    }
    RecordsHaveOneOwner(world, s, vs, recBound);
    PatchNonoverlapping(replicas, held, OwnedRecs(held), nlevs);
    assert HaveReplicaViews(N.ViewsOf(replicas), vs, nlevs, recBound);
  }

  lemma CompanionsOfAll(v: seq<View>, vs: seq<Vectors>, nlevs: nat, recBound: nat, all: seq<nat>)
    requires HaveReplicaViews(v, vs, nlevs, recBound) && ListsAll(vs, all)
    requires forall r, rec :: 0 <= r < |vs| && rec in vs[r].recnums ==> rec < recBound
    ensures |Gathered(v)| == NumCompanions(nlevs, all)
  {
    var held := HeldRecs(RecnumsOf(vs), recBound);
    forall r, rec: nat | 0 <= r < |vs|
      ensures rec in held[r] <==> rec in vs[r].recnums
    {
      OriginalRecsMember(vs[r].recnums, recBound);
    }
    CompanionCount(v, held, OwnedRecs(held), nlevs, all);
  }

  /** Every rank counts the companions of all ranks. */
  method CountOverReplicas(replicas: seq<N.Nonoverlapping>, ghost v: seq<View>) returns (results: seq<real>)
    requires v == N.ViewsOf(replicas) && Sound(v)
    requires forall r :: 0 <= r < |replicas| ==> replicas[r].numLocationsOnThisRank == |v[r].locs|
    ensures |results| == |replicas| && forall r :: 0 <= r < |replicas| ==> results[r] == |Gathered(v)| as real
  {
    var kinds: seq<Kind>, nums: seq<nat> := [], [];
    for r := 0 to |replicas|
      invariant |kinds| == |nums| == r
      invariant forall q :: 0 <= q < r ==> kinds[q] == Kind.Nonoverlapping && nums[q] == |v[q].locs|
    {
      kinds := kinds + [Kind.Nonoverlapping];
      nums := nums + [replicas[r].numLocationsOnThisRank];
    }
    MaxAllIsMaximum(Gathered(v));
    results := CountCompanions(kinds, nums, v, MaxAll(Gathered(v)) + 1, g => 1.0);
  }

  method PatchAndCount(replicas: seq<N.Nonoverlapping>, ghost world: seq<Rule>, ghost s: seq<Obs>,
                       ghost vs: seq<Vectors>, ghost masters: seq<Master>, ghost nlevs: nat, ghost recBound: nat,
                       ghost all: seq<nat>)
      returns (results: seq<real>)
    requires N.IsNonoverlappingWorld(world) && AreHeld(vs, world, s) && ListsAll(vs, all)
    requires AllHaveCompanions(replicas, vs, masters, nlevs, recBound)
    requires forall r, q :: 0 <= r < q < |replicas| ==> replicas[r] != replicas[q]
    modifies set r | 0 <= r < |replicas| :: replicas[r]`numLocationsOnLowerRanks
    ensures AreReplicas(replicas, vs, nlevs, recBound)
    ensures |results| == |replicas| && forall r :: 0 <= r < |results| ==>
              results[r] == NumCompanions(nlevs, all) as real
  {
    forall r: nat | r < |replicas|
      ensures replicas[r].numLocationsOnThisRank == |Kept(replicas[r].rule, replicas[r].stream)|
    {
      assert HasCompanionsAt(replicas, vs, masters, nlevs, recBound, r);
      ghost var held := OriginalRecs(vs[r].recnums, recBound);
      assert IsNonoverlappingCompanion(replicas[r], held, Elements(held), nlevs);
    }
    PatchReplicas(replicas, world, s, vs, masters, nlevs, recBound);
    ghost var v := N.ViewsOf(replicas);
    assert HaveReplicaViews(v, vs, nlevs, recBound);
    CompanionsOfAll(v, vs, nlevs, recBound, all);
    results := CountOverReplicas(replicas, v);
  }

  method GrowAndPatch(spaces: seq<ObsSpace>, masters: seq<Master>, nlevs: nat, ghost world: seq<Rule>,
                      ghost s: seq<Obs>, ghost vs: seq<Vectors>, ghost all: seq<nat>)
      returns (replicas: seq<N.Nonoverlapping>, results: seq<real>, locBound: nat, recBound: nat)
    requires N.IsNonoverlappingWorld(world) && AreHeld(vs, world, s) && ListsAll(vs, all)
    requires forall r, q :: 0 <= r < q < |spaces| ==> spaces[r] != spaces[q]
    requires vs == NowsOf(spaces) && AreReady(vs, masters)
    modifies spaces`indx, spaces`recnums, spaces`recidx, spaces`nrecs
    ensures AreBounds(vs, locBound, recBound) && AreGrown(vs, NowsOf(spaces), nlevs, locBound, recBound)
    ensures AreReplicas(replicas, vs, nlevs, recBound) && |replicas| == |masters|
    ensures forall r :: 0 <= r < |replicas| ==>
              fresh(replicas[r]) && replicas[r].rule == Delegate(masters[r].isMyRecord)
    ensures |results| == |spaces| && forall r :: 0 <= r < |results| ==>
              results[r] == NumCompanions(nlevs, all) as real
  {
    replicas, locBound, recBound := GrowAll(spaces, masters, nlevs, vs);
    forall r: nat | r < |replicas|
      ensures replicas[r].rule == Delegate(masters[r].isMyRecord)
    {
      assert HasCompanionsAt(replicas, vs, masters, nlevs, recBound, r);
    }
    results := PatchAndCount(replicas, world, s, vs, masters, nlevs, recBound, all);
  }

  /** The vectors, the replicas and the number of locations. */
  method GrowAndFinish(spaces: seq<ObsSpace>, masters: seq<Master>, nlevs: nat, ghost world: seq<Rule>,
                       ghost s: seq<Obs>, ghost vs: seq<Vectors>, ghost all: seq<nat>)
      returns (replicas: seq<N.Nonoverlapping>, locBound: nat, recBound: nat)
    requires N.IsNonoverlappingWorld(world) && AreHeld(vs, world, s) && ListsAll(vs, all)
    requires forall r, q :: 0 <= r < q < |spaces| ==> spaces[r] != spaces[q]
    requires vs == NowsOf(spaces) && AreReady(vs, masters)
    modifies spaces
    ensures AreBounds(vs, locBound, recBound) && AreGrown(vs, NowsOf(spaces), nlevs, locBound, recBound)
    ensures AreReplicas(replicas, vs, nlevs, recBound) && |replicas| == |masters|
    ensures forall r :: 0 <= r < |replicas| ==> replicas[r].rule == Delegate(masters[r].isMyRecord)
    ensures forall r :: 0 <= r < |spaces| ==> spaces[r].gnlocs == old(spaces[r].gnlocs) + NumCompanions(nlevs, all)
  {
    var results;
    replicas, results, locBound, recBound := GrowAndPatch(spaces, masters, nlevs, world, s, vs, all);
    ghost var nows := NowsOf(spaces);
    AddCounts(spaces, results, NumCompanions(nlevs, all));
    assert NowsOf(spaces) == nows;
  }

  // ----- The pair that replaces the distribution

  /** PairOfDistributions on one rank. */
  datatype NonoverlappingPair =
    NonoverlappingPair(first: N.Nonoverlapping, second: N.Nonoverlapping, firstNumLocs: nat, secondRecordNumOffset: nat,
                       offset: nat)
  {
    predicate IsMyRecord(recNum: nat)
      requires IsKnown(first.rule) && IsKnown(second.rule)
      reads first, second
    {
      if recNum < secondRecordNumOffset then first.IsMyRecord(recNum)
      else second.IsMyRecord(recNum - secondRecordNumOffset)
    }
  }

  predicate IsKnown(rule: Rule) {
    (rule.RoundRobin? && rule.size > 0) || rule.Atlas? || rule.Delegate?
  }

  ghost predicate IsPairOf(pair: NonoverlappingPair, first: N.Nonoverlapping, second: N.Nonoverlapping, recBound: nat,
                           w: seq<View>, r: nat)
  {
    && WellFormed(w) && r < |w|
    && pair == NonoverlappingPair(first, second, |w[r].locs|, recBound, P.Offset(w))
  }

  /** The constructor on all ranks: the offset is a maximum over the ranks. */
  method MakePairs(nons: seq<N.Nonoverlapping>, replicas: seq<N.Nonoverlapping>, numLocs: seq<nat>, recBound: nat,
                   ghost w: seq<View>)
      returns (pairs: seq<NonoverlappingPair>)
    requires w == N.ViewsOf(nons) && WellFormed(w) && |nons| == |replicas| == |numLocs|
    requires forall r :: 0 <= r < |nons| ==> numLocs[r] == |w[r].locs|
    ensures |pairs| == |nons|
    ensures forall r :: 0 <= r < |nons| ==> IsPairOf(pairs[r], nons[r], replicas[r], recBound, w, r)
  {
    var offsets: seq<nat> := [];
    for r := 0 to |nons|
      invariant |offsets| == r && forall q :: 0 <= q < r ==> offsets[q] == P.LocalOffset(w[q])
    {
      var offset := if numLocs[r] > 0 then nons[r].GlobalUniqueConsecutiveLocationIndex(numLocs[r] - 1) + 1 else 0;
      offsets := offsets + [offset];
    }
    assert offsets == seq(|w|, r requires 0 <= r < |w| => P.LocalOffset(w[r]));
    var offset := MaxAll(offsets);
    pairs := [];
    for r := 0 to |nons|
      invariant |pairs| == r
      invariant forall q :: 0 <= q < r ==> IsPairOf(pairs[q], nons[q], replicas[q], recBound, w, q)
    {
      pairs := pairs + [NonoverlappingPair(nons[r], replicas[r], numLocs[r], recBound, offset)];
    }
  }

  /** The pairs cover the extended ObsSpaces and meet the contract. */
  ghost predicate IsExtendedDistribution(first: seq<View>, second: seq<View>, nows: seq<Vectors>, locBound: nat) {
    && |first| == |second| == |nows| && WellFormed(first) && WellFormed(second)
    && (forall r :: 0 <= r < |nows| ==> P.PairViews(first, second, locBound)[r].locs == nows[r].indx)
    && Consistent(P.PairViews(first, second, locBound), P.Joined(Gathered(first), Gathered(second), locBound))
  }

  lemma ExtendedDistribution(w: seq<View>, second: seq<View>, vs: seq<Vectors>, nows: seq<Vectors>, nlevs: nat,
                             locBound: nat, recBound: nat)
    requires Sound(w) && Gathered(w) == Flatten(LocsOf(w))
    requires |w| == |vs| && forall r :: 0 <= r < |w| ==> w[r].locs == vs[r].indx
    requires HaveReplicaViews(second, vs, nlevs, recBound) && AreGrown(vs, nows, nlevs, locBound, recBound)
    ensures IsExtendedDistribution(w, second, nows, locBound)
  {
    forall r: nat | r < |w|
      ensures IsExtended(vs[r], nows[r], nlevs, locBound, recBound)
    {
      assert IsGrownAt(vs, nows, nlevs, locBound, recBound, r);
    }
    OriginalsAreSeparate(w, vs, nows, nlevs, locBound, recBound);
    ExtendedNonoverlapping(w, second, locBound);
    var held := HeldRecs(RecnumsOf(vs), recBound);
    forall r | 0 <= r < |w|
      ensures P.PairViews(w, second, locBound)[r].locs == nows[r].indx
    {
      assert IsCompanionView(second[r], held[r], OwnedRecs(held)[r], nlevs);
      PairHoldsExtended(vs[r], nows[r], w[r], second[r], nlevs, locBound, recBound, P.Offset(w));
    }
  }

  /** Of the records listed on any rank, the pair says yes to exactly those listed on its own. */
  lemma PairAnswers(pair: NonoverlappingPair, master: Master, s: seq<Obs>, v: Vectors, now: Vectors, other: Vectors,
                    otherNow: Vectors, otherRule: Rule, nlevs: nat, locBound: nat, recBound: nat, rec: nat)
    requires IsAssigned(pair.first, s) && IsOriginal(v, pair.first.rule, s) && IsOriginal(other, otherRule, s)
    requires pair.second.rule == Delegate(master.isMyRecord) && pair.secondRecordNumOffset == recBound && nlevs > 0
    requires forall n: nat :: master.isMyRecord(n) <==> pair.first.IsMyRecord(n)
    requires IsExtended(v, now, nlevs, locBound, recBound) && IsExtended(other, otherNow, nlevs, locBound, recBound)
    requires rec in otherNow.recnums
    ensures pair.IsMyRecord(rec) <==> rec in now.recnums
  {
    var original := if rec < recBound then rec else rec - recBound;
    CompanionsFollowOriginals(v, now, nlevs, locBound, recBound, original);
    CompanionsFollowOriginals(other, otherNow, nlevs, locBound, recBound, original);
    RecIsHeld(otherRule, s, original);
    HoldsItsRecords(pair.first, s, original);
  }

  // ----- The whole extension

  /** One extended rank: its records are counted, and its pair answers for them. */
  ghost predicate IsExtendedRank(vs: seq<Vectors>, nows: seq<Vectors>, pair: NonoverlappingPair, nlevs: nat,
                                 locBound: nat, recBound: nat, r: nat)
    reads pair.first, pair.second
  {
    && r < |vs| && |nows| == |vs| && IsKnown(pair.first.rule) && IsKnown(pair.second.rule)
    && IsExtended(vs[r], nows[r], nlevs, locBound, recBound) && nows[r].nrecs == |Elements(nows[r].recnums)|
    && forall q, rec: nat :: 0 <= q < |nows| && rec in nows[q].recnums ==>
         (pair.IsMyRecord(rec) <==> rec in nows[r].recnums)
  }

  lemma RankIsExtended(nons: seq<N.Nonoverlapping>, masters: seq<Master>, pair: NonoverlappingPair, s: seq<Obs>,
                       vs: seq<Vectors>, nows: seq<Vectors>, w: seq<View>, nlevs: nat, locBound: nat, recBound: nat,
                       r: nat)
    requires r < |nons| && ArePatched(nons, s, w) && AreHeld(vs, N.RulesOf(nons), s) && IsMasterAt(nons, masters, r)
    requires AreGrown(vs, nows, nlevs, locBound, recBound) && nlevs > 0
    requires pair.first == nons[r] && pair.second.rule == Delegate(masters[r].isMyRecord)
    requires pair.secondRecordNumOffset == recBound
    ensures IsExtendedRank(vs, nows, pair, nlevs, locBound, recBound, r)
  {
    AssignedAt(nons, s, w, r);
    assert IsHeldAt(vs, N.RulesOf(nons), s, r) && IsGrownAt(vs, nows, nlevs, locBound, recBound, r);
    RecordsAreCounted(vs[r], nows[r], nlevs, locBound, recBound);
    forall q, rec: nat | 0 <= q < |nows| && rec in nows[q].recnums
      ensures pair.IsMyRecord(rec) <==> rec in nows[r].recnums
    {
      assert IsHeldAt(vs, N.RulesOf(nons), s, q) && IsGrownAt(vs, nows, nlevs, locBound, recBound, q);
      PairAnswers(pair, masters[r], s, vs[r], nows[r], vs[q], nows[q], nons[q].rule, nlevs, locBound, recBound, rec);
    }
  }

  /** All extended ranks: their vectors, their pairs, and the distribution that the pairs make up. */
  ghost predicate AreExtended(nows: seq<Vectors>, nons: seq<N.Nonoverlapping>, replicas: seq<N.Nonoverlapping>,
                              pairs: seq<NonoverlappingPair>, nlevs: nat, locBound: nat, recBound: nat,
                              vs: seq<Vectors>, w: seq<View>)
    reads nons, replicas
  {
    forall n :: n == nows ==> HaveExtended(n, nons, replicas, pairs, nlevs, locBound, recBound, vs, w)
  }

  ghost predicate HaveExtended(nows: seq<Vectors>, nons: seq<N.Nonoverlapping>, replicas: seq<N.Nonoverlapping>,
                               pairs: seq<NonoverlappingPair>, nlevs: nat, locBound: nat, recBound: nat,
                               vs: seq<Vectors>, w: seq<View>)
    reads nons, replicas
  {
    && |pairs| == |nows| == |replicas| == |nons| == |vs|
    && (forall r :: 0 <= r < |pairs| ==> IsPairOf(pairs[r], nons[r], replicas[r], recBound, w, r))
    && (forall r :: 0 <= r < |pairs| ==> IsExtendedRank(vs, nows, pairs[r], nlevs, locBound, recBound, r))
    && IsExtendedDistribution(w, N.ViewsOf(replicas), nows, locBound)
  }

  lemma PatchedViews(nons: seq<N.Nonoverlapping>, s: seq<Obs>, w: seq<View>, vs: seq<Vectors>)
    requires ArePatched(nons, s, w) && AreHeld(vs, N.RulesOf(nons), s)
    ensures w == N.ViewsOf(nons) && WellFormed(w) && |w| == |vs| && forall r :: 0 <= r < |w| ==> w[r].locs == vs[r].indx
  {
    assert HavePatched(nons, s, w);
    forall r: nat | r < |nons|
      ensures w[r].locs == vs[r].indx
    {
      assert IsHeldAt(vs, N.RulesOf(nons), s, r);
    }
  }

  lemma PatchedIsExtended(nons: seq<N.Nonoverlapping>, replicas: seq<N.Nonoverlapping>, s: seq<Obs>, w: seq<View>,
                          vs: seq<Vectors>, nows: seq<Vectors>, nlevs: nat, locBound: nat, recBound: nat)
    requires ArePatched(nons, s, w) && AreHeld(vs, N.RulesOf(nons), s) && AreReplicas(replicas, vs, nlevs, recBound)
    requires AreGrown(vs, nows, nlevs, locBound, recBound)
    ensures IsExtendedDistribution(w, N.ViewsOf(replicas), nows, locBound)
  {
    assert HavePatched(nons, s, w) && HaveReplicaViews(N.ViewsOf(replicas), vs, nlevs, recBound);
    PatchedViews(nons, s, w, vs);
    ExtendedDistribution(w, N.ViewsOf(replicas), vs, nows, nlevs, locBound, recBound);
  }

  method PairUp(nons: seq<N.Nonoverlapping>, replicas: seq<N.Nonoverlapping>, numLocs: seq<nat>, recBound: nat,
                ghost masters: seq<Master>, ghost nlevs: nat, ghost locBound: nat, ghost s: seq<Obs>,
                ghost vs: seq<Vectors>, ghost nows: seq<Vectors>, ghost w: seq<View>)
      returns (pairs: seq<NonoverlappingPair>)
    requires |nons| == |numLocs| == |replicas| == |masters| && ArePatched(nons, s, w) && AreHeld(vs, N.RulesOf(nons), s)
    requires forall r: nat :: r < |nons| ==> IsMasterAt(nons, masters, r)
    requires forall r :: 0 <= r < |replicas| ==> replicas[r].rule == Delegate(masters[r].isMyRecord)
    requires forall r :: 0 <= r < |vs| ==> numLocs[r] == |vs[r].indx|
    requires AreGrown(vs, nows, nlevs, locBound, recBound) && nlevs > 0 && AreReplicas(replicas, vs, nlevs, recBound)
    ensures AreExtended(nows, nons, replicas, pairs, nlevs, locBound, recBound, vs, w)
  {
    PatchedViews(nons, s, w, vs);
    pairs := MakePairs(nons, replicas, numLocs, recBound, w);
    PatchedIsExtended(nons, replicas, s, w, vs, nows, nlevs, locBound, recBound);
    forall r: nat | r < |nons|
      ensures IsExtendedRank(vs, nows, pairs[r], nlevs, locBound, recBound, r)
    {
      RankIsExtended(nons, masters, pairs[r], s, vs, nows, w, nlevs, locBound, recBound, r);
    }
    assert HaveExtended(nows, nons, replicas, pairs, nlevs, locBound, recBound, vs, w);
  }

  method ExtendAndPair(spaces: seq<ObsSpace>, nons: seq<N.Nonoverlapping>, nlevs: nat, ghost s: seq<Obs>,
                       ghost vs: seq<Vectors>, ghost w: seq<View>, ghost all: seq<nat>)
      returns (pairs: seq<NonoverlappingPair>, replicas: seq<N.Nonoverlapping>, locBound: nat, recBound: nat)
    requires |spaces| == |nons| && AreHeld(vs, N.RulesOf(nons), s) && ArePatched(nons, s, w) && ListsAll(vs, all)
    requires N.IsNonoverlappingWorld(N.RulesOf(nons)) && nlevs > 0
    requires forall r, q :: 0 <= r < q < |spaces| ==> spaces[r] != spaces[q]
    requires vs == NowsOf(spaces)
    modifies spaces
    ensures AreBounds(vs, locBound, recBound) && AreReplicas(replicas, vs, nlevs, recBound)
    ensures AreExtended(NowsOf(spaces), nons, replicas, pairs, nlevs, locBound, recBound, vs, w)
    ensures forall r :: 0 <= r < |spaces| ==> spaces[r].gnlocs == old(spaces[r].gnlocs) + NumCompanions(nlevs, all)
  {
    var numLocs := NumLocsOf(spaces);
    var masters := MastersOf(nons, spaces, s, w, vs);
    replicas, locBound, recBound := GrowAndFinish(spaces, masters, nlevs, N.RulesOf(nons), s, vs, all);
    pairs := PairUp(nons, replicas, numLocs, recBound, masters, nlevs, locBound, s, vs, NowsOf(spaces), w);
  }

  /**
   Main result: over a RoundRobin or Atlas distribution whose patches have been computed, the extension
   runs without a failing assertion. Every rank gets the companions of its own records and counts them;
   the replicas meet the contract; all ranks agree that the number of locations has grown by `nlevs` for
   each record held anywhere. The pairs cover exactly the extended locations, answer for the records of
   their ranks, and meet the contract.
   */
  method ExtendOverNonoverlapping(spaces: seq<ObsSpace>, nons: seq<N.Nonoverlapping>, nlevs: int, recordsExist: bool,
                                  ghost s: seq<Obs>, ghost vs: seq<Vectors>, ghost w: seq<View>, ghost all: seq<nat>)
      returns (extended: bool, pairs: seq<NonoverlappingPair>, replicas: seq<N.Nonoverlapping>, locBound: nat,
               recBound: nat)
    requires spaces != [] && |spaces| == |nons| && AreHeld(vs, N.RulesOf(nons), s) && ArePatched(nons, s, w)
    requires N.IsNonoverlappingWorld(N.RulesOf(nons)) && ListsAll(vs, all)
    requires forall r, q :: 0 <= r < q < |spaces| ==> spaces[r] != spaces[q]
    requires vs == NowsOf(spaces) && forall r :: 0 <= r < |spaces| ==> spaces[r].gnlocs == spaces[0].gnlocs
    modifies spaces
    ensures forall r :: 0 <= r < |spaces| ==> (extended <==> nlevs > 0 && old(spaces[r].gnlocs) > 0 && recordsExist)
    ensures !extended ==> unchanged(spaces)
    ensures extended ==> nlevs > 0 && AreBounds(vs, locBound, recBound) && AreReplicas(replicas, vs, nlevs, recBound)
    ensures extended ==>
              nlevs > 0 && AreExtended(NowsOf(spaces), nons, replicas, pairs, nlevs, locBound, recBound, vs, w)
    ensures extended ==> nlevs > 0 && forall r :: 0 <= r < |spaces| ==>
              spaces[r].gnlocs == old(spaces[r].gnlocs) + NumCompanions(nlevs, all)
  {
    extended := nlevs > 0 && spaces[0].gnlocs > 0 && recordsExist;
    pairs, replicas, locBound, recBound := [], [], 0, 0;
    if extended {
      pairs, replicas, locBound, recBound := ExtendAndPair(spaces, nons, nlevs, s, vs, w, all);
    }
  }
}
