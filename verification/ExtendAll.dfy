/** extendObsSpace, run by all ranks in step (src/ObsSpace.cc). */
module ExtendAll {
  import opened Seqs
  import opened Collectives
  import opened Contract
  import opened Streams
  import opened Companions
  import opened ReplicaDistribution
  import opened Extension
  import opened ExtendedWorld
  import opened Accumulators
  import H = HaloDistribution
  import P = PairDistribution

  /** What a rank knows of its master distribution. */
  datatype Master = Master(isMyRecord: nat -> bool, patchObs: seq<bool>)

  /** A rank before the extension. */
  ghost predicate IsMatched(v: Vectors, master: Master) {
    && Ascending(v.indx) && |v.indx| == |v.recnums| == |master.patchObs|
    && forall rec :: rec in v.recidx ==> rec in v.recnums
  }

  /** The master says yes to every record of the rank. */
  ghost predicate Admits(master: Master, recnums: seq<nat>) {
    forall rec :: rec in recnums ==> master.isMyRecord(rec)
  }

  ghost predicate IsReady(v: Vectors, master: Master) {
    IsMatched(v, master) && Admits(master, v.recnums)
  }

  ghost predicate AreReady(vs: seq<Vectors>, masters: seq<Master>) {
    |masters| == |vs| && forall r: nat :: r < |vs| ==> IsReadyAt(vs, masters, r)
  }

  ghost predicate IsReadyAt(vs: seq<Vectors>, masters: seq<Master>, r: nat) {
    r < |vs| && r < |masters| && IsReady(vs[r], masters[r])
  }

  /** A rank and its replica after the loop over the original records. */
  ghost predicate IsDone(v: Vectors, space: ObsSpace, master: Master, replica: Replica, nlevs: nat, locBound: nat,
                         recBound: nat)
    reads space, replica.Objects()
  {
    && IsExtended(v, space.Now(), nlevs, locBound, recBound)
    && replica.Follows(master.isMyRecord) && replica.InStep(CompanionsOf(v, nlevs, recBound))
    && |master.patchObs| == |v.recnums|
    && (replica.GeneralReplica? ==> replica.general.masterPatchRecords == Elements(Select(v.recnums, master.patchObs)))
  }

  /** One rank's part up to the computation of patches; `ok` is false where an assertion fails. */
  method ExtendRank(space: ObsSpace, master: Master, isNonoverlapping: bool, isIdentity: bool, nlevs: nat,
                    locBound: nat, recBound: nat, ghost v: Vectors)
      returns (ok: bool, replica: Replica, num: nat)
    requires v == space.Now() && IsMatched(v, master)
    requires (forall l :: l in v.indx ==> l < locBound) && (forall rec :: rec in v.recnums ==> rec < recBound)
    modifies space`indx, space`recnums, space`recidx, space`nrecs
    ensures ok <==> Admits(master, v.recnums)
    ensures ok ==> IsDone(v, space, master, replica, nlevs, locBound, recBound)
    ensures ok ==> num == |CompanionsOf(v, nlevs, recBound)|
    ensures replica.NonoverlappingReplica? <==> isNonoverlapping
    ensures replica.IdentityReplica? <==> !isNonoverlapping && isIdentity
    ensures fresh(replica.Objects())
  {
    replica := CreateReplicaDistribution(isNonoverlapping, isIdentity, master.isMyRecord, space.recnums,
                                         master.patchObs);
    ok, num := space.AddCompanions(replica, master.isMyRecord, nlevs, locBound, recBound);
    assert ok ==> IsExtendedBy(v, space.Now(), CompanionsOf(v, nlevs, recBound), locBound, recBound);
  }

  /** The companions of the records in `recnums` have been assigned to a general replica. */
  ghost predicate HasCompanions(replica: ReplicaOfGeneral, recnums: seq<nat>, master: Master, nlevs: nat, recBound: nat)
    reads replica
  {
    |recnums| == |master.patchObs| &&
    forall held :: held == OriginalRecs(recnums, recBound) ==>
      IsGeneralCompanion(replica, held, Elements(Select(recnums, master.patchObs)), nlevs)
  }

  method ExtendGeneralRank(space: ObsSpace, master: Master, nlevs: nat, locBound: nat, recBound: nat, ghost v: Vectors)
      returns (replica: ReplicaOfGeneral)
    requires v == space.Now() && IsReady(v, master)
    requires (forall l :: l in v.indx ==> l < locBound) && (forall rec :: rec in v.recnums ==> rec < recBound)
    modifies space`indx, space`recnums, space`recidx, space`nrecs
    ensures IsExtended(v, space.Now(), nlevs, locBound, recBound)
    ensures HasCompanions(replica, v.recnums, master, nlevs, recBound) && fresh(replica)
  {
    var ok, r, _ := ExtendRank(space, master, false, false, nlevs, locBound, recBound, v);
    assert ok;
    replica := r.general;
    OriginalRecsMember(v.recnums, recBound);
    assert replica.MyRule() == Delegate(master.isMyRecord);
    assert IsGeneralCompanion(replica, OriginalRecs(v.recnums, recBound), Elements(Select(v.recnums, master.patchObs)),
                              nlevs);
  }

  /** Over a general distribution: all ranks' parts up to the computation of patches. */
  method ExtendGeneralRanks(spaces: seq<ObsSpace>, masters: seq<Master>, nlevs: nat, locBound: nat, recBound: nat,
                            ghost vs: seq<Vectors>)
      returns (replicas: seq<ReplicaOfGeneral>)
    requires |spaces| == |masters| == |vs|
    requires forall r, q :: 0 <= r < q < |spaces| ==> spaces[r] != spaces[q]
    requires forall r :: 0 <= r < |spaces| ==> vs[r] == spaces[r].Now() && IsReady(vs[r], masters[r])
    requires forall r, l :: 0 <= r < |vs| && l in vs[r].indx ==> l < locBound
    requires forall r, rec :: 0 <= r < |vs| && rec in vs[r].recnums ==> rec < recBound
    modifies spaces`indx, spaces`recnums, spaces`recidx, spaces`nrecs
    ensures |replicas| == |spaces|
    ensures forall r :: 0 <= r < |spaces| ==> IsExtended(vs[r], spaces[r].Now(), nlevs, locBound, recBound)
    ensures forall r :: 0 <= r < |spaces| ==>
              HasCompanions(replicas[r], vs[r].recnums, masters[r], nlevs, recBound) && fresh(replicas[r])
    ensures forall r, q :: 0 <= r < q < |spaces| ==> replicas[r] != replicas[q]
  {
    replicas := [];
    ghost var now := vs;
    for r := 0 to |spaces|
      invariant |replicas| == r && |now| == |spaces|
      invariant forall q :: 0 <= q < |spaces| ==> spaces[q].Now() == now[q]
      invariant forall q :: 0 <= q < r ==> IsExtended(vs[q], now[q], nlevs, locBound, recBound)
      invariant forall q :: r <= q < |spaces| ==> now[q] == vs[q]
      invariant forall q :: 0 <= q < r ==> HasCompanions(replicas[q], vs[q].recnums, masters[q], nlevs, recBound)
      invariant forall q :: 0 <= q < r ==> fresh(replicas[q])
      invariant forall p, q :: 0 <= p < q < r ==> replicas[p] != replicas[q]
    {
      assert forall q :: 0 <= q < |spaces| && q != r ==> spaces[q] != spaces[r];
      var replica := ExtendGeneralRank(spaces[r], masters[r], nlevs, locBound, recBound, vs[r]);
      replicas := replicas + [replica];
      now := now[r := spaces[r].Now()];
    }
  }

  // ----- Over a Halo

  /** An ObsSpace as the load leaves it: what the rank keeps of the stream. */
  ghost predicate IsOriginal(v: Vectors, d: Rule, s: seq<Obs>) {
    && v.indx == Locs(Kept(d, s)) && v.recnums == Recs(Kept(d, s)) && v.nrecs == |Elements(v.recnums)|
    && forall rec :: rec in v.recidx ==> rec in v.recnums
  }

  /** The ObsSpaces of a Halo's ranks, as the load leaves them. */
  ghost predicate AreOriginal(vs: seq<Vectors>, halos: seq<H.Halo>, s: seq<Obs>) {
    |vs| == |halos| && AscendingStream(s) && forall r: nat :: r < |halos| ==> IsOriginalAt(vs, halos, s, r)
  }

  ghost predicate IsOriginalAt(vs: seq<Vectors>, halos: seq<H.Halo>, s: seq<Obs>, r: nat) {
    r < |vs| && r < |halos| && IsOriginal(vs[r], halos[r].MyRule(), s)
  }

  /** What the ranks of a Halo know before the extension. */
  ghost predicate IsHaloSpace(world: seq<Rule>, s: seq<Obs>, w: seq<View>, vs: seq<Vectors>, masters: seq<Master>) {
    && |vs| == |w| && AreReady(vs, masters) && H.IsHaloWorld(world) && H.MarksOwnRecords(world, s, w)
    && forall r: nat :: r < |w| ==> IsHaloSpaceAt(world, s, w, vs, masters, r)
  }

  ghost predicate IsHaloSpaceAt(world: seq<Rule>, s: seq<Obs>, w: seq<View>, vs: seq<Vectors>, masters: seq<Master>,
                                r: nat) {
    && r < |world| && r < |w| && r < |vs| && r < |masters| && vs[r].recnums == Recs(Kept(world[r], s))
    && masters[r].patchObs == w[r].patch
  }

  /** A Halo answers yes for exactly the records its reader has kept: the first assertion of the loop holds. */
  lemma HaloHoldsItsRecords(halo: H.Halo, rec: nat)
    requires halo.recordsInHalo == MyRecords(halo.MyRule(), halo.stream)
    ensures halo.IsMyRecord(rec) <==> rec in Recs(Kept(halo.MyRule(), halo.stream))
  {
    RecIsHeld(halo.MyRule(), halo.stream, rec);
    InMyRecords(halo.MyRule(), halo.stream, rec);
  }

  /** What the extension asks of a Halo: isMyRecord and patchObs. */
  method MasterOf(halo: H.Halo) returns (master: Master)
    ensures master.patchObs == halo.patchObsBool && forall rec: nat :: master.isMyRecord(rec) <==> halo.IsMyRecord(rec)
  {
    var records := halo.recordsInHalo;
    master := Master((rec: nat) => rec in records, halo.patchObsBool);
  }

  method MastersOf(halos: seq<H.Halo>) returns (masters: seq<Master>)
    ensures |masters| == |halos|
    ensures forall r :: 0 <= r < |halos| ==> masters[r].patchObs == halos[r].patchObsBool
    ensures forall r, rec: nat :: 0 <= r < |halos| ==> (masters[r].isMyRecord(rec) <==> halos[r].IsMyRecord(rec))
  {
    masters := [];
    for r := 0 to |halos|
      invariant |masters| == r
      invariant forall q :: 0 <= q < r ==> masters[q].patchObs == halos[q].patchObsBool
      invariant forall q, rec: nat :: 0 <= q < r ==> (masters[q].isMyRecord(rec) <==> halos[q].IsMyRecord(rec))
    {
      var master := MasterOf(halos[r]);
      masters := masters + [master];
    }
  }

  /** Every rank of a patched Halo is ready: neither assertion of the loop can fail. */
  lemma MasterIsReady(halo: H.Halo, s: seq<Obs>, v: Vectors, master: Master)
    requires AscendingStream(s) && halo.HasAssigned(s) && IsOriginal(v, halo.MyRule(), s)
    requires |halo.patchObsBool| == |v.indx| && master.patchObs == halo.patchObsBool
    requires forall rec: nat :: master.isMyRecord(rec) <==> halo.IsMyRecord(rec)
    ensures IsReady(v, master)
  {
    OfRecordsAscending(s, MyRecords(halo.MyRule(), s));
    forall rec | rec in v.recnums
      ensures master.isMyRecord(rec)
    {
      HaloHoldsItsRecords(halo, rec);
    }
  }

  lemma MastersAreReady(halos: seq<H.Halo>, s: seq<Obs>, w: seq<View>, vs: seq<Vectors>, masters: seq<Master>)
    requires AreOriginal(vs, halos, s) && H.IsPatched(halos, s, w) && |masters| == |halos|
    requires forall r :: 0 <= r < |halos| ==> masters[r].patchObs == halos[r].patchObsBool
    requires forall r, rec: nat :: 0 <= r < |halos| ==> (masters[r].isMyRecord(rec) <==> halos[r].IsMyRecord(rec))
    ensures IsHaloSpace(H.RulesOf(halos), s, w, vs, masters)
  {
    assert H.HavePatched(halos, s, w);
    forall r: nat | r < |halos|
      ensures IsReadyAt(vs, masters, r) && IsHaloSpaceAt(H.RulesOf(halos), s, w, vs, masters, r)
    {
      assert IsOriginalAt(vs, halos, s, r);
      assert w[r].locs == vs[r].indx && |w[r].patch| == |w[r].locs|;
      MasterIsReady(halos[r], s, vs[r], masters[r]);
    }
  }

  function RecnumsOf(vs: seq<Vectors>): (recnums: seq<seq<nat>>)
    ensures |recnums| == |vs| && forall r :: 0 <= r < |vs| ==> recnums[r] == vs[r].recnums
  {
    seq(|vs|, r requires 0 <= r < |vs| => vs[r].recnums)
  }

  /** A replica answers yes for exactly the records in `recnums`. */
  ghost predicate AnswersFor(replica: ReplicaOfGeneral, recnums: seq<nat>)
    reads replica
  {
    forall rec: nat :: replica.IsMyRecord(rec) <==> rec in recnums
  }

  lemma CompanionsAnswer(replica: ReplicaOfGeneral, recnums: seq<nat>, master: Master, nlevs: nat, recBound: nat)
    requires HasCompanions(replica, recnums, master, nlevs, recBound) && nlevs > 0
    requires forall rec :: rec in recnums ==> rec < recBound
    ensures AnswersFor(replica, recnums)
  {
    var held := OriginalRecs(recnums, recBound);
    OriginalRecsMember(recnums, recBound);
    assert IsGeneralCompanion(replica, held, Elements(Select(recnums, master.patchObs)), nlevs);
    forall rec: nat
      ensures replica.IsMyRecord(rec) <==> rec in recnums
    {
      InMyRecords(replica.MyRule(), replica.stream, rec);
      if rec in held {
        CompanionMember(held, nlevs, Levels(rec, nlevs)[0]);
      }
      if Appears(replica.stream, rec) {
        var i :| 0 <= i < |replica.stream| && replica.stream[i].rec == rec;
        assert replica.stream[i] in replica.stream;
        CompanionMember(held, nlevs, replica.stream[i]);
      }
    }
  }

  /** The companions of each rank's records have been assigned to its replica. */
  ghost predicate AllHaveCompanions(replicas: seq<ReplicaOfGeneral>, vs: seq<Vectors>, masters: seq<Master>, nlevs: nat,
                                    recBound: nat)
    reads replicas
  {
    && |replicas| == |vs| == |masters|
    && forall r: nat :: r < |replicas| ==> HasCompanionsAt(replicas, vs, masters, nlevs, recBound, r)
  }

  ghost predicate HasCompanionsAt(replicas: seq<ReplicaOfGeneral>, vs: seq<Vectors>, masters: seq<Master>, nlevs: nat,
                                  recBound: nat, r: nat)
    reads replicas
  {
    && r < |replicas| && r < |vs| && r < |masters|
    && HasCompanions(replicas[r], vs[r].recnums, masters[r], nlevs, recBound)
    && forall rec :: rec in vs[r].recnums ==> rec < recBound
  }

  /** The patches of the replicas over a Halo: no rank throws, and the companions meet the contract. */
  method PatchOverHalo(replicas: seq<ReplicaOfGeneral>, ghost world: seq<Rule>, ghost s: seq<Obs>, ghost w: seq<View>,
                       ghost vs: seq<Vectors>, ghost masters: seq<Master>, ghost nlevs: nat, ghost recBound: nat)
      returns (ok: bool)
    requires IsHaloSpace(world, s, w, vs, masters) && nlevs > 0
    requires AllHaveCompanions(replicas, vs, masters, nlevs, recBound)
    requires forall r, q :: 0 <= r < q < |replicas| ==> replicas[r] != replicas[q]
    modifies replicas
    ensures ok && Sound(ViewsOf(replicas))
    ensures PatchesShaped(vs, w)
    ensures AreCompanionViews(ViewsOf(replicas), HeldRecs(RecnumsOf(vs), recBound), PatchRecs(RecnumsOf(vs), w), nlevs)
    ensures forall r :: 0 <= r < |replicas| ==> AnswersFor(replicas[r], vs[r].recnums)
    ensures forall r, rec :: 0 <= r < |vs| && rec in vs[r].recnums ==> rec < recBound
  {
    ghost var recnums := RecnumsOf(vs);
    forall r: nat | r < |w|
      ensures recnums[r] == Recs(Kept(world[r], s)) && |w[r].patch| == |recnums[r]|
      ensures forall rec :: rec in recnums[r] ==> rec < recBound
    {
      assert IsReadyAt(vs, masters, r) && IsHaloSpaceAt(world, s, w, vs, masters, r);
      assert HasCompanionsAt(replicas, vs, masters, nlevs, recBound, r);
    }
    assert IsHaloMaster(world, s, recnums, w, recBound);
    HaloOwnership(world, s, recnums, w, recBound);
    forall r | 0 <= r < |replicas|
      ensures IsGeneralCompanion(replicas[r], HeldRecs(recnums, recBound)[r], PatchRecs(recnums, w)[r], nlevs)
      ensures AnswersFor(replicas[r], vs[r].recnums)
    {
      assert HasCompanionsAt(replicas, vs, masters, nlevs, recBound, r) && IsHaloSpaceAt(world, s, w, vs, masters, r);
      CompanionsAnswer(replicas[r], vs[r].recnums, masters[r], nlevs, recBound);
    }
    ok := PatchGeneral(replicas, HeldRecs(recnums, recBound), PatchRecs(recnums, w), nlevs);
  }

  ghost predicate PatchesShaped(vs: seq<Vectors>, w: seq<View>) {
    |vs| == |w| && forall r :: 0 <= r < |w| ==> |RecnumsOf(vs)[r]| == |w[r].patch|
  }

  /** Every rank counts the companions of all ranks. */
  method CountOverReplicas(replicas: seq<ReplicaOfGeneral>) returns (results: seq<real>)
    requires Sound(ViewsOf(replicas))
    ensures |results| == |replicas| && forall r :: 0 <= r < |replicas| ==>
              results[r] == |Gathered(ViewsOf(replicas))| as real
  {
    ghost var w := ViewsOf(replicas);
    var kinds: seq<Kind>, nums: seq<nat> := [], [];
    for r := 0 to |replicas|
      invariant |kinds| == |nums| == r
      invariant forall q :: 0 <= q < r ==> kinds[q] == General(w[q].patch) && nums[q] == |w[q].locs|
    {
      kinds := kinds + [General(replicas[r].isMyPatchObs)];
      nums := nums + [|replicas[r].isMyPatchObs|];
    }
    MaxAllIsMaximum(Gathered(w));
    results := CountCompanions(kinds, nums, w, MaxAll(Gathered(w)) + 1, g => 1.0);
  }

  method AddCounts(spaces: seq<ObsSpace>, results: seq<real>, ghost count: nat)
    requires |results| == |spaces| && forall r :: 0 <= r < |results| ==> results[r] == count as real
    requires forall r, q :: 0 <= r < q < |spaces| ==> spaces[r] != spaces[q]
    modifies spaces`gnlocs
    ensures forall r :: 0 <= r < |spaces| ==> spaces[r].gnlocs == old(spaces[r].gnlocs) + count
  {
    for r := 0 to |spaces|
      invariant forall q :: 0 <= q < r ==> spaces[q].gnlocs == old(spaces[q].gnlocs) + count
      invariant forall q :: r <= q < |spaces| ==> spaces[q].gnlocs == old(spaces[q].gnlocs)
    {
      spaces[r].gnlocs := spaces[r].gnlocs + results[r].Floor;
    }
  }

  /** `all` lists the records held on any rank. */
  ghost predicate ListsAll(vs: seq<Vectors>, all: seq<nat>) {
    Ascending(all) && forall rec :: rec in all <==> exists r :: 0 <= r < |vs| && rec in vs[r].recnums
  }

  /** One companion per level for each record held anywhere. */
  function NumCompanions(nlevs: nat, all: seq<nat>): nat {
    nlevs * |all|
  }

  lemma CompanionsOfAll(w: seq<View>, v: seq<View>, vs: seq<Vectors>, nlevs: nat, recBound: nat, all: seq<nat>)
    requires PatchesShaped(vs, w) && ListsAll(vs, all) && WellFormed(v)
    requires forall r, rec :: 0 <= r < |vs| && rec in vs[r].recnums ==> rec < recBound
    requires AreCompanionViews(v, HeldRecs(RecnumsOf(vs), recBound), PatchRecs(RecnumsOf(vs), w), nlevs)
    ensures |Gathered(v)| == NumCompanions(nlevs, all)
  {
    var held := HeldRecs(RecnumsOf(vs), recBound);
    forall r, rec: nat | 0 <= r < |vs|
      ensures rec in held[r] <==> rec in vs[r].recnums
    {
      OriginalRecsMember(vs[r].recnums, recBound);
    }
    CompanionCount(v, held, PatchRecs(RecnumsOf(vs), w), nlevs, all);
  }

  ghost function NowsOf(spaces: seq<ObsSpace>): (nows: seq<Vectors>)
    reads spaces
    ensures |nows| == |spaces| && forall r :: 0 <= r < |spaces| ==> nows[r] == spaces[r].Now()
  {
    seq(|spaces|, r requires 0 <= r < |spaces| reads spaces => spaces[r].Now())
  }

  /** Every rank holds the companions of its own records. */
  ghost predicate AreGrown(vs: seq<Vectors>, nows: seq<Vectors>, nlevs: nat, locBound: nat, recBound: nat) {
    |nows| == |vs| && forall r: nat :: r < |vs| ==> IsGrownAt(vs, nows, nlevs, locBound, recBound, r)
  }

  ghost predicate IsGrownAt(vs: seq<Vectors>, nows: seq<Vectors>, nlevs: nat, locBound: nat, recBound: nat, r: nat) {
    r < |vs| && r < |nows| && IsExtended(vs[r], nows[r], nlevs, locBound, recBound)
  }

  /** The vectors of all ranks grow; every rank keeps its count of locations. */
  method GrowAll(spaces: seq<ObsSpace>, masters: seq<Master>, nlevs: nat, ghost vs: seq<Vectors>)
      returns (replicas: seq<ReplicaOfGeneral>, locBound: nat, recBound: nat)
    requires forall r, q :: 0 <= r < q < |spaces| ==> spaces[r] != spaces[q]
    requires vs == NowsOf(spaces) && AreReady(vs, masters)
    modifies spaces`indx, spaces`recnums, spaces`recidx, spaces`nrecs
    ensures AreBounds(vs, locBound, recBound) && AreGrown(vs, NowsOf(spaces), nlevs, locBound, recBound)
    ensures AllHaveCompanions(replicas, vs, masters, nlevs, recBound)
    ensures forall r :: 0 <= r < |replicas| ==> fresh(replicas[r])
    ensures forall r, q :: 0 <= r < q < |replicas| ==> replicas[r] != replicas[q]
  {
    locBound, recBound := GlobalBounds(spaces, vs);
    forall r: nat | r < |vs|
      ensures IsReady(vs[r], masters[r])
    {
      assert IsReadyAt(vs, masters, r);
    }
    BoundsHold(vs, locBound, recBound);
    replicas := ExtendGeneralRanks(spaces, masters, nlevs, locBound, recBound, vs);
    assert forall r: nat :: r < |vs| ==> HasCompanionsAt(replicas, vs, masters, nlevs, recBound, r);
    assert forall r: nat :: r < |vs| ==> IsGrownAt(vs, NowsOf(spaces), nlevs, locBound, recBound, r);
  }

  /** The replicas of the ranks meet the contract on the companions of `vs`, owned as the patches `w` say. */
  ghost predicate AreReplicas(replicas: seq<ReplicaOfGeneral>, vs: seq<Vectors>, w: seq<View>, nlevs: nat,
                              recBound: nat)
    reads replicas
  {
    forall v :: v == ViewsOf(replicas) ==> HaveReplicaViews(replicas, v, vs, w, nlevs, recBound)
  }

  ghost predicate HaveReplicaViews(replicas: seq<ReplicaOfGeneral>, v: seq<View>, vs: seq<Vectors>, w: seq<View>,
                                   nlevs: nat, recBound: nat)
    reads replicas
  {
    v == ViewsOf(replicas) && AreReplicaViews(v, vs, w, nlevs, recBound) && AllAnswer(replicas, vs)
  }

  ghost predicate AreReplicaViews(v: seq<View>, vs: seq<Vectors>, w: seq<View>, nlevs: nat, recBound: nat) {
    && Sound(v) && PatchesShaped(vs, w)
    && AreCompanionViews(v, HeldRecs(RecnumsOf(vs), recBound), PatchRecs(RecnumsOf(vs), w), nlevs)
  }

  ghost predicate AllAnswer(replicas: seq<ReplicaOfGeneral>, vs: seq<Vectors>)
    reads replicas
  {
    |replicas| == |vs| && forall r :: 0 <= r < |replicas| ==> AnswersFor(replicas[r], vs[r].recnums)
  }

  /** The patches and the count, after the vectors of all ranks have grown. */
  method PatchAndCount(replicas: seq<ReplicaOfGeneral>, ghost masters: seq<Master>, ghost nlevs: nat,
                       ghost recBound: nat, ghost world: seq<Rule>, ghost s: seq<Obs>, ghost w: seq<View>,
                       ghost vs: seq<Vectors>, ghost all: seq<nat>)
      returns (ok: bool, results: seq<real>)
    requires IsHaloSpace(world, s, w, vs, masters) && ListsAll(vs, all) && nlevs > 0
    requires AllHaveCompanions(replicas, vs, masters, nlevs, recBound)
    requires forall r, q :: 0 <= r < q < |replicas| ==> replicas[r] != replicas[q]
    modifies replicas
    ensures ok && AreReplicas(replicas, vs, w, nlevs, recBound)
    ensures |results| == |replicas| && forall r :: 0 <= r < |results| ==>
              results[r] == NumCompanions(nlevs, all) as real
  {
    ok := PatchOverHalo(replicas, world, s, w, vs, masters, nlevs, recBound);
    CompanionsOfAll(w, ViewsOf(replicas), vs, nlevs, recBound, all);
    results := CountOverReplicas(replicas);
    assert HaveReplicaViews(replicas, ViewsOf(replicas), vs, w, nlevs, recBound);
  }

  method GrowAndPatch(spaces: seq<ObsSpace>, masters: seq<Master>, nlevs: nat, ghost world: seq<Rule>,
                      ghost s: seq<Obs>, ghost w: seq<View>, ghost vs: seq<Vectors>, ghost all: seq<nat>)
      returns (ok: bool, replicas: seq<ReplicaOfGeneral>, results: seq<real>, locBound: nat, recBound: nat)
    requires |spaces| == |vs| && IsHaloSpace(world, s, w, vs, masters) && ListsAll(vs, all) && nlevs > 0
    requires forall r, q :: 0 <= r < q < |spaces| ==> spaces[r] != spaces[q]
    requires vs == NowsOf(spaces)
    modifies spaces`indx, spaces`recnums, spaces`recidx, spaces`nrecs
    ensures ok && AreBounds(vs, locBound, recBound) && AreGrown(vs, NowsOf(spaces), nlevs, locBound, recBound)
    ensures AreReplicas(replicas, vs, w, nlevs, recBound) && forall r :: 0 <= r < |replicas| ==> fresh(replicas[r])
    ensures |results| == |spaces| && forall r :: 0 <= r < |results| ==> results[r] == NumCompanions(nlevs, all) as real
  {
    replicas, locBound, recBound := GrowAll(spaces, masters, nlevs, vs);
    ok, results := PatchAndCount(replicas, masters, nlevs, recBound, world, s, w, vs, all);
  }

  method GrowAndFinish(spaces: seq<ObsSpace>, masters: seq<Master>, nlevs: nat, ghost world: seq<Rule>,
                       ghost s: seq<Obs>, ghost w: seq<View>, ghost vs: seq<Vectors>, ghost all: seq<nat>)
      returns (ok: bool, replicas: seq<ReplicaOfGeneral>, locBound: nat, recBound: nat)
    requires |spaces| == |vs| && IsHaloSpace(world, s, w, vs, masters) && ListsAll(vs, all) && nlevs > 0
    requires forall r, q :: 0 <= r < q < |spaces| ==> spaces[r] != spaces[q]
    requires vs == NowsOf(spaces)
    modifies spaces
    ensures ok && AreBounds(vs, locBound, recBound) && AreGrown(vs, NowsOf(spaces), nlevs, locBound, recBound)
    ensures AreReplicas(replicas, vs, w, nlevs, recBound) && forall r :: 0 <= r < |replicas| ==> fresh(replicas[r])
    ensures forall r :: 0 <= r < |spaces| ==> spaces[r].gnlocs == old(spaces[r].gnlocs) + NumCompanions(nlevs, all)
  {
    var results;
    ok, replicas, results, locBound, recBound := GrowAndPatch(spaces, masters, nlevs, world, s, w, vs, all);
    ghost var nows := NowsOf(spaces);
    AddCounts(spaces, results, NumCompanions(nlevs, all));
    assert NowsOf(spaces) == nows;
  }

  // ----- The pair that replaces the distribution

  /** PairOfDistributions on one rank. */
  datatype HaloPair = HaloPair(first: H.Halo, second: ReplicaOfGeneral, firstNumLocs: nat, secondRecordNumOffset: nat,
                               offset: nat)
  {
    predicate IsMyRecord(recNum: nat)
      reads first, second
    {
      if recNum < secondRecordNumOffset then first.IsMyRecord(recNum)
      else second.IsMyRecord(recNum - secondRecordNumOffset)
    }

    /** Companion location `g` of the second distribution is location `locBound + g`. */
    ghost function MyView(locBound: nat): View
      requires |first.MyView().index| == |first.MyView().locs|
      reads first, second
    {
      P.PairView(first.MyView(), second.MyView(), locBound, offset)
    }
  }

  /** The pair of a rank, given the views of the first distribution on all ranks. */
  ghost predicate IsPairOf(pair: HaloPair, halo: H.Halo, replica: ReplicaOfGeneral, recBound: nat, w: seq<View>,
                           r: nat) {
    && WellFormed(w) && r < |w|
    && pair == HaloPair(halo, replica, |w[r].locs|, recBound, P.Offset(w))
  }

  /** The constructor on all ranks: the offset is a maximum over the ranks. */
  method MakePairs(halos: seq<H.Halo>, replicas: seq<ReplicaOfGeneral>, numLocs: seq<nat>, recBound: nat,
                   ghost w: seq<View>)
      returns (pairs: seq<HaloPair>)
    requires w == H.ViewsOf(halos) && WellFormed(w) && |halos| == |replicas| == |numLocs|
    requires forall r :: 0 <= r < |halos| ==> numLocs[r] == |w[r].locs|
    ensures |pairs| == |halos|
    ensures forall r :: 0 <= r < |halos| ==> IsPairOf(pairs[r], halos[r], replicas[r], recBound, w, r)
  {
    var offsets: seq<nat> := [];
    for r := 0 to |halos|
      invariant |offsets| == r && forall q :: 0 <= q < r ==> offsets[q] == P.LocalOffset(w[q])
    {
      assert w[r].index == halos[r].globalUniqueConsecutiveLocIndices;
      var offset := if numLocs[r] > 0 then halos[r].globalUniqueConsecutiveLocIndices[numLocs[r] - 1] + 1 else 0;
      offsets := offsets + [offset];
    }
    assert offsets == seq(|w|, r requires 0 <= r < |w| => P.LocalOffset(w[r]));
    var offset := MaxAll(offsets);
    pairs := [];
    for r := 0 to |halos|
      invariant |pairs| == r
      invariant forall q :: 0 <= q < r ==> IsPairOf(pairs[q], halos[q], replicas[q], recBound, w, q)
    {
      pairs := pairs + [HaloPair(halos[r], replicas[r], numLocs[r], recBound, offset)];
    }
  }

  /** Original locations, held as the views `w` say, lie below the bound. */
  lemma OriginalsAreSeparate(w: seq<View>, vs: seq<Vectors>, nows: seq<Vectors>, nlevs: nat, locBound: nat,
                             recBound: nat)
    requires |w| == |vs| == |nows| && forall r :: 0 <= r < |w| ==> w[r].locs == vs[r].indx
    requires forall r :: 0 <= r < |w| ==> IsExtended(vs[r], nows[r], nlevs, locBound, recBound)
    ensures P.Separate(w, locBound)
  {
    forall r, j | 0 <= r < |w| && 0 <= j < |w[r].locs|
      ensures w[r].locs[j] < locBound
    {
      assert IsExtendedBy(vs[r], nows[r], CompanionsOf(vs[r], nlevs, recBound), locBound, recBound);
      assert w[r].locs[j] in vs[r].indx;
    }
  }

  /** When the pair meets the contract: the condition of `ExtendedGeneral`, which each rank can evaluate. */
  ghost predicate LastIsGathered(first: seq<View>, second: seq<View>)
    requires WellFormed(first) && WellFormed(second)
  {
    || Gathered(first) == [] || Gathered(second) == []
    || exists r :: 0 <= r < |first| && P.EndsWithLast(first[r], Gathered(first))
  }

  /** The pair covers the extended ObsSpaces and meets the contract exactly under that condition. */
  ghost predicate IsExtendedDistribution(first: seq<View>, second: seq<View>, nows: seq<Vectors>, locBound: nat) {
    && |first| == |second| == |nows| && WellFormed(first) && WellFormed(second)
    && (forall r :: 0 <= r < |nows| ==> P.PairViews(first, second, locBound)[r].locs == nows[r].indx)
    && (Consistent(P.PairViews(first, second, locBound), P.Joined(Gathered(first), Gathered(second), locBound))
        <==> LastIsGathered(first, second))
  }

  lemma ExtendedDistribution(w: seq<View>, second: seq<View>, vs: seq<Vectors>, nows: seq<Vectors>, nlevs: nat,
                             locBound: nat, recBound: nat)
    requires Sound(w) && |w| == |vs| && forall r :: 0 <= r < |w| ==> w[r].locs == vs[r].indx
    requires AreReplicaViews(second, vs, w, nlevs, recBound) && AreGrown(vs, nows, nlevs, locBound, recBound)
    ensures IsExtendedDistribution(w, second, nows, locBound)
  {
    forall r: nat | r < |w|
      ensures IsExtended(vs[r], nows[r], nlevs, locBound, recBound)
    {
      assert IsGrownAt(vs, nows, nlevs, locBound, recBound, r);
    }
    OriginalsAreSeparate(w, vs, nows, nlevs, locBound, recBound);
    ExtendedGeneral(w, second, locBound);
    var held, owned := HeldRecs(RecnumsOf(vs), recBound), PatchRecs(RecnumsOf(vs), w);
    forall r | 0 <= r < |w|
      ensures P.PairViews(w, second, locBound)[r].locs == nows[r].indx
    {
      assert IsCompanionView(second[r], held[r], owned[r], nlevs);
      PairHoldsExtended(vs[r], nows[r], w[r], second[r], nlevs, locBound, recBound, P.Offset(w));
    }
  }

  /** The pair of a rank says yes to exactly the records that the extended ObsSpace lists. */
  lemma PairAnswers(pair: HaloPair, v: Vectors, now: Vectors, nlevs: nat, locBound: nat, recBound: nat, rec: nat)
    requires IsExtended(v, now, nlevs, locBound, recBound) && nlevs > 0 && pair.secondRecordNumOffset == recBound
    requires forall r: nat :: pair.first.IsMyRecord(r) <==> r in v.recnums
    requires AnswersFor(pair.second, v.recnums)
    ensures pair.IsMyRecord(rec) <==> rec in now.recnums
  {
    assert IsExtendedBy(v, now, CompanionsOf(v, nlevs, recBound), locBound, recBound);
    var first, second := pair.first.recordsInHalo, pair.second.myRecords;
    forall r: nat
      ensures r in first <==> r in v.recnums
      ensures r in second <==> r in v.recnums
    {
      assert pair.first.IsMyRecord(r) <==> r in v.recnums;
      assert pair.second.IsMyRecord(r) <==> r in v.recnums;
    }
    PairOwnsExtendedRecords(v, now, nlevs, locBound, recBound, (r: nat) => r in first, (r: nat) => r in second, rec);
  }

  // ----- The whole extension

  /** The numbers of locations before the extension. */
  method NumLocsOf(spaces: seq<ObsSpace>) returns (numLocs: seq<nat>)
    ensures |numLocs| == |spaces| && forall r :: 0 <= r < |spaces| ==> numLocs[r] == |spaces[r].indx|
  {
    numLocs := [];
    for r := 0 to |spaces|
      invariant |numLocs| == r && forall q :: 0 <= q < r ==> numLocs[q] == |spaces[q].indx|
    {
      numLocs := numLocs + [|spaces[r].indx|];
    }
  }

  /** The extension of the vectors: the masters are the halos themselves. */
  method ExtendVectors(spaces: seq<ObsSpace>, halos: seq<H.Halo>, nlevs: nat, ghost s: seq<Obs>, ghost vs: seq<Vectors>,
                       ghost all: seq<nat>, ghost w: seq<View>)
      returns (ok: bool, replicas: seq<ReplicaOfGeneral>, locBound: nat, recBound: nat)
    requires |spaces| == |halos| && AreOriginal(vs, halos, s) && H.IsPatched(halos, s, w) && ListsAll(vs, all)
             && nlevs > 0
    requires forall r, q :: 0 <= r < q < |spaces| ==> spaces[r] != spaces[q]
    requires vs == NowsOf(spaces)
    modifies spaces
    ensures ok && AreBounds(vs, locBound, recBound) && AreGrown(vs, NowsOf(spaces), nlevs, locBound, recBound)
    ensures AreReplicas(replicas, vs, w, nlevs, recBound) && forall r :: 0 <= r < |replicas| ==> fresh(replicas[r])
    ensures forall r :: 0 <= r < |spaces| ==> spaces[r].gnlocs == old(spaces[r].gnlocs) + NumCompanions(nlevs, all)
  {
    var masters := MastersOf(halos);
    MastersAreReady(halos, s, w, vs, masters);
    ok, replicas, locBound, recBound := GrowAndFinish(spaces, masters, nlevs, H.RulesOf(halos), s, w, vs, all);
  }

  /** One rank after the extension: its records are counted, and its pair answers for them. */
  lemma RankIsExtended(halo: H.Halo, replica: ReplicaOfGeneral, pair: HaloPair, s: seq<Obs>, v: Vectors, now: Vectors,
                       nlevs: nat, locBound: nat, recBound: nat)
    requires IsOriginal(v, halo.MyRule(), s) && halo.HasAssigned(s)
    requires IsExtended(v, now, nlevs, locBound, recBound) && nlevs > 0 && AnswersFor(replica, v.recnums)
    requires pair.first == halo && pair.second == replica && pair.secondRecordNumOffset == recBound
    ensures now.nrecs == |Elements(now.recnums)| && forall rec: nat :: pair.IsMyRecord(rec) <==> rec in now.recnums
  {
    RecordsAreCounted(v, now, nlevs, locBound, recBound);
    forall r: nat
      ensures halo.IsMyRecord(r) <==> r in v.recnums
    {
      HaloHoldsItsRecords(halo, r);
    }
    forall rec: nat
      ensures pair.IsMyRecord(rec) <==> rec in now.recnums
    {
      PairAnswers(pair, v, now, nlevs, locBound, recBound, rec);
    }
  }

  /** One extended rank and its pair. */
  ghost predicate IsExtendedRank(v: Vectors, now: Vectors, pair: HaloPair, nlevs: nat, locBound: nat, recBound: nat)
    reads pair.first, pair.second
  {
    && IsExtended(v, now, nlevs, locBound, recBound) && now.nrecs == |Elements(now.recnums)|
    && forall rec: nat :: pair.IsMyRecord(rec) <==> rec in now.recnums
  }

  /** All extended ranks: their vectors, their pairs, and the distribution that the pairs make up. */
  ghost predicate AreExtended(nows: seq<Vectors>, halos: seq<H.Halo>, replicas: seq<ReplicaOfGeneral>,
                              pairs: seq<HaloPair>, nlevs: nat, locBound: nat, recBound: nat, vs: seq<Vectors>,
                              w: seq<View>)
    reads halos, replicas
  {
    forall n :: n == nows ==> HaveExtended(n, halos, replicas, pairs, nlevs, locBound, recBound, vs, w)
  }

  ghost predicate HaveExtended(nows: seq<Vectors>, halos: seq<H.Halo>, replicas: seq<ReplicaOfGeneral>,
                               pairs: seq<HaloPair>, nlevs: nat, locBound: nat, recBound: nat, vs: seq<Vectors>,
                               w: seq<View>)
    reads halos, replicas
  {
    && |pairs| == |nows| == |replicas| == |halos| == |vs|
    && (forall r :: 0 <= r < |pairs| ==> IsPairOf(pairs[r], halos[r], replicas[r], recBound, w, r))
    && (forall r :: 0 <= r < |pairs| ==> IsExtendedRank(vs[r], nows[r], pairs[r], nlevs, locBound, recBound))
    && IsExtendedDistribution(w, ViewsOf(replicas), nows, locBound)
  }

  /** The pairs of the extended ranks. */
  method PairUp(halos: seq<H.Halo>, replicas: seq<ReplicaOfGeneral>, numLocs: seq<nat>, recBound: nat, ghost nlevs: nat,
                ghost locBound: nat, ghost s: seq<Obs>, ghost vs: seq<Vectors>, ghost nows: seq<Vectors>,
                ghost w: seq<View>)
      returns (pairs: seq<HaloPair>)
    requires |halos| == |numLocs| && AreOriginal(vs, halos, s) && H.IsPatched(halos, s, w) && nlevs > 0
    requires forall r :: 0 <= r < |vs| ==> numLocs[r] == |vs[r].indx|
    requires AreGrown(vs, nows, nlevs, locBound, recBound)
    requires AreReplicas(replicas, vs, w, nlevs, recBound)
    ensures AreExtended(nows, halos, replicas, pairs, nlevs, locBound, recBound, vs, w)
  {
    assert H.HavePatched(halos, s, w) && HaveReplicaViews(replicas, ViewsOf(replicas), vs, w, nlevs, recBound);
    forall r: nat | r < |halos|
      ensures w[r].locs == vs[r].indx
    {
      assert IsOriginalAt(vs, halos, s, r);
    }
    pairs := MakePairs(halos, replicas, numLocs, recBound, w);
    ExtendedDistribution(w, ViewsOf(replicas), vs, nows, nlevs, locBound, recBound);
    forall r | 0 <= r < |nows|
      ensures IsExtendedRank(vs[r], nows[r], pairs[r], nlevs, locBound, recBound)
    {
      assert IsOriginalAt(vs, halos, s, r) && IsGrownAt(vs, nows, nlevs, locBound, recBound, r);
      RankIsExtended(halos[r], replicas[r], pairs[r], s, vs[r], nows[r], nlevs, locBound, recBound);
    }
  }

  method ExtendAndPair(spaces: seq<ObsSpace>, halos: seq<H.Halo>, nlevs: nat, ghost s: seq<Obs>, ghost vs: seq<Vectors>,
                       ghost w: seq<View>, ghost all: seq<nat>)
      returns (ok: bool, pairs: seq<HaloPair>, replicas: seq<ReplicaOfGeneral>, locBound: nat, recBound: nat)
    requires |spaces| == |halos| && AreOriginal(vs, halos, s) && H.IsPatched(halos, s, w) && ListsAll(vs, all)
             && nlevs > 0
    requires forall r, q :: 0 <= r < q < |spaces| ==> spaces[r] != spaces[q]
    requires vs == NowsOf(spaces)
    modifies spaces
    ensures ok && AreBounds(vs, locBound, recBound) && AreReplicas(replicas, vs, w, nlevs, recBound)
    ensures AreExtended(NowsOf(spaces), halos, replicas, pairs, nlevs, locBound, recBound, vs, w)
    ensures forall r :: 0 <= r < |spaces| ==> spaces[r].gnlocs == old(spaces[r].gnlocs) + NumCompanions(nlevs, all)
  {
    var numLocs := NumLocsOf(spaces);
    ok, replicas, locBound, recBound := ExtendVectors(spaces, halos, nlevs, s, vs, all, w);
    pairs := PairUp(halos, replicas, numLocs, recBound, nlevs, locBound, s, vs, NowsOf(spaces), w);
  }

  /**
   Main result: over a Halo whose patches have been computed, the extension runs without a failing
   assertion or exception. Every rank gets the companions of its own records; its records are
   counted; the replicas meet the contract; all ranks agree that the number of locations has grown by
   `nlevs` for each record held anywhere. The pair that replaces the distribution covers exactly the
   extended locations and records, and meets the contract exactly if `LastIsGathered`.
   */
  method ExtendOverHalo(spaces: seq<ObsSpace>, halos: seq<H.Halo>, nlevs: int, recordsExist: bool, ghost s: seq<Obs>,
                        ghost vs: seq<Vectors>, ghost w: seq<View>, ghost all: seq<nat>)
      returns (extended: bool, ok: bool, pairs: seq<HaloPair>, replicas: seq<ReplicaOfGeneral>, locBound: nat,
               recBound: nat)
    requires spaces != [] && |spaces| == |halos| && AreOriginal(vs, halos, s) && H.IsPatched(halos, s, w)
             && ListsAll(vs, all)
    requires forall r, q :: 0 <= r < q < |spaces| ==> spaces[r] != spaces[q]
    requires vs == NowsOf(spaces) && forall r :: 0 <= r < |spaces| ==> spaces[r].gnlocs == spaces[0].gnlocs
    modifies spaces
    ensures forall r :: 0 <= r < |spaces| ==> (extended <==> nlevs > 0 && old(spaces[r].gnlocs) > 0 && recordsExist)
    ensures !extended ==> unchanged(spaces)
    ensures extended ==> ok && AreBounds(vs, locBound, recBound)
    ensures extended ==> nlevs > 0 && AreReplicas(replicas, vs, w, nlevs, recBound)
    ensures extended ==>
              nlevs > 0 && AreExtended(NowsOf(spaces), halos, replicas, pairs, nlevs, locBound, recBound, vs, w)
    ensures extended ==> nlevs > 0 && forall r :: 0 <= r < |spaces| ==>
              spaces[r].gnlocs == old(spaces[r].gnlocs) + NumCompanions(nlevs, all)
  {
    extended := nlevs > 0 && spaces[0].gnlocs > 0 && recordsExist;
    ok, pairs, replicas, locBound, recBound := true, [], [], 0, 0;
    if extended {
      ok, pairs, replicas, locBound, recBound := ExtendAndPair(spaces, halos, nlevs, s, vs, w, all);
    }
  }
}
