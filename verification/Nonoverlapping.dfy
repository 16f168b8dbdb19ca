/**
 Distributions in which no record is held on more than one rank (NonoverlappingDistribution.cc,
 RoundRobin.cc, AtlasDistribution.cc, ReplicaOfNonoverlappingDistribution.cc), and the one in which
 every rank holds everything (InefficientDistribution.cc). All live in src/distribution.
 */
module NonoverlappingDistribution {
  import opened Seqs
  import opened Contract
  import opened Streams

  /** One rank. The subclasses differ in `IsMyRecord` and, for Atlas, in what they record. */
  class Nonoverlapping {
    const rule: Rule
    /** Atlas only: the records whose first point lies in this rank's partition. */
    var myRecords: set<nat>
    /** Atlas only. */
    var nextRecordToAssign: nat
    var numLocationsOnThisRank: nat
    var numLocationsOnLowerRanks: nat
    ghost var stream: seq<Obs>

    ghost predicate Valid()
      reads this`myRecords, this`nextRecordToAssign, this`numLocationsOnThisRank, this`stream
    {
      && (rule.RoundRobin? || rule.Atlas? || rule.Delegate?)
      && (rule.RoundRobin? ==> rule.size > 0)
      && (rule.Atlas? ==>
            && Consecutive(stream)
            && nextRecordToAssign == NextRecord(stream)
            && myRecords == MyRecords(rule, stream))
      && numLocationsOnThisRank == |Kept(rule, stream)|
    }

    constructor (rule: Rule)
      requires rule.RoundRobin? || rule.Atlas? || rule.Delegate?
      requires rule.RoundRobin? ==> rule.size > 0
      ensures this.rule == rule && Valid() && stream == []
    {
      this.rule := rule;
      myRecords, nextRecordToAssign := {}, 0;
      numLocationsOnThisRank, numLocationsOnLowerRanks := 0, 0;
      stream := [];
    }

    predicate IsMyRecord(recNum: nat)
      requires rule.RoundRobin? || rule.Atlas? || rule.Delegate?
      requires rule.RoundRobin? ==> rule.size > 0
      reads this
    {
      match rule
      case RoundRobin(rank, size) => recNum % size == rank
      case Atlas(_, _) => recNum in myRecords
      case Delegate(isMasterRecord) => isMasterRecord(recNum)
    }

    /** `ok` is false where the source's assertion that records arrive in consecutive order fails. */
    method AssignRecord(recNum: nat, locNum: nat, point: Point2) returns (ok: bool)
      requires Valid()
      modifies this
      ensures ok <==> (rule.Atlas? ==> recNum <= old(nextRecordToAssign))
      ensures ok ==> Valid() && stream == old(stream) + [Obs(recNum, locNum, point)]
      ensures ok && Appears(stream, recNum) ==> (IsMyRecord(recNum) <==> Mine(rule, stream, recNum))
      ensures !ok ==> unchanged(this)
      ensures numLocationsOnLowerRanks == old(numLocationsOnLowerRanks)
    {
      ghost var o := Obs(recNum, locNum, point);
      ghost var s := stream;
      MyRecordsSnoc(rule, s, o);
      KeptSnoc(rule, s, o);
      AppearsSnoc(s, o, recNum);
      InMyRecords(rule, s, recNum);
      InMyRecords(rule, s + [o], recNum);
      assert (s + [o])[..|s|] == s;
      if rule.Atlas? {
        ConsecutiveRecords(s);
        if recNum == nextRecordToAssign {
          if (rule.locate)(point) == rule.rank {
            myRecords := myRecords + {recNum};
          }
          nextRecordToAssign := nextRecordToAssign + 1;
        } else if recNum > nextRecordToAssign {
          return false;
        } else {
          MineStable(rule, s, [o], recNum);
        }
      }
      if IsMyRecord(recNum) {
        numLocationsOnThisRank := numLocationsOnThisRank + 1;
      }
      stream := s + [o];
      return true;
    }

    function GlobalUniqueConsecutiveLocationIndex(loc: nat): nat
      reads this
    {
      numLocationsOnLowerRanks + loc
    }

    ghost function MyView(): View
      reads this
    {
      var locs := Locs(Kept(rule, stream));
      View(locs, seq(|locs|, _ => true),
           seq(|locs|, j requires 0 <= j < |locs| reads this => GlobalUniqueConsecutiveLocationIndex(j)))
    }
  }

  ghost function ViewsOf(ranks: seq<Nonoverlapping>): seq<View>
    reads ranks
  {
    seq(|ranks|, r requires 0 <= r < |ranks| reads ranks => ranks[r].MyView())
  }

  /** computePatchLocs on all ranks: an exclusive scan of the local counts. */
  method ComputePatchLocs(ranks: seq<Nonoverlapping>, ghost held: seq<seq<nat>>)
    requires forall r :: 0 <= r < |ranks| ==> ranks[r].Valid()
    requires forall r, q :: 0 <= r < q < |ranks| ==> ranks[r] != ranks[q]
    requires |held| == |ranks|
    requires forall r :: 0 <= r < |ranks| ==> held[r] == Locs(Kept(ranks[r].rule, ranks[r].stream))
    modifies set r | 0 <= r < |ranks| :: ranks[r]`numLocationsOnLowerRanks
    ensures forall r :: 0 <= r < |ranks| ==> ranks[r].numLocationsOnLowerRanks == Start(held, r)
  {
    var below := 0;
    for r := 0 to |ranks|
      invariant forall q :: 0 <= q < |ranks| ==> ranks[q].numLocationsOnThisRank == |held[q]|
      invariant below == Start(held, r)
      invariant forall q :: 0 <= q < r ==> ranks[q].numLocationsOnLowerRanks == Start(held, q)
    {
      ranks[r].numLocationsOnLowerRanks := below;
      StartStep(held, r);
      below := below + ranks[r].numLocationsOnThisRank;
    }
  }

  /** The view of rank `r` where ranks number their locations one after the other. */
  function CountingView(locs: seq<seq<nat>>, r: nat): View
    requires r < |locs|
  {
    var n := |locs[r]|;
    View(locs[r], seq(n, _ => true), seq(n, j requires 0 <= j < n => After(Start(locs, r), j)))
  }

  function After(start: nat, j: nat): nat {
    start + j
  }

  lemma CountsUp(rank: Nonoverlapping, locs: seq<seq<nat>>, r: nat)
    requires r < |locs| && Locs(Kept(rank.rule, rank.stream)) == locs[r]
    requires rank.numLocationsOnLowerRanks == Start(locs, r)
    ensures rank.MyView() == CountingView(locs, r)
  {
  }

  /** Where all flags are set, every location is gathered, and counting up rank by rank points there. */
  lemma CountingUpPoints(w: seq<View>)
    requires WellFormed(w)
    requires forall r, j :: 0 <= r < |w| && 0 <= j < |w[r].locs| ==>
               w[r].patch[j] && w[r].index[j] == Start(LocsOf(w), r) + j
    ensures Gathered(w) == Flatten(LocsOf(w))
    ensures forall r :: 0 <= r < |w| ==> IndexPoints(w[r], Flatten(LocsOf(w)))
  {
    var ss := LocsOf(w);
    forall r | 0 <= r < |w|
      ensures Select(ss[r], w[r].patch) == ss[r]
    {
      SelectAll(ss[r], w[r].patch);
    }
    assert PatchOnly(w, ss) == ss;
    forall r | 0 <= r < |w|
      ensures IndexPoints(w[r], Flatten(ss))
    {
      forall j | 0 <= j < |w[r].locs|
        ensures w[r].index[j] < |Flatten(ss)| && Flatten(ss)[w[r].index[j]] == w[r].locs[j]
      {
        FlattenAt(ss, r, j);
      }
    }
  }

  /** Where held locations are disjoint, counting up rank by rank meets the contract. */
  lemma NonoverlappingIsSound(w: seq<View>)
    requires WellFormed(w)
    requires forall r :: 0 <= r < |w| ==> Distinct(w[r].locs)
    requires forall r, q, g :: 0 <= r < q < |w| && g in w[r].locs ==> g !in w[q].locs
    requires forall r, j :: 0 <= r < |w| && 0 <= j < |w[r].locs| ==>
               w[r].patch[j] && w[r].index[j] == Start(LocsOf(w), r) + j
    ensures Sound(w) && Gathered(w) == Flatten(LocsOf(w))
  {
    CountingUpPoints(w);
    FlattenDistinct(LocsOf(w));
    GatheredIsHeld(w);
  }

  // ----- Every record has one rank

  ghost predicate IsNonoverlappingWorld(world: seq<Rule>) {
    || (forall r :: 0 <= r < |world| ==> world[r] == RoundRobin(r, |world|))
    || (world != [] && world[0].Atlas?
        && forall r :: 0 <= r < |world| ==> world[r] == Atlas(r, world[0].locate))
  }

  /** As above, and the locator finds a partition, hence a rank, for every point of the stream. */
  ghost predicate CoversStream(world: seq<Rule>, s: seq<Obs>) {
    && IsNonoverlappingWorld(world) && world != []
    && (world[0].Atlas? ==> forall o :: o in s ==> 0 <= (world[0].locate)(o.point) < |world|)
  }

  lemma {:induction false} FirstPointIsInStream(s: seq<Obs>, rec: nat) returns (o: Obs)
    requires Appears(s, rec)
    ensures o in s && o.rec == rec && o.point == FirstPoint(s, rec)
  {
    var n := |s| - 1;
    if Appears(s[..n], rec) {
      o := FirstPointIsInStream(s[..n], rec);
    } else {
      o := s[n];
    }
  }

  lemma AtMostOneRank(world: seq<Rule>, s: seq<Obs>, rec: nat, r: nat, q: nat)
    requires IsNonoverlappingWorld(world) && r < |world| && q < |world|
    requires Mine(world[r], s, rec) && Mine(world[q], s, rec)
    ensures r == q
  {
    assert world[r] == world[r] && world[q] == world[q];
  }

  /** Every assigned record belongs to exactly one rank. */
  lemma ExactlyOneRank(world: seq<Rule>, s: seq<Obs>, rec: nat) returns (r: nat)
    requires CoversStream(world, s) && Appears(s, rec)
    ensures r < |world| && Mine(world[r], s, rec)
    ensures forall q :: 0 <= q < |world| && Mine(world[q], s, rec) ==> q == r
    ensures world[0].Atlas? ==> r == (world[0].locate)(FirstPoint(s, rec))
  {
    if world[0].Atlas? {
      var o := FirstPointIsInStream(s, rec);
      r := (world[0].locate)(o.point);
    } else {
      r := rec % |world|;
    }
    assert world[r] == world[r];
    forall q | 0 <= q < |world| && Mine(world[q], s, rec)
      ensures q == r
    {
      AtMostOneRank(world, s, rec, q, r);
    }
  }

  /** No location is held on two ranks. */
  lemma KeptIsDisjoint(world: seq<Rule>, s: seq<Obs>)
    requires IsNonoverlappingWorld(world) && AscendingStream(s)
    ensures forall r :: 0 <= r < |world| ==> Distinct(Locs(Kept(world[r], s)))
    ensures forall r, q, g :: 0 <= r < q < |world| && g in Locs(Kept(world[r], s)) ==> g !in Locs(Kept(world[q], s))
  {
    forall r | 0 <= r < |world|
      ensures Distinct(Locs(Kept(world[r], s)))
    {
      OfRecordsAscending(s, MyRecords(world[r], s));
    }
    forall r, q, g | 0 <= r < q < |world| && g in Locs(Kept(world[r], s)) && g in Locs(Kept(world[q], s))
      ensures false
    {
      var a, b := Kept(world[r], s), Kept(world[q], s);
      var i :| 0 <= i < |a| && Locs(a)[i] == g;
      var j :| 0 <= j < |b| && Locs(b)[j] == g;
      KeptMember(world[r], s);
      KeptMember(world[q], s);
      assert a[i] in a && b[j] in b;
      SameLocation(s, a[i], b[j]);
      AtMostOneRank(world, s, a[i].rec, r, q);
    }
  }

  /** After the reader's stream and computePatchLocs, the ranks' views meet the contract. */
  lemma ReadIsSound(world: seq<Rule>, s: seq<Obs>, w: seq<View>)
    requires IsNonoverlappingWorld(world) && AscendingStream(s) && |w| == |world| && WellFormed(w)
    requires forall r :: 0 <= r < |w| ==> w[r].locs == Locs(Kept(world[r], s))
    requires forall r, j :: 0 <= r < |w| && 0 <= j < |w[r].locs| ==>
               w[r].patch[j] && w[r].index[j] == Start(LocsOf(w), r) + j
    ensures Sound(w) && Gathered(w) == Flatten(LocsOf(w))
  {
    KeptIsDisjoint(world, s);
    NonoverlappingIsSound(w);
  }

  function RulesOf(ranks: seq<Nonoverlapping>): (world: seq<Rule>)
    ensures |world| == |ranks| && forall r :: 0 <= r < |ranks| ==> world[r] == ranks[r].rule
  {
    seq(|ranks|, r requires 0 <= r < |ranks| => ranks[r].rule)
  }

  /**
   Main result: after the ranks of a RoundRobin or Atlas distribution have been assigned the same
   stream, computing patches makes them meet the contract, with everything held being gathered.
   */
  method PatchAfterRead(ranks: seq<Nonoverlapping>, ghost s: seq<Obs>)
    requires IsNonoverlappingWorld(RulesOf(ranks)) && AscendingStream(s)
    requires forall r, q :: 0 <= r < q < |ranks| ==> ranks[r] != ranks[q]
    requires forall r :: 0 <= r < |ranks| ==> ranks[r].Valid() && ranks[r].stream == s
    modifies set r | 0 <= r < |ranks| :: ranks[r]`numLocationsOnLowerRanks
    ensures Sound(ViewsOf(ranks)) && Gathered(ViewsOf(ranks)) == Flatten(LocsOf(ViewsOf(ranks)))
    ensures forall r :: 0 <= r < |ranks| ==> ViewsOf(ranks)[r].locs == Locs(Kept(ranks[r].rule, s))
  {
    ghost var world := RulesOf(ranks);
    ghost var held := seq(|ranks|, r requires 0 <= r < |ranks| => Locs(Kept(world[r], s)));
    ComputePatchLocs(ranks, held);
    ghost var w := ViewsOf(ranks);
    forall r | 0 <= r < |ranks|
      ensures w[r] == CountingView(held, r)
    {
      CountsUp(ranks[r], held, r);
    }
    assert LocsOf(w) == held;
    ReadIsSound(world, s, w);
  }

  // ----- Conservation and balance

  function KeptBelow(world: seq<Rule>, s: seq<Obs>, n: nat): nat
    requires n <= |world|
  {
    if n == 0 then 0 else KeptBelow(world, s, n - 1) + |Kept(world[n - 1], s)|
  }

  lemma {:induction false} KeptBelowSnoc(world: seq<Rule>, s: seq<Obs>, o: Obs, n: nat, r: nat)
    requires n <= |world| && r < |world|
    requires forall q :: 0 <= q < |world| ==> (Mine(world[q], s + [o], o.rec) <==> q == r)
    ensures KeptBelow(world, s + [o], n) == KeptBelow(world, s, n) + if r < n then 1 else 0
  {
    if n > 0 {
      KeptBelowSnoc(world, s, o, n - 1, r);
      KeptSnoc(world[n - 1], s, o);
    }
  }

  /** The local numbers of locations add up to the number of locations in the stream. */
  lemma {:induction false} LocationsAreConserved(world: seq<Rule>, s: seq<Obs>)
    requires CoversStream(world, s)
    ensures KeptBelow(world, s, |world|) == |s|
  {
    if s == [] {
      NothingKept(world, |world|);
    } else {
      var u, o := s[..|s| - 1], s[|s| - 1];
      LocationsAreConserved(world, u);
      assert s == u + [o];
      AppearsSnoc(u, o, o.rec);
      var r := ExactlyOneRank(world, s, o.rec);
      KeptBelowSnoc(world, u, o, |world|, r);
    }
  }

  lemma {:induction false} NothingKept(world: seq<Rule>, n: nat)
    requires n <= |world|
    ensures KeptBelow(world, [], n) == 0
  {
    if n > 0 {
      NothingKept(world, n - 1);
    }
  }

  /** The records a round-robin rank is given out of 0 .. n-1. */
  function RoundRobinShare(rank: nat, size: nat, n: nat): set<nat>
    requires size > 0
  {
    set rec | 0 <= rec < n && rec % size == rank
  }

  lemma {:induction false} RoundRobinCount(rank: nat, size: nat, n: nat)
    requires rank < size
    ensures |RoundRobinShare(rank, size, n)| == n / size + if rank < n % size then 1 else 0
  {
    if n == 0 {
      assert RoundRobinShare(rank, size, 0) == {};
    } else {
      var m := n - 1;
      RoundRobinCount(rank, size, m);
      DivModStep(m, size);
      if m % size == rank {
        assert RoundRobinShare(rank, size, n) == RoundRobinShare(rank, size, m) + {m};
      } else {
        assert RoundRobinShare(rank, size, n) == RoundRobinShare(rank, size, m);
      }
    }
  }

  lemma DivModStep(m: nat, size: nat)
    requires size > 0
    ensures m % size + 1 < size ==> (m + 1) / size == m / size && (m + 1) % size == m % size + 1
    ensures m % size + 1 == size ==> (m + 1) / size == m / size + 1 && (m + 1) % size == 0
  {
    var q, r := m / size, m % size;
    assert m == q * size + r;
    if r + 1 < size {
      DivModUnique(m + 1, size, q, r + 1);
    } else {
      assert m + 1 == (q + 1) * size + 0;
      DivModUnique(m + 1, size, q + 1, 0);
    }
  }

  /** For a stream numbered as the reader numbers it, any two ranks differ by at most one record. */
  lemma RoundRobinIsBalanced(s: seq<Obs>, size: nat, r: nat, q: nat)
    requires Consecutive(s) && r < size && q < size
    ensures |MyRecords(RoundRobin(r, size), s)| <= |MyRecords(RoundRobin(q, size), s)| + 1
  {
    var n := NextRecord(s);
    ShareIsMyRecords(s, size, r);
    ShareIsMyRecords(s, size, q);
    RoundRobinCount(r, size, n);
    RoundRobinCount(q, size, n);
  }

  lemma ShareIsMyRecords(s: seq<Obs>, size: nat, r: nat)
    requires Consecutive(s) && r < size
    ensures MyRecords(RoundRobin(r, size), s) == RoundRobinShare(r, size, NextRecord(s))
  {
    ConsecutiveRecords(s);
    forall rec: nat
      ensures rec in MyRecords(RoundRobin(r, size), s) <==> rec in RoundRobinShare(r, size, NextRecord(s))
    {
      InMyRecords(RoundRobin(r, size), s, rec);
    }
  }
}

/** Every rank holds everything; rank 0 alone owns it, and gathering leaves vectors as they are. */
module InefficientDistribution {
  import opened Seqs
  import opened Contract

  /** patchObs, filling the caller's vector. */
  method PatchObs(rank: nat, numLocs: nat) returns (patch: seq<bool>)
    ensures |patch| == numLocs && forall j :: 0 <= j < numLocs ==> (patch[j] <==> rank == 0)
  {
    if rank == 0 {
      patch := seq(numLocs, _ => true);
    } else {
      patch := seq(numLocs, _ => false);
    }
  }

  function GlobalUniqueConsecutiveLocationIndex(loc: nat): nat {
    loc
  }

  ghost predicate IsIdentityWorld(w: seq<View>) {
    && w != [] && WellFormed(w)
    && forall r :: 0 <= r < |w| ==>
         && w[r].locs == w[0].locs
         && forall j :: 0 <= j < |w[r].locs| ==>
              (w[r].patch[j] <==> r == 0) && w[r].index[j] == GlobalUniqueConsecutiveLocationIndex(j)
  }

  lemma {:induction false} FlattenFirst<T>(ss: seq<seq<T>>)
    requires ss != [] && forall r :: 0 < r < |ss| ==> ss[r] == []
    ensures Flatten(ss) == ss[0]
  {
    if |ss| == 1 {
      assert ss[..0] == [];
    } else {
      FlattenFirst(ss[..|ss| - 1]);
    }
  }

  lemma IdentityGathered(w: seq<View>)
    requires IsIdentityWorld(w)
    ensures Gathered(w) == w[0].locs
  {
    var ss := PatchOnly(w, LocsOf(w));
    forall q | 0 <= q < |w|
      ensures ss[q] == if q == 0 then w[0].locs else []
    {
      assert w[q].locs == w[0].locs;
      if q == 0 { SelectAll(w[0].locs, w[0].patch); } else { SelectNone(w[q].locs, w[q].patch); }
    }
    FlattenFirst(ss);
  }

  lemma IdentityIsSound(w: seq<View>)
    requires IsIdentityWorld(w) && Distinct(w[0].locs)
    ensures Sound(w)
  {
    IdentityGathered(w);
    GatheredIsHeld(w);
  }

  /** Leaving a vector alone gives every rank what gathering the patch locations would. */
  lemma IdentityGatherIsNoOp<T>(w: seq<View>, f: nat -> T, r: nat)
    requires IsIdentityWorld(w) && r < |w|
    ensures Shaped(w, FieldOf(w, f)) && AllGatherv(w, FieldOf(w, f)) == FieldOf(w, f)[r]
  {
    IdentityGathered(w);
    GatherField(w, f);
  }
}
