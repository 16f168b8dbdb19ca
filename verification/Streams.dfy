/**
 The stream of (record, location, point) triples that every rank feeds to its distribution, and the
 rule by which a rank decides whether a record is its own.
 */
module Streams {
  import opened Seqs

  datatype Point2 = Point2(lon: real, lat: real)

  datatype Obs = Obs(rec: nat, loc: nat, point: Point2)

  /**
   How a rank decides. The distance to the centre of a halo and the partition of an Atlas mesh that
   contains a point are uninterpreted functions; `Delegate` is a replica asking its master.
   */
  datatype Rule =
    | RoundRobin(rank: nat, size: nat)
    | Atlas(rank: nat, locate: Point2 -> int)
    | InHalo(distance: Point2 -> real, radius: real)
    | Everyone
    | Delegate(isMasterRecord: nat -> bool)

  predicate Appears(s: seq<Obs>, rec: nat) {
    exists i :: 0 <= i < |s| && s[i].rec == rec
  }

  /** The point of the first location of a record. */
  function FirstPoint(s: seq<Obs>, rec: nat): Point2
    requires Appears(s, rec)
  {
    var n := |s| - 1;
    if Appears(s[..n], rec) then FirstPoint(s[..n], rec) else s[n].point
  }

  /** Whether record `rec` belongs to a rank with rule `d` once the stream `s` has been assigned. */
  predicate Mine(d: Rule, s: seq<Obs>, rec: nat) {
    match d
    case RoundRobin(rank, size) => size > 0 && rec % size == rank
    case Atlas(rank, locate) => Appears(s, rec) && locate(FirstPoint(s, rec)) == rank
    case InHalo(distance, radius) => Appears(s, rec) && distance(FirstPoint(s, rec)) <= radius
    case Everyone => true
    case Delegate(isMasterRecord) => isMasterRecord(rec)
  }

  function MyRecords(d: Rule, s: seq<Obs>): set<nat> {
    set o | o in s && Mine(d, s, o.rec) :: o.rec
  }

  function OfRecords(s: seq<Obs>, recs: set<nat>): (os: seq<Obs>)
    ensures |os| <= |s|
  {
    if s == [] then []
    else if s[|s| - 1].rec in recs then OfRecords(s[..|s| - 1], recs) + [s[|s| - 1]]
    else OfRecords(s[..|s| - 1], recs)
  }

  /** What a rank keeps: the locations of its own records, in stream order. */
  function Kept(d: Rule, s: seq<Obs>): seq<Obs> {
    OfRecords(s, MyRecords(d, s))
  }

  function Locs(os: seq<Obs>): (ls: seq<nat>)
    ensures |ls| == |os|
  {
    seq(|os|, i requires 0 <= i < |os| => os[i].loc)
  }

  function Recs(os: seq<Obs>): (rs: seq<nat>)
    ensures |rs| == |os|
  {
    seq(|os|, i requires 0 <= i < |os| => os[i].rec)
  }

  predicate AscendingStream(s: seq<Obs>) {
    Ascending(Locs(s))
  }

  // ----- A record's fate is sealed by its first location

  lemma {:induction false} FirstPointStable(s: seq<Obs>, t: seq<Obs>, rec: nat)
    requires Appears(s, rec)
    ensures Appears(s + t, rec) && FirstPoint(s + t, rec) == FirstPoint(s, rec)
    decreases |t|
  {
    if t == [] {
      assert s + t == s;
    } else {
      var u := t[..|t| - 1];
      FirstPointStable(s, u, rec);
      assert (s + t)[..|s + t| - 1] == s + u;
      var i :| 0 <= i < |s + u| && (s + u)[i].rec == rec;
      assert (s + t)[i].rec == rec;
    }
  }

  lemma {:induction false} FirstPointIs(s: seq<Obs>, rec: nat, i: nat)
    requires i < |s| && s[i].rec == rec && forall j :: 0 <= j < i ==> s[j].rec != rec
    ensures Appears(s, rec) && FirstPoint(s, rec) == s[i].point
  {
    var n := |s| - 1;
    if i < n {
      FirstPointIs(s[..n], rec, i);
    }
  }

  lemma {:induction false} FirstIndex(s: seq<Obs>, rec: nat) returns (i: nat)
    requires Appears(s, rec)
    ensures i < |s| && s[i].rec == rec && forall j :: 0 <= j < i ==> s[j].rec != rec
    ensures FirstPoint(s, rec) == s[i].point
  {
    var n := |s| - 1;
    if Appears(s[..n], rec) {
      i := FirstIndex(s[..n], rec);
    } else {
      i := n;
      assert forall j :: 0 <= j < n ==> s[..n][j] == s[j];
    }
  }

  /** The rules in terms of the stream alone: the first location of a record decides, at the radius inclusive. */
  lemma MineMeans(d: Rule, s: seq<Obs>, rec: nat)
    ensures d.InHalo? ==>
              (Mine(d, s, rec) <==>
               exists i :: 0 <= i < |s| && s[i].rec == rec && (forall j :: 0 <= j < i ==> s[j].rec != rec)
                           && (d.distance)(s[i].point) <= d.radius)
    ensures d.Atlas? ==>
              (Mine(d, s, rec) <==>
               exists i :: 0 <= i < |s| && s[i].rec == rec && (forall j :: 0 <= j < i ==> s[j].rec != rec)
                           && (d.locate)(s[i].point) == d.rank)
    ensures d.RoundRobin? && d.rank < d.size ==>
              (Mine(d, s, rec) <==> exists q: nat :: rec == q * d.size + d.rank)
  {
    if Appears(s, rec) {
      var i := FirstIndex(s, rec);
      forall k | 0 <= k < |s| && s[k].rec == rec && (forall j :: 0 <= j < k ==> s[j].rec != rec)
        ensures k == i
      {
      }
    }
    if d.RoundRobin? && d.rank < d.size {
      assert rec == rec / d.size * d.size + rec % d.size;
      forall q: nat | rec == q * d.size + d.rank
        ensures Mine(d, s, rec)
      {
        DivModUnique(rec, d.size, q, d.rank);
      }
    }
  }

  /** Membership of a record that has been seen never changes, whatever is assigned later. */
  lemma MineStable(d: Rule, s: seq<Obs>, t: seq<Obs>, rec: nat)
    requires Appears(s, rec)
    ensures Mine(d, s + t, rec) == Mine(d, s, rec)
  {
    FirstPointStable(s, t, rec);
  }

  lemma {:induction false} OfRecordsSame(s: seq<Obs>, a: set<nat>, b: set<nat>)
    requires forall i :: 0 <= i < |s| ==> (s[i].rec in a <==> s[i].rec in b)
    ensures OfRecords(s, a) == OfRecords(s, b)
  {
    if s != [] {
      OfRecordsSame(s[..|s| - 1], a, b);
    }
  }

  lemma InMyRecords(d: Rule, s: seq<Obs>, rec: nat)
    ensures rec in MyRecords(d, s) <==> Appears(s, rec) && Mine(d, s, rec)
  {
    if Appears(s, rec) && Mine(d, s, rec) {
      var i :| 0 <= i < |s| && s[i].rec == rec;
      assert s[i] in s;
    }
  }

  /** Assigning one more location changes nothing about the records already seen. */
  lemma MyRecordsSnoc(d: Rule, s: seq<Obs>, o: Obs)
    ensures MyRecords(d, s + [o]) == MyRecords(d, s) + if Mine(d, s + [o], o.rec) then {o.rec} else {}
  {
    forall rec
      ensures rec in MyRecords(d, s + [o])
              <==> rec in MyRecords(d, s) || (rec == o.rec && Mine(d, s + [o], o.rec))
    {
      InMyRecords(d, s, rec);
      InMyRecords(d, s + [o], rec);
      AppearsSnoc(s, o, rec);
      if Appears(s, rec) { MineStable(d, s, [o], rec); }
    }
  }

  lemma AppearsSnoc(s: seq<Obs>, o: Obs, rec: nat)
    ensures Appears(s + [o], rec) <==> Appears(s, rec) || o.rec == rec
  {
    if Appears(s, rec) {
      var i :| 0 <= i < |s| && s[i].rec == rec;
      assert (s + [o])[i].rec == rec;
    }
    assert (s + [o])[|s|] == o;
  }

  /** Filtering as the stream arrives is the same as filtering it afterwards. */
  lemma KeptSnoc(d: Rule, s: seq<Obs>, o: Obs)
    ensures Kept(d, s + [o]) == if Mine(d, s + [o], o.rec) then Kept(d, s) + [o] else Kept(d, s)
  {
    var all := MyRecords(d, s + [o]);
    assert (s + [o])[..|s|] == s;
    InMyRecords(d, s + [o], o.rec);
    AppearsSnoc(s, o, o.rec);
    forall i | 0 <= i < |s|
      ensures s[i].rec in all <==> s[i].rec in MyRecords(d, s)
    {
      InMyRecords(d, s, s[i].rec);
      InMyRecords(d, s + [o], s[i].rec);
      AppearsSnoc(s, o, s[i].rec);
      MineStable(d, s, [o], s[i].rec);
    }
    OfRecordsSame(s, all, MyRecords(d, s));
  }

  lemma {:induction false} OfRecordsMember(s: seq<Obs>, recs: set<nat>)
    ensures forall o :: o in OfRecords(s, recs) <==> o in s && o.rec in recs
  {
    if s != [] {
      OfRecordsMember(s[..|s| - 1], recs);
      assert s == s[..|s| - 1] + [s[|s| - 1]];
    }
  }

  /** A rank keeps all locations of its own records, and nothing else. */
  lemma KeptMember(d: Rule, s: seq<Obs>)
    ensures forall o :: o in Kept(d, s) <==> o in s && Mine(d, s, o.rec)
  {
    OfRecordsMember(s, MyRecords(d, s));
    forall o | o in s
      ensures o.rec in MyRecords(d, s) <==> Mine(d, s, o.rec)
    {
      InMyRecords(d, s, o.rec);
    }
  }

  lemma LocIsKept(d: Rule, s: seq<Obs>, l: nat)
    ensures l in Locs(Kept(d, s)) <==> exists k :: 0 <= k < |s| && s[k].loc == l && s[k].rec in MyRecords(d, s)
  {
    var kept := Kept(d, s);
    OfRecordsMember(s, MyRecords(d, s));
    if l in Locs(kept) {
      var j :| 0 <= j < |kept| && Locs(kept)[j] == l;
      assert kept[j] in kept;
    }
    if k :| 0 <= k < |s| && s[k].loc == l && s[k].rec in MyRecords(d, s) {
      assert s[k] in kept;
      var j :| 0 <= j < |kept| && kept[j] == s[k];
      assert Locs(kept)[j] == l;
    }
  }

  lemma {:induction false} OfRecordsAscending(s: seq<Obs>, recs: set<nat>)
    requires AscendingStream(s)
    ensures AscendingStream(OfRecords(s, recs))
  {
    if s != [] {
      var u := s[..|s| - 1];
      assert Locs(u) == Locs(s)[..|u|];
      OfRecordsAscending(u, recs);
      OfRecordsMember(u, recs);
      var os := OfRecords(u, recs);
      forall i | 0 <= i < |os|
        ensures os[i].loc < s[|u|].loc
      {
        assert os[i] in os;
        var k :| 0 <= k < |u| && u[k] == os[i];
        assert Locs(s)[k] < Locs(s)[|u|];
      }
      assert Locs(OfRecords(s, recs)) == Locs(os) + if s[|u|].rec in recs then [s[|u|].loc] else [];
    }
  }

  lemma SameLocation(s: seq<Obs>, a: Obs, b: Obs)
    requires AscendingStream(s) && a in s && b in s && a.loc == b.loc
    ensures a == b
  {
    var i :| 0 <= i < |s| && s[i] == a;
    var j :| 0 <= j < |s| && s[j] == b;
    assert Locs(s)[i] == Locs(s)[j];
  }

  // ----- Streams whose record numbers count up

  /** One more than the largest record number of a consecutively numbered stream. */
  function NextRecord(s: seq<Obs>): nat {
    if s == [] then 0
    else
      var next := NextRecord(s[..|s| - 1]);
      if s[|s| - 1].rec == next then next + 1 else next
  }

  predicate Consecutive(s: seq<Obs>) {
    s == [] || (Consecutive(s[..|s| - 1]) && s[|s| - 1].rec <= NextRecord(s[..|s| - 1]))
  }

  lemma ConsecutiveSnoc(s: seq<Obs>, o: Obs)
    ensures Consecutive(s + [o]) <==> Consecutive(s) && o.rec <= NextRecord(s)
    ensures NextRecord(s + [o]) == if o.rec == NextRecord(s) then o.rec + 1 else NextRecord(s)
  {
    assert (s + [o])[..|s|] == s;
  }

  /** The records of a consecutively numbered stream are 0, 1, ..., without gaps. */
  lemma {:induction false} ConsecutiveRecords(s: seq<Obs>)
    requires Consecutive(s)
    ensures forall rec: nat :: Appears(s, rec) <==> rec < NextRecord(s)
  {
    if s != [] {
      var u := s[..|s| - 1];
      ConsecutiveRecords(u);
      assert s == u + [s[|u|]];
      forall rec: nat
        ensures Appears(s, rec) <==> Appears(u, rec) || s[|u|].rec == rec
      {
        AppearsSnoc(u, s[|u|], rec);
      }
    }
  }
}
