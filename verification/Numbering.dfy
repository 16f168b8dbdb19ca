/**
 Record numbers (genRecordNumbersAll, genRecordNumbersGrouping and buildObsGroupingKeys of
 src/io/ObsFrameRead.cc): records are numbered by the first appearance of their key.
 */
module Numbering {

  /** The key-to-number map after the keys `keys` have been seen in this order. */
  function Table<K(==)>(keys: seq<K>): map<K, nat> {
    if keys == [] then map[]
    else
      var t := Table(keys[..|keys| - 1]);
      var last := keys[|keys| - 1];
      if last in t then t else t[last := |t|]
  }

  lemma {:induction false} TableHas<K>(keys: seq<K>, key: K)
    ensures key in Table(keys) <==> key in keys
  {
    if keys != [] {
      TableHas(keys[..|keys| - 1], key);
      assert keys == keys[..|keys| - 1] + [keys[|keys| - 1]];
    }
  }

  function NumberAt<K(==)>(keys: seq<K>, i: nat): nat
    requires i < |keys|
  {
    TableHas(keys, keys[i]);
    Table(keys)[keys[i]]
  }

  function Numbers<K(==)>(keys: seq<K>): (recs: seq<nat>)
    ensures |recs| == |keys|
  {
    seq(|keys|, i requires 0 <= i < |keys| => NumberAt(keys, i))
  }

  lemma TableSnoc<K(!new)>(keys: seq<K>, key: K)
    ensures Table(keys + [key]) == if key in Table(keys) then Table(keys) else Table(keys)[key := |Table(keys)|]
    ensures Numbers(keys + [key]) == Numbers(keys) + [if key in Table(keys) then Table(keys)[key] else |Table(keys)|]
  {
    var all := keys + [key];
    assert all[..|all| - 1] == keys && all[|all| - 1] == key;
    assert Table(all) == if key in Table(keys) then Table(keys) else Table(keys)[key := |Table(keys)|];
    forall i | 0 <= i < |keys|
      ensures Numbers(keys + [key])[i] == Numbers(keys)[i]
    {
      assert all[i] == keys[i];
      TableHas(keys, keys[i]);
    }
  }

  /** No number is given twice, and the numbers given are 0, 1, ... */
  lemma {:induction false} TableIsOneToOne<K(!new)>(keys: seq<K>)
    ensures forall a, b :: a in Table(keys) && b in Table(keys) && Table(keys)[a] == Table(keys)[b] ==> a == b
    ensures forall a :: a in Table(keys) ==> Table(keys)[a] < |Table(keys)|
  {
    if keys != [] {
      var n := |keys| - 1;
      TableIsOneToOne(keys[..n]);
      assert keys == keys[..n] + [keys[n]];
    }
  }

  /** A number given before, or one more than the largest of them. */
  ghost predicate RepeatsOrCountsUp(recs: seq<nat>, i: nat)
    requires i < |recs|
  {
    || (exists k :: 0 <= k < i && recs[k] == recs[i])
    || ((forall k :: 0 <= k < i ==> recs[k] < recs[i])
        && (recs[i] > 0 ==> exists k :: 0 <= k < i && recs[k] == recs[i] - 1))
  }

  /** What the numbering promises, without saying how it is computed. */
  ghost predicate IsNumbering<K(!new)>(keys: seq<K>, recs: seq<nat>) {
    && |recs| == |keys|
    && (forall i, j :: 0 <= i < |keys| && 0 <= j < |keys| ==> (recs[i] == recs[j] <==> keys[i] == keys[j]))
    && (forall i :: 0 <= i < |recs| ==> RepeatsOrCountsUp(recs, i))
  }

  lemma {:induction false} AllNumbersGiven<K(!new)>(keys: seq<K>)
    ensures forall x: nat :: x in Numbers(keys) <==> x < |Table(keys)|
  {
    if keys == [] {
      assert Numbers(keys) == [];
    } else {
      var n := |keys| - 1;
      AllNumbersGiven(keys[..n]);
      TableSnoc(keys[..n], keys[n]);
      assert keys == keys[..n] + [keys[n]];
      TableIsOneToOne(keys);
    }
  }

  lemma CountsUp(recs: seq<nat>, i: nat, n: nat)
    requires i < |recs| && recs[i] <= n
    requires forall x: nat :: x in recs[..i] <==> x < n
    ensures RepeatsOrCountsUp(recs, i)
  {
    assert forall k :: 0 <= k < i ==> recs[k] in recs[..i];
    if recs[i] < n {
      assert recs[i] in recs[..i];
    } else if recs[i] > 0 {
      assert recs[i] - 1 in recs[..i];
    }
  }

  lemma NumberCountsUp<K(!new)>(keys: seq<K>, i: nat)
    requires i < |keys|
    ensures RepeatsOrCountsUp(Numbers(keys), i)
  {
    var before := keys[..i];
    NumbersPrefix(keys, i);
    NumbersPrefix(keys, i + 1);
    TableSnoc(before, keys[i]);
    assert keys[..i + 1] == before + [keys[i]];
    assert Numbers(keys)[i] == Numbers(keys[..i + 1])[i];
    AllNumbersGiven(before);
    TableIsOneToOne(before);
    CountsUp(Numbers(keys), i, |Table(before)|);
  }

  lemma {:induction false} NumbersPrefix<K(!new)>(keys: seq<K>, n: nat)
    requires n <= |keys|
    ensures Numbers(keys)[..n] == Numbers(keys[..n])
    decreases |keys|
  {
    if n == |keys| {
      assert keys[..n] == keys;
    } else {
      var m := |keys| - 1;
      NumbersPrefix(keys[..m], n);
      TableSnoc(keys[..m], keys[m]);
      assert keys == keys[..m] + [keys[m]] && keys[..m][..n] == keys[..n];
    }
  }

  /** Two locations share a number exactly when their keys are equal; new numbers count up by one. */
  lemma NumbersAreNumbering<K(!new)>(keys: seq<K>)
    ensures IsNumbering(keys, Numbers(keys))
  {
    TableIsOneToOne(keys);
    var recs := Numbers(keys);
    forall i, j | 0 <= i < |keys| && 0 <= j < |keys|
      ensures recs[i] == recs[j] <==> keys[i] == keys[j]
    {
      TableHas(keys, keys[i]);
      TableHas(keys, keys[j]);
    }
    forall i | 0 <= i < |recs|
      ensures RepeatsOrCountsUp(recs, i)
    {
      NumberCountsUp(keys, i);
    }
  }

  lemma SameNextNumber<K(!new)>(keys: seq<K>, a: seq<nat>, b: seq<nat>, n: nat)
    requires IsNumbering(keys, a) && IsNumbering(keys, b) && n < |keys|
    requires forall i :: 0 <= i < n ==> a[i] == b[i]
    ensures a[n] == b[n]
  {
    assert RepeatsOrCountsUp(a, n) && RepeatsOrCountsUp(b, n);
    if i :| 0 <= i < n && keys[i] == keys[n] {
      assert a[i] == a[n] && b[i] == b[n];
    } else {
      assert forall k :: 0 <= k < n ==> a[k] < a[n];
      assert forall k :: 0 <= k < n ==> b[k] < b[n];
    }
  }

  /** The promise determines the numbers, so no frame size and no rank can change them. */
  lemma NumberingIsUnique<K(!new)>(keys: seq<K>, a: seq<nat>, b: seq<nat>)
    requires IsNumbering(keys, a) && IsNumbering(keys, b)
    ensures a == b
  {
    for n := 0 to |keys|
      invariant forall i :: 0 <= i < n ==> a[i] == b[i]
    {
      SameNextNumber(keys, a, b, n);
    }
  }

  // ----- Joined keys

  /** The segments joined by colons, as the grouping key is built variable by variable. */
  function Join(segments: seq<string>): string
    requires segments != []
  {
    if |segments| == 1 then segments[0]
    else Join(segments[..|segments| - 1]) + ":" + segments[|segments| - 1]
  }

  /** One segment is its own key; each further one is appended after a colon. */
  lemma JoinAppends(segments: seq<string>, last: string)
    ensures Join([last]) == last
    ensures segments != [] ==> Join(segments + [last]) == Join(segments) + ":" + last
  {
    assert (segments + [last])[..|segments|] == segments;
  }

  predicate ColonFree(s: string) {
    ':' !in s
  }

  lemma {:induction false} JoinFront(segments: seq<string>)
    requires |segments| > 1
    ensures Join(segments) == segments[0] + ":" + Join(segments[1..])
  {
    var n := |segments| - 1;
    if n == 1 {
      assert segments[..1] == [segments[0]] && segments[1..] == [segments[1]];
    } else {
      JoinFront(segments[..n]);
      assert segments[..n][1..] == segments[1..][..n - 1];
      assert segments[1..][n - 1] == segments[n];
    }
  }

  lemma ColonsAround(a: string, x: string)
    ensures var s := a + ":" + x;
            && s[|a|] == ':' && s[..|a|] == a && s[|a| + 1..] == x
            && (ColonFree(a) ==> forall i :: 0 <= i < |a| ==> s[i] != ':')
            && (ColonFree(x) ==> forall i :: |a| < i < |s| ==> s[i] != ':')
  {
    var s := a + ":" + x;
    assert forall i :: 0 <= i < |a| ==> s[i] == a[i] && a[i] in a;
    assert forall i :: |a| < i < |s| ==> s[i] == x[i - |a| - 1] && x[i - |a| - 1] in x;
  }

  /** Up to the first colon, the text is determined. */
  lemma SplitFirst(a: string, x: string, b: string, y: string)
    requires ColonFree(a) && ColonFree(b) && a + ":" + x == b + ":" + y
    ensures a == b && x == y
  {
    ColonsAround(a, x);
    ColonsAround(b, y);
    assert |a| == |b|;
  }

  /** After the last colon, too. */
  lemma SplitLast(x: string, a: string, y: string, b: string)
    requires ColonFree(a) && ColonFree(b) && x + ":" + a == y + ":" + b
    ensures x == y && a == b
  {
    ColonsAround(x, a);
    ColonsAround(y, b);
    assert |x| == |y|;
  }

  /** Only the strings of variable `c` may contain a colon. */
  predicate OnlyColonsAt(segments: seq<string>, c: nat) {
    forall i :: 0 <= i < |segments| && i != c ==> ColonFree(segments[i])
  }

  /** If at most one variable's strings contain colons, equal joined keys mean equal segments. */
  lemma {:induction false} JoinIsInjective(a: seq<string>, b: seq<string>, c: nat)
    requires |a| == |b| > 0 && OnlyColonsAt(a, c) && OnlyColonsAt(b, c)
    ensures Join(a) == Join(b) <==> a == b
    decreases |a|
  {
    var n := |a| - 1;
    if Join(a) == Join(b) && n > 0 {
      if c == n {
        JoinFront(a);
        JoinFront(b);
        SplitFirst(a[0], Join(a[1..]), b[0], Join(b[1..]));
        JoinIsInjective(a[1..], b[1..], c - 1);
        assert a == [a[0]] + a[1..] && b == [b[0]] + b[1..];
      } else {
        SplitLast(Join(a[..n]), a[n], Join(b[..n]), b[n]);
        JoinIsInjective(a[..n], b[..n], c);
        assert a == a[..n] + [a[n]] && b == b[..n] + [b[n]];
      }
    }
  }

  // ----- With colons in two variables the keys do collide

  function Blanks(n: nat): seq<string> {
    seq(n, _ => "")
  }

  function Colons(n: nat): string {
    seq(n, _ => ':')
  }

  lemma {:induction false} JoinOneColon(n: nat, i: nat)
    requires i < n
    ensures Join(Blanks(n)[i := ":"]) == Colons(n) && Join(Blanks(n)) == Colons(n - 1)
    decreases n
  {
    var m := n - 1;
    if m > 0 {
      assert Blanks(n)[..m] == Blanks(m);
      if i < m {
        JoinOneColon(m, i);
        assert Blanks(n)[i := ":"][..m] == Blanks(m)[i := ":"];
      } else {
        JoinOneColon(m, 0);
        assert Blanks(n)[i := ":"][..m] == Blanks(m);
      }
      assert Colons(n) == Colons(m) + ":";
    }
  }

  /** For any two grouping variables, colons in both make two different tuples share a key. */
  lemma JoinCollides(n: nat, i: nat, j: nat)
    requires i < j < n
    ensures exists a: seq<string>, b: seq<string> ::
              && |a| == |b| == n && a != b && Join(a) == Join(b)
              && forall k :: 0 <= k < n && k != i && k != j ==> ColonFree(a[k]) && ColonFree(b[k])
  {
    var a, b := Blanks(n)[i := ":"], Blanks(n)[j := ":"];
    JoinOneColon(n, i);
    JoinOneColon(n, j);
    assert a[i] != b[i];
  }
}
