/** Python's `sorted`: on plain numbers, and (stably) on records by a numeric key,
    with the order statistics that are read off a sorted list. */
module Ordering {

  // ----- Numbers -----

  ghost predicate Ascending(s: seq<real>) {
    forall i, j | 0 <= i <= j < |s| :: s[i] <= s[j]
  }

  function InsertReal(x: real, s: seq<real>): (r: seq<real>)
    ensures multiset(r) == multiset{x} + multiset(s)
    ensures |r| == |s| + 1
  {
    if s == [] || x <= s[0] then [x] + s
    else
      assert s == [s[0]] + s[1..];
      [s[0]] + InsertReal(x, s[1..])
  }

  function SortReals(s: seq<real>): (r: seq<real>)
    ensures multiset(r) == multiset(s)
    ensures |r| == |s|
  {
    if s == [] then []
    else
      assert s == [s[0]] + s[1..];
      InsertReal(s[0], SortReals(s[1..]))
  }

  lemma {:induction false} InsertRealAscending(x: real, s: seq<real>)
    requires Ascending(s)
    ensures Ascending(InsertReal(x, s))
  {
    if s == [] || x <= s[0] {
    } else {
      InsertRealAscending(x, s[1..]);
      var rest := InsertReal(x, s[1..]);
      SameMembers(rest, [x] + s[1..]);
      forall i | 0 <= i < |rest| ensures s[0] <= rest[i] {
        assert rest[i] in rest;
      }
    }
  }

  lemma {:induction false} SortRealsAscending(s: seq<real>)
    ensures Ascending(SortReals(s))
  {
    if s == [] {
    } else {
      SortRealsAscending(s[1..]);
      InsertRealAscending(s[0], SortReals(s[1..]));
    }
  }

  lemma SameMembers<T>(s: seq<T>, t: seq<T>)
    requires multiset(s) == multiset(t)
    ensures |s| == |t|
    ensures forall x :: x in s <==> x in t
  {
    assert |multiset(s)| == |s| && |multiset(t)| == |t|;
    forall x ensures x in s <==> x in t {
      assert x in s <==> x in multiset(s);
      assert x in t <==> x in multiset(t);
    }
  }

  lemma RemoveAt<T>(s: seq<T>, i: nat)
    requires i < |s|
    ensures multiset(s[..i] + s[i + 1..]) == multiset(s) - multiset{s[i]}
  {
    assert s == s[..i] + [s[i]] + s[i + 1..];
    assert multiset(s) == multiset(s[..i]) + multiset{s[i]} + multiset(s[i + 1..]);
  }

  lemma DropHead<T>(s: seq<T>)
    requires s != []
    ensures multiset(s[1..]) == multiset(s) - multiset{s[0]}
  {
    RemoveAt(s, 0);
    assert s[..0] + s[1..] == s[1..];
  }

  lemma SameLeast(s: seq<real>, t: seq<real>)
    requires Ascending(s) && Ascending(t) && multiset(s) == multiset(t) && s != []
    ensures t != [] && s[0] == t[0]
  {
    SameMembers(s, t);
    assert s[0] in t && t[0] in s;
  }

  /** There is only one ascending arrangement. */
  lemma {:induction false} AscendingUnique(s: seq<real>, t: seq<real>)
    requires Ascending(s) && Ascending(t) && multiset(s) == multiset(t)
    ensures s == t
  {
    if s == [] {
      assert |multiset(t)| == 0;
    } else {
      SameLeast(s, t);
      DropHead(s);
      DropHead(t);
      AscendingUnique(s[1..], t[1..]);
      assert s == [s[0]] + s[1..] && t == [t[0]] + t[1..];
    }
  }

  lemma SortRealsPermutation(s: seq<real>, t: seq<real>)
    requires multiset(s) == multiset(t)
    ensures SortReals(s) == SortReals(t)
  {
    SortRealsAscending(s);
    SortRealsAscending(t);
    AscendingUnique(SortReals(s), SortReals(t));
  }

  /** Neighbouring equal values collapsed. */
  function Collapse(s: seq<real>): seq<real> {
    if s == [] then []
    else
      var n := |s| - 1;
      if n > 0 && s[n] == s[n - 1] then Collapse(s[..n]) else Collapse(s[..n]) + [s[n]]
  }

  /** Collapsing an ascending list leaves each of its values once, strictly ascending. */
  lemma {:induction false} CollapseAscends(s: seq<real>)
    requires Ascending(s)
    ensures var c := Collapse(s);
      && (forall i, j | 0 <= i < j < |c| :: c[i] < c[j])
      && (forall x :: x in c <==> x in s)
      && (s != [] ==> c != [] && c[|c| - 1] == s[|s| - 1])
  {
    if s != [] {
      var n := |s| - 1;
      CollapseAscends(s[..n]);
      assert s == s[..n] + [s[n]];
      assert n > 0 ==> s[n - 1] <= s[n];
    }
  }

  function MaxOf(s: seq<real>): (m: real)
    requires s != []
    ensures m in s && forall x | x in s :: x <= m
  {
    if |s| == 1 then s[0]
    else
      var rest := MaxOf(s[1..]);
      assert s == [s[0]] + s[1..];
      if s[0] >= rest then s[0] else rest
  }

  function MinOf(s: seq<real>): (m: real)
    requires s != []
    ensures m in s && forall x | x in s :: m <= x
  {
    if |s| == 1 then s[0]
    else
      var rest := MinOf(s[1..]);
      assert s == [s[0]] + s[1..];
      if s[0] <= rest then s[0] else rest
  }

  // ----- Order statistics -----

  function CountLe(s: seq<real>, v: real): (n: nat)
    ensures n <= |s|
  {
    if s == [] then 0 else (if s[0] <= v then 1 else 0) + CountLe(s[1..], v)
  }

  function CountLt(s: seq<real>, v: real): (n: nat)
    ensures n <= |s|
  {
    if s == [] then 0 else (if s[0] < v then 1 else 0) + CountLt(s[1..], v)
  }

  lemma {:induction false} CountSplit(s: seq<real>, t: seq<real>, v: real)
    ensures CountLe(s + t, v) == CountLe(s, v) + CountLe(t, v)
    ensures CountLt(s + t, v) == CountLt(s, v) + CountLt(t, v)
  {
    if s == [] {
      assert s + t == t;
    } else {
      assert (s + t)[1..] == s[1..] + t;
      CountSplit(s[1..], t, v);
    }
  }

  lemma CountRemoveAt(s: seq<real>, i: nat, v: real)
    requires i < |s|
    ensures CountLe(s, v) == CountLe(s[..i] + s[i + 1..], v) + if s[i] <= v then 1 else 0
    ensures CountLt(s, v) == CountLt(s[..i] + s[i + 1..], v) + if s[i] < v then 1 else 0
  {
    assert s == s[..i] + s[i..] && s[i..][1..] == s[i + 1..];
    CountSplit(s[..i], s[i..], v);
    CountSplit(s[..i], s[i + 1..], v);
  }

  lemma Find<T>(t: seq<T>, s: seq<T>, x: T) returns (i: nat)
    requires multiset(s) == multiset(t) && x in s
    ensures i < |t| && t[i] == x
  {
    SameMembers(s, t);
    i :| 0 <= i < |t| && t[i] == x;
  }

  /** The head of a list, found in another arrangement of it and dropped from both. */
  lemma DropPair<T>(s: seq<T>, t: seq<T>) returns (i: nat)
    requires multiset(s) == multiset(t) && s != []
    ensures i < |t| && t[i] == s[0] && multiset(s[..0] + s[1..]) == multiset(t[..i] + t[i + 1..])
  {
    i := Find(t, s, s[0]);
    RemoveAt(s, 0);
    RemoveAt(t, i);
  }

  lemma {:induction false} CountPermutation(s: seq<real>, t: seq<real>, v: real)
    requires multiset(s) == multiset(t)
    ensures CountLe(s, v) == CountLe(t, v)
    ensures CountLt(s, v) == CountLt(t, v)
  {
    if s == [] {
      assert |multiset(t)| == 0;
    } else {
      hide *;
      var i := DropPair(s, t);
      CountPermutation(s[..0] + s[1..], t[..i] + t[i + 1..], v);
      CountRemoveAt(s, 0, v);
      CountRemoveAt(t, i, v);
    }
  }

  lemma {:induction false} CountAll(s: seq<real>, v: real)
    requires forall i | 0 <= i < |s| :: s[i] <= v
    ensures CountLe(s, v) == |s|
  {
    if s != [] {
      CountAll(s[1..], v);
    }
  }

  lemma {:induction false} CountNone(s: seq<real>, v: real)
    requires forall i | 0 <= i < |s| :: s[i] >= v
    ensures CountLt(s, v) == 0
  {
    if s != [] {
      CountNone(s[1..], v);
    }
  }

  lemma RankAtOrBelow(r: seq<real>, i: nat)
    requires i < |r| && Ascending(r)
    ensures CountLe(r, r[i]) >= i + 1
  {
    var low, high := r[..i + 1], r[i + 1..];
    assert forall k | 0 <= k < |low| :: low[k] <= r[i];
    hide Ascending, CountLe, CountLt;
    CountAll(low, r[i]);
    CountSplit(low, high, r[i]);
    assert r == low + high;
  }

  lemma RankBelow(r: seq<real>, i: nat)
    requires i < |r| && Ascending(r)
    ensures CountLt(r, r[i]) <= i
  {
    var low, high := r[..i], r[i..];
    assert forall k | 0 <= k < |high| :: high[k] >= r[i];
    hide Ascending, CountLe, CountLt;
    CountNone(high, r[i]);
    CountSplit(low, high, r[i]);
    assert r == low + high;
  }

  /** The element of rank i + 1: at least that many values are at or below it, at most i lie below. */
  lemma RankCount(s: seq<real>, i: nat)
    requires i < |s|
    ensures var v := SortReals(s)[i]; v in s && CountLe(s, v) >= i + 1 && CountLt(s, v) <= i
  {
    var r := SortReals(s);
    SortRealsAscending(s);
    RankAtOrBelow(r, i);
    RankBelow(r, i);
    CountPermutation(r, s, r[i]);
    SameMembers(r, s);
    assert r[i] in r;
  }

  lemma {:induction false} CountLeMonotone(s: seq<real>, u: real, v: real)
    requires u <= v
    ensures CountLe(s, u) <= CountLe(s, v)
  {
    if s != [] {
      CountLeMonotone(s[1..], u, v);
    }
  }

  lemma {:induction false} CountLtAtMost(s: seq<real>, v: real, p: nat)
    requires forall i | p <= i < |s| :: s[i] >= v
    ensures CountLt(s, v) <= p
  {
    if p == 0 {
      CountNone(s, v);
    } else if s != [] {
      CountLtAtMost(s[1..], v, p - 1);
    }
  }

  lemma {:induction false} CountLeLt(s: seq<real>, u: real, v: real)
    requires u < v
    ensures CountLe(s, u) <= CountLt(s, v)
  {
    if s != [] {
      CountLeLt(s[1..], u, v);
    }
  }

  lemma {:induction false} CountLtMonotone(s: seq<real>, u: real, v: real)
    requires u <= v
    ensures CountLt(s, u) <= CountLt(s, v)
  {
    if s != [] {
      CountLtMonotone(s[1..], u, v);
    }
  }

  lemma {:induction false} CountLeAtLeast(s: seq<real>, v: real, p: nat)
    requires p <= |s| && forall i | p <= i < |s| :: s[i] <= v
    ensures CountLe(s, v) >= |s| - p
  {
    if p == 0 {
      CountAll(s, v);
    } else {
      CountLeAtLeast(s[1..], v, p - 1);
    }
  }

  /** The value of rank i + 1 is at least v exactly when no more than i values lie below v. */
  lemma RankIff(s: seq<real>, i: nat, v: real)
    requires i < |s|
    ensures SortReals(s)[i] >= v <==> CountLt(s, v) <= i
  {
    RankCount(s, i);
    hide SortReals;
    var u := SortReals(s)[i];
    if u >= v {
      CountLtMonotone(s, v, u);
    } else {
      CountLeLt(s, u, v);
    }
  }

  /** A value with no more than i below it and more than i at or below it has rank i + 1. */
  lemma RankIs(s: seq<real>, i: nat, v: real)
    requires i < |s| && CountLt(s, v) <= i < CountLe(s, v)
    ensures SortReals(s)[i] == v
  {
    RankIff(s, i, v);
    RankCount(s, i);
    hide SortReals;
    var u := SortReals(s)[i];
    if u > v {
      CountLeLt(s, v, u);
    }
  }

  // ----- Records sorted by a key -----

  /** A record as a sort sees it: the key, and whatever travels with it. */
  datatype Keyed<T> = Keyed(key: real, value: T)

  function Keys<T>(s: seq<Keyed<T>>): (r: seq<real>)
    ensures |r| == |s| && forall i | 0 <= i < |s| :: r[i] == s[i].key
  {
    seq(|s|, i requires 0 <= i < |s| => s[i].key)
  }

  /** No two different records share a key. */
  ghost predicate DistinctKeys<T>(s: seq<Keyed<T>>) {
    forall i, j | 0 <= i < |s| && 0 <= j < |s| && s[i].key == s[j].key :: s[i] == s[j]
  }

  function Insert<T>(x: Keyed<T>, s: seq<Keyed<T>>): (r: seq<Keyed<T>>)
    ensures multiset(r) == multiset{x} + multiset(s)
    ensures |r| == |s| + 1
  {
    if s == [] || x.key <= s[0].key then [x] + s
    else
      assert s == [s[0]] + s[1..];
      [s[0]] + Insert(x, s[1..])
  }

  function Sort<T>(s: seq<Keyed<T>>): (r: seq<Keyed<T>>)
    ensures multiset(r) == multiset(s)
    ensures |r| == |s|
  {
    if s == [] then []
    else
      assert s == [s[0]] + s[1..];
      Insert(s[0], Sort(s[1..]))
  }

  lemma KeysCons<T>(x: Keyed<T>, s: seq<Keyed<T>>)
    ensures Keys([x] + s) == [x.key] + Keys(s)
  {
  }

  lemma {:induction false} InsertKeys<T>(x: Keyed<T>, s: seq<Keyed<T>>)
    ensures Keys(Insert(x, s)) == InsertReal(x.key, Keys(s))
  {
    if s == [] || x.key <= s[0].key {
      KeysCons(x, s);
    } else {
      InsertKeys(x, s[1..]);
      KeysCons(s[0], Insert(x, s[1..]));
      assert Keys(s)[1..] == Keys(s[1..]);
    }
  }

  /** Sorting records sorts their keys. */
  lemma {:induction false} SortKeys<T>(s: seq<Keyed<T>>)
    ensures Keys(Sort(s)) == SortReals(Keys(s))
  {
    if s == [] {
    } else {
      var k := Keys(s);
      assert k[1..] == Keys(s[1..]) && k[0] == s[0].key;
      SortKeys(s[1..]);
      InsertKeys(s[0], Sort(s[1..]));
    }
  }

  /** Where keys identify records, the order in which they were recorded is forgotten. */
  lemma SortPermutation<T>(s: seq<Keyed<T>>, t: seq<Keyed<T>>)
    requires multiset(s) == multiset(t) && DistinctKeys(s)
    ensures Sort(s) == Sort(t)
  {
    var a, b := Sort(s), Sort(t);
    KeysPermutation(s, t);
    SortRealsPermutation(Keys(s), Keys(t));
    SortKeys(s);
    SortKeys(t);
    SameMembers(a, s);
    SameMembers(b, s);
    forall i | 0 <= i < |a| ensures a[i] == b[i] {
      assert a[i] in a && b[i] in b;
      assert a[i].key == Keys(a)[i] && b[i].key == Keys(b)[i];
    }
  }

  lemma KeysRemoveAt<T>(s: seq<Keyed<T>>, i: nat)
    requires i < |s|
    ensures multiset(Keys(s)) == multiset(Keys(s[..i] + s[i + 1..])) + multiset{s[i].key}
  {
    var k := Keys(s);
    RemoveAt(k, i);
    assert Keys(s[..i] + s[i + 1..]) == k[..i] + k[i + 1..];
    assert k[i] in k;
  }

  lemma {:induction false} KeysPermutation<T>(s: seq<Keyed<T>>, t: seq<Keyed<T>>)
    requires multiset(s) == multiset(t)
    ensures multiset(Keys(s)) == multiset(Keys(t))
  {
    if s == [] {
      assert |multiset(t)| == 0;
    } else {
      hide *;
      var i := DropPair(s, t);
      KeysPermutation(s[..0] + s[1..], t[..i] + t[i + 1..]);
      KeysRemoveAt(s, 0);
      KeysRemoveAt(t, i);
    }
  }
}
