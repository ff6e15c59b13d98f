/** Small value-level building blocks shared by the mapping pipeline and the
    menu logic: an optional value, the flattening of a list of lists (Python's
    nested `for ... for ... append`), and the "assign key after key" fold that
    builds a Python dict in which a later assignment to a key overwrites an
    earlier one, both as a plain map and as the dict's items in insertion
    order. */
module Basics {

  /** A value that may be absent: a missing JSON key, a missing file. */
  datatype Option<+T> = None | Some(value: T)

  /** The concatenation of a list of lists, in order. */
  function Concat<T>(xss: seq<seq<T>>): seq<T>
  {
    if |xss| == 0 then [] else Concat(xss[..|xss| - 1]) + xss[|xss| - 1]
  }

  /** Extending the list of lists by one more list appends that list. */
  lemma ConcatSnoc<T>(xss: seq<seq<T>>, j: nat)
    requires j < |xss|
    ensures Concat(xss[..j + 1]) == Concat(xss[..j]) + xss[j]
  {
    assert xss[..j + 1][..j] == xss[..j];
  }

  /** Concatenation distributes over appending lists of lists. */
  lemma {:induction false} ConcatAppend<T>(a: seq<seq<T>>, b: seq<seq<T>>)
    ensures Concat(a + b) == Concat(a) + Concat(b)
  {
    if |b| == 0 {
      assert a + b == a;
    } else {
      var b' := b[..|b| - 1];
      assert (a + b)[..|a + b| - 1] == a + b';
      assert (a + b)[|a + b| - 1] == b[|b| - 1];
      assert Concat(a + b) == Concat(a + b') + b[|b| - 1];
      ConcatAppend(a, b');
      assert Concat(b) == Concat(b') + b[|b| - 1];
    }
  }

  /** Element `k` of list `j` sits at position |Concat(xss[..j])| + k of the
      concatenation: the lists appear one after the other, in order. */
  lemma ConcatIndex<T>(xss: seq<seq<T>>, j: nat, k: nat)
    requires j < |xss| && k < |xss[j]|
    ensures |Concat(xss[..j])| + k < |Concat(xss)|
    ensures Concat(xss)[|Concat(xss[..j])| + k] == xss[j][k]
  {
    assert xss == xss[..j + 1] + xss[j + 1..];
    ConcatAppend(xss[..j + 1], xss[j + 1..]);
    ConcatSnoc(xss, j);
  }

  /** Lists of one common length `k` concatenate to `k` elements per list. */
  lemma {:induction false} ConcatUniformLength<T>(xss: seq<seq<T>>, k: nat)
    requires forall j :: 0 <= j < |xss| ==> |xss[j]| == k
    ensures |Concat(xss)| == |xss| * k
  {
    if |xss| > 0 {
      var n := |xss| - 1;
      ConcatUniformLength(xss[..n], k);
      assert |xss| * k == n * k + k;
    }
  }

  /** An element is in the concatenation exactly when it is in one of the lists. */
  lemma {:induction false} ConcatMembership<T>(xss: seq<seq<T>>, x: T)
    ensures x in Concat(xss) <==>
              exists j, k :: 0 <= j < |xss| && 0 <= k < |xss[j]| && xss[j][k] == x
  {
    if |xss| == 0 {
    } else {
      var n := |xss| - 1;
      var init := xss[..n];
      ConcatMembership(init, x);
      if x in Concat(xss) {
        if x in Concat(init) {
          var j, k :| 0 <= j < |init| && 0 <= k < |init[j]| && init[j][k] == x;
          assert xss[j][k] == x;
        } else {
          var k :| 0 <= k < |xss[n]| && xss[n][k] == x;
        }
      }
      if exists j, k :: 0 <= j < |xss| && 0 <= k < |xss[j]| && xss[j][k] == x {
        var j, k :| 0 <= j < |xss| && 0 <= k < |xss[j]| && xss[j][k] == x;
        if j < n {
          assert init[j][k] == x;
        } else {
          assert x in xss[n];
        }
      }
    }
  }

  /** The concatenation is empty exactly when every list is empty. */
  lemma {:induction false} ConcatEmpty<T>(xss: seq<seq<T>>)
    ensures Concat(xss) == [] <==> forall j :: 0 <= j < |xss| ==> xss[j] == []
  {
    if |xss| > 0 {
      var n := |xss| - 1;
      ConcatEmpty(xss[..n]);
      assert forall j :: 0 <= j < n ==> xss[..n][j] == xss[j];
    }
  }

  /** The position of the last occurrence of `x` in `s`. */
  function LastIndexOf<T(==)>(s: seq<T>, x: T): (u: nat)
    requires x in s
    ensures u < |s| && s[u] == x
    ensures forall v :: u < v < |s| ==> s[v] != x
  {
    if s[|s| - 1] == x then |s| - 1 else LastIndexOf(s[..|s| - 1], x)
  }

  /** The position of the first element satisfying `p`, if any. */
  function FirstWhere<T>(xs: seq<T>, p: T -> bool): (r: Option<nat>)
    ensures r.Some? ==> r.value < |xs| && p(xs[r.value])
    ensures r.Some? ==> forall u :: 0 <= u < r.value ==> !p(xs[u])
    ensures r.None? ==> forall u :: 0 <= u < |xs| ==> !p(xs[u])
  {
    if |xs| == 0 then None
    else if p(xs[0]) then Some(0)
    else
      match FirstWhere(xs[1..], p)
      case None => None
      case Some(u) => Some(u + 1)
  }

  /** The dict obtained by assigning `d[key] = value` for each entry in turn,
      starting from `{}`. */
  function Collect<K, V>(entries: seq<(K, V)>): map<K, V>
  {
    if |entries| == 0 then map[]
    else
      var last := entries[|entries| - 1];
      Collect(entries[..|entries| - 1])[last.0 := last.1]
  }

  /** The keys of the collected dict are exactly the keys that were assigned. */
  lemma {:induction false} CollectKeys<K, V>(entries: seq<(K, V)>)
    ensures Collect(entries).Keys == set i | 0 <= i < |entries| :: entries[i].0
  {
    if |entries| > 0 {
      var n := |entries| - 1;
      CollectKeys(entries[..n]);
      assert forall i :: 0 <= i < n ==> entries[..n][i] == entries[i];
      var lhs := Collect(entries).Keys;
      var rhs := set i | 0 <= i < |entries| :: entries[i].0;
      forall k | k in rhs ensures k in lhs {
        var i :| 0 <= i < |entries| && entries[i].0 == k;
        if i < n {
          assert entries[..n][i].0 == k;
        }
      }
    }
  }

  /** Last writer wins: the value kept for a key is the one assigned by the
      last entry carrying that key. */
  lemma {:induction false} CollectAtLast<K, V>(entries: seq<(K, V)>, i: nat)
    requires i < |entries|
    requires forall j :: i < j < |entries| ==> entries[j].0 != entries[i].0
    ensures entries[i].0 in Collect(entries)
    ensures Collect(entries)[entries[i].0] == entries[i].1
  {
    var n := |entries| - 1;
    if i < n {
      assert entries[n].0 != entries[i].0;
      assert entries[..n][i] == entries[i];
      CollectAtLast(entries[..n], i);
    }
  }

  /** The position of the first occurrence of `x` in `s`. */
  function FirstIndexOf<T(==)>(s: seq<T>, x: T): (u: nat)
    requires x in s
    ensures u < |s| && s[u] == x
    ensures forall v :: 0 <= v < u ==> s[v] != x
  {
    if s[0] == x then 0 else 1 + FirstIndexOf(s[1..], x)
  }

  /** The keys of a dict's items, in item order. */
  function ItemKeys<K, V>(items: seq<(K, V)>): (ks: seq<K>)
    ensures |ks| == |items|
    ensures forall i :: 0 <= i < |items| ==> ks[i] == items[i].0
  {
    seq(|items|, i requires 0 <= i < |items| => items[i].0)
  }

  /** No key occurs twice. */
  predicate DistinctItemKeys<K(==), V>(items: seq<(K, V)>)
  {
    forall i, j :: 0 <= i < j < |items| ==> items[i].0 != items[j].0
  }

  /** `d[key] = value` on a Python dict held as its items in insertion
      order: an existing key keeps its place and takes the new value, a new
      key goes last. */
  function Assign<K(==), V>(items: seq<(K, V)>, key: K, value: V): (r: seq<(K, V)>)
    ensures ItemKeys(r) == if key in ItemKeys(items) then ItemKeys(items) else ItemKeys(items) + [key]
    ensures forall i :: 0 <= i < |r| && r[i].0 == key ==> r[i].1 == value
    ensures forall i :: 0 <= i < |r| && r[i].0 != key ==> i < |items| && r[i] == items[i]
  {
    if key in ItemKeys(items) then
      seq(|items|, i requires 0 <= i < |items| => if items[i].0 == key then (key, value) else items[i])
    else items + [(key, value)]
  }

  /** The items of the dict obtained by assigning `d[key] = value` for each
      entry in turn, starting from `{}`, in the order `json.dump` writes
      them. */
  function OrderedCollect<K(==), V>(entries: seq<(K, V)>): seq<(K, V)>
  {
    if |entries| == 0 then []
    else
      var last := entries[|entries| - 1];
      Assign(OrderedCollect(entries[..|entries| - 1]), last.0, last.1)
  }

  /** The dict holds each assigned key exactly once. */
  lemma {:induction false} OrderedCollectKeySet<K, V>(entries: seq<(K, V)>)
    ensures var items := OrderedCollect(entries);
      && DistinctItemKeys(items)
      && (forall x :: x in ItemKeys(items) <==> x in ItemKeys(entries))
  {
    if |entries| > 0 {
      var n := |entries| - 1;
      var prev := OrderedCollect(entries[..n]);
      OrderedCollectKeySet(entries[..n]);
      assert ItemKeys(entries[..n]) == ItemKeys(entries)[..n];
      var items := OrderedCollect(entries);
      var key := entries[n].0;
      assert items == Assign(prev, key, entries[n].1);
      if key !in ItemKeys(prev) {
        assert forall i :: 0 <= i < |prev| ==> items[i] == prev[i];
      } else {
        assert forall i :: 0 <= i < |items| ==> items[i].0 == prev[i].0;
      }
    }
  }

  /** The keys of `items` occur in `ks`, and a key comes before another iff
      it occurs first in `ks` earlier. */
  predicate FirstOccurrenceOrder<K(==), V>(items: seq<(K, V)>, ks: seq<K>)
  {
    && (forall i :: 0 <= i < |items| ==> items[i].0 in ks)
    && (forall i, j :: 0 <= i < j < |items| ==> FirstIndexOf(ks, items[i].0) < FirstIndexOf(ks, items[j].0))
  }

  /** Insertion order: keys are kept in the order they were first assigned. */
  lemma {:induction false} OrderedCollectOrder<K, V>(entries: seq<(K, V)>)
    ensures FirstOccurrenceOrder(OrderedCollect(entries), ItemKeys(entries))
  {
    if |entries| > 0 {
      var n := |entries| - 1;
      var ks := ItemKeys(entries);
      var prev := OrderedCollect(entries[..n]);
      OrderedCollectOrder(entries[..n]);
      OrderedCollectKeySet(entries[..n]);
      assert ItemKeys(entries[..n]) == ks[..n];
      OrderExtend(prev, ks, n);
      var key := entries[n].0;
      if key in ItemKeys(prev) {
        AssignKeepsOrder(prev, ks, key, entries[n].1);
      } else {
        AssignAppendsInOrder(prev, ks, n, entries[n].1);
      }
    }
  }

  /** An order by first occurrence in a prefix of `ks` is one in `ks`. */
  lemma OrderExtend<K, V>(items: seq<(K, V)>, ks: seq<K>, n: nat)
    requires n <= |ks| && FirstOccurrenceOrder(items, ks[..n])
    ensures FirstOccurrenceOrder(items, ks)
  {
    forall i | 0 <= i < |items|
      ensures items[i].0 in ks && FirstIndexOf(ks, items[i].0) == FirstIndexOf(ks[..n], items[i].0)
    {
      FirstIndexPrefix(ks, n, items[i].0);
    }
  }

  /** Overwriting a present key moves nothing. */
  lemma AssignKeepsOrder<K, V>(items: seq<(K, V)>, ks: seq<K>, key: K, value: V)
    requires key in ItemKeys(items) && FirstOccurrenceOrder(items, ks)
    ensures FirstOccurrenceOrder(Assign(items, key, value), ks)
  {
    var r := Assign(items, key, value);
    forall i | 0 <= i < |r|
      ensures r[i].0 == items[i].0 && r[i].0 in ks
      ensures FirstIndexOf(ks, r[i].0) == FirstIndexOf(ks, items[i].0)
    {
      assert r[i].0 == ItemKeys(r)[i] == items[i].0;
    }
  }

  /** A key first assigned at position `n` of `ks` goes after every key
      first assigned before it. */
  lemma AssignAppendsInOrder<K, V>(items: seq<(K, V)>, ks: seq<K>, n: nat, value: V)
    requires n < |ks| && ks[n] !in ItemKeys(items)
    requires forall x :: x in ItemKeys(items) <==> x in ks[..n]
    requires FirstOccurrenceOrder(items, ks)
    ensures FirstOccurrenceOrder(Assign(items, ks[n], value), ks)
  {
    var r := Assign(items, ks[n], value);
    FirstIndexLast(ks, n);
    assert forall i :: 0 <= i < |items| ==> r[i] == items[i];
    assert r[|items|].0 == ks[n];
    forall i | 0 <= i < |items|
      ensures r[i].0 == items[i].0 && items[i].0 in ks[..n] && FirstIndexOf(ks, items[i].0) < n
    {
      assert items[i].0 == ItemKeys(items)[i];
      FirstIndexPrefix(ks, n, items[i].0);
    }
  }

  /** A first occurrence inside a prefix is the first occurrence overall. */
  lemma FirstIndexPrefix<T>(s: seq<T>, n: nat, x: T)
    requires n <= |s| && x in s[..n]
    ensures x in s && FirstIndexOf(s, x) == FirstIndexOf(s[..n], x)
  {
    var u := FirstIndexOf(s[..n], x);
    var v := FirstIndexOf(s, x);
    assert s[..n][u] == s[u];
    assert v <= u;
    assert s[..n][v] == s[v];
  }

  /** An element missing from the prefix before position `n` occurs first at `n`. */
  lemma FirstIndexLast<T>(s: seq<T>, n: nat)
    requires n < |s| && s[n] !in s[..n]
    ensures FirstIndexOf(s, s[n]) == n
  {
    var v := FirstIndexOf(s, s[n]);
    assert v <= n;
  }

  /** Every key of `items` was assigned by some entry, and holds the value
      of the last entry that assigned it. */
  predicate LastValues<K(==), V(==)>(items: seq<(K, V)>, entries: seq<(K, V)>)
  {
    var ks := ItemKeys(entries);
    forall i :: 0 <= i < |items| ==>
      items[i].0 in ks && items[i].1 == entries[LastIndexOf(ks, items[i].0)].1
  }

  /** Last writer wins: each key holds the value of the last entry that
      assigned it. */
  lemma {:induction false} OrderedCollectValues<K, V>(entries: seq<(K, V)>)
    ensures LastValues(OrderedCollect(entries), entries)
  {
    if |entries| > 0 {
      var n := |entries| - 1;
      var ks := ItemKeys(entries);
      var prev := OrderedCollect(entries[..n]);
      OrderedCollectValues(entries[..n]);
      assert LastValues(prev, entries[..n]);
      var pks := ItemKeys(entries[..n]);
      assert pks == ks[..n];
      var items := OrderedCollect(entries);
      var key := entries[n].0;
      assert items == Assign(prev, key, entries[n].1);
      forall i | 0 <= i < |items|
        ensures items[i].0 in ks && items[i].1 == entries[LastIndexOf(ks, items[i].0)].1
      {
        if items[i].0 == key {
          assert LastIndexOf(ks, key) == n;
        } else {
          var x := items[i].0;
          assert items[i] == prev[i];
          assert i < |prev|;
          assert x in pks && prev[i].1 == entries[..n][LastIndexOf(pks, x)].1;
          assert ks[n] != x && ks[..n] == pks;
          assert LastIndexOf(ks, x) == LastIndexOf(pks, x);
        }
      }
    }
  }

  /** `d = {}; d["a"] = 1; d["b"] = 2; d["a"] = 3` leaves `{"a": 3, "b": 2}`:
      a reassigned key keeps its first place and takes its last value. */
  lemma ReassignedKeyKeepsPlace()
    ensures OrderedCollect([("a", 1), ("b", 2), ("a", 3)]) == [("a", 3), ("b", 2)]
  {
    var entries: seq<(string, int)> := [("a", 1), ("b", 2), ("a", 3)];
    assert entries[..2][..1] == [("a", 1)] && |entries[..1][..0]| == 0;
    assert OrderedCollect(entries[..1]) == [("a", 1)];
    assert OrderedCollect(entries[..2]) == [("a", 1), ("b", 2)];
  }
}
