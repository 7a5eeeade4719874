/** Sorting row indices by a key, the way `sorted(d.items(), key=...)` orders a dict
    whose keys were inserted in ascending index order. The sort is stable. */
module StableSort {

  /** The indices 0, 1, ..., n - 1 in ascending order (the dict's insertion order). */
  function Range(n: nat): (r: seq<nat>)
    ensures |r| == n
    ensures forall i :: 0 <= i < n ==> r[i] == i
  {
    if n == 0 then [] else Range(n - 1) + [n - 1]
  }

  /** Every element of s indexes into a key vector of length n. */
  predicate InBounds(s: seq<nat>, n: nat) {
    forall i :: 0 <= i < |s| ==> s[i] < n
  }

  predicate Ascending(s: seq<nat>) {
    forall i, j :: 0 <= i < j < |s| ==> s[i] < s[j]
  }

  /** a comes before b: a smaller key, or an equal key and a smaller index. */
  predicate Precedes(a: nat, b: nat, key: seq<real>)
    requires a < |key| && b < |key|
  {
    key[a] < key[b] || (key[a] == key[b] && a < b)
  }

  /** s is ordered by key, ties broken by ascending index. Such a sequence has no duplicates. */
  predicate Ranked(s: seq<nat>, key: seq<real>)
    requires InBounds(s, |key|)
  {
    forall i, j :: 0 <= i < j < |s| ==> Precedes(s[i], s[j], key)
  }

  /** Places x in front of the first element whose key is not smaller than x's,
      so that x stays ahead of the elements with an equal key. */
  function Insert(x: nat, s: seq<nat>, key: seq<real>): (r: seq<nat>)
    requires x < |key| && InBounds(s, |key|)
    ensures multiset(r) == multiset(s) + multiset{x}
    ensures |r| == |s| + 1
    ensures InBounds(r, |key|)
  {
    if |s| == 0 then [x]
    else if key[x] <= key[s[0]] then [x] + s
    else
      assert s == [s[0]] + s[1..];
      [s[0]] + Insert(x, s[1..], key)
  }

  /** Stable insertion sort of s by key: s[0] is inserted ahead of every later element with an equal key. */
  function SortByKey(s: seq<nat>, key: seq<real>): (r: seq<nat>)
    requires InBounds(s, |key|)
    ensures multiset(r) == multiset(s)
    ensures |r| == |s|
    ensures InBounds(r, |key|)
  {
    if |s| == 0 then []
    else
      assert s == [s[0]] + s[1..];
      Insert(s[0], SortByKey(s[1..], key), key)
  }

  /** Putting x in front of a ranked s keeps it ranked when x's key is not larger than s[0]'s
      and x is smaller than every element of s. */
  lemma PrependRanked(x: nat, s: seq<nat>, key: seq<real>)
    requires x < |key| && InBounds(s, |key|)
    requires Ranked(s, key)
    requires forall i :: 0 <= i < |s| ==> x < s[i]
    requires |s| > 0 ==> key[x] <= key[s[0]]
    ensures Ranked([x] + s, key)
  {
    var r := [x] + s;
    forall i, j | 0 <= i < j < |r|
      ensures Precedes(r[i], r[j], key)
    {
      if i == 0 {
        if j > 1 {
          assert Precedes(s[0], s[j - 1], key);
        }
      } else {
        assert Precedes(s[i - 1], s[j - 1], key);
      }
    }
  }

  /** Putting s0 in front of a ranked t keeps it ranked when s0 precedes every element of t. */
  lemma ConsRanked(s0: nat, t: seq<nat>, key: seq<real>)
    requires s0 < |key| && InBounds(t, |key|)
    requires Ranked(t, key)
    requires forall j :: 0 <= j < |t| ==> Precedes(s0, t[j], key)
    ensures Ranked([s0] + t, key)
  {
    var r := [s0] + t;
    forall i, j | 0 <= i < j < |r|
      ensures Precedes(r[i], r[j], key)
    {
      if i > 0 {
        assert Precedes(t[i - 1], t[j - 1], key);
      }
    }
  }

  lemma {:induction false} InsertRanked(x: nat, s: seq<nat>, key: seq<real>)
    requires x < |key| && InBounds(s, |key|)
    requires Ranked(s, key)
    requires forall i :: 0 <= i < |s| ==> x < s[i]
    ensures Ranked(Insert(x, s, key), key)
    decreases |s|
  {
    if |s| == 0 || key[x] <= key[s[0]] {
      PrependRanked(x, s, key);
    } else {
      var t := Insert(x, s[1..], key);
      InsertRanked(x, s[1..], key);
      forall j | 0 <= j < |t|
        ensures Precedes(s[0], t[j], key)
      {
        assert t[j] in multiset(t);
        if t[j] != x {
          assert t[j] in multiset(s[1..]);
          var p :| 0 <= p < |s[1..]| && s[1..][p] == t[j];
          assert Precedes(s[0], s[p + 1], key);
        }
      }
      ConsRanked(s[0], t, key);
    }
  }

  /** Sorting an ascending index sequence ranks it by key with ties in ascending index order:
      this is what stability yields on the dict's insertion order. */
  lemma {:induction false} SortRanked(s: seq<nat>, key: seq<real>)
    requires InBounds(s, |key|)
    requires Ascending(s)
    ensures Ranked(SortByKey(s, key), key)
    decreases |s|
  {
    if |s| > 0 {
      var t := SortByKey(s[1..], key);
      SortRanked(s[1..], key);
      forall i | 0 <= i < |t|
        ensures s[0] < t[i]
      {
        assert t[i] in multiset(s[1..]);
        var p :| 0 <= p < |s[1..]| && s[1..][p] == t[i];
        assert s[0] < s[p + 1];
      }
      InsertRanked(s[0], t, key);
    }
  }

  /** Two key vectors that compare every pair of indices alike. */
  predicate SameOrder(key1: seq<real>, key2: seq<real>) {
    && |key1| == |key2|
    && forall a, b :: 0 <= a < |key1| && 0 <= b < |key1| ==> (key1[a] <= key1[b] <==> key2[a] <= key2[b])
  }

  lemma {:induction false} InsertSameOrder(x: nat, s: seq<nat>, key1: seq<real>, key2: seq<real>)
    requires SameOrder(key1, key2)
    requires x < |key1| && InBounds(s, |key1|)
    ensures Insert(x, s, key1) == Insert(x, s, key2)
    decreases |s|
  {
    if |s| > 0 && key1[x] > key1[s[0]] {
      InsertSameOrder(x, s[1..], key1, key2);
    }
  }

  /** The sort looks at the keys only through comparisons, so any order-preserving
      transformation of the keys (such as a square root of non-negative keys) leaves its result unchanged. */
  lemma {:induction false} SortSameOrder(s: seq<nat>, key1: seq<real>, key2: seq<real>)
    requires SameOrder(key1, key2)
    requires InBounds(s, |key1|)
    ensures SortByKey(s, key1) == SortByKey(s, key2)
    decreases |s|
  {
    if |s| > 0 {
      SortSameOrder(s[1..], key1, key2);
      InsertSameOrder(s[0], SortByKey(s[1..], key1), key1, key2);
    }
  }
}
