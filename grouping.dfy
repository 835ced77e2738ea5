/**
 * `groupby("origin").count()`: a table with one entry per distinct origin,
 * in ascending key order, holding the number of rows that carry it
 * (samples_report.py:22,25).
 */
module Grouping {

  /** One entry of a grouped count: a key and how many rows carry it. */
  datatype Entry = Entry(key: char, count: nat)

  /** Keys strictly ascending (so each appears once) and every count positive. */
  predicate Wellformed(t: seq<Entry>) {
    && (forall i, j :: 0 <= i < j < |t| ==> t[i].key < t[j].key)
    && (forall i :: 0 <= i < |t| ==> t[i].count > 0)
  }

  /** The keys that have an entry. */
  function KeySet(t: seq<Entry>): set<char> {
    if t == [] then {} else {t[0].key} + KeySet(t[1..])
  }

  /** The count recorded for `k`, zero when `k` has no entry. */
  function CountOf(t: seq<Entry>, k: char): nat {
    if t == [] then 0
    else if t[0].key == k then t[0].count
    else CountOf(t[1..], k)
  }

  /** The sum of all counts of a table. */
  function Total(t: seq<Entry>): nat {
    if t == [] then 0 else t[0].count + Total(t[1..])
  }

  /** A key has an entry exactly when some position holds it. */
  lemma {:induction false} KeySetAt(t: seq<Entry>, k: char)
    ensures k in KeySet(t) <==> exists i :: 0 <= i < |t| && t[i].key == k
  {
    if t != [] {
      KeySetAt(t[1..], k);
      if exists i :: 0 <= i < |t| && t[i].key == k {
        var i :| 0 <= i < |t| && t[i].key == k;
        if i > 0 { assert t[1..][i - 1].key == k; }
      }
      if exists i :: 0 <= i < |t| - 1 && t[1..][i].key == k {
        var i :| 0 <= i < |t| - 1 && t[1..][i].key == k;
        assert t[i + 1].key == k;
      }
    }
  }

  /** The key of every entry is in the key set. */
  lemma EntriesInKeySet(t: seq<Entry>)
    ensures forall j :: 0 <= j < |t| ==> t[j].key in KeySet(t)
  {
  }

  /** In a well-formed table every key after the first is above the first. */
  lemma KeysAboveHead(t: seq<Entry>)
    requires Wellformed(t) && t != []
    ensures forall k :: k in KeySet(t[1..]) ==> t[0].key < k
  {
    forall k | k in KeySet(t[1..]) ensures t[0].key < k {
      KeySetAt(t[1..], k);
      var i :| 0 <= i < |t| - 1 && t[1..][i].key == k;
      assert t[i + 1].key == k;
    }
  }

  /** In a well-formed table a key has an entry exactly when its count is positive. */
  lemma {:induction false} KeyPresence(t: seq<Entry>, k: char)
    requires Wellformed(t)
    ensures k in KeySet(t) <==> CountOf(t, k) > 0
  {
    if t != [] {
      KeyPresence(t[1..], k);
    }
  }

  /** Counting one more row with key `x`, keeping the keys in ascending order. */
  function Insert(t: seq<Entry>, x: char): (r: seq<Entry>)
    requires Wellformed(t)
    ensures Wellformed(r)
    ensures KeySet(r) == KeySet(t) + {x}
    ensures forall k :: CountOf(r, k) == CountOf(t, k) + (if k == x then 1 else 0)
    ensures Total(r) == Total(t) + 1
    decreases |t|, 1
  {
    if t == [] then
      [Entry(x, 1)]
    else if x < t[0].key then
      KeySetAt(t, x);
      KeyPresence(t, x);
      var r := [Entry(x, 1)] + t;
      assert r[1..] == t;
      r
    else if x == t[0].key then
      var r := [Entry(x, t[0].count + 1)] + t[1..];
      assert r[1..] == t[1..];
      r
    else
      InsertAbove(t, x)
  }

  /** The case of `Insert` where `x` goes after the first entry. */
  function InsertAbove(t: seq<Entry>, x: char): (r: seq<Entry>)
    requires Wellformed(t) && t != [] && t[0].key < x
    ensures Wellformed(r)
    ensures KeySet(r) == KeySet(t) + {x}
    ensures forall k :: CountOf(r, k) == CountOf(t, k) + (if k == x then 1 else 0)
    ensures Total(r) == Total(t) + 1
    decreases |t|, 0
  {
    var rest := Insert(t[1..], x);
    var r := [t[0]] + rest;
    KeysAboveHead(t);
    EntriesInKeySet(rest);
    assert forall k :: k in KeySet(rest) ==> t[0].key < k;
    assert r[1..] == rest;
    r
  }

  /**
   * The grouped count of a key column: for every key, the count is its
   * number of occurrences in the column, so the keys with an entry are
   * exactly the values that occur.
   */
  function GroupCount(os: seq<char>): (t: seq<Entry>)
    ensures Wellformed(t)
    ensures forall k :: CountOf(t, k) == multiset(os)[k]
    ensures KeySet(t) == set c | c in os
  {
    if os == [] then []
    else
      var n := |os| - 1;
      assert os == os[..n] + [os[n]];
      var t := Insert(GroupCount(os[..n]), os[n]);
      assert KeySet(t) == set c | c in os;
      t
  }

  /** Summed over all keys, a grouped count gives back the number of rows. */
  lemma {:induction false} GroupCountTotal(os: seq<char>)
    ensures Total(GroupCount(os)) == |os|
  {
    if os != [] {
      GroupCountTotal(os[..|os| - 1]);
    }
  }
}
