/** Python dictionaries as association lists.

    A Python `dict` remembers insertion order: iterating it visits keys in the
    order they were first inserted, and assigning to a key that is already
    present replaces the value without moving the key.  Results of the career
    matcher depend on that order (ranking ties, the first minimal contribution,
    the first maximal preference), so a dictionary is modelled as a sequence of
    key/value pairs with distinct keys rather than as a Dafny `map`. */
module Dicts {

  /** No key occurs twice. */
  predicate DistinctKeys<K(==), V>(d: seq<(K, V)>) {
    forall i, j :: 0 <= i < j < |d| ==> d[i].0 != d[j].0
  }

  /** A Python dictionary: its items in insertion order. */
  type Dict<K(==), V> = d: seq<(K, V)> | DistinctKeys(d) witness []

  /** The keys in iteration order (`list(d)`). */
  function Keys<K, V>(d: seq<(K, V)>): (ks: seq<K>)
    ensures |ks| == |d|
  {
    seq(|d|, i requires 0 <= i < |d| => d[i].0)
  }

  /** The values in iteration order (`list(d.values())`). */
  function Values<K, V>(d: seq<(K, V)>): (vs: seq<V>)
    ensures |vs| == |d|
  {
    seq(|d|, i requires 0 <= i < |d| => d[i].1)
  }

  lemma KeysPrefix<K, V>(d: seq<(K, V)>, i: nat)
    requires i <= |d|
    ensures Keys(d)[..i] == Keys(d[..i])
  {
  }

  /** Position of a key that is present. */
  function IndexOf<K(==), V>(d: seq<(K, V)>, k: K): (i: nat)
    requires k in Keys(d)
    ensures i < |d| && d[i].0 == k
    ensures forall j :: 0 <= j < i ==> d[j].0 != k
  {
    if d[0].0 == k then 0
    else
      assert k in Keys(d[1..]) by {
        var j :| 0 <= j < |d| && Keys(d)[j] == k;
        assert Keys(d[1..])[j - 1] == k;
      }
      1 + IndexOf(d[1..], k)
  }

  /** `d.get(k, default)`. */
  function Get<K(==), V>(d: seq<(K, V)>, k: K, default: V): V {
    if k in Keys(d) then d[IndexOf(d, k)].1 else default
  }

  /** The item stored at position `i` is what a lookup of its key finds. */
  lemma GetAt<K, V>(d: Dict<K, V>, i: nat, default: V)
    requires i < |d|
    ensures d[i].0 in Keys(d)
    ensures IndexOf(d, d[i].0) == i
    ensures Get(d, d[i].0, default) == d[i].1
  {
    assert Keys(d)[i] == d[i].0;
  }

  /** `d[k] = v`: an existing key keeps its position and gets the new value,
      a new key is appended. */
  function Put<K(==), V>(d: Dict<K, V>, k: K, v: V): (r: Dict<K, V>)
    ensures Keys(r) == if k in Keys(d) then Keys(d) else Keys(d) + [k]
  {
    if k in Keys(d) then
      var i := IndexOf(d, k);
      var r := d[i := (k, v)];
      assert Keys(r) == Keys(d);
      r
    else
      assert forall i :: 0 <= i < |d| ==> Keys(d)[i] == d[i].0;
      var r := d + [(k, v)];
      assert Keys(r) == Keys(d) + [k];
      r
  }

  /** After `d[k] = v`, looking up `k` finds `v` and every other key finds what it
      found before. */
  lemma PutGet<K, V>(d: Dict<K, V>, k: K, v: V, k': K, default: V)
    ensures Get(Put(d, k, v), k', default) == if k' == k then v else Get(d, k', default)
  {
    var r := Put(d, k, v);
    if k' in Keys(r) {
      var i := IndexOf(r, k');
      GetAt(r, i, default);
      if k' != k && k' in Keys(d) {
        GetAt(d, IndexOf(d, k'), default);
      }
    }
  }

  /** Assigning a key twice leaves only the second value. */
  lemma PutTwice<K, V>(d: Dict<K, V>, k: K, x: V, y: V)
    ensures Put(Put(d, k, x), k, y) == Put(d, k, y)
  {
    if k in Keys(d) {
      GetAt(d, IndexOf(d, k), x);
      GetAt(Put(d, k, x), IndexOf(d, k), x);
    } else {
      var d' := Put(d, k, x);
      assert Keys(d')[|d|] == k;
      GetAt(d', |d|, x);
    }
  }

  /** The distinct elements of `ks`, in order of first occurrence. */
  function Distinct<K(==)>(ks: seq<K>): seq<K> {
    if ks == [] then []
    else
      var d := Distinct(ks[..|ks| - 1]);
      if ks[|ks| - 1] in d then d else d + [ks[|ks| - 1]]
  }

  lemma DistinctStep<K>(ks: seq<K>, i: nat)
    requires i < |ks|
    ensures Distinct(ks[..i + 1]) ==
      if ks[i] in Distinct(ks[..i]) then Distinct(ks[..i]) else Distinct(ks[..i]) + [ks[i]]
  {
    assert ks[..i + 1][..i] == ks[..i];
  }

  /** `Distinct` drops repetitions only: it holds the same elements. */
  lemma {:induction false} DistinctMembers<K>(ks: seq<K>)
    ensures forall x :: x in Distinct(ks) <==> x in ks
  {
    if ks != [] {
      var n := |ks| - 1;
      DistinctMembers(ks[..n]);
      assert ks == ks[..n] + [ks[n]];
    }
  }

  /** The dictionary built by assigning `items` one after another, as a loop
      `d[k] = v` over them does. */
  function FromItems<K(==), V>(items: seq<(K, V)>): Dict<K, V> {
    if items == [] then []
    else
      var n := |items| - 1;
      Put(FromItems(items[..n]), items[n].0, items[n].1)
  }

  lemma FromItemsStep<K, V>(items: seq<(K, V)>, i: nat)
    requires i < |items|
    ensures FromItems(items[..i + 1]) == Put(FromItems(items[..i]), items[i].0, items[i].1)
  {
    assert items[..i + 1][..i] == items[..i];
  }

  lemma FromItemsAppend<K, V>(items: seq<(K, V)>, x: (K, V))
    ensures FromItems(items + [x]) == Put(FromItems(items), x.0, x.1)
  {
    assert (items + [x])[..|items|] == items;
  }

  /** The keys are the distinct keys of the items, in order of first
      assignment. */
  lemma {:induction false} FromItemsKeys<K, V>(items: seq<(K, V)>)
    ensures Keys(FromItems(items)) == Distinct(Keys(items))
  {
    if items != [] {
      var n := |items| - 1;
      FromItemsKeys(items[..n]);
      assert Keys(items)[..n] == Keys(items[..n]);
    }
  }

  /** The value under a key is that of the last item with that key. */
  lemma {:induction false} FromItemsLastWins<K, V>(items: seq<(K, V)>, i: nat, default: V)
    requires i < |items|
    requires forall j :: i < j < |items| ==> items[j].0 != items[i].0
    ensures Get(FromItems(items), items[i].0, default) == items[i].1
  {
    var n := |items| - 1;
    var pre := FromItems(items[..n]);
    assert FromItems(items) == Put(pre, items[n].0, items[n].1);
    PutGet(pre, items[n].0, items[n].1, items[i].0, default);
    if i < n {
      assert Get(pre, items[i].0, default) == items[i].1 by {
        var front := items[..n];
        assert front[i] == items[i];
        assert forall j :: i < j < n ==> front[j] == items[j];
        FromItemsLastWins(front, i, default);
      }
    }
  }

  /** When every item with a given key carries the same value, the
      dictionary holds that value under the key. */
  lemma {:induction false} FromItemsFunctional<K, V>(items: seq<(K, V)>, i: nat, default: V)
    requires i < |items|
    requires forall j :: 0 <= j < |items| && items[j].0 == items[i].0 ==> items[j].1 == items[i].1
    ensures Get(FromItems(items), items[i].0, default) == items[i].1
  {
    var n := |items| - 1;
    var pre := FromItems(items[..n]);
    assert FromItems(items) == Put(pre, items[n].0, items[n].1);
    PutGet(pre, items[n].0, items[n].1, items[i].0, default);
    if items[n].0 != items[i].0 {
      assert Get(pre, items[i].0, default) == items[i].1 by {
        var front := items[..n];
        assert front[i] == items[i];
        assert forall j :: 0 <= j < n ==> front[j] == items[j];
        FromItemsFunctional(front, i, default);
      }
    }
  }
}
