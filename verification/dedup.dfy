/**
  Reference definitions for key-based deduplication: which positions of a
  batch survive when every key already in the store is dropped and every key
  is kept only at its first occurrence.
 */
module Dedup {

  /** Position `i` holds a key outside `excluded` that no earlier position holds. */
  predicate IsFirstNew<K(==)>(keys: seq<K>, excluded: set<K>, i: nat)
    requires i < |keys|
  {
    keys[i] !in excluded && keys[i] !in keys[..i]
  }

  lemma PrefixKeepsFirstNew<K>(keys: seq<K>, excluded: set<K>, n: nat)
    requires n <= |keys|
    ensures forall i :: 0 <= i < n ==> (IsFirstNew(keys[..n], excluded, i) <==> IsFirstNew(keys, excluded, i))
  {
    forall i | 0 <= i < n
      ensures IsFirstNew(keys[..n], excluded, i) <==> IsFirstNew(keys, excluded, i)
    {
      assert keys[..n][..i] == keys[..i];
    }
  }

  /** The surviving positions, in increasing order: exactly the first-new ones. */
  function FirstPositions<K(==)>(keys: seq<K>, excluded: set<K>): (pos: seq<nat>)
    ensures forall j :: 0 <= j < |pos| ==> pos[j] < |keys| && IsFirstNew(keys, excluded, pos[j])
    ensures forall j, j' :: 0 <= j < j' < |pos| ==> pos[j] < pos[j']
    ensures forall i :: 0 <= i < |keys| && IsFirstNew(keys, excluded, i) ==> i in pos
    decreases |keys|
  {
    if |keys| == 0 then []
    else
      var n := |keys| - 1;
      PrefixKeepsFirstNew(keys, excluded, n);
      FirstPositions(keys[..n], excluded) + (if IsFirstNew(keys, excluded, n) then [n] else [])
  }

  /** How many first-new positions lie below `n`. */
  function CountFirstNew<K(==)>(keys: seq<K>, excluded: set<K>, n: nat): nat
    requires n <= |keys|
  {
    if n == 0 then 0
    else CountFirstNew(keys, excluded, n - 1) + (if IsFirstNew(keys, excluded, n - 1) then 1 else 0)
  }

  /** Counting the first-new positions below `n` is counting the survivors of
      the first `n` keys. */
  lemma {:induction false} CountFirstNewIsSurvivors<K>(keys: seq<K>, excluded: set<K>, n: nat)
    requires n <= |keys|
    ensures |FirstPositions(keys[..n], excluded)| == CountFirstNew(keys, excluded, n)
  {
    if n > 0 {
      CountFirstNewIsSurvivors(keys, excluded, n - 1);
      assert keys[..n][..n - 1] == keys[..n - 1];
    }
  }

  /** The elements of `items` at the given positions, in order. */
  function Pick<T>(items: seq<T>, pos: seq<nat>): (r: seq<T>)
    requires forall j :: 0 <= j < |pos| ==> pos[j] < |items|
    ensures |r| == |pos| && forall j :: 0 <= j < |pos| ==> r[j] == items[pos[j]]
  {
    seq(|pos|, j requires 0 <= j < |pos| => items[pos[j]])
  }

  lemma PickSnoc<T>(items: seq<T>, pos: seq<nat>, p: nat)
    requires forall j :: 0 <= j < |pos| ==> pos[j] < |items|
    requires p < |items|
    ensures Pick(items, pos + [p]) == Pick(items, pos) + [items[p]]
  {
    var a := Pick(items, pos + [p]);
    var b := Pick(items, pos) + [items[p]];
    assert |a| == |b|;
    forall j | 0 <= j < |a| ensures a[j] == b[j] {
      if j < |pos| {
        assert (pos + [p])[j] == pos[j];
      }
    }
  }

  /** Picking from a longer sequence changes nothing at positions inside the shorter one. */
  lemma PickPrefix<T>(items: seq<T>, n: nat, pos: seq<nat>)
    requires n <= |items|
    requires forall j :: 0 <= j < |pos| ==> pos[j] < n
    ensures Pick(items[..n], pos) == Pick(items, pos)
  {
  }

  /** The first position holding `k`. */
  function FirstIndex<K(==)>(keys: seq<K>, k: K): (i: nat)
    requires k in keys
    ensures i < |keys| && keys[i] == k && k !in keys[..i]
  {
    if keys[0] == k then 0
    else
      var i := 1 + FirstIndex(keys[1..], k);
      assert keys[..i] == [keys[0]] + keys[1..][..i - 1];
      i
  }

  /** A position holding `k` with no earlier `k` is the first index of `k`. */
  lemma FirstIndexUnique<K>(keys: seq<K>, k: K, a: nat)
    requires a < |keys| && keys[a] == k && k !in keys[..a]
    ensures FirstIndex(keys, k) == a
  {
  }

  /** Survivors carry pairwise distinct keys: at most one per key. */
  lemma SurvivorKeysDistinct<K>(keys: seq<K>, excluded: set<K>)
    ensures var pos := FirstPositions(keys, excluded);
      forall j, j' :: 0 <= j < j' < |pos| ==> keys[pos[j]] != keys[pos[j']]
  {
    var pos := FirstPositions(keys, excluded);
    forall j, j' | 0 <= j < j' < |pos|
      ensures keys[pos[j]] != keys[pos[j']]
    {
      assert keys[..pos[j']][pos[j]] == keys[pos[j]];
    }
  }

  /** Every key of the batch outside `excluded` survives, at its first occurrence. */
  lemma EveryNewKeySurvives<K>(keys: seq<K>, excluded: set<K>, k: K)
    requires k in keys && k !in excluded
    ensures FirstIndex(keys, k) in FirstPositions(keys, excluded)
  {
  }

  /** No surviving key is in `excluded`, and every other key of the batch
      survives: the set of surviving keys is the batch's keys minus `excluded`. */
  lemma SurvivorKeySet<K>(keys: seq<K>, excluded: set<K>)
    ensures var pos := FirstPositions(keys, excluded);
      (set j | 0 <= j < |pos| :: keys[pos[j]]) == (set k | k in keys) - excluded
  {
    var pos := FirstPositions(keys, excluded);
    var lhs := set j | 0 <= j < |pos| :: keys[pos[j]];
    var rhs := (set k | k in keys) - excluded;
    forall k | k in rhs ensures k in lhs {
      var f := FirstIndex(keys, k);
      assert f in pos;
      var j :| 0 <= j < |pos| && pos[j] == f;
      assert keys[pos[j]] == k;
    }
  }

  /** The survivors of a prefix of the batch are a prefix of the survivors of
      the whole batch: a later record never changes an earlier decision. */
  lemma {:induction false} FirstPositionsPrefix<K>(keys: seq<K>, excluded: set<K>, m: nat)
    requires m <= |keys|
    ensures FirstPositions(keys[..m], excluded) <= FirstPositions(keys, excluded)
    decreases |keys| - m
  {
    if m < |keys| {
      var n := |keys| - 1;
      assert keys[..n][..m] == keys[..m];
      FirstPositionsPrefix(keys[..n], excluded, m);
    } else {
      assert keys[..m] == keys;
    }
  }

  /** The survivors of the first `q + 1` keys, when `q` is first-new, are those
      of the first `q` followed by `q`. */
  lemma FirstPositionsSnoc<K>(keys: seq<K>, excluded: set<K>, q: nat)
    requires q < |keys| && IsFirstNew(keys, excluded, q)
    ensures FirstPositions(keys[..q + 1], excluded) == FirstPositions(keys[..q], excluded) + [q]
  {
    assert keys[..q + 1][..q] == keys[..q];
    PrefixKeepsFirstNew(keys, excluded, q + 1);
  }

  /** The `k`-th survivor has exactly `k` first-new positions below it. */
  lemma SurvivorRank<K>(keys: seq<K>, excluded: set<K>, k: nat)
    requires k < |FirstPositions(keys, excluded)|
    ensures CountFirstNew(keys, excluded, FirstPositions(keys, excluded)[k]) == k
  {
    var all := FirstPositions(keys, excluded);
    var q := all[k];
    CountFirstNewIsSurvivors(keys, excluded, q);
    FirstPositionsSnoc(keys, excluded, q);
    FirstPositionsPrefix(keys, excluded, q + 1);
    var m := |FirstPositions(keys[..q], excluded)|;
    assert all[m] == q;
  }

  /** Once every key of the batch is in the store, the batch adds nothing:
      re-running a committed batch inserts no rows. */
  lemma RerunAddsNothing<K>(keys: seq<K>, excluded: set<K>)
    requires forall i :: 0 <= i < |keys| ==> keys[i] in excluded
    ensures FirstPositions(keys, excluded) == []
  {
  }

  /** When no key repeats and none is excluded, every position survives. */
  lemma {:induction false} DistinctNewKeysAllSurvive<K>(keys: seq<K>, excluded: set<K>)
    requires forall a, b :: 0 <= a < b < |keys| ==> keys[a] != keys[b]
    requires forall a :: 0 <= a < |keys| ==> keys[a] !in excluded
    ensures FirstPositions(keys, excluded) == seq(|keys|, j requires 0 <= j < |keys| => j)
    decreases |keys|
  {
    if |keys| > 0 {
      var n := |keys| - 1;
      DistinctNewKeysAllSurvive(keys[..n], excluded);
      assert keys[n] !in keys[..n];
      var all := seq(|keys|, j requires 0 <= j < |keys| => j);
      assert all == seq(n, j requires 0 <= j < n => j) + [n];
    }
  }
}
