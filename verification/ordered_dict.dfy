/**
  A Python `dict` (and `defaultdict`) as the sequence of its items in
  insertion order: assigning to an existing key keeps its position,
  assigning to a new key appends it.  `sorted(d.items(), ...)` sees the
  items in exactly this order, so ranking ties depend on it.
 */
module OrderedDict {

  type Dict<K, V> = seq<(K, V)>

  /** The keys, in insertion order. */
  function Keys<K, V>(d: Dict<K, V>): (r: seq<K>)
    ensures |r| == |d|
    ensures forall i :: 0 <= i < |d| ==> r[i] == d[i].0
  {
    if d == [] then [] else [d[0].0] + Keys(d[1..])
  }

  /** No key occurs twice: the invariant every Python dict keeps. */
  ghost predicate WellFormed<K, V>(d: Dict<K, V>) {
    forall i, j :: 0 <= i < j < |d| ==> d[i].0 != d[j].0
  }

  predicate HasKey<K(==), V>(d: Dict<K, V>, k: K) {
    exists i :: 0 <= i < |d| && d[i].0 == k
  }

  lemma HasKeyCons<K, V>(d: Dict<K, V>, k: K)
    requires d != []
    ensures HasKey(d, k) <==> d[0].0 == k || HasKey(d[1..], k)
  {
    if HasKey(d, k) && d[0].0 != k {
      var i :| 0 <= i < |d| && d[i].0 == k;
      assert d[1..][i - 1].0 == k;
    }
    if HasKey(d[1..], k) {
      var i :| 0 <= i < |d[1..]| && d[1..][i].0 == k;
      assert d[i + 1].0 == k;
    }
  }

  /** `d.get(k, default)`: the value stored under `k`, or `default` when `k` is absent. */
  function Get<K(==), V>(d: Dict<K, V>, k: K, default: V): (v: V)
    ensures !HasKey(d, k) ==> v == default
    ensures WellFormed(d) ==> forall i :: 0 <= i < |d| && d[i].0 == k ==> v == d[i].1
  {
    if d == [] then default
    else if d[0].0 == k then d[0].1
    else
      HasKeyCons(d, k);
      Get(d[1..], k, default)
  }

  /** `d[k] = v`: an existing key keeps its place, a new key goes last. */
  function Put<K(==), V>(d: Dict<K, V>, k: K, v: V): (r: Dict<K, V>)
    requires WellFormed(d)
    ensures WellFormed(r)
    ensures HasKey(d, k) ==> Keys(r) == Keys(d)
    ensures !HasKey(d, k) ==> Keys(r) == Keys(d) + [k]
    ensures forall i :: 0 <= i < |d| && d[i].0 != k ==> r[i] == d[i]
    ensures forall i :: 0 <= i < |r| && r[i].0 == k ==> r[i].1 == v
  {
    if d == [] then [(k, v)]
    else if d[0].0 == k then HasKeyCons(d, k); [(k, v)] + d[1..]
    else
      HasKeyCons(d, k);
      var rest := Put(d[1..], k, v);
      var r := [d[0]] + rest;
      assert Keys(r) == [d[0].0] + Keys(rest);
      forall i | 0 <= i < |rest| ensures rest[i].0 != d[0].0 {
        if i < |d[1..]| && d[1..][i].0 != k {
          assert rest[i] == d[i + 1];
        } else {
          assert Keys(rest)[i] == k;
        }
      }
      r
  }

  /** Assigning stores `v` under `k`, adds `k` to the keys and leaves every other key's value alone. */
  lemma PutGet<K, V>(d: Dict<K, V>, k: K, v: V, k': K, default: V)
    requires WellFormed(d)
    ensures HasKey(Put(d, k, v), k') <==> HasKey(d, k') || k' == k
    ensures Get(Put(d, k, v), k', default) == if k' == k then v else Get(d, k', default)
  {
    var r := Put(d, k, v);
    var kr, kd := Keys(r), Keys(d);
    if HasKey(r, k') {
      var i :| 0 <= i < |r| && r[i].0 == k';
      assert kr[i] == k';
      if k' != k {
        if HasKey(d, k) || i < |d| { assert kd[i] == k'; }
      }
    }
    if HasKey(d, k') {
      var i :| 0 <= i < |d| && d[i].0 == k';
      assert kd[i] == k';
      assert kr[i] == k';
    }
    if k' == k {
      if HasKey(d, k) {
        var i :| 0 <= i < |d| && d[i].0 == k;
        assert kr[i] == k;
      } else {
        assert kr[|d|] == k;
      }
    }
  }

  /** `set(d)`: the keys as a set. */
  function KeySet<K, V>(d: Dict<K, V>): set<K> {
    set i | 0 <= i < |d| :: d[i].0
  }

  /** A dict has exactly as many entries as distinct keys (`len(d) == len(set(d))`). */
  lemma {:induction false} KeySetSize<K, V>(d: Dict<K, V>)
    requires WellFormed(d)
    ensures |KeySet(d)| == |d|
    ensures forall k :: k in KeySet(d) <==> HasKey(d, k)
  {
    if d != [] {
      var rest := d[1..];
      assert WellFormed(rest) by {
        forall i, j | 0 <= i < j < |rest| ensures rest[i].0 != rest[j].0 {
          assert rest[i] == d[i + 1] && rest[j] == d[j + 1];
        }
      }
      KeySetSize(rest);
      assert KeySet(d) == {d[0].0} + KeySet(rest) by {
        forall k | k in KeySet(d) ensures k in {d[0].0} + KeySet(rest) {
          var i :| 0 <= i < |d| && d[i].0 == k;
          if i > 0 { assert rest[i - 1].0 == k; }
        }
        forall k | k in KeySet(rest) ensures k in KeySet(d) {
          var i :| 0 <= i < |rest| && rest[i].0 == k;
          assert d[i + 1].0 == k;
        }
      }
      assert d[0].0 !in KeySet(rest) by {
        forall i | 0 <= i < |rest| ensures rest[i].0 != d[0].0 {
          assert rest[i] == d[i + 1];
        }
      }
      forall k ensures k in KeySet(d) <==> HasKey(d, k) {
        HasKeyCons(d, k);
      }
    }
  }
}
