/**
  `sorted(items, key=..., reverse=True)[:top_n]`: a stable sort on a
  descending integer key followed by a prefix.  Python keeps equal keys in
  their original order even with `reverse=True`, so ties are ranked by
  position in the input (for dict items, by insertion order).
 */
module Ranking {

  /** The key never increases from one position to a later one. */
  ghost predicate NonIncreasing<T>(s: seq<T>, key: T -> int) {
    forall i, j :: 0 <= i < j < |s| ==> key(s[i]) >= key(s[j])
  }

  /** The elements of `s` whose key is `c`, in their order in `s`. */
  function WithKey<T>(s: seq<T>, key: T -> int, c: int): (r: seq<T>)
    ensures |r| <= |s|
  {
    if s == [] then []
    else (if key(s[0]) == c then [s[0]] else []) + WithKey(s[1..], key, c)
  }

  lemma {:induction false} WithKeyAppend<T>(a: seq<T>, b: seq<T>, key: T -> int, c: int)
    ensures WithKey(a + b, key, c) == WithKey(a, key, c) + WithKey(b, key, c)
  {
    if a == [] {
      assert a + b == b;
    } else {
      var ab := a + b;
      assert ab[0] == a[0] && ab[1..] == a[1..] + b;
      WithKeyAppend(a[1..], b, key, c);
      var h := if key(a[0]) == c then [a[0]] else [];
      calc {
        WithKey(ab, key, c);
        h + WithKey(a[1..] + b, key, c);
        h + (WithKey(a[1..], key, c) + WithKey(b, key, c));
        (h + WithKey(a[1..], key, c)) + WithKey(b, key, c);
      }
    }
  }

  /** Puts `x` in front of the first element whose key is not larger. */
  function Insert<T>(x: T, s: seq<T>, key: T -> int): (r: seq<T>)
    ensures |r| == |s| + 1
  {
    if s == [] || key(s[0]) <= key(x) then [x] + s
    else [s[0]] + Insert(x, s[1..], key)
  }

  function SortDescending<T>(s: seq<T>, key: T -> int): (r: seq<T>)
    ensures |r| == |s|
  {
    if s == [] then [] else Insert(s[0], SortDescending(s[1..], key), key)
  }

  lemma {:induction false} InsertPermutes<T>(x: T, s: seq<T>, key: T -> int)
    ensures multiset(Insert(x, s, key)) == multiset([x] + s)
  {
    if s != [] && key(s[0]) > key(x) {
      InsertPermutes(x, s[1..], key);
      assert s == [s[0]] + s[1..];
    }
  }

  /** Everything in `t` has a key no larger than `x`'s, so `[x] + t` stays ordered. */
  lemma ConsOrdered<T>(x: T, t: seq<T>, key: T -> int)
    requires NonIncreasing(t, key)
    requires forall y :: y in t ==> key(y) <= key(x)
    ensures NonIncreasing([x] + t, key)
  {
    var r := [x] + t;
    forall i, j | 0 <= i < j < |r| ensures key(r[i]) >= key(r[j]) {
      assert r[j] == t[j - 1];
      if i > 0 { assert r[i] == t[i - 1]; }
    }
  }

  lemma {:induction false} InsertOrdered<T>(x: T, s: seq<T>, key: T -> int)
    requires NonIncreasing(s, key)
    ensures NonIncreasing(Insert(x, s, key), key)
  {
    if s == [] || key(s[0]) <= key(x) {
      forall y | y in s ensures key(y) <= key(x) {
        var j :| 0 <= j < |s| && s[j] == y;
        assert key(s[0]) >= key(s[j]);
      }
      ConsOrdered(x, s, key);
    } else {
      var t := Insert(x, s[1..], key);
      assert NonIncreasing(s[1..], key) by {
        forall i, j | 0 <= i < j < |s[1..]| ensures key(s[1..][i]) >= key(s[1..][j]) {
          assert s[1..][i] == s[i + 1] && s[1..][j] == s[j + 1];
        }
      }
      InsertOrdered(x, s[1..], key);
      InsertPermutes(x, s[1..], key);
      forall y | y in t ensures key(y) <= key(s[0]) {
        assert y in multiset([x] + s[1..]);
        assert y == x || y in s[1..];
        if y != x {
          var j :| 0 <= j < |s[1..]| && s[1..][j] == y;
          assert s[j + 1] == y;
        }
      }
      ConsOrdered(s[0], t, key);
    }
  }

  lemma {:induction false} InsertStable<T>(x: T, s: seq<T>, key: T -> int, c: int)
    ensures WithKey(Insert(x, s, key), key, c) == WithKey([x] + s, key, c)
  {
    if s != [] && key(s[0]) > key(x) {
      var t := Insert(x, s[1..], key);
      InsertStable(x, s[1..], key, c);
      WithKeyAppend([s[0]], t, key, c);
      WithKeyAppend([x], s[1..], key, c);
      WithKeyAppend([s[0]], s[1..], key, c);
      WithKeyAppend([x], s, key, c);
      assert s == [s[0]] + s[1..];
      assert key(s[0]) == c ==> key(x) != c;
    }
  }

  /**
    The sort returns a permutation of its input, ordered by non-increasing
    key, in which the elements sharing a key keep their relative input
    order (stability).
   */
  lemma {:induction false} SortCorrect<T>(s: seq<T>, key: T -> int)
    ensures NonIncreasing(SortDescending(s, key), key)
    ensures multiset(SortDescending(s, key)) == multiset(s)
  {
    if s != [] {
      var t := SortDescending(s[1..], key);
      SortCorrect(s[1..], key);
      InsertOrdered(s[0], t, key);
      InsertPermutes(s[0], t, key);
      assert s == [s[0]] + s[1..];
    }
  }

  lemma {:induction false} SortStable<T>(s: seq<T>, key: T -> int, c: int)
    ensures WithKey(SortDescending(s, key), key, c) == WithKey(s, key, c)
  {
    if s != [] {
      var t := SortDescending(s[1..], key);
      SortStable(s[1..], key, c);
      assert s == [s[0]] + s[1..];
      InsertStable(s[0], t, key, c);
      WithKeyAppend([s[0]], t, key, c);
      WithKeyAppend([s[0]], s[1..], key, c);
    }
  }

  /** In a non-increasing sequence, nothing past the first `k` entries has a larger key than any of them. */
  lemma PrefixDominates<T>(sorted: seq<T>, key: T -> int, k: nat)
    requires k <= |sorted| && NonIncreasing(sorted, key)
    ensures NonIncreasing(sorted[..k], key)
    ensures multiset(sorted[..k]) <= multiset(sorted)
    ensures forall i, x :: 0 <= i < k && x in multiset(sorted) - multiset(sorted[..k]) ==> key(x) <= key(sorted[i])
  {
    assert sorted == sorted[..k] + sorted[k..];
    assert multiset(sorted) == multiset(sorted[..k]) + multiset(sorted[k..]);
    forall i, j | 0 <= i < j < k ensures key(sorted[..k][i]) >= key(sorted[..k][j]) {
      assert sorted[..k][i] == sorted[i] && sorted[..k][j] == sorted[j];
    }
    forall i, x | 0 <= i < k && x in multiset(sorted) - multiset(sorted[..k]) ensures key(x) <= key(sorted[i]) {
      assert multiset(sorted) == multiset(sorted[..k]) + multiset(sorted[k..]);
      assert x in sorted[k..];
      var j :| 0 <= j < |sorted[k..]| && sorted[k..][j] == x;
      assert sorted[k + j] == x;
    }
  }

  /**
    The first `n` entries of the ranking (`sorted(...)[:n]`): the largest
    keys, and among equal keys the earliest in `s`.
   */
  function TopN<T>(s: seq<T>, key: T -> int, n: nat): (r: seq<T>)
    ensures |r| == if n < |s| then n else |s|
    ensures multiset(r) <= multiset(s)
    ensures NonIncreasing(r, key)
    ensures forall i, x :: 0 <= i < |r| && x in multiset(s) - multiset(r) ==> key(x) <= key(r[i])
  {
    var sorted := SortDescending(s, key);
    SortCorrect(s, key);
    var k := if n < |s| then n else |s|;
    PrefixDominates(sorted, key, k);
    sorted[..k]
  }

  /** Entries with equal keys appear in the ranking in their order in `s` (a stable sort). */
  lemma TopNKeepsTieOrder<T>(s: seq<T>, key: T -> int, n: nat, c: int)
    ensures WithKey(TopN(s, key, n), key, c) <= WithKey(s, key, c)
  {
    var sorted := SortDescending(s, key);
    SortStable(s, key, c);
    var k := if n < |s| then n else |s|;
    assert TopN(s, key, n) == sorted[..k];
    assert sorted == sorted[..k] + sorted[k..];
    WithKeyAppend(sorted[..k], sorted[k..], key, c);
  }
}
