/**
 * Python's `sorted(s, key = key, reverse = True)` followed by a prefix slice
 * `[:n]`, as used to rank the term table and the record table.
 */
module PySorted {

  predicate NonIncreasing<T>(s: seq<T>, key: T -> real)
  {
    forall i, j :: 0 <= i < j < |s| ==> key(s[j]) <= key(s[i])
  }

  /** The elements of `s` whose key is `v`, in their order in `s`. */
  function WithKey<T>(s: seq<T>, key: T -> real, v: real): seq<T>
  {
    if |s| == 0 then []
    else (if key(s[0]) == v then [s[0]] else []) + WithKey(s[1..], key, v)
  }

  /**
   * A stable ordering: for every key value, the elements carrying it appear
   * in the same relative order as in the input.
   */
  ghost predicate Stable<T>(r: seq<T>, s: seq<T>, key: T -> real)
  {
    forall v :: WithKey(r, key, v) == WithKey(s, key, v)
  }

  /** Insertion of `x` before the first element whose key does not exceed its own. */
  function Insert<T>(x: T, s: seq<T>, key: T -> real): (r: seq<T>)
    ensures |r| == |s| + 1
    ensures multiset(r) == multiset(s) + multiset{x}
    decreases |s|
  {
    if |s| == 0 || key(s[0]) <= key(x) then [x] + s
    else
      assert s == [s[0]] + s[1..];
      [s[0]] + Insert(x, s[1..], key)
  }

  lemma {:induction false} InsertNonIncreasing<T>(x: T, s: seq<T>, key: T -> real)
    requires NonIncreasing(s, key)
    ensures NonIncreasing(Insert(x, s, key), key)
    decreases |s|
  {
    if |s| > 0 && key(x) < key(s[0]) {
      var rest := Insert(x, s[1..], key);
      InsertNonIncreasing(x, s[1..], key);
      assert s == [s[0]] + s[1..];
      forall j | 0 <= j < |rest| ensures key(rest[j]) <= key(s[0]) {
        assert rest[j] in multiset(rest);
        if rest[j] != x {
          assert rest[j] in multiset(s[1..]);
          var k :| 0 <= k < |s[1..]| && s[1..][k] == rest[j];
          assert s[k + 1] == rest[j];
        }
      }
    }
  }

  /** The model of `sorted(s, key = key, reverse = True)`: insertion sort from the back. */
  function SortedDesc<T>(s: seq<T>, key: T -> real): (r: seq<T>)
    ensures |r| == |s|
    ensures multiset(r) == multiset(s)
    ensures NonIncreasing(r, key)
  {
    if |s| == 0 then []
    else
      assert s == [s[0]] + s[1..];
      InsertNonIncreasing(s[0], SortedDesc(s[1..], key), key);
      Insert(s[0], SortedDesc(s[1..], key), key)
  }

  lemma {:induction false} WithKeyAppend<T>(a: seq<T>, b: seq<T>, key: T -> real, v: real)
    ensures WithKey(a + b, key, v) == WithKey(a, key, v) + WithKey(b, key, v)
  {
    if |a| == 0 {
      assert a + b == b;
    } else {
      var h := if key(a[0]) == v then [a[0]] else [];
      assert (a + b)[0] == a[0];
      assert (a + b)[1..] == a[1..] + b;
      WithKeyAppend(a[1..], b, key, v);
      calc {
        WithKey(a + b, key, v);
        h + WithKey(a[1..] + b, key, v);
        h + (WithKey(a[1..], key, v) + WithKey(b, key, v));
        (h + WithKey(a[1..], key, v)) + WithKey(b, key, v);
      }
    }
  }

  /** Inserting keeps `x` ahead of every element with an equal key. */
  lemma {:induction false} InsertStable<T>(x: T, s: seq<T>, key: T -> real, v: real)
    ensures WithKey(Insert(x, s, key), key, v) == WithKey([x] + s, key, v)
    decreases |s|
  {
    if |s| > 0 && key(x) < key(s[0]) {
      var rest := Insert(x, s[1..], key);
      var hd := if key(s[0]) == v then [s[0]] else [];
      var hx := if key(x) == v then [x] else [];
      assert ([s[0]] + rest)[1..] == rest;
      assert ([x] + s)[1..] == s;
      assert ([x] + s[1..])[1..] == s[1..];
      calc {
        WithKey(Insert(x, s, key), key, v);
        hd + WithKey(rest, key, v);
        { InsertStable(x, s[1..], key, v); }
        hd + WithKey([x] + s[1..], key, v);
        hd + (hx + WithKey(s[1..], key, v));
        // at most one of hd, hx is non-empty, as key(x) < key(s[0])
        hx + (hd + WithKey(s[1..], key, v));
        hx + WithKey(s, key, v);
        WithKey([x] + s, key, v);
      }
    }
  }

  /** `sorted` is stable, also with `reverse = True`. */
  lemma {:induction false} SortedDescStable<T>(s: seq<T>, key: T -> real)
    ensures Stable(SortedDesc(s, key), s, key)
  {
    if |s| > 0 {
      SortedDescStable(s[1..], key);
      forall v ensures WithKey(SortedDesc(s, key), key, v) == WithKey(s, key, v) {
        InsertStable(s[0], SortedDesc(s[1..], key), key, v);
        WithKeyAppend([s[0]], SortedDesc(s[1..], key), key, v);
        WithKeyAppend([s[0]], s[1..], key, v);
        assert s == [s[0]] + s[1..];
      }
    }
  }

  /** `s[:n]` with Python's slice rules for a stop index `n`. */
  function Prefix<T>(s: seq<T>, n: int): (r: seq<T>)
    ensures r <= s
    ensures 0 <= n ==> |r| == (if n < |s| then n else |s|)
    ensures n < 0 ==> |r| == (if -n < |s| then |s| + n else 0)
  {
    if 0 <= n then s[..if n < |s| then n else |s|]
    else s[..if -n < |s| then |s| + n else 0]
  }

  lemma PrefixMultiset<T>(r: seq<T>, s: seq<T>)
    requires r <= s
    ensures multiset(r) <= multiset(s)
  {
    assert s == r + s[|r|..];
  }

  lemma PrefixNonIncreasing<T>(r: seq<T>, s: seq<T>, key: T -> real)
    requires r <= s && NonIncreasing(s, key)
    ensures NonIncreasing(r, key)
  {
    assert forall i :: 0 <= i < |r| ==> r[i] == s[i];
  }
}
