/** Python's `sorted(xs, key=k, reverse=True)` and `xs.sort(key=k,
    reverse=True)`: a stable sort on a numeric key, largest first. */
module Sorting {

  /** Inserts `x` after every element whose key is at least `key(x)`. */
  function InsertDesc<T>(s: seq<T>, x: T, key: T -> real): (r: seq<T>)
    ensures |r| == |s| + 1
    ensures multiset(r) == multiset(s) + multiset{x}
  {
    if s == [] then [x]
    else if key(s[0]) < key(x) then [x] + s
    else
      assert s == [s[0]] + s[1..];
      [s[0]] + InsertDesc(s[1..], x, key)
  }

  function SortDesc<T>(s: seq<T>, key: T -> real): (r: seq<T>)
    ensures |r| == |s|
    ensures multiset(r) == multiset(s)
  {
    if s == [] then []
    else
      assert s == s[..|s| - 1] + [s[|s| - 1]];
      InsertDesc(SortDesc(s[..|s| - 1], key), s[|s| - 1], key)
  }

  predicate SortedDesc<T>(s: seq<T>, key: T -> real) {
    forall i, j :: 0 <= i < j < |s| ==> key(s[i]) >= key(s[j])
  }

  /** The elements whose key is `c`, in order. */
  function WithKey<T>(s: seq<T>, key: T -> real, c: real): (r: seq<T>)
    ensures |r| <= |s|
  {
    if s == [] then []
    else (if key(s[0]) == c then [s[0]] else []) + WithKey(s[1..], key, c)
  }

  lemma {:induction false} InsertDescSorted<T>(s: seq<T>, x: T, key: T -> real)
    requires SortedDesc(s, key)
    ensures SortedDesc(InsertDesc(s, x, key), key)
  {
    if s != [] && key(s[0]) >= key(x) {
      SortedTail(s, key);
      InsertDescSorted(s[1..], x, key);
      var r := InsertDesc(s, x, key);
      var t := InsertDesc(s[1..], x, key);
      InsertDescBounded(s[1..], x, key, key(s[0]));
      assert r == [s[0]] + t;
      forall i, j | 0 <= i < j < |r| ensures key(r[i]) >= key(r[j]) {
        assert r[j] == t[j - 1];
        if i > 0 {
          assert r[i] == t[i - 1];
        }
      }
    }
  }

  /** The tail of a sorted sequence is sorted, and no key in it exceeds
      the head's. */
  lemma SortedTail<T>(s: seq<T>, key: T -> real)
    requires s != [] && SortedDesc(s, key)
    ensures SortedDesc(s[1..], key)
    ensures forall i :: 0 <= i < |s[1..]| ==> key(s[1..][i]) <= key(s[0])
  {
    assert forall i :: 0 <= i < |s[1..]| ==> s[1..][i] == s[i + 1];
  }

  /** Inserting never brings in a key above a bound of the input and `x`. */
  lemma {:induction false} InsertDescBounded<T>(s: seq<T>, x: T, key: T -> real, b: real)
    requires forall i :: 0 <= i < |s| ==> key(s[i]) <= b
    requires key(x) <= b
    ensures forall i :: 0 <= i < |InsertDesc(s, x, key)| ==> key(InsertDesc(s, x, key)[i]) <= b
  {
    if s != [] && key(s[0]) >= key(x) {
      assert forall i :: 0 <= i < |s[1..]| ==> s[1..][i] == s[i + 1];
      InsertDescBounded(s[1..], x, key, b);
      var t := InsertDesc(s[1..], x, key);
      assert InsertDesc(s, x, key) == [s[0]] + t;
    }
  }

  /** The sort puts larger keys first. */
  lemma {:induction false} SortDescSorted<T>(s: seq<T>, key: T -> real)
    ensures SortedDesc(SortDesc(s, key), key)
  {
    if s != [] {
      SortDescSorted(s[..|s| - 1], key);
      InsertDescSorted(SortDesc(s[..|s| - 1], key), s[|s| - 1], key);
    }
  }

  lemma {:induction false} WithKeyAppend<T>(a: seq<T>, b: seq<T>, key: T -> real, c: real)
    ensures WithKey(a + b, key, c) == WithKey(a, key, c) + WithKey(b, key, c)
  {
    if a == [] {
      assert a + b == b;
    } else {
      var h := if key(a[0]) == c then [a[0]] else [];
      assert (a + b)[0] == a[0];
      assert (a + b)[1..] == a[1..] + b;
      assert WithKey(a + b, key, c) == h + WithKey(a[1..] + b, key, c);
      assert WithKey(a, key, c) == h + WithKey(a[1..], key, c);
      WithKeyAppend(a[1..], b, key, c);
    }
  }

  lemma {:induction false} InsertDescWithKey<T>(s: seq<T>, x: T, key: T -> real, c: real)
    requires SortedDesc(s, key)
    ensures WithKey(InsertDesc(s, x, key), key, c) == WithKey(s, key, c) + WithKey([x], key, c)
  {
    WithKeyCons(x, [], key, c);
    if s == [] {
      assert InsertDesc(s, x, key) == [x];
    } else if key(s[0]) < key(x) {
      InsertFirstWithKey(s, x, key, c);
    } else {
      SortedTail(s, key);
      InsertDescWithKey(s[1..], x, key, c);
      InsertLaterWithKey(s, x, key, c);
    }
  }

  /** `x` goes in front: every key after it is at most the head's, below
      `key(x)`. */
  lemma InsertFirstWithKey<T>(s: seq<T>, x: T, key: T -> real, c: real)
    requires SortedDesc(s, key) && s != [] && key(s[0]) < key(x)
    ensures WithKey(InsertDesc(s, x, key), key, c) == WithKey(s, key, c) + WithKey([x], key, c)
  {
    WithKeyCons(x, [], key, c);
    assert InsertDesc(s, x, key) == [x] + s;
    WithKeyCons(x, s, key, c);
    if key(x) == c {
      assert forall i :: 0 <= i < |s| ==> key(s[i]) <= key(s[0]);
      NoneWithKey(s, key, c);
    }
  }

  /** `x` goes after the head: the head's contribution comes first on both
      sides. */
  lemma InsertLaterWithKey<T>(s: seq<T>, x: T, key: T -> real, c: real)
    requires s != [] && key(s[0]) >= key(x)
    requires WithKey(InsertDesc(s[1..], x, key), key, c) == WithKey(s[1..], key, c) + WithKey([x], key, c)
    ensures WithKey(InsertDesc(s, x, key), key, c) == WithKey(s, key, c) + WithKey([x], key, c)
  {
    var t := InsertDesc(s[1..], x, key);
    assert InsertDesc(s, x, key) == [s[0]] + t;
    WithKeyCons(s[0], t, key, c);
    assert s == [s[0]] + s[1..];
    WithKeyCons(s[0], s[1..], key, c);
    ConcatAssoc(if key(s[0]) == c then [s[0]] else [], WithKey(s[1..], key, c), WithKey([x], key, c));
  }

  lemma ConcatAssoc<T>(a: seq<T>, b: seq<T>, c: seq<T>)
    ensures a + (b + c) == (a + b) + c
  {
  }

  lemma WithKeyCons<T>(h: T, t: seq<T>, key: T -> real, c: real)
    ensures WithKey([h] + t, key, c) == (if key(h) == c then [h] else []) + WithKey(t, key, c)
  {
    assert ([h] + t)[0] == h;
    assert ([h] + t)[1..] == t;
  }

  lemma {:induction false} NoneWithKey<T>(s: seq<T>, key: T -> real, c: real)
    requires forall i :: 0 <= i < |s| ==> key(s[i]) < c
    ensures WithKey(s, key, c) == []
  {
    if s != [] {
      NoneWithKey(s[1..], key, c);
    }
  }

  /** The sort is stable: elements with the same key keep their order. */
  lemma {:induction false} SortDescStable<T>(s: seq<T>, key: T -> real, c: real)
    ensures WithKey(SortDesc(s, key), key, c) == WithKey(s, key, c)
  {
    if s != [] {
      var p := s[..|s| - 1];
      SortDescStable(p, key, c);
      SortDescSorted(p, key);
      InsertDescWithKey(SortDesc(p, key), s[|s| - 1], key, c);
      assert s == p + [s[|s| - 1]];
      WithKeyAppend(p, [s[|s| - 1]], key, c);
    }
  }
}
