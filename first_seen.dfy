/** Order-preserving de-duplication by key: one pass over a list with a
    `seen` set, appending an element only when its key is new.  The search
    parser dedups links and result items this way, and the crawler entry
    point dedups canonical URLs. */
module FirstSeen {

  /** The key of a list of strings deduplicated as they are. */
  function Identity(s: string): string { s }

  /** The keys of the elements of `xs`. */
  function KeysOf<T>(xs: seq<T>, key: T -> string): (ks: set<string>)
    ensures forall i :: 0 <= i < |xs| ==> key(xs[i]) in ks
    ensures forall k :: k in ks ==> exists i :: 0 <= i < |xs| && key(xs[i]) == k
  {
    if xs == [] then {}
    else
      var p := xs[..|xs| - 1];
      var ks := KeysOf(p, key) + {key(xs[|xs| - 1])};
      assert forall i :: 0 <= i < |p| ==> xs[i] == p[i];
      ks
  }

  /** `xs[j]` is the first element carrying its key. */
  predicate IsFirst<T>(xs: seq<T>, key: T -> string, j: int)
    requires 0 <= j < |xs|
  {
    forall i :: 0 <= i < j ==> key(xs[i]) != key(xs[j])
  }

  /** The elements the loop keeps. */
  function Dedup<T>(xs: seq<T>, key: T -> string): seq<T>
  {
    if xs == [] then []
    else
      var p := xs[..|xs| - 1];
      Dedup(p, key) + (if key(xs[|xs| - 1]) in KeysOf(p, key) then [] else [xs[|xs| - 1]])
  }

  /** The positions in `xs` of the elements the loop keeps. */
  function FirstIndices<T>(xs: seq<T>, key: T -> string): seq<int>
  {
    if xs == [] then []
    else
      var p := xs[..|xs| - 1];
      FirstIndices(p, key) + (if key(xs[|xs| - 1]) in KeysOf(p, key) then [] else [|xs| - 1])
  }

  /** The loop: `if key not in seen: seen.add(key); out.append(x)`. */
  method DedupLoop<T>(xs: seq<T>, key: T -> string) returns (r: seq<T>)
    ensures r == Dedup(xs, key)
  {
    var seen: set<string> := {};
    r := [];
    var i := 0;
    while i < |xs|
      invariant 0 <= i <= |xs|
      invariant seen == KeysOf(xs[..i], key)
      invariant r == Dedup(xs[..i], key)
    {
      assert xs[..i + 1][..i] == xs[..i];
      var k := key(xs[i]);
      if k !in seen {
        seen := seen + {k};
        r := r + [xs[i]];
      }
      i := i + 1;
    }
    assert xs[..i] == xs;
  }

  /** The kept elements are exactly the first occurrence of each key, in
      the order of the input. */
  lemma DedupFirstOccurrences<T>(xs: seq<T>, key: T -> string)
    ensures var r := Dedup(xs, key);
            var idx := FirstIndices(xs, key);
            && |idx| == |r|
            && (forall i :: 0 <= i < |idx| ==> 0 <= idx[i] < |xs| && r[i] == xs[idx[i]])
            && (forall i, j :: 0 <= i < j < |idx| ==> idx[i] < idx[j])
            && (forall j :: 0 <= j < |xs| ==> (j in idx <==> IsFirst(xs, key, j)))
  {
    DedupAtIndices(xs, key);
    IndicesIncrease(xs, key);
    IndicesAreFirsts(xs, key);
  }

  lemma {:induction false} DedupAtIndices<T>(xs: seq<T>, key: T -> string)
    ensures var r := Dedup(xs, key);
            var idx := FirstIndices(xs, key);
            && |idx| == |r|
            && (forall i :: 0 <= i < |idx| ==> 0 <= idx[i] < |xs| && r[i] == xs[idx[i]])
  {
    if xs != [] {
      var p := xs[..|xs| - 1];
      DedupAtIndices(p, key);
      var pidx := FirstIndices(p, key);
      forall i | 0 <= i < |pidx| ensures xs[pidx[i]] == p[pidx[i]] {
      }
    }
  }

  lemma {:induction false} IndicesIncrease<T>(xs: seq<T>, key: T -> string)
    ensures var idx := FirstIndices(xs, key);
            forall i, j :: 0 <= i < j < |idx| ==> idx[i] < idx[j]
  {
    if xs != [] {
      var p := xs[..|xs| - 1];
      IndicesIncrease(p, key);
      DedupAtIndices(p, key);
    }
  }

  lemma {:induction false} IndicesAreFirsts<T>(xs: seq<T>, key: T -> string)
    ensures var idx := FirstIndices(xs, key);
            forall j :: 0 <= j < |xs| ==> (j in idx <==> IsFirst(xs, key, j))
  {
    if xs != [] {
      var n := |xs| - 1;
      var p := xs[..n];
      IndicesAreFirsts(p, key);
      DedupAtIndices(p, key);
      var idx := FirstIndices(xs, key);
      var pidx := FirstIndices(p, key);
      forall j | 0 <= j < n
        ensures IsFirst(xs, key, j) <==> IsFirst(p, key, j)
      {
        assert forall i :: 0 <= i <= j ==> xs[i] == p[i];
      }
      assert IsFirst(xs, key, n) <==> key(xs[n]) !in KeysOf(p, key) by {
        if key(xs[n]) in KeysOf(p, key) {
          var i :| 0 <= i < |p| && key(p[i]) == key(xs[n]);
          assert xs[i] == p[i];
        } else {
          forall i | 0 <= i < n ensures key(xs[i]) != key(xs[n]) {
            assert xs[i] == p[i];
          }
        }
      }
      forall j | 0 <= j < |xs| ensures j in idx <==> IsFirst(xs, key, j) {
        if j < n {
          assert j in idx <==> j in pidx;
        }
      }
    }
  }

  /** No two kept elements share a key. */
  lemma DedupDistinctKeys<T>(xs: seq<T>, key: T -> string)
    ensures var r := Dedup(xs, key);
            forall i, j :: 0 <= i < j < |r| ==> key(r[i]) != key(r[j])
  {
    DedupFirstOccurrences(xs, key);
    var r := Dedup(xs, key);
    var idx := FirstIndices(xs, key);
    forall i, j | 0 <= i < j < |r| ensures key(r[i]) != key(r[j]) {
      assert idx[j] in idx;
      assert IsFirst(xs, key, idx[j]);
    }
  }

  /** Every kept element is an element of the input. */
  lemma DedupFromInput<T>(xs: seq<T>, key: T -> string)
    ensures forall x :: x in Dedup(xs, key) ==> x in xs
  {
    DedupAtIndices(xs, key);
  }

  /** Every key of the input is kept, and nothing else. */
  lemma DedupSameKeys<T>(xs: seq<T>, key: T -> string)
    ensures KeysOf(Dedup(xs, key), key) == KeysOf(xs, key)
  {
    DedupFirstOccurrences(xs, key);
    var r := Dedup(xs, key);
    var idx := FirstIndices(xs, key);
    forall k | k in KeysOf(xs, key) ensures k in KeysOf(r, key) {
      var j0 :| 0 <= j0 < |xs| && key(xs[j0]) == k;
      var j := FirstWithKey(xs, key, k, j0);
      assert IsFirst(xs, key, j);
      var i :| 0 <= i < |idx| && idx[i] == j;
      assert key(r[i]) == k;
    }
    forall k | k in KeysOf(r, key) ensures k in KeysOf(xs, key) {
      var i :| 0 <= i < |r| && key(r[i]) == k;
      assert key(xs[idx[i]]) == k;
    }
  }

  /** The first position whose key is `k`, given some position that has it. */
  lemma {:induction false} FirstWithKey<T>(xs: seq<T>, key: T -> string, k: string, j0: int) returns (j: int)
    requires 0 <= j0 < |xs| && key(xs[j0]) == k
    ensures 0 <= j <= j0 && key(xs[j]) == k
    ensures forall j' :: 0 <= j' < j ==> key(xs[j']) != k
    decreases j0
  {
    if exists j' :: 0 <= j' < j0 && key(xs[j']) == k {
      var j' :| 0 <= j' < j0 && key(xs[j']) == k;
      j := FirstWithKey(xs, key, k, j');
    } else {
      j := j0;
    }
  }
}
