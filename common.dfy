/** Value types and string helpers shared by every module of the model:
    optional values, Python truthiness, insertion-ordered dictionaries
    (association lists, as Python dicts iterate in insertion order),
    a JSON value type and the handful of `str` methods the crawler uses. */
module Common {

  datatype Option<+T> = None | Some(value: T) {
    function GetOr(default: T): T {
      match this
      case Some(v) => v
      case None => default
    }
  }

  /** The outcome of a step that may raise: `Err` carries a short reason. */
  datatype Result<+T> = Ok(value: T) | Err(reason: string)

  // ---------------------------------------------------------------------------
  // Python truthiness and `or` on optional strings (None and "" are falsy)

  predicate Truthy(o: Option<string>) {
    o.Some? && o.value != ""
  }

  /** Python `a or b`: the first operand when it is truthy, else the second. */
  function Or(a: Option<string>, b: Option<string>): (r: Option<string>)
    ensures Truthy(a) ==> r == a
    ensures !Truthy(a) ==> r == b
  {
    if Truthy(a) then a else b
  }

  /** Python `o or ""`. */
  function OrEmpty(o: Option<string>): (r: string)
    ensures Truthy(o) ==> r == o.value
    ensures !Truthy(o) ==> r == ""
  {
    if Truthy(o) then o.value else ""
  }

  // ---------------------------------------------------------------------------
  // Characters

  predicate IsDigit(c: char) { '0' <= c <= '9' }

  predicate AllDigits(s: string) { forall i :: 0 <= i < |s| ==> IsDigit(s[i]) }

  /** The whitespace Python's `str.strip()` and `\s` remove (ASCII part). */
  predicate IsSpace(c: char) {
    c == ' ' || c == '\t' || c == '\n' || c == '\r' || c == '\U{B}' || c == '\U{C}'
  }

  /** Capital letters of the Vietnamese alphabet outside ASCII: the
      Latin-1 capitals, Ă Đ Ĩ Ũ Ơ Ư, and the capitals with tone marks
      (U+1EA0 to U+1EF8, even code points). */
  predicate IsViUpper(c: char) {
    ('\U{C0}' <= c <= '\U{DE}' && c != '\U{D7}') ||
    c == '\U{102}' || c == '\U{110}' || c == '\U{128}' || c == '\U{168}' || c == '\U{1A0}' || c == '\U{1AF}' ||
    ('\U{1EA0}' <= c <= '\U{1EF8}' && c as int % 2 == 0)
  }

  /** Letters of the Vietnamese alphabet outside ASCII, both cases. */
  predicate IsViLetter(c: char) {
    ('\U{C0}' <= c <= '\U{FF}' && c != '\U{D7}' && c != '\U{F7}') ||
    ('\U{102}' <= c <= '\U{103}') || ('\U{110}' <= c <= '\U{111}') || ('\U{128}' <= c <= '\U{129}') ||
    ('\U{168}' <= c <= '\U{169}') || ('\U{1A0}' <= c <= '\U{1A1}') || ('\U{1AF}' <= c <= '\U{1B0}') ||
    ('\U{1EA0}' <= c <= '\U{1EF9}')
  }

  /** Python's `\w` for the characters this system meets: ASCII letters and
      digits, '_', and the Vietnamese letters. */
  predicate IsWordChar(c: char) {
    IsDigit(c) || 'a' <= c <= 'z' || 'A' <= c <= 'Z' || c == '_' || IsViLetter(c)
  }

  /** Python `str.lower()` on one character, for ASCII and the Vietnamese
      alphabet; every other character is kept. */
  function LowerChar(c: char): (r: char)
    ensures 'A' <= c <= 'Z' ==> r as int == c as int + 32
    ensures IsViUpper(c) ==> r != c && IsViLetter(r)
    ensures !('A' <= c <= 'Z') && !IsViUpper(c) ==> r == c
    ensures !('A' <= r <= 'Z') && !IsViUpper(r)
  {
    if 'A' <= c <= 'Z' then (c as int + 32) as char
    else if '\U{C0}' <= c <= '\U{DE}' && c != '\U{D7}' then (c as int + 32) as char
    else if c == '\U{1AF}' then '\U{1B0}'
    else if IsViUpper(c) then (c as int + 1) as char
    else c
  }

  function Lower(s: string): (r: string)
    ensures |r| == |s|
    ensures forall i :: 0 <= i < |s| ==> r[i] == LowerChar(s[i])
  {
    seq(|s|, i requires 0 <= i < |s| => LowerChar(s[i]))
  }

  // ---------------------------------------------------------------------------
  // Substrings

  predicate StartsWith(s: string, p: string) {
    |p| <= |s| && s[..|p|] == p
  }

  predicate EndsWith(s: string, p: string) {
    |p| <= |s| && s[|s| - |p|..] == p
  }

  predicate OccursAt(s: string, sub: string, i: int) {
    0 <= i && i + |sub| <= |s| && s[i..i + |sub|] == sub
  }

  /** Python `sub in s`. */
  predicate Contains(s: string, sub: string) {
    exists i :: 0 <= i <= |s| - |sub| && OccursAt(s, sub, i)
  }

  lemma ContainsWitness(s: string, sub: string, i: int)
    requires OccursAt(s, sub, i)
    ensures Contains(s, sub)
  {
  }

  lemma ContainsInLonger(a: string, b: string, sub: string)
    requires Contains(a, sub)
    ensures Contains(a + b, sub) && Contains(b + a, sub)
  {
    var i :| 0 <= i <= |a| - |sub| && OccursAt(a, sub, i);
    assert (a + b)[i..i + |sub|] == a[i..i + |sub|];
    assert OccursAt(a + b, sub, i);
    assert (b + a)[|b| + i..|b| + i + |sub|] == a[i..i + |sub|];
    assert OccursAt(b + a, sub, |b| + i);
  }

  /** Occurrences of one character. */
  function CountChar(s: string, c: char): (n: nat)
    ensures n <= |s|
    ensures n == 0 <==> (forall i :: 0 <= i < |s| ==> s[i] != c)
  {
    if s == [] then 0 else (if s[0] == c then 1 else 0) + CountChar(s[1..], c)
  }

  /** Python `s[:n]` for a non-negative bound. */
  function Take<T>(s: seq<T>, n: nat): (r: seq<T>)
    ensures |r| == if n < |s| then n else |s|
    ensures r == s[..|r|]
  {
    if n < |s| then s[..n] else s
  }

  /** Python `str.replace(pat, rep)` for a one-character `pat`. */
  function ReplaceChar(s: string, pat: char, rep: char): (r: string)
    ensures |r| == |s|
    ensures forall i :: 0 <= i < |s| ==> r[i] == if s[i] == pat then rep else s[i]
  {
    seq(|s|, i requires 0 <= i < |s| => if s[i] == pat then rep else s[i])
  }

  /** Python `str.replace(pat, rep)`: left to right, non-overlapping. */
  function ReplaceAll(s: string, pat: string, rep: string): string
    requires pat != []
    decreases |s|
  {
    if |s| < |pat| then s
    else if s[..|pat|] == pat then rep + ReplaceAll(s[|pat|..], pat, rep)
    else [s[0]] + ReplaceAll(s[1..], pat, rep)
  }

  /** Python's and JavaScript's `<` on strings: lexicographic by character. */
  predicate StrLt(a: string, b: string) {
    if a == [] then b != []
    else if b == [] then false
    else if a[0] != b[0] then a[0] < b[0]
    else StrLt(a[1..], b[1..])
  }

  /** Lexicographic order on two equal-length heads decides first. */
  lemma {:induction false} StrLtConcat(p: string, q: string, r: string, t: string)
    requires |p| == |q|
    ensures StrLt(p + r, q + t) <==> StrLt(p, q) || (p == q && StrLt(r, t))
  {
    if p != [] {
      assert (p + r)[1..] == p[1..] + r;
      assert (q + t)[1..] == q[1..] + t;
      if p[0] == q[0] {
        StrLtConcat(p[1..], q[1..], r, t);
        assert p[1..] == q[1..] ==> p == q;
      }
    } else {
      assert p + r == r && q + t == t;
    }
  }

  lemma {:induction false} StrLtIrreflexive(a: string)
    ensures !StrLt(a, a)
  {
    if a != [] {
      StrLtIrreflexive(a[1..]);
    }
  }

  lemma {:induction false} StrLtTransitive(a: string, b: string, c: string)
    requires StrLt(a, b) && StrLt(b, c)
    ensures StrLt(a, c)
  {
    if a != [] && b != [] && c != [] && a[0] == b[0] && b[0] == c[0] {
      StrLtTransitive(a[1..], b[1..], c[1..]);
    }
  }

  /** Two different strings are ordered one way or the other. */
  lemma {:induction false} StrLtTotal(a: string, b: string)
    requires a != b
    ensures StrLt(a, b) || StrLt(b, a)
  {
    if a != [] && b != [] && a[0] == b[0] {
      assert a == [a[0]] + a[1..] && b == [b[0]] + b[1..];
      StrLtTotal(a[1..], b[1..]);
    }
  }

  // ---------------------------------------------------------------------------
  // Whitespace

  /** `re.sub(r"\s+", " ", s)`. */
  function CollapseSpaces(s: string): (r: string)
    ensures |r| <= |s|
    ensures forall i :: 0 <= i < |r| ==> (IsSpace(r[i]) ==> r[i] == ' ') && (r[i] != ' ' ==> r[i] in s)
    ensures forall i :: 0 <= i < |r| - 1 ==> !(r[i] == ' ' && r[i + 1] == ' ')
    ensures r != [] && s != [] ==> (r[0] == ' ' <==> IsSpace(s[0]))
    decreases |s|
  {
    if s == [] then []
    else if IsSpace(s[0]) then
      var rest := LStrip(s);
      LStripSuffix(s);
      var tail := CollapseSpaces(rest);
      assert rest == [] || !IsSpace(rest[0]);
      [' '] + tail
    else [s[0]] + CollapseSpaces(s[1..])
  }

  /** The first position at or after `k` that is not whitespace. */
  function SkipSpaces(s: string, k: nat): (r: nat)
    ensures k <= |s| ==> k <= r <= |s|
    ensures k > |s| ==> r == k
    ensures forall m :: k <= m < r ==> IsSpace(s[m])
    ensures r < |s| ==> !IsSpace(s[r])
    decreases |s| - k
  {
    if k < |s| && IsSpace(s[k]) then SkipSpaces(s, k + 1) else k
  }

  /** The first position at or after `k` that is not a digit. */
  function SkipDigits(s: string, k: nat): (r: nat)
    requires k <= |s|
    ensures k <= r <= |s|
    ensures forall m :: k <= m < r ==> IsDigit(s[m])
    ensures r < |s| ==> !IsDigit(s[r])
    decreases |s| - k
  {
    if k < |s| && IsDigit(s[k]) then SkipDigits(s, k + 1) else k
  }

  function LStrip(s: string): (r: string)
    ensures |r| <= |s|
    ensures r == [] || !IsSpace(r[0])
  {
    if s != [] && IsSpace(s[0]) then LStrip(s[1..]) else s
  }

  /** What `LStrip` leaves is a suffix of its input. */
  lemma {:induction false} LStripSuffix(s: string)
    ensures LStrip(s) == s[|s| - |LStrip(s)|..]
  {
    if s != [] && IsSpace(s[0]) {
      LStripSuffix(s[1..]);
    }
  }

  function RStrip(s: string): (r: string)
    ensures |r| <= |s|
    ensures r == [] || !IsSpace(r[|r| - 1])
  {
    if s != [] && IsSpace(s[|s| - 1]) then RStrip(s[..|s| - 1]) else s
  }

  /** What `RStrip` leaves is a prefix of its input. */
  lemma {:induction false} RStripPrefix(s: string)
    ensures RStrip(s) == s[..|RStrip(s)|]
  {
    if s != [] && IsSpace(s[|s| - 1]) {
      RStripPrefix(s[..|s| - 1]);
    }
  }

  /** Python `str.strip()`. */
  function Strip(s: string): (r: string)
    ensures |r| <= |s|
    ensures r == [] || (!IsSpace(r[0]) && !IsSpace(r[|r| - 1]))
  {
    var l := LStrip(s);
    RStripPrefix(l);
    RStrip(l)
  }

  /** `Strip(s)` is the run of `s` that starts where `LStrip` stopped. */
  lemma StripSlice(s: string)
    ensures var a := |s| - |LStrip(s)|;
            a + |Strip(s)| <= |s| && forall i :: 0 <= i < |Strip(s)| ==> Strip(s)[i] == s[a + i]
  {
    LStripSuffix(s);
    RStripPrefix(LStrip(s));
  }

  /** Python `str.split(sep)` for a one-character separator: always at least one part. */
  function Split(s: string, sep: char): (parts: seq<string>)
    ensures |parts| >= 1
    ensures forall k :: 0 <= k < |parts| ==> sep !in parts[k]
    ensures CountChar(s, sep) + 1 == |parts|
  {
    if s == [] then [""]
    else
      var tail := Split(s[1..], sep);
      if s[0] == sep then [""] + tail
      else [[s[0]] + tail[0]] + tail[1..]
  }

  /** A string without the separator is a single part. */
  lemma {:induction false} SplitNone(a: string, sep: char)
    requires sep !in a
    ensures Split(a, sep) == [a]
  {
    if a != [] {
      SplitNone(a[1..], sep);
      assert [a[0]] + a[1..] == a;
    }
  }

  /** Python `s.split(sep)[-1]`. */
  function LastPart(s: string, sep: char): (r: string)
    ensures sep !in r
  {
    var parts := Split(s, sep);
    parts[|parts| - 1]
  }

  /** `[f(x) for x in xs]`. */
  function MapSeq<A, B>(xs: seq<A>, f: A -> B): (r: seq<B>)
    ensures |r| == |xs|
    ensures forall i :: 0 <= i < |xs| ==> r[i] == f(xs[i])
  {
    seq(|xs|, i requires 0 <= i < |xs| => f(xs[i]))
  }

  /** A loop that appends `f(xs[i])` at step `i` builds `MapSeq`. */
  lemma MapSeqStep<A, B>(xs: seq<A>, f: A -> B, i: int)
    requires 0 <= i < |xs|
    ensures MapSeq(xs[..i + 1], f) == MapSeq(xs[..i], f) + [f(xs[i])]
  {
    var a := MapSeq(xs[..i + 1], f);
    var b := MapSeq(xs[..i], f);
    forall k | 0 <= k < i ensures a[k] == b[k] {
      assert xs[..i + 1][k] == xs[..i][k];
    }
    assert a == b + [a[i]];
  }

  // ---------------------------------------------------------------------------
  // Insertion-ordered dictionaries

  type Dict<V> = seq<(string, V)>

  function Keys<V>(d: Dict<V>): (ks: seq<string>)
    ensures |ks| == |d|
    ensures forall i :: 0 <= i < |d| ==> ks[i] == d[i].0
  {
    seq(|d|, i requires 0 <= i < |d| => d[i].0)
  }

  predicate DistinctKeys<V>(d: Dict<V>) {
    forall i, j :: 0 <= i < j < |d| ==> d[i].0 != d[j].0
  }

  predicate HasKey<V>(d: Dict<V>, k: string) {
    exists i :: 0 <= i < |d| && d[i].0 == k
  }

  /** Position of the first entry with key `k`, or -1 when there is none. */
  function IndexOfKey<V>(d: Dict<V>, k: string): (r: int)
    ensures -1 <= r < |d|
    ensures r >= 0 ==> d[r].0 == k && forall j :: 0 <= j < r ==> d[j].0 != k
    ensures r == -1 <==> !HasKey(d, k)
  {
    if d == [] then -1
    else if d[0].0 == k then 0
    else
      var r := IndexOfKey(d[1..], k);
      assert HasKey(d, k) ==> HasKey(d[1..], k) by {
        if HasKey(d, k) {
          var i :| 0 <= i < |d| && d[i].0 == k;
          assert d[1..][i - 1].0 == k;
        }
      }
      if r == -1 then -1 else r + 1
  }

  /** The first position holding a key is the one `IndexOfKey` finds. */
  lemma IndexOfKeyIs<V>(d: Dict<V>, k: string, j: int)
    requires 0 <= j < |d| && d[j].0 == k
    requires forall m :: 0 <= m < j ==> d[m].0 != k
    ensures IndexOfKey(d, k) == j
  {
    assert HasKey(d, k);
  }

  /** Python `d.get(k)`: the value of the first entry with that key. */
  function Get<V>(d: Dict<V>, k: string): (r: Option<V>)
    ensures r.None? <==> !HasKey(d, k)
    ensures r.Some? ==> exists i :: 0 <= i < |d| && d[i] == (k, r.value)
  {
    var i := IndexOfKey(d, k);
    if i < 0 then None else Some(d[i].1)
  }

  /** Python `d[k] = v`: an existing key keeps its position, a new key goes last. */
  function Put<V>(d: Dict<V>, k: string, v: V): (r: Dict<V>)
    ensures |r| == if HasKey(d, k) then |d| else |d| + 1
    ensures Keys(r) == if HasKey(d, k) then Keys(d) else Keys(d) + [k]
    ensures Get(r, k) == Some(v)
  {
    var i := IndexOfKey(d, k);
    if i < 0 then
      var r := d + [(k, v)];
      IndexOfKeyIs(r, k, |d|);
      assert Keys(r) == Keys(d) + [k];
      r
    else
      var r := d[i := (k, v)];
      IndexOfKeyIs(r, k, i);
      assert Keys(r) == Keys(d);
      r
  }

  lemma PutOthers<V>(d: Dict<V>, k: string, v: V, k': string)
    requires k' != k
    ensures Get(Put(d, k, v), k') == Get(d, k')
  {
    var i := IndexOfKey(d, k);
    if i < 0 {
      GetAgrees(d, d + [(k, v)], k');
    } else {
      GetAgrees(d, d[i := (k, v)], k');
    }
  }

  /** A dictionary that holds the same entries for `k'` at the same
      positions, and none after them, gives the same `Get`. */
  lemma GetAgrees<V>(d: Dict<V>, r: Dict<V>, k': string)
    requires |d| <= |r|
    requires forall m :: 0 <= m < |d| ==> (r[m].0 == k' <==> d[m].0 == k')
    requires forall m :: 0 <= m < |d| && d[m].0 == k' ==> r[m] == d[m]
    requires forall m :: |d| <= m < |r| ==> r[m].0 != k'
    ensures Get(r, k') == Get(d, k')
  {
    var j := IndexOfKey(d, k');
    if j >= 0 {
      IndexOfKeyIs(r, k', j);
    } else {
      assert !HasKey(r, k');
    }
  }

  lemma PutDistinct<V>(d: Dict<V>, k: string, v: V)
    requires DistinctKeys(d)
    ensures DistinctKeys(Put(d, k, v))
  {
    var r := Put(d, k, v);
    assert Keys(r) == if HasKey(d, k) then Keys(d) else Keys(d) + [k];
    forall i, j | 0 <= i < j < |r| ensures r[i].0 != r[j].0 {
      assert r[i].0 == Keys(r)[i] && r[j].0 == Keys(r)[j];
    }
  }

  /** Every entry of `Put(d, k, v)` is an entry of `d` or the new one. */
  lemma PutElements<V>(d: Dict<V>, k: string, v: V)
    ensures forall e :: e in Put(d, k, v) ==> e in d || e == (k, v)
  {
    var i := IndexOfKey(d, k);
    if i >= 0 {
      forall e | e in Put(d, k, v) ensures e in d || e == (k, v) {
        var j :| 0 <= j < |d| && Put(d, k, v)[j] == e;
        if j != i {
          assert e == d[j];
        }
      }
    }
  }

  /** `for k, v in pairs: d[k] = v`. */
  function PutAll<V>(d: Dict<V>, pairs: seq<(string, V)>): Dict<V>
  {
    if pairs == [] then d
    else Put(PutAll(d, pairs[..|pairs| - 1]), pairs[|pairs| - 1].0, pairs[|pairs| - 1].1)
  }

  /** After copying a dict with distinct keys into `d`, its keys hold its
      values and every other key keeps the value it had in `d`. */
  lemma {:induction false} PutAllGet<V>(d: Dict<V>, pairs: seq<(string, V)>, k: string)
    requires DistinctKeys(pairs)
    ensures Get(PutAll(d, pairs), k) == if HasKey(pairs, k) then Get(pairs, k) else Get(d, k)
  {
    if pairs != [] {
      var p := pairs[..|pairs| - 1];
      var e := pairs[|pairs| - 1];
      assert pairs == p + [e];
      assert DistinctKeys(p);
      PutAllGet(d, p, k);
      GetSnoc(p, e, k);
      HasKeySnoc(p, e, k);
      if e.0 == k {
        LastKeyNew(p, e);
      } else {
        PutOthers(PutAll(d, p), e.0, e.1, k);
      }
    }
  }

  lemma HasKeySnoc<V>(d: Dict<V>, e: (string, V), k: string)
    ensures HasKey(d + [e], k) <==> HasKey(d, k) || e.0 == k
  {
    var d' := d + [e];
    if HasKey(d', k) {
      var i :| 0 <= i < |d'| && d'[i].0 == k;
      if i < |d| {
        assert d[i] == d'[i];
      }
    }
    if HasKey(d, k) {
      var i :| 0 <= i < |d| && d[i].0 == k;
      assert d'[i] == d[i];
    }
    if e.0 == k {
      assert d'[|d|] == e;
    }
  }

  /** The last key of a dict with distinct keys is not among the others. */
  lemma LastKeyNew<V>(d: Dict<V>, e: (string, V))
    requires DistinctKeys(d + [e])
    ensures !HasKey(d, e.0)
  {
    var d' := d + [e];
    forall i | 0 <= i < |d| ensures d[i].0 != e.0 {
      assert d'[i] == d[i] && d'[|d|] == e;
    }
  }

  /** The position of the last element of `xs` that satisfies `p`, or -1
      when none does. */
  function LastWhere<T>(xs: seq<T>, p: T -> bool): (i: int)
    ensures -1 <= i < |xs|
    ensures i >= 0 ==> p(xs[i]) && forall j :: i < j < |xs| ==> !p(xs[j])
    ensures i < 0 ==> forall j :: 0 <= j < |xs| ==> !p(xs[j])
  {
    if xs == [] then -1
    else if p(xs[|xs| - 1]) then |xs| - 1
    else LastWhere(xs[..|xs| - 1], p)
  }

  /** Appending an element: it is the last one satisfying `p` if it does,
      else the last position stays where it was. */
  lemma LastWhereAppend<T>(xs: seq<T>, x: T, p: T -> bool)
    ensures LastWhere(xs + [x], p) == if p(x) then |xs| else LastWhere(xs, p)
  {
    assert (xs + [x])[..|xs|] == xs;
  }

  /** The value the last pair with key `k` carries, if any. */
  function LastValue<V>(pairs: seq<(string, V)>, k: string): (r: Option<V>)
    ensures r.Some? ==> (k, r.value) in pairs
    ensures r.None? ==> forall i :: 0 <= i < |pairs| ==> pairs[i].0 != k
  {
    if pairs == [] then None
    else if pairs[|pairs| - 1].0 == k then Some(pairs[|pairs| - 1].1)
    else LastValue(pairs[..|pairs| - 1], k)
  }

  /** `for k, v in pairs: d[k] = v` leaves each key holding the value of
      the last pair that wrote it, whether or not keys repeat. */
  lemma {:induction false} PutAllLastWins<V>(d: Dict<V>, pairs: seq<(string, V)>, k: string)
    ensures Get(PutAll(d, pairs), k) == if LastValue(pairs, k).Some? then LastValue(pairs, k) else Get(d, k)
  {
    if pairs != [] {
      var p := pairs[..|pairs| - 1];
      var e := pairs[|pairs| - 1];
      PutAllLastWins(d, p, k);
      if e.0 != k {
        PutOthers(PutAll(d, p), e.0, e.1, k);
      }
    }
  }

  /** Copying pairs into a dict with distinct keys keeps its keys distinct,
      and every entry comes from the dict or from the pairs. */
  lemma {:induction false} PutAllEntries<V>(d: Dict<V>, pairs: seq<(string, V)>)
    requires DistinctKeys(d)
    ensures DistinctKeys(PutAll(d, pairs))
    ensures forall e :: e in PutAll(d, pairs) ==> e in d || e in pairs
  {
    if pairs != [] {
      var p := pairs[..|pairs| - 1];
      var e := pairs[|pairs| - 1];
      PutAllEntries(d, p);
      PutDistinct(PutAll(d, p), e.0, e.1);
      PutElements(PutAll(d, p), e.0, e.1);
    }
  }

  /** Copying pairs with distinct keys into an empty dict gives those pairs. */
  lemma {:induction false} PutAllFresh<V>(pairs: seq<(string, V)>)
    requires DistinctKeys(pairs)
    ensures PutAll([], pairs) == pairs
  {
    if pairs != [] {
      var p := pairs[..|pairs| - 1];
      var e := pairs[|pairs| - 1];
      assert p + [e] == pairs;
      assert DistinctKeys(p);
      PutAllFresh(p);
      LastKeyNew(p, e);
      PutFresh(p, e.0, e.1);
    }
  }

  lemma PutFresh<V>(d: Dict<V>, k: string, v: V)
    requires !HasKey(d, k)
    ensures Put(d, k, v) == d + [(k, v)]
  {
  }

  /** Looking a key up after appending an entry. */
  lemma GetSnoc<V>(d: Dict<V>, e: (string, V), k: string)
    ensures Get(d + [e], k) == if HasKey(d, k) then Get(d, k) else if e.0 == k then Some(e.1) else None
  {
    var d' := d + [e];
    var i := IndexOfKey(d, k);
    if i >= 0 {
      IndexOfKeyIs(d', k, i);
    } else if e.0 == k {
      IndexOfKeyIs(d', k, |d|);
    } else {
      assert !HasKey(d', k) by {
        forall j | 0 <= j < |d'| ensures d'[j].0 != k {
          if j < |d| {
            assert d'[j] == d[j];
          }
        }
      }
    }
  }

  /** A dict comprehension `{k: v for k, v in d.items() if keep(k, v)}`. */
  function FilterDict<V(!new)>(d: Dict<V>, keep: (string, V) -> bool): (r: Dict<V>)
    ensures |r| <= |d|
    ensures forall e :: e in r <==> e in d && keep(e.0, e.1)
  {
    if d == [] then []
    else
      var e := d[|d| - 1];
      FilterDict(d[..|d| - 1], keep) + (if keep(e.0, e.1) then [e] else [])
  }

  /** On a dict with distinct keys, a key of the comprehension holds the
      original value exactly when that entry passes the filter. */
  lemma {:induction false} FilterDictGet<V(!new)>(d: Dict<V>, keep: (string, V) -> bool, k: string)
    requires DistinctKeys(d)
    ensures Get(FilterDict(d, keep), k) == if Get(d, k).Some? && keep(k, Get(d, k).value) then Get(d, k) else None
  {
    if d != [] {
      var p := d[..|d| - 1];
      var e := d[|d| - 1];
      assert d == p + [e];
      assert DistinctKeys(p);
      FilterDictGet(p, keep, k);
      GetSnoc(p, e, k);
      var fp := FilterDict(p, keep);
      if keep(e.0, e.1) {
        GetSnoc(fp, e, k);
        if e.0 == k {
          assert !HasKey(p, k);
        }
      } else {
        assert FilterDict(d, keep) == fp;
      }
    }
  }

  // ---------------------------------------------------------------------------
  // JSON values as Python's `json` module produces them (numbers as integers)

  datatype Json =
    | JNull
    | JBool(b: bool)
    | JNum(n: int)
    | JStr(s: string)
    | JArr(items: seq<Json>)
    | JObj(fields: Dict<Json>)

  /** Python truthiness of a JSON value. */
  predicate JTruthy(j: Json) {
    match j
    case JNull => false
    case JBool(b) => b
    case JNum(n) => n != 0
    case JStr(s) => s != ""
    case JArr(xs) => xs != []
    case JObj(fs) => fs != []
  }

  /** Python `a or b` on JSON values. */
  function JOr(a: Json, b: Json): (r: Json)
    ensures JTruthy(a) ==> r == a
    ensures !JTruthy(a) ==> r == b
  {
    if JTruthy(a) then a else b
  }

  /** Python `d.get(k, default)` on a dict of JSON values. */
  function JGet(d: Dict<Json>, k: string, default: Json): (r: Json)
    ensures HasKey(d, k) ==> Some(r) == Get(d, k)
    ensures !HasKey(d, k) ==> r == default
  {
    Get(d, k).GetOr(default)
  }

  // ---------------------------------------------------------------------------
  // Sums

  function Sum(xs: seq<int>): int {
    if xs == [] then 0 else xs[0] + Sum(xs[1..])
  }

  lemma {:induction false} SumAppend(xs: seq<int>, ys: seq<int>)
    ensures Sum(xs + ys) == Sum(xs) + Sum(ys)
  {
    if xs == [] {
      assert xs + ys == ys;
    } else {
      assert (xs + ys)[1..] == xs[1..] + ys;
      SumAppend(xs[1..], ys);
    }
  }
}
