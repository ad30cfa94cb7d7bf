/** The extracted items both formula/parameter separators read: JSON objects
    whose fields may be missing.  `item.get(k, default)` is `GetOr`. */
module FormulaItems {
  import opened Common

  datatype FormulaItem = FormulaItem(
    name: Option<string>,
    formula: Option<string>,
    itemType: Option<string>,
    confidence: Option<real>,
    context: Option<string>)

  function FormulaText(item: FormulaItem): string { item.formula.GetOr("") }
  function TypeOf(item: FormulaItem): string { item.itemType.GetOr("") }

  /** The items a test keeps, in their order. */
  function Select(items: seq<FormulaItem>, keep: FormulaItem -> bool): (r: seq<FormulaItem>)
    ensures |r| <= |items|
  {
    if items == [] then []
    else
      var last := items[|items| - 1];
      Select(items[..|items| - 1], keep) + (if keep(last) then [last] else [])
  }

  /** How many items a test rejects. */
  function CountRejected(items: seq<FormulaItem>, keep: FormulaItem -> bool): nat {
    if items == [] then 0
    else CountRejected(items[..|items| - 1], keep) + (if keep(items[|items| - 1]) then 0 else 1)
  }

  /** What `convert` makes of the items a test rejects, in their order. */
  function Converted<P>(items: seq<FormulaItem>, keep: FormulaItem -> bool, convert: FormulaItem -> P): (ps: seq<P>)
  {
    if items == [] then []
    else
      var last := items[|items| - 1];
      Converted(items[..|items| - 1], keep, convert) + (if keep(last) then [] else [convert(last)])
  }

  /** A loop that appends `items[i]` at step `i` when the test keeps it
      builds `Select`. */
  lemma SelectStep(items: seq<FormulaItem>, keep: FormulaItem -> bool, i: int)
    requires 0 <= i < |items|
    ensures Select(items[..i + 1], keep) == Select(items[..i], keep) + (if keep(items[i]) then [items[i]] else [])
  {
    assert items[..i + 1][..i] == items[..i];
  }

  /** A loop that converts `items[i]` at step `i` when the test rejects it
      builds `Converted`. */
  lemma ConvertedStep<P>(items: seq<FormulaItem>, keep: FormulaItem -> bool, convert: FormulaItem -> P, i: int)
    requires 0 <= i < |items|
    ensures Converted(items[..i + 1], keep, convert)
            == Converted(items[..i], keep, convert) + (if keep(items[i]) then [] else [convert(items[i])])
  {
    assert items[..i + 1][..i] == items[..i];
  }

  /** One converted item per rejected item. */
  lemma {:induction false} ConvertedCount<P>(items: seq<FormulaItem>, keep: FormulaItem -> bool, convert: FormulaItem -> P)
    ensures |Converted(items, keep, convert)| == CountRejected(items, keep)
  {
    if items != [] {
      ConvertedCount(items[..|items| - 1], keep, convert);
    }
  }

  /** Kept and rejected items together are all the items. */
  lemma {:induction false} SelectCounts(items: seq<FormulaItem>, keep: FormulaItem -> bool)
    ensures |Select(items, keep)| + CountRejected(items, keep) == |items|
  {
    if items != [] {
      SelectCounts(items[..|items| - 1], keep);
    }
  }

  /** The kept items are exactly the items that pass the test. */
  lemma {:induction false} SelectMembers(items: seq<FormulaItem>, keep: FormulaItem -> bool)
    ensures forall x :: x in Select(items, keep) <==> x in items && keep(x)
  {
    if items != [] {
      var p := items[..|items| - 1];
      SelectMembers(p, keep);
      assert items == p + [items[|items| - 1]];
    }
  }

  // ---------------------------------------------------------------------------
  // Scanning helpers for the regular expressions the separators use

  predicate IsSep(c: char) { c == ':' || c == '=' }

  function FirstSep(s: string, i: nat): (r: int)
    ensures r == -1 || (i <= r < |s| && IsSep(s[r]))
    ensures r == -1 ==> forall m :: i <= m < |s| ==> !IsSep(s[m])
    ensures r >= 0 ==> forall m :: i <= m < r ==> !IsSep(s[m])
    decreases |s| - i
  {
    if i >= |s| then -1
    else if IsSep(s[i]) then i
    else FirstSep(s, i + 1)
  }

  function LineEnd(s: string, k: nat): (r: nat)
    requires k <= |s|
    ensures k <= r <= |s|
    ensures forall m :: k <= m < r ==> s[m] != '\n'
    decreases |s| - k
  {
    if k < |s| && s[k] != '\n' then LineEnd(s, k + 1) else k
  }

  lemma {:induction false} LineEndRun(s: string, k: nat)
    requires k <= |s| && forall m :: k <= m < |s| ==> s[m] != '\n'
    ensures LineEnd(s, k) == |s|
    decreases |s| - k
  {
    if k < |s| {
      LineEndRun(s, k + 1);
    }
  }

  lemma {:induction false} SkipDigitsRun(v: string, k: nat, n: nat)
    requires k + n <= |v| && forall m :: k <= m < k + n ==> IsDigit(v[m])
    requires k + n < |v| && !IsDigit(v[k + n])
    ensures SkipDigits(v, k) == k + n
    decreases n
  {
    if n > 0 {
      SkipDigitsRun(v, k + 1, n - 1);
    }
  }

  lemma {:induction false} FirstSepIs(s: string, i: nat, r: nat)
    requires i <= r < |s| && IsSep(s[r])
    requires forall m :: i <= m < r ==> !IsSep(s[m])
    ensures FirstSep(s, i) == r
    decreases r - i
  {
    if i < r {
      FirstSepIs(s, i + 1, r);
    }
  }
}
