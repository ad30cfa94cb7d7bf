/** `compute_diff`, shared word for word by the v2 importer and the
    PostgreSQL store: the `doc_info` keys whose value changed, and the change
    in the number of related documents split into an added and a removed
    count.  Nothing changed gives no summary at all. */
module VersionDiff {
  import opened Common
  import opened Crawled

  datatype DiffSummary = DiffSummary(changedFields: seq<string>, relationsAdded: nat, relationsRemoved: nat)

  /** The keys of `newInfo`, in order, whose value differs from the value of
      that key in `oldInfo` (a key missing there counts as different). */
  function ChangedFields(oldInfo: Dict<string>, newInfo: Dict<string>): seq<string>
  {
    if newInfo == [] then []
    else
      var k := newInfo[|newInfo| - 1].0;
      var rest := ChangedFields(oldInfo, newInfo[..|newInfo| - 1]);
      if Get(oldInfo, k) != Get(newInfo, k) then rest + [k] else rest
  }

  /** The loop over `new_info` of lines 38-40. */
  method CollectChangedFields(oldInfo: Dict<string>, newInfo: Dict<string>) returns (changed: seq<string>)
    ensures changed == ChangedFields(oldInfo, newInfo)
  {
    changed := [];
    var i := 0;
    while i < |newInfo|
      invariant 0 <= i <= |newInfo|
      invariant changed == ChangedFields(oldInfo, newInfo[..i])
    {
      var key := newInfo[i].0;
      assert newInfo[..i + 1][..i] == newInfo[..i];
      GetPrefix(newInfo, i + 1, key);
      if Get(oldInfo, key) != Get(newInfo, key) {
        changed := changed + [key];
      }
      i := i + 1;
    }
    assert newInfo[..i] == newInfo;
  }

  /** A key present in a prefix has the same first value in the whole dict. */
  lemma GetPrefix(d: Dict<string>, n: nat, k: string)
    requires n <= |d| && HasKey(d[..n], k)
    ensures Get(d[..n], k) == Get(d, k)
  {
    var j := IndexOfKey(d[..n], k);
    IndexOfKeyIs(d, k, j);
  }

  /** A key is listed exactly when the new dict has it and its value differs. */
  lemma {:induction false} ChangedFieldsExact(oldInfo: Dict<string>, newInfo: Dict<string>, k: string)
    ensures k in ChangedFields(oldInfo, newInfo) <==> HasKey(newInfo, k) && Get(oldInfo, k) != Get(newInfo, k)
  {
    if newInfo != [] {
      var n := |newInfo| - 1;
      var p := newInfo[..n];
      var kl := newInfo[n].0;
      ChangedFieldsExact(oldInfo, p, k);
      HasKeyLast(newInfo, k);
      if HasKey(p, k) {
        GetPrefix(newInfo, n, k);
      }
      ChangedStep(k, kl, ChangedFields(oldInfo, p), ChangedFields(oldInfo, newInfo),
                  HasKey(p, k), HasKey(newInfo, k), Get(oldInfo, k) != Get(newInfo, k),
                  Get(oldInfo, k) != Get(p, k), Get(oldInfo, kl) != Get(newInfo, kl));
    }
  }

  lemma HasKeyLast(d: Dict<string>, k: string)
    requires d != []
    ensures HasKey(d, k) <==> HasKey(d[..|d| - 1], k) || d[|d| - 1].0 == k
  {
    var p := d[..|d| - 1];
    if HasKey(p, k) {
      var j :| 0 <= j < |p| && p[j].0 == k;
      assert d[j].0 == k;
    }
    if HasKey(d, k) && d[|d| - 1].0 != k {
      var j :| 0 <= j < |d| && d[j].0 == k;
      assert p[j].0 == k;
    }
  }

  /** One step of the listing, over the facts about the key that matter. */
  lemma ChangedStep(k: string, kl: string, rest: seq<string>, listed: seq<string>,
                    inPrefix: bool, inAll: bool, differs: bool, differedBefore: bool, lastDiffers: bool)
    requires listed == if lastDiffers then rest + [kl] else rest
    requires k in rest <==> inPrefix && differedBefore
    requires inAll <==> inPrefix || k == kl
    requires inPrefix ==> differedBefore == differs
    requires k == kl ==> lastDiffers == differs
    ensures k in listed <==> inAll && differs
  {
  }

  /** No more keys are listed than the new dict has entries. */
  lemma {:induction false} ChangedFieldsBound(oldInfo: Dict<string>, newInfo: Dict<string>)
    ensures |ChangedFields(oldInfo, newInfo)| <= |newInfo|
  {
    if newInfo != [] {
      ChangedFieldsBound(oldInfo, newInfo[..|newInfo| - 1]);
    }
  }

  function Max0(x: int): (r: nat)
    ensures r >= x && (r == 0 || r == x)
  {
    if x > 0 then x else 0
  }

  /** The summary of lines 33-49, from the old and new `doc_info` and
      relation groups. */
  function Diff(oldInfo: Dict<string>, oldRels: Dict<seq<Link>>, newInfo: Dict<string>, newRels: Dict<seq<Link>>)
    : Option<DiffSummary>
  {
    var changed := ChangedFields(oldInfo, newInfo);
    var oldTotal := RelationCount(oldRels);
    var newTotal := RelationCount(newRels);
    var d := DiffSummary(changed, Max0(newTotal - oldTotal), Max0(oldTotal - newTotal));
    if d.changedFields != [] || d.relationsAdded != 0 || d.relationsRemoved != 0 then Some(d) else None
  }

  /** `compute_diff` as the source writes it: the loop, then the totals. */
  method ComputeDiff(oldInfo: Dict<string>, oldRels: Dict<seq<Link>>, newInfo: Dict<string>, newRels: Dict<seq<Link>>)
    returns (r: Option<DiffSummary>)
    ensures r == Diff(oldInfo, oldRels, newInfo, newRels)
  {
    var changed := CollectChangedFields(oldInfo, newInfo);
    var oldTotal: int := RelationCount(oldRels);
    var newTotal: int := RelationCount(newRels);
    var added: nat := if newTotal - oldTotal > 0 then newTotal - oldTotal else 0;
    var removed: nat := if oldTotal - newTotal > 0 then oldTotal - newTotal else 0;
    if changed != [] || added != 0 || removed != 0 {
      r := Some(DiffSummary(changed, added, removed));
    } else {
      r := None;
    }
  }

  /** The summary is absent exactly when every new key keeps its value and
      the relation count is unchanged. */
  lemma DiffNoneIff(oldInfo: Dict<string>, oldRels: Dict<seq<Link>>, newInfo: Dict<string>, newRels: Dict<seq<Link>>)
    ensures Diff(oldInfo, oldRels, newInfo, newRels).None? <==>
              (forall k :: HasKey(newInfo, k) ==> Get(oldInfo, k) == Get(newInfo, k))
              && RelationCount(oldRels) == RelationCount(newRels)
  {
    var changed := ChangedFields(oldInfo, newInfo);
    if changed == [] {
      forall k | HasKey(newInfo, k) ensures Get(oldInfo, k) == Get(newInfo, k) {
        ChangedFieldsExact(oldInfo, newInfo, k);
      }
    } else {
      ChangedFieldsExact(oldInfo, newInfo, changed[0]);
    }
  }

  /** At most one of the two counts is non-zero, and their difference is the
      change in the number of related documents. */
  lemma DiffCounts(oldInfo: Dict<string>, oldRels: Dict<seq<Link>>, newInfo: Dict<string>, newRels: Dict<seq<Link>>)
    requires Diff(oldInfo, oldRels, newInfo, newRels).Some?
    ensures var d := Diff(oldInfo, oldRels, newInfo, newRels).value;
            && (d.relationsAdded == 0 || d.relationsRemoved == 0)
            && d.relationsAdded - d.relationsRemoved == RelationCount(newRels) - RelationCount(oldRels)
  {
  }

  /** A record compared with itself has no summary. */
  lemma DiffSelf(info: Dict<string>, rels: Dict<seq<Link>>)
    ensures Diff(info, rels, info, rels).None?
  {
    DiffNoneIff(info, rels, info, rels);
  }
}
