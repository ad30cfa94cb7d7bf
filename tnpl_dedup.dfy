/** `fix_tnpl_duplicates`: the terms are grouped by URL, every group with
    more than one record is a duplicate, and after confirmation every record
    of a duplicate group except the one created first is deleted by id.
    Which deletes raise is a parameter (`failing`, a set of term ids). */
module TnplDedup {
  import opened Common

  datatype TermRec = TermRec(termId: int, url: string, createdAt: string)

  // ---------------------------------------------------------------------------
  // Grouping (lines 21-28)

  /** `url_groups` after the loop: an insertion-ordered dict from URL to its
      records in table order. */
  function Groups(rows: seq<TermRec>): Dict<seq<TermRec>>
  {
    if rows == [] then []
    else
      var g := Groups(rows[..|rows| - 1]);
      var r := rows[|rows| - 1];
      Put(g, r.url, Get(g, r.url).GetOr([]) + [r])
  }

  /** The records of one URL, in table order. */
  function RowsWithUrl(rows: seq<TermRec>, url: string): (r: seq<TermRec>)
    ensures forall x :: x in r <==> x in rows && x.url == url
  {
    if rows == [] then []
    else RowsWithUrl(rows[..|rows| - 1], url) + (if rows[|rows| - 1].url == url then [rows[|rows| - 1]] else [])
  }

  /** The grouping loop. */
  method GroupByUrl(rows: seq<TermRec>) returns (urlGroups: Dict<seq<TermRec>>)
    ensures urlGroups == Groups(rows)
  {
    urlGroups := [];
    var i := 0;
    while i < |rows|
      invariant 0 <= i <= |rows|
      invariant urlGroups == Groups(rows[..i])
    {
      assert rows[..i + 1][..i] == rows[..i];
      var term := rows[i];
      urlGroups := Put(urlGroups, term.url, Get(urlGroups, term.url).GetOr([]) + [term]);
      i := i + 1;
    }
    assert rows[..i] == rows;
  }

  /** Each URL of the table has one group holding exactly its records in
      table order, and no other URL has a group. */
  lemma {:induction false} GroupsExact(rows: seq<TermRec>, url: string)
    ensures HasKey(Groups(rows), url) <==> RowsWithUrl(rows, url) != []
    ensures HasKey(Groups(rows), url) ==> Get(Groups(rows), url) == Some(RowsWithUrl(rows, url))
  {
    if rows != [] {
      var p := rows[..|rows| - 1];
      var r := rows[|rows| - 1];
      GroupsExact(p, url);
      var g := Groups(p);
      var v := Get(g, r.url).GetOr([]) + [r];
      assert Groups(rows) == Put(g, r.url, v);
      if r.url != url {
        PutOthers(g, r.url, v, url);
        assert RowsWithUrl(rows, url) == RowsWithUrl(p, url);
        assert Get(Groups(rows), url) == Get(g, url);
      } else {
        assert RowsWithUrl(rows, url) == RowsWithUrl(p, url) + [r];
        assert Get(Groups(rows), url) == Some(v);
        assert Get(g, url).GetOr([]) == RowsWithUrl(p, url);
      }
    }
  }

  /** No URL has two groups. */
  lemma {:induction false} GroupsDistinct(rows: seq<TermRec>)
    ensures DistinctKeys(Groups(rows))
  {
    if rows != [] {
      var p := rows[..|rows| - 1];
      var r := rows[|rows| - 1];
      GroupsDistinct(p);
      var g := Groups(p);
      PutDistinct(g, r.url, Get(g, r.url).GetOr([]) + [r]);
    }
  }

  /** `duplicates`: the groups with more than one record, in group order. */
  function Duplicates(groups: Dict<seq<TermRec>>): (d: Dict<seq<TermRec>>)
    ensures forall e :: e in d <==> e in groups && |e.1| > 1
  {
    if groups == [] then []
    else
      var last := groups[|groups| - 1];
      Duplicates(groups[..|groups| - 1]) + (if |last.1| > 1 then [last] else [])
  }

  // ---------------------------------------------------------------------------
  // The record kept per group (lines 56-60)

  /** The position of the first record with the smallest `created_at`,
      which is what a stable sort puts first. */
  function Earliest(g: seq<TermRec>): (k: nat)
    requires g != []
    ensures k < |g|
  {
    if |g| == 1 then 0
    else
      var k := Earliest(g[..|g| - 1]);
      if StrLt(g[|g| - 1].createdAt, g[k].createdAt) then |g| - 1 else k
  }

  /** No record of the group was created before the kept one, and every
      record before it in the group was created strictly after it. */
  lemma {:induction false} EarliestIsFirstMinimum(g: seq<TermRec>)
    requires g != []
    ensures forall j :: 0 <= j < |g| ==> !StrLt(g[j].createdAt, g[Earliest(g)].createdAt)
    ensures forall j :: 0 <= j < Earliest(g) ==> StrLt(g[Earliest(g)].createdAt, g[j].createdAt)
  {
    var k := Earliest(g);
    StrLtIrreflexive(g[k].createdAt);
    if |g| > 1 {
      var p := g[..|g| - 1];
      var last := |g| - 1;
      EarliestIsFirstMinimum(p);
      var k0 := Earliest(p);
      if k == last {
        forall j | 0 <= j < |g| ensures !StrLt(g[j].createdAt, g[k].createdAt) {
          if j < last {
            assert p[j] == g[j];
            if StrLt(g[j].createdAt, g[k].createdAt) {
              StrLtTransitive(g[j].createdAt, g[k].createdAt, g[k0].createdAt);
            }
          }
        }
        forall j | 0 <= j < last ensures StrLt(g[k].createdAt, g[j].createdAt) {
          assert p[j] == g[j];
          if g[j].createdAt != g[k0].createdAt {
            StrLtTotal(g[j].createdAt, g[k0].createdAt);
            if StrLt(g[k0].createdAt, g[j].createdAt) {
              StrLtTransitive(g[k].createdAt, g[k0].createdAt, g[j].createdAt);
            }
          }
        }
      } else {
        forall j | 0 <= j < |g| ensures !StrLt(g[j].createdAt, g[k].createdAt) {
          if j < last {
            assert p[j] == g[j];
          }
        }
        forall j | 0 <= j < k ensures StrLt(g[k].createdAt, g[j].createdAt) {
          assert p[j] == g[j];
        }
      }
    }
  }

  /** `terms_sorted[1:]`, as a collection: the group without the kept record. */
  function Others(g: seq<TermRec>): (o: seq<TermRec>)
    requires g != []
    ensures |o| == |g| - 1
    ensures o == g[..Earliest(g)] + g[Earliest(g) + 1..]
  {
    g[..Earliest(g)] + g[Earliest(g) + 1..]
  }

  /** Every record planned for deletion, group after group. */
  function ToDelete(dups: Dict<seq<TermRec>>): seq<TermRec>
  {
    if dups == [] then []
    else
      var last := dups[|dups| - 1];
      ToDelete(dups[..|dups| - 1]) + (if last.1 != [] then Others(last.1) else [])
  }

  lemma ToDeleteSnoc(dups: Dict<seq<TermRec>>, k: nat)
    requires k < |dups|
    ensures ToDelete(dups[..k + 1]) == ToDelete(dups[..k]) + (if dups[k].1 != [] then Others(dups[k].1) else [])
  {
    assert dups[..k + 1][..k] == dups[..k];
  }

  /** `total_to_delete`. */
  function TotalToDelete(dups: Dict<seq<TermRec>>): int
  {
    if dups == [] then 0 else TotalToDelete(dups[..|dups| - 1]) + |dups[|dups| - 1].1| - 1
  }

  /** The planned count is the number of records planned for deletion. */
  lemma {:induction false} TotalIsPlanned(dups: Dict<seq<TermRec>>)
    requires forall e :: e in dups ==> |e.1| > 1
    ensures TotalToDelete(dups) == |ToDelete(dups)|
  {
    if dups != [] {
      var p := dups[..|dups| - 1];
      assert forall e :: e in p ==> e in dups;
      assert dups[|dups| - 1] in dups;
      TotalIsPlanned(p);
    }
  }

  // ---------------------------------------------------------------------------
  // Deleting (lines 46-67)

  /** `delete().eq('term_id', id)`. */
  function RemoveId(rows: seq<TermRec>, id: int): (r: seq<TermRec>)
    ensures forall x :: x in r <==> x in rows && x.termId != id
  {
    if rows == [] then []
    else RemoveId(rows[..|rows| - 1], id) + (if rows[|rows| - 1].termId != id then [rows[|rows| - 1]] else [])
  }

  /** The deletes of a list of records in order: the table and the count of
      deletes that did not raise. */
  function DeleteRun(rows: seq<TermRec>, planned: seq<TermRec>, failing: set<int>): (seq<TermRec>, nat)
  {
    if planned == [] then (rows, 0)
    else
      var (r, n) := DeleteRun(rows, planned[..|planned| - 1], failing);
      var t := planned[|planned| - 1];
      if t.termId in failing then (r, n) else (RemoveId(r, t.termId), n + 1)
  }

  lemma {:induction false} DeleteRunAppend(rows: seq<TermRec>, a: seq<TermRec>, b: seq<TermRec>, failing: set<int>)
    ensures DeleteRun(rows, a + b, failing).0 == DeleteRun(DeleteRun(rows, a, failing).0, b, failing).0
    ensures DeleteRun(rows, a + b, failing).1 == DeleteRun(rows, a, failing).1 + DeleteRun(DeleteRun(rows, a, failing).0, b, failing).1
  {
    if b == [] {
      assert a + b == a;
    } else {
      DeleteRunAppend(rows, a, b[..|b| - 1], failing);
      assert (a + b)[..|a + b| - 1] == a + b[..|b| - 1];
    }
  }

  /** The ids of the planned records whose delete does not raise. */
  function Succeeding(planned: seq<TermRec>, failing: set<int>): (ids: set<int>)
    ensures forall t :: t in planned && t.termId !in failing ==> t.termId in ids
    ensures forall id :: id in ids ==> id !in failing && exists t :: t in planned && t.termId == id
  {
    if planned == [] then {}
    else
      var t := planned[|planned| - 1];
      Succeeding(planned[..|planned| - 1], failing) + (if t.termId in failing then {} else {t.termId})
  }

  /** After the deletes a record is left exactly when it was there and its id
      is not the id of a planned record whose delete succeeded. */
  lemma {:induction false} DeleteRunLeaves(rows: seq<TermRec>, planned: seq<TermRec>, failing: set<int>)
    ensures forall x :: x in DeleteRun(rows, planned, failing).0 <==> x in rows && x.termId !in Succeeding(planned, failing)
  {
    if planned != [] {
      DeleteRunLeaves(rows, planned[..|planned| - 1], failing);
    }
  }

  /** The count is at most the number of planned records, and equal to it
      when no delete raises. */
  lemma {:induction false} DeleteRunCount(rows: seq<TermRec>, planned: seq<TermRec>, failing: set<int>)
    ensures DeleteRun(rows, planned, failing).1 <= |planned|
    ensures failing == {} ==> DeleteRun(rows, planned, failing).1 == |planned|
  {
    if planned != [] {
      DeleteRunCount(rows, planned[..|planned| - 1], failing);
    }
  }

  datatype Outcome = NoDuplicates | Cancelled(total: int) | Done(total: int, deleted: nat)

  /** One run of the script on the table, the operator's answer and the set
      of ids whose delete raises. */
  function FixRun(rows: seq<TermRec>, confirm: string, failing: set<int>): (seq<TermRec>, Outcome)
  {
    var dups := Duplicates(Groups(rows));
    if dups == [] then (rows, NoDuplicates)
    else if Lower(confirm) != "yes" then (rows, Cancelled(TotalToDelete(dups)))
    else
      var (r, n) := DeleteRun(rows, ToDelete(dups), failing);
      (r, Done(TotalToDelete(dups), n))
  }

  class TermsTable {
    var rows: seq<TermRec>

    constructor(init: seq<TermRec>)
      ensures rows == init
    {
      rows := init;
    }

    /** The inner loop over one group's later records. */
    method DeleteOthers(g: seq<TermRec>, failing: set<int>) returns (count: nat)
      requires g != []
      modifies this
      ensures rows == DeleteRun(old(rows), Others(g), failing).0
      ensures count == DeleteRun(old(rows), Others(g), failing).1
    {
      var later := Others(g);
      count := 0;
      var i := 0;
      while i < |later|
        invariant 0 <= i <= |later|
        invariant rows == DeleteRun(old(rows), later[..i], failing).0
        invariant count == DeleteRun(old(rows), later[..i], failing).1
      {
        assert later[..i + 1][..i] == later[..i];
        var term := later[i];
        if term.termId !in failing {
          rows := RemoveId(rows, term.termId);
          count := count + 1;
        }
        i := i + 1;
      }
      assert later[..i] == later;
    }

    /** The outer loop of lines 55-67: each duplicate group's later records. */
    method DeleteAllPlanned(duplicates: Dict<seq<TermRec>>, failing: set<int>) returns (deletedCount: nat)
      modifies this
      ensures rows == DeleteRun(old(rows), ToDelete(duplicates), failing).0
      ensures deletedCount == DeleteRun(old(rows), ToDelete(duplicates), failing).1
    {
      deletedCount := 0;
      ghost var start := rows;
      var k := 0;
      while k < |duplicates|
        invariant 0 <= k <= |duplicates|
        invariant rows == DeleteRun(start, ToDelete(duplicates[..k]), failing).0
        invariant deletedCount == DeleteRun(start, ToDelete(duplicates[..k]), failing).1
      {
        var g := duplicates[k].1;
        ghost var plan := ToDelete(duplicates[..k]);
        ghost var next := ToDelete(duplicates[..k + 1]);
        ToDeleteSnoc(duplicates, k);
        if g != [] {
          assert next == plan + Others(g);
          DeleteRunAppend(start, plan, Others(g), failing);
          var n := DeleteOthers(g, failing);
          deletedCount := deletedCount + n;
        } else {
          assert next == plan;
        }
        k := k + 1;
      }
      assert duplicates[..k] == duplicates;
    }

    /** Lines 17-69, with the ordered table read at line 18 as `rows`. */
    method FixDuplicates(confirm: string, failing: set<int>) returns (outcome: Outcome)
      modifies this
      ensures (rows, outcome) == FixRun(old(rows), confirm, failing)
    {
      var urlGroups := GroupByUrl(rows);
      var duplicates := Duplicates(urlGroups);
      if duplicates == [] {
        return NoDuplicates;
      }
      var totalToDelete := TotalToDelete(duplicates);
      if Lower(confirm) != "yes" {
        return Cancelled(totalToDelete);
      }
      var deletedCount := DeleteAllPlanned(duplicates, failing);
      outcome := Done(totalToDelete, deletedCount);
    }
  }

  // ---------------------------------------------------------------------------
  // Properties of a run

  /** Nothing is deleted unless the answer is "yes" in any case. */
  lemma NoConfirmationNoDelete(rows: seq<TermRec>, confirm: string, failing: set<int>)
    requires Lower(confirm) != "yes"
    ensures FixRun(rows, confirm, failing).0 == rows
    ensures !FixRun(rows, confirm, failing).1.Done?
  {
  }

  /** A confirmed run reports as deleted exactly the planned records whose
      delete did not raise, so never more than it planned, and all of them
      when no delete raises. */
  lemma ConfirmedRunCounts(rows: seq<TermRec>, confirm: string, failing: set<int>)
    requires FixRun(rows, confirm, failing).1.Done?
    ensures var o := FixRun(rows, confirm, failing).1;
            && o.deleted <= o.total
            && (failing == {} ==> o.deleted == o.total)
  {
    var dups := Duplicates(Groups(rows));
    TotalIsPlanned(dups);
    DeleteRunCount(rows, ToDelete(dups), failing);
  }

  predicate DistinctIds(rows: seq<TermRec>) {
    forall i, j :: 0 <= i < j < |rows| ==> rows[i].termId != rows[j].termId
  }

  /** With distinct ids and no failing delete, a confirmed run keeps the
      earliest record of every URL. */
  lemma EarliestKept(rows: seq<TermRec>, confirm: string, url: string)
    requires DistinctIds(rows)
    requires Lower(confirm) == "yes"
    requires exists i :: 0 <= i < |rows| && rows[i].url == url
    ensures var g := RowsWithUrl(rows, url);
            g != [] && g[Earliest(g)] in FixRun(rows, confirm, {}).0
  {
    var g := RowsWithUrl(rows, url);
    var i :| 0 <= i < |rows| && rows[i].url == url;
    assert rows[i] in g;
    var keep := g[Earliest(g)];
    assert keep in g;
    var dups := Duplicates(Groups(rows));
    if dups != [] {
      DeleteRunLeaves(rows, ToDelete(dups), {});
      forall t | t in ToDelete(dups) ensures t.termId != keep.termId {
        PlannedNotKept(rows, dups, t, url);
      }
    }
  }

  /** With distinct ids, no planned record shares its id with the kept
      record of any URL. */
  lemma PlannedNotKept(rows: seq<TermRec>, dups: Dict<seq<TermRec>>, t: TermRec, url: string)
    requires DistinctIds(rows)
    requires dups == Duplicates(Groups(rows))
    requires t in ToDelete(dups)
    requires RowsWithUrl(rows, url) != []
    ensures t.termId != RowsWithUrl(rows, url)[Earliest(RowsWithUrl(rows, url))].termId
  {
    var keep := RowsWithUrl(rows, url)[Earliest(RowsWithUrl(rows, url))];
    assert keep in RowsWithUrl(rows, url);
    var e := PlannedFrom(dups, t);
    var groups := Groups(rows);
    assert e in groups;
    var i :| 0 <= i < |groups| && groups[i] == e;
    assert HasKey(groups, e.0);
    GroupsExact(rows, e.0);
    GroupsDistinct(rows);
    GroupEntryIs(groups, i);
    var g := e.1;
    assert g == RowsWithUrl(rows, e.0);
    assert t in g;
    DistinctIdsSame(rows, t, keep);
    if t.url == url {
      assert e.0 == url;
      RowsWithUrlIds(rows, url);
      OthersExcludeKept(g);
    }
  }

  /** The duplicate group a planned record comes from. */
  lemma {:induction false} PlannedFrom(dups: Dict<seq<TermRec>>, t: TermRec) returns (e: (string, seq<TermRec>))
    requires t in ToDelete(dups)
    ensures e in dups && e.1 != [] && t in Others(e.1)
  {
    var p := dups[..|dups| - 1];
    var last := dups[|dups| - 1];
    if t in ToDelete(p) {
      e := PlannedFrom(p, t);
      assert e in dups;
    } else {
      e := last;
    }
  }

  /** With distinct keys, the entry at position `i` is what `Get` returns. */
  lemma GroupEntryIs(d: Dict<seq<TermRec>>, i: int)
    requires DistinctKeys(d) && 0 <= i < |d|
    ensures Get(d, d[i].0) == Some(d[i].1)
  {
    IndexOfKeyIs(d, d[i].0, i);
  }

  lemma DistinctIdsSame(rows: seq<TermRec>, a: TermRec, b: TermRec)
    requires DistinctIds(rows)
    requires a in rows && b in rows
    ensures a.termId == b.termId ==> a == b
  {
  }

  lemma {:induction false} RowsWithUrlIds(rows: seq<TermRec>, url: string)
    requires DistinctIds(rows)
    ensures DistinctIds(RowsWithUrl(rows, url))
  {
    if rows != [] {
      var p := rows[..|rows| - 1];
      RowsWithUrlIds(p, url);
      var r := RowsWithUrl(p, url);
      var last := rows[|rows| - 1];
      forall x | x in r ensures x.termId != last.termId {
        var j :| 0 <= j < |p| && p[j] == x;
        assert rows[j] == x;
      }
      var r' := RowsWithUrl(rows, url);
      forall i, j | 0 <= i < j < |r'| ensures r'[i].termId != r'[j].termId {
        assert r'[i] == r[i];
        if j < |r| {
          assert r'[j] == r[j];
        } else {
          assert r[i] in r;
        }
      }
    }
  }

  /** With distinct ids in a group, the kept record's id is not among the
      others. */
  lemma OthersExcludeKept(g: seq<TermRec>)
    requires g != [] && DistinctIds(g)
    ensures forall t :: t in Others(g) ==> t.termId != g[Earliest(g)].termId
  {
    var k := Earliest(g);
    var o := Others(g);
    assert o == g[..k] + g[k + 1..];
    forall t | t in o ensures t.termId != g[k].termId {
      var j :| 0 <= j < |o| && o[j] == t;
      if j < k {
        assert o[j] == g[j];
      } else {
        assert o[j] == g[j + 1];
      }
    }
  }
}
