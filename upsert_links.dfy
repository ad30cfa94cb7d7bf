/** `upsert_links`: each harvested link is inserted into the link registry
    as pending, reset to pending when it was completed and the site reports
    a later update date, always reset to pending when it was not completed,
    or skipped. */
module UpsertLinks {
  import opened Common
  import opened Dates
  import opened DocId

  /** A harvested link row; each field may be spelled two ways. */
  datatype LinkItem = LinkItem(
    urlCap: Option<string>, url: Option<string>,
    tenVanBanCap: Option<string>, tenVanBan: Option<string>,
    ngayCapNhatCap: Option<string>, ngayCapNhat: Option<string>)

  /** A registry row: the columns this upserter reads or writes. */
  datatype UrlRow = UrlRow(docId: Option<string>, title: string, lastUpdateDate: Option<string>, status: Option<string>, priority: int)

  datatype Action = Ignored | Inserted | Updated | Skipped

  /** `item.get("Url") or item.get("url")`. */
  function ItemUrl(item: LinkItem): Option<string> {
    Or(item.urlCap, item.url)
  }

  /** The decision and the write for one link (lines 35-85). */
  function LinkStep(rows: map<string, UrlRow>, item: LinkItem): (map<string, UrlRow>, Action) {
    var urlStr := ItemUrl(item);
    if !Truthy(urlStr) then (rows, Ignored)
    else
      var u := urlStr.value;
      var title := OrEmpty(Or(item.tenVanBanCap, item.tenVanBan));
      var parsed := ParseDateStrict(OrEmpty(Or(item.ngayCapNhatCap, item.ngayCapNhat)));
      if u in rows then
        var row := rows[u];
        if row.status == Some("completed") then
          if Truthy(parsed) && Truthy(row.lastUpdateDate) && StrLt(row.lastUpdateDate.value, parsed.value) then
            (rows[u := row.(title := title, lastUpdateDate := parsed, status := Some("pending"), priority := 1)], Updated)
          else (rows, Skipped)
        else
          (rows[u := row.(title := title, lastUpdateDate := parsed, status := Some("pending"))], Updated)
      else
        (rows[u := UrlRow(Some(SplitDocId(u)), title, parsed, Some("pending"), 0)], Inserted)
  }

  datatype Counts = Counts(inserted: nat, updated: nat, skipped: nat)

  function Count(c: Counts, a: Action): Counts {
    match a
    case Inserted => c.(inserted := c.inserted + 1)
    case Updated => c.(updated := c.updated + 1)
    case Skipped => c.(skipped := c.skipped + 1)
    case Ignored => c
  }

  /** The loop over the links in order: the registry and the three counters. */
  function Run(rows: map<string, UrlRow>, links: seq<LinkItem>): (map<string, UrlRow>, Counts)
  {
    if links == [] then (rows, Counts(0, 0, 0))
    else
      var (r, c) := Run(rows, links[..|links| - 1]);
      var (r', a) := LinkStep(r, links[|links| - 1]);
      (r', Count(c, a))
  }

  lemma RunStep(rows: map<string, UrlRow>, links: seq<LinkItem>, i: int)
    requires 0 <= i < |links|
    ensures var (r, c) := Run(rows, links[..i]);
            var (r', a) := LinkStep(r, links[i]);
            Run(rows, links[..i + 1]) == (r', Count(c, a))
  {
    assert links[..i + 1][..i] == links[..i];
  }

  datatype Summary = Summary(inserted: nat, updated: nat, skipped: nat, total: nat)

  class CrawlUrlTable {
    var rows: map<string, UrlRow>

    constructor(init: map<string, UrlRow>)
      ensures rows == init
    {
      rows := init;
    }

    /** The body of the loop for one link (lines 35-85): the write it makes
        and which counter it bumps. */
    method UpsertLink(item: LinkItem) returns (action: Action)
      modifies this
      ensures (rows, action) == LinkStep(old(rows), item)
    {
      action := Ignored;
      var urlStr := ItemUrl(item);
      if Truthy(urlStr) {
        var u := urlStr.value;
        var docId := SplitDocId(u);
        var title := OrEmpty(Or(item.tenVanBanCap, item.tenVanBan));
        var parsed := ParseDateStrict(OrEmpty(Or(item.ngayCapNhatCap, item.ngayCapNhat)));
        if u in rows {
          var oldStatus := rows[u].status;
          var oldUpdateDate := rows[u].lastUpdateDate;
          if oldStatus == Some("completed") {
            if Truthy(parsed) && Truthy(oldUpdateDate) && StrLt(oldUpdateDate.value, parsed.value) {
              rows := rows[u := rows[u].(title := title, lastUpdateDate := parsed, status := Some("pending"), priority := 1)];
              action := Updated;
            } else {
              action := Skipped;
            }
          } else {
            rows := rows[u := rows[u].(title := title, lastUpdateDate := parsed, status := Some("pending"))];
            action := Updated;
          }
        } else {
          rows := rows[u := UrlRow(Some(docId), title, parsed, Some("pending"), 0)];
          action := Inserted;
        }
      }
    }

    /** Lines 22-92. */
    method UpsertLinks(links: seq<LinkItem>) returns (summary: Summary)
      modifies this
      ensures var (r, c) := Run(old(rows), links);
              rows == r && summary == Summary(c.inserted, c.updated, c.skipped, |links|)
    {
      var inserted, updated, skipped := 0, 0, 0;
      var i := 0;
      while i < |links|
        invariant 0 <= i <= |links|
        invariant rows == Run(old(rows), links[..i]).0
        invariant Counts(inserted, updated, skipped) == Run(old(rows), links[..i]).1
      {
        ghost var counts := Counts(inserted, updated, skipped);
        RunStep(old(rows), links, i);
        var action := UpsertLink(links[i]);
        match action {
          case Inserted => inserted := inserted + 1;
          case Updated => updated := updated + 1;
          case Skipped => skipped := skipped + 1;
          case Ignored =>
        }
        assert Counts(inserted, updated, skipped) == Count(counts, action);
        i := i + 1;
      }
      assert links[..i] == links;
      summary := Summary(inserted, updated, skipped, |links|);
    }
  }

  // ---------------------------------------------------------------------------
  // Properties of one link

  /** A link without a URL is ignored and writes nothing. */
  lemma NoUrlIgnored(rows: map<string, UrlRow>, item: LinkItem)
    requires !Truthy(ItemUrl(item))
    ensures LinkStep(rows, item) == (rows, Ignored)
  {
  }

  /** An unknown URL is inserted as pending with priority 0, its split-based
      id and its parsed date. */
  lemma UnknownInserted(rows: map<string, UrlRow>, item: LinkItem)
    requires Truthy(ItemUrl(item)) && ItemUrl(item).value !in rows
    ensures var u := ItemUrl(item).value;
            var (r, a) := LinkStep(rows, item);
            && a == Inserted && r.Keys == rows.Keys + {u}
            && r[u].status == Some("pending") && r[u].priority == 0 && r[u].docId == Some(SplitDocId(u))
            && r[u].lastUpdateDate == ParseDateStrict(OrEmpty(Or(item.ngayCapNhatCap, item.ngayCapNhat)))
  {
  }

  /** A completed URL is reset to pending with priority 1 exactly when the
      parsed new date is later than the stored one; otherwise it is skipped
      and nothing is written. */
  lemma CompletedNeedsLaterDate(rows: map<string, UrlRow>, item: LinkItem)
    requires Truthy(ItemUrl(item)) && ItemUrl(item).value in rows
    requires rows[ItemUrl(item).value].status == Some("completed")
    ensures var u := ItemUrl(item).value;
            var parsed := ParseDateStrict(OrEmpty(Or(item.ngayCapNhatCap, item.ngayCapNhat)));
            var stored := rows[u].lastUpdateDate;
            var (r, a) := LinkStep(rows, item);
            && (a == Updated <==> Truthy(parsed) && Truthy(stored) && StrLt(stored.value, parsed.value))
            && (a == Updated ==> r[u].status == Some("pending") && r[u].priority == 1 && r[u].lastUpdateDate == parsed)
            && (a != Updated ==> a == Skipped && r == rows)
  {
  }

  /** A URL that is not completed is always reset to pending, keeping its
      priority. */
  lemma NotCompletedUpdated(rows: map<string, UrlRow>, item: LinkItem)
    requires Truthy(ItemUrl(item)) && ItemUrl(item).value in rows
    requires rows[ItemUrl(item).value].status != Some("completed")
    ensures var u := ItemUrl(item).value;
            var (r, a) := LinkStep(rows, item);
            && a == Updated && r.Keys == rows.Keys
            && r[u].status == Some("pending") && r[u].priority == rows[u].priority
  {
  }

  /** A step writes at most the row of its own URL. */
  lemma StepTouchesOwnUrl(rows: map<string, UrlRow>, item: LinkItem)
    ensures var r := LinkStep(rows, item).0;
            && rows.Keys <= r.Keys
            && forall u :: u in rows && (!Truthy(ItemUrl(item)) || u != ItemUrl(item).value) ==> r[u] == rows[u]
  {
  }

  // ---------------------------------------------------------------------------
  // Properties of the loop

  function WithUrl(links: seq<LinkItem>): nat {
    if links == [] then 0
    else WithUrl(links[..|links| - 1]) + (if Truthy(ItemUrl(links[|links| - 1])) then 1 else 0)
  }

  /** The three counters add up to the number of links that have a URL, so
      to at most the total, and to the total when every link has one. */
  lemma {:induction false} CountsAddUp(rows: map<string, UrlRow>, links: seq<LinkItem>)
    ensures var c := Run(rows, links).1;
            && c.inserted + c.updated + c.skipped == WithUrl(links)
            && WithUrl(links) <= |links|
            && ((forall i :: 0 <= i < |links| ==> Truthy(ItemUrl(links[i]))) ==> WithUrl(links) == |links|)
  {
    if links != [] {
      CountsAddUp(rows, links[..|links| - 1]);
      var (r, c) := Run(rows, links[..|links| - 1]);
      var (r', a) := LinkStep(r, links[|links| - 1]);
      assert a == Ignored <==> !Truthy(ItemUrl(links[|links| - 1]));
    }
  }

  /** After the loop every URL of the batch is registered. */
  lemma {:induction false} RunRegisters(rows: map<string, UrlRow>, links: seq<LinkItem>)
    ensures rows.Keys <= Run(rows, links).0.Keys
    ensures forall i :: 0 <= i < |links| && Truthy(ItemUrl(links[i])) ==> ItemUrl(links[i]).value in Run(rows, links).0
  {
    if links != [] {
      var p := links[..|links| - 1];
      RunRegisters(rows, p);
      StepTouchesOwnUrl(Run(rows, p).0, links[|links| - 1]);
      forall i | 0 <= i < |links| && Truthy(ItemUrl(links[i])) ensures ItemUrl(links[i]).value in Run(rows, links).0 {
        if i < |links| - 1 {
          assert links[i] == p[i];
        }
      }
    }
  }

  /** Every step on a registry that already holds the link's URL inserts
      nothing, and the registry keeps its keys. */
  lemma {:induction false} RunOnRegisteredInsertsNothing(rows: map<string, UrlRow>, links: seq<LinkItem>)
    requires forall i :: 0 <= i < |links| && Truthy(ItemUrl(links[i])) ==> ItemUrl(links[i]).value in rows
    ensures Run(rows, links).1.inserted == 0
    ensures Run(rows, links).0.Keys == rows.Keys
  {
    if links != [] {
      var p := links[..|links| - 1];
      forall i | 0 <= i < |p| && Truthy(ItemUrl(p[i])) ensures ItemUrl(p[i]).value in rows {
        assert p[i] == links[i];
      }
      RunOnRegisteredInsertsNothing(rows, p);
      StepTouchesOwnUrl(Run(rows, p).0, links[|links| - 1]);
    }
  }

  /** Upserting the same batch a second time inserts nothing. */
  lemma RerunInsertsNothing(rows: map<string, UrlRow>, links: seq<LinkItem>)
    ensures Run(Run(rows, links).0, links).1.inserted == 0
  {
    RunRegisters(rows, links);
    RunOnRegisteredInsertsNothing(Run(rows, links).0, links);
  }
}
