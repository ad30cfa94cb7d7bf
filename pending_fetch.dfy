/** `tvpl_crawler/crawlers/fetch_pending_urls.py`: page through the pending
    rows of `crawl_url` 1000 at a time, stop early once a limit is reached,
    and number the rows from 1.  The store is the list `table` of pending
    rows in the order the query sorts them (priority, highest first); the
    query for `range(offset, offset + 999)` returns the slice from `offset`. */
module PendingFetch {
  import opened Common

  const PageSize := 1000

  datatype PendingRow = PendingRow(url: string, title: Option<string>, lastUpdateDate: Option<string>)
  datatype Formatted = Formatted(stt: int, tenVanBan: Option<string>, url: string, ngayCapNhat: Option<string>)

  /** The rows one query returns. */
  function PageAt(table: seq<PendingRow>, offset: nat): (page: seq<PendingRow>)
    ensures |page| <= PageSize
    ensures offset <= |table| ==> page == table[offset..if offset + PageSize <= |table| then offset + PageSize else |table|]
    ensures offset >= |table| ==> page == []
  {
    if offset >= |table| then []
    else if offset + PageSize <= |table| then table[offset..offset + PageSize]
    else table[offset..]
  }

  /** `if limit and ...`: a limit of None or 0 means none. */
  predicate HasLimit(limit: Option<int>) {
    limit.Some? && limit.value != 0
  }

  /** Python `links[:limit]`, where a negative limit counts from the end. */
  function SliceTo<T>(links: seq<T>, limit: int): (r: seq<T>)
    ensures limit >= 0 ==> r == Take(links, limit)
    ensures limit < 0 ==> r == links[..if |links| + limit > 0 then |links| + limit else 0]
  {
    if limit >= 0 then Take(links, limit)
    else links[..if |links| + limit > 0 then |links| + limit else 0]
  }

  /** The rows fetched: everything without a limit; the first `limit` rows
      with a positive one; and with a negative one, the first page cut
      short by that many rows. */
  function FetchedRows(table: seq<PendingRow>, limit: Option<int>): seq<PendingRow>
  {
    if !HasLimit(limit) then table
    else if limit.value > 0 then Take(table, limit.value)
    else SliceTo(PageAt(table, 0), limit.value)
  }

  /** Lines 49-56: `Stt` from 1, with title, URL and last update date. */
  function Format(links: seq<PendingRow>): (r: seq<Formatted>)
    ensures |r| == |links|
    ensures forall i :: 0 <= i < |links| ==>
              r[i] == Formatted(i + 1, links[i].title, links[i].url, links[i].lastUpdateDate)
  {
    seq(|links|, i requires 0 <= i < |links| => Formatted(i + 1, links[i].title, links[i].url, links[i].lastUpdateDate))
  }

  /** Lines 22-46: the paged query loop. */
  method FetchRows(table: seq<PendingRow>, limit: Option<int>) returns (links: seq<PendingRow>)
    ensures links == FetchedRows(table, limit)
  {
    links := [];
    var offset: nat := 0;
    while true
      invariant offset <= |table| && offset % PageSize == 0
      invariant links == table[..offset]
      invariant HasLimit(limit) && limit.value < 0 ==> offset == 0
      invariant HasLimit(limit) && limit.value > 0 ==> offset < limit.value
      decreases |table| - offset
    {
      var page := PageAt(table, offset);
      if page == [] {
        assert links == FetchedRows(table, limit);
        break;
      }
      var next := if offset + PageSize <= |table| then offset + PageSize else |table|;
      assert table[..offset] + page == table[..next];
      links := links + page;
      offset := offset + PageSize;
      if HasLimit(limit) && |links| >= limit.value {
        links := SliceTo(links, limit.value);
        assert links == FetchedRows(table, limit);
        break;
      }
      if |page| < PageSize {
        assert links == FetchedRows(table, limit);
        break;
      }
    }
  }

  /** Lines 49-56: the numbering loop. */
  method FormatLinks(links: seq<PendingRow>) returns (formattedLinks: seq<Formatted>)
    ensures formattedLinks == Format(links)
  {
    formattedLinks := [];
    var idx := 0;
    while idx < |links|
      invariant 0 <= idx <= |links|
      invariant formattedLinks == Format(links[..idx])
    {
      formattedLinks := formattedLinks + [Formatted(idx + 1, links[idx].title, links[idx].url, links[idx].lastUpdateDate)];
      idx := idx + 1;
    }
    assert links[..idx] == links;
  }

  /** Lines 9-66; missing credentials raise before any query. */
  method FetchPendingUrls(table: seq<PendingRow>, limit: Option<int>, hasCredentials: bool)
    returns (r: Result<seq<Formatted>>)
    ensures !hasCredentials ==> r.Err?
    ensures hasCredentials ==> r == Ok(Format(FetchedRows(table, limit)))
  {
    if !hasCredentials {
      return Err("Missing SUPABASE_URL or SUPABASE_KEY");
    }
    var links := FetchRows(table, limit);
    var formattedLinks := FormatLinks(links);
    r := Ok(formattedLinks);
  }

  /** With a positive limit the result is the first `limit` rows in fetch
      order (all of them when there are fewer); without a limit it is every
      pending row. */
  lemma LimitTruncates(table: seq<PendingRow>, limit: Option<int>)
    ensures HasLimit(limit) && limit.value > 0 ==>
              var r := FetchedRows(table, limit);
              |r| == (if limit.value < |table| then limit.value else |table|) && r == table[..|r|]
    ensures !HasLimit(limit) ==> FetchedRows(table, limit) == table
  {
  }

  /** A negative limit, read as a Python slice, drops rows from the end of
      the first page rather than limiting anything. */
  lemma NegativeLimitDropsFromFirstPage(table: seq<PendingRow>)
    requires 0 < |table| <= PageSize
    ensures FetchedRows(table, Some(-1)) == table[..|table| - 1]
  {
  }
}
