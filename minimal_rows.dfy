/** The minimal four-field rows written for tab-8 downloads, by the
    `luoc_do` command of `tvpl_crawler/main.py` and by the `/tab8-download`
    endpoint of `api/main.py`.  The title falls back from the document
    title to the saved file's name, then to the download's file name, with
    '_' read as a space.  `Path(p).stem` and `splitext(p)[0]` are the opaque
    parameters `stem` and `root`. */
module MinimalRows {
  import opened Common

  /** What the browser extraction reports about one URL. */
  datatype Tab8Result = Tab8Result(stt: Option<int>, docTitle: Option<string>, savedTo: Option<string>,
                                   filename: Option<string>, downloadUrl: Option<string>)

  datatype MinimalRow = MinimalRow(stt: Option<int>, tenVanBan: Option<string>, downloadUrl: Option<string>, savedTo: Option<string>)

  function Spaced(s: string): string {
    ReplaceChar(s, '_', ' ')
  }

  /** `tvpl_crawler/main.py` lines 105-117. */
  function CliTitle(r: Tab8Result, stem: string -> string, root: string -> string): Option<string>
  {
    var t1 := Strip(OrEmpty(r.docTitle));
    var savedTo := OrEmpty(r.savedTo);
    var t2 := if t1 == "" && savedTo != "" then Spaced(stem(savedTo)) else t1;
    var fn := Strip(OrEmpty(r.filename));
    var t3 := if t2 == "" && fn != "" then Spaced(root(fn)) else t2;
    if t3 == "" then None else Some(t3)
  }

  /** `api/main.py` lines 281-293. */
  function ApiTitle(r: Tab8Result, stem: string -> string): Option<string>
  {
    var t1 := Strip(OrEmpty(r.docTitle));
    var title := if t1 != "" then Some(t1) else None;
    var savedTo := OrEmpty(r.savedTo);
    var title2 := if !Truthy(title) && savedTo != "" then Some(Spaced(stem(savedTo))) else title;
    var fn := Strip(OrEmpty(r.filename));
    if !Truthy(title2) && fn != "" then Some(Spaced(stem(fn))) else title2
  }

  /** The command's title: the stripped document title, else the saved
      file's stem, else the download's file name without extension, the
      first that is non-empty, and null when none is. */
  lemma CliTitleFallback(r: Tab8Result, stem: string -> string, root: string -> string)
    ensures var t1 := Strip(OrEmpty(r.docTitle));
            var savedTo := OrEmpty(r.savedTo);
            var fn := Strip(OrEmpty(r.filename));
            CliTitle(r, stem, root) ==
              if t1 != "" then Some(t1)
              else if savedTo != "" && Spaced(stem(savedTo)) != "" then Some(Spaced(stem(savedTo)))
              else if fn != "" && Spaced(root(fn)) != "" then Some(Spaced(root(fn)))
              else None
  {
  }

  /** The endpoint's title follows the same order with the file name's stem,
      except that a saved file whose stem is empty leaves an empty title
      instead of null when there is no file name. */
  lemma ApiTitleFallback(r: Tab8Result, stem: string -> string)
    ensures var t1 := Strip(OrEmpty(r.docTitle));
            var savedTo := OrEmpty(r.savedTo);
            var fn := Strip(OrEmpty(r.filename));
            ApiTitle(r, stem) ==
              if t1 != "" then Some(t1)
              else if savedTo != "" && Spaced(stem(savedTo)) != "" then Some(Spaced(stem(savedTo)))
              else if fn != "" then Some(Spaced(stem(fn)))
              else if savedTo != "" then Some("")
              else None
  {
  }

  /** The two entry points disagree on a saved file with an empty stem and
      no file name. */
  lemma EntryPointsDisagree(r: Tab8Result, stem: string -> string, root: string -> string)
    requires Strip(OrEmpty(r.docTitle)) == "" && OrEmpty(r.savedTo) != "" && stem(OrEmpty(r.savedTo)) == ""
    requires Strip(OrEmpty(r.filename)) == ""
    ensures CliTitle(r, stem, root) == None && ApiTitle(r, stem) == Some("")
  {
  }

  /** The command's minimal rows: URL number `idx` (from 1) gets a row when
      its extraction did not raise (None). */
  function CliRows(results: seq<Option<Tab8Result>>, stem: string -> string, root: string -> string): seq<MinimalRow>
  {
    if results == [] then []
    else
      var n := |results|;
      CliRows(results[..n - 1], stem, root)
      + (if results[n - 1].Some? then [CliRow(n, results[n - 1].value, stem, root)] else [])
  }

  function CliRow(idx: int, r: Tab8Result, stem: string -> string, root: string -> string): MinimalRow {
    MinimalRow(Some(idx), CliTitle(r, stem, root), r.downloadUrl, r.savedTo)
  }

  /** `tvpl_crawler/main.py` lines 90-135 with minimal output. */
  method CliMinimalRows(results: seq<Option<Tab8Result>>, stem: string -> string, root: string -> string)
    returns (rows: seq<MinimalRow>)
    ensures rows == CliRows(results, stem, root)
  {
    rows := [];
    var k := 0;
    while k < |results|
      invariant 0 <= k <= |results|
      invariant rows == CliRows(results[..k], stem, root)
    {
      assert results[..k + 1][..k] == results[..k];
      var idx := k + 1;
      if results[k].Some? {
        var data := results[k].value;
        rows := rows + [CliRow(idx, data, stem, root)];
      }
      k := k + 1;
    }
    assert results[..k] == results;
  }

  /** At most one row per result; each row is numbered with the (1-based)
      position of a successful result; the numbers strictly increase. */
  predicate Numbered(rows: seq<MinimalRow>, results: seq<Option<Tab8Result>>) {
    && |rows| <= |results|
    && (forall i :: 0 <= i < |rows| ==>
          (rows[i].stt.Some? && 1 <= rows[i].stt.value <= |results| && results[rows[i].stt.value - 1].Some?))
    && (forall i, j :: 0 <= i < j < |rows| ==> rows[i].stt.value < rows[j].stt.value)
  }

  /** One row per URL whose extraction succeeded, numbered with that URL's
      position, so the numbers increase and skip the failed URLs. */
  lemma {:induction false} CliRowsNumbered(results: seq<Option<Tab8Result>>, stem: string -> string, root: string -> string)
    ensures Numbered(CliRows(results, stem, root), results)
  {
    if results != [] {
      var n := |results|;
      var p := results[..n - 1];
      CliRowsNumbered(p, stem, root);
      var extra := if results[n - 1].Some? then [CliRow(n, results[n - 1].value, stem, root)] else [];
      assert CliRows(results, stem, root) == CliRows(p, stem, root) + extra;
      NumberedSnoc(CliRows(p, stem, root), extra, results);
    }
  }

  lemma NumberedSnoc(rows: seq<MinimalRow>, extra: seq<MinimalRow>, results: seq<Option<Tab8Result>>)
    requires results != [] && Numbered(rows, results[..|results| - 1])
    requires extra == [] || (|extra| == 1 && extra[0].stt == Some(|results|) && results[|results| - 1].Some?)
    ensures Numbered(rows + extra, results)
  {
    var p := results[..|results| - 1];
    forall i | 0 <= i < |p| ensures results[i] == p[i] { }
  }

  function ApiRow(r: Tab8Result, stem: string -> string): MinimalRow {
    MinimalRow(r.stt, ApiTitle(r, stem), r.downloadUrl, r.savedTo)
  }

  /** The endpoint's minimal mapping: exactly one row per result, in order. */
  function ApiRows(results: seq<Tab8Result>, stem: string -> string): (rows: seq<MinimalRow>)
    ensures |rows| == |results|
  {
    if results == [] then []
    else ApiRows(results[..|results| - 1], stem) + [ApiRow(results[|results| - 1], stem)]
  }

  /** Row `i` is the mapping of result `i`: its `stt`, download URL and
      saved path, and the fallback title. */
  lemma {:induction false} ApiRowsElementwise(results: seq<Tab8Result>, stem: string -> string, i: int)
    requires 0 <= i < |results|
    ensures ApiRows(results, stem)[i] == ApiRow(results[i], stem)
    ensures ApiRows(results, stem)[i].stt == results[i].stt && ApiRows(results, stem)[i].savedTo == results[i].savedTo
  {
    var n := |results| - 1;
    var p := results[..n];
    var rows := ApiRows(p, stem);
    var last := ApiRow(results[n], stem);
    assert ApiRows(results, stem) == rows + [last];
    if i < n {
      ApiRowsElementwise(p, stem, i);
      SnocIndex(rows, last, ApiRows(results, stem), i);
      assert p[i] == results[i];
    }
  }

  lemma SnocIndex(rows: seq<MinimalRow>, last: MinimalRow, rows': seq<MinimalRow>, i: int)
    requires rows' == rows + [last] && 0 <= i < |rows|
    ensures rows'[i] == rows[i]
  {
  }

  /** `api/main.py` lines 278-300. */
  method ApiMinimalRows(results: seq<Tab8Result>, stem: string -> string) returns (minimalRows: seq<MinimalRow>)
    ensures minimalRows == ApiRows(results, stem)
  {
    minimalRows := [];
    var i := 0;
    while i < |results|
      invariant 0 <= i <= |results|
      invariant minimalRows == ApiRows(results[..i], stem)
    {
      assert results[..i + 1][..i] == results[..i];
      minimalRows := minimalRows + [ApiRow(results[i], stem)];
      i := i + 1;
    }
    assert results[..i] == results;
  }
}
