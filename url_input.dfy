/** The input side of `tvpl_crawler/main.py` (`luoc_do` from a file): the
    URLs read from a JSON list, and their canonical forms with repeats
    dropped.  `urlunparse` of the scheme, host and path is the opaque
    parameter `canonical`. */
module UrlInput {
  import opened Common
  import opened FirstSeen

  /** An entry of the input list: a string, an object (its string-valued
      fields), or anything else. */
  datatype Entry = Str(s: string) | Obj(fields: Dict<string>) | OtherEntry

  /** A string is taken as it is (even when empty); an object gives `Url`,
      else `url`, else `canonical_url`, if that is non-empty. */
  function EntryUrl(e: Entry): (r: Option<string>)
    ensures e.Obj? ==> (r.Some? <==> Truthy(Get(e.fields, "Url")) || Truthy(Get(e.fields, "url")) || Truthy(Get(e.fields, "canonical_url")))
    ensures e.Obj? && Truthy(Get(e.fields, "Url")) ==> r == Get(e.fields, "Url")
    ensures e.Obj? && !Truthy(Get(e.fields, "Url")) && Truthy(Get(e.fields, "url")) ==> r == Get(e.fields, "url")
    ensures e.Obj? && !Truthy(Get(e.fields, "Url")) && !Truthy(Get(e.fields, "url")) ==> r == (if Truthy(Get(e.fields, "canonical_url")) then Get(e.fields, "canonical_url") else None)
  {
    match e
    case Str(s) => Some(s)
    case Obj(d) =>
      var u := Or(Or(Get(d, "Url"), Get(d, "url")), Get(d, "canonical_url"));
      if Truthy(u) then u else None
    case OtherEntry => None
  }

  /** The URLs the entries give, in order. */
  function EntryUrls(es: seq<Entry>): (urls: seq<string>)
    ensures |urls| <= |es|
  {
    if es == [] then []
    else
      var e := EntryUrl(es[|es| - 1]);
      EntryUrls(es[..|es| - 1]) + (if e.Some? then [e.value] else [])
  }

  /** The `urls` list; a top-level value that is not a list (None) gives
      none. */
  function InputUrls(raw: Option<seq<Entry>>): seq<string>
  {
    if raw.None? then [] else EntryUrls(raw.value)
  }

  /** `tvpl_crawler/main.py` lines 57-74. */
  method LoadUrls(raw: Option<seq<Entry>>, canonical: string -> string) returns (canon: seq<string>)
    ensures canon == Dedup(MapSeq(InputUrls(raw), canonical), Identity)
  {
    var urls: seq<string> := [];
    if raw.Some? {
      urls := ReadUrls(raw.value);
    }
    canon := DedupLoop(MapSeq(urls, canonical), Identity);
  }

  /** Lines 58-66: the URL of each entry that gives one, in order. */
  method ReadUrls(es: seq<Entry>) returns (urls: seq<string>)
    ensures urls == EntryUrls(es)
  {
    urls := [];
    var i := 0;
    while i < |es|
      invariant 0 <= i <= |es|
      invariant urls == EntryUrls(es[..i])
    {
      assert es[..i + 1][..i] == es[..i];
      var u := EntryUrl(es[i]);
      if u.Some? {
        urls := urls + [u.value];
      }
      i := i + 1;
    }
    assert es[..i] == es;
  }

  /** The canonical URLs are distinct, and are exactly the canonical forms
      of the input URLs. */
  lemma LoadedUrls(raw: Option<seq<Entry>>, canonical: string -> string)
    ensures var c := MapSeq(InputUrls(raw), canonical);
            var canon := Dedup(c, Identity);
            && (forall i, j :: 0 <= i < j < |canon| ==> canon[i] != canon[j])
            && (forall u :: u in canon <==> u in c)
  {
    var c := MapSeq(InputUrls(raw), canonical);
    var canon := Dedup(c, Identity);
    DedupDistinctKeys(c, Identity);
    DedupSameKeys(c, Identity);
    forall u ensures u in canon <==> u in c {
      if u in canon {
        var i :| 0 <= i < |canon| && canon[i] == u;
        assert Identity(canon[i]) in KeysOf(c, Identity);
      }
      if u in c {
        var i :| 0 <= i < |c| && c[i] == u;
        assert Identity(c[i]) in KeysOf(canon, Identity);
      }
    }
  }
}
