/** `clean_crawled_data`: each record is cut down to its URL, `doc_info`,
    the non-empty relation groups of `tab4` and the links of `tab8`.  A
    `.get` on a part that is not a dict, or `len` of a truthy number or
    boolean, raises in the source; here those give `Err`. */
module CleanData {
  import opened Common

  /** `d.get(k, {})` followed by a further `.get`: the fields of a dict part,
      the empty dict for a missing part, and an error for anything else. */
  function SubDict(d: Dict<Json>, k: string): (r: Result<Dict<Json>>)
    ensures !HasKey(d, k) ==> r == Ok([])
  {
    match JGet(d, k, JObj([]))
    case JObj(fs) => Ok(fs)
    case _ => Err("AttributeError: get")
  }

  /** `v and len(v) > 0`: falsy values are dropped before `len` is called;
      truthy numbers and booleans have no length. */
  function KeepGroup(v: Json): (r: Result<bool>)
    ensures r.Ok? ==> (r.value <==> JTruthy(v))
    ensures r.Err? <==> JTruthy(v) && (v.JNum? || v.JBool?)
  {
    if !JTruthy(v) then Ok(false)
    else if v.JNum? || v.JBool? then Err("TypeError: len")
    else Ok(true)
  }

  predicate HasLenOrFalsy(k: string, v: Json) {
    KeepGroup(v).Ok?
  }

  function NonEmpty(k: string, v: Json): bool {
    JTruthy(v)
  }

  /** A cleaned record: `url`, `doc_info`, `tab4.relations` and
      `tab8.links`, and nothing else. */
  datatype Cleaned = Cleaned(url: Json, docInfo: Json, relations: Dict<Json>, links: Json)

  /** `clean_item` (lines 7-30). */
  function CleanItem(item: Dict<Json>): (r: Result<Cleaned>)
  {
    var tab4 := SubDict(item, "tab4");
    var tab8 := SubDict(item, "tab8");
    if tab4.Err? then Err(tab4.reason)
    else
      var relations := JGet(tab4.value, "relations", JObj([]));
      if tab8.Err? then Err(tab8.reason)
      else if !relations.JObj? then Err("AttributeError: items")
      else if !forall e :: e in relations.fields ==> HasLenOrFalsy(e.0, e.1) then Err("TypeError: len")
      else
        Ok(Cleaned(JGet(item, "url", JNull), JGet(item, "doc_info", JObj([])),
                   FilterDict(relations.fields, NonEmpty), JGet(tab8.value, "links", JArr([]))))
  }

  /** The relation groups of a cleaned record are exactly the truthy groups
      of the original, unchanged. */
  lemma CleanKeepsNonEmptyGroups(item: Dict<Json>, k: string)
    requires CleanItem(item).Ok?
    requires JGet(SubDict(item, "tab4").value, "relations", JObj([])).JObj?
    requires DistinctKeys(JGet(SubDict(item, "tab4").value, "relations", JObj([])).fields)
    ensures var rels := JGet(SubDict(item, "tab4").value, "relations", JObj([])).fields;
            Get(CleanItem(item).value.relations, k) == if Get(rels, k).Some? && JTruthy(Get(rels, k).value) then Get(rels, k) else None
  {
    var rels := JGet(SubDict(item, "tab4").value, "relations", JObj([])).fields;
    FilterDictGet(rels, NonEmpty, k);
  }

  /** Missing `tab4` and `tab8` give empty relations and links. */
  lemma MissingTabsEmpty(item: Dict<Json>)
    requires !HasKey(item, "tab4") && !HasKey(item, "tab8")
    ensures CleanItem(item).Ok?
    ensures CleanItem(item).value.relations == [] && CleanItem(item).value.links == JArr([])
  {
  }

  /** A relation group that is a truthy number cannot be measured. */
  lemma NumericGroupRaises(item: Dict<Json>, k: string, n: int)
    requires Get(item, "tab4") == Some(JObj([("relations", JObj([(k, JNum(n))]))]))
    requires n != 0
    ensures CleanItem(item).Err?
  {
    var rels := [(k, JNum(n))];
    assert (k, JNum(n)) in rels;
    IndexOfKeyIs([("relations", JObj(rels))], "relations", 0);
  }

  /** `clean_file`'s list comprehension: one cleaned record per record, in
      order, or the first error. */
  function CleanAll(data: seq<Dict<Json>>): (r: Result<seq<Cleaned>>)
    ensures r.Ok? <==> forall i :: 0 <= i < |data| ==> CleanItem(data[i]).Ok?
    ensures r.Ok? ==> |r.value| == |data| && forall i :: 0 <= i < |data| ==> r.value[i] == CleanItem(data[i]).value
  {
    if data == [] then Ok([])
    else
      var first := CleanItem(data[0]);
      if first.Err? then Err(first.reason)
      else
        var rest := CleanAll(data[1..]);
        if rest.Err? then
          Err(rest.reason)
        else
          Ok([first.value] + rest.value)
  }
}
