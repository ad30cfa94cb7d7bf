/** `compact_schema`: flat crawler records are regrouped into `doc_info`,
    `screenshots`, `tab4` and `tab8`; records carrying an error pass through
    unchanged. */
module CompactSchema {
  import opened Common

  /** `exclude_keys`: the structural fields that do not go to `doc_info`. */
  const ExcludeKeys: set<string> := {
    "stt", "url", "ngay_cap_nhat", "Ngay cap nhat", "tab4_relations", "tab4_summary",
    "tab4_total_relations", "tab8_links", "_screenshot_before", "_screenshot_tab4",
    "_screenshot_tab8", "error"}

  function NotExcluded(k: string, v: Json): bool {
    k !in ExcludeKeys
  }

  /** `doc_info`: every field of the record outside `exclude_keys`. */
  function DocInfo(item: Dict<Json>): Dict<Json> {
    FilterDict(item, NotExcluded)
  }

  datatype Screenshots = Screenshots(before: Json, tab4: Json, tab8: Json)
  datatype Tab4Part = Tab4Part(relations: Json, summary: Json, total: Json)

  /** An output record: an erroneous record as it was, or the seven compact
      fields `stt`, `url`, `ngay_cap_nhat`, `doc_info`, `screenshots`,
      `tab4` and `tab8` (whose only field is `links`). */
  datatype Compacted =
    | Passed(item: Dict<Json>)
    | Compact(stt: Json, url: Json, ngayCapNhat: Json, docInfo: Dict<Json>,
              screenshots: Screenshots, tab4: Tab4Part, tab8Links: Json)

  /** The compact form of one record (lines 10-38). */
  function CompactItem(item: Dict<Json>): Compacted {
    if JTruthy(JGet(item, "error", JNull)) then Passed(item)
    else
      Compact(
        JGet(item, "stt", JNull),
        JGet(item, "url", JNull),
        JOr(JGet(item, "Ngay cap nhat", JNull), JGet(item, "ngay_cap_nhat", JNull)),
        DocInfo(item),
        Screenshots(JGet(item, "_screenshot_before", JNull), JGet(item, "_screenshot_tab4", JNull), JGet(item, "_screenshot_tab8", JNull)),
        Tab4Part(JGet(item, "tab4_relations", JObj([])), JGet(item, "tab4_summary", JObj([])), JGet(item, "tab4_total_relations", JNum(0))),
        JGet(item, "tab8_links", JArr([])))
  }

  /** Lines 4-41: the `result` list built in a loop. */
  method CompactAll(data: seq<Dict<Json>>) returns (result: seq<Compacted>)
    ensures |result| == |data|
    ensures forall i :: 0 <= i < |data| ==> result[i] == CompactItem(data[i])
  {
    result := [];
    var i := 0;
    while i < |data|
      invariant 0 <= i <= |data|
      invariant |result| == i
      invariant forall j :: 0 <= j < i ==> result[j] == CompactItem(data[j])
    {
      result := result + [CompactItem(data[i])];
      i := i + 1;
    }
  }

  /** A record with a truthy `error` is passed through unchanged; every
      other record is compacted. */
  lemma ErrorPassesThrough(item: Dict<Json>)
    ensures CompactItem(item).Passed? <==> JTruthy(JGet(item, "error", JNull))
    ensures CompactItem(item).Passed? ==> CompactItem(item).item == item
  {
  }

  /** `doc_info` holds exactly the record's fields outside `exclude_keys`,
      with their values. */
  lemma DocInfoExact(item: Dict<Json>, k: string)
    requires DistinctKeys(item)
    ensures Get(DocInfo(item), k) == if k in ExcludeKeys then None else Get(item, k)
  {
    FilterDictGet(item, NotExcluded, k);
  }

  /** `ngay_cap_nhat` takes "Ngay cap nhat" when it is truthy and
      "ngay_cap_nhat" otherwise. */
  lemma UpdateDatePreference(item: Dict<Json>)
    requires !JTruthy(JGet(item, "error", JNull))
    ensures JTruthy(JGet(item, "Ngay cap nhat", JNull)) ==> CompactItem(item).ngayCapNhat == JGet(item, "Ngay cap nhat", JNull)
    ensures !JTruthy(JGet(item, "Ngay cap nhat", JNull)) ==> CompactItem(item).ngayCapNhat == JGet(item, "ngay_cap_nhat", JNull)
  {
  }

  /** Missing tab4 and tab8 fields read as an empty dict, an empty dict, 0
      and an empty list. */
  lemma MissingPartsDefault(item: Dict<Json>)
    requires !JTruthy(JGet(item, "error", JNull))
    requires !HasKey(item, "tab4_relations") && !HasKey(item, "tab4_summary")
    requires !HasKey(item, "tab4_total_relations") && !HasKey(item, "tab8_links")
    ensures CompactItem(item).tab4 == Tab4Part(JObj([]), JObj([]), JNum(0))
    ensures CompactItem(item).tab8Links == JArr([])
  {
  }
}
