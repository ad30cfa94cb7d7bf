/** File-type detection from the lower-cased text of a download link.  Four
    copies exist; three test "pdf", "docx", "doc" in that order, the v2
    importer adds the Vietnamese download label, and the `transform_for`
    copy tests "doc"-but-not-"docx" before "docx". */
module FileTypes {
  import opened Common

  const VietnameseLabel := "tải văn bản tiếng việt"
  const VietnameseLabelAscii := "tai van ban tieng viet"

  /** pdf, then docx, then doc, then other. */
  function StandardFileType(text: string): (t: string)
    ensures var l := Lower(text);
            && (Contains(l, "pdf") ==> t == "pdf")
            && (!Contains(l, "pdf") && Contains(l, "docx") ==> t == "docx")
            && (!Contains(l, "pdf") && !Contains(l, "docx") && Contains(l, "doc") ==> t == "doc")
            && (!Contains(l, "pdf") && !Contains(l, "doc") ==> t == "other")
  {
    var l := Lower(text);
    if Contains(l, "pdf") then "pdf"
    else if Contains(l, "docx") then DocxContainsDoc(l); "docx"
    else if Contains(l, "doc") then "doc"
    else "other"
  }

  /** The v2 importer's order: the standard tests, then the download label
      (either spelling) as "doc", then other. */
  function V2FileType(text: string): (t: string)
  {
    var l := Lower(text);
    if Contains(l, "pdf") then "pdf"
    else if Contains(l, "docx") then "docx"
    else if Contains(l, "doc") then "doc"
    else if Contains(l, VietnameseLabel) || Contains(l, VietnameseLabelAscii) then "doc"
    else "other"
  }

  /** The `transform_for` order: "doc" without "docx" before "docx". */
  function DocFirstFileType(text: string): (t: string)
  {
    var l := Lower(text);
    if Contains(l, "pdf") then "pdf"
    else if Contains(l, "doc") && !Contains(l, "docx") then "doc"
    else if Contains(l, "docx") then "docx"
    else "other"
  }

  /** "docx" in a text means "doc" is in it too. */
  lemma DocxContainsDoc(l: string)
    requires Contains(l, "docx")
    ensures Contains(l, "doc")
  {
    var i :| 0 <= i <= |l| - 4 && OccursAt(l, "docx", i);
    assert l[i..i + 3] == l[i..i + 4][..3];
    assert OccursAt(l, "doc", i);
  }

  /** Testing "doc"-without-"docx" first gives the standard answer. */
  lemma DocFirstAgrees(text: string)
    ensures DocFirstFileType(text) == StandardFileType(text)
  {
    var l := Lower(text);
    if Contains(l, "docx") {
      DocxContainsDoc(l);
    }
  }

  /** The v2 importer differs from the standard order only on texts the
      standard order calls "other" that carry the download label. */
  lemma V2Refines(text: string)
    ensures StandardFileType(text) != "other" ==> V2FileType(text) == StandardFileType(text)
    ensures StandardFileType(text) == "other" ==>
              (V2FileType(text) == "doc" <==>
                 Contains(Lower(text), VietnameseLabel) || Contains(Lower(text), VietnameseLabelAscii))
    ensures V2FileType(text) in {"pdf", "docx", "doc", "other"}
  {
    var l := Lower(text);
    if Contains(l, "docx") {
      DocxContainsDoc(l);
    }
  }
}
