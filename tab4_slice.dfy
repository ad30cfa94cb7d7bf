/** `tvpl_crawler/playwright_extract_simple.py`: the "Lược đồ" tab.  The
    header rows of the viewed document become `doc_info`; each group header
    (`ghd`) in the tab's HTML is paired with the relation links of the
    content (`ct`) section that follows it.  The regular expressions are
    parameters: `ghdStarts` are the offsets where a group header opens,
    `titleOf` reads a header's title with its tags removed, and `linksIn`
    lists the `(href, text)` pairs of the document links in a section. */
module Tab4Simple {
  import opened Common

  const SitePrefix := "https://thuvienphapluat.vn"
  const MinTextLength := 10

  // ---------------------------------------------------------------------------
  // Python `str.find` / `str.rfind` with a start (and end) offset

  function Find(s: string, sub: string, from: nat): (r: int)
    requires sub != []
    ensures r == -1 || (from <= r && OccursAt(s, sub, r))
    ensures r == -1 ==> forall i :: from <= i ==> !OccursAt(s, sub, i)
    ensures r >= 0 ==> forall i :: from <= i < r ==> !OccursAt(s, sub, i)
    decreases |s| - from
  {
    if from + |sub| > |s| then -1
    else if OccursAt(s, sub, from) then from
    else Find(s, sub, from + 1)
  }

  /** The last occurrence starting at or after `from` and ending at or before `hi + |sub|`. */
  function FindLast(s: string, sub: string, from: nat, hi: int): (r: int)
    ensures r == -1 || (from <= r <= hi && OccursAt(s, sub, r))
    ensures r == -1 ==> forall i :: from <= i <= hi ==> !OccursAt(s, sub, i)
    ensures r >= 0 ==> forall i :: r < i <= hi ==> !OccursAt(s, sub, i)
    decreases hi - from
  {
    if hi < from then -1
    else if OccursAt(s, sub, hi) then hi
    else FindLast(s, sub, from, hi - 1)
  }

  /** `s.rfind(sub, from, end)`: the end offset is cut to the string's length. */
  function RFind(s: string, sub: string, from: nat, end: nat): (r: int)
    ensures r == -1 || (from <= r && r + |sub| <= end && OccursAt(s, sub, r))
    ensures r == -1 ==> forall i :: from <= i && i + |sub| <= end ==> !OccursAt(s, sub, i)
  {
    var e := if end < |s| then end else |s|;
    FindLast(s, sub, from, e - |sub|)
  }

  // ---------------------------------------------------------------------------
  // Relations of one group (lines 93-104)

  datatype Relation = Relation(text: string, href: string)

  predicate Keeps(link: (string, string)) {
    var text := Strip(link.1);
    Strip(link.0) != "" && text != "" && |text| > MinTextLength
  }

  /** A root-relative `href` gets the site's address in front. */
  function Absolute(href: string): (r: string)
    ensures !StartsWith(href, "/") ==> r == href
    ensures !StartsWith(r, "/")
  {
    if StartsWith(href, "/") then
      var r := SitePrefix + href;
      assert r[0] == 'h';
      r
    else href
  }

  function RelationOf(link: (string, string)): Relation {
    Relation(Strip(link.1), Absolute(Strip(link.0)))
  }

  function KeepLinks(links: seq<(string, string)>): (r: seq<Relation>)
    ensures |r| <= |links|
  {
    if links == [] then []
    else
      var last := links[|links| - 1];
      KeepLinks(links[..|links| - 1]) + (if Keeps(last) then [RelationOf(last)] else [])
  }

  /** Lines 97-104. */
  method RelationsIn(links: seq<(string, string)>) returns (relationsList: seq<Relation>)
    ensures relationsList == KeepLinks(links)
  {
    relationsList := [];
    var i := 0;
    while i < |links|
      invariant 0 <= i <= |links|
      invariant relationsList == KeepLinks(links[..i])
    {
      var text := Strip(links[i].1);
      var href := Strip(links[i].0);
      if href != "" && text != "" && |text| > MinTextLength {
        if StartsWith(href, "/") {
          href := SitePrefix + href;
        }
        relationsList := relationsList + [Relation(text, href)];
      }
      assert links[..i + 1][..i] == links[..i];
      i := i + 1;
    }
    assert links[..i] == links;
  }

  /** A link that passes the filter gives a relation with a non-empty
      absolute `href` and a text longer than ten characters. */
  lemma RelationOfKept(link: (string, string))
    requires Keeps(link)
    ensures var r := RelationOf(link); r.href != "" && |r.text| > MinTextLength && !StartsWith(r.href, "/")
  {
    assert |Absolute(Strip(link.0))| >= |Strip(link.0)| > 0;
  }

  /** Every kept relation comes from a link that passes the filter. */
  lemma {:induction false} KeptRelationsFrom(links: seq<(string, string)>)
    ensures forall r :: r in KeepLinks(links) ==>
              exists j :: 0 <= j < |links| && Keeps(links[j]) && r == RelationOf(links[j])
  {
    if links != [] {
      var p := links[..|links| - 1];
      KeptRelationsFrom(p);
      forall r | r in KeepLinks(links)
        ensures exists j :: 0 <= j < |links| && Keeps(links[j]) && r == RelationOf(links[j])
      {
        if r in KeepLinks(p) {
          var j :| 0 <= j < |p| && Keeps(p[j]) && r == RelationOf(p[j]);
          assert links[j] == p[j];
        } else {
          assert Keeps(links[|links| - 1]) && r == RelationOf(links[|links| - 1]);
        }
      }
    }
  }

  /** Line 101-103: every kept relation has a non-empty absolute `href` and
      a text longer than ten characters. */
  lemma KeptRelationsFiltered(links: seq<(string, string)>)
    ensures forall r :: r in KeepLinks(links) ==>
              r.href != "" && |r.text| > MinTextLength && !StartsWith(r.href, "/")
  {
    KeptRelationsFrom(links);
    forall r | r in KeepLinks(links)
      ensures r.href != "" && |r.text| > MinTextLength && !StartsWith(r.href, "/")
    {
      var j :| 0 <= j < |links| && Keeps(links[j]) && r == RelationOf(links[j]);
      RelationOfKept(links[j]);
    }
  }

  /** Every link that passes the filter yields a relation. */
  lemma {:induction false} PassingLinksKept(links: seq<(string, string)>)
    ensures forall j :: 0 <= j < |links| && Keeps(links[j]) ==> RelationOf(links[j]) in KeepLinks(links)
  {
    if links != [] {
      var p := links[..|links| - 1];
      PassingLinksKept(p);
      var extra := if Keeps(links[|links| - 1]) then [RelationOf(links[|links| - 1])] else [];
      assert KeepLinks(links) == KeepLinks(p) + extra;
      forall j | 0 <= j < |links| && Keeps(links[j]) ensures RelationOf(links[j]) in KeepLinks(links) {
        if j < |p| {
          assert links[j] == p[j];
          StaysIn(RelationOf(p[j]), KeepLinks(p), extra);
        }
      }
    }
  }

  lemma StaysIn(r: Relation, a: seq<Relation>, b: seq<Relation>)
    requires r in a
    ensures r in a + b
  {
  }

  // ---------------------------------------------------------------------------
  // One group header (lines 43-108)

  /** Lines 79-89: the content section ends at the nearer of the next group
      header and the next separator, or at the end when there is neither. */
  function CtEnd(htmlLength: nat, nextGhd: int, nextSep: int): (r: int)
    ensures nextGhd == -1 && nextSep == -1 ==> r == htmlLength
    ensures nextGhd != -1 || nextSep != -1 ==>
              (r == nextGhd || r == nextSep) && r != -1 &&
              (nextGhd != -1 ==> r <= nextGhd) && (nextSep != -1 ==> r <= nextSep)
  {
    if nextGhd == -1 && nextSep == -1 then htmlLength
    else if nextGhd == -1 then nextSep
    else if nextSep == -1 then nextGhd
    else if nextGhd <= nextSep then nextGhd else nextSep
  }

  /** The title a group header at `ghdStart` carries, or None when the loop
      skips it (no closing tag, no title match, or an empty title). */
  function TitleAt(html: string, ghdStart: nat, titleOf: string -> Option<string>): Option<(string, nat)>
  {
    var ghdClose := Find(html, "</div>", ghdStart);
    if ghdClose == -1 then None
    else
      var raw := titleOf(html[ghdStart..ghdClose]);
      if raw.None? || Strip(raw.value) == "" then None
      else Some((Strip(raw.value), ghdClose))
  }

  /** The content section that follows a header ending at `ghdClose`. */
  function SectionAfter(html: string, ghdClose: nat): (r: Option<string>)
    ensures Find(html, "class=\"ct\"", ghdClose) == -1 ==> r.None?
  {
    var ctStart := Find(html, "class=\"ct\"", ghdClose);
    if ctStart == -1 then None
    else
      var ctDivStart := RFind(html, "<div", ghdClose, ctStart + 20);
      if ctDivStart == -1 then None
      else
        var nextGhd := Find(html, "<div class=\"ghd", ctDivStart + 1);
        var nextSep := Find(html, "class=\"cmVsep\"", ctDivStart + 1);
        var ctEnd := CtEnd(|html|, nextGhd, nextSep);
        Some(html[ctDivStart..ctEnd])
  }

  /** What one header contributes: its title with the relations of its
      section, an empty list when no section follows, nothing when skipped. */
  function GroupAt(html: string, ghdStart: nat, titleOf: string -> Option<string>,
                   linksIn: string -> seq<(string, string)>): (g: Option<(string, seq<Relation>)>)
    ensures TitleAt(html, ghdStart, titleOf).None? <==> g.None?
    ensures g.Some? ==> g.value.0 != "" && g.value.0 == TitleAt(html, ghdStart, titleOf).value.0
    ensures g.Some? && SectionAfter(html, TitleAt(html, ghdStart, titleOf).value.1).None? ==> g.value.1 == []
  {
    match TitleAt(html, ghdStart, titleOf)
    case None => None
    case Some((title, ghdClose)) =>
      match SectionAfter(html, ghdClose)
      case None => Some((title, []))
      case Some(section) => Some((title, KeepLinks(linksIn(section))))
  }

  function Groups(html: string, ghdStarts: seq<nat>, titleOf: string -> Option<string>,
                  linksIn: string -> seq<(string, string)>): (gs: seq<(string, seq<Relation>)>)
    ensures |gs| <= |ghdStarts|
  {
    if ghdStarts == [] then []
    else
      var rest := Groups(html, ghdStarts[..|ghdStarts| - 1], titleOf, linksIn);
      match GroupAt(html, ghdStarts[|ghdStarts| - 1], titleOf, linksIn)
      case None => rest
      case Some(g) => rest + [g]
  }

  function Counts(groups: seq<(string, seq<Relation>)>): (cs: Dict<int>)
    ensures |cs| == |groups|
    ensures forall i :: 0 <= i < |groups| ==> cs[i] == (groups[i].0, |groups[i].1|)
  {
    seq(|groups|, i requires 0 <= i < |groups| => (groups[i].0, |groups[i].1|))
  }

  function Lengths(groups: seq<(string, seq<Relation>)>): (ns: seq<int>)
    ensures |ns| == |groups|
    ensures forall i :: 0 <= i < |groups| ==> ns[i] == |groups[i].1|
  {
    seq(|groups|, i requires 0 <= i < |groups| => |groups[i].1|)
  }

  function Values(d: Dict<int>): (vs: seq<int>)
    ensures |vs| == |d|
    ensures forall i :: 0 <= i < |d| ==> vs[i] == d[i].1
  {
    seq(|d|, i requires 0 <= i < |d| => d[i].1)
  }

  // ---------------------------------------------------------------------------
  // Document header (lines 11-23)

  /** An `.att` row: the texts of its `.hd` and `.ds` children, when present. */
  datatype Att = Att(hd: Option<string>, ds: Option<string>)

  /** `rstrip(":")`. */
  function TrimColons(s: string): (r: string)
    ensures |r| <= |s| && r == s[..|r|]
    ensures r == [] || r[|r| - 1] != ':'
    ensures forall i :: |r| <= i < |s| ==> s[i] == ':'
  {
    if s != [] && s[|s| - 1] == ':' then TrimColons(s[..|s| - 1]) else s
  }

  function InfoPair(a: Att): Option<(string, string)> {
    if a.hd.None? || a.ds.None? then None
    else
      var value := Strip(a.ds.value);
      if value != "" && value != "..." then Some((TrimColons(Strip(a.hd.value)), value)) else None
  }

  function InfoPairs(atts: seq<Att>): (ps: seq<(string, string)>)
    ensures forall p :: p in ps ==> p.1 != "" && p.1 != "..."
  {
    if atts == [] then []
    else
      var rest := InfoPairs(atts[..|atts| - 1]);
      match InfoPair(atts[|atts| - 1])
      case None => rest
      case Some(p) => rest + [p]
  }

  // ---------------------------------------------------------------------------
  // The extraction

  datatype Tab4 = Tab4(docInfo: Dict<string>, relations: Dict<seq<Relation>>, summary: Dict<int>, total: int)

  /** One more `.att` row adds its pair, if it has one. */
  lemma InfoStep(atts: seq<Att>, k: nat)
    requires k < |atts|
    ensures PutAll([], InfoPairs(atts[..k + 1])) ==
              match InfoPair(atts[k])
              case None => PutAll([], InfoPairs(atts[..k]))
              case Some(p) => Put(PutAll([], InfoPairs(atts[..k])), p.0, p.1)
  {
    assert atts[..k + 1][..k] == atts[..k];
    var ps := InfoPairs(atts[..k]);
    match InfoPair(atts[k]) {
      case None =>
      case Some(p) =>
        assert InfoPairs(atts[..k + 1]) == ps + [p];
        assert (ps + [p])[..|ps|] == ps;
    }
  }

  /** Lines 11-23. */
  method ExtractDocInfo(atts: seq<Att>) returns (docInfo: Dict<string>)
    ensures docInfo == PutAll([], InfoPairs(atts))
  {
    docInfo := [];
    var k := 0;
    while k < |atts|
      invariant 0 <= k <= |atts|
      invariant docInfo == PutAll([], InfoPairs(atts[..k]))
    {
      InfoStep(atts, k);
      var att := atts[k];
      if att.hd.Some? && att.ds.Some? {
        var key := TrimColons(Strip(att.hd.value));
        var value := Strip(att.ds.value);
        if value != "" && value != "..." {
          docInfo := Put(docInfo, key, value);
        }
      }
      k := k + 1;
    }
    assert atts[..k] == atts;
  }

  /** Lines 44-108: one header's title and relations, or None when skipped. */
  method ReadGroup(html: string, ghdStart: nat, titleOf: string -> Option<string>,
                   linksIn: string -> seq<(string, string)>)
    returns (g: Option<(string, seq<Relation>)>)
    ensures g == GroupAt(html, ghdStart, titleOf, linksIn)
  {
    var ghdClose := Find(html, "</div>", ghdStart);
    if ghdClose == -1 {
      return None;
    }
    var raw := titleOf(html[ghdStart..ghdClose]);
    if raw.None? || Strip(raw.value) == "" {
      return None;
    }
    var titleText := Strip(raw.value);
    assert TitleAt(html, ghdStart, titleOf) == Some((titleText, ghdClose as nat));
    var section := SectionAfter(html, ghdClose);
    if section.None? {
      return Some((titleText, []));
    }
    var relationsList := RelationsIn(linksIn(section.value));
    g := Some((titleText, relationsList));
  }

  /** Recording one more group updates the three results as lines 106-108 do. */
  lemma AppendGroupRelations(groups: seq<(string, seq<Relation>)>, g: (string, seq<Relation>))
    ensures PutAll([], groups + [g]) == Put(PutAll([], groups), g.0, g.1)
  {
    assert (groups + [g])[..|groups|] == groups;
  }

  lemma AppendGroupSummary(groups: seq<(string, seq<Relation>)>, g: (string, seq<Relation>))
    ensures PutAll([], Counts(groups + [g])) == Put(PutAll([], Counts(groups)), g.0, |g.1|)
  {
    var cs := Counts(groups + [g]);
    assert cs[..|groups|] == Counts(groups);
    assert cs[|groups|] == (g.0, |g.1|);
    assert PutAll([], cs) == Put(PutAll([], cs[..|groups|]), cs[|groups|].0, cs[|groups|].1);
  }

  lemma AppendGroupTotal(groups: seq<(string, seq<Relation>)>, g: (string, seq<Relation>))
    ensures Sum(Lengths(groups + [g])) == Sum(Lengths(groups)) + |g.1|
  {
    assert Lengths(groups + [g]) == Lengths(groups) + [|g.1|];
    SumAppend(Lengths(groups), [|g.1|]);
  }

  /** The group a header adds, if any. */
  function GroupList(g: Option<(string, seq<Relation>)>): seq<(string, seq<Relation>)> {
    if g.Some? then [g.value] else []
  }

  /** Each header the loop reads adds its group, if any, last. */
  lemma GroupsStep(html: string, ghdStarts: seq<nat>, titleOf: string -> Option<string>,
                   linksIn: string -> seq<(string, string)>, i: nat)
    requires i < |ghdStarts|
    ensures Groups(html, ghdStarts[..i + 1], titleOf, linksIn) ==
              Groups(html, ghdStarts[..i], titleOf, linksIn) + GroupList(GroupAt(html, ghdStarts[i], titleOf, linksIn))
  {
    assert ghdStarts[..i + 1][..i] == ghdStarts[..i];
  }

  /** The three results after recording one more group. */
  predicate Recorded(groups: seq<(string, seq<Relation>)>, relations: Dict<seq<Relation>>,
                     summary: Dict<int>, total: int)
  {
    relations == PutAll([], groups) && summary == PutAll([], Counts(groups)) && total == Sum(Lengths(groups))
  }

  lemma RecordGroup(groups: seq<(string, seq<Relation>)>, g: (string, seq<Relation>),
                    relations: Dict<seq<Relation>>, summary: Dict<int>, total: int)
    requires Recorded(groups, relations, summary, total)
    ensures Recorded(groups + [g], Put(relations, g.0, g.1), Put(summary, g.0, |g.1|), total + |g.1|)
  {
    AppendGroupRelations(groups, g);
    AppendGroupSummary(groups, g);
    AppendGroupTotal(groups, g);
  }

  /** Lines 66-75 and 106-108: record the group a header gave, if any. */
  method AddGroup(ghost groups: seq<(string, seq<Relation>)>, g: Option<(string, seq<Relation>)>,
                  relations: Dict<seq<Relation>>, summary: Dict<int>, total: int)
    returns (ghost groups': seq<(string, seq<Relation>)>,
             relations': Dict<seq<Relation>>, summary': Dict<int>, total': int)
    requires Recorded(groups, relations, summary, total)
    ensures groups' == groups + GroupList(g)
    ensures Recorded(groups', relations', summary', total')
    ensures g.None? ==> relations' == relations && summary' == summary && total' == total
    ensures g.Some? ==> relations' == Put(relations, g.value.0, g.value.1)
                        && summary' == Put(summary, g.value.0, |g.value.1|)
                        && total' == total + |g.value.1|
  {
    groups', relations', summary', total' := groups, relations, summary, total;
    if g.Some? {
      var titleText, relationsList := g.value.0, g.value.1;
      RecordGroup(groups, g.value, relations, summary, total);
      relations' := Put(relations, titleText, relationsList);
      summary' := Put(summary, titleText, |relationsList|);
      total' := total + |relationsList|;
      groups' := groups + [g.value];
    }
  }

  /** Lines 28-108. */
  method ExtractRelations(html: string, ghdStarts: seq<nat>,
                          titleOf: string -> Option<string>, linksIn: string -> seq<(string, string)>)
    returns (relations: Dict<seq<Relation>>, summary: Dict<int>, total: int)
    ensures relations == PutAll([], Groups(html, ghdStarts, titleOf, linksIn))
    ensures summary == PutAll([], Counts(Groups(html, ghdStarts, titleOf, linksIn)))
    ensures total == Sum(Lengths(Groups(html, ghdStarts, titleOf, linksIn)))
  {
    relations := [];
    summary := [];
    total := 0;
    ghost var groups: seq<(string, seq<Relation>)> := [];
    var i := 0;
    while i < |ghdStarts|
      invariant 0 <= i <= |ghdStarts|
      invariant groups == Groups(html, ghdStarts[..i], titleOf, linksIn)
      invariant Recorded(groups, relations, summary, total)
    {
      var g := ReadGroup(html, ghdStarts[i], titleOf, linksIn);
      GroupsStep(html, ghdStarts, titleOf, linksIn, i);
      groups, relations, summary, total := AddGroup(groups, g, relations, summary, total);
      i := i + 1;
    }
    assert ghdStarts[..i] == ghdStarts;
  }

  /** Lines 7-119. */
  method ExtractTab4Simple(atts: seq<Att>, html: string, ghdStarts: seq<nat>,
                           titleOf: string -> Option<string>, linksIn: string -> seq<(string, string)>)
    returns (out: Tab4)
    ensures out.docInfo == PutAll([], InfoPairs(atts))
    ensures out.relations == PutAll([], Groups(html, ghdStarts, titleOf, linksIn))
    ensures out.summary == PutAll([], Counts(Groups(html, ghdStarts, titleOf, linksIn)))
    ensures out.total == Sum(Lengths(Groups(html, ghdStarts, titleOf, linksIn)))
  {
    var docInfo := ExtractDocInfo(atts);
    var relations, summary, total := ExtractRelations(html, ghdStarts, titleOf, linksIn);
    out := Tab4(docInfo, relations, summary, total);
  }

  // ---------------------------------------------------------------------------
  // Properties

  lemma {:induction false} LastCount(groups: seq<(string, seq<Relation>)>, t: string)
    ensures LastValue(Counts(groups), t).Some? <==> LastValue(groups, t).Some?
    ensures LastValue(groups, t).Some? ==> LastValue(Counts(groups), t).value == |LastValue(groups, t).value|
  {
    if groups != [] {
      var p := groups[..|groups| - 1];
      assert Counts(groups)[..|groups| - 1] == Counts(p);
      LastCount(p, t);
    }
  }

  /** Each title's summary entry is the length of its relation list. */
  lemma SummaryIsLength(html: string, ghdStarts: seq<nat>, titleOf: string -> Option<string>,
                        linksIn: string -> seq<(string, string)>, t: string)
    ensures var groups := Groups(html, ghdStarts, titleOf, linksIn);
            var rel := Get(PutAll([], groups), t);
            var sum := Get(PutAll([], Counts(groups)), t);
            (rel.Some? <==> sum.Some?) && (rel.Some? ==> sum.value == |rel.value|)
  {
    var groups := Groups(html, ghdStarts, titleOf, linksIn);
    PutAllLastWins([], groups, t);
    PutAllLastWins([], Counts(groups), t);
    LastCount(groups, t);
  }

  /** With distinct titles, the total is the sum of the summary values. */
  lemma TotalIsSummarySum(html: string, ghdStarts: seq<nat>, titleOf: string -> Option<string>,
                          linksIn: string -> seq<(string, string)>)
    requires DistinctKeys(Groups(html, ghdStarts, titleOf, linksIn))
    ensures var groups := Groups(html, ghdStarts, titleOf, linksIn);
            Sum(Values(PutAll([], Counts(groups)))) == Sum(Lengths(groups))
  {
    SumOfCounts(Groups(html, ghdStarts, titleOf, linksIn));
  }

  lemma SumOfCounts(groups: seq<(string, seq<Relation>)>)
    requires DistinctKeys(groups)
    ensures Sum(Values(PutAll([], Counts(groups)))) == Sum(Lengths(groups))
  {
    assert DistinctKeys(Counts(groups)) by {
      forall i, j | 0 <= i < j < |groups| ensures Counts(groups)[i].0 != Counts(groups)[j].0 {
        assert groups[i].0 != groups[j].0;
      }
    }
    PutAllFresh(Counts(groups));
    assert Values(Counts(groups)) == Lengths(groups);
  }

  /** Each key of `doc_info` holds the value of the last row with that
      key, which is neither empty nor "...". */
  lemma DocInfoLastRow(atts: seq<Att>, key: string)
    ensures var v := Get(PutAll([], InfoPairs(atts)), key);
            v == LastValue(InfoPairs(atts), key) &&
            (v.Some? ==> v.value != "" && v.value != "...")
  {
    PutAllLastWins([], InfoPairs(atts), key);
  }
}
