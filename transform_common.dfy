/** What the three Supabase transforms (`supabase_transform`,
    `transform_for_supabase` and `n8n_node2_crawl_docs`) share: which records
    they take, how a relation title becomes a relationship type, and the
    nested loop that walks the relation groups. */
module TransformCommon {
  import opened Common
  import opened Crawled

  /** `if not doc_info or not url: continue` negated. */
  predicate Transformable(item: Item) {
    Truthy(item.url) && item.docInfo != []
  }

  /** `rel_type.lower().replace(" ", "_")`. */
  function NormalizeType(relType: string): (r: string)
    ensures |r| == |relType|
    ensures ' ' !in r
  {
    var l := Lower(relType);
    var r := ReplaceChar(l, ' ', '_');
    assert forall i :: 0 <= i < |r| ==> r[i] != ' ';
    r
  }

  /** The (normalised type, link) pairs one group contributes; with
      `hrefRequired` links without an href are skipped. */
  function GroupEntries(relType: string, links: seq<Link>, hrefRequired: bool): seq<(string, Link)>
  {
    if links == [] then []
    else
      var l := links[|links| - 1];
      GroupEntries(relType, links[..|links| - 1], hrefRequired)
      + (if !hrefRequired || l.href != "" then [(relType, l)] else [])
  }

  /** The pairs the nested loop visits, group by group in dict order. */
  function Entries(rels: Dict<seq<Link>>, hrefRequired: bool): seq<(string, Link)>
  {
    if rels == [] then []
    else
      var g := rels[|rels| - 1];
      Entries(rels[..|rels| - 1], hrefRequired) + GroupEntries(NormalizeType(g.0), g.1, hrefRequired)
  }

  /** The inner loop over one group's links. */
  method GroupEntriesLoop(out: seq<(string, Link)>, relType: string, links: seq<Link>, hrefRequired: bool)
    returns (r: seq<(string, Link)>)
    ensures r == out + GroupEntries(relType, links, hrefRequired)
  {
    r := out;
    var j := 0;
    while j < |links|
      invariant 0 <= j <= |links|
      invariant r == out + GroupEntries(relType, links[..j], hrefRequired)
    {
      assert links[..j + 1][..j] == links[..j];
      var rel := links[j];
      if !hrefRequired || rel.href != "" {
        r := r + [(relType, rel)];
      }
      j := j + 1;
    }
    assert links[..j] == links;
  }

  /** The outer loop over the relation groups, skipping empty ones. */
  method RelationEntries(rels: Dict<seq<Link>>, hrefRequired: bool) returns (entries: seq<(string, Link)>)
    ensures entries == Entries(rels, hrefRequired)
  {
    entries := [];
    var i := 0;
    while i < |rels|
      invariant 0 <= i <= |rels|
      invariant entries == Entries(rels[..i], hrefRequired)
    {
      assert rels[..i + 1][..i] == rels[..i];
      var relType := rels[i].0;
      var relList := rels[i].1;
      if relList != [] {
        var relTypeNormalized := NormalizeType(relType);
        entries := GroupEntriesLoop(entries, relTypeNormalized, relList, hrefRequired);
      }
      i := i + 1;
    }
    assert rels[..i] == rels;
  }

  /** Every pair comes from a link of some group under that group's
      normalised title, and has an href when one is required. */
  lemma {:induction false} EntriesSound(rels: Dict<seq<Link>>, hrefRequired: bool)
    ensures forall e :: e in Entries(rels, hrefRequired) ==>
              (hrefRequired ==> e.1.href != "")
              && exists g :: g in rels && e.1 in g.1 && e.0 == NormalizeType(g.0)
  {
    if rels != [] {
      var p := rels[..|rels| - 1];
      var g := rels[|rels| - 1];
      EntriesSound(p, hrefRequired);
      GroupEntriesSound(g.0, g.1, hrefRequired);
      forall e | e in Entries(rels, hrefRequired)
        ensures (hrefRequired ==> e.1.href != "") && exists g' :: g' in rels && e.1 in g'.1 && e.0 == NormalizeType(g'.0)
      {
        if e in Entries(p, hrefRequired) {
          var g' :| g' in p && e.1 in g'.1 && e.0 == NormalizeType(g'.0);
          assert g' in rels;
        } else {
          assert g in rels;
        }
      }
    }
  }

  lemma {:induction false} GroupEntriesSound(relType: string, links: seq<Link>, hrefRequired: bool)
    ensures forall e :: e in GroupEntries(NormalizeType(relType), links, hrefRequired) ==>
              (hrefRequired ==> e.1.href != "") && e.1 in links && e.0 == NormalizeType(relType)
    ensures forall l :: l in links && (!hrefRequired || l.href != "") ==>
              (NormalizeType(relType), l) in GroupEntries(NormalizeType(relType), links, hrefRequired)
    ensures !hrefRequired ==> |GroupEntries(NormalizeType(relType), links, hrefRequired)| == |links|
  {
    if links != [] {
      GroupEntriesSound(relType, links[..|links| - 1], hrefRequired);
      assert links == links[..|links| - 1] + [links[|links| - 1]];
    }
  }

  /** Every link with an href (every link, when none is required) of every
      group is visited, and without the href filter there is exactly one
      pair per related document. */
  lemma EntriesComplete(rels: Dict<seq<Link>>, hrefRequired: bool)
    ensures forall g, l :: g in rels && l in g.1 && (!hrefRequired || l.href != "") ==>
              (NormalizeType(g.0), l) in Entries(rels, hrefRequired)
    ensures !hrefRequired ==> |Entries(rels, hrefRequired)| == RelationCount(rels)
  {
    forall g, l {:trigger l in g.1, g in rels} | g in rels && l in g.1 && (!hrefRequired || l.href != "")
      ensures (NormalizeType(g.0), l) in Entries(rels, hrefRequired)
    {
      EntryVisited(rels, hrefRequired, g, l);
    }
    if !hrefRequired {
      EntriesCount(rels);
    }
  }

  /** One related document of one group, visited. */
  lemma {:induction false} EntryVisited(rels: Dict<seq<Link>>, hrefRequired: bool, g: (string, seq<Link>), l: Link)
    requires g in rels && l in g.1 && (!hrefRequired || l.href != "")
    ensures (NormalizeType(g.0), l) in Entries(rels, hrefRequired)
  {
    var p := rels[..|rels| - 1];
    var last := rels[|rels| - 1];
    var ep := Entries(p, hrefRequired);
    var eg := GroupEntries(NormalizeType(last.0), last.1, hrefRequired);
    assert Entries(rels, hrefRequired) == ep + eg;
    assert rels == p + [last];
    if g == last {
      GroupEntriesSound(g.0, g.1, hrefRequired);
      assert (NormalizeType(g.0), l) in eg;
    } else {
      assert g in p;
      EntryVisited(p, hrefRequired, g, l);
      assert (NormalizeType(g.0), l) in ep;
    }
  }

  /** Without the href filter, one pair per related document. */
  lemma {:induction false} EntriesCount(rels: Dict<seq<Link>>)
    ensures |Entries(rels, false)| == RelationCount(rels)
  {
    if rels != [] {
      var p := rels[..|rels| - 1];
      var g := rels[|rels| - 1];
      EntriesCount(p);
      GroupEntriesSound(g.0, g.1, false);
    }
  }
}
