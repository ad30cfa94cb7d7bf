/** The two ways the code base derives a document id from a
    thuvienphapluat.vn URL: the regular expression `-(\d+)\.aspx` (first
    match), and splitting on '-' and deleting ".aspx" from the last piece. */
module DocId {
  import opened Common

  /** End of the run of ASCII digits starting at `j`. */
  function DigitRunEnd(s: string, j: nat): (e: nat)
    requires j <= |s|
    ensures j <= e <= |s|
    ensures forall k :: j <= k < e ==> IsDigit(s[k])
    ensures e == |s| || !IsDigit(s[e])
    decreases |s| - j
  {
    if j < |s| && IsDigit(s[j]) then DigitRunEnd(s, j + 1) else j
  }

  /** The group of a match of `-(\d+)\.aspx` starting at position `i`, if any.
      The digit run is greedy; a shorter run would be followed by a digit,
      not by '.', so no other match starts at `i`. */
  function MatchAt(s: string, i: nat): (r: Option<string>)
    ensures r.Some? ==> i < |s| && s[i] == '-' && r.value != [] && AllDigits(r.value)
                        && OccursAt(s, "-" + r.value + ".aspx", i)
  {
    if i < |s| && s[i] == '-' then
      var e := DigitRunEnd(s, i + 1);
      if e > i + 1 && OccursAt(s, ".aspx", e) then
        var g := s[i + 1..e];
        assert s[i..e + 5] == "-" + g + ".aspx" by {
          assert s[i..e + 5] == [s[i]] + s[i + 1..e] + s[e..e + 5];
        }
        Some(g)
      else None
    else None
  }

  /** The leftmost position at or after `i` where the pattern matches, or -1. */
  function FirstMatch(s: string, i: nat): (k: int)
    requires i <= |s|
    ensures k == -1 || (i <= k < |s| && MatchAt(s, k).Some?)
    ensures forall k' :: i <= k' < |s| && (k == -1 || k' < k) ==> MatchAt(s, k').None?
    decreases |s| - i
  {
    if i == |s| then -1
    else if MatchAt(s, i).Some? then i
    else FirstMatch(s, i + 1)
  }

  function SearchFrom(s: string, i: nat): (r: Option<string>)
    requires i <= |s|
    ensures r.None? <==> forall k :: i <= k < |s| ==> MatchAt(s, k).None?
  {
    var k := FirstMatch(s, i);
    if k == -1 then None else MatchAt(s, k)
  }

  /** `re.search(r'-(\d+)\.aspx', url)` group 1, or None. */
  function ExtractDocId(url: string): (r: Option<string>)
    ensures r.Some? ==> r.value != [] && AllDigits(r.value)
                        && OccursAt(url, "-" + r.value + ".aspx", FirstMatch(url, 0))
    ensures r.None? <==> forall k :: 0 <= k < |url| ==> MatchAt(url, k).None?
  {
    SearchFrom(url, 0)
  }

  /** A match inside a string is still a match, with the same group, once
      more text is appended. */
  lemma MatchAtExtend(u: string, q: string, i: nat)
    requires MatchAt(u, i).Some?
    ensures MatchAt(u + q, i) == MatchAt(u, i)
  {
    var e := DigitRunEnd(u, i + 1);
    assert (u + q)[..|u|] == u;
    DigitRunEndExtend(u, q, i + 1, e);
    assert (u + q)[e..e + 5] == u[e..e + 5];
    assert (u + q)[i + 1..e] == u[i + 1..e];
  }

  lemma {:induction false} DigitRunEndExtend(u: string, q: string, j: nat, e: nat)
    requires j <= e < |u| && e == DigitRunEnd(u, j)
    ensures DigitRunEnd(u + q, j) == e
    decreases e - j
  {
    if j < e {
      DigitRunEndExtend(u, q, j + 1, e);
    }
  }

  /** Before a match of `u`, matching in `u + q` is matching in `u`: the
      '-' at the later match stops every digit run before the end of `u`. */
  lemma MatchAtBeforeMatch(u: string, q: string, k: nat, i: nat)
    requires k < i && MatchAt(u, i).Some?
    ensures MatchAt(u + q, k) == MatchAt(u, k)
  {
    var s := u + q;
    assert s[..|u|] == u;
    if k < |u| && u[k] == '-' {
      assert s[i] == '-';
      var e := DigitRunEnd(s, k + 1);
      assert e <= i;
      assert i + 7 <= |u|;
      DigitRunEndPrefix(u, q, k + 1, e);
      assert u[e..e + 5] == s[e..e + 5];
      assert s[k + 1..e] == u[k + 1..e];
    }
  }

  lemma {:induction false} DigitRunEndPrefix(u: string, q: string, j: nat, e: nat)
    requires j <= e && e < |u| && e == DigitRunEnd(u + q, j)
    ensures DigitRunEnd(u, j) == e
    decreases e - j
  {
    assert (u + q)[e] == u[e];
    if j < e {
      assert (u + q)[j] == u[j];
      DigitRunEndPrefix(u, q, j + 1, e);
    }
  }

  /** A trailing query string such as "?dll=true" does not change the id
      found in a URL that has one. */
  lemma ExtractDocIdIgnoresSuffix(u: string, q: string)
    requires ExtractDocId(u).Some?
    ensures ExtractDocId(u + q) == ExtractDocId(u)
  {
    var i := FirstMatch(u, 0);
    MatchAtExtend(u, q, i);
    forall k | 0 <= k < i ensures MatchAt(u + q, k).None? {
      MatchAtBeforeMatch(u, q, k, i);
    }
    FirstMatchFinds(u + q, 0, i);
  }

  lemma {:induction false} FirstMatchFinds(s: string, j: nat, i: nat)
    requires j <= i < |s| && MatchAt(s, i).Some?
    requires forall k :: j <= k < i ==> MatchAt(s, k).None?
    ensures FirstMatch(s, j) == i
    decreases i - j
  {
    if j < i {
      FirstMatchFinds(s, j + 1, i);
    }
  }

  // ---------------------------------------------------------------------------
  // The split-based id of the importers

  /** `url.split("-")[-1].replace(".aspx", "")`. */
  function SplitDocId(url: string): (r: string)
    ensures '-' !in r
  {
    var last := LastPart(url, '-');
    var r := ReplaceAll(last, ".aspx", "");
    assert '-' !in r by { ReplaceAllKeeps(last, ".aspx", "", '-'); }
    r
  }

  lemma {:induction false} ReplaceAllKeeps(s: string, pat: string, rep: string, c: char)
    requires pat != [] && c !in s && c !in rep
    ensures c !in ReplaceAll(s, pat, rep)
    decreases |s|
  {
    if |s| >= |pat| {
      if s[..|pat|] == pat {
        ReplaceAllKeeps(s[|pat|..], pat, rep, c);
      } else {
        ReplaceAllKeeps(s[1..], pat, rep, c);
      }
    }
  }

  lemma {:induction false} LastPartAfter(p: string, t: string)
    requires '-' !in t
    ensures LastPart(p + "-" + t, '-') == t
  {
    var parts := Split(p + "-" + t, '-');
    if p == [] {
      assert p + "-" + t == ['-'] + t;
      assert (['-'] + t)[1..] == t;
      SplitNone(t, '-');
    } else {
      assert (p + "-" + t)[1..] == p[1..] + "-" + t;
      LastPartAfter(p[1..], t);
      var tail := Split(p[1..] + "-" + t, '-');
      assert CountChar(p[1..] + "-" + t, '-') > 0 by {
        assert (p[1..] + "-" + t)[|p| - 1] == '-';
      }
    }
  }

  lemma ReplaceDigitsAspx(d: string)
    requires AllDigits(d)
    ensures ReplaceAll(d + ".aspx", ".aspx", "") == d
  {
    NoCharAfterDigits(d, [], '.');
    ReplaceKeepsPrefix(d, ".aspx", ".aspx", "");
    ReplaceAtStart(".aspx", ".aspx", "");
  }

  /** A prefix in which the pattern's first character never occurs is
      copied unchanged. */
  lemma {:induction false} ReplaceKeepsPrefix(d: string, t: string, pat: string, rep: string)
    requires pat != [] && pat[0] !in d
    ensures ReplaceAll(d + t, pat, rep) == d + ReplaceAll(t, pat, rep)
  {
    if d != [] {
      ReplaceSkip(d + t, pat, rep);
      assert (d + t)[1..] == d[1..] + t;
      ReplaceKeepsPrefix(d[1..], t, pat, rep);
      assert [d[0]] + (d[1..] + ReplaceAll(t, pat, rep)) == d + ReplaceAll(t, pat, rep);
    } else {
      assert d + t == t;
    }
  }

  /** A string that starts with the pattern has it replaced there first. */
  lemma ReplaceAtStart(s: string, pat: string, rep: string)
    requires pat != [] && |pat| <= |s| && s[..|pat|] == pat
    ensures ReplaceAll(s, pat, rep) == rep + ReplaceAll(s[|pat|..], pat, rep)
  {
  }

  /** A first character that cannot start the pattern is kept. */
  lemma ReplaceSkip(s: string, pat: string, rep: string)
    requires pat != [] && s != [] && s[0] != pat[0]
    ensures ReplaceAll(s, pat, rep) == [s[0]] + ReplaceAll(s[1..], pat, rep)
  {
    if |s| >= |pat| {
      assert s[..|pat|][0] != pat[0];
    }
  }

  lemma NoCharAfterDigits(d: string, tail: string, c: char)
    requires AllDigits(d) && !IsDigit(c) && c !in tail
    ensures c !in d + tail
  {
    forall k | 0 <= k < |d + tail| ensures (d + tail)[k] != c {
      if k < |d| {
        assert (d + tail)[k] == d[k];
      } else {
        assert (d + tail)[k] == tail[k - |d|];
      }
    }
  }

  /** On a canonical document URL, ending in "-<digits>.aspx", the two ways of
      deriving the id agree. */
  lemma SplitDocIdCanonical(p: string, d: string)
    requires d != [] && AllDigits(d)
    ensures SplitDocId(p + "-" + d + ".aspx") == d
  {
    assert p + "-" + d + ".aspx" == p + "-" + (d + ".aspx");
    NoCharAfterDigits(d, ".aspx", '-');
    LastPartAfter(p, d + ".aspx");
    ReplaceDigitsAspx(d);
  }

  /** With a query string after ".aspx" the split-based id keeps the query. */
  lemma SplitDocIdKeepsQuery(p: string, d: string)
    requires d != [] && AllDigits(d)
    ensures SplitDocId(p + "-" + d + ".aspx?dll=true") == d + "?dll=true"
  {
    var t := d + ".aspx?dll=true";
    assert p + "-" + d + ".aspx?dll=true" == p + "-" + t;
    NoCharAfterDigits(d, ".aspx?dll=true", '-');
    LastPartAfter(p, t);
    ReplaceDigitsAspxQuery(d);
  }

  lemma ReplaceDigitsAspxQuery(d: string)
    requires AllDigits(d)
    ensures ReplaceAll(d + ".aspx?dll=true", ".aspx", "") == d + "?dll=true"
  {
    NoCharAfterDigits(d, [], '.');
    ReplaceKeepsPrefix(d, ".aspx?dll=true", ".aspx", "");
    AspxQueryReplaced();
  }

  lemma AspxQueryReplaced()
    ensures ReplaceAll(".aspx?dll=true", ".aspx", "") == "?dll=true"
  {
    ReplaceAtStart(".aspx?dll=true", ".aspx", "");
    assert ".aspx?dll=true"[5..] == "?dll=true";
    QueryHasNoAspx();
  }

  lemma QueryHasNoAspx()
    ensures ReplaceAll("?dll=true", ".aspx", "") == "?dll=true"
  {
    ReplaceKeepsPrefix("?dll=true", [], ".aspx", "");
    assert "?dll=true" + [] == "?dll=true";
  }
}
