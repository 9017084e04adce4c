// find_problematic_links.py: flag quests whose wiki link looks inconsistent with the name.
module ProblemLinks {
  import opened Util
  import opened Catalog

  /** The four issues, in the order they are checked. */
  datatype Issue = Apostrophe | QuestionMark | PartFormat | Spaces

  const IssueOrder: seq<Issue> := [Apostrophe, QuestionMark, PartFormat, Spaces]

  /** The condition that raises each issue for a quest name and its link. */
  predicate Raised(issue: Issue, name: string, url: string) {
    match issue
    case Apostrophe => '\'' in name && !Contains(url, "%27")
    case QuestionMark => '?' in name && !Contains(url, "%3F")
    case PartFormat => Contains(name, " - Part ") && !Contains(url, "_-_Part_")
    case Spaces => ' ' in name && CountChar(name, ' ') > CountChar(name, '_')
  }

  function RaisedFn(name: string, url: string): Issue -> bool {
    (issue: Issue) => Raised(issue, name, url)
  }

  /** The issues list of one quest, built by the four checks in turn. */
  method IssuesFor(name: string, url: string) returns (issues: seq<Issue>)
    ensures issues == Filter(IssueOrder, RaisedFn(name, url))
  {
    issues := [];
    if '\'' in name && !Contains(url, "%27") {
      issues := issues + [Apostrophe];
    }
    assert issues == RaisedPart(Apostrophe, name, url);
    if '?' in name && !Contains(url, "%3F") {
      issues := issues + [QuestionMark];
    }
    assert issues == RaisedPart(Apostrophe, name, url) + RaisedPart(QuestionMark, name, url);
    if Contains(name, " - Part ") && !Contains(url, "_-_Part_") {
      issues := issues + [PartFormat];
    }
    assert issues == RaisedPart(Apostrophe, name, url) + RaisedPart(QuestionMark, name, url)
      + RaisedPart(PartFormat, name, url);
    if ' ' in name && CountChar(name, ' ') > CountChar(name, '_') {
      issues := issues + [Spaces];
    }
    FilterOrder(name, url);
  }

  /** The issue alone if it is raised, else nothing. */
  function RaisedPart(issue: Issue, name: string, url: string): seq<Issue> {
    if Raised(issue, name, url) then [issue] else []
  }

  /** One entry of problematic. */
  datatype Listed = Listed(npcName: string, questName: string, url: string, issues: seq<Issue>)

  function ListingOf(e: Entry): Option<Listed> {
    var issues := Filter(IssueOrder, RaisedFn(e.quest.name, e.quest.wikiUrl));
    if issues != [] then Some(Listed(e.npcName, e.quest.name, e.quest.wikiUrl, issues)) else None
  }

  function ListingFn(): Entry -> Option<Listed> {
    (e: Entry) => ListingOf(e)
  }

  function Problematic(cat: seq<Npc>): seq<Listed> {
    Collect(Entries(cat), ListingFn())
  }

  /** The script's loop over every quest of every NPC. */
  method FindProblematicLinks(cat: seq<Npc>) returns (problematic: seq<Listed>)
    ensures problematic == Problematic(cat)
  {
    var es := Entries(cat);
    problematic := [];
    for k := 0 to |es|
      invariant problematic == Collect(es[..k], ListingFn())
    {
      CollectSnoc(es, k, ListingFn());
      var issues := IssuesFor(es[k].quest.name, es[k].quest.wikiUrl);
      if issues != [] {
        problematic := problematic + [Listed(es[k].npcName, es[k].quest.name, es[k].quest.wikiUrl, issues)];
      }
    }
    assert es[..|es|] == es;
  }

  // ---------------------------------------------------------------------
  // Properties
  // ---------------------------------------------------------------------

  /** The issues of a quest, spelled out check by check. */
  lemma FilterOrder(name: string, url: string)
    ensures Filter(IssueOrder, RaisedFn(name, url)) ==
      RaisedPart(Apostrophe, name, url) + RaisedPart(QuestionMark, name, url)
      + RaisedPart(PartFormat, name, url) + RaisedPart(Spaces, name, url)
  {
    var f := RaisedFn(name, url);
    assert IssueOrder == [Apostrophe] + [QuestionMark] + [PartFormat] + [Spaces];
    FilterAppend([Apostrophe] + [QuestionMark] + [PartFormat], [Spaces], f);
    FilterAppend([Apostrophe] + [QuestionMark], [PartFormat], f);
    FilterAppend([Apostrophe], [QuestionMark], f);
    FilterSingleton(Apostrophe, f);
    FilterSingleton(QuestionMark, f);
    FilterSingleton(PartFormat, f);
    FilterSingleton(Spaces, f);
  }

  /** Position of an issue in the checking order. */
  function Rank(issue: Issue): nat {
    match issue
    case Apostrophe => 0
    case QuestionMark => 1
    case PartFormat => 2
    case Spaces => 3
  }

  /** Each issue is listed exactly when its condition holds, and the issues appear in the
      checking order. */
  lemma IssuesMeaning(name: string, url: string)
    ensures var issues := Filter(IssueOrder, RaisedFn(name, url));
      (Apostrophe in issues <==> '\'' in name && !Contains(url, "%27"))
      && (QuestionMark in issues <==> '?' in name && !Contains(url, "%3F"))
      && (PartFormat in issues <==> Contains(name, " - Part ") && !Contains(url, "_-_Part_"))
      && (Spaces in issues <==> CountChar(name, ' ') > CountChar(name, '_'))
      && (forall i, j :: 0 <= i < j < |issues| ==> Rank(issues[i]) < Rank(issues[j]))
  {
    var f := RaisedFn(name, url);
    FilterMember(IssueOrder, f, Apostrophe);
    FilterMember(IssueOrder, f, QuestionMark);
    FilterMember(IssueOrder, f, PartFormat);
    FilterMember(IssueOrder, f, Spaces);
    SpacesFlag(name, url);
    FilterRankOrder(IssueOrder, f);
  }

  /** Filtering keeps a list's strictly increasing rank order. */
  lemma {:induction false} FilterRankOrder(s: seq<Issue>, f: Issue -> bool)
    requires forall i, j :: 0 <= i < j < |s| ==> Rank(s[i]) < Rank(s[j])
    ensures forall i, j :: 0 <= i < j < |Filter(s, f)| ==> Rank(Filter(s, f)[i]) < Rank(Filter(s, f)[j])
    decreases |s|
  {
    if s != [] {
      var p := s[..|s| - 1];
      var x := s[|s| - 1];
      FilterRankOrder(p, f);
      var q := Filter(p, f);
      forall k | 0 <= k < |q| ensures Rank(q[k]) < Rank(x) {
        var m :| 0 <= m < |p| && p[m] == q[k];
        assert s[m] == p[m];
      }
      var r := Filter(s, f);
      assert r == q + (if f(x) then [x] else []);
      forall i, j | 0 <= i < j < |r| ensures Rank(r[i]) < Rank(r[j]) {
        if j < |q| {
          assert r[i] == q[i] && r[j] == q[j];
          assert Rank(q[i]) < Rank(q[j]);
        } else {
          assert r[i] == q[i] && r[j] == x;
        }
      }
    }
  }

  /** A character counted at least once occurs. */
  lemma {:induction false} CountCharPositive(s: string, c: char)
    requires CountChar(s, c) > 0
    ensures c in s
    decreases |s|
  {
    if s[0] != c {
      CountCharPositive(s[1..], c);
    }
  }

  /** The space flag depends on the name alone: more spaces than underscores. */
  lemma SpacesFlag(name: string, url: string)
    ensures Raised(Spaces, name, url) <==> CountChar(name, ' ') > CountChar(name, '_')
  {
    if CountChar(name, ' ') > CountChar(name, '_') {
      CountCharPositive(name, ' ');
    }
  }

  /** The listing holds one entry for each quest with at least one raised issue, carrying
      its NPC's name, its name, its link and its issues. */
  lemma ListedMeaning(cat: seq<Npc>, l: Listed)
    ensures l in Problematic(cat) <==>
      exists k :: 0 <= k < |Entries(cat)| && (
        var e := Entries(cat)[k];
        l.npcName == e.npcName && l.questName == e.quest.name && l.url == e.quest.wikiUrl
        && l.issues == Filter(IssueOrder, RaisedFn(e.quest.name, e.quest.wikiUrl))
        && l.issues != [])
    ensures |Problematic(cat)| <= |Entries(cat)|
  {
    CollectMember(Entries(cat), ListingFn(), l);
  }

  /** An entry is listed exactly when some issue is raised for it. */
  lemma ListingIff(e: Entry)
    ensures ListingOf(e).Some? <==> exists issue :: Raised(issue, e.quest.name, e.quest.wikiUrl)
  {
    FilterOrder(e.quest.name, e.quest.wikiUrl);
  }
}
