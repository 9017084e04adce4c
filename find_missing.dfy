// find_missing_prerequisites.py: two read-only reports over the catalog:
// quests with no prerequisites at all that look as if they should have some,
// and "Part 2"/"Part II" quests whose first part is not yet a prerequisite.
module FindMissing {
  import opened Util
  import opened Catalog
  import opened Patterns

  // ---------------------------------------------------------------------
  // find_quests_with_no_prerequisites
  // ---------------------------------------------------------------------

  const PartReason := "Quest com \"Part\" mas sem pre-requisitos"
  const ReferencedReason := "Referenciada por outras quests mas sem pre-requisitos"

  datatype Suspicious = Suspicious(
    npcName: string,
    questId: string,
    questName: string,
    reason: string,
    referencedBy: seq<(string, string)>)

  /** The (NPC name, quest name) of one quest when its combined prerequisites list id. */
  function RefFn(id: string): Entry -> Option<(string, string)> {
    (e: Entry) => if id in AllPrereqs(e.quest) then Some((e.npcName, e.quest.name)) else None
  }

  /** referenced_by: every quest of the catalog, in visiting order, that lists id. */
  function ReferencedBy(es: seq<Entry>, id: string): seq<(string, string)> {
    Collect(es, RefFn(id))
  }

  /** The report entry for one quest, given whether its name has a part number and who references it. */
  function SuspicionFrom(e: Entry, hasPart: bool, refs: seq<(string, string)>): Option<Suspicious> {
    if !HasNoPrereqs(e.quest) then None
    else if hasPart then Some(Suspicious(e.npcName, e.quest.id, e.quest.name, PartReason, refs))
    else if refs != [] then Some(Suspicious(e.npcName, e.quest.id, e.quest.name, ReferencedReason, refs))
    else None
  }

  /** The report entry for one quest of the catalog es. */
  function Suspicion(es: seq<Entry>, e: Entry): Option<Suspicious> {
    SuspicionFrom(e, SearchPartNumber(e.quest.name).Some?, ReferencedBy(es, e.quest.id))
  }

  function SuspicionFn(es: seq<Entry>): Entry -> Option<Suspicious> {
    e => Suspicion(es, e)
  }

  /** The whole report, in visiting order. */
  function SuspiciousQuests(cat: seq<Npc>): seq<Suspicious> {
    Collect(Entries(cat), SuspicionFn(Entries(cat)))
  }

  method FindReferencedBy(es: seq<Entry>, id: string) returns (refs: seq<(string, string)>)
    ensures refs == ReferencedBy(es, id)
  {
    refs := [];
    for k := 0 to |es|
      invariant refs == Collect(es[..k], RefFn(id))
    {
      CollectSnoc(es, k, RefFn(id));
      var other := es[k].quest;
      var otherPrereqs := other.prerequisites + other.prerequisitesExternal;
      if id in otherPrereqs {
        refs := refs + [(es[k].npcName, other.name)];
      }
    }
    assert es[..|es|] == es;
  }

  /** The per-quest step, given whether the name has a part number. */
  method Inspect(es: seq<Entry>, e: Entry, hasPart: bool) returns (s: Option<Suspicious>)
    ensures s == SuspicionFrom(e, hasPart, ReferencedBy(es, e.quest.id))
  {
    s := None;
    var q := e.quest;
    if q.prerequisites == [] && q.prerequisitesExternal == [] {
      var refs := FindReferencedBy(es, q.id);
      if hasPart {
        s := Some(Suspicious(e.npcName, q.id, q.name, PartReason, refs));
      } else if refs != [] {
        s := Some(Suspicious(e.npcName, q.id, q.name, ReferencedReason, refs));
      }
    }
  }

  method FindQuestsWithNoPrerequisites(cat: seq<Npc>) returns (suspicious: seq<Suspicious>)
    ensures suspicious == SuspiciousQuests(cat)
  {
    var es := Entries(cat);
    suspicious := [];
    for k := 0 to |es|
      invariant suspicious == Collect(es[..k], SuspicionFn(es))
    {
      var e := es[k];
      CollectSnoc(es, k, SuspicionFn(es));
      var s := Inspect(es, e, SearchPartNumber(e.quest.name).Some?);
      assert SuspicionFn(es)(es[k]) == s;
      if s.Some? {
        suspicious := suspicious + [s.value];
      }
    }
    assert es[..|es|] == es;
  }

  /** referenced_by holds exactly the quests whose combined prerequisites contain the id. */
  lemma ReferencedByMember(es: seq<Entry>, id: string, p: (string, string))
    ensures p in ReferencedBy(es, id) <==>
      exists k :: 0 <= k < |es| && id in AllPrereqs(es[k].quest) && p == (es[k].npcName, es[k].quest.name)
  {
    CollectMember(es, RefFn(id), p);
  }

  /** A quest is reported iff both its lists are empty and either its name has a part
      number (any number, Part 1 included) or some quest references it; the reason is
      the part one whenever the name has a part number. */
  lemma SuspicionFromMeaning(e: Entry, hasPart: bool, refs: seq<(string, string)>)
    ensures SuspicionFrom(e, hasPart, refs).Some? <==> HasNoPrereqs(e.quest) && (hasPart || refs != [])
    ensures SuspicionFrom(e, hasPart, refs).Some? ==>
      var s := SuspicionFrom(e, hasPart, refs).value;
      s.npcName == e.npcName && s.questId == e.quest.id && s.questName == e.quest.name
      && s.referencedBy == refs && (s.reason == PartReason <==> hasPart)
      && (s.reason == ReferencedReason <==> !hasPart)
  {
  }

  /** The same, for a quest of the catalog: the part test is the regex search `part\s+\d+`. */
  lemma SuspicionMeaning(es: seq<Entry>, e: Entry)
    ensures Suspicion(es, e).Some? <==>
      HasNoPrereqs(e.quest) && (SearchPartNumber(e.quest.name).Some? || ReferencedBy(es, e.quest.id) != [])
    ensures Suspicion(es, e).Some? ==>
      Suspicion(es, e).value.referencedBy == ReferencedBy(es, e.quest.id)
      && (Suspicion(es, e).value.reason == PartReason <==> SearchPartNumber(e.quest.name).Some?)
  {
    SuspicionFromMeaning(e, SearchPartNumber(e.quest.name).Some?, ReferencedBy(es, e.quest.id));
  }

  /** Every reported quest is one catalog quest, and at most one report per quest. */
  lemma SuspiciousQuestsMember(cat: seq<Npc>, s: Suspicious)
    ensures s in SuspiciousQuests(cat) <==>
      exists k :: 0 <= k < |Entries(cat)| && Suspicion(Entries(cat), Entries(cat)[k]) == Some(s)
    ensures |SuspiciousQuests(cat)| <= |Entries(cat)|
  {
    var es := Entries(cat);
    CollectMember(es, SuspicionFn(es), s);
    assert forall k :: 0 <= k < |es| ==> SuspicionFn(es)(es[k]) == Suspicion(es, es[k]);
  }

  // ---------------------------------------------------------------------
  // find_quests_referencing_others
  // ---------------------------------------------------------------------

  datatype Issue = Issue(
    npcName: string,
    questId: string,
    questName: string,
    issue: string,
    suggestedPrerequisite: string,
    suggestedNpc: string)

  /** Only quests whose lower-cased name contains "part 2" or "part ii" are examined. */
  predicate IsSecondPart(name: string) {
    Contains(Lower(name), "part 2") || Contains(Lower(name), "part ii")
  }

  /** The name with " - Part 2..." and then " - Part II..." cut off. */
  function SecondPartBase(name: string): string {
    Sub(Sub(name, DashPartTwo), DashPartRoman)
  }

  /** A first-part candidate: its lower-cased name contains the lower-cased base and
      "part 1" or "part i", and it is not yet a prerequisite. */
  predicate FirstPartOf(o: Quest, lowerBase: string, all: seq<string>) {
    var l := Lower(o.name);
    Contains(l, lowerBase) && (Contains(l, "part 1") || Contains(l, "part i")) && o.id !in all
  }

  function IssueText(o: Quest): string {
    "Pode precisar de \"" + o.name + "\" (" + o.id + ") como pre-requisito"
  }

  function IssueOf(e: Entry, lowerBase: string, o: Entry): Option<Issue> {
    if FirstPartOf(o.quest, lowerBase, AllPrereqs(e.quest)) then
      Some(Issue(e.npcName, e.quest.id, e.quest.name, IssueText(o.quest), o.quest.id, o.npcName))
    else None
  }

  function IssueFn(e: Entry, lowerBase: string): Entry -> Option<Issue> {
    o => IssueOf(e, lowerBase, o)
  }

  /** The issues of one quest, given whether it is a second part and its lower-cased base. */
  function IssuesFrom(es: seq<Entry>, e: Entry, second: bool, lowerBase: string): seq<Issue> {
    if second then Collect(es, IssueFn(e, lowerBase)) else []
  }

  /** The issues of one quest: every catalog quest, itself included, is a candidate. */
  function IssuesFor(es: seq<Entry>, e: Entry): seq<Issue> {
    IssuesFrom(es, e, IsSecondPart(e.quest.name), Lower(SecondPartBase(e.quest.name)))
  }

  function IssuesForFn(es: seq<Entry>): Entry -> seq<Issue> {
    e => IssuesFor(es, e)
  }

  function Issues(cat: seq<Npc>): seq<Issue> {
    FlatMap(Entries(cat), IssuesForFn(Entries(cat)))
  }

  method CollectIssues(es: seq<Entry>, e: Entry, second: bool, lowerBase: string) returns (issues: seq<Issue>)
    ensures issues == IssuesFrom(es, e, second, lowerBase)
  {
    issues := [];
    if !second {
      return;
    }
    var all := e.quest.prerequisites + e.quest.prerequisitesExternal;
    for k := 0 to |es|
      invariant issues == Collect(es[..k], IssueFn(e, lowerBase))
    {
      CollectSnoc(es, k, IssueFn(e, lowerBase));
      var o := es[k].quest;
      var otherName := Lower(o.name);
      if Contains(otherName, lowerBase) && (Contains(otherName, "part 1") || Contains(otherName, "part i")) && o.id !in all {
        issues := issues + [Issue(e.npcName, e.quest.id, e.quest.name, IssueText(o), o.id, es[k].npcName)];
      }
    }
    assert es[..|es|] == es;
  }

  method FindQuestsReferencingOthers(cat: seq<Npc>) returns (issues: seq<Issue>)
    ensures issues == Issues(cat)
  {
    var es := Entries(cat);
    issues := [];
    for k := 0 to |es|
      invariant issues == FlatMap(es[..k], IssuesForFn(es))
    {
      var e := es[k];
      FlatMapSnoc(es, k, IssuesForFn(es));
      var name := Lower(e.quest.name);
      var second := Contains(name, "part 2") || Contains(name, "part ii");
      var found := CollectIssues(es, e, second, Lower(SecondPartBase(e.quest.name)));
      assert IssuesForFn(es)(es[k]) == found;
      issues := issues + found;
    }
    assert es[..|es|] == es;
  }

  /** An issue is raised for quest e and candidate o iff e is a second part and o is a
      first-part candidate for e's lower-cased base. */
  lemma IssuesFromMember(es: seq<Entry>, e: Entry, second: bool, lowerBase: string, x: Issue)
    ensures x in IssuesFrom(es, e, second, lowerBase) <==>
      second && exists k :: (0 <= k < |es| && FirstPartOf(es[k].quest, lowerBase, AllPrereqs(e.quest))
        && x == Issue(e.npcName, e.quest.id, e.quest.name, IssueText(es[k].quest), es[k].quest.id, es[k].npcName))
  {
    if second {
      CollectMember(es, IssueFn(e, lowerBase), x);
    }
  }

  /** Every issue names a second-part quest and a first-part candidate that is not yet its prerequisite. */
  lemma IssuesMember(cat: seq<Npc>, x: Issue)
    ensures x in Issues(cat) <==>
      exists k :: 0 <= k < |Entries(cat)| && x in IssuesFor(Entries(cat), Entries(cat)[k])
    ensures x in Issues(cat) ==>
      exists k, m :: (0 <= k < |Entries(cat)| && 0 <= m < |Entries(cat)|
        && IsSecondPart(Entries(cat)[k].quest.name)
        && FirstPartOf(Entries(cat)[m].quest, Lower(SecondPartBase(Entries(cat)[k].quest.name)), AllPrereqs(Entries(cat)[k].quest))
        && x.questId == Entries(cat)[k].quest.id && x.suggestedPrerequisite == Entries(cat)[m].quest.id
        && x.suggestedPrerequisite !in AllPrereqs(Entries(cat)[k].quest))
  {
    var es := Entries(cat);
    FlatMapMember(es, IssuesForFn(es), x);
    if x in Issues(cat) {
      var k :| 0 <= k < |es| && x in IssuesFor(es, es[k]);
      var e := es[k];
      IssuesFromMember(es, e, IsSecondPart(e.quest.name), Lower(SecondPartBase(e.quest.name)), x);
    }
  }

  // ---------------------------------------------------------------------
  // A "Part II" quest is its own first part
  // ---------------------------------------------------------------------

  /** On one line, re.sub to the end of the line leaves a prefix. */
  lemma SubPrefix(s: string, pat: Pattern)
    requires '\n' !in s
    ensures |Sub(s, pat)| <= |s| && Sub(s, pat) == s[..|Sub(s, pat)|]
  {
    SubOneLine(s, pat);
  }

  lemma SecondPartBasePrefix(name: string)
    requires '\n' !in name
    ensures |SecondPartBase(name)| <= |name| && SecondPartBase(name) == name[..|SecondPartBase(name)|]
  {
    var once := Sub(name, DashPartTwo);
    SubPrefix(name, DashPartTwo);
    NewlineFreePrefix(name, once);
    SubPrefix(once, DashPartRoman);
    PrefixTrans(name, once, Sub(once, DashPartRoman));
  }

  lemma NewlineFreePrefix(s: string, t: string)
    requires '\n' !in s && |t| <= |s| && t == s[..|t|]
    ensures '\n' !in t
  {
    forall i | 0 <= i < |t| ensures t[i] != '\n' {
      assert t[i] == s[i];
    }
  }

  lemma PrefixTrans(a: string, b: string, c: string)
    requires |b| <= |a| && b == a[..|b|] && |c| <= |b| && c == b[..|c|]
    ensures |c| <= |a| && c == a[..|c|]
  {
  }

  /** A one-line name contains its own lower-cased base. */
  lemma OwnNameHasBase(name: string)
    requires '\n' !in name
    ensures Contains(Lower(name), Lower(SecondPartBase(name)))
  {
    SecondPartBasePrefix(name);
    LowerPrefixContained(name, SecondPartBase(name));
  }

  lemma LowerPrefixContained(s: string, t: string)
    requires |t| <= |s| && t == s[..|t|]
    ensures Contains(Lower(s), Lower(t))
  {
    LowerSlice(s, 0, |t|);
    assert OccursAt(Lower(s), Lower(t), 0);
  }

  /** "part i" occurs wherever "part ii" does. */
  lemma PartIiHasPartI(l: string)
    requires Contains(l, "part ii")
    ensures Contains(l, "part i")
  {
    var i :| 0 <= i <= |l| - |"part ii"| && OccursAt(l, "part ii", i);
    assert l[i..i + |"part i"|] == l[i..i + |"part ii"|][..|"part i"|];
    assert OccursAt(l, "part i", i);
  }

  /** As written: "part i" is also found inside "part ii", and the quest itself is among
      the candidates, so a "... - Part II" quest that does not list itself is suggested
      as its own prerequisite. */
  lemma RomanSecondPartSuggestsItself(es: seq<Entry>, k: nat)
    requires k < |es|
    requires '\n' !in es[k].quest.name && Contains(Lower(es[k].quest.name), "part ii")
    requires es[k].quest.id !in AllPrereqs(es[k].quest)
    ensures exists x :: x in IssuesFor(es, es[k]) && x.questId == es[k].quest.id && x.suggestedPrerequisite == es[k].quest.id
  {
    var e := es[k];
    var lowerBase := Lower(SecondPartBase(e.quest.name));
    OwnNameHasBase(e.quest.name);
    PartIiHasPartI(Lower(e.quest.name));
    assert FirstPartOf(e.quest, lowerBase, AllPrereqs(e.quest));
    var x := Issue(e.npcName, e.quest.id, e.quest.name, IssueText(e.quest), e.quest.id, e.npcName);
    IssuesFromMember(es, e, IsSecondPart(e.quest.name), lowerBase, x);
  }

  /** Corrected: the quest itself is not a candidate for its own first part. */
  function OtherIssueOf(e: Entry, lowerBase: string, o: Entry): Option<Issue> {
    if o.quest.id == e.quest.id then None else IssueOf(e, lowerBase, o)
  }

  function OtherIssueFn(e: Entry, lowerBase: string): Entry -> Option<Issue> {
    o => OtherIssueOf(e, lowerBase, o)
  }

  function OtherIssuesFrom(es: seq<Entry>, e: Entry, second: bool, lowerBase: string): seq<Issue> {
    if second then Collect(es, OtherIssueFn(e, lowerBase)) else []
  }

  function OtherIssuesFor(es: seq<Entry>, e: Entry): seq<Issue> {
    OtherIssuesFrom(es, e, IsSecondPart(e.quest.name), Lower(SecondPartBase(e.quest.name)))
  }

  function OtherIssuesForFn(es: seq<Entry>): Entry -> seq<Issue> {
    e => OtherIssuesFor(es, e)
  }

  /** The corrected find_quests_referencing_others. */
  function OtherIssues(cat: seq<Npc>): seq<Issue> {
    FlatMap(Entries(cat), OtherIssuesForFn(Entries(cat)))
  }

  /** The corrected issues are the original ones minus those suggesting the quest itself. */
  lemma OtherIssuesFromMember(es: seq<Entry>, e: Entry, second: bool, lowerBase: string, x: Issue)
    ensures x in OtherIssuesFrom(es, e, second, lowerBase) <==>
      x in IssuesFrom(es, e, second, lowerBase) && x.suggestedPrerequisite != e.quest.id
  {
    if second {
      CollectMember(es, OtherIssueFn(e, lowerBase), x);
      IssuesFromMember(es, e, second, lowerBase, x);
      if x in IssuesFrom(es, e, second, lowerBase) && x.suggestedPrerequisite != e.quest.id {
        var k :| 0 <= k < |es| && FirstPartOf(es[k].quest, lowerBase, AllPrereqs(e.quest))
          && x == Issue(e.npcName, e.quest.id, e.quest.name, IssueText(es[k].quest), es[k].quest.id, es[k].npcName);
        assert OtherIssueFn(e, lowerBase)(es[k]) == Some(x);
      }
    }
  }

  /** No corrected issue suggests a quest as its own prerequisite. */
  lemma OtherIssuesNotSelf(cat: seq<Npc>, x: Issue)
    requires x in OtherIssues(cat)
    ensures x.suggestedPrerequisite != x.questId
  {
    var es := Entries(cat);
    FlatMapMember(es, OtherIssuesForFn(es), x);
    var k :| 0 <= k < |es| && x in OtherIssuesFor(es, es[k]);
    var e := es[k];
    OtherIssuesFromMember(es, e, IsSecondPart(e.quest.name), Lower(SecondPartBase(e.quest.name)), x);
    IssuesFromMember(es, e, IsSecondPart(e.quest.name), Lower(SecondPartBase(e.quest.name)), x);
  }
}
