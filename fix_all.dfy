// fix_all_prerequisites.py: for every "Part N" quest (N > 1), look for an
// earlier part among the same NPC's quests, then among the other NPCs'
// quests, by substring match on the lower-cased names; suggest the first hit
// as an internal or external prerequisite; then apply the suggestions.
module FixAll {
  import opened Util
  import opened Catalog
  import opened Patterns
  import opened Fixes
  import AutoFix

  /** The key of this script's quest_by_name: the lower-cased name, not stripped. */
  function LowerNameKey(e: Entry): string {
    Lower(e.quest.name)
  }

  /** build_index: quest_by_id and quest_by_name (the latter is never consulted). */
  method BuildIndex(cat: seq<Npc>) returns (byId: map<string, Located>, byName: map<string, AutoFix.Named>)
    ensures byId == IdIndex(Entries(cat)) && byName == AutoFix.KeyedIndex(Entries(cat), LowerNameKey)
  {
    var es := Entries(cat);
    byId, byName := map[], map[];
    for i := 0 to |es|
      invariant byId == IdIndex(es[..i]) && byName == AutoFix.KeyedIndex(es[..i], LowerNameKey)
    {
      var e := es[i];
      assert es[..i + 1] == es[..i] + [e];
      IdIndexSnoc(es[..i], e);
      AutoFix.KeyedIndexSnoc(es[..i], e, LowerNameKey);
      if e.quest.id != "" {
        byId := byId[e.quest.id := Located(e.npc, e.quest)];
        byName := byName[LowerNameKey(e) := AutoFix.Named(e.npc, e.quest.id, e.quest)];
      }
    }
    assert es[..|es| - 0] == es;
  }

  // ---------------------------------------------------------------------
  // The candidate tests
  // ---------------------------------------------------------------------

  /** The other quest's lower-cased name contains "<base> part <prev>" or "<base> - part <prev>". */
  predicate NamesPart(other: Quest, base: string, prev: nat) {
    var k := NatToString(prev);
    Contains(Lower(other.name), base + " part " + k) || Contains(Lower(other.name), base + " - part " + k)
  }

  /** A same-NPC candidate: names the part, is not yet a prerequisite of either kind, and
      (redundantly) is not in the internal list. */
  predicate SameNpcCandidate(q: Quest, base: string, prev: nat, other: Quest) {
    NamesPart(other, base, prev) && other.id !in AllPrereqs(q) && other.id !in q.prerequisites
  }

  /** A candidate of another NPC: the same, with the external list checked instead. */
  predicate OtherNpcCandidate(q: Quest, base: string, prev: nat, other: Quest) {
    NamesPart(other, base, prev) && other.id !in AllPrereqs(q) && other.id !in q.prerequisitesExternal
  }

  function SameFn(q: Quest, base: string, prev: nat): Quest -> bool {
    o => SameNpcCandidate(q, base, prev, o)
  }

  function OtherFn(q: Quest, base: string, prev: nat): Quest -> bool {
    o => OtherNpcCandidate(q, base, prev, o)
  }

  /** The first quest of a list passing a test. */
  function FirstWhere(qs: seq<Quest>, p: Quest -> bool): (r: Option<nat>)
    ensures r.Some? ==> r.value < |qs| && p(qs[r.value]) && forall j :: 0 <= j < r.value ==> !p(qs[j])
    ensures r.None? ==> forall j :: 0 <= j < |qs| ==> !p(qs[j])
    decreases |qs|
  {
    if qs == [] then None
    else if p(qs[0]) then Some(0)
    else match FirstWhere(qs[1..], p)
      case None => None
      case Some(j) => Some(j + 1)
  }

  /** The first quest, over NPCs from position k on whose key is not `skip`, passing a test:
      (NPC position, quest position). */
  function FirstElsewhere(cat: seq<Npc>, skip: string, p: Quest -> bool, k: nat): (r: Option<(nat, nat)>)
    requires k <= |cat|
    ensures r.Some? ==>
      k <= r.value.0 < |cat| && cat[r.value.0].key != skip && FirstWhere(cat[r.value.0].quests, p) == Some(r.value.1)
    ensures r.Some? ==> forall k' :: k <= k' < r.value.0 && cat[k'].key != skip ==> FirstWhere(cat[k'].quests, p).None?
    ensures r.None? ==> forall k' :: k <= k' < |cat| && cat[k'].key != skip ==> FirstWhere(cat[k'].quests, p).None?
    decreases |cat| - k
  {
    if k == |cat| then None
    else if cat[k].key != skip && FirstWhere(cat[k].quests, p).Some? then Some((k, FirstWhere(cat[k].quests, p).value))
    else FirstElsewhere(cat, skip, p, k + 1)
  }

  function Reason(part: nat, prev: nat, external: bool): string {
    "Part " + NatToString(part) + " deve ter Part " + NatToString(prev) + " como pre-requisito"
    + (if external then " externo" else "")
  }

  /** The suggestion for part prev alone: the NPC's own first candidate quest, otherwise
      the first candidate of another NPC. */
  function Hit(cat: seq<Npc>, npc: Npc, q: Quest, base: string, part: nat, prev: nat): Option<Fix> {
    var same := FirstWhere(npc.quests, SameFn(q, base, prev));
    if same.Some? then
      var o := npc.quests[same.value];
      Some(Fix(npc.name, q.id, q.name, o.id, o.name, false, Reason(part, prev, false)))
    else
      var other := FirstElsewhere(cat, npc.key, OtherFn(q, base, prev), 0);
      if other.Some? then
        var o := cat[other.value.0].quests[other.value.1];
        Some(Fix(npc.name, q.id, q.name, o.id, o.name, true, Reason(part, prev, true)))
      else None
  }

  function HitFn(cat: seq<Npc>, npc: Npc, q: Quest, base: string, part: nat): nat -> Option<Fix> {
    (k: nat) => Hit(cat, npc, q, base, part, k)
  }

  /** The first of h(prev), h(prev - 1), ..., h(1) that is present. */
  function Latest<T>(h: nat -> Option<T>, prev: nat): Option<T>
    decreases prev
  {
    if prev == 0 then None
    else if h(prev).Some? then h(prev)
    else Latest(h, prev - 1)
  }

  lemma {:induction false} LatestMeaning<T>(h: nat -> Option<T>, prev: nat)
    ensures Latest(h, prev).None? <==> forall k: nat :: 1 <= k <= prev ==> h(k).None?
    ensures Latest(h, prev).Some? ==>
      exists k: nat :: 1 <= k <= prev && Latest(h, prev) == h(k) && forall k': nat :: k < k' <= prev ==> h(k').None?
    decreases prev
  {
    if prev > 0 {
      LatestMeaning(h, prev - 1);
    }
  }

  /** Parts prev, prev - 1, ..., 1, stopping at the first that gives a suggestion. */
  function SearchBack(cat: seq<Npc>, npc: Npc, q: Quest, base: string, part: nat, prev: nat): Option<Fix> {
    Latest(HitFn(cat, npc, q, base, part), prev)
  }

  /** The suggestion for quest q of an NPC given its part number and base name. */
  function QuestFixFrom(cat: seq<Npc>, npc: Npc, q: Quest, partMatch: Option<nat>, base: string): Option<Fix> {
    if partMatch.Some? && partMatch.value > 1 then SearchBack(cat, npc, q, base, partMatch.value, partMatch.value - 1)
    else None
  }

  /** The suggestion for quest q of an NPC: the base name keeps its case. */
  function QuestFix(cat: seq<Npc>, npc: Npc, q: Quest): Option<Fix> {
    QuestFixFrom(cat, npc, q, SearchPartNumber(q.name), PartBase(q.name))
  }

  function NpcFixFn(cat: seq<Npc>, npc: Npc): Quest -> Option<Fix> {
    q => QuestFix(cat, npc, q)
  }

  function QuestFixFn(cat: seq<Npc>): Npc -> Quest -> Option<Fix> {
    npc => NpcFixFn(cat, npc)
  }

  /** The suggestions f gives, NPC by NPC and quest by quest, over the first n NPCs. */
  function PerQuest(cat: seq<Npc>, n: nat, f: Npc -> Quest -> Option<Fix>): seq<Fix>
    requires n <= |cat|
  {
    if n == 0 then [] else PerQuest(cat, n - 1, f) + Collect(cat[n - 1].quests, f(cat[n - 1]))
  }

  lemma {:induction false} PerQuestMember(cat: seq<Npc>, n: nat, f: Npc -> Quest -> Option<Fix>, x: Fix)
    requires n <= |cat|
    ensures x in PerQuest(cat, n, f) <==>
      exists i, j :: 0 <= i < n && 0 <= j < |cat[i].quests| && f(cat[i])(cat[i].quests[j]) == Some(x)
    decreases n
  {
    if n > 0 {
      PerQuestMember(cat, n - 1, f, x);
      CollectMember(cat[n - 1].quests, f(cat[n - 1]), x);
    }
  }

  /** find_part_quests_missing_prereqs. */
  function PartFixes(cat: seq<Npc>): seq<Fix> {
    PerQuest(cat, |cat|, QuestFixFn(cat))
  }

  // ---------------------------------------------------------------------
  // The loops
  // ---------------------------------------------------------------------

  method FindFirstWhere(qs: seq<Quest>, p: Quest -> bool) returns (r: Option<nat>)
    ensures r == FirstWhere(qs, p)
  {
    for j := 0 to |qs|
      invariant forall j' :: 0 <= j' < j ==> !p(qs[j'])
    {
      if p(qs[j]) {
        FirstWhereIs(qs, p, j);
        return Some(j);
      }
    }
    FirstWhereNone(qs, p);
    return None;
  }

  lemma {:induction false} FirstWhereIs(qs: seq<Quest>, p: Quest -> bool, j: nat)
    requires j < |qs| && p(qs[j]) && forall j' :: 0 <= j' < j ==> !p(qs[j'])
    ensures FirstWhere(qs, p) == Some(j)
    decreases j
  {
    if j > 0 {
      FirstWhereIs(qs[1..], p, j - 1);
    }
  }

  lemma FirstWhereNone(qs: seq<Quest>, p: Quest -> bool)
    requires forall j :: 0 <= j < |qs| ==> !p(qs[j])
    ensures FirstWhere(qs, p).None?
  {
  }

  method FindElsewhere(cat: seq<Npc>, skip: string, p: Quest -> bool) returns (r: Option<(nat, nat)>)
    ensures r == FirstElsewhere(cat, skip, p, 0)
  {
    for k := 0 to |cat|
      invariant FirstElsewhere(cat, skip, p, 0) == FirstElsewhere(cat, skip, p, k)
    {
      if cat[k].key == skip {
        continue;
      }
      var j := FindFirstWhere(cat[k].quests, p);
      if j.Some? {
        return Some((k, j.value));
      }
    }
    return None;
  }

  method FindHit(cat: seq<Npc>, npc: Npc, q: Quest, base: string, partNum: nat, prev: nat) returns (fix: Option<Fix>)
    ensures fix == Hit(cat, npc, q, base, partNum, prev)
  {
    var same := FindFirstWhere(npc.quests, SameFn(q, base, prev));
    if same.Some? {
      var o := npc.quests[same.value];
      return Some(Fix(npc.name, q.id, q.name, o.id, o.name, false, Reason(partNum, prev, false)));
    }
    var other := FindElsewhere(cat, npc.key, OtherFn(q, base, prev));
    if other.Some? {
      var o := cat[other.value.0].quests[other.value.1];
      return Some(Fix(npc.name, q.id, q.name, o.id, o.name, true, Reason(partNum, prev, true)));
    }
    return None;
  }

  method FindPrevious(cat: seq<Npc>, npc: Npc, q: Quest, base: string, partNum: nat) returns (fix: Option<Fix>)
    requires partNum > 1
    ensures fix == SearchBack(cat, npc, q, base, partNum, partNum - 1)
  {
    var prev := partNum - 1;
    while prev > 0
      invariant 0 <= prev <= partNum - 1
      invariant SearchBack(cat, npc, q, base, partNum, partNum - 1) == SearchBack(cat, npc, q, base, partNum, prev)
    {
      fix := FindHit(cat, npc, q, base, partNum, prev);
      if fix.Some? {
        return;
      }
      prev := prev - 1;
    }
    return None;
  }

  method SuggestFor(cat: seq<Npc>, npc: Npc, q: Quest, partMatch: Option<nat>, base: string) returns (fix: Option<Fix>)
    ensures fix == QuestFixFrom(cat, npc, q, partMatch, base)
  {
    fix := None;
    if partMatch.Some? && partMatch.value > 1 {
      fix := FindPrevious(cat, npc, q, base, partMatch.value);
    }
  }

  /** The suggestions for one NPC's quests, in order. */
  method NpcFixes(cat: seq<Npc>, npc: Npc) returns (local: seq<Fix>)
    ensures local == Collect(npc.quests, NpcFixFn(cat, npc))
  {
    local := [];
    for j := 0 to |npc.quests|
      invariant local == Collect(npc.quests[..j], NpcFixFn(cat, npc))
    {
      var q := npc.quests[j];
      CollectSnoc(npc.quests, j, NpcFixFn(cat, npc));
      var fix := SuggestFor(cat, npc, q, SearchPartNumber(q.name), PartBase(q.name));
      assert NpcFixFn(cat, npc)(npc.quests[j]) == fix;
      if fix.Some? {
        local := local + [fix.value];
      }
    }
    assert npc.quests[..|npc.quests|] == npc.quests;
  }

  /** find_part_quests_missing_prereqs. */
  method FindPartQuestsMissingPrereqs(cat: seq<Npc>) returns (fixes: seq<Fix>)
    ensures fixes == PartFixes(cat)
  {
    fixes := [];
    for i := 0 to |cat|
      invariant fixes == PerQuest(cat, i, QuestFixFn(cat))
    {
      var local := NpcFixes(cat, cat[i]);
      assert QuestFixFn(cat)(cat[i]) == NpcFixFn(cat, cat[i]);
      fixes := fixes + local;
    }
  }

  // ---------------------------------------------------------------------
  // What a suggestion means
  // ---------------------------------------------------------------------

  /** A part has a suggestion iff one of the NPC's own quests or one of the other NPCs'
      quests is a candidate; an own candidate wins and goes to the internal list, the first
      of the others' otherwise goes to the external list; either way the id added is not
      yet listed by the quest. */
  lemma HitMeaning(cat: seq<Npc>, npc: Npc, q: Quest, base: string, part: nat, prev: nat)
    ensures Hit(cat, npc, q, base, part, prev).None? <==>
      (forall j :: 0 <= j < |npc.quests| ==> !SameNpcCandidate(q, base, prev, npc.quests[j]))
      && forall a, j :: 0 <= a < |cat| && cat[a].key != npc.key && 0 <= j < |cat[a].quests| ==>
        !OtherNpcCandidate(q, base, prev, cat[a].quests[j])
    ensures Hit(cat, npc, q, base, part, prev).Some? ==>
      var f := Hit(cat, npc, q, base, part, prev).value;
      f.npcName == npc.name && f.questId == q.id && f.questName == q.name
      && f.addPrereq !in AllPrereqs(q) && f.reason == Reason(part, prev, f.external)
      && (!f.external <==> exists j :: 0 <= j < |npc.quests| && SameNpcCandidate(q, base, prev, npc.quests[j]))
      && (!f.external ==> exists j :: (FirstWhere(npc.quests, SameFn(q, base, prev)) == Some(j)
            && f.addPrereq == npc.quests[j].id && f.prereqName == npc.quests[j].name))
      && (f.external ==> exists a, j :: (FirstElsewhere(cat, npc.key, OtherFn(q, base, prev), 0) == Some((a, j))
            && OtherNpcCandidate(q, base, prev, cat[a].quests[j])
            && f.addPrereq == cat[a].quests[j].id && f.prereqName == cat[a].quests[j].name))
  {
    var same := FirstWhere(npc.quests, SameFn(q, base, prev));
    if same.Some? {
      assert SameFn(q, base, prev)(npc.quests[same.value]);
    } else {
      assert forall j :: 0 <= j < |npc.quests| ==> !SameFn(q, base, prev)(npc.quests[j]);
      var other := FirstElsewhere(cat, npc.key, OtherFn(q, base, prev), 0);
      if other.Some? {
        assert OtherFn(q, base, prev)(cat[other.value.0].quests[other.value.1]);
      } else {
        forall a, j | 0 <= a < |cat| && cat[a].key != npc.key && 0 <= j < |cat[a].quests|
          ensures !OtherNpcCandidate(q, base, prev, cat[a].quests[j])
        {
          assert FirstWhere(cat[a].quests, OtherFn(q, base, prev)).None?;
          assert !OtherFn(q, base, prev)(cat[a].quests[j]);
        }
      }
    }
  }

  /** Nothing is suggested iff no part in 1..prev has one; a suggestion is that of the
      largest part in 1..prev that has one. */
  lemma SearchBackMeaning(cat: seq<Npc>, npc: Npc, q: Quest, base: string, part: nat, prev: nat)
    ensures SearchBack(cat, npc, q, base, part, prev).None? <==>
      forall k: nat :: 1 <= k <= prev ==> Hit(cat, npc, q, base, part, k).None?
    ensures SearchBack(cat, npc, q, base, part, prev).Some? ==>
      exists k: nat :: (1 <= k <= prev && SearchBack(cat, npc, q, base, part, prev) == Hit(cat, npc, q, base, part, k)
        && forall k': nat :: k < k' <= prev ==> Hit(cat, npc, q, base, part, k').None?)
  {
    var h := HitFn(cat, npc, q, base, part);
    LatestMeaning(h, prev);
    assert forall k: nat :: h(k) == Hit(cat, npc, q, base, part, k);
  }

  /** Every suggestion comes from one quest of one NPC. */
  lemma PartFixesMember(cat: seq<Npc>, x: Fix)
    ensures x in PartFixes(cat) <==>
      exists i, j :: 0 <= i < |cat| && 0 <= j < |cat[i].quests| && QuestFix(cat, cat[i], cat[i].quests[j]) == Some(x)
  {
    PerQuestMember(cat, |cat|, QuestFixFn(cat), x);
  }

  // ---------------------------------------------------------------------
  // The base name is compared with lower-cased names without being lowered
  // ---------------------------------------------------------------------

  /** A name no lower-cased string contains: it has an upper-case letter. */
  predicate HasUpper(s: string) {
    exists i :: 0 <= i < |s| && IsUpper(s[i])
  }

  lemma LowerNeverContainsUpper(s: string, sub: string)
    requires HasUpper(sub)
    ensures !Contains(Lower(s), sub)
  {
    var i :| 0 <= i < |sub| && IsUpper(sub[i]);
    if Contains(Lower(s), sub) {
      ContainsChars(Lower(s), sub, sub[i]);
      LowerNoUpper(s);
    }
  }

  /** As written: when the base name has an upper-case letter, as quest names in the
      database do ("Gunsmith - Part 2" gives "Gunsmith"), no quest ever names an earlier
      part, and nothing is suggested. */
  lemma CapitalizedBaseFindsNothing(cat: seq<Npc>, npc: Npc, q: Quest, part: Option<nat>, base: string)
    requires HasUpper(base)
    ensures QuestFixFrom(cat, npc, q, part, base).None?
  {
    forall k: nat, o: Quest ensures !NamesPart(o, base, k) {
      var ks := NatToString(k);
      var i :| 0 <= i < |base| && IsUpper(base[i]);
      assert (base + " part " + ks)[i] == base[i];
      assert (base + " - part " + ks)[i] == base[i];
      LowerNeverContainsUpper(o.name, base + " part " + ks);
      LowerNeverContainsUpper(o.name, base + " - part " + ks);
    }
    if part.Some? && part.value > 1 {
      var n := part.value;
      forall k: nat | 1 <= k <= n - 1 ensures Hit(cat, npc, q, base, n, k).None? {
        HitMeaning(cat, npc, q, base, n, k);
      }
      SearchBackMeaning(cat, npc, q, base, n, n - 1);
    }
  }

  /** The same for the script's own base name. */
  lemma CapitalizedQuestFindsNothing(cat: seq<Npc>, npc: Npc, q: Quest)
    requires HasUpper(PartBase(q.name))
    ensures QuestFix(cat, npc, q).None?
  {
    CapitalizedBaseFindsNothing(cat, npc, q, SearchPartNumber(q.name), PartBase(q.name));
  }

  /** Corrected: the base name is lower-cased like the names it is looked up in. */
  function LoweredQuestFix(cat: seq<Npc>, npc: Npc, q: Quest): Option<Fix> {
    QuestFixFrom(cat, npc, q, SearchPartNumber(q.name), Lower(PartBase(q.name)))
  }

  function LoweredNpcFixFn(cat: seq<Npc>, npc: Npc): Quest -> Option<Fix> {
    q => LoweredQuestFix(cat, npc, q)
  }

  function LoweredFixFn(cat: seq<Npc>): Npc -> Quest -> Option<Fix> {
    npc => LoweredNpcFixFn(cat, npc)
  }

  /** The corrected find_part_quests_missing_prereqs. */
  function LoweredPartFixes(cat: seq<Npc>): seq<Fix> {
    PerQuest(cat, |cat|, LoweredFixFn(cat))
  }

  /** With a lower-cased base name, a quest of the same NPC whose name, in any case,
      contains "<base> - part <n - 1>" and that is not yet a prerequisite is always found:
      a suggestion is made, for part n - 1, to the internal list. */
  lemma LoweredFindsPreviousPart(cat: seq<Npc>, npc: Npc, q: Quest, n: nat, base: string, j: nat)
    requires n > 1 && j < |npc.quests|
    requires Contains(Lower(npc.quests[j].name), Lower(base) + " - part " + NatToString(n - 1))
    requires npc.quests[j].id !in AllPrereqs(q)
    ensures QuestFixFrom(cat, npc, q, Some(n), Lower(base)).Some?
    ensures QuestFixFrom(cat, npc, q, Some(n), Lower(base)) == Hit(cat, npc, q, Lower(base), n, n - 1)
    ensures !QuestFixFrom(cat, npc, q, Some(n), Lower(base)).value.external
  {
    assert SameNpcCandidate(q, Lower(base), n - 1, npc.quests[j]);
    HitMeaning(cat, npc, q, Lower(base), n, n - 1);
    assert HitFn(cat, npc, q, Lower(base), n)(n - 1) == Hit(cat, npc, q, Lower(base), n, n - 1);
  }

  /** The corrected suggestions are one per quest at most, each the corrected fix of a quest. */
  lemma LoweredPartFixesMember(cat: seq<Npc>, x: Fix)
    ensures x in LoweredPartFixes(cat) <==>
      exists i, j :: 0 <= i < |cat| && 0 <= j < |cat[i].quests| && LoweredQuestFix(cat, cat[i], cat[i].quests[j]) == Some(x)
  {
    PerQuestMember(cat, |cat|, LoweredFixFn(cat), x);
  }

  // ---------------------------------------------------------------------
  // apply_fixes: every fix in order, no de-duplication, no skip count
  // ---------------------------------------------------------------------

  method ApplyFixes(db: Database, fixes: seq<Fix>) returns (applied: nat)
    modifies db
    ensures db.npcs == AfterFixes(old(db.npcs), fixes)
    ensures applied == AppliedCount(old(db.npcs), fixes)
  {
    applied := 0;
    ghost var start := db.npcs;
    for i := 0 to |fixes|
      invariant db.npcs == AfterFixes(start, fixes[..i])
      invariant applied == AppliedCount(start, fixes[..i])
    {
      AutoFix.AfterFixesSnoc(start, fixes, i);
      var appended, _ := ApplyFix(db, fixes[i]);
      if appended {
        applied := applied + 1;
      }
    }
    assert fixes[..|fixes|] == fixes;
  }

  /** A second run with the same suggestions applies none of them; the applied count is
      the number of ids added. */
  lemma ApplyFixesMeaning(cat: seq<Npc>, fixes: seq<Fix>)
    ensures PrereqCount(AfterFixes(cat, fixes)) == PrereqCount(cat) + AppliedCount(cat, fixes)
    ensures AppliedCount(AfterFixes(cat, fixes), fixes) == 0
    ensures AfterFixes(AfterFixes(cat, fixes), fixes) == AfterFixes(cat, fixes)
  {
    AppliedCountMeaning(cat, fixes);
    AfterFixesIdempotent(cat, fixes);
  }
}
