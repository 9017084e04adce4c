// auto_fix_prerequisites.py: for every "Part N" quest (N > 1), look up an
// earlier part by its normalized name and suggest it as a prerequisite when
// the quest does not list it yet; then apply the suggestions, one per
// (quest, prerequisite) pair.
module AutoFix {
  import opened Util
  import opened Catalog
  import opened Patterns
  import opened Fixes

  /** quest_name_to_id's value: owning NPC key, quest id and the quest. */
  datatype Named = Named(npc: string, id: string, quest: Quest)

  /** The key build_index files a quest under: its name lower-cased and stripped. */
  function NameKey(e: Entry): string {
    Strip(Lower(e.quest.name))
  }

  /** An index by a key computed from each quest: truthy ids only, a later quest
      overwrites an earlier one with the same key. */
  function KeyedIndex(es: seq<Entry>, key: Entry -> string): map<string, Named>
    decreases |es|
  {
    if es == [] then map[]
    else
      var m := KeyedIndex(es[..|es| - 1], key);
      var e := es[|es| - 1];
      if e.quest.id != "" then m[key(e) := Named(e.npc, e.quest.id, e.quest)] else m
  }

  /** quest_name_to_id. */
  function NameIndex(es: seq<Entry>): map<string, Named> {
    KeyedIndex(es, NameKey)
  }

  /** A key is indexed iff some quest with a truthy id has it ... */
  lemma {:induction false} KeyedIndexKeys(es: seq<Entry>, key: Entry -> string, x: string)
    ensures x in KeyedIndex(es, key) <==> exists k :: 0 <= k < |es| && es[k].quest.id != "" && key(es[k]) == x
    decreases |es|
  {
    if es != [] {
      var p := es[..|es| - 1];
      KeyedIndexKeys(p, key, x);
      if exists k :: 0 <= k < |p| && p[k].quest.id != "" && key(p[k]) == x {
        var k :| 0 <= k < |p| && p[k].quest.id != "" && key(p[k]) == x;
        assert es[k] == p[k];
      }
      if exists k :: 0 <= k < |es| && es[k].quest.id != "" && key(es[k]) == x {
        var k :| 0 <= k < |es| && es[k].quest.id != "" && key(es[k]) == x;
        if k < |p| { assert p[k] == es[k]; }
      }
    }
  }

  /** ... and the stored value is the last such quest. */
  lemma KeyedIndexLast(es: seq<Entry>, key: Entry -> string, x: string)
    requires x in KeyedIndex(es, key)
    ensures exists k :: (0 <= k < |es| && es[k].quest.id != "" && key(es[k]) == x
      && KeyedIndex(es, key)[x] == Named(es[k].npc, es[k].quest.id, es[k].quest)
      && forall k' :: k < k' < |es| ==> es[k'].quest.id == "" || key(es[k']) != x)
  {
    LastKeyedExists(es, key, x);
    var k :| LastKeyed(es, key, x, k);
  }

  /** Entry k has an id and the key, gives the stored value, and no later entry with an id has the key. */
  predicate LastKeyed(es: seq<Entry>, key: Entry -> string, x: string, k: int)
    requires x in KeyedIndex(es, key)
  {
    0 <= k < |es| && es[k].quest.id != "" && key(es[k]) == x
    && KeyedIndex(es, key)[x] == Named(es[k].npc, es[k].quest.id, es[k].quest)
    && forall k' :: k < k' < |es| ==> es[k'].quest.id == "" || key(es[k']) != x
  }

  lemma {:induction false} LastKeyedExists(es: seq<Entry>, key: Entry -> string, x: string)
    requires x in KeyedIndex(es, key)
    ensures exists k :: LastKeyed(es, key, x, k)
    decreases |es|
  {
    var p := es[..|es| - 1];
    var e := es[|es| - 1];
    if e.quest.id != "" && key(e) == x {
      assert LastKeyed(es, key, x, |es| - 1);
    } else {
      LastKeyedExists(p, key, x);
      var k :| LastKeyed(p, key, x, k);
      assert es[k] == p[k];
      assert forall k' :: k < k' < |p| ==> es[k'] == p[k'];
      assert LastKeyed(es, key, x, k);
    }
  }

  lemma KeyedIndexSnoc(es: seq<Entry>, e: Entry, key: Entry -> string)
    ensures KeyedIndex(es + [e], key) ==
      if e.quest.id != "" then KeyedIndex(es, key)[key(e) := Named(e.npc, e.quest.id, e.quest)] else KeyedIndex(es, key)
  {
    assert (es + [e])[..|es|] == es;
  }

  /** One step of build_index's loop, on both indexes. */
  lemma IndexStep(es: seq<Entry>, i: nat)
    requires i < |es|
    ensures var e := es[i];
      IdIndex(es[..i + 1]) == (if e.quest.id != "" then IdIndex(es[..i])[e.quest.id := Located(e.npc, e.quest)] else IdIndex(es[..i]))
      && NameIndex(es[..i + 1]) == (if e.quest.id != "" then NameIndex(es[..i])[NameKey(e) := Named(e.npc, e.quest.id, e.quest)] else NameIndex(es[..i]))
  {
    assert es[..i + 1] == es[..i] + [es[i]];
    IdIndexSnoc(es[..i], es[i]);
    KeyedIndexSnoc(es[..i], es[i], NameKey);
  }

  /** build_index: both indexes in one pass over the quests. */
  method BuildIndex(cat: seq<Npc>) returns (byId: map<string, Located>, byName: map<string, Named>)
    ensures byId == IdIndex(Entries(cat)) && byName == NameIndex(Entries(cat))
  {
    var es := Entries(cat);
    byId, byName := map[], map[];
    for i := 0 to |es|
      invariant byId == IdIndex(es[..i]) && byName == NameIndex(es[..i])
    {
      var e := es[i];
      IndexStep(es, i);
      if e.quest.id != "" {
        byId := byId[e.quest.id := Located(e.npc, e.quest)];
        byName := byName[NameKey(e) := Named(e.npc, e.quest.id, e.quest)];
      }
    }
    assert es[..|es|] == es;
  }

  // ---------------------------------------------------------------------
  // find_missing_part_prerequisites
  // ---------------------------------------------------------------------

  /** The three spellings tried for part `prev` of a base name. */
  function Candidates(base: string, prev: nat): seq<string> {
    var k := NatToString(prev);
    [base + " part " + k, base + " - part " + k, base + "part " + k]
  }

  /** A spelling names an indexed quest that is not yet a prerequisite. */
  predicate Acceptable(byName: map<string, Named>, all: seq<string>, name: string) {
    name in byName && byName[name].id !in all
  }

  /** The first acceptable spelling at or after position k. */
  function FirstAcceptable(ps: seq<string>, byName: map<string, Named>, all: seq<string>, k: nat): (r: Option<nat>)
    requires k <= |ps|
    ensures r.Some? ==> k <= r.value < |ps| && Acceptable(byName, all, ps[r.value])
    ensures r.Some? ==> forall k' :: k <= k' < r.value ==> !Acceptable(byName, all, ps[k'])
    ensures r.None? ==> forall k' :: k <= k' < |ps| ==> !Acceptable(byName, all, ps[k'])
    decreases |ps| - k
  {
    if k == |ps| then None
    else if Acceptable(byName, all, ps[k]) then Some(k)
    else FirstAcceptable(ps, byName, all, k + 1)
  }

  /** Parts prev, prev - 1, ..., 1: the first with an acceptable spelling, and that spelling. */
  function SearchBack(byName: map<string, Named>, all: seq<string>, base: string, prev: nat): (r: Option<(nat, string)>)
    ensures r.Some? ==> 1 <= r.value.0 <= prev && Acceptable(byName, all, r.value.1)
    decreases prev
  {
    if prev == 0 then None
    else
      var ps := Candidates(base, prev);
      match FirstAcceptable(ps, byName, all, 0)
      case Some(k) => Some((prev, ps[k]))
      case None => SearchBack(byName, all, base, prev - 1)
  }

  function Reason(part: nat, prev: nat): string {
    "Part " + NatToString(part) + " deve ter Part " + NatToString(prev) + " como pre-requisito"
  }

  /** The fix suggested for one quest, if any. */
  function PartFix(e: Entry, byName: map<string, Named>): Option<Fix> {
    PartFixFrom(e, byName, SearchPartNumber(e.quest.name), NormalizeQuestName(e.quest.name))
  }

  /** The suggestion for a quest given its part number (if it carries one) and its base name. */
  function PartFixFrom(e: Entry, byName: map<string, Named>, part: Option<nat>, base: string): Option<Fix> {
    match part
    case None => None
    case Some(n) =>
      if n <= 1 then None
      else
        var found := SearchBack(byName, AllPrereqs(e.quest), base, n - 1);
        if found.None? then None
        else
          var l := byName[found.value.1];
          Some(Fix(e.npcName, e.quest.id, e.quest.name, l.id, l.quest.name, l.npc != e.npc, Reason(n, found.value.0)))
  }

  function PartFixFn(byName: map<string, Named>): Entry -> Option<Fix> {
    e => PartFix(e, byName)
  }

  /** find_missing_part_prerequisites: the suggestions of all quests, in visiting order. */
  function PartFixes(es: seq<Entry>, byName: map<string, Named>): seq<Fix> {
    Collect(es, PartFixFn(byName))
  }

  /** The backwards search over the previous parts of one quest. */
  method FindPrevious(byName: map<string, Named>, all: seq<string>, base: string, partNum: nat) returns (r: Option<(nat, string)>)
    requires partNum > 1
    ensures r == SearchBack(byName, all, base, partNum - 1)
  {
    var prev := partNum - 1;
    while prev > 0
      invariant 0 <= prev <= partNum - 1
      invariant SearchBack(byName, all, base, partNum - 1) == SearchBack(byName, all, base, prev)
    {
      var patterns := Candidates(base, prev);
      var k := 0;
      while k < |patterns|
        invariant 0 <= k <= |patterns|
        invariant FirstAcceptable(patterns, byName, all, 0) == FirstAcceptable(patterns, byName, all, k)
      {
        if patterns[k] in byName && byName[patterns[k]].id !in all {
          return Some((prev, patterns[k]));
        }
        k := k + 1;
      }
      prev := prev - 1;
    }
    return None;
  }

  /** The body of the per-quest step, given the part number and the base name. */
  method SuggestFor(e: Entry, byName: map<string, Named>, partMatch: Option<nat>, baseName: string) returns (fix: Option<Fix>)
    ensures fix == PartFixFrom(e, byName, partMatch, baseName)
  {
    fix := None;
    var q := e.quest;
    var allPrereqs := q.prerequisites + q.prerequisitesExternal;
    if partMatch.Some? && partMatch.value > 1 {
      var partNum := partMatch.value;
      var found := FindPrevious(byName, allPrereqs, baseName, partNum);
      if found.Some? {
        var l := byName[found.value.1];
        fix := Some(Fix(e.npcName, q.id, q.name, l.id, l.quest.name, l.npc != e.npc, Reason(partNum, found.value.0)));
      }
    }
  }

  method FindMissingPartPrerequisites(cat: seq<Npc>, byName: map<string, Named>) returns (fixes: seq<Fix>)
    ensures fixes == PartFixes(Entries(cat), byName)
  {
    var es := Entries(cat);
    fixes := [];
    for i := 0 to |es|
      invariant fixes == PartFixes(es[..i], byName)
    {
      var e := es[i];
      CollectSnoc(es, i, PartFixFn(byName));
      var partMatch := SearchPartNumber(e.quest.name);
      var fix := SuggestFor(e, byName, partMatch, NormalizeQuestName(e.quest.name));
      assert PartFixFn(byName)(es[i]) == fix;
      if fix.Some? {
        fixes := fixes + [fix.value];
      }
    }
    assert es[..|es|] == es;
  }

  /** A fix is suggested for a quest iff its name carries a part number n > 1 and some
      earlier part k < n has an acceptable spelling; the one suggested is for the largest
      such k, names an indexed quest of that spelling, adds an id the quest does not list,
      and goes to the external list iff that quest belongs to another NPC. */
  lemma PartFixFromMeaning(e: Entry, byName: map<string, Named>, part: Option<nat>, base: string)
    ensures PartFixFrom(e, byName, part, base).Some? <==>
      (part.Some? && part.value > 1
        && exists k: nat :: (1 <= k < part.value
          && exists p :: p in Candidates(base, k) && Acceptable(byName, AllPrereqs(e.quest), p)))
    ensures PartFixFrom(e, byName, part, base).Some? ==>
      var f := PartFixFrom(e, byName, part, base).value;
      var n := part.value;
      f.questId == e.quest.id && f.npcName == e.npcName && f.questName == e.quest.name
      && f.addPrereq !in AllPrereqs(e.quest)
      && exists k: nat, p :: (1 <= k < n && p in Candidates(base, k) && p in byName
        && f.addPrereq == byName[p].id && f.prereqName == byName[p].quest.name
        && f.external == (byName[p].npc != e.npc) && f.reason == Reason(n, k)
        && forall k': nat :: k < k' < n ==> forall p' :: p' in Candidates(base, k') ==> !Acceptable(byName, AllPrereqs(e.quest), p'))
  {
    if part.Some? && part.value > 1 {
      SearchBackMeaning(byName, AllPrereqs(e.quest), base, part.value - 1);
    }
  }

  /** The same, for the part number and base name the quest's own name gives. */
  lemma PartFixMeaning(e: Entry, byName: map<string, Named>)
    ensures PartFix(e, byName) == PartFixFrom(e, byName, SearchPartNumber(e.quest.name), NormalizeQuestName(e.quest.name))
    ensures PartFix(e, byName).Some? ==> SearchPartNumber(e.quest.name).Some? && SearchPartNumber(e.quest.name).value > 1
  {
    PartFixFromMeaning(e, byName, SearchPartNumber(e.quest.name), NormalizeQuestName(e.quest.name));
  }

  lemma {:induction false} SearchBackMeaning(byName: map<string, Named>, all: seq<string>, base: string, prev: nat)
    ensures SearchBack(byName, all, base, prev).Some? <==>
      exists k: nat :: 1 <= k <= prev && exists p :: p in Candidates(base, k) && Acceptable(byName, all, p)
    ensures SearchBack(byName, all, base, prev).Some? ==>
      var r := SearchBack(byName, all, base, prev).value;
      r.1 in Candidates(base, r.0)
      && forall k': nat :: r.0 < k' <= prev ==> forall p' :: p' in Candidates(base, k') ==> !Acceptable(byName, all, p')
    decreases prev
  {
    if prev > 0 {
      SearchBackMeaning(byName, all, base, prev - 1);
      var ps := Candidates(base, prev);
      var r := FirstAcceptable(ps, byName, all, 0);
      if r.None? {
        forall p | p in ps ensures !Acceptable(byName, all, p) {
          var k :| 0 <= k < |ps| && ps[k] == p;
        }
      }
    }
  }

  /** Every suggestion comes from one quest, and each quest gives at most one. */
  lemma PartFixesMeaning(es: seq<Entry>, byName: map<string, Named>, f: Fix)
    ensures f in PartFixes(es, byName) <==> exists k :: 0 <= k < |es| && PartFix(es[k], byName) == Some(f)
    ensures |PartFixes(es, byName)| <= |es|
  {
    CollectMember(es, PartFixFn(byName), f);
  }

  // ---------------------------------------------------------------------
  // find_quests_referenced_but_no_prereq
  // ---------------------------------------------------------------------

  /** Builds the referenced-by table and inspects every referenced quest without
      prerequisites, but every branch ends in `pass`: no fix is ever suggested. */
  method FindQuestsReferencedButNoPrereq(cat: seq<Npc>, byId: map<string, Located>) returns (fixes: seq<Fix>)
    ensures fixes == []
  {
    fixes := [];
    var es := Entries(cat);
    var referencedBy: map<string, seq<Entry>> := map[];
    var order: seq<string> := [];
    for i := 0 to |es|
      invariant forall id :: id in order ==> id in referencedBy
    {
      var ps := AllPrereqs(es[i].quest);
      for j := 0 to |ps|
        invariant forall id :: id in order ==> id in referencedBy
      {
        if ps[j] !in referencedBy {
          referencedBy := referencedBy[ps[j] := []];
          order := order + [ps[j]];
        }
        referencedBy := referencedBy[ps[j] := referencedBy[ps[j]] + [es[i]]];
      }
    }
    for k := 0 to |order|
      invariant fixes == []
    {
      var id := order[k];
      if id in byId && HasNoPrereqs(byId[id].quest) {
        var name := Lower(byId[id].quest.name);
        if Contains(name, "part") && !Contains(name, "part 1") {
          // already covered by the part search
        }
      }
    }
  }

  // ---------------------------------------------------------------------
  // apply_fixes
  // ---------------------------------------------------------------------

  function FixKey(f: Fix): (string, string) {
    (f.questId, f.addPrereq)
  }

  function Keys(fs: seq<Fix>): (ks: seq<(string, string)>)
    ensures |ks| == |fs| && forall k :: 0 <= k < |fs| ==> ks[k] == FixKey(fs[k])
  {
    seq(|fs|, k requires 0 <= k < |fs| => FixKey(fs[k]))
  }

  /** fixes_by_quest.values(): the first fix of every (quest, prerequisite) pair, in the
      order the pairs first occur. */
  function DedupFixes(fs: seq<Fix>): seq<Fix>
    decreases |fs|
  {
    if fs == [] then []
    else
      var p := fs[..|fs| - 1];
      var f := fs[|fs| - 1];
      if FixKey(f) in Keys(p) then DedupFixes(p) else DedupFixes(p) + [f]
  }

  /** The kept fixes carry exactly the distinct keys in first-occurrence order (so no key
      twice, every key kept), and each kept fix is the first fix with its key. */
  lemma {:induction false} DedupFixesMeaning(fs: seq<Fix>)
    ensures Keys(DedupFixes(fs)) == Dedup(Keys(fs))
    ensures forall k :: 0 <= k < |DedupFixes(fs)| ==>
      DedupFixes(fs)[k] == fs[FirstIndex(Keys(fs), FixKey(DedupFixes(fs)[k]))]
    decreases |fs|
  {
    if fs != [] {
      var p := fs[..|fs| - 1];
      var f := fs[|fs| - 1];
      DedupFixesMeaning(p);
      assert Keys(fs)[..|fs| - 1] == Keys(p);
      assert Keys(fs) == Keys(p) + [FixKey(f)];
      var d := DedupFixes(p);
      forall k | 0 <= k < |d| ensures FixKey(d[k]) in Keys(p) {
        assert FixKey(d[k]) == Keys(d)[k];
      }
      forall x | x in Keys(p) ensures FirstIndex(Keys(fs), x) == FirstIndex(Keys(p), x) {
        FirstIndexPrefix(Keys(p), [FixKey(f)], x);
      }
      if FixKey(f) !in Keys(p) {
        assert Keys(d + [f]) == Keys(d) + [FixKey(f)];
        FirstIndexAppended(Keys(p), FixKey(f));
      }
    }
  }

  lemma AfterFixesSnoc(cat: seq<Npc>, fs: seq<Fix>, i: nat)
    requires i < |fs|
    ensures AfterFixes(cat, fs[..i + 1]) == AfterFix(AfterFixes(cat, fs[..i]), fs[i])
    ensures AppliedCount(cat, fs[..i + 1]) == AppliedCount(cat, fs[..i]) + (if Appends(AfterFixes(cat, fs[..i]), fs[i]) then 1 else 0)
    ensures SkippedCount(cat, fs[..i + 1]) == SkippedCount(cat, fs[..i]) + (if Skipped(AfterFixes(cat, fs[..i]), fs[i]) then 1 else 0)
  {
    assert fs[..i + 1][..i] == fs[..i];
  }

  /** apply_fixes: de-duplicate, then apply each fix in place, counting appends and skips. */
  method ApplyFixes(db: Database, fixes: seq<Fix>) returns (applied: nat, skipped: nat)
    modifies db
    ensures db.npcs == AfterFixes(old(db.npcs), DedupFixes(fixes))
    ensures applied == AppliedCount(old(db.npcs), DedupFixes(fixes))
    ensures skipped == SkippedCount(old(db.npcs), DedupFixes(fixes))
  {
    applied, skipped := 0, 0;
    var seen: set<(string, string)> := {};
    var unique: seq<Fix> := [];
    for i := 0 to |fixes|
      invariant unique == DedupFixes(fixes[..i])
      invariant seen == set k | 0 <= k < i :: FixKey(fixes[k])
    {
      var key := (fixes[i].questId, fixes[i].addPrereq);
      assert fixes[..i + 1][..i] == fixes[..i];
      assert key in seen <==> key in Keys(fixes[..i]) by {
        if key in seen {
          var k :| 0 <= k < i && FixKey(fixes[k]) == key;
          assert Keys(fixes[..i])[k] == key;
        }
      }
      if key !in seen {
        seen := seen + {key};
        unique := unique + [fixes[i]];
      }
    }
    assert fixes[..|fixes|] == fixes;
    ghost var start := db.npcs;
    for i := 0 to |unique|
      invariant db.npcs == AfterFixes(start, unique[..i])
      invariant applied == AppliedCount(start, unique[..i])
      invariant skipped == SkippedCount(start, unique[..i])
    {
      AfterFixesSnoc(start, unique, i);
      var appended, wasSkipped := ApplyFix(db, unique[i]);
      if wasSkipped {
        skipped := skipped + 1;
      }
      if appended {
        applied := applied + 1;
      }
    }
    assert unique[..|unique|] == unique;
  }

  /** Running apply_fixes a second time on its own output applies nothing and changes nothing. */
  lemma ApplyFixesIdempotent(cat: seq<Npc>, fixes: seq<Fix>)
    ensures var c := AfterFixes(cat, DedupFixes(fixes));
      AfterFixes(c, DedupFixes(fixes)) == c && AppliedCount(c, DedupFixes(fixes)) == 0
  {
    AfterFixesIdempotent(cat, DedupFixes(fixes));
  }
}
