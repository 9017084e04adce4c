// The all-prerequisites check: one list of problems, missing ids and
// misplaced ids together, and a failing exit status when it is non-empty.
module CheckAll {
  import opened Util
  import opened Catalog
  import opened PrereqRules

  /** One NPC's quests by truthy id, a later duplicate overwriting. */
  function NpcQuestMap(quests: seq<Quest>): map<string, Quest>
    decreases |quests|
  {
    if quests == [] then map[]
    else
      var m := NpcQuestMap(quests[..|quests| - 1]);
      var q := quests[|quests| - 1];
      if q.id != "" then m[q.id := q] else m
  }

  /** quest_by_npc of this script: every NPC gets a map, quests or not. */
  function FullNpcIndex(cat: seq<Npc>): map<string, map<string, Quest>>
    decreases |cat|
  {
    if cat == [] then map[] else FullNpcIndex(cat[..|cat| - 1])[cat[|cat| - 1].key := NpcQuestMap(cat[|cat| - 1].quests)]
  }

  /** Every NPC key has an inner map, whether or not it has quests, and nothing else does. */
  lemma {:induction false} FullNpcIndexKeys(cat: seq<Npc>, key: string)
    ensures key in FullNpcIndex(cat) <==> exists i :: 0 <= i < |cat| && cat[i].key == key
    decreases |cat|
  {
    if cat != [] {
      var init := cat[..|cat| - 1];
      FullNpcIndexKeys(init, key);
      if exists i :: 0 <= i < |cat| && cat[i].key == key {
        var i :| 0 <= i < |cat| && cat[i].key == key;
        if i < |init| { assert init[i] == cat[i]; }
      }
      if exists i :: 0 <= i < |init| && init[i].key == key {
        var i :| 0 <= i < |init| && init[i].key == key;
        assert cat[i] == init[i];
      }
    }
  }

  /** An id is in an NPC's inner map iff one of its quests carries it (ids are truthy). */
  lemma {:induction false} NpcQuestMapKeys(quests: seq<Quest>, id: string)
    ensures id in NpcQuestMap(quests) <==> id != "" && exists k :: 0 <= k < |quests| && quests[k].id == id
    decreases |quests|
  {
    if quests != [] {
      var init := quests[..|quests| - 1];
      NpcQuestMapKeys(init, id);
      if exists k :: 0 <= k < |quests| && quests[k].id == id {
        var k :| 0 <= k < |quests| && quests[k].id == id;
        if k < |init| { assert init[k] == quests[k]; }
      }
      if exists k :: 0 <= k < |init| && init[k].id == id {
        var k :| 0 <= k < |init| && init[k].id == id;
        assert quests[k] == init[k];
      }
    }
  }

  lemma NpcQuestMapSnoc(quests: seq<Quest>, q: Quest)
    ensures NpcQuestMap(quests + [q]) == if q.id != "" then NpcQuestMap(quests)[q.id := q] else NpcQuestMap(quests)
  {
    assert (quests + [q])[..|quests|] == quests;
  }

  /** One step of the quest loop of build_index, on both indexes. */
  lemma BuildStep(base: seq<Entry>, npc: Npc, j: nat)
    requires j < |npc.quests|
    ensures var q := npc.quests[j];
      IdIndex(base + NpcEntries(npc)[..j + 1])
        == (if q.id != "" then IdIndex(base + NpcEntries(npc)[..j])[q.id := Located(npc.key, q)] else IdIndex(base + NpcEntries(npc)[..j]))
    ensures var q := npc.quests[j];
      NpcQuestMap(npc.quests[..j + 1]) == if q.id != "" then NpcQuestMap(npc.quests[..j])[q.id := q] else NpcQuestMap(npc.quests[..j])
  {
    var quest := npc.quests[j];
    var before := base + NpcEntries(npc)[..j];
    EntryStep(base, npc, j);
    IdIndexSnoc(before, Entry(npc.key, npc.name, quest));
    assert npc.quests[..j + 1] == npc.quests[..j] + [quest];
    NpcQuestMapSnoc(npc.quests[..j], quest);
  }

  /** Writing into the inner map just stored under a key. */
  lemma UpdateInner(m: map<string, map<string, Quest>>, key: string, inner: map<string, Quest>, id: string, q: Quest)
    ensures m[key := inner][key := m[key := inner][key][id := q]] == m[key := inner[id := q]]
  {
  }

  /** One step of the NPC loop of build_index, on both indexes. */
  lemma NpcStep(cat: seq<Npc>, i: nat)
    requires i < |cat|
    ensures Entries(cat[..i + 1]) == Entries(cat[..i]) + NpcEntries(cat[i])
    ensures FullNpcIndex(cat[..i + 1]) == FullNpcIndex(cat[..i])[cat[i].key := NpcQuestMap(cat[i].quests)]
  {
    EntriesPrefix(cat, i);
    assert cat[..i + 1][..i] == cat[..i];
  }

  method BuildIndex(cat: seq<Npc>) returns (byId: map<string, Located>, byNpc: map<string, map<string, Quest>>)
    ensures byId == IdIndex(Entries(cat))
    ensures byNpc == FullNpcIndex(cat)
  {
    byId := map[];
    byNpc := map[];
    for i := 0 to |cat|
      invariant byId == IdIndex(Entries(cat[..i]))
      invariant byNpc == FullNpcIndex(cat[..i])
    {
      var npc := cat[i];
      NpcStep(cat, i);
      ghost var base := Entries(cat[..i]);
      ghost var prev := byNpc;
      assert base + NpcEntries(npc)[..0] == base;
      byNpc := byNpc[npc.key := map[]];
      assert npc.quests[..0] == [];
      for j := 0 to |npc.quests|
        invariant byId == IdIndex(base + NpcEntries(npc)[..j])
        invariant byNpc == prev[npc.key := NpcQuestMap(npc.quests[..j])]
      {
        var quest := npc.quests[j];
        BuildStep(base, npc, j);
        if quest.id != "" {
          UpdateInner(prev, npc.key, NpcQuestMap(npc.quests[..j]), quest.id, quest);
          byId := byId[quest.id := Located(npc.key, quest)];
          byNpc := byNpc[npc.key := byNpc[npc.key][quest.id := quest]];
        }
      }
      assert NpcEntries(npc)[..|npc.quests|] == NpcEntries(npc);
      assert npc.quests[..|npc.quests|] == npc.quests;
    }
    assert cat[..|cat|] == cat;
  }

  const BothKinds: set<Kind> := {Missing, Misplaced}

  /** problems: every missing and every misplaced prerequisite, quest by quest. */
  method CheckAllQuests(cat: seq<Npc>, idx: map<string, Located>) returns (problems: seq<Finding>)
    ensures problems == Findings(Entries(cat), idx, BothKinds)
  {
    var es := Entries(cat);
    problems := [];
    for i := 0 to |es|
      invariant problems == Findings(es[..i], idx, BothKinds)
    {
      var e := es[i];
      FindingsStep(es, i, idx, BothKinds);
      var found := CheckQuest(e, idx);
      problems := problems + found;
    }
    assert es[..|es|] == es;
  }

  /** The body of the quest loop: the internal list, then the external list. */
  method CheckQuest(e: Entry, idx: map<string, Located>) returns (problems: seq<Finding>)
    ensures problems == QuestFindings(e, idx, BothKinds)
  {
    problems := [];
    var prerequisites := e.quest.prerequisites;
    var external := e.quest.prerequisitesExternal;
    for j := 0 to |prerequisites|
      invariant problems == ListFindings(e, prerequisites[..j], false, idx, BothKinds)
    {
      ListFindingsStep(e, prerequisites, j, false, idx, BothKinds);
      var p := prerequisites[j];
      if p !in idx {
        problems := problems + [Finding(Missing, e.npcName, e.quest.id, e.quest.name, p, false, "")];
      } else if idx[p].npc != e.npc {
        problems := problems + [Finding(Misplaced, e.npcName, e.quest.id, e.quest.name, p, false, idx[p].npc)];
      }
    }
    assert prerequisites[..|prerequisites|] == prerequisites;
    ghost var mid := problems;
    assert external[..0] == [];
    for j := 0 to |external|
      invariant problems == mid + ListFindings(e, external[..j], true, idx, BothKinds)
    {
      ListFindingsStep(e, external, j, true, idx, BothKinds);
      var p := external[j];
      if p !in idx {
        problems := problems + [Finding(Missing, e.npcName, e.quest.id, e.quest.name, p, true, "")];
      } else if idx[p].npc == e.npc {
        problems := problems + [Finding(Misplaced, e.npcName, e.quest.id, e.quest.name, p, true, idx[p].npc)];
      }
    }
    assert external[..|external|] == external;
  }

  /** The problems of each type are, one-to-one and in order, the validator's errors (missing ids)
      and warnings (misplaced ids). */
  lemma AgreesWithValidator(cat: seq<Npc>, idx: map<string, Located>)
    ensures Filter(Findings(Entries(cat), idx, BothKinds), IsKind(Missing)) == Findings(Entries(cat), idx, {Missing})
    ensures Filter(Findings(Entries(cat), idx, BothKinds), IsKind(Misplaced)) == Findings(Entries(cat), idx, {Misplaced})
  {
    FindingsSplit(Entries(cat), idx, Missing);
    FindingsSplit(Entries(cat), idx, Misplaced);
  }

  /** 1 when any problem was found, 0 otherwise. */
  function ExitCode(problems: seq<Finding>): (code: int)
    ensures code == 0 || code == 1
  {
    if problems != [] then 1 else 0
  }

  /** The check fails exactly when some prerequisite is missing or misplaced. */
  lemma ExitCodeIff(cat: seq<Npc>, idx: map<string, Located>)
    ensures var es := Entries(cat);
      ExitCode(Findings(es, idx, BothKinds)) == 0 <==>
        forall k, external, p :: 0 <= k < |es| && p in PrereqList(es[k].quest, external) ==> Classify(es[k], p, external, idx).None?
  {
    var es := Entries(cat);
    if Findings(es, idx, BothKinds) == [] {
      NoFindingsClean(es, idx);
    } else {
      var f := Findings(es, idx, BothKinds)[0];
      FindingsSound(es, idx, BothKinds, f);
      var k :| 0 <= k < |es| && f.prereqId in PrereqList(es[k].quest, f.external) && Classify(es[k], f.prereqId, f.external, idx) == Some(f);
    }
  }

  lemma NoFindingsClean(es: seq<Entry>, idx: map<string, Located>)
    requires Findings(es, idx, BothKinds) == []
    ensures forall k, external, p :: 0 <= k < |es| && p in PrereqList(es[k].quest, external) ==> Classify(es[k], p, external, idx).None?
  {
    forall k, external, p | 0 <= k < |es| && p in PrereqList(es[k].quest, external)
      ensures Classify(es[k], p, external, idx).None?
    {
      if Classify(es[k], p, external, idx).Some? {
        FindingsComplete(es, idx, BothKinds, k, external, p);
      }
    }
  }
}
