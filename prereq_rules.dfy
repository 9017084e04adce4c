// The prerequisite-placement rule two scripts apply to every prerequisite
// id: an id nobody carries is missing; an id in "prerequisites" owned by
// another NPC, or in "prerequisitesExternal" owned by the same NPC, is
// misplaced.
module PrereqRules {
  import opened Util
  import opened Catalog

  datatype Kind = Missing | Misplaced

  /** One reported prerequisite problem. `external` tells which list held the id
      (prerequisite_type / location / suggestion in the reports); `prereqNpc` is the
      owning NPC of a misplaced id and empty for a missing one. */
  datatype Finding = Finding(
    kind: Kind,
    npcName: string,
    questId: string,
    questName: string,
    prereqId: string,
    external: bool,
    prereqNpc: string)

  /** The internal (false) or external (true) prerequisite list. */
  function PrereqList(q: Quest, external: bool): seq<string> {
    if external then q.prerequisitesExternal else q.prerequisites
  }

  /** The verdict on one prerequisite id of one quest. */
  function Classify(e: Entry, p: string, external: bool, idx: map<string, Located>): Option<Finding> {
    if p !in idx then Some(Finding(Missing, e.npcName, e.quest.id, e.quest.name, p, external, ""))
    else if (idx[p].npc == e.npc) == external then
      Some(Finding(Misplaced, e.npcName, e.quest.id, e.quest.name, p, external, idx[p].npc))
    else None
  }

  /** Missing iff unindexed; misplaced iff indexed under another NPC for an internal id, or
      under the same NPC for an external one; otherwise nothing is reported. */
  lemma ClassifyMeaning(e: Entry, p: string, external: bool, idx: map<string, Located>)
    ensures var c := Classify(e, p, external, idx);
      (c.Some? && c.value.kind == Missing <==> p !in idx)
      && (c.Some? && c.value.kind == Misplaced <==> p in idx && (if external then idx[p].npc == e.npc else idx[p].npc != e.npc))
      && (c.None? <==> p in idx && (if external then idx[p].npc != e.npc else idx[p].npc == e.npc))
      && (c.Some? ==>
            c.value.prereqId == p && c.value.external == external && c.value.questId == e.quest.id
            && c.value.npcName == e.npcName && c.value.questName == e.quest.name)
  {
  }

  /** The findings of the kinds asked for, over one list, in list order. */
  function ListFindings(e: Entry, ps: seq<string>, external: bool, idx: map<string, Located>, kinds: set<Kind>): seq<Finding>
    decreases |ps|
  {
    if ps == [] then []
    else
      var c := Classify(e, ps[|ps| - 1], external, idx);
      ListFindings(e, ps[..|ps| - 1], external, idx, kinds) + (if c.Some? && c.value.kind in kinds then [c.value] else [])
  }

  lemma ListFindingsStep(e: Entry, ps: seq<string>, j: nat, external: bool, idx: map<string, Located>, kinds: set<Kind>)
    requires j < |ps|
    ensures ListFindings(e, ps[..j + 1], external, idx, kinds) == ListFindings(e, ps[..j], external, idx, kinds)
      + (var c := Classify(e, ps[j], external, idx); if c.Some? && c.value.kind in kinds then [c.value] else [])
  {
    assert ps[..j + 1][..j] == ps[..j];
  }

  /** One quest: its internal list first, then its external list. */
  function QuestFindings(e: Entry, idx: map<string, Located>, kinds: set<Kind>): seq<Finding> {
    ListFindings(e, e.quest.prerequisites, false, idx, kinds) + ListFindings(e, e.quest.prerequisitesExternal, true, idx, kinds)
  }

  /** Every quest of the catalog in visiting order. */
  function Findings(es: seq<Entry>, idx: map<string, Located>, kinds: set<Kind>): seq<Finding>
    decreases |es|
  {
    if es == [] then [] else Findings(es[..|es| - 1], idx, kinds) + QuestFindings(es[|es| - 1], idx, kinds)
  }

  lemma {:induction false} ListFindingsComplete(e: Entry, ps: seq<string>, external: bool, idx: map<string, Located>, kinds: set<Kind>, p: string)
    requires p in ps && Classify(e, p, external, idx).Some? && Classify(e, p, external, idx).value.kind in kinds
    ensures Classify(e, p, external, idx).value in ListFindings(e, ps, external, idx, kinds)
    decreases |ps|
  {
    if ps[|ps| - 1] != p {
      assert p in ps[..|ps| - 1] by {
        var k :| 0 <= k < |ps| && ps[k] == p;
        assert ps[..|ps| - 1][k] == p;
      }
      ListFindingsComplete(e, ps[..|ps| - 1], external, idx, kinds, p);
    }
  }

  lemma {:induction false} ListFindingsSound(e: Entry, ps: seq<string>, external: bool, idx: map<string, Located>, kinds: set<Kind>, f: Finding)
    requires f in ListFindings(e, ps, external, idx, kinds)
    ensures f.kind in kinds && f.external == external && f.prereqId in ps && Classify(e, f.prereqId, external, idx) == Some(f)
    decreases |ps|
  {
    var c := Classify(e, ps[|ps| - 1], external, idx);
    if f in ListFindings(e, ps[..|ps| - 1], external, idx, kinds) {
      ListFindingsSound(e, ps[..|ps| - 1], external, idx, kinds, f);
    }
  }

  /** Every problem of an asked-for kind is reported ... */
  lemma FindingsStep(es: seq<Entry>, i: nat, idx: map<string, Located>, kinds: set<Kind>)
    requires i < |es|
    ensures Findings(es[..i + 1], idx, kinds) == Findings(es[..i], idx, kinds) + QuestFindings(es[i], idx, kinds)
  {
    assert es[..i + 1][..i] == es[..i];
  }

  lemma {:induction false} FindingsComplete(es: seq<Entry>, idx: map<string, Located>, kinds: set<Kind>, k: nat, external: bool, p: string)
    requires k < |es| && p in PrereqList(es[k].quest, external)
    requires Classify(es[k], p, external, idx).Some? && Classify(es[k], p, external, idx).value.kind in kinds
    ensures Classify(es[k], p, external, idx).value in Findings(es, idx, kinds)
    decreases |es|
  {
    if k == |es| - 1 {
      ListFindingsComplete(es[k], PrereqList(es[k].quest, external), external, idx, kinds, p);
    } else {
      FindingsComplete(es[..|es| - 1], idx, kinds, k, external, p);
    }
  }

  /** ... and every reported problem is the verdict on a prerequisite of some quest. */
  lemma {:induction false} FindingsSound(es: seq<Entry>, idx: map<string, Located>, kinds: set<Kind>, f: Finding)
    requires f in Findings(es, idx, kinds)
    ensures f.kind in kinds
    ensures exists k :: 0 <= k < |es| && f.prereqId in PrereqList(es[k].quest, f.external) && Classify(es[k], f.prereqId, f.external, idx) == Some(f)
    decreases |es|
  {
    var p := es[..|es| - 1];
    var e := es[|es| - 1];
    if f in Findings(p, idx, kinds) {
      FindingsSound(p, idx, kinds, f);
      var k :| 0 <= k < |p| && f.prereqId in PrereqList(p[k].quest, f.external) && Classify(p[k], f.prereqId, f.external, idx) == Some(f);
      assert es[k] == p[k];
    } else if f in ListFindings(e, e.quest.prerequisites, false, idx, kinds) {
      ListFindingsSound(e, e.quest.prerequisites, false, idx, kinds, f);
      assert es[|es| - 1] == e;
    } else {
      ListFindingsSound(e, e.quest.prerequisitesExternal, true, idx, kinds, f);
      assert es[|es| - 1] == e;
    }
  }

  function IsKind(kind: Kind): Finding -> bool {
    (f: Finding) => f.kind == kind
  }

  lemma {:induction false} ListFindingsSplit(e: Entry, ps: seq<string>, external: bool, idx: map<string, Located>, kind: Kind)
    ensures Filter(ListFindings(e, ps, external, idx, {Missing, Misplaced}), IsKind(kind)) == ListFindings(e, ps, external, idx, {kind})
    decreases |ps|
  {
    if ps != [] {
      var init := ps[..|ps| - 1];
      var c := Classify(e, ps[|ps| - 1], external, idx);
      ListFindingsLast(e, ps, external, idx, {Missing, Misplaced});
      ListFindingsLast(e, ps, external, idx, {kind});
      ListFindingsSplit(e, init, external, idx, kind);
      TailSplit(c, kind);
      FilterAppend(ListFindings(e, init, external, idx, {Missing, Misplaced}), KindTail(c, {Missing, Misplaced}), IsKind(kind));
    }
  }

  /** The finding a verdict adds when the given kinds are asked for. */
  function KindTail(c: Option<Finding>, kinds: set<Kind>): seq<Finding> {
    if c.Some? && c.value.kind in kinds then [c.value] else []
  }

  lemma ListFindingsLast(e: Entry, ps: seq<string>, external: bool, idx: map<string, Located>, kinds: set<Kind>)
    requires ps != []
    ensures ListFindings(e, ps, external, idx, kinds) ==
      ListFindings(e, ps[..|ps| - 1], external, idx, kinds) + KindTail(Classify(e, ps[|ps| - 1], external, idx), kinds)
  {
  }

  lemma TailSplit(c: Option<Finding>, kind: Kind)
    ensures Filter(KindTail(c, {Missing, Misplaced}), IsKind(kind)) == KindTail(c, {kind})
  {
    if c.Some? {
      FilterSingleton(c.value, IsKind(kind));
    }
  }

  /** Selecting one kind from the findings of both kinds gives exactly the findings of that
      kind alone, one-to-one and in the same order. */
  lemma {:induction false} FindingsSplit(es: seq<Entry>, idx: map<string, Located>, kind: Kind)
    ensures Filter(Findings(es, idx, {Missing, Misplaced}), IsKind(kind)) == Findings(es, idx, {kind})
    decreases |es|
  {
    if es != [] {
      var p := es[..|es| - 1];
      var e := es[|es| - 1];
      var both: set<Kind> := {Missing, Misplaced};
      FindingsSplit(p, idx, kind);
      ListFindingsSplit(e, e.quest.prerequisites, false, idx, kind);
      ListFindingsSplit(e, e.quest.prerequisitesExternal, true, idx, kind);
      FilterAppend(ListFindings(e, e.quest.prerequisites, false, idx, both), ListFindings(e, e.quest.prerequisitesExternal, true, idx, both), IsKind(kind));
      FilterAppend(Findings(p, idx, both), QuestFindings(e, idx, both), IsKind(kind));
    }
  }

  /** An empty list of missing-kind findings means no quest has an unindexed prerequisite. */
  lemma NoMissingIff(es: seq<Entry>, idx: map<string, Located>)
    ensures Findings(es, idx, {Missing}) == [] <==>
      forall k, external, p :: 0 <= k < |es| && p in PrereqList(es[k].quest, external) ==> p in idx
  {
    if Findings(es, idx, {Missing}) == [] {
      forall k, external, p | 0 <= k < |es| && p in PrereqList(es[k].quest, external) ensures p in idx {
        if p !in idx {
          FindingsComplete(es, idx, {Missing}, k, external, p);
        }
      }
    } else {
      var f := Findings(es, idx, {Missing})[0];
      FindingsSound(es, idx, {Missing}, f);
    }
  }
}
