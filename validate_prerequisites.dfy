// The prerequisite validator: the quest indexes, the id checks, the cycle
// search, the orphan / blocked / availability lists and the exit status.
module ValidatePrerequisites {
  import opened Util
  import opened Catalog
  import opened PrereqRules

  // ---------------------------------------------------------------------
  // build_quest_index
  // ---------------------------------------------------------------------

  /** quest_by_npc: a defaultdict, so an NPC appears only once it has a quest with a truthy id. */
  function NpcIndex(es: seq<Entry>): map<string, map<string, Quest>>
    decreases |es|
  {
    if es == [] then map[]
    else
      var m := NpcIndex(es[..|es| - 1]);
      var e := es[|es| - 1];
      if e.quest.id == "" then m
      else
        var inner := if e.npc in m then m[e.npc] else map[];
        m[e.npc := inner[e.quest.id := e.quest]]
  }

  /** An NPC has an inner index iff one of its quests has a truthy id, and an id is in that
      inner index iff a quest of that NPC carries it. */
  lemma NpcIndexKeys(es: seq<Entry>, npc: string, id: string)
    ensures npc in NpcIndex(es) <==> exists k :: 0 <= k < |es| && es[k].npc == npc && es[k].quest.id != ""
    ensures npc in NpcIndex(es) ==>
      (id in NpcIndex(es)[npc] <==> id != "" && exists k :: 0 <= k < |es| && es[k].npc == npc && es[k].quest.id == id)
  {
    NpcIndexHas(es, npc);
    if npc in NpcIndex(es) {
      NpcIndexInner(es, npc, id);
    }
  }

  lemma {:induction false} NpcIndexHas(es: seq<Entry>, npc: string)
    ensures npc in NpcIndex(es) <==> exists k :: 0 <= k < |es| && es[k].npc == npc && es[k].quest.id != ""
    decreases |es|
  {
    if es != [] {
      var p := es[..|es| - 1];
      NpcIndexHas(p, npc);
      if exists k :: 0 <= k < |p| && p[k].npc == npc && p[k].quest.id != "" {
        var k :| 0 <= k < |p| && p[k].npc == npc && p[k].quest.id != "";
        assert es[k] == p[k];
      }
      if exists k :: 0 <= k < |es| && es[k].npc == npc && es[k].quest.id != "" {
        var k :| 0 <= k < |es| && es[k].npc == npc && es[k].quest.id != "";
        if k < |p| { assert p[k] == es[k]; }
      }
    }
  }

  lemma {:induction false} NpcIndexInner(es: seq<Entry>, npc: string, id: string)
    requires npc in NpcIndex(es)
    ensures id in NpcIndex(es)[npc] <==> id != "" && exists k :: 0 <= k < |es| && es[k].npc == npc && es[k].quest.id == id
    decreases |es|
  {
    var p := es[..|es| - 1];
    var e := es[|es| - 1];
    var m := NpcIndex(p);
    if npc in m {
      NpcIndexInner(p, npc, id);
    }
    if id != "" && exists k :: 0 <= k < |p| && p[k].npc == npc && p[k].quest.id == id {
      var k :| 0 <= k < |p| && p[k].npc == npc && p[k].quest.id == id;
      assert es[k] == p[k];
      NpcIndexHas(p, npc);
    }
    if id != "" && exists k :: 0 <= k < |es| && es[k].npc == npc && es[k].quest.id == id {
      var k :| 0 <= k < |es| && es[k].npc == npc && es[k].quest.id == id;
      if k < |p| { assert p[k] == es[k]; NpcIndexHas(p, npc); }
    }
  }

  lemma IndexesSnoc(s: seq<Entry>, e: Entry)
    ensures IdIndex(s + [e]) == if e.quest.id != "" then IdIndex(s)[e.quest.id := Located(e.npc, e.quest)] else IdIndex(s)
    ensures NpcIndex(s + [e]) ==
      if e.quest.id == "" then NpcIndex(s)
      else NpcIndex(s)[e.npc := (if e.npc in NpcIndex(s) then NpcIndex(s)[e.npc] else map[])[e.quest.id := e.quest]]
  {
    assert (s + [e])[..|s|] == s;
  }

  method BuildQuestIndex(cat: seq<Npc>) returns (byId: map<string, Located>, byNpc: map<string, map<string, Quest>>)
    ensures byId == IdIndex(Entries(cat))
    ensures byNpc == NpcIndex(Entries(cat))
  {
    byId := map[];
    byNpc := map[];
    for i := 0 to |cat|
      invariant byId == IdIndex(Entries(cat[..i]))
      invariant byNpc == NpcIndex(Entries(cat[..i]))
    {
      var npc := cat[i];
      ghost var base := Entries(cat[..i]);
      EntriesPrefix(cat, i);
      assert base + NpcEntries(npc)[..0] == base;
      for j := 0 to |npc.quests|
        invariant byId == IdIndex(base + NpcEntries(npc)[..j])
        invariant byNpc == NpcIndex(base + NpcEntries(npc)[..j])
      {
        var quest := npc.quests[j];
        ghost var before := base + NpcEntries(npc)[..j];
        EntryStep(base, npc, j);
        IndexesSnoc(before, Entry(npc.key, npc.name, quest));
        if quest.id != "" {
          byId := byId[quest.id := Located(npc.key, quest)];
          var inner := if npc.key in byNpc then byNpc[npc.key] else map[];
          byNpc := byNpc[npc.key := inner[quest.id := quest]];
        }
      }
      assert NpcEntries(npc)[..|npc.quests|] == NpcEntries(npc);
    }
    assert cat[..|cat|] == cat;
  }

  // ---------------------------------------------------------------------
  // validate_prerequisite_ids
  // ---------------------------------------------------------------------

  method CheckList(e: Entry, ps: seq<string>, external: bool, idx: map<string, Located>)
    returns (errors: seq<Finding>, warnings: seq<Finding>)
    ensures errors == ListFindings(e, ps, external, idx, {Missing})
    ensures warnings == ListFindings(e, ps, external, idx, {Misplaced})
  {
    errors := [];
    warnings := [];
    for k := 0 to |ps|
      invariant errors == ListFindings(e, ps[..k], external, idx, {Missing})
      invariant warnings == ListFindings(e, ps[..k], external, idx, {Misplaced})
    {
      var p := ps[k];
      assert ps[..k + 1][..k] == ps[..k];
      if p !in idx {
        errors := errors + [Finding(Missing, e.npcName, e.quest.id, e.quest.name, p, external, "")];
      } else if (idx[p].npc != e.npc && !external) || (idx[p].npc == e.npc && external) {
        warnings := warnings + [Finding(Misplaced, e.npcName, e.quest.id, e.quest.name, p, external, idx[p].npc)];
      }
    }
    assert ps[..|ps|] == ps;
  }

  /** errors: the unindexed prerequisite ids; warnings: the misplaced ones; both in visiting order. */
  method ValidatePrerequisiteIds(cat: seq<Npc>, idx: map<string, Located>)
    returns (errors: seq<Finding>, warnings: seq<Finding>)
    ensures errors == Findings(Entries(cat), idx, {Missing})
    ensures warnings == Findings(Entries(cat), idx, {Misplaced})
  {
    var es := Entries(cat);
    errors := [];
    warnings := [];
    for i := 0 to |es|
      invariant errors == Findings(es[..i], idx, {Missing})
      invariant warnings == Findings(es[..i], idx, {Misplaced})
    {
      var e := es[i];
      assert es[..i + 1][..i] == es[..i];
      assert Findings(es[..i + 1], idx, {Missing}) == Findings(es[..i], idx, {Missing}) + QuestFindings(e, idx, {Missing});
      assert Findings(es[..i + 1], idx, {Misplaced}) == Findings(es[..i], idx, {Misplaced}) + QuestFindings(e, idx, {Misplaced});
      var e1, w1 := CheckList(e, e.quest.prerequisites, false, idx);
      var e2, w2 := CheckList(e, e.quest.prerequisitesExternal, true, idx);
      errors := errors + (e1 + e2);
      warnings := warnings + (w1 + w2);
    }
    assert es[..|es|] == es;
  }

  /** An error names a prerequisite id iff that id is not indexed. */
  lemma ErrorIffUnindexed(es: seq<Entry>, idx: map<string, Located>, k: nat, external: bool, p: string)
    requires k < |es| && p in PrereqList(es[k].quest, external)
    ensures Finding(Missing, es[k].npcName, es[k].quest.id, es[k].quest.name, p, external, "") in Findings(es, idx, {Missing})
            <==> p !in idx
  {
    var f := Finding(Missing, es[k].npcName, es[k].quest.id, es[k].quest.name, p, external, "");
    if p !in idx {
      FindingsComplete(es, idx, {Missing}, k, external, p);
    }
    if f in Findings(es, idx, {Missing}) {
      FindingsSound(es, idx, {Missing}, f);
    }
  }

  /** A misplaced id is always warned about, and every warning is about an indexed id placed in
      the list its owner's NPC does not call for. */
  lemma WarningIffMisplaced(es: seq<Entry>, idx: map<string, Located>, w: Finding)
    ensures w in Findings(es, idx, {Misplaced}) <==>
      exists k :: 0 <= k < |es| && w.prereqId in PrereqList(es[k].quest, w.external)
        && w.prereqId in idx && (if w.external then idx[w.prereqId].npc == es[k].npc else idx[w.prereqId].npc != es[k].npc)
        && w == Finding(Misplaced, es[k].npcName, es[k].quest.id, es[k].quest.name, w.prereqId, w.external, idx[w.prereqId].npc)
  {
    if w in Findings(es, idx, {Misplaced}) {
      FindingsSound(es, idx, {Misplaced}, w);
    }
    if exists k :: 0 <= k < |es| && w.prereqId in PrereqList(es[k].quest, w.external)
        && w.prereqId in idx && (if w.external then idx[w.prereqId].npc == es[k].npc else idx[w.prereqId].npc != es[k].npc)
        && w == Finding(Misplaced, es[k].npcName, es[k].quest.id, es[k].quest.name, w.prereqId, w.external, idx[w.prereqId].npc) {
      var k :| 0 <= k < |es| && w.prereqId in PrereqList(es[k].quest, w.external)
        && w.prereqId in idx && (if w.external then idx[w.prereqId].npc == es[k].npc else idx[w.prereqId].npc != es[k].npc)
        && w == Finding(Misplaced, es[k].npcName, es[k].quest.id, es[k].quest.name, w.prereqId, w.external, idx[w.prereqId].npc);
      FindingsComplete(es, idx, {Misplaced}, k, w.external, w.prereqId);
    }
  }

  // ---------------------------------------------------------------------
  // detect_circular_dependencies
  // ---------------------------------------------------------------------

  /** b is an indexed prerequisite of the indexed quest a. */
  predicate Edge(idx: map<string, Located>, a: string, b: string) {
    a in idx && b in idx && b in AllPrereqs(idx[a].quest)
  }

  /** Each id of s is followed by one of its indexed prerequisites. */
  predicate Chain(idx: map<string, Located>, s: seq<string>) {
    forall i :: 0 <= i < |s| - 1 ==> Step(idx, s, i)
  }

  /** The id at position i is followed by one of its indexed prerequisites. */
  predicate Step(idx: map<string, Located>, s: seq<string>, i: int)
    requires 0 <= i < |s| - 1
  {
    Edge(idx, s[i], s[i + 1])
  }

  /** A reported cycle: starts and ends with the same id, every step a quest-to-prerequisite edge. */
  predicate IsCycle(idx: map<string, Located>, c: seq<string>) {
    |c| >= 2 && c[0] == c[|c| - 1] && Chain(idx, c)
  }

  ghost predicate Acyclic(idx: map<string, Located>) {
    forall c :: !IsCycle(idx, c)
  }

  predicate OnPath(stack: set<string>, path: seq<string>) {
    forall x :: x in stack ==> x in path
  }

  /** A path of indexed ids following prerequisite edges. */
  predicate Walk(idx: map<string, Located>, path: seq<string>) {
    (forall i :: 0 <= i < |path| ==> path[i] in idx) && Chain(idx, path)
  }

  predicate AllCycles(idx: map<string, Located>, cs: seq<seq<string>>) {
    forall k :: 0 <= k < |cs| ==> IsCycle(idx, cs[k])
  }

  lemma AllCyclesSnoc(idx: map<string, Located>, cs: seq<seq<string>>, c: seq<string>)
    requires AllCycles(idx, cs) && IsCycle(idx, c)
    ensures AllCycles(idx, cs + [c])
  {
  }

  lemma WalkPush(idx: map<string, Located>, s: seq<string>, x: string)
    requires Walk(idx, s) && x in idx
    requires s != [] ==> Edge(idx, s[|s| - 1], x)
    ensures Walk(idx, s + [x])
  {
    ChainPush(idx, s, x);
  }

  lemma ChainPush(idx: map<string, Located>, s: seq<string>, x: string)
    requires Chain(idx, s) && x in idx
    requires s != [] ==> Edge(idx, s[|s| - 1], x)
    ensures Chain(idx, s + [x])
  {
    var t := s + [x];
    forall i | 0 <= i < |t| - 1 ensures Step(idx, t, i) {
      if i < |s| - 1 {
        assert Step(idx, s, i);
        assert t[i] == s[i] && t[i + 1] == s[i + 1];
      } else {
        assert t[i] == s[|s| - 1] && t[i + 1] == x;
      }
    }
  }

  lemma ChainPop(idx: map<string, Located>, s: seq<string>)
    requires Chain(idx, s) && s != []
    ensures Chain(idx, s[..|s| - 1])
  {
    var t := s[..|s| - 1];
    forall i | 0 <= i < |t| - 1 ensures Step(idx, t, i) {
      assert Step(idx, s, i);
      assert t[i] == s[i] && t[i + 1] == s[i + 1];
    }
  }

  /** Closing the path at the first occurrence of p gives the cycle has_cycle reports. */
  lemma CycleFromPath(idx: map<string, Located>, s: seq<string>, start: nat, p: string)
    requires Chain(idx, s) && start < |s| && s[start] == p
    requires Edge(idx, s[|s| - 1], p)
    ensures IsCycle(idx, s[start..] + [p])
  {
    var c := s[start..] + [p];
    forall i | 0 <= i < |c| - 1 ensures Step(idx, c, i) {
      if i < |c| - 2 {
        assert Step(idx, s, start + i);
        assert c[i] == s[start + i] && c[i + 1] == s[start + i + 1];
      } else {
        assert c[i] == s[|s| - 1] && c[i + 1] == p;
      }
    }
  }

  lemma ProperSubsetCard(a: set<string>, b: set<string>, x: string)
    requires a <= b && x in b && x !in a
    ensures |a| < |b|
  {
    assert b == a + (b - a);
    assert a * (b - a) == {};
    assert x in b - a;
  }

  /** A prerequisite on the recursion stack closes a cycle: the path from its first occurrence. */
  lemma ReportCycle(idx: map<string, Located>, pth: seq<string>, stack: set<string>,
                    cs: seq<seq<string>>, id: string, p: string)
    requires Walk(idx, pth) && OnPath(stack, pth) && AllCycles(idx, cs)
    requires pth != [] && pth[|pth| - 1] == id && p in stack && Edge(idx, id, p)
    ensures p in pth && AllCycles(idx, cs + [pth[FirstIndex(pth, p)..] + [p]])
  {
    assert p in pth;
    var start := FirstIndex(pth, p);
    CycleFromPath(idx, pth, start, p);
    AllCyclesSnoc(idx, cs, pth[start..] + [p]);
  }

  /** Popping id after the loop gives back the stack and the path of the call's start. */
  lemma PopRestores(path0: seq<string>, id: string, stack0: set<string>, stack: set<string>)
    requires id !in stack0 && stack == stack0 + {id}
    ensures stack - {id} == stack0
    ensures (path0 + [id])[..|path0 + [id]| - 1] == path0
  {
  }

  /** The state of has_cycle: the shared visited set, the recursion stack, the path and the cycles so far. */
  class CycleSearch {
    const index: map<string, Located>
    var visited: set<string>
    var recStack: set<string>
    var path: seq<string>
    var circular: seq<seq<string>>

    constructor (index: map<string, Located>)
      ensures this.index == index && visited == {} && recStack == {} && path == [] && circular == []
      ensures Valid()
    {
      this.index := index;
      visited := {};
      recStack := {};
      path := [];
      circular := [];
    }

    /** rec_stack holds only ids on the path, all visited; the path follows edges;
        every reported cycle is a cycle. */
    predicate Valid()
      reads this
    {
      OnPath(recStack, path) && recStack <= visited && Walk(index, path) && AllCycles(index, circular)
    }

    method HasCycle(id: string) returns (found: bool)
      requires Valid() && id !in visited
      requires path != [] ==> id in AllPrereqs(index[path[|path| - 1]].quest)
      modifies this
      ensures Valid()
      ensures old(visited) + {id} <= visited
      ensures !found ==> path == old(path) && recStack == old(recStack) && circular == old(circular)
      ensures found ==> |circular| == |old(circular)| + 1 && circular[..|old(circular)|] == old(circular)
      decreases |index.Keys - visited|
    {
      ghost var path0 := path;
      ghost var stack0 := recStack;
      assert id !in stack0 && OnPath(stack0, path0) && Walk(index, path0);
      visited := visited + {id};
      // The source pushes id onto rec_stack and path before this test and pops both inside it,
      // so the branch leaves them as they were; it is never taken, since every root and every
      // recursive call is an indexed id.
      if id !in index {
        return false;
      }
      WalkPush(index, path0, id);
      recStack := recStack + {id};
      path := path + [id];
      var allPrereqs := AllPrereqs(index[id].quest);
      var i := 0;
      while i < |allPrereqs|
        invariant 0 <= i <= |allPrereqs|
        invariant Valid()
        invariant path == path0 + [id] && recStack == old(recStack) + {id}
        invariant circular == old(circular)
        invariant old(visited) + {id} <= visited
      {
        var p := allPrereqs[i];
        if p !in index {
          i := i + 1;
          continue;
        }
        if p !in visited {
          ProperSubsetCard(index.Keys - visited, index.Keys - old(visited), id);
          var r := HasCycle(p);
          if r {
            return true;
          }
        } else if p in recStack {
          ReportCycle(index, path, recStack, circular, id, p);
          var start := FirstIndex(path, p);
          var cycle := path[start..] + [p];
          circular := circular + [cycle];
          return true;
        }
        i := i + 1;
      }
      PopRestores(path0, id, stack0, recStack);
      recStack := recStack - {id};
      path := path[..|path| - 1];
      return false;
    }
  }

  /** The keys of quest_by_id in dict order: first insertion of each truthy id. */
  function TruthyIds(es: seq<Entry>): seq<string>
    decreases |es|
  {
    if es == [] then []
    else TruthyIds(es[..|es| - 1]) + (if es[|es| - 1].quest.id != "" then [es[|es| - 1].quest.id] else [])
  }

  function RootOrder(es: seq<Entry>): seq<string> {
    Dedup(TruthyIds(es))
  }

  lemma {:induction false} TruthyIdsMember(es: seq<Entry>, id: string)
    ensures id in TruthyIds(es) <==> id != "" && exists k :: 0 <= k < |es| && es[k].quest.id == id
    decreases |es|
  {
    if es != [] {
      var p := es[..|es| - 1];
      TruthyIdsMember(p, id);
      assert forall k :: 0 <= k < |p| ==> es[k] == p[k];
      if id != "" && exists k :: 0 <= k < |es| && es[k].quest.id == id {
        var k :| 0 <= k < |es| && es[k].quest.id == id;
        if k < |p| { assert p[k] == es[k]; }
      }
    }
  }

  /** The search roots are exactly the indexed ids, each once. */
  lemma RootOrderIsKeys(es: seq<Entry>)
    ensures NoDuplicates(RootOrder(es))
    ensures forall id :: id in RootOrder(es) <==> id in IdIndex(es)
  {
    forall id ensures id in RootOrder(es) <==> id in IdIndex(es) {
      TruthyIdsMember(es, id);
      IdIndexKeys(es, id);
    }
  }

  /** Every reported cycle is a real cycle between indexed quests, there is at most one per
      search root, and an acyclic catalog yields none. */
  method DetectCircularDependencies(cat: seq<Npc>) returns (circular: seq<seq<string>>)
    ensures forall c :: c in circular ==> IsCycle(IdIndex(Entries(cat)), c)
    ensures |circular| <= |RootOrder(Entries(cat))|
    ensures Acyclic(IdIndex(Entries(cat))) ==> circular == []
  {
    var es := Entries(cat);
    var idx := IdIndex(es);
    var roots := RootOrder(es);
    var search := new CycleSearch(idx);
    for i := 0 to |roots|
      invariant fresh(search) && search.index == idx && search.Valid()
      invariant |search.circular| <= i
    {
      if roots[i] !in search.visited {
        search.recStack := {};
        search.path := [];
        var _ := search.HasCycle(roots[i]);
      }
    }
    circular := search.circular;
    if circular != [] {
      assert IsCycle(idx, circular[0]);
    }
  }

  // ---------------------------------------------------------------------
  // find_orphan_quests, find_blocked_quests, analyze_quest_availability
  // ---------------------------------------------------------------------

  function NotIndexed(idx: map<string, Located>): string -> bool {
    (p: string) => p !in idx
  }

  /** [p for p in all_prereqs if p not in quest_by_id]. */
  function Dangling(q: Quest, idx: map<string, Located>): seq<string> {
    Filter(AllPrereqs(q), NotIndexed(idx))
  }

  /** The dangling list holds exactly the unindexed prerequisite ids. */
  lemma DanglingMember(q: Quest, idx: map<string, Located>, p: string)
    ensures p in Dangling(q, idx) <==> p in AllPrereqs(q) && p !in idx
  {
    FilterMember(AllPrereqs(q), NotIndexed(idx), p);
  }

  datatype OrphanRow = OrphanRow(npcName: string, questId: string, questName: string, invalid: seq<string>)

  /** The invalid list is taken from prerequisites already known to be empty, so nothing is ever listed. */
  method FindOrphanQuests(cat: seq<Npc>, idx: map<string, Located>) returns (orphans: seq<OrphanRow>)
    ensures orphans == []
  {
    var es := Entries(cat);
    orphans := [];
    for i := 0 to |es|
      invariant orphans == []
    {
      var e := es[i];
      var quest := e.quest;
      if quest.prerequisites == [] && quest.prerequisitesExternal == [] {
        var invalid := Dangling(quest, idx);
        if invalid != [] {
          orphans := orphans + [OrphanRow(e.npcName, quest.id, quest.name, invalid)];
        }
      }
    }
  }

  datatype BlockedRow = BlockedRow(npcName: string, questId: string, questName: string, invalid: seq<string>, all: seq<string>)

  function BlockedRowOf(e: Entry, idx: map<string, Located>): BlockedRow {
    BlockedRow(e.npcName, e.quest.id, e.quest.name, Dangling(e.quest, idx), AllPrereqs(e.quest))
  }

  function Blocked(es: seq<Entry>, idx: map<string, Located>): seq<BlockedRow>
    decreases |es|
  {
    if es == [] then []
    else
      var e := es[|es| - 1];
      Blocked(es[..|es| - 1], idx) + (if Dangling(e.quest, idx) != [] then [BlockedRowOf(e, idx)] else [])
  }

  method FindBlockedQuests(cat: seq<Npc>, idx: map<string, Located>) returns (blocked: seq<BlockedRow>)
    ensures blocked == Blocked(Entries(cat), idx)
  {
    var es := Entries(cat);
    blocked := [];
    for i := 0 to |es|
      invariant blocked == Blocked(es[..i], idx)
    {
      BlockedStep(es, i, idx);
      var quest := es[i].quest;
      var allPrereqs := quest.prerequisites + quest.prerequisitesExternal;
      var invalid := Dangling(quest, idx);
      if invalid != [] {
        blocked := blocked + [BlockedRow(es[i].npcName, quest.id, quest.name, invalid, allPrereqs)];
      }
    }
    assert es[..|es|] == es;
  }

  lemma BlockedStep(es: seq<Entry>, i: nat, idx: map<string, Located>)
    requires i < |es|
    ensures Blocked(es[..i + 1], idx) == Blocked(es[..i], idx)
      + (if Dangling(es[i].quest, idx) != [] then [BlockedRowOf(es[i], idx)] else [])
  {
    assert es[..i + 1][..i] == es[..i];
  }

  /** A quest is listed iff one of its prerequisite ids is unindexed; every row lists exactly
      its unindexed ids, in prerequisite order, next to the whole list. */
  lemma {:induction false} BlockedIff(es: seq<Entry>, idx: map<string, Located>)
    ensures forall k :: 0 <= k < |es| && (exists p :: p in AllPrereqs(es[k].quest) && p !in idx) ==> BlockedRowOf(es[k], idx) in Blocked(es, idx)
    ensures forall r :: r in Blocked(es, idx) ==>
      r.invalid != [] && r.invalid == Filter(r.all, NotIndexed(idx)) && exists k :: 0 <= k < |es| && r == BlockedRowOf(es[k], idx)
    decreases |es|
  {
    if es != [] {
      var p := es[..|es| - 1];
      BlockedIff(p, idx);
      assert forall k :: 0 <= k < |p| ==> es[k] == p[k];
      forall k | 0 <= k < |es| && (exists x :: x in AllPrereqs(es[k].quest) && x !in idx)
        ensures BlockedRowOf(es[k], idx) in Blocked(es, idx)
      {
        var x :| x in AllPrereqs(es[k].quest) && x !in idx;
        DanglingMember(es[k].quest, idx, x);
      }
      forall r | r in Blocked(es, idx)
        ensures exists k :: 0 <= k < |es| && r == BlockedRowOf(es[k], idx)
      {
        if r in Blocked(p, idx) {
          var k :| 0 <= k < |p| && r == BlockedRowOf(p[k], idx);
          assert r == BlockedRowOf(es[k], idx);
        } else {
          assert r == BlockedRowOf(es[|es| - 1], idx);
        }
      }
    }
  }

  datatype AvailableRow = AvailableRow(npcName: string, questId: string, questName: string)

  datatype MissingRow = MissingRow(npcName: string, questId: string, questName: string, missing: seq<string>)

  /** The availability verdict on one quest under an empty progress. */
  datatype Verdict = FreeQuest | BlockedByMissing(missing: seq<string>) | Undecided

  function VerdictOf(q: Quest, idx: map<string, Located>): Verdict {
    var missing := Dangling(q, idx);
    if missing != [] then BlockedByMissing(missing)
    else if AllPrereqs(q) == [] then FreeQuest
    else Undecided
  }

  /** Blocked iff one prerequisite is dangling, free iff there are no prerequisites at all;
      no quest is both, and a blocked verdict lists what find_blocked_quests lists. */
  lemma VerdictMeaning(q: Quest, idx: map<string, Located>)
    ensures VerdictOf(q, idx).BlockedByMissing? <==> exists p :: p in AllPrereqs(q) && p !in idx
    ensures VerdictOf(q, idx) == FreeQuest <==> AllPrereqs(q) == []
    ensures VerdictOf(q, idx).BlockedByMissing? ==> VerdictOf(q, idx).missing == Dangling(q, idx)
  {
    if exists p :: p in AllPrereqs(q) && p !in idx {
      var p :| p in AllPrereqs(q) && p !in idx;
      DanglingMember(q, idx, p);
    }
    if Dangling(q, idx) != [] {
      var p := Dangling(q, idx)[0];
      DanglingMember(q, idx, p);
    }
  }

  function AvailableRows(es: seq<Entry>, idx: map<string, Located>): seq<AvailableRow>
    decreases |es|
  {
    if es == [] then []
    else
      var e := es[|es| - 1];
      AvailableRows(es[..|es| - 1], idx)
        + (if VerdictOf(e.quest, idx) == FreeQuest then [AvailableRow(e.npcName, e.quest.id, e.quest.name)] else [])
  }

  function MissingRows(es: seq<Entry>, idx: map<string, Located>): seq<MissingRow>
    decreases |es|
  {
    if es == [] then []
    else
      var e := es[|es| - 1];
      var v := VerdictOf(e.quest, idx);
      MissingRows(es[..|es| - 1], idx)
        + (if v.BlockedByMissing? then [MissingRow(e.npcName, e.quest.id, e.quest.name, v.missing)] else [])
  }

  method AnalyzeQuestAvailability(cat: seq<Npc>, idx: map<string, Located>)
    returns (available: seq<AvailableRow>, blockedByMissing: seq<MissingRow>)
    ensures available == AvailableRows(Entries(cat), idx)
    ensures blockedByMissing == MissingRows(Entries(cat), idx)
  {
    var es := Entries(cat);
    available := [];
    blockedByMissing := [];
    for i := 0 to |es|
      invariant available == AvailableRows(es[..i], idx)
      invariant blockedByMissing == MissingRows(es[..i], idx)
    {
      assert es[..i + 1][..i] == es[..i];
      var e := es[i];
      var allPrereqs := e.quest.prerequisites + e.quest.prerequisitesExternal;
      var missing := Dangling(e.quest, idx);
      if missing != [] {
        blockedByMissing := blockedByMissing + [MissingRow(e.npcName, e.quest.id, e.quest.name, missing)];
      } else if allPrereqs == [] {
        available := available + [AvailableRow(e.npcName, e.quest.id, e.quest.name)];
      }
    }
    assert es[..|es|] == es;
  }

  /** blocked_by_missing and find_blocked_quests list the same quests in the same order with
      the same missing ids. */
  lemma {:induction false} MissingRowsMatchBlocked(es: seq<Entry>, idx: map<string, Located>)
    ensures |MissingRows(es, idx)| == |Blocked(es, idx)|
    ensures forall i :: 0 <= i < |Blocked(es, idx)| ==>
      var b := Blocked(es, idx)[i];
      MissingRows(es, idx)[i] == MissingRow(b.npcName, b.questId, b.questName, b.invalid)
    decreases |es|
  {
    if es != [] {
      MissingRowsMatchBlocked(es[..|es| - 1], idx);
    }
  }

  // ---------------------------------------------------------------------
  // main's exit status
  // ---------------------------------------------------------------------

  /** 1 when there is any error, 0 otherwise (warnings do not fail the run). */
  function ExitCode(errors: seq<Finding>): (code: int)
    ensures code == 0 || code == 1
  {
    if errors != [] then 1 else 0
  }

  /** The validator fails exactly when some quest of the catalog has an unindexed prerequisite. */
  lemma ExitCodeIff(cat: seq<Npc>)
    ensures var es := Entries(cat);
      ExitCode(Findings(es, IdIndex(es), {Missing})) == 1 <==>
        exists k, external, p :: 0 <= k < |es| && p in PrereqList(es[k].quest, external) && p !in IdIndex(es)
  {
    NoMissingIff(Entries(cat), IdIndex(Entries(cat)));
  }
}
