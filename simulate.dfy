// The one-pass availability simulation: which quests a given set of
// completed ids makes available, and which stay locked and why.
module Simulate {
  import opened Util
  import opened Catalog

  // ---------------------------------------------------------------------
  // are_all_prerequisites_met
  // ---------------------------------------------------------------------

  /** Every prerequisite, internal or external, exists in the index and is completed. */
  predicate AllMet(q: Quest, done: set<string>, idx: map<string, Located>) {
    forall i :: 0 <= i < |AllPrereqs(q)| ==> AllPrereqs(q)[i] in idx && AllPrereqs(q)[i] in done
  }

  /** The early-return scan; the NPC id is accepted and never used. */
  method AreAllPrerequisitesMet(q: Quest, npcId: string, done: set<string>, idx: map<string, Located>) returns (met: bool)
    ensures met == AllMet(q, done, idx)
  {
    var allPrereqs := q.prerequisites + q.prerequisitesExternal;
    if allPrereqs == [] {
      return true;
    }
    for i := 0 to |allPrereqs|
      invariant forall j :: 0 <= j < i ==> allPrereqs[j] in idx && allPrereqs[j] in done
    {
      var p := allPrereqs[i];
      assert AllPrereqs(q)[i] == p;
      if p !in idx {
        return false;
      }
      if p !in done {
        return false;
      }
    }
    return true;
  }

  /** A quest without prerequisites is always met; otherwise met means every id is indexed and done. */
  lemma AllMetMeaning(q: Quest, done: set<string>, idx: map<string, Located>)
    ensures AllPrereqs(q) == [] ==> AllMet(q, done, idx)
    ensures AllMet(q, done, idx) <==> forall p :: p in AllPrereqs(q) ==> p in idx && p in done
  {
  }

  // ---------------------------------------------------------------------
  // simulate_quest_availability
  // ---------------------------------------------------------------------

  const NoPrereqsReason := "Sem pre-requisitos"
  const PrereqsDoneReason := "Pre-requisitos completos"

  datatype AvailableQuest = AvailableQuest(id: string, name: string, reason: string)

  /** One uncompleted prerequisite of a locked quest: its id, name and owning NPC. */
  datatype MissingPrereq = MissingPrereq(id: string, name: string, npc: string)

  datatype LockedQuest = LockedQuest(id: string, name: string, missing: seq<MissingPrereq>)

  /** The prerequisites listed as missing: uncompleted ones that the index knows, in list order. */
  function MissingList(ps: seq<string>, done: set<string>, idx: map<string, Located>): seq<MissingPrereq>
    decreases |ps|
  {
    if ps == [] then []
    else
      var p := ps[|ps| - 1];
      MissingList(ps[..|ps| - 1], done, idx)
        + (if p !in done && p in idx then [MissingPrereq(p, idx[p].quest.name, idx[p].npc)] else [])
  }

  /** An id is listed iff it is a prerequisite, uncompleted and indexed; each row describes its id. */
  lemma {:induction false} MissingListMember(ps: seq<string>, done: set<string>, idx: map<string, Located>, m: MissingPrereq)
    ensures m in MissingList(ps, done, idx) <==>
      m.id in ps && m.id !in done && m.id in idx && m == MissingPrereq(m.id, idx[m.id].quest.name, idx[m.id].npc)
    decreases |ps|
  {
    if ps != [] {
      var init := ps[..|ps| - 1];
      MissingListMember(init, done, idx, m);
      if m.id in ps && m.id != ps[|ps| - 1] {
        var k :| 0 <= k < |ps| && ps[k] == m.id;
        assert init[k] == m.id;
      }
    }
  }

  /** The available row of a quest, if it has one. */
  function AvailableOf(q: Quest, done: set<string>, idx: map<string, Located>): Option<AvailableQuest> {
    if q.prerequisites == [] && q.prerequisitesExternal == [] then
      if q.id !in done then Some(AvailableQuest(q.id, q.name, NoPrereqsReason)) else None
    else if AllMet(q, done, idx) then
      if q.id !in done then Some(AvailableQuest(q.id, q.name, PrereqsDoneReason)) else None
    else None
  }

  /** The locked row of a quest, if it has one. */
  function LockedOf(q: Quest, done: set<string>, idx: map<string, Located>): Option<LockedQuest> {
    if q.prerequisites == [] && q.prerequisitesExternal == [] then None
    else if AllMet(q, done, idx) then None
    else Some(LockedQuest(q.id, q.name, MissingList(AllPrereqs(q), done, idx)))
  }

  /** Available iff not completed and met; locked iff not met, completed or not; never both;
      the reason says whether there were prerequisites at all. */
  lemma OutcomeMeaning(q: Quest, done: set<string>, idx: map<string, Located>)
    ensures AvailableOf(q, done, idx).Some? <==> q.id !in done && AllMet(q, done, idx)
    ensures LockedOf(q, done, idx).Some? <==> !AllMet(q, done, idx)
    ensures !(AvailableOf(q, done, idx).Some? && LockedOf(q, done, idx).Some?)
    ensures AvailableOf(q, done, idx).Some? ==>
      AvailableOf(q, done, idx).value.id == q.id
      && (AvailableOf(q, done, idx).value.reason == NoPrereqsReason <==> AllPrereqs(q) == [])
  {
  }

  /** A defaultdict(list) append: the key is created by the first append. */
  function Append<T>(m: map<string, seq<T>>, key: string, x: T): map<string, seq<T>> {
    m[key := (if key in m then m[key] else []) + [x]]
  }

  function AvailableFn(done: set<string>, idx: map<string, Located>): Entry -> Option<AvailableQuest> {
    (e: Entry) => AvailableOf(e.quest, done, idx)
  }

  function LockedFn(done: set<string>, idx: map<string, Located>): Entry -> Option<LockedQuest> {
    (e: Entry) => LockedOf(e.quest, done, idx)
  }

  /** The rows f gives, grouped by owning NPC, each group in visiting order. */
  function GroupByNpc<T>(es: seq<Entry>, f: Entry -> Option<T>): map<string, seq<T>>
    decreases |es|
  {
    if es == [] then map[]
    else
      var m := GroupByNpc(es[..|es| - 1], f);
      var e := es[|es| - 1];
      if f(e).Some? then Append(m, e.npc, f(e).value) else m
  }

  /** An NPC has a group iff one of its quests has a row, and the group holds exactly the rows of
      that NPC's quests. */
  lemma GroupByNpcMember<T>(es: seq<Entry>, f: Entry -> Option<T>, npc: string, x: T)
    ensures npc in GroupByNpc(es, f) <==> exists k :: 0 <= k < |es| && es[k].npc == npc && f(es[k]).Some?
    ensures npc in GroupByNpc(es, f) ==>
      (x in GroupByNpc(es, f)[npc] <==> exists k :: 0 <= k < |es| && es[k].npc == npc && f(es[k]) == Some(x))
  {
    GroupKeys(es, f, npc);
    if npc in GroupByNpc(es, f) {
      GroupRows(es, f, npc, x);
    }
  }

  lemma {:induction false} GroupKeys<T>(es: seq<Entry>, f: Entry -> Option<T>, npc: string)
    ensures npc in GroupByNpc(es, f) <==> exists k :: 0 <= k < |es| && es[k].npc == npc && f(es[k]).Some?
    decreases |es|
  {
    if es != [] {
      var p := es[..|es| - 1];
      GroupKeys(p, f, npc);
      if exists k :: 0 <= k < |es| && es[k].npc == npc && f(es[k]).Some? {
        var k :| 0 <= k < |es| && es[k].npc == npc && f(es[k]).Some?;
        if k < |p| { assert p[k] == es[k]; }
      }
      if exists k :: 0 <= k < |p| && p[k].npc == npc && f(p[k]).Some? {
        var k :| 0 <= k < |p| && p[k].npc == npc && f(p[k]).Some?;
        assert es[k] == p[k];
      }
    }
  }

  lemma {:induction false} GroupRows<T>(es: seq<Entry>, f: Entry -> Option<T>, npc: string, x: T)
    requires npc in GroupByNpc(es, f)
    ensures x in GroupByNpc(es, f)[npc] <==> exists k :: 0 <= k < |es| && es[k].npc == npc && f(es[k]) == Some(x)
    decreases |es|
  {
    var p := es[..|es| - 1];
    if npc in GroupByNpc(p, f) {
      GroupRows(p, f, npc, x);
    }
    if exists k :: 0 <= k < |es| && es[k].npc == npc && f(es[k]) == Some(x) {
      var k :| 0 <= k < |es| && es[k].npc == npc && f(es[k]) == Some(x);
      if k < |p| { assert p[k] == es[k]; GroupKeys(p, f, npc); }
    }
    if exists k :: 0 <= k < |p| && p[k].npc == npc && f(p[k]) == Some(x) {
      var k :| 0 <= k < |p| && p[k].npc == npc && f(p[k]) == Some(x);
      assert es[k] == p[k];
      GroupKeys(p, f, npc);
    }
  }

  /** One pass over the catalog against a fixed copy of the initial completed set: nothing found
      available is added to it, so no quest is unlocked by another found in the same run. */
  method SimulateQuestAvailability(cat: seq<Npc>, idx: map<string, Located>, initial: set<string>)
    returns (available: map<string, seq<AvailableQuest>>, locked: map<string, seq<LockedQuest>>)
    ensures available == GroupByNpc(Entries(cat), AvailableFn(initial, idx))
    ensures locked == GroupByNpc(Entries(cat), LockedFn(initial, idx))
  {
    var done := initial;
    var es := Entries(cat);
    available := map[];
    locked := map[];
    for i := 0 to |es|
      invariant available == GroupByNpc(es[..i], AvailableFn(done, idx))
      invariant locked == GroupByNpc(es[..i], LockedFn(done, idx))
    {
      var e := es[i];
      GroupStep(es, i, AvailableFn(done, idx));
      GroupStep(es, i, LockedFn(done, idx));
      var quest := e.quest;
      if quest.prerequisites == [] && quest.prerequisitesExternal == [] {
        if quest.id !in done {
          available := Append(available, e.npc, AvailableQuest(quest.id, quest.name, NoPrereqsReason));
        }
      } else {
        var met := AreAllPrerequisitesMet(quest, e.npc, done, idx);
        if met {
          if quest.id !in done {
            available := Append(available, e.npc, AvailableQuest(quest.id, quest.name, PrereqsDoneReason));
          }
        } else {
          var missing := MissingRows(AllPrereqs(quest), done, idx);
          locked := Append(locked, e.npc, LockedQuest(quest.id, quest.name, missing));
        }
      }
    }
    assert es[..|es|] == es;
  }

  lemma GroupStep<T>(es: seq<Entry>, i: nat, f: Entry -> Option<T>)
    requires i < |es|
    ensures GroupByNpc(es[..i + 1], f) ==
      if f(es[i]).Some? then Append(GroupByNpc(es[..i], f), es[i].npc, f(es[i]).value) else GroupByNpc(es[..i], f)
  {
    assert es[..i + 1][..i] == es[..i];
  }

  /** The loop that builds missing_prerequisites. */
  method MissingRows(ps: seq<string>, done: set<string>, idx: map<string, Located>) returns (missing: seq<MissingPrereq>)
    ensures missing == MissingList(ps, done, idx)
  {
    missing := [];
    for i := 0 to |ps|
      invariant missing == MissingList(ps[..i], done, idx)
    {
      assert ps[..i + 1][..i] == ps[..i];
      var p := ps[i];
      if p !in done {
        if p in idx {
          missing := missing + [MissingPrereq(p, idx[p].quest.name, idx[p].npc)];
        }
      }
    }
    assert ps[..|ps|] == ps;
  }

  /** A quest listed as available under its NPC is uncompleted with every prerequisite met; one
      listed as locked has an unmet prerequisite; so no quest row is in both groups. */
  lemma SimulationRows(cat: seq<Npc>, idx: map<string, Located>, done: set<string>, k: nat)
    requires k < |Entries(cat)|
    ensures var e := Entries(cat)[k];
      var av := GroupByNpc(Entries(cat), AvailableFn(done, idx));
      var lk := GroupByNpc(Entries(cat), LockedFn(done, idx));
      (e.quest.id !in done && AllMet(e.quest, done, idx) ==> e.npc in av && AvailableOf(e.quest, done, idx).value in av[e.npc])
      && (!AllMet(e.quest, done, idx) ==> e.npc in lk && LockedOf(e.quest, done, idx).value in lk[e.npc])
  {
    var es := Entries(cat);
    var e := es[k];
    OutcomeMeaning(e.quest, done, idx);
    if e.quest.id !in done && AllMet(e.quest, done, idx) {
      GroupByNpcMember(es, AvailableFn(done, idx), e.npc, AvailableOf(e.quest, done, idx).value);
    }
    if !AllMet(e.quest, done, idx) {
      GroupByNpcMember(es, LockedFn(done, idx), e.npc, LockedOf(e.quest, done, idx).value);
    }
  }

  /** Conversely, every available row comes from an uncompleted quest of that NPC whose
      prerequisites are met, and every locked row from a quest of that NPC whose are not. */
  lemma SimulationRowsSound(cat: seq<Npc>, idx: map<string, Located>, done: set<string>, npc: string, a: AvailableQuest, l: LockedQuest)
    ensures var es := Entries(cat);
      var av := GroupByNpc(es, AvailableFn(done, idx));
      var lk := GroupByNpc(es, LockedFn(done, idx));
      (npc in av && a in av[npc] ==>
         (exists k :: 0 <= k < |es| && es[k].npc == npc && a.id == es[k].quest.id
            && es[k].quest.id !in done && AllMet(es[k].quest, done, idx)))
      && (npc in lk && l in lk[npc] ==>
         (exists k :: 0 <= k < |es| && es[k].npc == npc && l.id == es[k].quest.id
            && !AllMet(es[k].quest, done, idx) && l.missing == MissingList(AllPrereqs(es[k].quest), done, idx)))
  {
    var es := Entries(cat);
    GroupByNpcMember(es, AvailableFn(done, idx), npc, a);
    GroupByNpcMember(es, LockedFn(done, idx), npc, l);
    var av := GroupByNpc(es, AvailableFn(done, idx));
    var lk := GroupByNpc(es, LockedFn(done, idx));
    if npc in av && a in av[npc] {
      var k :| 0 <= k < |es| && es[k].npc == npc && AvailableFn(done, idx)(es[k]) == Some(a);
      OutcomeMeaning(es[k].quest, done, idx);
    }
    if npc in lk && l in lk[npc] {
      var k :| 0 <= k < |es| && es[k].npc == npc && LockedFn(done, idx)(es[k]) == Some(l);
      OutcomeMeaning(es[k].quest, done, idx);
    }
  }

  /** A dangling prerequisite locks a quest without appearing in its missing list, so a locked quest
      can list nothing missing. */
  lemma LockedWithNothingMissing()
    ensures var q := Quest("b", "B", None, ["gone"], [], "", false);
      LockedOf(q, {}, map[]) == Some(LockedQuest("b", "B", []))
  {
    var q := Quest("b", "B", None, ["gone"], [], "", false);
    assert AllPrereqs(q) == ["gone"];
    assert AllPrereqs(q)[0] == "gone";
    assert !AllMet(q, {}, map[]);
    assert ["gone"][..0] == [];
    assert MissingList(["gone"], {}, map[]) == MissingList([], {}, map[]) + [];
  }
}
