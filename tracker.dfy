// The browser progress tracker: per-NPC progress records, the last /
// current / next quest finders, completing and resetting, and the status
// shown for every quest in the list.
module Tracker {
  import opened Util
  import opened Catalog

  /** progress[npcId]: the completed ids in completion order and the stored current id (null is None). */
  datatype Record = Record(completed: seq<string>, current: Option<string>)

  /** The record a fresh or reset NPC gets, and the fallback for a missing one. */
  const EmptyRecord := Record([], None)

  /** The number a tier compares as: JavaScript coerces null to 0. */
  function TierValue(t: Option<int>): int {
    if t.Some? then t.value else 0
  }

  /** quests.find(q => q.id === id). */
  function FindById(quests: seq<Quest>, id: string): (r: Option<Quest>)
    ensures r.Some? ==> r.value.id == id && exists k :: 0 <= k < |quests| && quests[k] == r.value && forall j :: 0 <= j < k ==> quests[j].id != id
    ensures r.None? <==> forall k :: 0 <= k < |quests| ==> quests[k].id != id
    decreases |quests|
  {
    if quests == [] then None
    else if quests[0].id == id then Some(quests[0])
    else
      var r := FindById(quests[1..], id);
      assert r.Some? ==> exists k :: 0 <= k < |quests[1..]| && quests[1..][k] == r.value && forall j :: 0 <= j < k ==> quests[1..][j].id != id;
      assert forall k :: 1 <= k < |quests| ==> quests[k] == quests[1..][k - 1];
      r
  }

  // ---------------------------------------------------------------------
  // findLastCompletedQuest
  // ---------------------------------------------------------------------

  /** The loop state of findLastCompletedQuest: highestTier and lastQuest. */
  datatype Scan = Scan(highest: int, last: Option<Quest>)

  /** The forEach over the completed ids: a found quest replaces the best one only with a strictly higher tier. */
  function LastScan(quests: seq<Quest>, ids: seq<string>): Scan
    decreases |ids|
  {
    if ids == [] then Scan(-1, None)
    else
      var s := LastScan(quests, ids[..|ids| - 1]);
      var f := FindById(quests, ids[|ids| - 1]);
      if f.Some? && TierValue(f.value.tier) > s.highest then Scan(TierValue(f.value.tier), f) else s
  }

  function LastCompleted(quests: seq<Quest>, rec: Record): Option<Quest> {
    if rec.completed == [] then None else LastScan(quests, rec.completed).last
  }

  /** The id names one of this NPC's quests. */
  predicate Found(quests: seq<Quest>, id: string) {
    FindById(quests, id).Some?
  }

  /** The tier (null as 0) of the quest an id names. */
  function TierAt(quests: seq<Quest>, id: string): int
    requires Found(quests, id)
  {
    TierValue(FindById(quests, id).value.tier)
  }

  /** The scan keeps the highest tier seen, starting from -1, and the quest that reached it. */
  lemma {:induction false} LastScanBound(quests: seq<Quest>, ids: seq<string>)
    ensures var s := LastScan(quests, ids);
      (s.last.None? <==> s.highest == -1)
      && (s.last.Some? ==> s.highest == TierValue(s.last.value.tier) && s.last.value in quests)
      && s.highest >= -1
      && forall k :: 0 <= k < |ids| && Found(quests, ids[k]) ==> TierAt(quests, ids[k]) <= s.highest
    decreases |ids|
  {
    if ids != [] {
      var p := ids[..|ids| - 1];
      LastScanBound(quests, p);
      assert forall k :: 0 <= k < |p| ==> ids[k] == p[k];
    }
  }

  /** The id at k names the chosen quest, and no earlier id names a quest of the highest tier. */
  predicate FirstReaching(quests: seq<Quest>, ids: seq<string>, k: int, s: Scan) {
    0 <= k < |ids| && FindById(quests, ids[k]) == s.last
    && forall j :: 0 <= j < k && Found(quests, ids[j]) ==> TierAt(quests, ids[j]) < s.highest
  }

  lemma FirstReachingExtend(quests: seq<Quest>, ids: seq<string>, k: int, s: Scan)
    requires ids != [] && FirstReaching(quests, ids[..|ids| - 1], k, s)
    ensures FirstReaching(quests, ids, k, s)
  {
    var p := ids[..|ids| - 1];
    assert forall j :: 0 <= j <= k ==> ids[j] == p[j];
  }

  /** The chosen quest is named by the first id, in completed order, that reaches the highest tier. */
  lemma {:induction false} LastScanWitness(quests: seq<Quest>, ids: seq<string>)
    requires LastScan(quests, ids).last.Some?
    ensures exists k :: FirstReaching(quests, ids, k, LastScan(quests, ids))
    decreases |ids|
  {
    var p := ids[..|ids| - 1];
    var s := LastScan(quests, p);
    var f := FindById(quests, ids[|ids| - 1]);
    if f.Some? && TierValue(f.value.tier) > s.highest {
      LastScanBound(quests, p);
      var k := |ids| - 1;
      forall j | 0 <= j < k && Found(quests, ids[j])
        ensures TierAt(quests, ids[j]) < LastScan(quests, ids).highest
      {
        assert ids[j] == p[j];
      }
      assert FirstReaching(quests, ids, k, LastScan(quests, ids));
    } else {
      LastScanWitness(quests, p);
      var k :| FirstReaching(quests, p, k, s);
      FirstReachingExtend(quests, ids, k, s);
    }
  }

  /** findLastCompletedQuest's answer: null for an empty completed list or when no completed id
      names a quest with a tier above -1; otherwise a quest of this NPC named by a completed id,
      with a tier no lower than any other such quest, and the first in completed order to reach it. */
  lemma LastCompletedIsFirstMaximum(quests: seq<Quest>, rec: Record)
    ensures rec.completed == [] ==> LastCompleted(quests, rec).None?
    ensures LastCompleted(quests, rec).None? ==>
      forall k :: 0 <= k < |rec.completed| && Found(quests, rec.completed[k]) ==> TierAt(quests, rec.completed[k]) <= -1
    ensures LastCompleted(quests, rec).Some? ==>
      var q := LastCompleted(quests, rec).value;
      q in quests
      && (forall k :: 0 <= k < |rec.completed| && Found(quests, rec.completed[k]) ==> TierAt(quests, rec.completed[k]) <= TierValue(q.tier))
      && exists k :: 0 <= k < |rec.completed| && FindById(quests, rec.completed[k]) == Some(q)
           && forall j :: 0 <= j < k && Found(quests, rec.completed[j]) ==> TierAt(quests, rec.completed[j]) < TierValue(q.tier)
  {
    LastScanBound(quests, rec.completed);
    if LastCompleted(quests, rec).Some? {
      LastScanWitness(quests, rec.completed);
      var k :| FirstReaching(quests, rec.completed, k, LastScan(quests, rec.completed));
    }
  }

  lemma LastScanStep(quests: seq<Quest>, ids: seq<string>, i: nat)
    requires i < |ids|
    ensures LastScan(quests, ids[..i + 1]) ==
      (var s := LastScan(quests, ids[..i]);
       var f := FindById(quests, ids[i]);
       if f.Some? && TierValue(f.value.tier) > s.highest then Scan(TierValue(f.value.tier), f) else s)
  {
    assert ids[..i + 1][..i] == ids[..i];
  }

  method FindLastCompletedQuest(npc: Npc, rec: Record) returns (last: Option<Quest>)
    ensures last == LastCompleted(npc.quests, rec)
  {
    if |rec.completed| == 0 {
      return None;
    }
    var highest := -1;
    last := None;
    var i := 0;
    while i < |rec.completed|
      invariant 0 <= i <= |rec.completed|
      invariant Scan(highest, last) == LastScan(npc.quests, rec.completed[..i])
    {
      var quest := FindById(npc.quests, rec.completed[i]);
      LastScanStep(npc.quests, rec.completed, i);
      if quest.Some? && TierValue(quest.value.tier) > highest {
        highest := TierValue(quest.value.tier);
        last := quest;
      }
      i := i + 1;
    }
    assert rec.completed[..i] == rec.completed;
  }

  // ---------------------------------------------------------------------
  // findCurrentQuest / findNextQuest
  // ---------------------------------------------------------------------

  /** Not yet done and every internal prerequisite done (the `every` test of the loops). */
  predicate AvailableAfter(q: Quest, done: seq<string>) {
    q.id !in done && forall p :: p in q.prerequisites ==> p in done
  }

  /** The first quest in catalog order that is available after `done`. */
  function FirstAvailable(quests: seq<Quest>, done: seq<string>): (r: Option<Quest>)
    ensures r.None? <==> forall k :: 0 <= k < |quests| ==> !AvailableAfter(quests[k], done)
    ensures r.Some? ==> AvailableAfter(r.value, done) && exists k :: 0 <= k < |quests| && quests[k] == r.value && forall j :: 0 <= j < k ==> !AvailableAfter(quests[j], done)
    decreases |quests|
  {
    if quests == [] then None
    else if AvailableAfter(quests[0], done) then Some(quests[0])
    else
      var r := FirstAvailable(quests[1..], done);
      assert forall k :: 1 <= k < |quests| ==> quests[k] == quests[1..][k - 1];
      assert r.Some? ==> exists k :: 0 <= k < |quests[1..]| && quests[1..][k] == r.value && forall j :: 0 <= j < k ==> !AvailableAfter(quests[1..][j], done);
      r
  }

  /** A stored current id counts when it is truthy and names an uncompleted quest of this NPC. */
  function StoredCurrent(quests: seq<Quest>, rec: Record): Option<Quest> {
    if rec.current.Some? && rec.current.value != "" then
      var f := FindById(quests, rec.current.value);
      if f.Some? && f.value.id !in rec.completed then f else None
    else None
  }

  function CurrentQuest(quests: seq<Quest>, rec: Record): Option<Quest> {
    var s := StoredCurrent(quests, rec);
    if s.Some? then s else FirstAvailable(quests, rec.completed)
  }

  /** A valid stored current quest wins even when its prerequisites are not done;
      otherwise the first available quest in catalog order is current. */
  lemma CurrentQuestChoice(quests: seq<Quest>, rec: Record)
    ensures rec.current.Some? && rec.current.value != "" && FindById(quests, rec.current.value).Some?
            && rec.current.value !in rec.completed
            ==> CurrentQuest(quests, rec) == FindById(quests, rec.current.value)
    ensures StoredCurrent(quests, rec).None? ==> CurrentQuest(quests, rec) == FirstAvailable(quests, rec.completed)
  {
  }

  /** The current quest is never one already completed and always belongs to this NPC. */
  lemma CurrentQuestNotCompleted(quests: seq<Quest>, rec: Record)
    ensures CurrentQuest(quests, rec).Some? ==> CurrentQuest(quests, rec).value in quests
    ensures CurrentQuest(quests, rec).Some? ==> CurrentQuest(quests, rec).value.id !in rec.completed
  {
  }

  /** The loop `for (const quest of npc.quests)` with its early return. */
  method FindFirstAvailable(quests: seq<Quest>, done: seq<string>) returns (r: Option<Quest>)
    ensures r == FirstAvailable(quests, done)
  {
    var i := 0;
    while i < |quests|
      invariant 0 <= i <= |quests|
      invariant FirstAvailable(quests, done) == FirstAvailable(quests[i..], done)
    {
      var quest := quests[i];
      assert quests[i..][1..] == quests[i + 1..];
      if quest.id in done {
        i := i + 1;
        continue;
      }
      var allMet := forall p | p in quest.prerequisites :: p in done;
      if allMet {
        return Some(quest);
      }
      i := i + 1;
    }
    return None;
  }

  method FindCurrentQuest(npc: Npc, rec: Record) returns (r: Option<Quest>)
    ensures r == CurrentQuest(npc.quests, rec)
  {
    if rec.current.Some? && rec.current.value != "" {
      var quest := FindById(npc.quests, rec.current.value);
      if quest.Some? && quest.value.id !in rec.completed {
        return quest;
      }
    }
    r := FindFirstAvailable(npc.quests, rec.completed);
  }

  /** The uncompleted quests that list `id` among their internal prerequisites (the filter). */
  function Dependents(quests: seq<Quest>, done: seq<string>, id: string): seq<Quest> {
    Filter(quests, DependsOn(done, id))
  }

  function DependsOn(done: seq<string>, id: string): Quest -> bool {
    (q: Quest) => q.id !in done && id in q.prerequisites
  }

  /** sort((a, b) => a.tier - b.tier)[0]: the stable sort puts the first minimum-tier quest first. */
  function FirstMinTier(qs: seq<Quest>): (r: Quest)
    requires qs != []
    ensures forall k :: 0 <= k < |qs| ==> TierValue(r.tier) <= TierValue(qs[k].tier)
    ensures exists k :: 0 <= k < |qs| && qs[k] == r && forall j :: 0 <= j < k ==> TierValue(qs[j].tier) > TierValue(r.tier)
    decreases |qs|
  {
    if |qs| == 1 then qs[0]
    else
      var m := FirstMinTier(qs[..|qs| - 1]);
      assert forall k :: 0 <= k < |qs| - 1 ==> qs[..|qs| - 1][k] == qs[k];
      if TierValue(qs[|qs| - 1].tier) < TierValue(m.tier) then qs[|qs| - 1] else m
  }

  function NextQuest(quests: seq<Quest>, rec: Record, current: Option<Quest>): Option<Quest> {
    if current.None? then None
    else
      var deps := Dependents(quests, rec.completed, current.value.id);
      if deps != [] then Some(FirstMinTier(deps))
      else FirstAvailable(quests, rec.completed + [current.value.id])
  }

  /** The next quest is a minimum-tier dependent of the current one, the earliest such in
      catalog order (every dependent listed before it has a greater tier); with no dependent it is the first quest available once the current
      one is also counted as done. */
  lemma NextQuestChoice(quests: seq<Quest>, rec: Record, current: Quest)
    ensures var n := NextQuest(quests, rec, Some(current));
      var deps := Dependents(quests, rec.completed, current.id);
      (deps != [] ==>
         n.Some? && n.value in quests && n.value.id !in rec.completed && current.id in n.value.prerequisites
         && (forall q :: q in quests && q.id !in rec.completed && current.id in q.prerequisites ==> TierValue(n.value.tier) <= TierValue(q.tier))
         && exists k :: 0 <= k < |quests| && quests[k] == n.value
              && (forall j :: 0 <= j < k && quests[j].id !in rec.completed && current.id in quests[j].prerequisites
                    ==> TierValue(quests[j].tier) > TierValue(n.value.tier)))
      && (deps == [] ==> n == FirstAvailable(quests, rec.completed + [current.id]))
  {
    var deps := Dependents(quests, rec.completed, current.id);
    var f := DependsOn(rec.completed, current.id);
    if deps != [] {
      var m := FirstMinTier(deps);
      FilterMember(quests, f, m);
      forall q | q in quests && q.id !in rec.completed && current.id in q.prerequisites
        ensures TierValue(m.tier) <= TierValue(q.tier)
      {
        FilterMember(quests, f, q);
        var k :| 0 <= k < |deps| && deps[k] == q;
      }
      FirstMinTierEarliest(quests, f);
      var k :| EarliestMin(quests, f, k, m);
    }
  }

  /** quests[k] is m, and every quest before it that f keeps has a greater tier than m. */
  predicate EarliestMin(quests: seq<Quest>, f: Quest -> bool, k: int, m: Quest) {
    0 <= k < |quests| && quests[k] == m
    && forall j :: 0 <= j < k && f(quests[j]) ==> TierValue(quests[j].tier) > TierValue(m.tier)
  }

  /** The first minimum-tier quest kept by the filter has, before it in quests, only kept
      quests of a strictly greater tier. */
  lemma FirstMinTierEarliest(quests: seq<Quest>, f: Quest -> bool)
    requires Filter(quests, f) != []
    ensures exists k :: EarliestMin(quests, f, k, FirstMinTier(Filter(quests, f)))
  {
    var deps := Filter(quests, f);
    var m := FirstMinTier(deps);
    var i :| 0 <= i < |deps| && deps[i] == m && forall j :: 0 <= j < i ==> TierValue(deps[j].tier) > TierValue(m.tier);
    FilterIndex(quests, f, i);
    var k :| FilterAt(quests, f, i, k);
    forall j | 0 <= j < k && f(quests[j])
      ensures TierValue(quests[j].tier) > TierValue(m.tier)
    {
      assert quests[..k][j] == quests[j];
      FilterMember(quests[..k], f, quests[j]);
      var j' :| 0 <= j' < |deps[..i]| && deps[..i][j'] == quests[j];
      assert deps[j'] == quests[j];
    }
    assert EarliestMin(quests, f, k, m);
  }

  method FindNextQuest(npc: Npc, rec: Record, current: Option<Quest>) returns (r: Option<Quest>)
    ensures r == NextQuest(npc.quests, rec, current)
  {
    if current.None? {
      return None;
    }
    var currentId := current.value.id;
    var nextQuests := Dependents(npc.quests, rec.completed, currentId);
    if |nextQuests| > 0 {
      return Some(FirstMinTier(nextQuests));
    }
    var allCompleted := rec.completed + [currentId];
    r := FindFirstAvailable(npc.quests, allCompleted);
  }

  // ---------------------------------------------------------------------
  // The status shown for each quest by updateQuestList
  // ---------------------------------------------------------------------

  datatype Status = Completed | Current | Available | Locked

  function StatusOf(q: Quest, completed: seq<string>, currentId: Option<string>): Status {
    if q.id in completed then Completed
    else if currentId == Some(q.id) then Current
    else if forall p :: p in q.prerequisites ==> p in completed then Available
    else Locked
  }

  /** The id of findCurrentQuest's result, undefined when there is none. */
  function CurrentId(quests: seq<Quest>, rec: Record): Option<string> {
    var c := CurrentQuest(quests, rec);
    if c.Some? then Some(c.value.id) else None
  }

  /** What each status means: completed dominates, "current" only for the id findCurrentQuest
      returns, "available" for an uncompleted non-current quest whose internal prerequisites are
      all in this NPC's completed list, and locked otherwise. */
  lemma StatusMeaning(quests: seq<Quest>, rec: Record, q: Quest)
    ensures var s := StatusOf(q, rec.completed, CurrentId(quests, rec));
      (s == Completed <==> q.id in rec.completed)
      && (s == Current <==> q.id !in rec.completed && CurrentQuest(quests, rec).Some? && CurrentQuest(quests, rec).value.id == q.id)
      && (s == Available <==> q.id !in rec.completed && CurrentId(quests, rec) != Some(q.id) && AvailableAfter(q, rec.completed))
      && (s == Locked <==> q.id !in rec.completed && CurrentId(quests, rec) != Some(q.id) && !AvailableAfter(q, rec.completed))
  {
  }

  /** The current quest is shown as current, and whenever some listed quest is shown as
      available there is a current quest, so an available quest never stands alone. */
  lemma {:induction false} StatusConsistent(quests: seq<Quest>, rec: Record)
    ensures CurrentQuest(quests, rec).Some? ==> StatusOf(CurrentQuest(quests, rec).value, rec.completed, CurrentId(quests, rec)) == Current
    ensures (exists k :: 0 <= k < |quests| && StatusOf(quests[k], rec.completed, CurrentId(quests, rec)) == Available)
            ==> CurrentQuest(quests, rec).Some?
  {
    CurrentQuestNotCompleted(quests, rec);
    if exists k :: 0 <= k < |quests| && StatusOf(quests[k], rec.completed, CurrentId(quests, rec)) == Available {
      var k :| 0 <= k < |quests| && StatusOf(quests[k], rec.completed, CurrentId(quests, rec)) == Available;
      assert AvailableAfter(quests[k], rec.completed);
    }
  }

  // ---------------------------------------------------------------------
  // Completing the current quest
  // ---------------------------------------------------------------------

  /** The record completeCurrentQuest stores: the current quest's id appended, current cleared. */
  function AfterComplete(quests: seq<Quest>, rec: Record): (r: Record)
    ensures CurrentQuest(quests, rec).None? ==> r == rec
    ensures CurrentQuest(quests, rec).Some? ==>
      r.completed == rec.completed + [CurrentQuest(quests, rec).value.id]
      && CurrentQuest(quests, rec).value.id !in rec.completed
      && r.current == None
  {
    var c := CurrentQuest(quests, rec);
    CurrentQuestNotCompleted(quests, rec);
    if c.None? then rec else Record(rec.completed + [c.value.id], None)
  }

  /** Completing never shrinks the completed list and adds at most one new id. */
  lemma CompleteGrowsByOne(quests: seq<Quest>, rec: Record)
    ensures var r := AfterComplete(quests, rec);
      rec.completed <= r.completed && |r.completed| <= |rec.completed| + 1
      && (NoDuplicates(rec.completed) ==> NoDuplicates(r.completed))
  {
  }

  /** The global state of the page: the loaded catalog, the progress map and the selected NPC. */
  class Tracker {
    const npcs: map<string, Npc>
    var progress: map<string, Record>
    var currentNpc: Option<string>

    /** The selected NPC, when any, is one of the catalog's keys (the buttons come from them). */
    predicate Valid()
      reads this
    {
      currentNpc.Some? ==> currentNpc.value in npcs
    }

    /** `if (!currentNPC) return`: null and the empty key are both falsy. */
    predicate Selected()
      reads this
    {
      currentNpc.Some? && currentNpc.value != ""
    }

    /** progress[id] || { completed: [], current: null }. */
    function RecordOf(id: string): Record
      reads this
    {
      if id in progress then progress[id] else EmptyRecord
    }

    constructor (npcs: map<string, Npc>, saved: map<string, Record>)
      ensures Valid()
      ensures this.npcs == npcs && progress == saved && currentNpc == None
    {
      this.npcs := npcs;
      progress := saved;
      currentNpc := None;
    }

    /** selectNPC: remember the NPC and create its empty record only if it has none. */
    method SelectNpc(npcId: string)
      requires Valid() && npcId in npcs
      modifies this
      ensures Valid()
      ensures currentNpc == Some(npcId)
      ensures npcId in old(progress) ==> progress == old(progress)
      ensures npcId !in old(progress) ==> progress == old(progress)[npcId := EmptyRecord]
    {
      currentNpc := Some(npcId);
      if npcId !in progress {
        progress := progress[npcId := EmptyRecord];
      }
    }

    method CompleteCurrentQuest()
      requires Valid()
      modifies this
      ensures Valid() && currentNpc == old(currentNpc)
      ensures !old(Selected()) ==> progress == old(progress)
      ensures old(Selected()) ==>
        var id := currentNpc.value;
        var rec := old(RecordOf(id));
        if CurrentQuest(npcs[id].quests, rec).None? then progress == old(progress)
        else progress == old(progress)[id := AfterComplete(npcs[id].quests, rec)]
    {
      if !Selected() {
        return;
      }
      var id := currentNpc.value;
      var npc := npcs[id];
      var npcProgress := RecordOf(id);
      var currentQuest := FindCurrentQuest(npc, npcProgress);
      if currentQuest.None? {
        return;
      }
      npcProgress := Record(npcProgress.completed + [currentQuest.value.id], None);
      progress := progress[id := npcProgress];
    }

    /** resetProgress, with the answer of the confirmation dialog as a parameter. */
    method ResetProgress(confirmed: bool)
      requires Valid()
      modifies this
      ensures Valid() && currentNpc == old(currentNpc)
      ensures old(Selected()) && confirmed ==> progress == old(progress)[currentNpc.value := EmptyRecord]
      ensures !(old(Selected()) && confirmed) ==> progress == old(progress)
    {
      if !Selected() {
        return;
      }
      if confirmed {
        progress := progress[currentNpc.value := EmptyRecord];
      }
    }

    /** The statuses updateQuestList shows, one per quest of the selected NPC, in list order. */
    method QuestStatuses() returns (statuses: seq<Status>)
      requires Valid()
      ensures !Selected() ==> statuses == []
      ensures Selected() ==>
        var quests := npcs[currentNpc.value].quests;
        var rec := RecordOf(currentNpc.value);
        |statuses| == |quests|
        && forall k :: 0 <= k < |quests| ==> statuses[k] == StatusOf(quests[k], rec.completed, CurrentId(quests, rec))
    {
      if !Selected() {
        return [];
      }
      var npc := npcs[currentNpc.value];
      var rec := RecordOf(currentNpc.value);
      var current := FindCurrentQuest(npc, rec);
      var currentId := if current.Some? then Some(current.value.id) else None;
      statuses := [];
      for i := 0 to |npc.quests|
        invariant |statuses| == i
        invariant forall k :: 0 <= k < i ==> statuses[k] == StatusOf(npc.quests[k], rec.completed, currentId)
      {
        var quest := npc.quests[i];
        var status := Locked;
        if quest.id in rec.completed {
          status := Completed;
        } else if currentId == Some(quest.id) {
          status := Current;
        } else {
          var allMet := forall p | p in quest.prerequisites :: p in rec.completed;
          if allMet {
            status := Available;
          }
        }
        statuses := statuses + [status];
      }
    }
  }
}
