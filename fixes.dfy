// A suggested prerequisite fix and its application to the database, shared by
// auto_fix_prerequisites.py and fix_all_prerequisites.py (their apply_fixes
// loops have the same body): find the NPC by display name, find the quest by
// id in that NPC, and append the prerequisite to the named list unless it is
// already there.
module Fixes {
  import opened Util
  import opened Catalog
  import opened PrereqRules

  /** One suggested fix; `external` is the 'location' field ('prerequisitesExternal'). */
  datatype Fix = Fix(
    npcName: string,
    questId: string,
    questName: string,
    addPrereq: string,
    prereqName: string,
    external: bool,
    reason: string)

  /** The first NPC (in database order) whose display name is `name`. */
  function NpcNamed(cat: seq<Npc>, name: string): (r: Option<nat>)
    ensures r.Some? ==> r.value < |cat| && cat[r.value].name == name
    ensures r.Some? ==> forall i :: 0 <= i < r.value ==> cat[i].name != name
    ensures r.None? ==> forall i :: 0 <= i < |cat| ==> cat[i].name != name
    decreases |cat|
  {
    if cat == [] then None
    else if cat[0].name == name then Some(0)
    else match NpcNamed(cat[1..], name)
      case None => None
      case Some(i) => Some(i + 1)
  }

  /** The first quest of a list with this id. */
  function QuestWithId(qs: seq<Quest>, id: string): (r: Option<nat>)
    ensures r.Some? ==> r.value < |qs| && qs[r.value].id == id
    ensures r.Some? ==> forall j :: 0 <= j < r.value ==> qs[j].id != id
    ensures r.None? ==> forall j :: 0 <= j < |qs| ==> qs[j].id != id
    decreases |qs|
  {
    if qs == [] then None
    else if qs[0].id == id then Some(0)
    else match QuestWithId(qs[1..], id)
      case None => None
      case Some(j) => Some(j + 1)
  }

  /** No NPC carries the fix's NPC name, or the one found has an empty key (`if not npc_id`). */
  predicate Skipped(cat: seq<Npc>, f: Fix) {
    var n := NpcNamed(cat, f.npcName);
    n.None? || cat[n.value].key == ""
  }

  /** The NPC position and quest position a fix edits, if any. */
  function Target(cat: seq<Npc>, f: Fix): (r: Option<(nat, nat)>)
    ensures r.Some? ==> r.value.0 < |cat| && r.value.1 < |cat[r.value.0].quests|
  {
    if Skipped(cat, f) then None
    else
      var ni := NpcNamed(cat, f.npcName).value;
      match QuestWithId(cat[ni].quests, f.questId)
      case None => None
      case Some(qi) => Some((ni, qi))
  }

  function AddPrereq(q: Quest, external: bool, id: string): Quest {
    if external then q.(prerequisitesExternal := q.prerequisitesExternal + [id])
    else q.(prerequisites := q.prerequisites + [id])
  }

  /** The fix appends: it has a target and the id is not yet in the target list. */
  predicate Appends(cat: seq<Npc>, f: Fix) {
    var t := Target(cat, f);
    t.Some? && f.addPrereq !in PrereqList(cat[t.value.0].quests[t.value.1], f.external)
  }

  /** The database after one fix. */
  function AfterFix(cat: seq<Npc>, f: Fix): seq<Npc> {
    if !Appends(cat, f) then cat
    else
      var (ni, qi) := Target(cat, f).value;
      var n := cat[ni];
      cat[ni := n.(quests := n.quests[qi := AddPrereq(n.quests[qi], f.external, f.addPrereq)])]
  }

  /** The database after a list of fixes, applied in order. */
  function AfterFixes(cat: seq<Npc>, fs: seq<Fix>): seq<Npc>
    decreases |fs|
  {
    if fs == [] then cat else AfterFix(AfterFixes(cat, fs[..|fs| - 1]), fs[|fs| - 1])
  }

  /** How many of the fixes appended, each judged on the database as it then was. */
  function AppliedCount(cat: seq<Npc>, fs: seq<Fix>): nat
    decreases |fs|
  {
    if fs == [] then 0
    else
      var p := fs[..|fs| - 1];
      AppliedCount(cat, p) + (if Appends(AfterFixes(cat, p), fs[|fs| - 1]) then 1 else 0)
  }

  /** How many of the fixes found no NPC by that name. */
  function SkippedCount(cat: seq<Npc>, fs: seq<Fix>): nat
    decreases |fs|
  {
    if fs == [] then 0
    else
      var p := fs[..|fs| - 1];
      SkippedCount(cat, p) + (if Skipped(AfterFixes(cat, p), fs[|fs| - 1]) then 1 else 0)
  }

  // ---------------------------------------------------------------------
  // The loop body of apply_fixes, in place
  // ---------------------------------------------------------------------

  method ApplyFix(db: Database, f: Fix) returns (appended: bool, skipped: bool)
    modifies db
    ensures db.npcs == AfterFix(old(db.npcs), f)
    ensures appended == Appends(old(db.npcs), f)
    ensures skipped == Skipped(old(db.npcs), f)
  {
    appended, skipped := false, false;
    var npcId: Option<nat> := None;
    var i := 0;
    while i < |db.npcs|
      invariant 0 <= i <= |db.npcs|
      invariant forall i' :: 0 <= i' < i ==> db.npcs[i'].name != f.npcName
    {
      if db.npcs[i].name == f.npcName {
        npcId := Some(i);
        break;
      }
      i := i + 1;
    }
    assert npcId == NpcNamed(db.npcs, f.npcName);
    if npcId.None? || db.npcs[npcId.value].key == "" {
      skipped := true;
      return;
    }
    var ni := npcId.value;
    var quests := db.npcs[ni].quests;
    var j := 0;
    while j < |quests|
      invariant 0 <= j <= |quests|
      invariant forall j' :: 0 <= j' < j ==> quests[j'].id != f.questId
    {
      if quests[j].id == f.questId {
        assert Target(db.npcs, f) == Some((ni, j));
        var q := quests[j];
        if f.addPrereq !in PrereqList(q, f.external) {
          db.npcs := db.npcs[ni := db.npcs[ni].(quests := quests[j := AddPrereq(q, f.external, f.addPrereq)])];
          appended := true;
        }
        return;
      }
      j := j + 1;
    }
  }

  // ---------------------------------------------------------------------
  // Properties
  // ---------------------------------------------------------------------

  /** `c2` is `c1` with, at most, ids added to prerequisite lists: every key, name and
      quest id stays where it was and no list loses an id. */
  predicate Grows(c1: seq<Npc>, c2: seq<Npc>) {
    |c1| == |c2|
    && forall i :: 0 <= i < |c1| ==>
      c1[i].key == c2[i].key && c1[i].name == c2[i].name && |c1[i].quests| == |c2[i].quests|
      && forall j :: 0 <= j < |c1[i].quests| ==>
        c1[i].quests[j].id == c2[i].quests[j].id
        && (forall x :: x in c1[i].quests[j].prerequisites ==> x in c2[i].quests[j].prerequisites)
        && (forall x :: x in c1[i].quests[j].prerequisitesExternal ==> x in c2[i].quests[j].prerequisitesExternal)
  }

  lemma GrowsTrans(c1: seq<Npc>, c2: seq<Npc>, c3: seq<Npc>)
    requires Grows(c1, c2) && Grows(c2, c3)
    ensures Grows(c1, c3)
  {
  }

  lemma {:induction false} NpcNamedSame(c1: seq<Npc>, c2: seq<Npc>, name: string)
    requires |c1| == |c2| && forall i :: 0 <= i < |c1| ==> c1[i].name == c2[i].name
    ensures NpcNamed(c1, name) == NpcNamed(c2, name)
    decreases |c1|
  {
    if c1 != [] && c1[0].name != name {
      NpcNamedSame(c1[1..], c2[1..], name);
    }
  }

  lemma {:induction false} QuestWithIdSame(q1: seq<Quest>, q2: seq<Quest>, id: string)
    requires |q1| == |q2| && forall j :: 0 <= j < |q1| ==> q1[j].id == q2[j].id
    ensures QuestWithId(q1, id) == QuestWithId(q2, id)
    decreases |q1|
  {
    if q1 != [] && q1[0].id != id {
      QuestWithIdSame(q1[1..], q2[1..], id);
    }
  }

  /** Growing keeps every fix's target and its skip verdict. */
  lemma TargetSame(c1: seq<Npc>, c2: seq<Npc>, f: Fix)
    requires Grows(c1, c2)
    ensures Target(c1, f) == Target(c2, f) && Skipped(c1, f) == Skipped(c2, f)
  {
    NpcNamedSame(c1, c2, f.npcName);
    var n := NpcNamed(c1, f.npcName);
    if n.Some? {
      QuestWithIdSame(c1[n.value].quests, c2[n.value].quests, f.questId);
    }
  }

  /** What one fix does: the target list gains exactly the id, at its end, when the fix
      appends; nothing else changes, and afterwards the id is in the target list. */
  lemma AfterFixMeaning(cat: seq<Npc>, f: Fix)
    ensures Grows(cat, AfterFix(cat, f))
    ensures !Appends(cat, f) ==> AfterFix(cat, f) == cat
    ensures Appends(cat, f) ==>
      var (ni, qi) := Target(cat, f).value;
      var q := cat[ni].quests[qi];
      var c := AfterFix(cat, f);
      PrereqList(c[ni].quests[qi], f.external) == PrereqList(q, f.external) + [f.addPrereq]
      && PrereqList(c[ni].quests[qi], !f.external) == PrereqList(q, !f.external)
      && (forall i :: 0 <= i < |cat| && i != ni ==> c[i] == cat[i])
      && (forall j :: 0 <= j < |cat[ni].quests| && j != qi ==> c[ni].quests[j] == cat[ni].quests[j])
    ensures Present(AfterFix(cat, f), f)
  {
    if Appends(cat, f) {
      var c := AfterFix(cat, f);
      TargetSame(cat, c, f);
    }
  }

  /** The fix's id is in its target list (or the fix has no target). */
  predicate Present(cat: seq<Npc>, f: Fix) {
    var t := Target(cat, f);
    t.Some? ==> f.addPrereq in PrereqList(cat[t.value.0].quests[t.value.1], f.external)
  }

  lemma PresentKept(c1: seq<Npc>, c2: seq<Npc>, f: Fix)
    requires Grows(c1, c2) && Present(c1, f)
    ensures Present(c2, f)
  {
    TargetSame(c1, c2, f);
  }

  lemma {:induction false} AfterFixesGrows(cat: seq<Npc>, fs: seq<Fix>)
    ensures Grows(cat, AfterFixes(cat, fs))
    decreases |fs|
  {
    if fs != [] {
      var p := fs[..|fs| - 1];
      AfterFixesGrows(cat, p);
      AfterFixMeaning(AfterFixes(cat, p), fs[|fs| - 1]);
      GrowsTrans(cat, AfterFixes(cat, p), AfterFixes(cat, fs));
    }
  }

  /** After a batch, every fix of the batch is present. */
  lemma {:induction false} AfterFixesPresent(cat: seq<Npc>, fs: seq<Fix>, k: nat)
    requires k < |fs|
    ensures Present(AfterFixes(cat, fs), fs[k])
    decreases |fs|
  {
    var p := fs[..|fs| - 1];
    var c := AfterFixes(cat, p);
    AfterFixMeaning(c, fs[|fs| - 1]);
    if k < |fs| - 1 {
      AfterFixesPresent(cat, p, k);
      assert p[k] == fs[k];
      PresentKept(c, AfterFix(c, fs[|fs| - 1]), fs[k]);
    }
  }

  /** A batch whose every fix is already present changes nothing and appends nothing. */
  lemma {:induction false} AfterFixesNoop(cat: seq<Npc>, fs: seq<Fix>)
    requires forall k :: 0 <= k < |fs| ==> Present(cat, fs[k])
    ensures AfterFixes(cat, fs) == cat && AppliedCount(cat, fs) == 0
    decreases |fs|
  {
    if fs != [] {
      var p := fs[..|fs| - 1];
      forall k | 0 <= k < |p| ensures Present(cat, p[k]) {
        assert p[k] == fs[k];
      }
      AfterFixesNoop(cat, p);
    }
  }

  /** Applying a batch a second time changes nothing and appends nothing. */
  lemma AfterFixesIdempotent(cat: seq<Npc>, fs: seq<Fix>)
    ensures AfterFixes(AfterFixes(cat, fs), fs) == AfterFixes(cat, fs)
    ensures AppliedCount(AfterFixes(cat, fs), fs) == 0
  {
    var c := AfterFixes(cat, fs);
    forall k | 0 <= k < |fs| ensures Present(c, fs[k]) {
      AfterFixesPresent(cat, fs, k);
    }
    AfterFixesNoop(c, fs);
  }

  /** The skip verdict never depends on earlier fixes: fixes only touch prerequisite lists. */
  lemma {:induction false} SkippedCountMeaning(cat: seq<Npc>, fs: seq<Fix>)
    ensures SkippedCount(cat, fs) == |Filter(fs, (f: Fix) => Skipped(cat, f))|
    decreases |fs|
  {
    if fs != [] {
      var p := fs[..|fs| - 1];
      SkippedCountMeaning(cat, p);
      AfterFixesGrows(cat, p);
      TargetSame(cat, AfterFixes(cat, p), fs[|fs| - 1]);
    }
  }

  // ---------------------------------------------------------------------
  // Counting ids: every append adds exactly one id to the database
  // ---------------------------------------------------------------------

  function QuestsPrereqCount(qs: seq<Quest>): nat
    decreases |qs|
  {
    if qs == [] then 0 else QuestsPrereqCount(qs[..|qs| - 1]) + |AllPrereqs(qs[|qs| - 1])|
  }

  /** The number of prerequisite ids stored in the database, over both lists of every quest. */
  function PrereqCount(cat: seq<Npc>): nat
    decreases |cat|
  {
    if cat == [] then 0 else PrereqCount(cat[..|cat| - 1]) + QuestsPrereqCount(cat[|cat| - 1].quests)
  }

  lemma {:induction false} QuestsPrereqCountUpdate(qs: seq<Quest>, j: nat, q: Quest)
    requires j < |qs|
    ensures QuestsPrereqCount(qs[j := q]) + |AllPrereqs(qs[j])| == QuestsPrereqCount(qs) + |AllPrereqs(q)|
    decreases |qs|
  {
    var n := |qs| - 1;
    if j < n {
      assert qs[j := q][..n] == qs[..n][j := q];
      QuestsPrereqCountUpdate(qs[..n], j, q);
    } else {
      assert qs[j := q][..n] == qs[..n];
    }
  }

  lemma {:induction false} PrereqCountUpdate(cat: seq<Npc>, i: nat, n: Npc)
    requires i < |cat|
    ensures PrereqCount(cat[i := n]) + QuestsPrereqCount(cat[i].quests) == PrereqCount(cat) + QuestsPrereqCount(n.quests)
    decreases |cat|
  {
    var m := |cat| - 1;
    if i < m {
      assert cat[i := n][..m] == cat[..m][i := n];
      PrereqCountUpdate(cat[..m], i, n);
    } else {
      assert cat[i := n][..m] == cat[..m];
    }
  }

  /** One fix adds one id when it appends and none otherwise. */
  lemma AfterFixCount(cat: seq<Npc>, f: Fix)
    ensures PrereqCount(AfterFix(cat, f)) == PrereqCount(cat) + (if Appends(cat, f) then 1 else 0)
  {
    if Appends(cat, f) {
      var (ni, qi) := Target(cat, f).value;
      var n := cat[ni];
      var q := n.quests[qi];
      var q' := AddPrereq(q, f.external, f.addPrereq);
      assert |AllPrereqs(q')| == |AllPrereqs(q)| + 1;
      QuestsPrereqCountUpdate(n.quests, qi, q');
      PrereqCountUpdate(cat, ni, n.(quests := n.quests[qi := q']));
    }
  }

  /** The applied count of a batch is the number of ids it added to the database. */
  lemma {:induction false} AppliedCountMeaning(cat: seq<Npc>, fs: seq<Fix>)
    ensures PrereqCount(AfterFixes(cat, fs)) == PrereqCount(cat) + AppliedCount(cat, fs)
    decreases |fs|
  {
    if fs != [] {
      var p := fs[..|fs| - 1];
      AppliedCountMeaning(cat, p);
      AfterFixCount(AfterFixes(cat, p), fs[|fs| - 1]);
    }
  }

  /** No prerequisite list contains an id twice. */
  predicate NoDuplicateIds(cat: seq<Npc>) {
    forall i, j :: 0 <= i < |cat| && 0 <= j < |cat[i].quests| ==>
      NoDuplicates(cat[i].quests[j].prerequisites) && NoDuplicates(cat[i].quests[j].prerequisitesExternal)
  }

  /** Appending only absent ids keeps every list free of repeats. */
  lemma AfterFixNoDuplicates(cat: seq<Npc>, f: Fix)
    requires NoDuplicateIds(cat)
    ensures NoDuplicateIds(AfterFix(cat, f))
  {
    if Appends(cat, f) {
      var (ni, qi) := Target(cat, f).value;
      var q := cat[ni].quests[qi];
      var l := PrereqList(q, f.external);
      assert forall a, b :: 0 <= a < b < |l + [f.addPrereq]| ==> (l + [f.addPrereq])[a] != (l + [f.addPrereq])[b] by {
        forall a, b | 0 <= a < b < |l + [f.addPrereq]| ensures (l + [f.addPrereq])[a] != (l + [f.addPrereq])[b] {
          if b == |l| {
            assert (l + [f.addPrereq])[a] == l[a];
          }
        }
      }
    }
  }
}
