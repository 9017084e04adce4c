// fix_npc_assignments.py: move quests between NPCs according to a fixed
// correction table, popping each from its origin NPC and appending it to the
// destination NPC, in place.
module NpcAssign {
  import opened Util
  import opened Catalog
  import opened Fixes

  /** One row of the correction table: (origin NPC key, quest id) -> destination NPC key. */
  datatype Correction = Correction(origin: string, questId: string, dest: string)

  /** One entry of moved_quests. */
  datatype Moved = Moved(questId: string, questName: string, from: string, to: string)

  /** The correction table, in its listed order. */
  const Corrections: seq<Correction> := [
    Correction("skier", "chemical_4", "prapor"),
    Correction("skier", "polikhim_hobo", "prapor"),
    Correction("skier", "regulated_materials", "prapor"),
    Correction("skier", "shady_business", "jaeger"),
    Correction("skier", "ambulance", "jaeger"),
    Correction("mechanic", "all_is_revealed", "therapist"),
    Correction("mechanic", "acquaintance", "jaeger"),
    Correction("mechanic", "tarkov_shooter_1", "jaeger"),
    Correction("mechanic", "tarkov_shooter_2", "jaeger"),
    Correction("mechanic", "tarkov_shooter_3", "jaeger"),
    Correction("mechanic", "tarkov_shooter_4", "jaeger"),
    Correction("mechanic", "tarkov_shooter_5", "jaeger"),
    Correction("mechanic", "tarkov_shooter_6", "jaeger"),
    Correction("mechanic", "tarkov_shooter_7", "jaeger"),
    Correction("mechanic", "tarkov_shooter_8", "jaeger"),
    Correction("mechanic", "huntsman_secured_perimeter", "jaeger"),
    Correction("mechanic", "huntsman_trophy", "jaeger"),
    Correction("mechanic", "huntsman_justice", "jaeger"),
    Correction("mechanic", "huntsman_forest_cleaning", "jaeger"),
    Correction("mechanic", "claustrophobia", "jaeger"),
    Correction("mechanic", "huntsman_outcasts", "jaeger"),
    Correction("mechanic", "huntsman_controller", "jaeger"),
    Correction("mechanic", "huntsman_evil_watchman", "jaeger"),
    Correction("mechanic", "huntsman_eraser_2", "jaeger"),
    Correction("mechanic", "huntsman_factory_chief", "jaeger"),
    Correction("mechanic", "exit_here", "skier"),
    Correction("mechanic", "walls_have_eyes", "skier"),
    Correction("ragman", "terragroup_employee", "peacekeeper"),
    Correction("ragman", "huntsman_sellout", "jaeger"),
    Correction("ragman", "stray_dogs", "jaeger"),
    Correction("ragman", "huntsman_woods_keeper", "jaeger"),
    Correction("ragman", "hunting_trip", "jaeger"),
    Correction("lightkeeper", "lend_lease_1", "skier"),
    Correction("lightkeeper", "long_road", "skier"),
    Correction("lightkeeper", "missing_cargo", "skier"),
    Correction("lightkeeper", "lend_lease_2", "peacekeeper"),
    Correction("lightkeeper", "classified_technologies", "peacekeeper")
  ]

  /** data['npcs'].get(key), as a position in the NPC list. */
  function KeyIndex(cat: seq<Npc>, key: string): (r: Option<nat>)
    ensures r.Some? ==> r.value < |cat| && cat[r.value].key == key
    ensures r.None? ==> forall i :: 0 <= i < |cat| ==> cat[i].key != key
    decreases |cat|
  {
    if cat == [] then None
    else if cat[0].key == key then Some(0)
    else match KeyIndex(cat[1..], key)
      case None => None
      case Some(i) => Some(i + 1)
  }

  /** list.pop(i). */
  function RemoveAt(qs: seq<Quest>, i: nat): (r: seq<Quest>)
    requires i < |qs|
    ensures |r| == |qs| - 1
  {
    qs[..i] + qs[i + 1..]
  }

  /** One correction: the new NPC list and the moved_quests entry, if any. */
  function Step(cat: seq<Npc>, c: Correction): (seq<Npc>, Option<Moved>) {
    match KeyIndex(cat, c.origin)
    case None => (cat, None)
    case Some(o) =>
      match QuestWithId(cat[o].quests, c.questId)
      case None => (cat, None)
      case Some(j) =>
        var q := cat[o].quests[j];
        var popped := cat[o := cat[o].(quests := RemoveAt(cat[o].quests, j))];
        match KeyIndex(popped, c.dest)
        case None => (popped, None)
        case Some(d) =>
          (popped[d := popped[d].(quests := popped[d].quests + [q])], Some(Moved(c.questId, q.name, c.origin, c.dest)))
  }

  /** The corrections in table order: the final NPC list and moved_quests. */
  function Run(cat: seq<Npc>, cs: seq<Correction>): (seq<Npc>, seq<Moved>)
    decreases |cs|
  {
    if cs == [] then (cat, [])
    else
      var before := Run(cat, cs[..|cs| - 1]);
      var after := Step(before.0, cs[|cs| - 1]);
      (after.0, before.1 + (if after.1.Some? then [after.1.value] else []))
  }

  lemma RunSnoc(cat: seq<Npc>, cs: seq<Correction>, i: nat)
    requires i < |cs|
    ensures Run(cat, cs[..i + 1]) ==
      var after := Step(Run(cat, cs[..i]).0, cs[i]);
      (after.0, Run(cat, cs[..i]).1 + (if after.1.Some? then [after.1.value] else []))
  {
    assert cs[..i + 1][..i] == cs[..i];
  }

  /** One correction applied to the database in place. */
  method ApplyCorrection(db: Database, c: Correction) returns (moved: Option<Moved>)
    modifies db
    ensures (db.npcs, moved) == Step(old(db.npcs), c)
  {
    moved := None;
    var origin := KeyIndex(db.npcs, c.origin);
    if origin.None? {
      return;
    }
    var o := origin.value;
    var quests := db.npcs[o].quests;
    var questIndex := -1;
    for i := 0 to |quests|
      invariant forall i' :: 0 <= i' < i ==> quests[i'].id != c.questId
    {
      if quests[i].id == c.questId {
        questIndex := i;
        break;
      }
    }
    if questIndex < 0 {
      assert QuestWithId(quests, c.questId).None?;
      return;
    }
    QuestWithIdIs(quests, c.questId, questIndex);
    var quest := quests[questIndex];
    db.npcs := db.npcs[o := db.npcs[o].(quests := RemoveAt(quests, questIndex))];
    var dest := KeyIndex(db.npcs, c.dest);
    if dest.None? {
      return;
    }
    var d := dest.value;
    db.npcs := db.npcs[d := db.npcs[d].(quests := db.npcs[d].quests + [quest])];
    moved := Some(Moved(c.questId, quest.name, c.origin, c.dest));
  }

  lemma {:induction false} QuestWithIdIs(qs: seq<Quest>, id: string, j: nat)
    requires j < |qs| && qs[j].id == id && forall j' :: 0 <= j' < j ==> qs[j'].id != id
    ensures QuestWithId(qs, id) == Some(j)
    decreases j
  {
    if j > 0 {
      QuestWithIdIs(qs[1..], id, j - 1);
    }
  }

  /** fix_npc_assignments: every correction in table order. */
  method FixNpcAssignments(db: Database, corrections: seq<Correction>) returns (moved: seq<Moved>)
    modifies db
    ensures (db.npcs, moved) == Run(old(db.npcs), corrections)
  {
    ghost var start := db.npcs;
    moved := [];
    for i := 0 to |corrections|
      invariant (db.npcs, moved) == Run(start, corrections[..i])
    {
      RunSnoc(start, corrections, i);
      ghost var before := db.npcs;
      var m := ApplyCorrection(db, corrections[i]);
      assert db.npcs == Step(before, corrections[i]).0 && m == Step(before, corrections[i]).1;
      assert before == Run(start, corrections[..i]).0;
      assert db.npcs == Run(start, corrections[..i + 1]).0;
      if m.Some? {
        moved := moved + [m.value];
      }
      assert moved == Run(start, corrections[..i + 1]).1;
    }
    assert corrections[..|corrections|] == corrections;
  }

  // ---------------------------------------------------------------------
  // What one correction does
  // ---------------------------------------------------------------------

  /** The number of quests over all NPCs. */
  function QuestTotal(cat: seq<Npc>): nat
    decreases |cat|
  {
    if cat == [] then 0 else QuestTotal(cat[..|cat| - 1]) + |cat[|cat| - 1].quests|
  }

  lemma {:induction false} QuestTotalUpdate(cat: seq<Npc>, i: nat, n: Npc)
    requires i < |cat|
    ensures QuestTotal(cat[i := n]) + |cat[i].quests| == QuestTotal(cat) + |n.quests|
    decreases |cat|
  {
    var m := |cat| - 1;
    if i < m {
      assert cat[i := n][..m] == cat[..m][i := n];
      QuestTotalUpdate(cat[..m], i, n);
    } else {
      assert cat[i := n][..m] == cat[..m];
    }
  }

  /** Origin, quest and destination all exist. */
  predicate Moves(cat: seq<Npc>, c: Correction) {
    KeyIndex(cat, c.origin).Some? && QuestWithId(cat[KeyIndex(cat, c.origin).value].quests, c.questId).Some?
    && KeyIndex(cat, c.dest).Some?
  }

  /** Every NPC keeps its key and name, and the list its length. */
  predicate SameNpcs(c1: seq<Npc>, c2: seq<Npc>) {
    |c1| == |c2| && forall i :: 0 <= i < |c1| ==> c1[i].key == c2[i].key && c1[i].name == c2[i].name
  }

  lemma {:induction false} KeyIndexSame(c1: seq<Npc>, c2: seq<Npc>, key: string)
    requires SameNpcs(c1, c2)
    ensures KeyIndex(c1, key) == KeyIndex(c2, key)
    decreases |c1|
  {
    if c1 != [] && c1[0].key != key {
      KeyIndexSame(c1[1..], c2[1..], key);
    }
  }

  /** A missing origin NPC or quest leaves everything as it was and records nothing. */
  lemma StepSkips(cat: seq<Npc>, c: Correction)
    requires KeyIndex(cat, c.origin).None? || QuestWithId(cat[KeyIndex(cat, c.origin).value].quests, c.questId).None?
    ensures Step(cat, c) == (cat, None)
  {
  }

  /** A correction whose origin, quest and destination exist removes the first quest with
      that id from the origin, appends it to the destination, records the move, keeps every
      other NPC and the total number of quests. */
  lemma StepMoves(cat: seq<Npc>, c: Correction)
    requires Moves(cat, c)
    ensures var o := KeyIndex(cat, c.origin).value;
      var j := QuestWithId(cat[o].quests, c.questId).value;
      var d := KeyIndex(cat, c.dest).value;
      var q := cat[o].quests[j];
      var after := Step(cat, c).0;
      Step(cat, c).1 == Some(Moved(c.questId, q.name, c.origin, c.dest))
      && SameNpcs(cat, after)
      && (o != d ==> after[o].quests == RemoveAt(cat[o].quests, j) && after[d].quests == cat[d].quests + [q])
      && (o == d ==> after[o].quests == RemoveAt(cat[o].quests, j) + [q])
      && (forall i :: 0 <= i < |cat| && i != o && i != d ==> after[i] == cat[i])
      && QuestTotal(after) == QuestTotal(cat)
  {
    var o := KeyIndex(cat, c.origin).value;
    var j := QuestWithId(cat[o].quests, c.questId).value;
    var d := KeyIndex(cat, c.dest).value;
    StepIs(cat, c, o, j, d);
    MoveFacts(cat, o, j, d);
  }

  /** With origin, quest and destination found, the step pops and appends. */
  lemma StepIs(cat: seq<Npc>, c: Correction, o: nat, j: nat, d: nat)
    requires KeyIndex(cat, c.origin) == Some(o) && QuestWithId(cat[o].quests, c.questId) == Some(j)
    requires KeyIndex(cat, c.dest) == Some(d)
    ensures var popped := cat[o := cat[o].(quests := RemoveAt(cat[o].quests, j))];
      Step(cat, c) == (popped[d := popped[d].(quests := popped[d].quests + [cat[o].quests[j]])],
                       Some(Moved(c.questId, cat[o].quests[j].name, c.origin, c.dest)))
  {
    var popped := cat[o := cat[o].(quests := RemoveAt(cat[o].quests, j))];
    KeyIndexSame(cat, popped, c.dest);
  }

  /** Popping quest j of NPC o and appending it to NPC d. */
  lemma MoveFacts(cat: seq<Npc>, o: nat, j: nat, d: nat)
    requires o < |cat| && j < |cat[o].quests| && d < |cat|
    ensures var q := cat[o].quests[j];
      var popped := cat[o := cat[o].(quests := RemoveAt(cat[o].quests, j))];
      var after := popped[d := popped[d].(quests := popped[d].quests + [q])];
      SameNpcs(cat, after)
      && (o != d ==> after[o].quests == RemoveAt(cat[o].quests, j) && after[d].quests == cat[d].quests + [q])
      && (o == d ==> after[o].quests == RemoveAt(cat[o].quests, j) + [q])
      && (forall i :: 0 <= i < |cat| && i != o && i != d ==> after[i] == cat[i])
      && QuestTotal(after) == QuestTotal(cat)
  {
    var popped := cat[o := cat[o].(quests := RemoveAt(cat[o].quests, j))];
    QuestTotalUpdate(cat, o, popped[o]);
    QuestTotalUpdate(popped, d, popped[d].(quests := popped[d].quests + [cat[o].quests[j]]));
  }

  /** With the destination missing the quest is already popped: it is in no NPC any more,
      one quest fewer in total, and nothing is recorded. */
  lemma StepLoses(cat: seq<Npc>, c: Correction, o: nat, j: nat)
    requires KeyIndex(cat, c.origin) == Some(o) && QuestWithId(cat[o].quests, c.questId) == Some(j)
    requires KeyIndex(cat, c.dest).None?
    ensures Step(cat, c).1.None? && SameNpcs(cat, Step(cat, c).0)
    ensures Step(cat, c).0[o].quests == RemoveAt(cat[o].quests, j)
    ensures forall i :: 0 <= i < |Step(cat, c).0| && i != o ==> Step(cat, c).0[i] == cat[i]
    ensures QuestTotal(Step(cat, c).0) + 1 == QuestTotal(cat)
  {
    var popped := cat[o := cat[o].(quests := RemoveAt(cat[o].quests, j))];
    KeyIndexSame(cat, popped, c.dest);
    QuestTotalUpdate(cat, o, popped[o]);
  }

  /** A move is recorded iff origin, quest and destination exist. */
  lemma StepRecords(cat: seq<Npc>, c: Correction)
    ensures Step(cat, c).1.Some? <==> Moves(cat, c)
    ensures SameNpcs(cat, Step(cat, c).0)
  {
    if Moves(cat, c) {
      StepMoves(cat, c);
    } else if KeyIndex(cat, c.origin).Some? && QuestWithId(cat[KeyIndex(cat, c.origin).value].quests, c.questId).Some? {
      StepLoses(cat, c, KeyIndex(cat, c.origin).value, QuestWithId(cat[KeyIndex(cat, c.origin).value].quests, c.questId).value);
    }
  }

  // ---------------------------------------------------------------------
  // What the whole table does
  // ---------------------------------------------------------------------

  /** The correction names this key as origin or destination. */
  predicate Names(c: Correction, key: string) {
    c.origin == key || c.dest == key
  }

  /** NPCs named by no correction are unchanged, every NPC keeps its key and name, and
      at most one move is recorded per correction. */
  lemma {:induction false} RunUnnamed(cat: seq<Npc>, cs: seq<Correction>)
    ensures SameNpcs(cat, Run(cat, cs).0)
    ensures |Run(cat, cs).1| <= |cs|
    ensures forall i :: 0 <= i < |cat| && (forall k :: 0 <= k < |cs| ==> !Names(cs[k], cat[i].key)) ==>
      Run(cat, cs).0[i] == cat[i]
    decreases |cs|
  {
    if cs != [] {
      var p := cs[..|cs| - 1];
      var c := cs[|cs| - 1];
      RunUnnamed(cat, p);
      var before := Run(cat, p).0;
      StepRecords(before, c);
      forall i | 0 <= i < |cat| && (forall k :: 0 <= k < |cs| ==> !Names(cs[k], cat[i].key))
        ensures Run(cat, cs).0[i] == cat[i]
      {
        assert forall k :: 0 <= k < |p| ==> p[k] == cs[k];
        assert !Names(c, cat[i].key);
        StepKeepsUnnamed(before, c, i);
      }
    }
  }

  lemma StepKeepsUnnamed(cat: seq<Npc>, c: Correction, i: nat)
    requires i < |cat| && !Names(c, cat[i].key)
    ensures |Step(cat, c).0| == |cat| && Step(cat, c).0[i] == cat[i]
  {
    if Moves(cat, c) {
      StepMoves(cat, c);
    } else if KeyIndex(cat, c.origin).Some? && QuestWithId(cat[KeyIndex(cat, c.origin).value].quests, c.questId).Some? {
      StepLoses(cat, c, KeyIndex(cat, c.origin).value, QuestWithId(cat[KeyIndex(cat, c.origin).value].quests, c.questId).value);
    }
  }

  /** The quests lost to missing destinations: popped but appended nowhere. */
  function Lost(cat: seq<Npc>, cs: seq<Correction>): nat
    decreases |cs|
  {
    if cs == [] then 0
    else
      var before := Run(cat, cs[..|cs| - 1]).0;
      var c := cs[|cs| - 1];
      Lost(cat, cs[..|cs| - 1])
      + (if KeyIndex(before, c.origin).Some? && QuestWithId(before[KeyIndex(before, c.origin).value].quests, c.questId).Some?
           && KeyIndex(before, c.dest).None? then 1 else 0)
  }

  /** The total number of quests drops by exactly the number of quests lost; when every
      destination exists, it is preserved. */
  lemma {:induction false} RunQuestTotal(cat: seq<Npc>, cs: seq<Correction>)
    ensures QuestTotal(Run(cat, cs).0) + Lost(cat, cs) == QuestTotal(cat)
    ensures (forall k :: 0 <= k < |cs| ==> KeyIndex(cat, cs[k].dest).Some?) ==> Lost(cat, cs) == 0
    decreases |cs|
  {
    if cs != [] {
      var p := cs[..|cs| - 1];
      var c := cs[|cs| - 1];
      RunQuestTotal(cat, p);
      var before := Run(cat, p).0;
      if Moves(before, c) {
        StepMoves(before, c);
      } else if KeyIndex(before, c.origin).Some? && QuestWithId(before[KeyIndex(before, c.origin).value].quests, c.questId).Some? {
        StepLoses(before, c, KeyIndex(before, c.origin).value, QuestWithId(before[KeyIndex(before, c.origin).value].quests, c.questId).value);
      }
      if forall k :: 0 <= k < |cs| ==> KeyIndex(cat, cs[k].dest).Some? {
        assert forall k :: 0 <= k < |p| ==> p[k] == cs[k];
        RunUnnamed(cat, p);
        KeyIndexSame(cat, before, c.dest);
      }
    }
  }
}
