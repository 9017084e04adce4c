// The quest catalog shared by the tracker and every maintenance script:
// NPCs in the order of the database's "npcs" object, each with its quests.
module Catalog {
  import opened Util

  /** One quest. A missing or null "id" is the empty string; a missing
      "prerequisitesExternal" is the empty list; a null tier is None. */
  datatype Quest = Quest(
    id: string,
    name: string,
    tier: Option<int>,
    prerequisites: seq<string>,
    prerequisitesExternal: seq<string>,
    wikiUrl: string,
    kappaRequired: bool)

  /** One NPC: its key in the "npcs" object, its display name and its quests. */
  datatype Npc = Npc(key: string, name: string, quests: seq<Quest>)

  /** A quest together with the NPC it is listed under. */
  datatype Entry = Entry(npc: string, npcName: string, quest: Quest)

  /** The value stored in a quest-by-id index: owning NPC key and the quest. */
  datatype Located = Located(npc: string, quest: Quest)

  /** prerequisites + prerequisitesExternal. */
  function AllPrereqs(q: Quest): seq<string> {
    q.prerequisites + q.prerequisitesExternal
  }

  predicate HasNoPrereqs(q: Quest) {
    q.prerequisites == [] && q.prerequisitesExternal == []
  }

  lemma NoPrereqsIff(q: Quest)
    ensures HasNoPrereqs(q) <==> AllPrereqs(q) == []
  {
  }

  /** The quests of one NPC as entries, in list order. */
  function NpcEntries(n: Npc): (es: seq<Entry>)
    ensures |es| == |n.quests|
    ensures forall k :: 0 <= k < |es| ==> es[k] == Entry(n.key, n.name, n.quests[k])
  {
    seq(|n.quests|, k requires 0 <= k < |n.quests| => Entry(n.key, n.name, n.quests[k]))
  }

  /** Every quest of the catalog, NPC by NPC, in the order the nested loops of the scripts visit them. */
  function Entries(cat: seq<Npc>): seq<Entry>
    decreases |cat|
  {
    if cat == [] then [] else Entries(cat[..|cat| - 1]) + NpcEntries(cat[|cat| - 1])
  }

  lemma EntriesSnoc(cat: seq<Npc>, n: Npc)
    ensures Entries(cat + [n]) == Entries(cat) + NpcEntries(n)
  {
    assert (cat + [n])[..|cat|] == cat;
  }

  lemma EntriesPrefix(cat: seq<Npc>, i: nat)
    requires i < |cat|
    ensures Entries(cat[..i + 1]) == Entries(cat[..i]) + NpcEntries(cat[i])
  {
    assert cat[..i + 1] == cat[..i] + [cat[i]];
    EntriesSnoc(cat[..i], cat[i]);
  }

  /** One more quest of an NPC after a prefix of the entries. */
  lemma EntryStep(pre: seq<Entry>, n: Npc, j: nat)
    requires j < |n.quests|
    ensures pre + NpcEntries(n)[..j + 1] == (pre + NpcEntries(n)[..j]) + [Entry(n.key, n.name, n.quests[j])]
  {
    assert NpcEntries(n)[..j + 1] == NpcEntries(n)[..j] + [Entry(n.key, n.name, n.quests[j])];
  }

  /** quest_by_id as every script builds it: truthy ids only, a later duplicate overwrites. */
  function IdIndex(es: seq<Entry>): map<string, Located>
    decreases |es|
  {
    if es == [] then map[]
    else
      var m := IdIndex(es[..|es| - 1]);
      var e := es[|es| - 1];
      if e.quest.id != "" then m[e.quest.id := Located(e.npc, e.quest)] else m
  }

  lemma IdIndexSnoc(es: seq<Entry>, e: Entry)
    ensures IdIndex(es + [e]) == if e.quest.id != "" then IdIndex(es)[e.quest.id := Located(e.npc, e.quest)] else IdIndex(es)
  {
    assert (es + [e])[..|es|] == es;
  }

  /** An id is indexed iff it is non-empty and some quest carries it. */
  lemma {:induction false} IdIndexKeys(es: seq<Entry>, id: string)
    ensures id in IdIndex(es) <==> id != "" && exists k :: 0 <= k < |es| && es[k].quest.id == id
    decreases |es|
  {
    if es != [] {
      var p := es[..|es| - 1];
      IdIndexKeys(p, id);
      if exists k :: 0 <= k < |p| && p[k].quest.id == id {
        var k :| 0 <= k < |p| && p[k].quest.id == id;
        assert es[k] == p[k];
      }
      if exists k :: 0 <= k < |es| && es[k].quest.id == id {
        var k :| 0 <= k < |es| && es[k].quest.id == id;
        if k < |p| { assert p[k] == es[k]; }
      }
    }
  }

  /** The indexed value is the last quest with that id. */
  lemma {:induction false} IdIndexLast(es: seq<Entry>, k: nat)
    requires k < |es| && es[k].quest.id != ""
    requires forall k' :: k < k' < |es| ==> es[k'].quest.id != es[k].quest.id
    ensures es[k].quest.id in IdIndex(es)
    ensures IdIndex(es)[es[k].quest.id] == Located(es[k].npc, es[k].quest)
    decreases |es|
  {
    if k < |es| - 1 {
      var p := es[..|es| - 1];
      IdIndexLast(p, k);
    }
  }

  /** Every indexed value is one of the entries, stored under its own id. */
  lemma {:induction false} IdIndexSound(es: seq<Entry>, id: string)
    requires id in IdIndex(es)
    ensures exists k :: 0 <= k < |es| && es[k].quest.id == id && IdIndex(es)[id] == Located(es[k].npc, es[k].quest)
    decreases |es|
  {
    IdIndexKeys(es, id);
    var p := es[..|es| - 1];
    var e := es[|es| - 1];
    if e.quest.id == id {
      assert es[|es| - 1] == e;
    } else {
      IdIndexSound(p, id);
      var k :| 0 <= k < |p| && p[k].quest.id == id && IdIndex(p)[id] == Located(p[k].npc, p[k].quest);
      assert es[k] == p[k];
    }
  }

  /** Where the quest with this id is indexed, if anywhere. */
  function Owner(idx: map<string, Located>, id: string): Option<string> {
    if id in idx then Some(idx[id].npc) else None
  }

  /** data['npcs'][key]: the NPC stored under that key, if any (keys of the object are unique,
      so the first match is the one). */
  function NpcByKey(cat: seq<Npc>, key: string): (r: Option<Npc>)
    ensures r.None? <==> forall i :: 0 <= i < |cat| ==> cat[i].key != key
    ensures r.Some? ==> r.value.key == key && exists i :: 0 <= i < |cat| && cat[i] == r.value
    decreases |cat|
  {
    if cat == [] then None
    else if cat[0].key == key then Some(cat[0])
    else
      var r := NpcByKey(cat[1..], key);
      assert r.Some? ==> exists i :: 0 <= i < |cat[1..]| && cat[1..][i] == r.value;
      r
  }

  /** The stored in-memory database for the scripts that edit it in place. */
  class Database {
    var npcs: seq<Npc>

    constructor (npcs: seq<Npc>)
      ensures this.npcs == npcs
    {
      this.npcs := npcs;
    }

    function QuestCount(): nat
      reads this
    {
      |Entries(npcs)|
    }
  }
}
