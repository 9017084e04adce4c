// check_npc_order.py: group the questdata2025.json rows by NPC, then visit the NPCs in
// sorted-name order and report each whose rows are not in tier order.
module NpcOrder {
  import opened Util
  import opened Grouping
  import opened Sorting
  import opened QuestOrder

  /** The "at most" test of sorted(quest_list, key=lambda x: x['tier']). */
  function TierLe(): (Row, Row) -> bool {
    (a: Row, b: Row) => a.tier <= b.tier
  }

  lemma TierLeTotal()
    ensures Total(TierLe())
  {
  }

  /** One entry of problems. */
  datatype Problem = Problem(npc: string, current: seq<int>, shouldBe: seq<int>, quests: seq<Row>)

  /** sorted(npc_quests.keys()). */
  function SortedNpcs(g: seq<(string, seq<Row>)>): seq<string> {
    SortWith(Keys(g), StrLeFn())
  }

  /** The check for one NPC: its list against the stable sort of it by tier. */
  function Check(g: seq<(string, seq<Row>)>, npc: string): Option<Problem> {
    match GroupPos(g, npc)
    case None => None
    case Some(k) =>
      var quests := g[k].1;
      var sorted := SortWith(quests, TierLe());
      if quests != sorted then Some(Problem(npc, Tiers(quests), Tiers(sorted), quests)) else None
  }

  function CheckFn(g: seq<(string, seq<Row>)>): string -> Option<Problem> {
    (npc: string) => Check(g, npc)
  }

  /** problems, for the whole file. */
  function Problems(rows: seq<Row>): seq<Problem> {
    var g := GroupBy(rows, NpcOf());
    Collect(SortedNpcs(g), CheckFn(g))
  }

  /** The script: grouping loop, then the loop over the sorted NPC names. */
  method CheckNpcOrder(rows: seq<Row>) returns (problems: seq<Problem>)
    ensures problems == Problems(rows)
  {
    var npcQuests := BuildGroups(rows, NpcOf());
    var npcs := SortWith(Keys(npcQuests), StrLeFn());
    problems := [];
    for i := 0 to |npcs|
      invariant problems == Collect(npcs[..i], CheckFn(npcQuests))
    {
      CollectSnoc(npcs, i, CheckFn(npcQuests));
      var pos := GroupPos(npcQuests, npcs[i]);
      if pos.Some? {
        var questList := npcQuests[pos.value].1;
        var questListSorted := SortWith(questList, TierLe());
        if questList != questListSorted {
          problems := problems + [Problem(npcs[i], Tiers(questList), Tiers(questListSorted), questList)];
        }
      }
    }
    assert npcs[..|npcs|] == npcs;
  }

  // ---------------------------------------------------------------------
  // Properties
  // ---------------------------------------------------------------------

  /** The rows of one NPC, in file order. */
  function NpcRows(rows: seq<Row>, npc: string): seq<Row> {
    Filter(rows, Is(NpcOf(), npc))
  }

  /** Sorting rows by tier and then taking their tiers is sorting the tiers. */
  lemma {:induction false} InsertTiers(x: Row, s: seq<Row>)
    ensures Tiers(InsertWith(x, s, TierLe())) == InsertWith(x.tier, Tiers(s), IntLe())
    decreases |s|
  {
    if s != [] && TierLe()(s[0], x) {
      InsertTiers(x, s[1..]);
      assert Tiers(s[1..]) == Tiers(s)[1..];
      assert Tiers([s[0]] + InsertWith(x, s[1..], TierLe())) == [s[0].tier] + Tiers(InsertWith(x, s[1..], TierLe()));
    } else {
      assert Tiers([x] + s) == [x.tier] + Tiers(s);
    }
  }

  lemma {:induction false} SortTiers(s: seq<Row>)
    ensures Tiers(SortWith(s, TierLe())) == SortWith(Tiers(s), IntLe())
    decreases |s|
  {
    if s != [] {
      var p := s[..|s| - 1];
      SortTiers(p);
      assert Tiers(s)[..|s| - 1] == Tiers(p);
      InsertTiers(s[|s| - 1], SortWith(p, TierLe()));
    }
  }

  /** The check of an NPC whose list is qs: a problem exactly when qs is out of tier order,
      carrying qs, its tiers and their ascending rearrangement. */
  lemma CheckOf(g: seq<(string, seq<Row>)>, npc: string)
    requires GroupPos(g, npc).Some?
    ensures var qs := g[GroupPos(g, npc).value].1;
      (Check(g, npc).Some? <==> !SortedWith(qs, TierLe()))
      && (Check(g, npc).Some? ==>
        var p := Check(g, npc).value;
        p.npc == npc && p.quests == qs && p.current == Tiers(qs)
        && SortedWith(p.shouldBe, IntLe()) && multiset(p.shouldBe) == multiset(p.current))
  {
    var qs := g[GroupPos(g, npc).value].1;
    TierLeTotal();
    IntLeTotal();
    SortWithIdentity(qs, TierLe());
    SortTiers(qs);
    SortWithSorted(Tiers(qs), IntLe());
  }

  /** Every name of the file is among the visited names. */
  lemma VisitsEveryNpc(rows: seq<Row>, npc: string)
    requires GroupPos(GroupBy(rows, NpcOf()), npc).Some?
    ensures npc in SortedNpcs(GroupBy(rows, NpcOf()))
  {
    var g := GroupBy(rows, NpcOf());
    StrLeTotal();
    SortWithSorted(Keys(g), StrLeFn());
    assert Keys(g)[GroupPos(g, npc).value] == npc;
    assert npc in multiset(SortedNpcs(g));
  }

  /** An NPC is reported exactly when it has rows that are not in tier order; the report
      carries those rows, their tiers, and their tiers' ascending rearrangement. */
  lemma ProblemMeaning(rows: seq<Row>, npc: string)
    ensures (exists p :: p in Problems(rows) && p.npc == npc) <==>
      (exists i :: 0 <= i < |rows| && rows[i].npc == npc) && !SortedWith(NpcRows(rows, npc), TierLe())
    ensures forall p :: p in Problems(rows) && p.npc == npc ==>
      p.quests == NpcRows(rows, npc) && p.current == Tiers(NpcRows(rows, npc))
      && SortedWith(p.shouldBe, IntLe()) && multiset(p.shouldBe) == multiset(p.current)
  {
    var g := GroupBy(rows, NpcOf());
    var npcs := SortedNpcs(g);
    GroupByContents(rows, NpcOf());
    GroupByKeys(rows, NpcOf(), npc);
    forall p | p in Problems(rows) && p.npc == npc
      ensures GroupPos(g, npc).Some? && Check(g, npc) == Some(p)
    {
      CollectMember(npcs, CheckFn(g), p);
      var m :| 0 <= m < |npcs| && CheckFn(g)(npcs[m]) == Some(p);
      assert Check(g, npcs[m]) == Some(p);
    }
    if GroupPos(g, npc).Some? {
      CheckOf(g, npc);
      if !SortedWith(NpcRows(rows, npc), TierLe()) {
        VisitsEveryNpc(rows, npc);
        var m :| 0 <= m < |npcs| && npcs[m] == npc;
        CollectMember(npcs, CheckFn(g), Check(g, npc).value);
      }
    }
  }

  /** Multiplicities in a list without repeats are at most one. */
  lemma {:induction false} NoDuplicatesOnce<T>(s: seq<T>, x: T)
    requires NoDuplicates(s)
    ensures multiset(s)[x] == if x in s then 1 else 0
    decreases |s|
  {
    if s != [] {
      var p := s[..|s| - 1];
      assert s == p + [s[|s| - 1]];
      assert NoDuplicates(p) by {
        forall i, j | 0 <= i < j < |p| ensures p[i] != p[j] {
          assert p[i] == s[i] && p[j] == s[j];
        }
      }
      NoDuplicatesOnce(p, x);
      assert s[|s| - 1] !in p by {
        forall i | 0 <= i < |p| ensures p[i] != s[|s| - 1] {
          assert p[i] == s[i];
        }
      }
    }
  }

  /** The NPCs are visited in ascending name order, each NPC of the file exactly once. */
  lemma VisitOrder(rows: seq<Row>, npc: string)
    ensures SortedWith(SortedNpcs(GroupBy(rows, NpcOf())), StrLeFn())
    ensures multiset(SortedNpcs(GroupBy(rows, NpcOf())))[npc] ==
      if exists i :: 0 <= i < |rows| && rows[i].npc == npc then 1 else 0
  {
    var g := GroupBy(rows, NpcOf());
    StrLeTotal();
    SortWithSorted(Keys(g), StrLeFn());
    GroupByKeyOrder(rows, NpcOf());
    GroupByKeys(rows, NpcOf(), npc);
    NoDuplicatesOnce(Keys(g), npc);
    if GroupPos(g, npc).Some? {
      assert Keys(g)[GroupPos(g, npc).value] == npc;
    }
  }
}
