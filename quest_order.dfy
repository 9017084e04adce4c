// validate_quest_order.py: the checks run over the rows of questdata2025.json, a list of
// {npc, quest, tier} records in file order.
module QuestOrder {
  import opened Util
  import opened Grouping
  import opened Sorting

  /** One record of questdata2025.json. */
  datatype Row = Row(npc: string, quest: string, tier: int)

  function TierOf(): Row -> int { (r: Row) => r.tier }
  function NpcOf(): Row -> string { (r: Row) => r.npc }

  /** The tiers of a list of rows, in order. */
  function Tiers(rows: seq<Row>): (ts: seq<int>)
    ensures |ts| == |rows| && forall i :: 0 <= i < |rows| ==> ts[i] == rows[i].tier
  {
    seq(|rows|, i requires 0 <= i < |rows| => rows[i].tier)
  }

  // ---------------------------------------------------------------------
  // 1. Tier sequence
  // ---------------------------------------------------------------------

  /** A 'tier_mismatch' problem. */
  datatype TierMismatch = TierMismatch(index: nat, expected: int, actual: int, npc: string, quest: string)

  /** The problems of the first |rows| rows: row i should carry tier i + 1. */
  function TierMismatches(rows: seq<Row>): seq<TierMismatch>
    decreases |rows|
  {
    if rows == [] then []
    else
      var n := |rows|;
      var r := rows[n - 1];
      TierMismatches(rows[..n - 1]) + (if r.tier != n then [TierMismatch(n - 1, n, r.tier, r.npc, r.quest)] else [])
  }

  /** The loop with its expected_tier counter. */
  method FindTierProblems(rows: seq<Row>) returns (problems: seq<TierMismatch>)
    ensures problems == TierMismatches(rows)
  {
    problems := [];
    var expected := 1;
    for i := 0 to |rows|
      invariant expected == i + 1
      invariant problems == TierMismatches(rows[..i])
    {
      assert rows[..i + 1][..i] == rows[..i];
      var r := rows[i];
      if r.tier != expected {
        problems := problems + [TierMismatch(i, expected, r.tier, r.npc, r.quest)];
      }
      expected := expected + 1;
    }
    assert rows[..|rows|] == rows;
  }

  /** A mismatch is recorded for row i exactly when its tier is not i + 1, and it records
      that row, the expected and the actual tier. */
  lemma {:induction false} TierMismatchMember(rows: seq<Row>, m: TierMismatch)
    ensures m in TierMismatches(rows) <==>
      exists i :: 0 <= i < |rows| && rows[i].tier != i + 1
        && m == TierMismatch(i, i + 1, rows[i].tier, rows[i].npc, rows[i].quest)
    decreases |rows|
  {
    if rows != [] {
      var p := rows[..|rows| - 1];
      TierMismatchMember(p, m);
      if exists i :: 0 <= i < |p| && p[i].tier != i + 1 && m == TierMismatch(i, i + 1, p[i].tier, p[i].npc, p[i].quest) {
        var i :| 0 <= i < |p| && p[i].tier != i + 1 && m == TierMismatch(i, i + 1, p[i].tier, p[i].npc, p[i].quest);
        assert rows[i] == p[i];
      }
      if exists i :: (0 <= i < |rows| && rows[i].tier != i + 1
        && m == TierMismatch(i, i + 1, rows[i].tier, rows[i].npc, rows[i].quest)) {
        var i :| 0 <= i < |rows| && rows[i].tier != i + 1
          && m == TierMismatch(i, i + 1, rows[i].tier, rows[i].npc, rows[i].quest);
        if i < |p| { assert p[i] == rows[i]; }
      }
    }
  }

  /** No tier_mismatch at all exactly when the tiers are 1, 2, ..., n. */
  lemma NoMismatchIffSequential(rows: seq<Row>)
    ensures TierMismatches(rows) == [] <==> forall i :: 0 <= i < |rows| ==> rows[i].tier == i + 1
  {
    if TierMismatches(rows) != [] {
      TierMismatchMember(rows, TierMismatches(rows)[0]);
    }
    forall i | 0 <= i < |rows| && rows[i].tier != i + 1 ensures TierMismatches(rows) != [] {
      TierMismatchMember(rows, TierMismatch(i, i + 1, rows[i].tier, rows[i].npc, rows[i].quest));
    }
  }

  // ---------------------------------------------------------------------
  // 2. Duplicate tiers
  // ---------------------------------------------------------------------

  /** tier_counts. */
  function TierCounts(rows: seq<Row>): seq<(int, seq<Row>)> {
    GroupBy(rows, TierOf())
  }

  /** duplicates = {t: q for t, q in tier_counts.items() if len(q) > 1}. */
  function Duplicates(rows: seq<Row>): seq<(int, seq<Row>)> {
    Filter(TierCounts(rows), (g: (int, seq<Row>)) => |g.1| > 1)
  }

  /** A tier is duplicated exactly when two rows carry it, and its entry lists exactly the
      rows with that tier, in file order. */
  lemma DuplicatesMeaning(rows: seq<Row>, t: int)
    ensures (exists d :: d in Duplicates(rows) && d.0 == t) <==>
      exists i, j :: 0 <= i < j < |rows| && rows[i].tier == t && rows[j].tier == t
    ensures forall d :: d in Duplicates(rows) ==> d.1 == Filter(rows, Is(TierOf(), d.0))
  {
    var g := TierCounts(rows);
    var big := (g: (int, seq<Row>)) => |g.1| > 1;
    GroupByContents(rows, TierOf());
    FilterMoreThanOne(rows, Is(TierOf(), t));
    forall d | d in Duplicates(rows) ensures d.1 == Filter(rows, Is(TierOf(), d.0)) {
      FilterMember(g, big, d);
    }
    if exists d :: d in Duplicates(rows) && d.0 == t {
      var d :| d in Duplicates(rows) && d.0 == t;
      FilterMember(g, big, d);
    }
    if exists i, j :: 0 <= i < j < |rows| && rows[i].tier == t && rows[j].tier == t {
      var i, j :| 0 <= i < j < |rows| && rows[i].tier == t && rows[j].tier == t;
      assert Is(TierOf(), t)(rows[i]) && Is(TierOf(), t)(rows[j]);
      GroupByKeys(rows, TierOf(), t);
      var k := GroupPos(g, t).value;
      FilterMember(g, big, g[k]);
    }
  }

  // ---------------------------------------------------------------------
  // 3. Gaps
  // ---------------------------------------------------------------------

  function MinTier(rows: seq<Row>): (m: int)
    requires rows != []
    ensures exists i :: 0 <= i < |rows| && rows[i].tier == m
    ensures forall i :: 0 <= i < |rows| ==> m <= rows[i].tier
    decreases |rows|
  {
    if |rows| == 1 then rows[0].tier
    else
      var m := MinTier(rows[..|rows| - 1]);
      assert forall i :: 0 <= i < |rows| - 1 ==> rows[..|rows| - 1][i] == rows[i];
      if rows[|rows| - 1].tier < m then rows[|rows| - 1].tier else m
  }

  function MaxTier(rows: seq<Row>): (m: int)
    requires rows != []
    ensures exists i :: 0 <= i < |rows| && rows[i].tier == m
    ensures forall i :: 0 <= i < |rows| ==> rows[i].tier <= m
    decreases |rows|
  {
    if |rows| == 1 then rows[0].tier
    else
      var m := MaxTier(rows[..|rows| - 1]);
      assert forall i :: 0 <= i < |rows| - 1 ==> rows[..|rows| - 1][i] == rows[i];
      if rows[|rows| - 1].tier > m then rows[|rows| - 1].tier else m
  }

  function TierSet(rows: seq<Row>): set<int> {
    set i | 0 <= i < |rows| :: rows[i].tier
  }

  /** missing_tiers: {min..max} minus the tiers present; the check is skipped (None) for
      an empty file. */
  function MissingTiers(rows: seq<Row>): (r: Option<set<int>>)
    ensures r.None? <==> rows == []
  {
    if rows == [] then None
    else Some(set t | MinTier(rows) <= t <= MaxTier(rows) && t !in TierSet(rows))
  }

  /** When the tiers are exactly 1..n, no tier is duplicated and none is missing. */
  lemma SequentialIsClean(rows: seq<Row>)
    requires rows != [] && TierMismatches(rows) == []
    ensures Duplicates(rows) == []
    ensures MissingTiers(rows) == Some({})
    ensures MinTier(rows) == 1 && MaxTier(rows) == |rows|
  {
    NoMismatchIffSequential(rows);
    SequentialNoDuplicates(rows);
    assert rows[0].tier == 1 && rows[|rows| - 1].tier == |rows|;
    var missing := set t | MinTier(rows) <= t <= MaxTier(rows) && t !in TierSet(rows);
    forall t | MinTier(rows) <= t <= MaxTier(rows) ensures t in TierSet(rows) {
      assert rows[t - 1].tier == t;
    }
    assert missing == {};
  }

  lemma SequentialNoDuplicates(rows: seq<Row>)
    requires forall i :: 0 <= i < |rows| ==> rows[i].tier == i + 1
    ensures Duplicates(rows) == []
  {
    var g := TierCounts(rows);
    var big := (g: (int, seq<Row>)) => |g.1| > 1;
    GroupByContents(rows, TierOf());
    forall k | 0 <= k < |g| ensures !big(g[k]) {
      FilterMoreThanOne(rows, Is(TierOf(), g[k].0));
    }
    FilterEmptyIff(g, big);
  }

  // ---------------------------------------------------------------------
  // 4. NPC changes
  // ---------------------------------------------------------------------

  datatype NpcChange = NpcChange(index: nat, from: string, to: string, tier: int)

  /** The changes among the first |rows| rows. */
  function NpcChanges(rows: seq<Row>): seq<NpcChange>
    decreases |rows|
  {
    if |rows| <= 1 then []
    else
      var n := |rows|;
      NpcChanges(rows[..n - 1])
      + (if rows[n - 1].npc != rows[n - 2].npc then [NpcChange(n - 1, rows[n - 2].npc, rows[n - 1].npc, rows[n - 1].tier)] else [])
  }

  /** The loop with current_npc, None before the first row. */
  method FindNpcChanges(rows: seq<Row>) returns (changes: seq<NpcChange>)
    ensures changes == NpcChanges(rows)
  {
    var current: Option<string> := None;
    changes := [];
    for i := 0 to |rows|
      invariant i == 0 ==> current.None?
      invariant i > 0 ==> current == Some(rows[i - 1].npc)
      invariant changes == NpcChanges(rows[..i])
    {
      assert rows[..i + 1][..i] == rows[..i];
      var npc := rows[i].npc;
      if current != Some(npc) {
        if current.Some? {
          changes := changes + [NpcChange(i, current.value, npc, rows[i].tier)];
        }
        current := Some(npc);
      }
    }
    assert rows[..|rows|] == rows;
  }

  /** A change is recorded at each index i > 0 whose NPC differs from row i - 1's, and nowhere
      else. */
  lemma {:induction false} NpcChangeMember(rows: seq<Row>, c: NpcChange)
    ensures c in NpcChanges(rows) <==>
      exists i :: 0 < i < |rows| && rows[i].npc != rows[i - 1].npc
        && c == NpcChange(i, rows[i - 1].npc, rows[i].npc, rows[i].tier)
    decreases |rows|
  {
    if |rows| > 1 {
      var p := rows[..|rows| - 1];
      NpcChangeMember(p, c);
      if exists i :: 0 < i < |p| && p[i].npc != p[i - 1].npc && c == NpcChange(i, p[i - 1].npc, p[i].npc, p[i].tier) {
        var i :| 0 < i < |p| && p[i].npc != p[i - 1].npc && c == NpcChange(i, p[i - 1].npc, p[i].npc, p[i].tier);
        assert rows[i] == p[i] && rows[i - 1] == p[i - 1];
      }
      if exists i :: (0 < i < |rows| && rows[i].npc != rows[i - 1].npc
        && c == NpcChange(i, rows[i - 1].npc, rows[i].npc, rows[i].tier)) {
        var i :| 0 < i < |rows| && rows[i].npc != rows[i - 1].npc
          && c == NpcChange(i, rows[i - 1].npc, rows[i].npc, rows[i].tier);
        if i < |p| { assert p[i] == rows[i] && p[i - 1] == rows[i - 1]; }
      }
    }
  }

  // ---------------------------------------------------------------------
  // 5. Order within each NPC
  // ---------------------------------------------------------------------

  datatype NpcOrderProblem = NpcOrderProblem(npc: string, tiers: seq<int>, sorted: seq<int>)

  /** The problem for one npc_quests entry, if its tiers differ from their sorted copy. */
  function OrderProblem(g: (string, seq<Row>)): Option<NpcOrderProblem> {
    var ts := Tiers(g.1);
    var st := SortWith(ts, IntLe());
    if ts != st then Some(NpcOrderProblem(g.0, ts, st)) else None
  }

  function OrderProblemFn(): ((string, seq<Row>)) -> Option<NpcOrderProblem> {
    (g: (string, seq<Row>)) => OrderProblem(g)
  }

  /** npc_order_problems, in npc_quests order. */
  function NpcOrderProblems(rows: seq<Row>): seq<NpcOrderProblem> {
    Collect(GroupBy(rows, NpcOf()), OrderProblemFn())
  }

  /** The loop over npc_quests.items(). */
  method FindNpcOrderProblems(groups: seq<(string, seq<Row>)>) returns (problems: seq<NpcOrderProblem>)
    ensures problems == Collect(groups, OrderProblemFn())
  {
    problems := [];
    for i := 0 to |groups|
      invariant problems == Collect(groups[..i], OrderProblemFn())
    {
      CollectSnoc(groups, i, OrderProblemFn());
      var ts := Tiers(groups[i].1);
      var st := SortWith(ts, IntLe());
      if ts != st {
        problems := problems + [NpcOrderProblem(groups[i].0, ts, st)];
      }
    }
    assert groups[..|groups|] == groups;
  }

  /** An NPC's tiers in file order, over the whole file. */
  function NpcTiers(rows: seq<Row>, npc: string): seq<int> {
    Tiers(Filter(rows, Is(NpcOf(), npc)))
  }

  /** The entry of one NPC reports a problem exactly when its tiers are out of order. */
  lemma OrderProblemOf(g: (string, seq<Row>))
    ensures OrderProblem(g).Some? <==> !SortedWith(Tiers(g.1), IntLe())
    ensures OrderProblem(g).Some? ==>
      var p := OrderProblem(g).value;
      p.npc == g.0 && p.tiers == Tiers(g.1) && SortedWith(p.sorted, IntLe())
      && multiset(p.sorted) == multiset(p.tiers)
  {
    IntLeTotal();
    SortWithIdentity(Tiers(g.1), IntLe());
    SortWithSorted(Tiers(g.1), IntLe());
  }

  /** Every reported problem is the one of the entry of its NPC. */
  lemma ProblemIsOfItsGroup(rows: seq<Row>, p: NpcOrderProblem)
    requires p in NpcOrderProblems(rows)
    ensures GroupPos(GroupBy(rows, NpcOf()), p.npc).Some?
    ensures OrderProblem(GroupBy(rows, NpcOf())[GroupPos(GroupBy(rows, NpcOf()), p.npc).value]) == Some(p)
  {
    var g := GroupBy(rows, NpcOf());
    CollectMember(g, OrderProblemFn(), p);
    var k :| 0 <= k < |g| && OrderProblemFn()(g[k]) == Some(p);
    OrderProblemOf(g[k]);
    assert g[k].0 == p.npc;
    GroupByKeyOrder(rows, NpcOf());
    var m := GroupPos(g, p.npc).value;
    assert Keys(g)[k] == Keys(g)[m];
  }

  /** An order problem is reported for an NPC exactly when that NPC has rows and their tiers,
      in file order, are not non-decreasing; it carries them and their ascending
      rearrangement. */
  lemma NpcOrderProblemMeaning(rows: seq<Row>, npc: string)
    ensures (exists p :: p in NpcOrderProblems(rows) && p.npc == npc) <==>
      (exists i :: 0 <= i < |rows| && rows[i].npc == npc) && !SortedWith(NpcTiers(rows, npc), IntLe())
    ensures forall p :: p in NpcOrderProblems(rows) && p.npc == npc ==>
      p.tiers == NpcTiers(rows, npc) && SortedWith(p.sorted, IntLe())
      && multiset(p.sorted) == multiset(p.tiers)
  {
    var g := GroupBy(rows, NpcOf());
    GroupByContents(rows, NpcOf());
    GroupByKeys(rows, NpcOf(), npc);
    forall p | p in NpcOrderProblems(rows) && p.npc == npc
      ensures p.tiers == NpcTiers(rows, npc) && SortedWith(p.sorted, IntLe())
      && multiset(p.sorted) == multiset(p.tiers)
      && !SortedWith(NpcTiers(rows, npc), IntLe())
    {
      ProblemIsOfItsGroup(rows, p);
      OrderProblemOf(g[GroupPos(g, npc).value]);
    }
    if GroupPos(g, npc).Some? && !SortedWith(NpcTiers(rows, npc), IntLe()) {
      var m := GroupPos(g, npc).value;
      OrderProblemOf(g[m]);
      CollectMember(g, OrderProblemFn(), OrderProblem(g[m]).value);
    }
  }

  // ---------------------------------------------------------------------
  // The whole run
  // ---------------------------------------------------------------------

  /** What one run establishes; the statistics line needs min(tiers), so an empty file ends
      in ValueError there and gives no report. */
  datatype Report = Report(
    problems: seq<TierMismatch>,
    duplicates: seq<(int, seq<Row>)>,
    missing: set<int>,
    changes: seq<NpcChange>,
    orderProblems: seq<NpcOrderProblem>,
    minTier: int,
    maxTier: int)

  method ValidateQuestOrder(rows: seq<Row>) returns (report: Option<Report>)
    ensures report.None? <==> rows == []
    ensures report.Some? ==> report.value == Report(TierMismatches(rows), Duplicates(rows),
      MissingTiers(rows).value, NpcChanges(rows), NpcOrderProblems(rows), MinTier(rows), MaxTier(rows))
  {
    var problems := FindTierProblems(rows);
    var tierCounts := BuildGroups(rows, TierOf());
    var duplicates := Filter(tierCounts, (g: (int, seq<Row>)) => |g.1| > 1);
    var changes := FindNpcChanges(rows);
    var npcQuests := BuildGroups(rows, NpcOf());
    var orderProblems := FindNpcOrderProblems(npcQuests);
    if rows == [] {
      return None;
    }
    report := Some(Report(problems, duplicates, MissingTiers(rows).value, changes, orderProblems,
      MinTier(rows), MaxTier(rows)));
  }
}
