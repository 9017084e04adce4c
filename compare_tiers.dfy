// compare_tiers.py: compare the tiers of questdata2025.json with those of the quest
// database, matching quests by an "NPC name|quest name" key. The nested loops over
// npcs and their quests are written as one loop over the catalog's entries, which
// visits the quests in the same order.
module CompareTiers {
  import opened Util
  import opened Catalog
  import opened Sorting
  import opened QuestOrder

  /** f"{npc_name}|{quest_name}" for a database quest. */
  function DataKey(e: Entry): string {
    e.npcName + "|" + e.quest.name
  }

  /** f"{npc}|{quest_name}" for a questdata2025.json row. */
  function RowKey(r: Row): string {
    r.npc + "|" + r.quest
  }

  // ---------------------------------------------------------------------
  // quests_by_name
  // ---------------------------------------------------------------------

  /** quests_by_name after the loop: a later quest with the same key overwrites an earlier. */
  function NameIndex(es: seq<Entry>): map<string, Quest>
    decreases |es|
  {
    if es == [] then map[] else NameIndex(es[..|es| - 1])[DataKey(es[|es| - 1]) := es[|es| - 1].quest]
  }

  method BuildNameIndex(cat: seq<Npc>) returns (index: map<string, Quest>)
    ensures index == NameIndex(Entries(cat))
  {
    var es := Entries(cat);
    index := map[];
    for i := 0 to |es|
      invariant index == NameIndex(es[..i])
    {
      assert es[..i + 1][..i] == es[..i];
      index := index[DataKey(es[i]) := es[i].quest];
    }
    assert es[..|es|] == es;
  }

  /** A key is indexed exactly when some quest has it, and it maps to the quest of the last
      entry that has it. */
  lemma NameIndexMeaning(es: seq<Entry>, key: string)
    ensures key in NameIndex(es) <==> exists i :: 0 <= i < |es| && DataKey(es[i]) == key
    ensures key in NameIndex(es) ==> exists i :: (0 <= i < |es| && DataKey(es[i]) == key
      && NameIndex(es)[key] == es[i].quest
      && forall i' :: i < i' < |es| ==> DataKey(es[i']) != key)
  {
    NameIndexKeys(es, key);
    if key in NameIndex(es) {
      NameIndexLast(es, key);
      var i :| LastWithKey(es, key, i);
    }
  }

  lemma {:induction false} NameIndexKeys(es: seq<Entry>, key: string)
    ensures key in NameIndex(es) <==> exists i :: 0 <= i < |es| && DataKey(es[i]) == key
    decreases |es|
  {
    if es != [] {
      var p := es[..|es| - 1];
      NameIndexKeys(p, key);
      if exists i :: 0 <= i < |p| && DataKey(p[i]) == key {
        var i :| 0 <= i < |p| && DataKey(p[i]) == key;
        assert es[i] == p[i];
      }
      if exists i :: 0 <= i < |es| && DataKey(es[i]) == key {
        var i :| 0 <= i < |es| && DataKey(es[i]) == key;
        if i < |p| { assert p[i] == es[i]; }
      }
    }
  }

  /** Entry i has the key, its quest is the indexed one, and no later entry has the key. */
  predicate LastWithKey(es: seq<Entry>, key: string, i: int)
    requires key in NameIndex(es)
  {
    0 <= i < |es| && DataKey(es[i]) == key && NameIndex(es)[key] == es[i].quest
    && forall i' :: i < i' < |es| ==> DataKey(es[i']) != key
  }

  lemma {:induction false} NameIndexLast(es: seq<Entry>, key: string)
    requires key in NameIndex(es)
    ensures exists i :: LastWithKey(es, key, i)
    decreases |es|
  {
    var p := es[..|es| - 1];
    var n := |es| - 1;
    if DataKey(es[n]) == key {
      assert LastWithKey(es, key, n);
    } else {
      NameIndexLast(p, key);
      var i :| LastWithKey(p, key, i);
      assert es[i] == p[i];
      forall i' | i < i' < |es| ensures DataKey(es[i']) != key {
        if i' < n { assert es[i'] == p[i']; }
      }
      assert LastWithKey(es, key, i);
    }
  }

  // ---------------------------------------------------------------------
  // Comparing tiers
  // ---------------------------------------------------------------------

  datatype Mismatch = Mismatch(npc: string, quest: string, tier2025: int, tierData: int, diff: int)
  datatype NotFound = NotFound(npc: string, quest: string, tier: int)

  /** What the loop body does with one row. */
  datatype Verdict =
    | Same                     // key found, equal tiers: nothing recorded
    | Differs(m: Mismatch)     // key found, tiers differ
    | Absent(nf: NotFound)     // key not found
    | NullTier                 // key found with a null tier: tier_2025 - None raises TypeError

  function Classify(index: map<string, Quest>, r: Row): (v: Verdict)
    ensures v.Absent? <==> RowKey(r) !in index
    ensures v.Same? <==> RowKey(r) in index && index[RowKey(r)].tier == Some(r.tier)
    ensures v.NullTier? <==> RowKey(r) in index && index[RowKey(r)].tier.None?
    ensures v.Differs? ==>
      v.m.diff != 0 && v.m.diff == v.m.tier2025 - v.m.tierData
      && Some(v.m.tierData) == index[RowKey(r)].tier && v.m.tier2025 == r.tier
  {
    var key := RowKey(r);
    if key in index then
      match index[key].tier
      case None => NullTier
      case Some(t) => if r.tier != t then Differs(Mismatch(r.npc, r.quest, r.tier, t, r.tier - t)) else Same
    else Absent(NotFound(r.npc, r.quest, r.tier))
  }

  /** (mismatches, not_found) after the rows, or None once a row raised. */
  function Compare(index: map<string, Quest>, rows: seq<Row>): Option<(seq<Mismatch>, seq<NotFound>)>
    decreases |rows|
  {
    if rows == [] then Some(([], []))
    else
      match Compare(index, rows[..|rows| - 1])
      case None => None
      case Some(acc) =>
        match Classify(index, rows[|rows| - 1])
        case Same => Some(acc)
        case Differs(m) => Some((acc.0 + [m], acc.1))
        case Absent(nf) => Some((acc.0, acc.1 + [nf]))
        case NullTier => None
  }

  method CompareRows(index: map<string, Quest>, rows: seq<Row>)
      returns (ok: bool, mismatches: seq<Mismatch>, notFound: seq<NotFound>)
    ensures ok <==> Compare(index, rows).Some?
    ensures ok ==> Compare(index, rows) == Some((mismatches, notFound))
  {
    mismatches := [];
    notFound := [];
    for i := 0 to |rows|
      invariant Compare(index, rows[..i]) == Some((mismatches, notFound))
    {
      assert rows[..i + 1][..i] == rows[..i];
      var r := rows[i];
      var key := RowKey(r);
      if key in index {
        var tierData := index[key].tier;
        if tierData.None? {
          NullTierStops(index, rows, i + 1);
          assert rows[..i + 1][..i + 1] == rows[..i + 1];
          return false, mismatches, notFound;
        }
        if r.tier != tierData.value {
          mismatches := mismatches + [Mismatch(r.npc, r.quest, r.tier, tierData.value, r.tier - tierData.value)];
        }
      } else {
        notFound := notFound + [NotFound(r.npc, r.quest, r.tier)];
      }
    }
    assert rows[..|rows|] == rows;
    ok := true;
  }

  /** Once a row raised, the run stays failed. */
  lemma {:induction false} NullTierStops(index: map<string, Quest>, rows: seq<Row>, n: nat)
    requires 0 < n <= |rows| && Compare(index, rows[..n]).None?
    ensures Compare(index, rows).None?
    decreases |rows| - n
  {
    if n < |rows| {
      assert rows[..n + 1][..n] == rows[..n];
      NullTierStops(index, rows, n + 1);
    } else {
      assert rows[..n] == rows;
    }
  }

  /** The comparison fails exactly when some row's key maps to a quest with a null tier. */
  lemma CompareFailsIff(index: map<string, Quest>, rows: seq<Row>)
    ensures Compare(index, rows).None? <==> exists i :: 0 <= i < |rows| && Classify(index, rows[i]).NullTier?
  {
    if Compare(index, rows).None? {
      CompareFails(index, rows);
    }
    if exists i :: 0 <= i < |rows| && Classify(index, rows[i]).NullTier? {
      var i :| 0 <= i < |rows| && Classify(index, rows[i]).NullTier?;
      assert rows[..i + 1][..i] == rows[..i] && rows[..i + 1][i] == rows[i];
      NullTierStops(index, rows, i + 1);
    }
  }

  lemma {:induction false} CompareFails(index: map<string, Quest>, rows: seq<Row>)
    requires Compare(index, rows).None?
    ensures exists i :: 0 <= i < |rows| && Classify(index, rows[i]).NullTier?
    decreases |rows|
  {
    var p := rows[..|rows| - 1];
    if Compare(index, p).None? {
      CompareFails(index, p);
      var i :| 0 <= i < |p| && Classify(index, p[i]).NullTier?;
      assert rows[i] == p[i];
    } else {
      assert Classify(index, rows[|rows| - 1]).NullTier?;
    }
  }

  /** When no row raises, every mismatch and every not-found entry comes from one row with
      that verdict, and every row with such a verdict is recorded. */
  lemma CompareMember(index: map<string, Quest>, rows: seq<Row>, m: Mismatch, nf: NotFound)
    requires Compare(index, rows).Some?
    ensures m in Compare(index, rows).value.0 <==> exists i :: 0 <= i < |rows| && Classify(index, rows[i]) == Differs(m)
    ensures nf in Compare(index, rows).value.1 <==> exists i :: 0 <= i < |rows| && Classify(index, rows[i]) == Absent(nf)
    ensures forall i :: 0 <= i < |rows| ==> !Classify(index, rows[i]).NullTier?
  {
    CompareMismatches(index, rows, m);
    CompareAbsents(index, rows, nf);
    CompareFailsIff(index, rows);
  }

  lemma {:induction false} CompareMismatches(index: map<string, Quest>, rows: seq<Row>, m: Mismatch)
    requires Compare(index, rows).Some?
    ensures m in Compare(index, rows).value.0 <==> exists i :: 0 <= i < |rows| && Classify(index, rows[i]) == Differs(m)
    decreases |rows|
  {
    if rows != [] {
      var p := rows[..|rows| - 1];
      CompareMismatches(index, p, m);
      if exists i :: 0 <= i < |rows| && Classify(index, rows[i]) == Differs(m) {
        var i :| 0 <= i < |rows| && Classify(index, rows[i]) == Differs(m);
        if i < |p| { assert rows[i] == p[i]; }
      }
      if exists i :: 0 <= i < |p| && Classify(index, p[i]) == Differs(m) {
        var i :| 0 <= i < |p| && Classify(index, p[i]) == Differs(m);
        assert rows[i] == p[i];
      }
    }
  }

  lemma {:induction false} CompareAbsents(index: map<string, Quest>, rows: seq<Row>, nf: NotFound)
    requires Compare(index, rows).Some?
    ensures nf in Compare(index, rows).value.1 <==> exists i :: 0 <= i < |rows| && Classify(index, rows[i]) == Absent(nf)
    decreases |rows|
  {
    if rows != [] {
      var p := rows[..|rows| - 1];
      CompareAbsents(index, p, nf);
      if exists i :: 0 <= i < |rows| && Classify(index, rows[i]) == Absent(nf) {
        var i :| 0 <= i < |rows| && Classify(index, rows[i]) == Absent(nf);
        if i < |p| { assert rows[i] == p[i]; }
      }
      if exists i :: 0 <= i < |p| && Classify(index, p[i]) == Absent(nf) {
        var i :| 0 <= i < |p| && Classify(index, p[i]) == Absent(nf);
        assert rows[i] == p[i];
      }
    }
  }

  // ---------------------------------------------------------------------
  // The order mismatches are printed in
  // ---------------------------------------------------------------------

  /** sorted(mismatches, key=lambda x: abs(x['diff']), reverse=True), stable like Python's. */
  function AbsDiffGe(): (Mismatch, Mismatch) -> bool {
    (a: Mismatch, b: Mismatch) => Abs(a.diff) >= Abs(b.diff)
  }

  function Abs(x: int): nat { if x < 0 then -x else x }

  function PrintOrder(ms: seq<Mismatch>): seq<Mismatch> {
    SortWith(ms, AbsDiffGe())
  }

  /** The mismatches are printed by non-increasing |diff|, each exactly as often as found. */
  lemma PrintOrderMeaning(ms: seq<Mismatch>)
    ensures forall i, j :: 0 <= i < j < |PrintOrder(ms)| ==> Abs(PrintOrder(ms)[i].diff) >= Abs(PrintOrder(ms)[j].diff)
    ensures multiset(PrintOrder(ms)) == multiset(ms)
  {
    assert Total(AbsDiffGe());
    SortWithSorted(ms, AbsDiffGe());
  }

  // ---------------------------------------------------------------------
  // missing_in_2025
  // ---------------------------------------------------------------------

  datatype MissingRow = MissingRow(npc: string, quest: string, tier: Option<int>)

  /** quests_2025_set. */
  function RowKeys(rows: seq<Row>): set<string> {
    set i | 0 <= i < |rows| :: RowKey(rows[i])
  }

  function MissingFrom(keys: set<string>, e: Entry): Option<MissingRow> {
    if DataKey(e) !in keys then Some(MissingRow(e.npcName, e.quest.name, e.quest.tier)) else None
  }

  function MissingFn(keys: set<string>): Entry -> Option<MissingRow> {
    (e: Entry) => MissingFrom(keys, e)
  }

  function MissingIn2025(cat: seq<Npc>, rows: seq<Row>): seq<MissingRow> {
    Collect(Entries(cat), MissingFn(RowKeys(rows)))
  }

  method FindMissingIn2025(cat: seq<Npc>, rows: seq<Row>) returns (missing: seq<MissingRow>)
    ensures missing == MissingIn2025(cat, rows)
  {
    var keys := set i | 0 <= i < |rows| :: RowKey(rows[i]);
    var es := Entries(cat);
    missing := [];
    for i := 0 to |es|
      invariant missing == Collect(es[..i], MissingFn(keys))
    {
      CollectSnoc(es, i, MissingFn(keys));
      var e := es[i];
      if DataKey(e) !in keys {
        missing := missing + [MissingRow(e.npcName, e.quest.name, e.quest.tier)];
      }
    }
    assert es[..|es|] == es;
  }

  /** A database quest is listed as missing exactly when no questdata2025.json row has its
      key. */
  lemma MissingMeaning(cat: seq<Npc>, rows: seq<Row>, m: MissingRow)
    ensures m in MissingIn2025(cat, rows) <==>
      exists i :: 0 <= i < |Entries(cat)| && m == MissingRow(Entries(cat)[i].npcName, Entries(cat)[i].quest.name, Entries(cat)[i].quest.tier)
        && forall k :: 0 <= k < |rows| ==> RowKey(rows[k]) != DataKey(Entries(cat)[i])
  {
    var es := Entries(cat);
    CollectMember(es, MissingFn(RowKeys(rows)), m);
    forall i | 0 <= i < |es|
      ensures DataKey(es[i]) !in RowKeys(rows) <==> forall k :: 0 <= k < |rows| ==> RowKey(rows[k]) != DataKey(es[i])
    {
      if exists k :: 0 <= k < |rows| && RowKey(rows[k]) == DataKey(es[i]) {
        var k :| 0 <= k < |rows| && RowKey(rows[k]) == DataKey(es[i]);
        assert RowKey(rows[k]) in RowKeys(rows);
      }
    }
  }

  /** sorted(missing_in_2025, key=lambda x: (x['npc'], x['tier'])) raises TypeError exactly
      when two listed quests of one NPC name have a null and an integer tier. The key tuples
      compare their tiers only when the names are equal, and two null tiers are settled by
      equality; a comparison sort cannot tell such a null-tier quest from such an
      integer-tier quest apart without comparing a null and an integer tier of that name. */
  predicate MixedTiers(ms: seq<MissingRow>) {
    exists i, j :: 0 <= i < |ms| && 0 <= j < |ms| && ms[i].npc == ms[j].npc && ms[i].tier.None? && ms[j].tier.Some?
  }

  /** No questdata2025.json row has the entry's key. */
  predicate Unmatched(rows: seq<Row>, e: Entry) {
    forall k :: 0 <= k < |rows| ==> RowKey(rows[k]) != DataKey(e)
  }

  lemma UnmatchedIff(rows: seq<Row>, e: Entry)
    ensures DataKey(e) !in RowKeys(rows) <==> Unmatched(rows, e)
  {
    if !Unmatched(rows, e) {
      var k :| 0 <= k < |rows| && RowKey(rows[k]) == DataKey(e);
      assert RowKey(rows[k]) in RowKeys(rows);
    }
  }

  /** Entries i and j are quests of one NPC name, both absent from questdata2025.json, the
      first with a null tier and the second with an integer tier. */
  predicate MixedAt(es: seq<Entry>, rows: seq<Row>, i: int, j: int) {
    0 <= i < |es| && 0 <= j < |es| && Unmatched(rows, es[i]) && Unmatched(rows, es[j])
    && es[i].npcName == es[j].npcName && es[i].quest.tier.None? && es[j].quest.tier.Some?
  }

  lemma MixedTiersSound(cat: seq<Npc>, rows: seq<Row>)
    requires MixedTiers(MissingIn2025(cat, rows))
    ensures exists i, j :: MixedAt(Entries(cat), rows, i, j)
  {
    var es, f := Entries(cat), MissingFn(RowKeys(rows));
    var ms := MissingIn2025(cat, rows);
    var a, b :| 0 <= a < |ms| && 0 <= b < |ms| && ms[a].npc == ms[b].npc && ms[a].tier.None? && ms[b].tier.Some?;
    CollectMember(es, f, ms[a]);
    CollectMember(es, f, ms[b]);
    var i :| 0 <= i < |es| && f(es[i]) == Some(ms[a]);
    var j :| 0 <= j < |es| && f(es[j]) == Some(ms[b]);
    UnmatchedIff(rows, es[i]);
    UnmatchedIff(rows, es[j]);
    assert MixedAt(es, rows, i, j);
  }

  lemma MixedTiersComplete(cat: seq<Npc>, rows: seq<Row>, i: int, j: int)
    requires MixedAt(Entries(cat), rows, i, j)
    ensures MixedTiers(MissingIn2025(cat, rows))
  {
    var es, f := Entries(cat), MissingFn(RowKeys(rows));
    var ms := MissingIn2025(cat, rows);
    UnmatchedIff(rows, es[i]);
    UnmatchedIff(rows, es[j]);
    CollectMember(es, f, f(es[i]).value);
    CollectMember(es, f, f(es[j]).value);
    var a :| 0 <= a < |ms| && ms[a] == f(es[i]).value;
    var b :| 0 <= b < |ms| && ms[b] == f(es[j]).value;
  }

  /** The sort raises exactly when the database has two quests of one NPC name, both absent
      from questdata2025.json, one with a null tier and one with an integer tier. */
  lemma MixedTiersIff(cat: seq<Npc>, rows: seq<Row>)
    ensures MixedTiers(MissingIn2025(cat, rows)) <==> exists i, j :: MixedAt(Entries(cat), rows, i, j)
  {
    if MixedTiers(MissingIn2025(cat, rows)) {
      MixedTiersSound(cat, rows);
    }
    if exists i, j :: MixedAt(Entries(cat), rows, i, j) {
      var i, j :| MixedAt(Entries(cat), rows, i, j);
      MixedTiersComplete(cat, rows, i, j);
    }
  }

  /** A Prapor quest without a tier (as every imported quest has) next to one of tier 3, with
      neither in questdata2025.json, makes the sort raise. */
  lemma MixedTiersExample()
    ensures var cat := [Npc("prapor", "Prapor", [Quest("a", "A", None, [], [], "", false), Quest("b", "B", Some(3), [], [], "", false)])];
      MixedTiers(MissingIn2025(cat, []))
  {
    var cat := [Npc("prapor", "Prapor", [Quest("a", "A", None, [], [], "", false), Quest("b", "B", Some(3), [], [], "", false)])];
    assert cat[..0] == [];
    assert Entries(cat) == NpcEntries(cat[0]);
    MixedTiersComplete(cat, [], 0, 1);
  }

  // ---------------------------------------------------------------------
  // The whole run
  // ---------------------------------------------------------------------

  datatype Comparison = Comparison(mismatches: seq<Mismatch>, notFound: seq<NotFound>, missing: seq<MissingRow>)

  /** The script: index, compare (stopping at the first null tier), then missing_in_2025,
      whose sort for printing raises on mixed null and integer tiers of one NPC name. */
  method CompareTierFiles(rows: seq<Row>, cat: seq<Npc>) returns (result: Option<Comparison>)
    ensures result.None? <==> Compare(NameIndex(Entries(cat)), rows).None? || MixedTiers(MissingIn2025(cat, rows))
    ensures result.Some? ==>
      var c := Compare(NameIndex(Entries(cat)), rows).value;
      result.value == Comparison(c.0, c.1, MissingIn2025(cat, rows))
  {
    var index := BuildNameIndex(cat);
    var ok, mismatches, notFound := CompareRows(index, rows);
    if !ok {
      return None;
    }
    var missing := FindMissingIn2025(cat, rows);
    if MixedTiers(missing) {
      return None;
    }
    result := Some(Comparison(mismatches, notFound, missing));
  }
}
