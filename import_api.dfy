// import_tarkov_api.py: readable quest ids and the conversion of the
// tarkov.dev task list into the database's format (Prapor's tasks only).
module ImportApi {
  import opened Util
  import opened Catalog

  // ---------------------------------------------------------------------
  // generate_quest_id
  // ---------------------------------------------------------------------

  /** The characters kept by the isalnum-or-underscore filter. */
  predicate IsIdChar(c: char) {
    IsAsciiAlnum(c) || c == '_'
  }

  /** What the readable ids are made of: lower-case ASCII letters, digits and '_'. */
  predicate IsReadableChar(c: char) {
    'a' <= c <= 'z' || IsDigit(c) || c == '_'
  }

  function IdCharFn(): char -> bool {
    c => IsIdChar(c)
  }

  /** Lower-casing followed by the six literal replacements. */
  function Replaced(name: string): string {
    var s := Lower(name);
    var s := Replace(s, " - ", "_");
    var s := Replace(s, " ", "_");
    var s := Replace(s, "'", "");
    var s := Replace(s, "-", "_");
    var s := Replace(s, ":", "");
    Replace(s, ",", "")
  }

  /** The result of `while '__' in s: s = s.replace('__', '_')`. */
  function Collapse(s: string): (r: string)
    ensures !Contains(r, "__")
    decreases |s|
  {
    if Contains(s, "__") then
      ReplaceLength(s, "__", "_");
      Collapse(Replace(s, "__", "_"))
    else s
  }

  /** generate_quest_id as a function of the name. */
  function QuestIdOf(name: string): string {
    if name == "" then "" else StripChar(Collapse(Filter(Replaced(name), IdCharFn())), '_')
  }

  method GenerateQuestId(questName: string) returns (questId: string)
    ensures questId == QuestIdOf(questName)
  {
    if questName == "" {
      return "";
    }
    questId := Filter(Replaced(questName), IdCharFn());
    while Contains(questId, "__")
      invariant Collapse(questId) == Collapse(Filter(Replaced(questName), IdCharFn()))
      decreases |questId|
    {
      ReplaceLength(questId, "__", "_");
      questId := Replace(questId, "__", "_");
    }
    questId := StripChar(questId, '_');
  }

  // ---------------------------------------------------------------------
  // What a readable id looks like
  // ---------------------------------------------------------------------

  predicate NoUpperIn(s: string) {
    forall c :: c in s ==> !IsUpper(c)
  }

  lemma ReplaceNoUpper(s: string, pat: string, rep: string)
    requires pat != [] && NoUpperIn(s) && NoUpperIn(rep)
    ensures NoUpperIn(Replace(s, pat, rep))
  {
    forall c | c in Replace(s, pat, rep) ensures !IsUpper(c) {
      ReplaceChars(s, pat, rep, c);
    }
  }

  lemma ReplacedNoUpper(name: string)
    ensures NoUpperIn(Replaced(name))
  {
    var s0 := Lower(name);
    LowerNoUpper(name);
    ReplaceNoUpper(s0, " - ", "_");
    var s1 := Replace(s0, " - ", "_");
    ReplaceNoUpper(s1, " ", "_");
    var s2 := Replace(s1, " ", "_");
    ReplaceNoUpper(s2, "'", "");
    var s3 := Replace(s2, "'", "");
    ReplaceNoUpper(s3, "-", "_");
    var s4 := Replace(s3, "-", "_");
    ReplaceNoUpper(s4, ":", "");
    var s5 := Replace(s4, ":", "");
    ReplaceNoUpper(s5, ",", "");
  }

  predicate AllReadable(s: string) {
    forall c :: c in s ==> IsReadableChar(c)
  }

  lemma {:induction false} CollapseChars(s: string)
    requires AllReadable(s)
    ensures AllReadable(Collapse(s))
    decreases |s|
  {
    if Contains(s, "__") {
      forall c | c in Replace(s, "__", "_") ensures IsReadableChar(c) {
        ReplaceChars(s, "__", "_", c);
      }
      ReplaceLength(s, "__", "_");
      CollapseChars(Replace(s, "__", "_"));
    }
  }

  lemma NoDoubleSlice(s: string, a: nat, b: nat)
    requires a <= b <= |s| && !Contains(s, "__")
    ensures !Contains(s[a..b], "__")
  {
    forall i | 0 <= i <= |s[a..b]| - 2 ensures !OccursAt(s[a..b], "__", i) {
      assert !OccursAt(s, "__", a + i);
      assert s[a..b][i..i + 2] == s[a + i..a + i + 2];
    }
  }

  /** Stripping '_' keeps a slice and leaves no '_' at either end. */
  lemma StripUnderscore(s: string)
    ensures var r := StripChar(s, '_');
      (exists a, b :: 0 <= a <= b <= |s| && r == s[a..b])
      && (r != [] ==> r[0] != '_' && r[|r| - 1] != '_')
  {
    var t := TrimStart(s, x => x == '_');
    var r := TrimEnd(t, x => x == '_');
    var a := |s| - |t|;
    assert t == s[a..];
    assert r == t[..|r|];
    assert r == s[a..a + |r|];
    if r != [] {
      assert r[0] == t[0];
    }
  }

  /** A readable id is made only of lower-case ASCII letters, digits and '_', has no
      "__", and neither starts nor ends with '_'; an empty name gives the empty id. */
  lemma QuestIdShape(name: string)
    ensures name == "" ==> QuestIdOf(name) == ""
    ensures AllReadable(QuestIdOf(name))
    ensures !Contains(QuestIdOf(name), "__")
    ensures QuestIdOf(name) != [] ==> QuestIdOf(name)[0] != '_' && QuestIdOf(name)[|QuestIdOf(name)| - 1] != '_'
  {
    if name != "" {
      var f := Filter(Replaced(name), IdCharFn());
      FilteredReadable(name);
      CollapseChars(f);
      StripShape(Collapse(f));
    }
  }

  /** The isalnum filter leaves only readable characters, since nothing upper-case is left. */
  lemma FilteredReadable(name: string)
    ensures AllReadable(Filter(Replaced(name), IdCharFn()))
  {
    var f := Filter(Replaced(name), IdCharFn());
    ReplacedNoUpper(name);
    forall c | c in f ensures IsReadableChar(c) {
      var k :| 0 <= k < |f| && f[k] == c;
      assert IdCharFn()(f[k]) && f[k] in Replaced(name);
    }
  }

  /** Stripping '_' from readable text without "__" gives the readable id shape. */
  lemma StripShape(col: string)
    requires AllReadable(col) && !Contains(col, "__")
    ensures var r := StripChar(col, '_');
      AllReadable(r) && !Contains(r, "__") && (r != [] ==> r[0] != '_' && r[|r| - 1] != '_')
  {
    StripUnderscore(col);
    var a, b :| 0 <= a <= b <= |col| && StripChar(col, '_') == col[a..b];
    NoDoubleSlice(col, a, b);
    assert forall c :: c in col[a..b] ==> c in col;
  }

  /** generate_quest_id changes nothing in its own output. */
  lemma QuestIdIdempotent(name: string)
    ensures QuestIdOf(QuestIdOf(name)) == QuestIdOf(name)
  {
    var r := QuestIdOf(name);
    QuestIdShape(name);
    if r != "" {
      ReadableFixed(r);
    }
  }

  /** A non-empty readable id is its own id. */
  lemma ReadableFixed(r: string)
    requires r != [] && AllReadable(r) && !Contains(r, "__") && r[0] != '_' && r[|r| - 1] != '_'
    ensures QuestIdOf(r) == r
  {
    ReplacedReadable(r);
    assert forall k :: 0 <= k < |r| ==> IdCharFn()(r[k]) by {
      forall k | 0 <= k < |r| ensures IdCharFn()(r[k]) {
        assert IsReadableChar(r[k]);
      }
    }
    FilterKeepsAll(r, IdCharFn());
    TrimStartNoop(r, x => x == '_');
    TrimEndNoop(r, x => x == '_');
  }

  lemma LowerReadable(r: string)
    requires AllReadable(r)
    ensures Lower(r) == r
  {
    assert NoUpper(r) by {
      forall i | 0 <= i < |r| ensures !IsUpper(r[i]) {
        assert IsReadableChar(r[i]);
      }
    }
    LowerIdentity(r);
  }

  /** Lower-casing and the six replacements leave readable text alone. */
  lemma ReplacedReadable(r: string)
    requires AllReadable(r)
    ensures Replaced(r) == r
  {
    LowerReadable(r);
    NotContainsChar(r, " - ", ' ');
    ReplaceAbsent(r, " - ", "_");
    NotContainsChar(r, " ", ' ');
    ReplaceAbsent(r, " ", "_");
    NotContainsChar(r, "'", '\'');
    ReplaceAbsent(r, "'", "");
    NotContainsChar(r, "-", '-');
    ReplaceAbsent(r, "-", "_");
    NotContainsChar(r, ":", ':');
    ReplaceAbsent(r, ":", "");
    NotContainsChar(r, ",", ',');
    ReplaceAbsent(r, ",", "");
  }

  lemma {:induction false} FilterKeepsAll(s: string, f: char -> bool)
    requires forall k :: 0 <= k < |s| ==> f(s[k])
    ensures Filter(s, f) == s
    decreases |s|
  {
    if s != [] {
      FilterKeepsAll(s[..|s| - 1], f);
      assert s[..|s| - 1] + [s[|s| - 1]] == s;
    }
  }

  // ---------------------------------------------------------------------
  // convert_to_database_format
  // ---------------------------------------------------------------------

  /** One task of the API answer. A missing "id", "name" or "wikiLink" is the empty
      string; "trader" is the trader's id when present; each task requirement is the
      required task's id, or None when it names no task. */
  datatype ApiTask = ApiTask(
    id: string,
    name: string,
    traderId: Option<string>,
    wikiLink: string,
    kappaRequired: bool,
    taskRequirements: seq<Option<string>>)

  datatype ApiData = ApiData(trader: string, quests: seq<ApiTask>)

  /** The database written by the import: one NPC, version 1.0.0, no update date. */
  datatype Converted = Converted(version: string, lastUpdated: string, npcs: seq<Npc>)

  const PraporApiId := "54cb50c76803fa8b248b4571"

  /** api_id_to_legible_id: every task with a non-empty API id and readable id; a later
      task with the same API id overwrites. */
  function LegibleIds(tasks: seq<ApiTask>): map<string, string> {
    LegibleIdsBy(tasks, QuestIdFn())
  }

  function QuestIdFn(): string -> string {
    name => QuestIdOf(name)
  }

  /** The same map for any way idOf of turning names into ids. */
  function LegibleIdsBy(tasks: seq<ApiTask>, idOf: string -> string): map<string, string>
    decreases |tasks|
  {
    if tasks == [] then map[]
    else
      var t := tasks[|tasks| - 1];
      var m := LegibleIdsBy(tasks[..|tasks| - 1], idOf);
      if t.id != "" && idOf(t.name) != "" then m[t.id := idOf(t.name)] else m
  }

  predicate IsPrapors(t: ApiTask) {
    t.traderId == Some(PraporApiId)
  }

  function PraporFn(): ApiTask -> bool {
    t => IsPrapors(t)
  }

  function PrereqFn(m: map<string, string>): Option<string> -> Option<string> {
    (r: Option<string>) => if r.Some? && r.value in m && m[r.value] != "" then Some(m[r.value]) else None
  }

  /** One converted quest. */
  function ConvertTask(t: ApiTask, m: map<string, string>): Quest {
    Quest(QuestIdOf(t.name), t.name, None, Collect(t.taskRequirements, PrereqFn(m)), [], t.wikiLink, t.kappaRequired)
  }

  function ConvertTasks(ts: seq<ApiTask>, m: map<string, string>): (qs: seq<Quest>)
    ensures |qs| == |ts|
  {
    seq(|ts|, k requires 0 <= k < |ts| => ConvertTask(ts[k], m))
  }

  function Convert(api: Option<ApiData>): Option<Converted> {
    match api
    case None => None
    case Some(d) =>
      var m := LegibleIds(d.quests);
      Some(Converted("1.0.0", "", [Npc("prapor", "Prapor", ConvertTasks(Filter(d.quests, PraporFn()), m))]))
  }

  lemma LegibleIdsStep(tasks: seq<ApiTask>, i: nat, idOf: string -> string)
    requires i < |tasks|
    ensures var t := tasks[i];
      LegibleIdsBy(tasks[..i + 1], idOf) ==
        if t.id != "" && idOf(t.name) != "" then LegibleIdsBy(tasks[..i], idOf)[t.id := idOf(t.name)]
        else LegibleIdsBy(tasks[..i], idOf)
  {
    assert tasks[..i + 1][..i] == tasks[..i];
  }

  method BuildLegibleIds(tasks: seq<ApiTask>) returns (m: map<string, string>)
    ensures m == LegibleIds(tasks)
  {
    m := map[];
    for i := 0 to |tasks|
      invariant m == LegibleIdsBy(tasks[..i], QuestIdFn())
    {
      LegibleIdsStep(tasks, i, QuestIdFn());
      var legible := GenerateQuestId(tasks[i].name);
      if tasks[i].id != "" && legible != "" {
        m := m[tasks[i].id := legible];
      }
    }
    assert tasks[..|tasks|] == tasks;
  }

  method ConvertPrereqs(reqs: seq<Option<string>>, m: map<string, string>) returns (prereqs: seq<string>)
    ensures prereqs == Collect(reqs, PrereqFn(m))
  {
    prereqs := [];
    for j := 0 to |reqs|
      invariant prereqs == Collect(reqs[..j], PrereqFn(m))
    {
      CollectSnoc(reqs, j, PrereqFn(m));
      if reqs[j].Some? {
        var apiPrereqId := reqs[j].value;
        if apiPrereqId in m && m[apiPrereqId] != "" {
          prereqs := prereqs + [m[apiPrereqId]];
        }
      }
    }
    assert reqs[..|reqs|] == reqs;
  }

  method ConvertOne(t: ApiTask, m: map<string, string>) returns (q: Quest)
    ensures q == ConvertTask(t, m)
  {
    var legible := GenerateQuestId(t.name);
    var prereqs := ConvertPrereqs(t.taskRequirements, m);
    q := Quest(legible, t.name, None, prereqs, [], t.wikiLink, t.kappaRequired);
  }

  method FilterPrapor(quests: seq<ApiTask>) returns (praporQuests: seq<ApiTask>)
    ensures praporQuests == Filter(quests, PraporFn())
  {
    praporQuests := [];
    for i := 0 to |quests|
      invariant praporQuests == Filter(quests[..i], PraporFn())
    {
      assert quests[..i + 1][..i] == quests[..i];
      if quests[i].traderId == Some(PraporApiId) {
        praporQuests := praporQuests + [quests[i]];
      }
    }
    assert quests[..|quests|] == quests;
  }

  method ConvertToDatabaseFormat(api: Option<ApiData>) returns (out: Option<Converted>)
    ensures out == Convert(api)
  {
    if api.None? {
      return None;
    }
    var quests := api.value.quests;
    var m := BuildLegibleIds(quests);
    var praporQuests := FilterPrapor(quests);
    var converted: seq<Quest> := [];
    for i := 0 to |praporQuests|
      invariant |converted| == i
      invariant forall k :: 0 <= k < i ==> converted[k] == ConvertTask(praporQuests[k], m)
    {
      var q := ConvertOne(praporQuests[i], m);
      converted := converted + [q];
    }
    assert converted == ConvertTasks(praporQuests, m);
    return Some(Converted("1.0.0", "", [Npc("prapor", "Prapor", converted)]));
  }

  // ---------------------------------------------------------------------
  // What the conversion gives
  // ---------------------------------------------------------------------

  /** The map holds exactly the tasks with a non-empty API id and readable id, each API
      id mapped to the readable id of the last such task carrying it. */
  lemma LegibleIdsMeaning(tasks: seq<ApiTask>, idOf: string -> string, x: string)
    ensures x in LegibleIdsBy(tasks, idOf) <==>
      exists k :: 0 <= k < |tasks| && tasks[k].id == x && x != "" && idOf(tasks[k].name) != ""
    ensures x in LegibleIdsBy(tasks, idOf) ==>
      exists k :: (0 <= k < |tasks| && tasks[k].id == x && LegibleIdsBy(tasks, idOf)[x] == idOf(tasks[k].name)
        && LegibleIdsBy(tasks, idOf)[x] != ""
        && forall k' :: k < k' < |tasks| ==> tasks[k'].id != x || idOf(tasks[k'].name) == "")
  {
    LegibleIdsKeys(tasks, idOf, x);
    if x in LegibleIdsBy(tasks, idOf) {
      assert x != "";
      LegibleIdsLast(tasks, idOf, x);
    }
  }

  lemma {:induction false} LegibleIdsKeys(tasks: seq<ApiTask>, idOf: string -> string, x: string)
    ensures x in LegibleIdsBy(tasks, idOf) <==>
      exists k :: 0 <= k < |tasks| && tasks[k].id == x && x != "" && idOf(tasks[k].name) != ""
    decreases |tasks|
  {
    if tasks != [] {
      var p := tasks[..|tasks| - 1];
      LegibleIdsKeys(p, idOf, x);
      if exists k :: 0 <= k < |p| && p[k].id == x && x != "" && idOf(p[k].name) != "" {
        var k :| 0 <= k < |p| && p[k].id == x && x != "" && idOf(p[k].name) != "";
        assert tasks[k] == p[k];
      }
      if exists k :: 0 <= k < |tasks| && tasks[k].id == x && x != "" && idOf(tasks[k].name) != "" {
        var k :| 0 <= k < |tasks| && tasks[k].id == x && x != "" && idOf(tasks[k].name) != "";
        if k < |p| { assert p[k] == tasks[k]; }
      }
    }
  }

  lemma {:induction false} LegibleIdsLast(tasks: seq<ApiTask>, idOf: string -> string, x: string)
    requires x in LegibleIdsBy(tasks, idOf) && x != ""
    ensures exists k :: LastLegible(tasks, idOf, x, k)
    decreases |tasks|
  {
    var p := tasks[..|tasks| - 1];
    var t := tasks[|tasks| - 1];
    if t.id == x && idOf(t.name) != "" {
      assert LastLegible(tasks, idOf, x, |tasks| - 1);
    } else {
      LegibleIdsLast(p, idOf, x);
      assert LegibleIdsBy(tasks, idOf)[x] == LegibleIdsBy(p, idOf)[x];
      var k :| LastLegible(p, idOf, x, k);
      assert tasks[k] == p[k];
      forall k' | k < k' < |tasks| ensures tasks[k'].id != x || idOf(tasks[k'].name) == "" {
        if k' < |p| { assert tasks[k'] == p[k']; }
      }
      assert LastLegible(tasks, idOf, x, k);
    }
  }

  /** Task k carries x, gives the mapped readable id, and no later task overrides it. */
  predicate LastLegible(tasks: seq<ApiTask>, idOf: string -> string, x: string, k: int)
    requires x in LegibleIdsBy(tasks, idOf)
  {
    0 <= k < |tasks| && tasks[k].id == x && LegibleIdsBy(tasks, idOf)[x] == idOf(tasks[k].name)
    && LegibleIdsBy(tasks, idOf)[x] != ""
    && forall k' :: k < k' < |tasks| ==> tasks[k'].id != x || idOf(tasks[k'].name) == ""
  }

  /** No task (api == None) gives no database. Otherwise the database has exactly one NPC,
      "prapor" named "Prapor", whose quests are Prapor's tasks in input order, each with its
      readable id, its name, no tier, no external prerequisites, its wiki link and kappa flag. */
  lemma ConvertMeaning(api: Option<ApiData>)
    ensures api.None? <==> Convert(api).None?
    ensures api.Some? ==>
      var out := Convert(api).value;
      var ts := Filter(api.value.quests, PraporFn());
      out.version == "1.0.0" && |out.npcs| == 1 && out.npcs[0].key == "prapor" && out.npcs[0].name == "Prapor"
      && |out.npcs[0].quests| == |ts|
      && (forall k :: 0 <= k < |ts| ==>
           var q := out.npcs[0].quests[k];
           IsPrapors(ts[k]) && q.id == QuestIdOf(ts[k].name) && q.name == ts[k].name && q.tier.None?
           && q.prerequisitesExternal == [] && q.wikiUrl == ts[k].wikiLink && q.kappaRequired == ts[k].kappaRequired)
  {
  }

  /** Prapor's tasks are exactly the input tasks whose trader id is Prapor's. */
  lemma PraporTasksMember(tasks: seq<ApiTask>, t: ApiTask)
    ensures t in Filter(tasks, PraporFn()) <==> t in tasks && t.traderId == Some(PraporApiId)
  {
    FilterMember(tasks, PraporFn(), t);
  }

  /** Each prerequisite is the readable id of the last input task, of any trader, carrying
      a required API id; requirements without such a task are dropped. */
  lemma PrereqsMeaning(tasks: seq<ApiTask>, reqs: seq<Option<string>>, p: string)
    ensures p in Collect(reqs, PrereqFn(LegibleIds(tasks))) <==>
      exists j :: 0 <= j < |reqs| && reqs[j].Some? && reqs[j].value in LegibleIds(tasks)
        && LegibleIds(tasks)[reqs[j].value] == p
    ensures p in Collect(reqs, PrereqFn(LegibleIds(tasks))) ==>
      exists k :: 0 <= k < |tasks| && tasks[k].id != "" && p == QuestIdOf(tasks[k].name) && p != ""
  {
    PrereqsMeaningBy(tasks, QuestIdFn(), reqs, p);
  }

  lemma PrereqsMeaningBy(tasks: seq<ApiTask>, idOf: string -> string, reqs: seq<Option<string>>, p: string)
    ensures p in Collect(reqs, PrereqFn(LegibleIdsBy(tasks, idOf))) <==>
      exists j :: 0 <= j < |reqs| && reqs[j].Some? && reqs[j].value in LegibleIdsBy(tasks, idOf)
        && LegibleIdsBy(tasks, idOf)[reqs[j].value] == p
    ensures p in Collect(reqs, PrereqFn(LegibleIdsBy(tasks, idOf))) ==>
      exists k :: 0 <= k < |tasks| && tasks[k].id != "" && p == idOf(tasks[k].name) && p != ""
  {
    var m := LegibleIdsBy(tasks, idOf);
    CollectMember(reqs, PrereqFn(m), p);
    if p in Collect(reqs, PrereqFn(m)) {
      var j :| 0 <= j < |reqs| && PrereqFn(m)(reqs[j]) == Some(p);
      LegibleIdsMeaning(tasks, idOf, reqs[j].value);
    } else {
      forall j | 0 <= j < |reqs| && reqs[j].Some? && reqs[j].value in m
        ensures m[reqs[j].value] != p
      {
        LegibleIdsMeaning(tasks, idOf, reqs[j].value);
        assert PrereqFn(m)(reqs[j]) != Some(p);
      }
    }
  }
}
