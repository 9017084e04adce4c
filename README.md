# RoadToKappa quest tracker — a Dafny model

RoadToKappa tracks a player's progress through the Escape from Tarkov quest chains that
lead to the Kappa container. The catalog is a JSON file: one entry per NPC (trader), each
holding that NPC's quests. A quest has an id, a name, a tier, the ids of its prerequisites
under the same NPC and under other NPCs (`prerequisitesExternal`), a wiki link and a
Kappa flag. The browser page (`app.js`) keeps a completed list and a stored current quest per
NPC, and from them shows the last completed quest, the current one, the next one and the
status of every quest. About twenty maintenance scripts check and repair the catalog: they
validate prerequisites and detect cycles, simulate which quests can ever be reached,
suggest and apply missing "Part N" links, rebuild or fix wiki links, move quests between
NPCs, import quests from the tarkov.dev API, compare the catalog with the 2025 tier list,
and bump the version.

The model has one module per component:

| module | file | models |
|---|---|---|
| `Util` | util.dfy | the Python and JavaScript string primitives the scripts rely on (`str.replace`, `strip`, `lower`, `split`/`join`, `int()`, `str()`, `urllib.parse.quote`, `dict.fromkeys`), and filtering/collecting over sequences |
| `Catalog` | catalog.dfy | quests, NPCs, the flattened NPC/quest visiting order, the id index, and the mutable database the in-place scripts rewrite |
| `Tracker` | tracker.dfy | `app.js`: the quest finders, the status list, and the page state as a class |
| `PrereqRules` | prereq_rules.dfy | the prerequisite classification shared by the validators |
| `ValidatePrerequisites` | validate_prerequisites.dfy | `validate_prerequisites.py`, including the cycle search |
| `Simulate` | simulate.dfy | `simulate_quest_availability.py` |
| `Therapist` | therapist.dfy | `check_therapist_quests.py` |
| `CheckAll` | check_all.dfy | `check_all_prerequisites.py` |
| `Patterns` | patterns.dfy | the "Part N" regular expressions of the fixing scripts |
| `Fixes` | fixes.dfy | the fix records and their application, shared by the two auto-fixers |
| `AutoFix` | auto_fix.dfy | `auto_fix_prerequisites.py` |
| `FixAll` | fix_all.dfy | `fix_all_prerequisites.py` |
| `FindMissing` | find_missing.dfy | `find_missing_prerequisites.py` |
| `ImportApi` | import_api.dfy | `import_tarkov_api.py` |
| `NpcAssign` | npc_assign.dfy | `fix_npc_assignments.py` |
| `Version` | version.dfy | `update_version.py` and `check_new_branch.py` |
| `Sorting`, `Grouping` | sorting.dfy, grouping.dfy | Python's stable `sorted` and dictionary-of-lists grouping |
| `QuestOrder` | quest_order.dfy | `validate_quest_order.py` |
| `NpcOrder` | check_npc_order.dfy | `check_npc_order.py` |
| `CompareTiers` | compare_tiers.dfy | `compare_tiers.py` |
| `UrlRewrite` | url_rewrite.dfy | the rewrite-every-link loop shared by the two link fixers |
| `FixWikiLinks` | fix_wiki_links.dfy | `fix_wiki_links.py` |
| `ValidateLinks` | validate_links.dfy | `validate_links.py` (its pure part) |
| `FixCapitalization` | fix_capitalization.dfy | `fix_capitalization.py` |
| `ProblemLinks` | find_problematic_links.dfy | `find_problematic_links.py` |
| `NpcNames` | npc_names.dfy | `normalize_npc_name` of `validate_npcs.py` |

Python dictionaries keep insertion order. The model therefore writes the catalog as a
sequence of NPCs in file order, and a dictionary of lists as a sequence of (key, list)
pairs in order of first insertion. Where a script walks every quest of every NPC in two
nested loops, the model walks `Catalog.Entries`, which lists the same (NPC, quest) pairs
in the same order. A missing optional field becomes `None`, or the empty string for a
missing id. Methods with loops are proved equal to specification functions, and the
properties are lemmas about those functions.

## Model

| member | source | states |
|---|---|---|
| Tracker.FindById | app.js:110 | `quests.find` by id: a quest with that id, and the first such in list order; `None` exactly when no quest has the id |
| Tracker.LastCompletedIsFirstMaximum | app.js:100-118 | the last completed quest is `null` for an empty completed list; otherwise it is a quest of the NPC named by a completed id, its tier (null counting as 0) is at least that of every other completed quest, and it is the first in completed order to reach that tier; `null` only when no completed tier exceeds -1 |
| Tracker.LastScanBound | app.js:106-115 | after the scan, `highestTier` is -1 exactly when no quest was chosen, equals the chosen quest's tier otherwise, and bounds the tier of every completed quest found |
| Tracker.LastScanWitness | app.js:109-115 | the chosen quest is named by a completed id, and every earlier completed quest has a strictly lower tier |
| Tracker.FindLastCompletedQuest | app.js:100-118 | the `forEach` loop returns exactly the specified last completed quest |
| Tracker.FirstAvailable | app.js:133-149 | the first quest in catalog order that is not completed and whose internal prerequisites are all completed; `None` exactly when no such quest exists |
| Tracker.CurrentQuestChoice | app.js:121-150 | a truthy stored current id naming an uncompleted quest of the NPC wins, even if its prerequisites are not done; otherwise the first available quest is current |
| Tracker.CurrentQuestNotCompleted | app.js:121-150 | the current quest belongs to the NPC and is never a completed one |
| Tracker.FindFirstAvailable | app.js:133-149 | the loop with its early return computes `FirstAvailable` |
| Tracker.FindCurrentQuest | app.js:121-150 | `findCurrentQuest` computes `CurrentQuest` |
| Tracker.FirstMinTier | app.js:167 | the first element of the stable tier sort: its tier (null as 0) is minimal, and every earlier quest has a strictly greater tier |
| Tracker.NextQuestChoice | app.js:153-186 | with dependents, the next quest is an uncompleted quest of the NPC listing the current one as a prerequisite and has the least tier among all such, every such quest listed before it having a greater tier; with none, it is the first quest available once the current one is also counted as done |
| Tracker.FindNextQuest | app.js:153-186 | `findNextQuest` computes `NextQuest`, `null` without a current quest |
| Tracker.StatusMeaning | app.js:270-298 | each status's meaning: completed when the id is in the completed list; current exactly for the id of `findCurrentQuest`; available for an uncompleted, non-current quest whose prerequisites are all completed; locked otherwise |
| Tracker.StatusConsistent | app.js:270-298 | the current quest is shown as current, and a quest shown as available implies there is a current quest |
| Tracker.AfterComplete | app.js:225-235 | without a current quest nothing changes; otherwise the current quest's id (not yet completed) is appended and the stored current is cleared |
| Tracker.CompleteGrowsByOne | app.js:229-232 | completing keeps the old completed list as a prefix, adds at most one id and keeps the list free of duplicates |
| Tracker.Tracker.constructor | app.js:7-13 | the page starts with the loaded catalog, the saved progress and no selected NPC |
| Tracker.Tracker.SelectNpc | app.js:46-63 | the NPC becomes selected; an existing record is kept, a missing one is created empty |
| Tracker.Tracker.CompleteCurrentQuest | app.js:219-239 | with no selected NPC or no current quest the progress is unchanged; otherwise the selected NPC's record becomes `AfterComplete` of it and nothing else changes |
| Tracker.Tracker.ResetProgress | app.js:247-256 | only a confirmed reset with a selected NPC replaces that NPC's record by the empty one |
| Tracker.Tracker.QuestStatuses | app.js:259-316 | no list without a selected NPC; otherwise one status per quest, in list order, each the specified `StatusOf` |
| Catalog.IdIndexKeys | validate_prerequisites.py:31-36 | `quest_by_id` holds an id exactly when it is truthy and some quest carries it |
| Catalog.IdIndexLast | validate_prerequisites.py:31-36 | the indexed value of an id is its last carrier in visiting order, with that carrier's NPC (a later duplicate overwrites) |
| Catalog.IdIndexSound | validate_prerequisites.py:31-36 | every indexed value is an entry of the catalog stored under its own id |
| Catalog.NoPrereqsIff | validate_prerequisites.py:155 | a quest has no prerequisites exactly when both lists are empty |
| Catalog.NpcByKey | check_therapist_quests.py:80 | `data['npcs'][key]`: `None` exactly when no NPC has the key, otherwise an NPC of the catalog with it |
| PrereqRules.ClassifyMeaning | validate_prerequisites.py:52-96 | a prerequisite id is reported missing exactly when it is not indexed, misplaced exactly when it is indexed under another NPC while listed internally or under the same NPC while listed externally, and otherwise not reported; a report carries the quest's id, name, NPC name, the id and the list it came from |
| PrereqRules.FindingsComplete | validate_prerequisites.py:45-96 | every problem of an asked-for kind, of any quest and either list, is reported |
| PrereqRules.FindingsSound | validate_prerequisites.py:45-96 | every report is of an asked-for kind and is the verdict on an id some quest lists |
| PrereqRules.FindingsSplit | check_all_prerequisites.py:27-92 | selecting one kind from the reports of both kinds gives exactly the reports of that kind, in the same order |
| PrereqRules.NoMissingIff | validate_prerequisites.py:40-98 | there is no error exactly when every listed prerequisite id of every quest is indexed |
| ValidatePrerequisites.NpcIndexKeys | validate_prerequisites.py:29-36 | `quest_by_npc` holds an NPC exactly when one of its quests has a truthy id, and under it exactly the truthy ids of its quests |
| ValidatePrerequisites.BuildQuestIndex | validate_prerequisites.py:26-38 | the loop builds both indexes as specified |
| ValidatePrerequisites.CheckList | validate_prerequisites.py:52-72 | one list's loop appends its missing ids to the errors and its misplaced ids to the warnings, in list order |
| ValidatePrerequisites.ValidatePrerequisiteIds | validate_prerequisites.py:40-98 | the errors are all missing-kind reports and the warnings all misplaced-kind reports, in visiting order, internal list before external |
| ValidatePrerequisites.ErrorIffUnindexed | validate_prerequisites.py:52-61 | an error is reported for a listed prerequisite id exactly when the id is not indexed |
| ValidatePrerequisites.WarningIffMisplaced | validate_prerequisites.py:62-96 | a warning exists exactly when some quest lists an indexed id in the list its owner's NPC does not call for, and carries that owner |
| ValidatePrerequisites.CycleFromPath | validate_prerequisites.py:126-130 | cutting the path at the first occurrence of the revisited id and closing it gives a cycle |
| ValidatePrerequisites.CycleSearch.constructor | validate_prerequisites.py:137-140 | the search starts with nothing visited, an empty stack and path and no cycles |
| ValidatePrerequisites.CycleSearch.HasCycle | validate_prerequisites.py:104-135 | the search keeps the stack on the path, the path a walk along prerequisite edges and every recorded cycle a cycle; the id becomes visited; without a cycle the path, stack and cycles come back unchanged; with one exactly one cycle is appended |
| ValidatePrerequisites.TruthyIdsMember | validate_prerequisites.py:138 | the search roots are the truthy ids carried by some quest |
| ValidatePrerequisites.RootOrderIsKeys | validate_prerequisites.py:138-140 | the search roots are exactly the keys of `quest_by_id`, each once |
| ValidatePrerequisites.DetectCircularDependencies | validate_prerequisites.py:100-142 | every reported cycle starts and ends at the same id and follows prerequisite edges between indexed quests; at most one cycle per root; an acyclic catalog reports none |
| ValidatePrerequisites.DanglingMember | validate_prerequisites.py:158 | the invalid list holds exactly the listed prerequisite ids that are not indexed |
| ValidatePrerequisites.FindOrphanQuests | validate_prerequisites.py:144-168 | the orphan list is always empty: its invalid ids are taken from lists already known to be empty |
| ValidatePrerequisites.FindBlockedQuests | validate_prerequisites.py:170-193 | the loop computes the blocked rows in visiting order |
| ValidatePrerequisites.BlockedIff | validate_prerequisites.py:170-193 | a quest is listed exactly when one of its prerequisite ids is unindexed; each row lists exactly its unindexed ids, in order, beside the whole list |
| ValidatePrerequisites.VerdictMeaning | validate_prerequisites.py:208-224 | a quest is blocked exactly when one of its ids is dangling, with exactly those ids, and free exactly when it has no prerequisites |
| ValidatePrerequisites.AnalyzeQuestAvailability | validate_prerequisites.py:195-226 | the loop computes the available and blocked-by-missing lists |
| ValidatePrerequisites.MissingRowsMatchBlocked | validate_prerequisites.py:170-226 | `blocked_by_missing` and `find_blocked_quests` list the same quests in the same order with the same missing ids |
| ValidatePrerequisites.ExitCode | validate_prerequisites.py:376-385 | the exit status is 0 or 1 |
| ValidatePrerequisites.ExitCodeIff | validate_prerequisites.py:376-385 | the validator exits with 1 exactly when some quest lists an unindexed prerequisite id; warnings do not fail it |
| Simulate.AreAllPrerequisitesMet | simulate_quest_availability.py:31-50 | the early-return scan answers `AllMet`: every prerequisite, internal or external, is indexed and completed |
| Simulate.AllMetMeaning | simulate_quest_availability.py:31-50 | a quest without prerequisites is always met; otherwise met exactly when every listed id is indexed and completed |
| Simulate.MissingListMember | simulate_quest_availability.py:86-97 | an id is listed as missing exactly when it is a prerequisite, uncompleted and indexed, and its row carries the indexed name and owning NPC; a dangling id is silently skipped |
| Simulate.OutcomeMeaning | simulate_quest_availability.py:62-103 | a quest is available exactly when it is uncompleted and met, locked exactly when it is not met (completed or not), never both; an available row's reason says whether it had prerequisites |
| Simulate.GroupByNpcMember | simulate_quest_availability.py:58-59 | the `defaultdict(list)` groups: an NPC has a group exactly when one of its quests produced a row, and its group holds exactly those rows |
| Simulate.SimulateQuestAvailability | simulate_quest_availability.py:52-105 | the single pass computes both groupings against the initial completed set, which it never extends |
| Simulate.MissingRows | simulate_quest_availability.py:87-97 | the loop computes the missing list |
| Simulate.SimulationRows | simulate_quest_availability.py:62-103 | each uncompleted met quest is listed as available under its NPC, each unmet quest as locked |
| Simulate.SimulationRowsSound | simulate_quest_availability.py:62-103 | every available row comes from an uncompleted met quest of that NPC, every locked row from an unmet quest of that NPC with its missing list |
| Simulate.LockedWithNothingMissing | simulate_quest_availability.py:89-103 | a quest whose only prerequisite is dangling is locked with an empty missing list |
| Therapist.CheckAvailability | check_therapist_quests.py:22-39 | the loop computes `check_availability`'s pair |
| Therapist.MessagesEmptyIff | check_therapist_quests.py:31-39 | nothing is missing exactly when every prerequisite is indexed and completed |
| Therapist.MessagesCount | check_therapist_quests.py:31-39 | one message per prerequisite that is unindexed or uncompleted, and an unindexed id is reported as `NAO EXISTE` |
| Therapist.AvailabilityMeaning | check_therapist_quests.py:22-39 | no prerequisites means available with nothing missing; in general available exactly when nothing is missing |
| Therapist.AgreesWithSimulator | check_therapist_quests.py:22-39 | this availability test and the simulator's `are_all_prerequisites_met` agree on every quest (simulate_quest_availability.py:31-50) |
| Therapist.KappaShouldBeAvailable | check_therapist_quests.py:80-116 | no listing when the catalog has no Therapist entry (the lookup raises); otherwise the listing of its kappa quests |
| Therapist.ListingIff | check_therapist_quests.py:106-116 | a quest is listed exactly when it is kappa-required, available for the active ids and not active itself |
| CheckAll.FullNpcIndexKeys | check_all_prerequisites.py:17-18 | every NPC key gets an inner map, with quests or not, and nothing else does |
| CheckAll.NpcQuestMapKeys | check_all_prerequisites.py:19-23 | an id is in an NPC's inner map exactly when it is truthy and one of that NPC's quests carries it |
| CheckAll.BuildStep | check_all_prerequisites.py:19-23 | one quest step updates both indexes only for a truthy id |
| CheckAll.BuildIndex | check_all_prerequisites.py:12-25 | the loop builds `quest_by_id` (as in the validator) and the full per-NPC index |
| CheckAll.CheckQuest | check_all_prerequisites.py:40-90 | one quest's problems: its internal list, then its external list, both kinds |
| CheckAll.CheckAllQuests | check_all_prerequisites.py:27-92 | the problems are every missing and every misplaced prerequisite, quest by quest in visiting order |
| CheckAll.AgreesWithValidator | check_all_prerequisites.py:111-112 | the `missing_id` problems are exactly the validator's errors and the `wrong_location` problems exactly its warnings, in the same order (validate_prerequisites.py:40-98) |
| CheckAll.ExitCode | check_all_prerequisites.py:107-138 | the exit status is 0 or 1 |
| CheckAll.ExitCodeIff | check_all_prerequisites.py:107-138 | the check exits with 1 exactly when some prerequisite is missing or misplaced |
| Patterns.PartAtIff | auto_fix_prerequisites.py:50 | the anchored matcher for `part\s+\d` succeeds exactly where `part` (any case), at least one whitespace and a digit follow |
| Patterns.MatchAtNeedsPart | auto_fix_prerequisites.py:33-34 | a `\s*…part\s+\d+.*` match needs a `part\s+\d` occurrence at or after its start |
| Patterns.PartNumberMatches | auto_fix_prerequisites.py:34 | where `part\s+\d` occurs, the `\s*part\s+\d+.*` pattern matches |
| Patterns.FirstMatch | auto_fix_prerequisites.py:33-34 | the leftmost start at which the pattern matches; `None` exactly when it matches nowhere |
| Patterns.SubNoMatch | auto_fix_prerequisites.py:33-34 | `re.sub` without a match leaves the name unchanged |
| Patterns.SubOneLine | auto_fix_prerequisites.py:33-34 | on a one-line name `re.sub` cuts the name at the leftmost match, because `.*` runs to the end |
| Patterns.GroupAt | auto_fix_prerequisites.py:50-52 | `match.group(1)`: the non-empty, longest digit run after `part` and its whitespace |
| Patterns.SearchPartNumber | auto_fix_prerequisites.py:50-52 | `re.search(r'part\s+(\d+)')` with `int(group(1))`: a number exactly when `part\s+\d` occurs somewhere, and then the value of the digits at the leftmost occurrence |
| Patterns.SubPartNumberClean | auto_fix_prerequisites.py:34 | after the second substitution a one-line name has no `part\s+\d` left |
| Patterns.NormalizeQuestNameMeaning | auto_fix_prerequisites.py:30-35 | the normalised base of a one-line name has no upper case, no outer whitespace, no newline and no `part <number>` |
| Patterns.NormalizeFixed | auto_fix_prerequisites.py:30-35 | a lower-case, stripped name without `part <number>` normalises to itself |
| Patterns.NormalizeIdempotent | auto_fix_prerequisites.py:30-35 | normalising a one-line name twice gives the same as once |
| Fixes.NpcNamed | auto_fix_prerequisites.py:150-154 | the first NPC in file order whose display name is the fix's NPC name; `None` exactly when no NPC has it |
| Fixes.QuestWithId | auto_fix_prerequisites.py:160-161 | the first quest of the list with the fix's id; `None` exactly when none has it |
| Fixes.Target | auto_fix_prerequisites.py:150-161 | the NPC and quest position a fix edits lie inside the catalog |
| Fixes.ApplyFix | auto_fix_prerequisites.py:150-176 | one fix, in place: the database becomes `AfterFix`; it appends exactly when the NPC and quest are found and the id is not yet in the chosen list; it is skipped exactly when no NPC has that name or the one found has an empty key |
| Fixes.GrowsTrans | auto_fix_prerequisites.py:149-176 | fixes only ever add ids to prerequisite lists, and that relation composes |
| Fixes.TargetSame | auto_fix_prerequisites.py:150-161 | adding ids never changes which NPC and quest a fix targets, or whether it is skipped |
| Fixes.AfterFixMeaning | auto_fix_prerequisites.py:160-176 | the target list gains exactly the id, at its end, when the fix appends; the other list, the other quests and the other NPCs are unchanged; otherwise nothing changes; afterwards the id is present |
| Fixes.AfterFixesGrows | auto_fix_prerequisites.py:149-176 | a batch of fixes only adds ids |
| Fixes.AfterFixesPresent | auto_fix_prerequisites.py:149-176 | after a batch every fix of it is present |
| Fixes.AfterFixesNoop | auto_fix_prerequisites.py:163-170 | a batch whose ids are all present already changes nothing and appends nothing |
| Fixes.AfterFixesIdempotent | auto_fix_prerequisites.py:149-176 | applying a batch a second time changes nothing and appends nothing |
| Fixes.SkippedCountMeaning | auto_fix_prerequisites.py:150-158 | the skipped count is the number of fixes that are skipped on the original database: no NPC has the name, or the NPC found has an empty key |
| Fixes.AfterFixCount | auto_fix_prerequisites.py:166-174 | one fix adds one stored prerequisite id when it appends and none otherwise |
| Fixes.AppliedCountMeaning | auto_fix_prerequisites.py:139-178 | `applied` equals the number of prerequisite ids the batch added to the database |
| Fixes.AfterFixNoDuplicates | auto_fix_prerequisites.py:163-173 | appending only absent ids keeps every list free of repeats |
| AutoFix.KeyedIndexKeys | auto_fix_prerequisites.py:18-26 | a name key is indexed exactly when some quest with a truthy id has it |
| AutoFix.KeyedIndexLast | auto_fix_prerequisites.py:18-26 | the indexed value is the last such quest, with its NPC and id |
| AutoFix.BuildIndex | auto_fix_prerequisites.py:14-28 | the loop builds `quest_by_id` and `quest_name_to_id` (name lower-cased and stripped) |
| AutoFix.FirstAcceptable | auto_fix_prerequisites.py:67-88 | the first spelling that names an indexed quest not yet a prerequisite; `None` exactly when there is none |
| AutoFix.SearchBack | auto_fix_prerequisites.py:58-91 | the part found lies between 1 and the previous part and has an acceptable spelling |
| AutoFix.FindPrevious | auto_fix_prerequisites.py:58-91 | the loop over `range(part_num - 1, 0, -1)` with its two breaks computes `SearchBack` |
| AutoFix.SuggestFor | auto_fix_prerequisites.py:51-88 | one quest's step computes its suggestion |
| AutoFix.FindMissingPartPrerequisites | auto_fix_prerequisites.py:37-93 | the suggestions of all quests in visiting order |
| AutoFix.PartFixFromMeaning | auto_fix_prerequisites.py:50-88 | a fix is suggested exactly when the name has part n > 1 and some part k < n has an acceptable spelling; the fix is for the largest such k, adds an id the quest does not list, names that quest, goes to the external list exactly when it belongs to another NPC, and gives the reason `Part n … Part k` |
| AutoFix.PartFixMeaning | auto_fix_prerequisites.py:50-55 | the part number and base come from the quest's own name: a fix needs a part number above 1 |
| AutoFix.SearchBackMeaning | auto_fix_prerequisites.py:58-91 | the search succeeds exactly when some part from 1 to the previous one has an acceptable spelling, and it returns the highest such part |
| AutoFix.PartFixesMeaning | auto_fix_prerequisites.py:37-93 | every suggestion comes from one quest, and there are at most as many as quests |
| AutoFix.FindQuestsReferencedButNoPrereq | auto_fix_prerequisites.py:95-135 | the referenced-by scan never suggests anything |
| AutoFix.DedupFixesMeaning | auto_fix_prerequisites.py:142-147 | the kept fixes carry exactly the distinct keys in first-occurrence order, each the first fix with its key |
| AutoFix.AfterFixesSnoc | auto_fix_prerequisites.py:149-176 | one more fix extends the database and both counts step by step |
| AutoFix.ApplyFixes | auto_fix_prerequisites.py:137-178 | `apply_fixes` in place: the database becomes the de-duplicated fixes applied in order, `applied` counts the appends and `skipped` the fixes with no NPC |
| AutoFix.ApplyFixesIdempotent | auto_fix_prerequisites.py:137-178 | running `apply_fixes` again on its own output appends nothing and changes nothing |
| FixAll.BuildIndex | fix_all_prerequisites.py:14-26 | the loop builds `quest_by_id` and `quest_by_name` (lower-cased, unstripped names) |
| FixAll.FirstWhere | fix_all_prerequisites.py:56-73 | the first quest of a list passing the test; `None` exactly when none does |
| FixAll.FirstElsewhere | fix_all_prerequisites.py:79-100 | the first passing quest over the NPCs other than the quest's own, in file order; `None` exactly when there is none |
| FixAll.LatestMeaning | fix_all_prerequisites.py:50-102 | the backwards search returns the suggestion of the highest part that has one, and nothing exactly when no part has one |
| FixAll.FindFirstWhere | fix_all_prerequisites.py:56-73 | the loop with its break computes `FirstWhere` |
| FixAll.FirstWhereIs | fix_all_prerequisites.py:56-73 | a passing quest with no passing quest before it is the one found |
| FixAll.FirstWhereNone | fix_all_prerequisites.py:56-73 | with no passing quest nothing is found |
| FixAll.FindElsewhere | fix_all_prerequisites.py:79-100 | the nested loops over the other NPCs compute `FirstElsewhere` |
| FixAll.FindHit | fix_all_prerequisites.py:51-100 | one previous part: the NPC's own candidate first, then the other NPCs' |
| FixAll.FindPrevious | fix_all_prerequisites.py:50-102 | the loop over `range(part_num - 1, 0, -1)` computes `SearchBack` |
| FixAll.SuggestFor | fix_all_prerequisites.py:41-102 | one quest's suggestion, from its part number and base name |
| FixAll.NpcFixes | fix_all_prerequisites.py:33-102 | the suggestions for one NPC's quests, in list order |
| FixAll.FindPartQuestsMissingPrereqs | fix_all_prerequisites.py:28-104 | the loops compute all suggestions, NPC by NPC and quest by quest |
| FixAll.HitMeaning | fix_all_prerequisites.py:51-100 | a part has a suggestion exactly when one of the NPC's quests or one of another NPC's quests is a candidate; an own candidate wins and goes to the internal list, otherwise the first other candidate goes to the external list; the added id is never already listed by the quest, and the reason names both parts |
| FixAll.SearchBackMeaning | fix_all_prerequisites.py:50-102 | nothing is suggested exactly when no part from 1 to the previous one has a suggestion; otherwise the suggestion of the highest such part |
| FixAll.PartFixesMember | fix_all_prerequisites.py:28-104 | every suggestion is the suggestion of one quest of one NPC |
| FixAll.LowerNeverContainsUpper | fix_all_prerequisites.py:57-60 | a lower-cased name never contains a string with an upper-case letter |
| FixAll.CapitalizedBaseFindsNothing | fix_all_prerequisites.py:46-60 | as written: a base name with an upper-case letter finds no previous part at all |
| FixAll.CapitalizedQuestFindsNothing | fix_all_prerequisites.py:41-60 | as written: a quest whose base name keeps an upper-case letter never gets a suggestion |
| FixAll.LoweredFindsPreviousPart | fix_all_prerequisites.py:46-73 | corrected: with a lower-cased base, a quest of the same NPC whose name contains `<base> - part <n-1>` in any case, and that the quest does not list, is suggested for the internal list |
| FixAll.LoweredPartFixesMember | fix_all_prerequisites.py:28-104 | corrected: every suggestion is the corrected suggestion of one quest |
| FixAll.ApplyFixes | fix_all_prerequisites.py:106-138 | `apply_fixes` in place, without de-duplication: the database becomes the fixes applied in order and `applied` counts the appends |
| FixAll.ApplyFixesMeaning | fix_all_prerequisites.py:106-138 | `applied` is the number of ids added; a second run with the same fixes applies none and changes nothing |
| FindMissing.FindReferencedBy | find_missing_prerequisites.py:42-48 | the nested loop collects the (NPC name, quest name) of every quest whose combined prerequisites list the id |
| FindMissing.Inspect | find_missing_prerequisites.py:40-67 | one quest's report entry |
| FindMissing.FindQuestsWithNoPrerequisites | find_missing_prerequisites.py:28-69 | the loop computes the whole report in visiting order |
| FindMissing.ReferencedByMember | find_missing_prerequisites.py:42-48 | `referenced_by` holds exactly the quests whose combined prerequisite lists contain the id |
| FindMissing.SuspicionFromMeaning | find_missing_prerequisites.py:40-67 | a quest is reported exactly when both its lists are empty and its name has a part number or some quest references it; the part reason wins over the referenced reason, and the entry carries the references |
| FindMissing.SuspicionMeaning | find_missing_prerequisites.py:40-67 | the same, with the part test being the search for `part\s+\d+` in any case |
| FindMissing.SuspiciousQuestsMember | find_missing_prerequisites.py:28-69 | every report entry comes from one catalog quest, and there is at most one per quest |
| FindMissing.CollectIssues | find_missing_prerequisites.py:87-106 | one quest's loop over every catalog quest computes its issues |
| FindMissing.FindQuestsReferencingOthers | find_missing_prerequisites.py:71-108 | the loops compute all issues in visiting order |
| FindMissing.IssuesFromMember | find_missing_prerequisites.py:87-106 | an issue is raised for a quest and a candidate exactly when the quest's name contains `part 2` or `part ii` and the candidate's lower-cased name contains the lower-cased base and `part 1` or `part i` and is not yet a prerequisite |
| FindMissing.IssuesMember | find_missing_prerequisites.py:71-108 | every issue names a second-part quest and a first-part candidate it does not list yet |
| FindMissing.SubPrefix | find_missing_prerequisites.py:89-90 | on one line, `re.sub` to the end of the line leaves a prefix of the name |
| FindMissing.SecondPartBasePrefix | find_missing_prerequisites.py:89-90 | the base name is a prefix of the quest's name |
| FindMissing.RomanSecondPartSuggestsItself | find_missing_prerequisites.py:87-98 | as written: a quest named with `part ii` that does not list itself is suggested as its own first part |
| FindMissing.OtherIssuesFromMember | find_missing_prerequisites.py:93-106 | corrected: the issues are the original ones minus those suggesting the quest itself |
| FindMissing.OtherIssuesNotSelf | find_missing_prerequisites.py:93-106 | corrected: no issue suggests a quest as its own prerequisite |
| ImportApi.Collapse | import_tarkov_api.py:143-144 | the repeated `'__'` replacement leaves no `"__"` |
| ImportApi.GenerateQuestId | import_tarkov_api.py:127-148 | the method's steps compute the readable id of the name |
| ImportApi.ReplacedNoUpper | import_tarkov_api.py:133-139 | after lower-casing and the six replacements no upper-case letter is left |
| ImportApi.CollapseChars | import_tarkov_api.py:143-144 | collapsing underscores keeps a string made of readable characters readable |
| ImportApi.QuestIdShape | import_tarkov_api.py:127-148 | an empty name gives ""; every id is made of lower-case ASCII letters, digits and '_', has no `"__"` and no '_' at either end |
| ImportApi.QuestIdIdempotent | import_tarkov_api.py:127-148 | applying generate_quest_id to its own output changes nothing |
| ImportApi.ConvertTasks | import_tarkov_api.py:196-221 | one converted quest per Prapor task |
| ImportApi.BuildLegibleIds | import_tarkov_api.py:176-182 | the first loop builds the API-id map |
| ImportApi.ConvertPrereqs | import_tarkov_api.py:209-219 | the requirement loop keeps the mapped readable ids in order |
| ImportApi.ConvertOne | import_tarkov_api.py:196-221 | the per-quest body builds the converted quest |
| ImportApi.FilterPrapor | import_tarkov_api.py:184-191 | the filter loop keeps the tasks whose trader is Prapor, in order |
| ImportApi.ConvertToDatabaseFormat | import_tarkov_api.py:150-223 | the whole conversion, from no data to `None` and from data to the database |
| ImportApi.LegibleIdsMeaning | import_tarkov_api.py:176-182 | an API id is in the map exactly when some task has it, non-empty, with a non-empty readable id; it maps to the readable id of the last such task |
| ImportApi.ConvertMeaning | import_tarkov_api.py:150-223 | no data gives no database; otherwise version "1.0.0", one NPC "prapor" named "Prapor", whose quests are Prapor's tasks in order with readable id, name, no tier, wiki link and kappa flag |
| ImportApi.PraporTasksMember | import_tarkov_api.py:184-191 | a task is kept exactly when it is an input task with Prapor's trader id |
| ImportApi.PrereqsMeaning | import_tarkov_api.py:209-219 | a prerequisite is listed exactly when some requirement names a mapped API id with that readable id, and it is then the non-empty readable id of some input task |
| NpcAssign.KeyIndex | fix_npc_assignments.py:71 | `data['npcs'].get(key)`: the position of an NPC with that key, or none exactly when no NPC has it |
| NpcAssign.ApplyCorrection | fix_npc_assignments.py:70-104 | one correction applied in place: the new NPC list and the recorded move are those of one step |
| NpcAssign.FixNpcAssignments | fix_npc_assignments.py:61-113 | the loop over the correction table leaves the NPC list and `moved_quests` of all steps in table order |
| NpcAssign.StepSkips | fix_npc_assignments.py:72-87 | a missing origin NPC or quest changes nothing and records nothing |
| NpcAssign.StepMoves | fix_npc_assignments.py:79-104 | with origin, quest and destination present: the first quest with the id leaves the origin, is appended to the destination, the move is recorded, every other NPC is kept and the number of quests is unchanged |
| NpcAssign.StepLoses | fix_npc_assignments.py:90-96 | with the destination missing the quest has already been popped: it is in no NPC, the total drops by one, nothing is recorded |
| NpcAssign.StepRecords | fix_npc_assignments.py:70-104 | a move is recorded exactly when origin, quest and destination all exist; NPC keys and names never change |
| NpcAssign.RunUnnamed | fix_npc_assignments.py:61-113 | NPCs no correction names are unchanged, keys and names are kept, and at most one move is recorded per correction |
| NpcAssign.RunQuestTotal | fix_npc_assignments.py:61-113 | the total number of quests falls by exactly the number lost to missing destinations, and is kept when every destination exists |
| Util.PyIntOfIntToString | update_version.py:26-30 | `int(str(i)) == i` for every integer, sign included |
| Util.CanonicalRoundTrip | update_version.py:26-30 | a numeral without leading zeros prints back as itself |
| Util.SplitJoin | update_version.py:25-30 | splitting the dot-joined parts gives them back when no part holds a dot |
| Version.ReadAll | update_version.py:26 | reading every part gives one value per part, each the value of its part, and fails exactly when some part cannot be read |
| Version.ParseVersion | update_version.py:23-26 | `parse_version` fails exactly when `int()` refuses some dot-separated part; otherwise the tuple has one value per part |
| Version.Unpack | update_version.py:78 | unpacking into three names succeeds exactly when parsing succeeds with three parts |
| Version.IncrementsGrow | update_version.py:32-42 | each increment changes only the components its name says, resets the lower ones, and gives a larger version in tuple order, patch < minor < major |
| Version.ParseFormat | update_version.py:23-30 | parsing a formatted version gives back its three components, for every integer component |
| Version.FormatParse | update_version.py:23-30 | formatting a parsed version gives back the string when it is three numerals without leading zeros joined by dots |
| Version.ParseNumerals | update_version.py:23-26 | three numerals joined by dots parse to their values |
| Version.ParseRejects | update_version.py:24-26 | a part `int()` refuses makes parsing and unpacking fail |
| Version.ParseRejectsWord | update_version.py:26 | a word such as "beta" does not parse |
| Version.UpdateVersionMeaning | update_version.py:15-90 | a stored version that does not unpack stops the script; otherwise it writes exactly when merges were seen, and what it writes unpacks to the patch bump; with no file it writes "0.0.2" or nothing |
| Version.DefaultUnpacks | update_version.py:21 | the fallback "0.0.1" unpacks to (0, 0, 1) and its patch bump prints as "0.0.2" |
| Version.IsNewBranchMeaning | check_new_branch.py:91-118 | a branch is new exactly when it has a name other than "HEAD", is none of master, main and hu05, is not on the remote, and its version equals master's |
| Version.NewBranchVersion | check_new_branch.py:130-152 | a version is written exactly inside a git work tree, on a new branch, with master's version unpacking; it is master's with the patch raised by one |
| Sorting.InsertWith | validate_quest_order.py:106 | inserting adds exactly one element |
| Sorting.SortWith | validate_quest_order.py:106 | sorting keeps the length |
| Sorting.InsertWithSorted | validate_quest_order.py:106 | inserting into a sorted list under a total order keeps it sorted and adds the element to its contents |
| Sorting.SortWithSorted | validate_quest_order.py:106-110 | `sorted()` returns a list in order that is a permutation of its input |
| Sorting.InsertWithLast | check_npc_order.py:26 | an element no earlier element exceeds goes last, so equal keys keep their order |
| Sorting.SortWithIdentity | validate_quest_order.py:106 | a list equals its sorted copy exactly when it is already in order |
| Sorting.SortedIsFixed | check_npc_order.py:26-29 | sorting a sorted list leaves it as it is |
| Sorting.StrLeTotalPair | check_npc_order.py:23 | any two strings compare one way or the other in Python's order |
| Sorting.StrLeTrans | check_npc_order.py:23 | Python's string order chains |
| Sorting.StrLeTotal | check_npc_order.py:23 | Python's string order is a total preorder |
| Sorting.StrLeAntisymmetric | check_npc_order.py:23 | distinct strings are never at most each other both ways |
| Sorting.IntLeTotal | validate_quest_order.py:62 | the order on integers is a total preorder |
| Grouping.GroupPos | check_npc_order.py:15 | `key in groups`: the position of the group with that key, or none exactly when no group has it |
| Grouping.BuildGroups | check_npc_order.py:12-17 | the grouping loop computes the grouped dict |
| Grouping.GroupByKeyOrder | check_npc_order.py:12-17 | the dict's keys are the distinct keys of the list, in order of first appearance |
| Grouping.NoGroupNoElement | validate_quest_order.py:43-48 | no element carries a key without a group |
| Grouping.GroupByContents | validate_quest_order.py:43-48 | each key's list holds exactly the elements with that key, in list order |
| Grouping.GroupByKeys | validate_quest_order.py:96-101 | a key has a group exactly when some element carries it |
| Grouping.FilterMoreThanOne | validate_quest_order.py:50 | more than one element has a property exactly when two positions do |
| QuestOrder.FindTierProblems | validate_quest_order.py:13-31 | the loop with its `expected_tier` counter computes the tier mismatches |
| QuestOrder.TierMismatchMember | validate_quest_order.py:16-31 | a mismatch is recorded for row i exactly when its tier is not i + 1, with that row's index, expected and actual tier, NPC and quest |
| QuestOrder.NoMismatchIffSequential | validate_quest_order.py:13-39 | no mismatch exactly when the tiers are 1, 2, ..., n |
| QuestOrder.DuplicatesMeaning | validate_quest_order.py:43-50 | a tier is reported duplicated exactly when two rows carry it, and its entry lists exactly those rows in file order |
| QuestOrder.MinTier | validate_quest_order.py:64 | `min(tiers)`: a tier of some row, at most every row's tier |
| QuestOrder.MaxTier | validate_quest_order.py:65 | `max(tiers)`: a tier of some row, at least every row's tier |
| QuestOrder.MissingTiers | validate_quest_order.py:62-72 | the gap check runs exactly when the file has rows |
| QuestOrder.SequentialIsClean | validate_quest_order.py:13-72 | when the tiers are exactly 1..n no tier is duplicated, none is missing, and they run from 1 to n |
| QuestOrder.SequentialNoDuplicates | validate_quest_order.py:43-50 | sequential tiers give no duplicates |
| QuestOrder.FindNpcChanges | validate_quest_order.py:76-88 | the loop with `current_npc` computes the NPC changes |
| QuestOrder.NpcChangeMember | validate_quest_order.py:76-88 | a change is recorded at each index i > 0 whose NPC differs from row i - 1's, with both NPCs and row i's tier, and nowhere else |
| QuestOrder.FindNpcOrderProblems | validate_quest_order.py:103-111 | the loop over the groups computes the order problems |
| QuestOrder.OrderProblemOf | validate_quest_order.py:104-111 | a group reports a problem exactly when its tiers are out of order; the problem carries the tiers and a sorted permutation of them |
| QuestOrder.ProblemIsOfItsGroup | validate_quest_order.py:96-111 | every reported problem is the one of its NPC's group |
| QuestOrder.NpcOrderProblemMeaning | validate_quest_order.py:96-111 | a problem is reported for an NPC exactly when it has rows whose tiers in file order are not non-decreasing; it carries them and their ascending rearrangement |
| QuestOrder.ValidateQuestOrder | validate_quest_order.py:1-133 | an empty file gives no report, because `min(tiers)` fails on the statistics line; otherwise the report holds all five checks and the tier range |
| NpcOrder.TierLeTotal | check_npc_order.py:26 | comparing rows by tier is a total preorder |
| NpcOrder.CheckNpcOrder | check_npc_order.py:12-48 | the grouping loop and the loop over the sorted NPC names compute the problems |
| NpcOrder.InsertTiers | check_npc_order.py:26-32 | inserting a row by tier and then taking tiers is inserting its tier |
| NpcOrder.SortTiers | check_npc_order.py:26-32 | the tiers of the rows sorted by tier are the sorted tiers |
| NpcOrder.CheckOf | check_npc_order.py:24-44 | an NPC's check reports a problem exactly when its rows are out of tier order; the problem carries the rows, their tiers and their ascending rearrangement |
| NpcOrder.VisitsEveryNpc | check_npc_order.py:23 | every NPC of the file is among the visited names |
| NpcOrder.ProblemMeaning | check_npc_order.py:12-48 | an NPC is reported exactly when it has rows that are not in tier order, and the report carries those rows in file order, their tiers and the sorted tiers |
| NpcOrder.NoDuplicatesOnce | check_npc_order.py:23 | in a list without repeats every element occurs once |
| NpcOrder.VisitOrder | check_npc_order.py:23 | the NPCs are visited in ascending name order, each NPC of the file exactly once |
| CompareTiers.BuildNameIndex | compare_tiers.py:14-21 | the loop builds the `NPC name\|quest name` index |
| CompareTiers.NameIndexMeaning | compare_tiers.py:14-21 | a key is indexed exactly when some database quest has it, and it maps to the last such quest |
| CompareTiers.Classify | compare_tiers.py:33-52 | a row is not found exactly when its key is not indexed; equal tiers record nothing; a null database tier raises; otherwise a mismatch with the two tiers and their non-zero difference |
| CompareTiers.CompareRows | compare_tiers.py:28-52 | the loop stops with the failure when a row raises, and otherwise computes the mismatches and the not-found rows |
| CompareTiers.NullTierStops | compare_tiers.py:37-45 | once a row has raised, the whole comparison has failed |
| CompareTiers.CompareFailsIff | compare_tiers.py:28-52 | the comparison fails exactly when some row's key maps to a quest with a null tier |
| CompareTiers.CompareFails | compare_tiers.py:28-52 | a failed comparison has a row that raised |
| CompareTiers.CompareMember | compare_tiers.py:28-52 | without a failure, the mismatches and not-found entries are exactly those of the rows with that verdict |
| CompareTiers.PrintOrderMeaning | compare_tiers.py:56 | mismatches are printed by non-increasing absolute difference, each as often as found |
| CompareTiers.FindMissingIn2025 | compare_tiers.py:71-84 | the loop computes the database quests missing from questdata2025.json |
| CompareTiers.MissingMeaning | compare_tiers.py:71-84 | a database quest is listed as missing exactly when no questdata2025.json row has its key |
| CompareTiers.MixedTiersIff | compare_tiers.py:86-88 | sorting the missing quests by (NPC name, tier) raises exactly when two database quests of one NPC name, both absent from questdata2025.json, have a null and an integer tier |
| CompareTiers.MixedTiersExample | compare_tiers.py:86-88 | a tierless quest next to a tier-3 quest of the same NPC, neither in questdata2025.json, makes the sort raise |
| CompareTiers.CompareTierFiles | compare_tiers.py:1-91 | the run fails exactly when the comparison raises on a null tier or sorting the missing quests by (NPC name, tier) raises on a null and an integer tier of one NPC name, and otherwise reports the mismatches, the not-found rows and the missing quests |
| UrlRewrite.RewriteNpcUrls | fix_wiki_links.py:42-51 | the inner loop over one NPC's quests gives every quest of that NPC its computed link, leaves the other NPCs alone, and counts the quests whose link changed |
| UrlRewrite.RewriteUrls | fix_wiki_links.py:38-51 | the loops give every quest its computed link and count exactly the quests whose computed link differs from the stored one |
| UrlRewrite.NpcUnchangedIff | fix_capitalization.py:31-55 | an NPC is left as it was exactly when none of its quests is counted |
| UrlRewrite.UnchangedIff | fix_capitalization.py:30-58 | the database is left as it was exactly when the count is zero |
| UrlRewrite.ChangedMeaning | fix_wiki_links.py:46-51 | a quest is counted exactly when its computed link differs from its stored one |
| FixWikiLinks.FixWikiUrl | fix_wiki_links.py:4-29 | the method with its loop over the segments computes the wiki link of the name |
| FixWikiLinks.FixWikiLinks | fix_wiki_links.py:36-56 | every quest's link is replaced by the one built from its name, and the count is the number of links that changed |
| FixWikiLinks.QuoteBytesChars | fix_wiki_links.py:24 | percent-encoding bytes yields only unreserved characters and '%' |
| FixWikiLinks.QuoteChars | fix_wiki_links.py:24 | `quote(part, safe='')` yields only unreserved characters and '%' |
| FixWikiLinks.SplitPartsFree | fix_wiki_links.py:18 | no piece of a split holds the separator |
| FixWikiLinks.EncodedPartsShape | fix_wiki_links.py:18-25 | every encoded part is non-empty and holds no '_', only URL characters |
| FixWikiLinks.JoinSeparated | fix_wiki_links.py:27 | joining non-empty parts without the separator puts every separator between two other characters, and the result starts with the first part |
| FixWikiLinks.WikiUrlShape | fix_wiki_links.py:4-29 | the link is the wiki base followed by a name part with no space, only URL characters, no empty segment (no `__`, no '_' at either end), which is empty exactly when no segment is kept, and which splits at '_' into the encoded segments |
| FixWikiLinks.JoinAllChars | fix_wiki_links.py:27 | joining URL-character parts with a URL character gives URL characters only |
| FixWikiLinks.ReplaceAfter | fix_wiki_links.py:11 | a replacement leaves alone a prefix holding no first character of the pattern |
| FixWikiLinks.ReplacePartSeparator | fix_wiki_links.py:11-14 | in "A - B" with no other spaces, the two replacements give "A_-_B" |
| FixWikiLinks.SplitPartSeparator | fix_wiki_links.py:18 | "A_-_B" without other '_' splits into A, "-" and B |
| FixWikiLinks.EncodePartSegments | fix_wiki_links.py:19-27 | the three segments A, "-", B are encoded and joined as quote(A) + "_-_" + quote(B) |
| FixWikiLinks.PartSeparator | fix_wiki_links.py:4-29 | a name "A - B" with non-empty sides holding no space or '_' gives the base + quote(A) + "_-_" + quote(B) |
| FixWikiLinks.QuoteReserved | fix_wiki_links.py:24 | an ASCII character outside the unreserved set becomes one upper-case "%XX" triple |
| FixWikiLinks.QuoteExamples | fix_wiki_links.py:24 | `quote` writes "'" as "%27", "?" as "%3F", a space as "%20" and "ä" as its UTF-8 octets "%C3%A4" |
| ValidateLinks.NormalizeShape | validate_links.py:6-14 | the normalised name has no space and no '-', does not end in '_', and is no longer than the name |
| ValidateLinks.NormalizeKeepsDoubleUnderscore | validate_links.py:11 | a single "__" pass leaves "a__b" from "a___b": doubled underscores can survive |
| ValidateLinks.CandidateFormatsMeaning | validate_links.py:37-47 | the candidate list holds each of the six spellings exactly once, nothing else, in order of first appearance, starting with the name as given |
| ValidateLinks.DedupHead | validate_links.py:47 | `dict.fromkeys` keeps the first element first |
| ValidateLinks.SingleCandidate | validate_links.py:37-47 | a name without space or apostrophe that is already normalised yields a single candidate |
| ValidateLinks.DedupConstant | validate_links.py:47 | a list of one repeated value de-duplicates to that value alone |
| Util.Dedup | validate_links.py:47 | `list(dict.fromkeys(s))` holds exactly the elements of s, each once |
| Util.DedupOrder | validate_links.py:47 | the kept elements appear in the order of their first occurrences |
| FixCapitalization.RunPatterns | fix_capitalization.py:36-38 | the loop over the pattern table computes the patterned link |
| FixCapitalization.RunSpecific | fix_capitalization.py:41-48 | the loop over the specific fixes computes the fixed link |
| FixCapitalization.FixUrl | fix_capitalization.py:32-48 | one quest's new link is the specific fixes applied after the pattern fixes |
| FixCapitalization.FixCapitalization | fix_capitalization.py:28-62 | every link is rewritten in place, the count is the number of links that changed, and the file is written exactly when the count is positive, which is exactly when the database changed |
| FixCapitalization.LowerSplit | fix_capitalization.py:38 | lower-casing distributes over a split point |
| FixCapitalization.SubIgnoreCaseCaseOnly | fix_capitalization.py:38 | a case-insensitive substitution whose replacement differs from the pattern in case only keeps the length and the lower-cased text |
| FixCapitalization.ReplaceCaseOnly | fix_capitalization.py:48 | the same for a plain replacement |
| FixCapitalization.ApplyPatternsCaseOnly | fix_capitalization.py:36-38 | a case-only pattern table changes only letter case |
| FixCapitalization.ApplySpecificCaseOnly | fix_capitalization.py:46-48 | a case-only specific table changes only letter case |
| FixCapitalization.TablesCaseOnly | fix_capitalization.py:10-44 | both tables differ from their patterns in letter case only |
| FixCapitalization.FixedUrlCaseOnly | fix_capitalization.py:32-48 | a rewritten link differs from the original only in letter case |
| FixCapitalization.SubIgnoreCaseAbsent | fix_capitalization.py:37-38 | a link without a case-insensitive occurrence of the pattern is left alone, so the search guard changes nothing |
| FixCapitalization.SubIgnoreCaseFront | fix_capitalization.py:38 | an occurrence at the front, in any case, comes out in the fixed spelling |
| FixCapitalization.CatalogCaseOnly | fix_capitalization.py:30-55 | every rewritten quest keeps its link up to letter case |
| FixCapitalization.PartExample | fix_capitalization.py:20-38 | "_-_part_2" becomes "_-_Part_2" |
| ProblemLinks.IssuesFor | find_problematic_links.py:19-34 | the four checks in turn build the issues of one quest |
| ProblemLinks.FindProblematicLinks | find_problematic_links.py:11-37 | the loops compute the listing |
| ProblemLinks.FilterOrder | find_problematic_links.py:19-34 | the issues are the raised ones among apostrophe, question mark, part format and spaces, in that order |
| ProblemLinks.IssuesMeaning | find_problematic_links.py:21-34 | each issue is listed exactly when its condition holds (the spaces issue exactly when the name has more spaces than underscores) and the issues keep the checking order |
| ProblemLinks.CountCharPositive | find_problematic_links.py:33 | a character counted at least once occurs |
| ProblemLinks.SpacesFlag | find_problematic_links.py:33 | the `" " in name` test adds nothing to the count comparison |
| ProblemLinks.ListedMeaning | find_problematic_links.py:11-37 | an entry is listed exactly when some quest has at least one issue, with its NPC's name, its name, its link and its issues; at most one entry per quest |
| ProblemLinks.ListingIff | find_problematic_links.py:36-37 | a quest is listed exactly when some issue is raised for it |
| NpcNames.FirstMatch | validate_npcs.py:74-77 | the first fragment, in table order, that the text contains, or none when no fragment occurs |
| NpcNames.NormalizeNone | validate_npcs.py:55-56 | no name comes back exactly for a missing or empty name |
| NpcNames.FirstMatchIs | validate_npcs.py:74-77 | the search finds exactly the first fragment that occurs |
| NpcNames.CanonicalizeMeaning | validate_npcs.py:58-79 | the first table fragment the lower-cased name contains gives the canonical name; with none the stripped name comes back |
| NpcNames.MapIntoCanonical | validate_npcs.py:61-72 | every table entry maps to one of the eight canonical names |
| NpcNames.NormalizeRange | validate_npcs.py:53-79 | a non-empty name is normalised to a canonical name or to the stripped name |
| NpcNames.LightKeeperExample | validate_npcs.py:71-77 | "Light Keeper" becomes "Lightkeeper" |
| NpcNames.UnknownExample | validate_npcs.py:58-79 | " Fence " becomes "Fence" |
| NpcNames.BlankExample | validate_npcs.py:55-58 | a blank name is not missing: it strips to "" |
| NpcNames.JaegerExample | validate_npcs.py:69-77 | "Jäger" becomes "Jaeger" |
| Util.Split | fix_wiki_links.py:18 | `str.split` on one character always gives at least one piece |
| Util.Utf8 | fix_wiki_links.py:24 | the UTF-8 encoding `quote` percent-encodes: one to four octets, one exactly for ASCII, the character itself then, and only high octets otherwise |
| Util.QuoteByte | fix_wiki_links.py:24 | an unreserved octet is kept as it is; any other becomes a three-character "%XX" |
| Util.LowerChar | validate_npcs.py:74 | lower-casing leaves no upper-case letter and keeps every other character |
| Util.TrimStart | validate_npcs.py:58 | stripping the front keeps a suffix that does not start with a stripped character |
| Util.PyIntOfNumeral | update_version.py:26 | `int()` reads a plain numeral as its value |

Where the design description of the tracker and the code disagree, the model follows the
code: prerequisites are checked only against the owning NPC's completed list (app.js:140-142,
289-291), not against every NPC's; there are no mutual-exclusion groups, unlock gates, undo
or load-time validation in the code, so none are modelled; `findCurrentQuest` returns the
stored current quest first when it is still open, before the first available one; the last
completed quest breaks tier ties in favour of the first in completed order (strict `>`), and a
null tier counts as 0; completing acts on the current quest only and reports no errors.

## Left out

- Rendering, screens, the image modal, `fetch`, `localStorage` and the confirm dialog of app.js: the dialog's answer is the `confirmed` parameter of `Tracker.Tracker.ResetProgress`, and the saved progress is a constructor parameter.
- Tracker.Tracker.SelectNpc: requires the NPC to be in the catalog, because the page only creates buttons for catalog NPCs.
- All file reads and writes, `json.load`/`json.dump`, and every printed report, including the order and counts of printed lines (for instance the print order of `missing_in_2025` and the per-NPC totals). Where a script writes only under a condition, the condition is modelled (`FixCapitalization.FixCapitalization` returns `written`).
- The git subprocesses of update_version.py and check_new_branch.py: their answers (`hasMerges`, the branch name, whether it is on the remote, the stored versions, whether `.git` exists) are parameters of `Version.UpdateVersionMain`, `Version.IsNewBranch` and `Version.CheckNewBranchMain`. check_new_branch.py asks git twice for the branch and master's version; the model assumes both answers agree.
- The final `subprocess.run` of the validator in auto_fix_prerequisites.py `main`.
- HTTP and scraping: `test_url` and the network loop of `find_correct_url` in validate_links.py, `get_npc_from_wiki` and `validate_quests` in validate_npcs.py, and the tarkov.dev queries of import_tarkov_api.py (`get_traders`, `get_prapor_quests`, `save_to_database`); the API answer is the input of `ImportApi.ConvertToDatabaseFormat`.
- Crashes on malformed JSON (a missing key, a value of the wrong type) other than the ones the scripts meet on well-formed data: the two null-tier `TypeError`s of compare_tiers.py (the subtraction and the sort of `missing_in_2025`), the `ValueError` of `int()` and of unpacking a version, and `min()` of an empty list in validate_quest_order.py are modelled; other `KeyError`/`TypeError` paths are not.
- A missing or `None` quest id is modelled as the empty string, and an empty or other falsy dictionary as `None`; a fix's destination list is a boolean (`external`).
- Unicode: `str.lower` and `re.IGNORECASE` are modelled by `Util.Lower`, which covers ASCII and Latin-1 letters; `\d`, `isalnum` and `int()` accept ASCII digits and letters only. `Util.PyInt` strips whitespace and accepts a sign and single underscores between digits as Python does, but not non-ASCII digits.
- ImportApi.QuestIdShape: states the character set for every input only because `isalnum` is modelled on ASCII; Python keeps non-ASCII letters and digits, which the model drops.
- Regular expressions are modelled by hand-written matchers for the fixed patterns only (`Patterns`, the literal patterns of fix_capitalization.py); no regex engine.
- FixCapitalization.SubIgnoreCase: is the left-to-right, non-overlapping substitution itself; no lemma states that no occurrence survives, because overlapping occurrences can survive `re.sub`'s scan.
- The nested loops over NPCs and their quests are one loop over `Catalog.Entries`, which visits the same pairs in the same order; the inner quest list is written back once per NPC (`UrlRewrite.RewriteNpcUrls`) rather than mutated element by element; aliasing of quest objects between NPCs is not modelled.
- FixAll.BuildIndex: builds `by_name` like the script, which never reads it.
- The uniqueness of the correction-table keys is not proved; the table is applied in listed order.
- The status of a quest without an id: app.js compares `quest.id === currentQuestId`, and with no current quest both sides are `undefined`, so such a quest shows as current; the model's empty id gives it the available or locked status.
- An absent (undefined, not null) tier in app.js: the model has one "no tier" value and counts it as 0, as JavaScript does for null. For undefined, `quest.tier > highestTier` is false and the sort comparator `a.tier - b.tier` is `NaN`, leaving the engine's order unspecified; neither is modelled.
- The display defaults of the Python reports (`npc_data.get('name', npc_id)`, `quest.get('name', 'Unknown')` in check_all_prerequisites.py and similar): the model assumes every NPC and quest has a name.
- Python's recursion limit: the depth-first search of validate_prerequisites.py `has_cycle` raises `RecursionError` on prerequisite chains deeper than about a thousand quests, which the model does not bound.
- preprocess_quest_details.py, scraper.py, the link testers, the servers, the browser extension and version.js are not part of this model.

## Findings

| source | as written | input that shows it | evidently intended | confidence | as-written member | corrected member |
|---|---|---|---|---|---|---|
| fix_all_prerequisites.py:46-60 | the base name is stripped but not lower-cased, and is then looked up in lower-cased quest names | "Gunsmith - Part 2" with "Gunsmith - Part 1" under the same NPC: the base "Gunsmith" never occurs in a lower-cased name, so nothing is suggested | lower-case the base before the lookup | not executed | FixAll.CapitalizedBaseFindsNothing | FixAll.LoweredFindsPreviousPart |
| find_missing_prerequisites.py:93-98 | the candidate test `"part i" in name` also holds for "part ii", and the quest itself is among the candidates | "Gunsmith - Part II" with no prerequisites is suggested as its own first part | exclude the quest itself | not executed | FindMissing.RomanSecondPartSuggestsItself | FindMissing.OtherIssuesNotSelf |
