// fix_capitalization.py: rewrite the capitalisation of known word patterns in every quest's
// wiki link, count the links that changed, and write the file only when some did.
module FixCapitalization {
  import opened Util
  import opened Catalog
  import UrlRewrite

  /** capitalization_fixes, in table order: pattern and its fixed spelling. */
  const CapitalizationFixes: seq<(string, string)> := [
    ("_from_the_", "_From_the_"),
    ("_of_the_", "_Of_the_"),
    ("_in_the_", "_In_the_"),
    ("_on_the_", "_On_the_"),
    ("_to_the_", "_To_the_"),
    ("_at_the_", "_At_the_"),
    ("_for_the_", "_For_the_"),
    ("_with_the_", "_With_the_"),
    ("_by_the_", "_By_the_"),
    ("_-_part_", "_-_Part_"),
    ("_-_Part_", "_-_Part_")
  ]

  /** specific_fixes: plain, case-sensitive replacements. */
  const SpecificFixes: seq<(string, string)> := [
    ("Delivery_from_the_Past", "Delivery_From_the_Past"),
    ("What's_on_the_Flash_Drive", "What's_on_the_Flash_Drive")
  ]

  /** A table whose entries have non-empty patterns. */
  predicate Patterns(table: seq<(string, string)>) {
    forall k :: 0 <= k < |table| ==> table[k].0 != []
  }

  /** A table whose every fixed spelling differs from its pattern in letter case only. */
  predicate CaseOnlyTable(table: seq<(string, string)>) {
    forall k :: 0 <= k < |table| ==> CaseOnlyPair(table[k].0, table[k].1)
  }

  /** fix has pat's length and lower-cases like it, character by character. */
  predicate CaseOnlyPair(pat: string, fix: string) {
    |fix| == |pat| && forall i :: 0 <= i < |pat| ==> LowerChar(fix[i]) == LowerChar(pat[i])
  }

  lemma CaseOnlyPairLower(pat: string, fix: string)
    requires CaseOnlyPair(pat, fix)
    ensures |fix| == |pat| && Lower(fix) == Lower(pat)
  {
  }

  /** re.search(pattern, s, re.IGNORECASE) for a literal pattern. */
  predicate MatchesAt(s: string, pat: string, i: int) {
    0 <= i && i + |pat| <= |s| && Lower(s[i..i + |pat|]) == Lower(pat)
  }

  predicate SearchIgnoreCase(s: string, pat: string) {
    exists i :: 0 <= i <= |s| - |pat| && MatchesAt(s, pat, i)
  }

  /** re.sub(pattern, rep, s, flags=re.IGNORECASE) for a literal pattern: every
      non-overlapping case-insensitive occurrence, left to right. */
  function SubIgnoreCase(s: string, pat: string, rep: string): string
    requires pat != []
    decreases |s|
  {
    if |s| < |pat| then s
    else if Lower(s[..|pat|]) == Lower(pat) then rep + SubIgnoreCase(s[|pat|..], pat, rep)
    else [s[0]] + SubIgnoreCase(s[1..], pat, rep)
  }

  /** The pattern loop over capitalization_fixes, applied to one URL. */
  function ApplyPatterns(url: string, table: seq<(string, string)>): string
    requires Patterns(table)
    decreases |table|
  {
    if table == [] then url
    else
      var u := ApplyPatterns(url, table[..|table| - 1]);
      var (pattern, replacement) := table[|table| - 1];
      if SearchIgnoreCase(u, pattern) then SubIgnoreCase(u, pattern, replacement) else u
  }

  /** The loop over specific_fixes. */
  function ApplySpecific(url: string, table: seq<(string, string)>): string
    requires Patterns(table)
    decreases |table|
  {
    if table == [] then url
    else
      var u := ApplySpecific(url, table[..|table| - 1]);
      var (wrong, right) := table[|table| - 1];
      if Contains(u, wrong) then Replace(u, wrong, right) else u
  }

  /** new_url for one quest. */
  function FixedUrl(url: string): string {
    ApplySpecific(ApplyPatterns(url, CapitalizationFixes), SpecificFixes)
  }

  /** The loop over capitalization_fixes. */
  method RunPatterns(oldUrl: string, table: seq<(string, string)>) returns (newUrl: string)
    requires Patterns(table)
    ensures newUrl == ApplyPatterns(oldUrl, table)
  {
    newUrl := oldUrl;
    for k := 0 to |table|
      invariant newUrl == ApplyPatterns(oldUrl, table[..k])
    {
      assert table[..k + 1][..k] == table[..k];
      var (pattern, replacement) := table[k];
      if SearchIgnoreCase(newUrl, pattern) {
        newUrl := SubIgnoreCase(newUrl, pattern, replacement);
      }
    }
    assert table[..|table|] == table;
  }

  /** The loop over specific_fixes. */
  method RunSpecific(oldUrl: string, table: seq<(string, string)>) returns (newUrl: string)
    requires Patterns(table)
    ensures newUrl == ApplySpecific(oldUrl, table)
  {
    newUrl := oldUrl;
    for k := 0 to |table|
      invariant newUrl == ApplySpecific(oldUrl, table[..k])
    {
      assert table[..k + 1][..k] == table[..k];
      var (wrong, right) := table[k];
      if Contains(newUrl, wrong) {
        newUrl := Replace(newUrl, wrong, right);
      }
    }
    assert table[..|table|] == table;
  }

  /** The body of the script's loop for one URL. */
  method FixUrl(oldUrl: string) returns (newUrl: string)
    ensures newUrl == FixedUrl(oldUrl)
  {
    newUrl := RunPatterns(oldUrl, CapitalizationFixes);
    newUrl := RunSpecific(newUrl, SpecificFixes);
  }

  function FixedUrlFn(): Quest -> string {
    (q: Quest) => FixedUrl(q.wikiUrl)
  }

  /** The script: every link rewritten in place, the changes counted, and the file written
      back only when something changed. */
  method FixCapitalization(db: Database) returns (fixedCount: nat, written: bool)
    modifies db
    ensures db.npcs == UrlRewrite.RewriteCatalog(old(db.npcs), FixedUrlFn())
    ensures fixedCount == |UrlRewrite.ChangedEntries(old(db.npcs), FixedUrlFn())|
    ensures written <==> fixedCount > 0
    ensures written <==> db.npcs != old(db.npcs)
  {
    UrlRewrite.UnchangedIff(db.npcs, FixedUrlFn());
    fixedCount := UrlRewrite.RewriteUrls(db, FixedUrlFn());
    written := fixedCount > 0;
  }

  // ---------------------------------------------------------------------
  // Properties
  // ---------------------------------------------------------------------

  lemma LowerSplit(s: string, n: nat)
    requires n <= |s|
    ensures Lower(s) == Lower(s[..n]) + Lower(s[n..])
  {
    assert s == s[..n] + s[n..];
    LowerAppend(s[..n], s[n..]);
  }

  /** A case-insensitive substitution whose replacement differs from the pattern in case
      only changes case only. */
  lemma {:induction false} SubIgnoreCaseCaseOnly(s: string, pat: string, rep: string)
    requires pat != [] && |rep| == |pat| && Lower(rep) == Lower(pat)
    ensures |SubIgnoreCase(s, pat, rep)| == |s| && Lower(SubIgnoreCase(s, pat, rep)) == Lower(s)
    decreases |s|
  {
    if |s| < |pat| {
    } else if Lower(s[..|pat|]) == Lower(pat) {
      SubIgnoreCaseCaseOnly(s[|pat|..], pat, rep);
      LowerAppend(rep, SubIgnoreCase(s[|pat|..], pat, rep));
      LowerSplit(s, |pat|);
    } else {
      SubIgnoreCaseCaseOnly(s[1..], pat, rep);
      LowerAppend([s[0]], SubIgnoreCase(s[1..], pat, rep));
      LowerSplit(s, 1);
      assert s[..1] == [s[0]];
    }
  }

  /** The same for a plain replacement. */
  lemma {:induction false} ReplaceCaseOnly(s: string, pat: string, rep: string)
    requires pat != [] && |rep| == |pat| && Lower(rep) == Lower(pat)
    ensures |Replace(s, pat, rep)| == |s| && Lower(Replace(s, pat, rep)) == Lower(s)
    decreases |s|
  {
    if |s| < |pat| {
    } else if s[..|pat|] == pat {
      ReplaceCaseOnly(s[|pat|..], pat, rep);
      LowerAppend(rep, Replace(s[|pat|..], pat, rep));
      LowerSplit(s, |pat|);
    } else {
      ReplaceCaseOnly(s[1..], pat, rep);
      LowerAppend([s[0]], Replace(s[1..], pat, rep));
      LowerSplit(s, 1);
      assert s[..1] == [s[0]];
    }
  }

  lemma {:induction false} ApplyPatternsCaseOnly(url: string, table: seq<(string, string)>)
    requires Patterns(table) && CaseOnlyTable(table)
    ensures |ApplyPatterns(url, table)| == |url| && Lower(ApplyPatterns(url, table)) == Lower(url)
    decreases |table|
  {
    if table != [] {
      var p := table[..|table| - 1];
      ApplyPatternsCaseOnly(url, p);
      var u := ApplyPatterns(url, p);
      CaseOnlyPairLower(table[|table| - 1].0, table[|table| - 1].1);
      SubIgnoreCaseCaseOnly(u, table[|table| - 1].0, table[|table| - 1].1);
    }
  }

  lemma {:induction false} ApplySpecificCaseOnly(url: string, table: seq<(string, string)>)
    requires Patterns(table) && CaseOnlyTable(table)
    ensures |ApplySpecific(url, table)| == |url| && Lower(ApplySpecific(url, table)) == Lower(url)
    decreases |table|
  {
    if table != [] {
      var p := table[..|table| - 1];
      ApplySpecificCaseOnly(url, p);
      var u := ApplySpecific(url, p);
      CaseOnlyPairLower(table[|table| - 1].0, table[|table| - 1].1);
      ReplaceCaseOnly(u, table[|table| - 1].0, table[|table| - 1].1);
    }
  }

  /** Both tables only change letter case. */
  lemma TablesCaseOnly()
    ensures CaseOnlyTable(CapitalizationFixes) && CaseOnlyTable(SpecificFixes)
  {
    PatternTableCaseOnly();
    SpecificTableCaseOnly();
  }

  lemma PatternTableCaseOnly()
    ensures CaseOnlyTable(CapitalizationFixes)
  {
    FromOfInOn();
    ToAtForWith();
    ByPart();
  }

  lemma FromOfInOn()
    ensures CaseOnlyPair("_from_the_", "_From_the_")
    ensures CaseOnlyPair("_of_the_", "_Of_the_")
    ensures CaseOnlyPair("_in_the_", "_In_the_")
    ensures CaseOnlyPair("_on_the_", "_On_the_")
  {
  }

  lemma ToAtForWith()
    ensures CaseOnlyPair("_to_the_", "_To_the_")
    ensures CaseOnlyPair("_at_the_", "_At_the_")
    ensures CaseOnlyPair("_for_the_", "_For_the_")
    ensures CaseOnlyPair("_with_the_", "_With_the_")
  {
  }

  lemma ByPart()
    ensures CaseOnlyPair("_by_the_", "_By_the_")
    ensures CaseOnlyPair("_-_part_", "_-_Part_")
    ensures CaseOnlyPair("_-_Part_", "_-_Part_")
  {
  }

  lemma SpecificTableCaseOnly()
    ensures CaseOnlyTable(SpecificFixes)
  {
  }

  /** The rewritten URL differs from the original only in letter case. */
  lemma FixedUrlCaseOnly(url: string)
    ensures |FixedUrl(url)| == |url| && Lower(FixedUrl(url)) == Lower(url)
  {
    TablesCaseOnly();
    ApplyPatternsCaseOnly(url, CapitalizationFixes);
    ApplySpecificCaseOnly(ApplyPatterns(url, CapitalizationFixes), SpecificFixes);
  }

  /** A URL without a case-insensitive occurrence of the pattern is left alone, so the
      re.search guard changes nothing. */
  lemma {:induction false} SubIgnoreCaseAbsent(s: string, pat: string, rep: string)
    requires pat != [] && !SearchIgnoreCase(s, pat)
    ensures SubIgnoreCase(s, pat, rep) == s
    decreases |s|
  {
    if |s| >= |pat| {
      assert !MatchesAt(s, pat, 0);
      assert !SearchIgnoreCase(s[1..], pat) by {
        forall i | 0 <= i <= |s[1..]| - |pat| ensures !MatchesAt(s[1..], pat, i) {
          assert s[1..][i..i + |pat|] == s[i + 1..i + 1 + |pat|];
          assert !MatchesAt(s, pat, i + 1);
        }
      }
      SubIgnoreCaseAbsent(s[1..], pat, rep);
    }
  }

  /** An occurrence at the front, in any case, comes out in the fixed spelling. */
  lemma SubIgnoreCaseFront(s: string, pat: string, rep: string)
    requires pat != [] && MatchesAt(s, pat, 0)
    ensures SubIgnoreCase(s, pat, rep)[..|rep|] == rep
  {
  }

  /** Every rewritten quest keeps its link up to letter case. */
  lemma CatalogCaseOnly(cat: seq<Npc>, i: nat, j: nat)
    requires i < |cat| && j < |cat[i].quests|
    ensures var u := UrlRewrite.RewriteCatalog(cat, FixedUrlFn())[i].quests[j].wikiUrl;
      |u| == |cat[i].quests[j].wikiUrl| && Lower(u) == Lower(cat[i].quests[j].wikiUrl)
  {
    FixedUrlCaseOnly(cat[i].quests[j].wikiUrl);
  }

  /** A lower-case "part" after " - " is capitalised. */
  lemma PartExample()
    ensures SubIgnoreCase("_-_part_2", "_-_part_", "_-_Part_") == "_-_Part_2"
  {
    var s := "_-_part_2";
    assert s[..8] == "_-_part_" && s[8..] == "2";
  }
}
