// validate_links.py: the wiki-name normalisation and the list of spellings tried for a quest.
module ValidateLinks {
  import opened Util

  /** normalize_quest_name. */
  function NormalizeQuestName(name: string): string {
    var n := Replace(Replace(Replace(name, " - ", "_"), "-", "_"), " ", "_");
    RStripChar(Replace(n, "__", "_"), '_')
  }

  /** The six spellings of find_correct_url, before de-duplication. */
  function Formats(questName: string): seq<string> {
    [ questName,
      Replace(questName, " ", "_"),
      NormalizeQuestName(questName),
      Replace(Replace(questName, " - ", "_"), " ", "_"),
      Replace(Replace(questName, " - ", "_-_"), " ", "_"),
      Replace(Replace(questName, "'", ""), " ", "_") ]
  }

  /** list(dict.fromkeys(formats)). */
  function CandidateFormats(questName: string): seq<string> {
    Dedup(Formats(questName))
  }

  // ---------------------------------------------------------------------
  // Properties
  // ---------------------------------------------------------------------

  /** The normalised name has no space and no '-', does not end in '_', and is no longer
      than the name. */
  lemma NormalizeShape(name: string)
    ensures var r := NormalizeQuestName(name);
      ' ' !in r && '-' !in r && (r == [] || r[|r| - 1] != '_') && |r| <= |name|
  {
    var s1 := Replace(name, " - ", "_");
    var s2 := Replace(s1, "-", "_");
    var s3 := Replace(s2, " ", "_");
    var s4 := Replace(s3, "__", "_");
    var r := RStripChar(s4, '_');
    ReplaceLength(name, " - ", "_");
    ReplaceLength(s1, "-", "_");
    ReplaceLength(s2, " ", "_");
    ReplaceLength(s3, "__", "_");
    ReplaceRemovesChar(s1, '-', "_");
    ReplaceKeepsOut(s2, " ", "_", '-');
    ReplaceRemovesChar(s2, ' ', "_");
    ReplaceKeepsOut(s3, "__", "_", '-');
    ReplaceKeepsOut(s3, "__", "_", ' ');
    assert r == s4[..|r|];
    assert forall c :: c in r ==> c in s4;
  }

  /** The "__" collapse is a single left-to-right pass: three underscores become two. */
  lemma NormalizeKeepsDoubleUnderscore()
    ensures NormalizeQuestName("a___b") == "a__b"
  {
    var s := "a___b";
    NoDashOrSpace(s);
    CollapseThree();
    assert RStripChar("a__b", '_') == "a__b" by {
      TrimEndNoop("a__b", x => x == '_');
    }
  }

  /** "a___b" has nothing for the first three replacements to do. */
  lemma NoDashOrSpace(s: string)
    requires s == "a___b"
    ensures Replace(Replace(Replace(s, " - ", "_"), "-", "_"), " ", "_") == s
  {
    NotContainsChar(s, " - ", ' ');
    NotContainsChar(s, "-", '-');
    NotContainsChar(s, " ", ' ');
    ReplaceAbsent(s, " - ", "_");
    ReplaceAbsent(s, "-", "_");
    ReplaceAbsent(s, " ", "_");
  }

  /** One left-to-right pass over three underscores replaces the first two only. */
  lemma CollapseThree()
    ensures Replace("a___b", "__", "_") == "a__b"
  {
    assert Replace("b", "__", "_") == "b";
    assert Replace("_b", "__", "_") == "_b" by {
      assert "_b"[..2] == "_b" && "_b"[1] != "__"[1] && "_b"[1..] == "b";
    }
    assert Replace("___b", "__", "_") == "__b" by {
      assert "___b"[..2] == "__" && "___b"[2..] == "_b";
    }
    assert "a___b"[..2][0] != "__"[0] && "a___b"[1..] == "___b";
  }

  /** The candidate list holds each spelling once, exactly the six spellings, in order of
      their first appearance, and starts with the name as given. */
  lemma CandidateFormatsMeaning(questName: string)
    ensures var c := CandidateFormats(questName);
      NoDuplicates(c)
      && (forall x :: x in c <==> x in Formats(questName))
      && (forall i, j :: 0 <= i < j < |c| ==>
            FirstIndex(Formats(questName), c[i]) < FirstIndex(Formats(questName), c[j]))
      && c != [] && c[0] == questName
  {
    DedupOrder(Formats(questName));
    DedupHead(Formats(questName));
  }

  /** De-duplication keeps the first element first. */
  lemma {:induction false} DedupHead<T(!new)>(s: seq<T>)
    requires s != []
    ensures Dedup(s) != [] && Dedup(s)[0] == s[0]
    decreases |s|
  {
    if |s| > 1 {
      DedupHead(s[..|s| - 1]);
    }
  }

  /** A name that has no space or apostrophe and is already normalised yields a single
      candidate. */
  lemma SingleCandidate(questName: string)
    requires ' ' !in questName && '\'' !in questName
    requires NormalizeQuestName(questName) == questName
    ensures CandidateFormats(questName) == [questName]
  {
    NotContainsChar(questName, " ", ' ');
    NotContainsChar(questName, " - ", ' ');
    NotContainsChar(questName, "'", '\'');
    ReplaceAbsent(questName, " ", "_");
    ReplaceAbsent(questName, " - ", "_");
    ReplaceAbsent(questName, " - ", "_-_");
    ReplaceAbsent(questName, "'", "");
    var fs := Formats(questName);
    assert fs == [questName, questName, questName, questName, questName, questName];
    DedupConstant(fs, questName);
  }

  lemma {:induction false} DedupConstant<T(!new)>(s: seq<T>, x: T)
    requires s != [] && forall i :: 0 <= i < |s| ==> s[i] == x
    ensures Dedup(s) == [x]
    decreases |s|
  {
    if |s| > 1 {
      DedupConstant(s[..|s| - 1], x);
    }
  }
}
