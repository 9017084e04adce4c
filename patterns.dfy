// The regular expressions the maintenance scripts apply to quest names, each
// written out as the matcher it denotes under Python's re module with
// IGNORECASE:
//   re.search(r'part\s+(\d+)', name)             SearchPartNumber
//   re.sub(r'\s*-\s*part\s+\d+.*', '', name)     Sub(name, DashPartNumber)
//   re.sub(r'\s*part\s+\d+.*', '', name)         Sub(name, PartNumber)
//   re.sub(r'\s*-\s*part\s+2.*', '', name)       Sub(name, DashPartTwo)
//   re.sub(r'\s*-\s*part\s+ii.*', '', name)      Sub(name, DashPartRoman)
// Every quantifier in these patterns is followed by a character it cannot
// consume (whitespace before '-', 'p' or a digit), so the greedy match is the
// only match and no backtracking needs modelling.
module Patterns {
  import opened Util

  // ---------------------------------------------------------------------
  // Characters and runs
  // ---------------------------------------------------------------------

  predicate IsLowerAscii(c: char) { 'a' <= c <= 'z' }

  /** One literal character of an IGNORECASE pattern: a letter matches in either case,
      and under Python's Unicode case rules 'i' also matches U+0130 and U+0131. */
  predicate CiChar(c: char, lit: char) {
    c == lit
    || (IsLowerAscii(lit) && c as int == lit as int - 32)
    || (lit == 'i' && (c as int == 0x130 || c as int == 0x131))
  }

  /** The literal `lit` matches case-insensitively at position j. */
  predicate CiAt(s: string, j: nat, lit: string) {
    j + |lit| <= |s| && forall k :: 0 <= k < |lit| ==> CiChar(s[j + k], lit[k])
  }

  /** Length of the greedy `\s*` run starting at j. */
  function SpaceRun(s: string, j: nat): (n: nat)
    requires j <= |s|
    ensures j + n <= |s|
    ensures j + n < |s| ==> !IsSpace(s[j + n])
    decreases |s| - j
  {
    if j < |s| && IsSpace(s[j]) then 1 + SpaceRun(s, j + 1) else 0
  }

  /** Every character of the run is a space. */
  lemma {:induction false} SpaceRunSpaces(s: string, j: nat)
    requires j <= |s|
    ensures forall k :: j <= k < j + SpaceRun(s, j) ==> IsSpace(s[k])
    decreases |s| - j
  {
    if j < |s| && IsSpace(s[j]) {
      SpaceRunSpaces(s, j + 1);
    }
  }

  /** Length of the greedy `\d*` run starting at j. */
  function DigitRun(s: string, j: nat): (n: nat)
    requires j <= |s|
    ensures j + n <= |s|
    ensures forall k :: j <= k < j + n ==> IsDigit(s[k])
    ensures j + n < |s| ==> !IsDigit(s[j + n])
    decreases |s| - j
  {
    if j < |s| && IsDigit(s[j]) then 1 + DigitRun(s, j + 1) else 0
  }

  /** Where a trailing `.*` stops: the next newline, or the end. */
  function LineEnd(s: string, j: nat): (e: nat)
    requires j <= |s|
    ensures j <= e <= |s|
    ensures e < |s| ==> s[e] == '\n'
    decreases |s| - j
  {
    if j < |s| && s[j] != '\n' then LineEnd(s, j + 1) else j
  }

  /** No newline comes before the stop. */
  lemma {:induction false} LineEndFirst(s: string, j: nat)
    requires j <= |s|
    ensures forall k :: j <= k < LineEnd(s, j) ==> s[k] != '\n'
    decreases |s| - j
  {
    if j < |s| && s[j] != '\n' {
      LineEndFirst(s, j + 1);
    }
  }

  lemma {:induction false} SpaceRunExact(s: string, k: nat, n: nat)
    requires k + n < |s| && !IsSpace(s[k + n])
    requires forall i :: k <= i < k + n ==> IsSpace(s[i])
    ensures SpaceRun(s, k) == n
    decreases n
  {
    if n > 0 {
      assert IsSpace(s[k]);
      SpaceRunExact(s, k + 1, n - 1);
    }
  }

  // ---------------------------------------------------------------------
  // The patterns
  // ---------------------------------------------------------------------

  /** What follows `part\s+`: one or more digits, or a fixed word ("2", "ii"). */
  datatype Tail = Number | Word(w: string)

  /** `\s*` + (if dash, `-\s*`) + `part\s+` + tail + `.*`. */
  datatype Pattern = Pattern(dash: bool, tail: Tail)

  const DashPartNumber := Pattern(true, Number)
  const PartNumber := Pattern(false, Number)
  const DashPartTwo := Pattern(true, Word("2"))
  const DashPartRoman := Pattern(true, Word("ii"))

  /** `part\s+<tail>` anchored at j; the result is where the tail's required part ends. */
  function PartAt(s: string, j: nat, tail: Tail): (r: Option<nat>)
    ensures r.Some? ==> j + 5 <= r.value <= |s|
  {
    if !CiAt(s, j, "part") then None
    else
      var w := SpaceRun(s, j + 4);
      var m := j + 4 + w;
      if w == 0 then None
      else match tail
        case Number => if m < |s| && IsDigit(s[m]) then Some(m + 1) else None
        case Word(t) => if CiAt(s, m, t) then Some(m + |t|) else None
  }

  /** `part\s+\d` occurs at j: the declarative reading of PartAt(s, j, Number). */
  predicate PartNumberAt(s: string, j: nat) {
    CiAt(s, j, "part")
    && exists m :: j + 4 < m < |s| && (forall k :: j + 4 <= k < m ==> IsSpace(s[k])) && IsDigit(s[m])
  }

  lemma PartAtIff(s: string, j: nat)
    ensures PartAt(s, j, Number).Some? <==> PartNumberAt(s, j)
  {
    if PartNumberAt(s, j) {
      var m :| j + 4 < m < |s| && (forall k :: j + 4 <= k < m ==> IsSpace(s[k])) && IsDigit(s[m]);
      SpaceRunExact(s, j + 4, m - (j + 4));
    }
    if PartAt(s, j, Number).Some? {
      SpaceRunSpaces(s, j + 4);
      var m := j + 4 + SpaceRun(s, j + 4);
      assert j + 4 < m < |s| && (forall k :: j + 4 <= k < m ==> IsSpace(s[k])) && IsDigit(s[m]);
    }
  }

  /** The whole pattern anchored at i; the result is where the match (through `.*`) ends. */
  function MatchAt(s: string, i: nat, pat: Pattern): (r: Option<nat>)
    requires i <= |s|
    ensures r.Some? ==> i < r.value <= |s|
  {
    var j0 := i + SpaceRun(s, i);
    var j1: Option<nat> :=
      if !pat.dash then Some(j0)
      else if j0 < |s| && s[j0] == '-' then Some(j0 + 1 + SpaceRun(s, j0 + 1))
      else None;
    if j1.None? then None
    else match PartAt(s, j1.value, pat.tail)
      case None => None
      case Some(e) => Some(LineEnd(s, e))
  }

  /** A Number pattern matches only where `part\s+\d` occurs. */
  lemma MatchAtNeedsPart(s: string, i: nat, pat: Pattern)
    requires i <= |s| && pat.tail == Number && MatchAt(s, i, pat).Some?
    ensures exists j: nat :: i <= j <= |s| && PartNumberAt(s, j)
  {
    var j0 := i + SpaceRun(s, i);
    var j1 := if !pat.dash then j0 else j0 + 1 + SpaceRun(s, j0 + 1);
    assert PartAt(s, j1, Number).Some?;
    PartAtIff(s, j1);
    assert i <= j1 <= |s| && PartNumberAt(s, j1);
  }

  /** Where `part` itself starts, the PartNumber pattern matches (its `\s*` is empty). */
  lemma PartNumberMatches(s: string, j: nat)
    requires j <= |s| && PartNumberAt(s, j)
    ensures MatchAt(s, j, PartNumber).Some?
  {
    assert CiChar(s[j + 0], "part"[0]);
    assert SpaceRun(s, j) == 0;
    PartAtIff(s, j);
  }

  /** The scan that re.search does: the first position from `from` up to `last` where p holds. */
  function FirstWhere(p: nat -> bool, from: nat, last: nat): (r: Option<nat>)
    requires from <= last
    ensures r.Some? ==> from <= r.value <= last && p(r.value)
    ensures r.Some? ==> forall k: nat :: from <= k < r.value ==> !p(k)
    ensures r.None? ==> forall k: nat :: from <= k <= last ==> !p(k)
    decreases last - from
  {
    if p(from) then Some(from)
    else if from == last then None
    else FirstWhere(p, from + 1, last)
  }

  /** Whether the pattern matches at a start of s. */
  function MatchFn(s: string, pat: Pattern): nat -> bool {
    (k: nat) => k <= |s| && MatchAt(s, k, pat).Some?
  }

  lemma MatchFnMeaning(s: string, pat: Pattern)
    ensures forall k: nat :: k <= |s| ==> (MatchFn(s, pat)(k) <==> MatchAt(s, k, pat).Some?)
  {
  }

  /** The leftmost start at or after `from` where the pattern matches. */
  function FirstMatch(s: string, from: nat, pat: Pattern): (r: Option<nat>)
    requires from <= |s|
    ensures r.Some? ==> from <= r.value <= |s| && MatchAt(s, r.value, pat).Some?
    ensures r.Some? ==> forall k :: from <= k < r.value ==> MatchAt(s, k, pat).None?
    ensures r.None? ==> forall k :: from <= k <= |s| ==> MatchAt(s, k, pat).None?
  {
    MatchFnMeaning(s, pat);
    FirstWhere(MatchFn(s, pat), from, |s|)
  }

  /** re.sub(pattern, '', s[from..]): each leftmost match is removed and the scan goes on after it. */
  function SubFrom(s: string, from: nat, pat: Pattern): string
    requires from <= |s|
    decreases |s| - from
  {
    match FirstMatch(s, from, pat)
    case None => s[from..]
    case Some(i) => s[from..i] + SubFrom(s, MatchAt(s, i, pat).value, pat)
  }

  function Sub(s: string, pat: Pattern): string {
    SubFrom(s, 0, pat)
  }

  /** Without a match the substitution changes nothing. */
  lemma SubNoMatch(s: string, pat: Pattern)
    requires FirstMatch(s, 0, pat).None?
    ensures Sub(s, pat) == s
  {
  }

  /** On a one-line name the trailing `.*` runs to the end, so the substitution cuts the
      name at the leftmost match. */
  lemma SubOneLine(s: string, pat: Pattern)
    requires '\n' !in s
    ensures FirstMatch(s, 0, pat).None? ==> Sub(s, pat) == s
    ensures FirstMatch(s, 0, pat).Some? ==> Sub(s, pat) == s[..FirstMatch(s, 0, pat).value]
  {
    match FirstMatch(s, 0, pat)
    case None =>
    case Some(i) =>
      var e := MatchAt(s, i, pat).value;
      assert e == |s|;
      assert FirstMatch(s, |s|, pat).None?;
      assert SubFrom(s, e, pat) == [];
  }

  // ---------------------------------------------------------------------
  // re.search(r'part\s+(\d+)', name, re.IGNORECASE)
  // ---------------------------------------------------------------------

  function FirstPart(s: string, from: nat): (r: Option<nat>)
    requires from <= |s|
    ensures r.Some? ==> from <= r.value <= |s| && PartNumberAt(s, r.value)
    ensures r.Some? ==> forall k: nat :: from <= k < r.value ==> !PartNumberAt(s, k)
    ensures r.None? ==> forall k: nat :: from <= k <= |s| ==> !PartNumberAt(s, k)
  {
    PartFnMeaning(s);
    FirstWhere(PartFn(s), from, |s|)
  }

  /** Whether `part\s+\d` occurs at a position of s. */
  function PartFn(s: string): nat -> bool {
    (k: nat) => PartAt(s, k, Number).Some?
  }

  lemma PartFnMeaning(s: string)
    ensures forall k: nat :: PartFn(s)(k) <==> PartNumberAt(s, k)
  {
    forall k: nat ensures PartFn(s)(k) <==> PartNumberAt(s, k) {
      PartAtIff(s, k);
    }
  }

  /** Where the digits of a `part\s+\d` occurrence at j begin. */
  function GroupStart(s: string, j: nat): (m: nat)
    requires PartNumberAt(s, j)
    ensures j + 4 < m < |s| && IsDigit(s[m])
    ensures forall k :: j + 4 <= k < m ==> IsSpace(s[k])
  {
    PartAtIff(s, j);
    SpaceRunSpaces(s, j + 4);
    j + 4 + SpaceRun(s, j + 4)
  }

  /** The captured digits of a `part\s+(\d+)` match at j: the longest digit run there. */
  function GroupAt(s: string, j: nat): (g: string)
    requires PartNumberAt(s, j)
    ensures g != [] && AllDigits(g)
    ensures GroupStart(s, j) + |g| <= |s| && g == s[GroupStart(s, j)..GroupStart(s, j) + |g|]
    ensures GroupStart(s, j) + |g| < |s| ==> !IsDigit(s[GroupStart(s, j) + |g|])
  {
    var m := GroupStart(s, j);
    s[m..m + DigitRun(s, m)]
  }

  /** int(match.group(1)) of the first match, if there is one. */
  function SearchPartNumber(s: string): (r: Option<nat>)
    ensures r.Some? <==> exists j: nat :: j <= |s| && PartNumberAt(s, j)
    ensures r.Some? ==>
      (exists j: nat :: j <= |s| && PartNumberAt(s, j)
        && (forall k: nat :: k < j ==> !PartNumberAt(s, k)) && r.value == DigitsValue(GroupAt(s, j)))
  {
    match FirstPart(s, 0)
    case None => None
    case Some(j) => Some(DigitsValue(GroupAt(s, j)))
  }

  // ---------------------------------------------------------------------
  // normalize_quest_name
  // ---------------------------------------------------------------------

  /** Both substitutions, no case change: the base name of fix_all_prerequisites.py. */
  function PartBase(name: string): string {
    Sub(Sub(name, DashPartNumber), PartNumber)
  }

  /** normalize_quest_name of auto_fix_prerequisites.py. */
  function NormalizeQuestName(name: string): string {
    Strip(Lower(PartBase(name)))
  }

  lemma PartNumberAtSlice(s: string, a: nat, b: nat, j: nat)
    requires a <= b <= |s| && PartNumberAt(s[a..b], j)
    ensures PartNumberAt(s, a + j)
  {
    var t := s[a..b];
    var m :| j + 4 < m < |t| && (forall k :: j + 4 <= k < m ==> IsSpace(t[k])) && IsDigit(t[m]);
    forall k | 0 <= k < 4 ensures CiChar(s[a + j + k], "part"[k]) {
      assert s[a + j + k] == t[j + k];
    }
    assert forall k :: a + j + 4 <= k < a + m ==> IsSpace(s[k]) by {
      forall k | a + j + 4 <= k < a + m ensures IsSpace(s[k]) {
        assert s[k] == t[k - a];
      }
    }
    assert s[a + m] == t[m];
  }

  lemma LowerCiChar(c: char, lit: char)
    requires IsLowerAscii(lit) && CiChar(LowerChar(c), lit)
    ensures CiChar(c, lit)
  {
  }

  lemma PartNumberAtLower(s: string, j: nat)
    requires PartNumberAt(Lower(s), j)
    ensures PartNumberAt(s, j)
  {
    var t := Lower(s);
    forall k | 0 <= k < 4 ensures CiChar(s[j + k], "part"[k]) {
      LowerCiChar(s[j + k], "part"[k]);
    }
    var m :| j + 4 < m < |t| && (forall k :: j + 4 <= k < m ==> IsSpace(t[k])) && IsDigit(t[m]);
    assert forall k :: j + 4 <= k < m ==> IsSpace(s[k]) by {
      forall k | j + 4 <= k < m ensures IsSpace(s[k]) {
        assert t[k] == LowerChar(s[k]);
      }
    }
    assert t[m] == LowerChar(s[m]);
  }

  /** After the PartNumber substitution a one-line name has no `part\s+\d` left. */
  lemma SubPartNumberClean(s: string)
    requires '\n' !in s
    ensures forall j: nat :: !PartNumberAt(Sub(s, PartNumber), j)
  {
    SubOneLine(s, PartNumber);
    var t := Sub(s, PartNumber);
    forall j: nat | PartNumberAt(t, j) ensures false {
      match FirstMatch(s, 0, PartNumber)
      case None =>
        PartNumberMatches(s, j);
      case Some(st) =>
        PartNumberAtSlice(s, 0, st, j);
        PartNumberMatches(s, j);
    }
  }

  lemma NoNewlineLower(s: string)
    requires '\n' !in s
    ensures '\n' !in Lower(s)
  {
  }

  lemma NoNewlineSlice(s: string, a: nat, b: nat)
    requires '\n' !in s && a <= b <= |s|
    ensures '\n' !in s[a..b]
  {
  }

  lemma NoNewlineSub(s: string, pat: Pattern)
    requires '\n' !in s
    ensures '\n' !in Sub(s, pat)
  {
    SubOneLine(s, pat);
    if FirstMatch(s, 0, pat).Some? {
      NoNewlineSlice(s, 0, FirstMatch(s, 0, pat).value);
    }
  }

  lemma LowerClean(t: string)
    requires forall j: nat :: !PartNumberAt(t, j)
    ensures forall j: nat :: !PartNumberAt(Lower(t), j)
  {
    forall j: nat | PartNumberAt(Lower(t), j) ensures false {
      PartNumberAtLower(t, j);
    }
  }

  lemma StripClean(l: string)
    requires forall j: nat :: !PartNumberAt(l, j)
    ensures forall j: nat :: !PartNumberAt(Strip(l), j)
  {
    StripIsSlice(l);
    var a, b :| 0 <= a <= b <= |l| && Strip(l) == l[a..b];
    forall j: nat | PartNumberAt(l[a..b], j) ensures false {
      PartNumberAtSlice(l, a, b, j);
    }
  }

  lemma StripKeeps(l: string)
    requires NoUpper(l) && '\n' !in l
    ensures NoUpper(Strip(l)) && '\n' !in Strip(l)
  {
    StripIsSlice(l);
    var a, b :| 0 <= a <= b <= |l| && Strip(l) == l[a..b];
    NoNewlineSlice(l, a, b);
    assert NoUpper(l[a..b]) by {
      forall k | 0 <= k < b - a ensures !IsUpper(l[a..b][k]) {
        assert l[a..b][k] == l[a + k];
      }
    }
  }

  /** Lower-casing and stripping a one-line string keep it free of `part\s+\d`. */
  lemma StripLowerClean(t: string)
    requires '\n' !in t && forall j: nat :: !PartNumberAt(t, j)
    ensures var r := Strip(Lower(t));
      NoUpper(r) && '\n' !in r && forall j: nat :: !PartNumberAt(r, j)
  {
    LowerNoUpper(t);
    NoNewlineLower(t);
    LowerClean(t);
    StripClean(Lower(t));
    StripKeeps(Lower(t));
  }

  /** For a one-line name the normalized base is lower case, stripped, one line, and
      free of any further `part <number>`. */
  lemma NormalizeQuestNameMeaning(name: string)
    requires '\n' !in name
    ensures var r := NormalizeQuestName(name);
      NoUpper(r)
      && (r == [] || (!IsSpace(r[0]) && !IsSpace(r[|r| - 1])))
      && '\n' !in r
      && forall j: nat :: !PartNumberAt(r, j)
  {
    var t1 := Sub(name, DashPartNumber);
    NoNewlineSub(name, DashPartNumber);
    NoNewlineSub(t1, PartNumber);
    SubPartNumberClean(t1);
    StripLowerClean(Sub(t1, PartNumber));
    StripEnds(Lower(Sub(t1, PartNumber)));
  }

  lemma StripEnds(s: string)
    ensures var r := Strip(s); r == [] || (!IsSpace(r[0]) && !IsSpace(r[|r| - 1]))
  {
    var t := TrimStart(s, IsSpace);
    var r := TrimEnd(t, IsSpace);
    if r != [] {
      assert r == t[..|r|];
      assert r[0] == t[0];
    }
  }

  /** A string that has nothing left to remove, no upper case and no outer whitespace
      normalizes to itself; with NormalizeQuestNameMeaning, normalizing twice gives the
      result of normalizing once. */
  lemma NormalizeFixed(r: string)
    requires NoUpper(r) && (r == [] || (!IsSpace(r[0]) && !IsSpace(r[|r| - 1])))
    requires forall j: nat :: !PartNumberAt(r, j)
    ensures NormalizeQuestName(r) == r
  {
    if FirstMatch(r, 0, DashPartNumber).Some? {
      MatchAtNeedsPart(r, FirstMatch(r, 0, DashPartNumber).value, DashPartNumber);
    }
    SubNoMatch(r, DashPartNumber);
    if FirstMatch(r, 0, PartNumber).Some? {
      MatchAtNeedsPart(r, FirstMatch(r, 0, PartNumber).value, PartNumber);
    }
    SubNoMatch(r, PartNumber);
    LowerIdentity(r);
    StripNoop(r);
  }

  lemma NormalizeIdempotent(name: string)
    requires '\n' !in name
    ensures NormalizeQuestName(NormalizeQuestName(name)) == NormalizeQuestName(name)
  {
    NormalizeQuestNameMeaning(name);
    NormalizeFixed(NormalizeQuestName(name));
  }
}
