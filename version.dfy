// update_version.py and check_new_branch.py: `major.minor.patch` version strings,
// their increments, and when each script writes a new version. The git queries and
// the version.json reads are parameters.
module Version {
  import opened Util

  /** A version as the scripts unpack it: (major, minor, patch). */
  datatype Triple = Triple(major: int, minor: int, patch: int)

  /** What a run of one of the scripts does to version.json. */
  datatype Outcome =
    | Unchanged            // nothing written
    | Written(v: string)   // update_version_file(v)
    | Crashed              // ValueError from int() or from unpacking the parts

  /** The value both scripts fall back to (missing file, missing key, failed git show). */
  const DefaultVersion := "0.0.1"

  /** data.get('version', '0.0.1') on a version.json that may be absent. */
  function Stored(version: Option<string>): string {
    if version.Some? then version.value else DefaultVersion
  }

  // ---------------------------------------------------------------------
  // parse_version / format_version
  // ---------------------------------------------------------------------

  /** tuple(read(p) for p in ps): None as soon as one part cannot be read. */
  function ReadAll(ps: seq<string>, read: string -> Option<int>): (r: Option<seq<int>>)
    ensures r.Some? ==> |r.value| == |ps| && forall k :: 0 <= k < |ps| ==> read(ps[k]) == Some(r.value[k])
    ensures r.None? <==> exists k :: 0 <= k < |ps| && read(ps[k]).None?
    decreases |ps|
  {
    if ps == [] then Some([])
    else
      match read(ps[0])
      case None => None
      case Some(n) =>
        match ReadAll(ps[1..], read)
        case None => None
        case Some(ns) => Some([n] + ns)
  }

  function PyIntFn(): string -> Option<int> {
    (p: string) => PyInt(p)
  }

  /** parse_version(s): split on '.', then int() on every part; the tuple may have any length. */
  function ParseVersion(s: string): (r: Option<seq<int>>)
    ensures r.None? <==> exists k :: 0 <= k < |Split(s, '.')| && PyInt(Split(s, '.')[k]).None?
    ensures r.Some? ==>
      |r.value| == |Split(s, '.')| && forall k :: 0 <= k < |r.value| ==> PyInt(Split(s, '.')[k]) == Some(r.value[k])
  {
    ReadAll(Split(s, '.'), PyIntFn())
  }

  /** `major, minor, patch = parse_version(s)`: None where Python raises ValueError. */
  function Unpack(s: string): (r: Option<Triple>)
    ensures r.Some? <==> ParseVersion(s).Some? && |ParseVersion(s).value| == 3
    ensures r.Some? ==> ParseVersion(s).value == [r.value.major, r.value.minor, r.value.patch]
  {
    match ParseVersion(s)
    case None => None
    case Some(ns) => if |ns| == 3 then Some(Triple(ns[0], ns[1], ns[2])) else None
  }

  /** format_version(major, minor, patch): f"{major}.{minor}.{patch}". */
  function FormatVersion(t: Triple): string {
    IntToString(t.major) + "." + IntToString(t.minor) + "." + IntToString(t.patch)
  }

  // ---------------------------------------------------------------------
  // increment_*
  // ---------------------------------------------------------------------

  function IncrementPatch(t: Triple): Triple {
    Triple(t.major, t.minor, t.patch + 1)
  }

  function IncrementMinor(t: Triple): Triple {
    Triple(t.major, t.minor + 1, 0)
  }

  function IncrementMajor(t: Triple): Triple {
    Triple(t.major + 1, 0, 0)
  }

  /** Lexicographic order on (major, minor, patch), as Python compares tuples. */
  predicate Less(a: Triple, b: Triple) {
    a.major < b.major
    || (a.major == b.major && a.minor < b.minor)
    || (a.major == b.major && a.minor == b.minor && a.patch < b.patch)
  }

  /** Each increment moves only the components its name says, and always upwards. */
  lemma IncrementsGrow(t: Triple)
    ensures IncrementPatch(t).major == t.major && IncrementPatch(t).minor == t.minor && IncrementPatch(t).patch == t.patch + 1
    ensures IncrementMinor(t).major == t.major && IncrementMinor(t).minor == t.minor + 1 && IncrementMinor(t).patch == 0
    ensures IncrementMajor(t).major == t.major + 1 && IncrementMajor(t).minor == 0 && IncrementMajor(t).patch == 0
    ensures Less(t, IncrementPatch(t)) && Less(t, IncrementMinor(t)) && Less(t, IncrementMajor(t))
    ensures Less(IncrementPatch(t), IncrementMinor(t)) && Less(IncrementMinor(t), IncrementMajor(t))
  {
  }

  // ---------------------------------------------------------------------
  // Round trips
  // ---------------------------------------------------------------------

  lemma IntToStringNoDot(i: int)
    ensures '.' !in IntToString(i)
  {
    var n: nat := if i < 0 then -i else i;
    NatToStringCanonical(n);
    assert forall k :: 0 <= k < |NatToString(n)| ==> NatToString(n)[k] != '.';
  }

  lemma JoinThree(a: string, b: string, c: string)
    ensures Join([a, b, c], '.') == a + "." + b + "." + c
  {
    assert [a, b, c][1..] == [b, c];
    assert [b, c][1..] == [c];
    assert Join([c], '.') == c;
    assert Join([b, c], '.') == b + "." + c;
  }

  /** Three parts that can be read give their three values. */
  lemma ReadThree(ps: seq<string>, read: string -> Option<int>, x: int, y: int, z: int)
    requires |ps| == 3 && read(ps[0]) == Some(x) && read(ps[1]) == Some(y) && read(ps[2]) == Some(z)
    ensures ReadAll(ps, read) == Some([x, y, z])
  {
    var p2 := ps[2..];
    assert p2[0] == ps[2] && p2[1..] == [];
    assert ReadAll(p2[1..], read) == Some([]);
    assert [z] + [] == [z];
    assert ReadAll(p2, read) == Some([z]);
    var p1 := ps[1..];
    assert p1[0] == ps[1] && p1[1..] == p2;
    assert [y] + [z] == [y, z];
    assert ReadAll(p1, read) == Some([y, z]);
    assert [x] + [y, z] == [x, y, z];
  }

  /** Splitting a + "." + b + "." + c gives the three parts back when none holds a dot. */
  lemma SplitThree(a: string, b: string, c: string)
    requires '.' !in a && '.' !in b && '.' !in c
    ensures Split(a + "." + b + "." + c, '.') == [a, b, c]
  {
    JoinThree(a, b, c);
    SplitJoin([a, b, c], '.');
  }

  /** parse_version(format_version(a, b, c)) == (a, b, c), for every integer component. */
  lemma ParseFormat(t: Triple)
    ensures ParseVersion(FormatVersion(t)) == Some([t.major, t.minor, t.patch])
    ensures Unpack(FormatVersion(t)) == Some(t)
  {
    var a, b, c := IntToString(t.major), IntToString(t.minor), IntToString(t.patch);
    assert Split(FormatVersion(t), '.') == [a, b, c] by {
      IntToStringNoDot(t.major);
      IntToStringNoDot(t.minor);
      IntToStringNoDot(t.patch);
      SplitThree(a, b, c);
    }
    assert PyIntFn()(a) == Some(t.major) by { PyIntOfIntToString(t.major); }
    assert PyIntFn()(b) == Some(t.minor) by { PyIntOfIntToString(t.minor); }
    assert PyIntFn()(c) == Some(t.patch) by { PyIntOfIntToString(t.patch); }
    ParseParts(FormatVersion(t), a, b, c, t.major, t.minor, t.patch);
  }

  /** A version that splits into three readable parts parses to their values. */
  lemma ParseParts(s: string, a: string, b: string, c: string, x: int, y: int, z: int)
    requires Split(s, '.') == [a, b, c]
    requires PyIntFn()(a) == Some(x) && PyIntFn()(b) == Some(y) && PyIntFn()(c) == Some(z)
    ensures ParseVersion(s) == Some([x, y, z])
    ensures Unpack(s) == Some(Triple(x, y, z))
  {
    ReadThree([a, b, c], PyIntFn(), x, y, z);
  }

  /** Three numerals joined by dots parse to their three values. */
  lemma ParseNumerals(a: string, b: string, c: string)
    requires Canonical(a) && Canonical(b) && Canonical(c)
    ensures ParseVersion(a + "." + b + "." + c) == Some([DigitsValue(a) as int, DigitsValue(b) as int, DigitsValue(c) as int])
  {
    assert Split(a + "." + b + "." + c, '.') == [a, b, c] by {
      assert forall k :: 0 <= k < |a| ==> a[k] != '.';
      assert forall k :: 0 <= k < |b| ==> b[k] != '.';
      assert forall k :: 0 <= k < |c| ==> c[k] != '.';
      SplitThree(a, b, c);
    }
    assert PyIntFn()(a) == Some(DigitsValue(a) as int) by { PyIntOfNumeral(a); }
    assert PyIntFn()(b) == Some(DigitsValue(b) as int) by { PyIntOfNumeral(b); }
    assert PyIntFn()(c) == Some(DigitsValue(c) as int) by { PyIntOfNumeral(c); }
    ParseParts(a + "." + b + "." + c, a, b, c, DigitsValue(a), DigitsValue(b), DigitsValue(c));
  }

  /** format_version(*parse_version(s)) == s when s is three canonical decimal numerals
      joined by dots. */
  lemma FormatParse(a: string, b: string, c: string)
    requires Canonical(a) && Canonical(b) && Canonical(c)
    ensures Unpack(a + "." + b + "." + c).Some?
    ensures FormatVersion(Unpack(a + "." + b + "." + c).value) == a + "." + b + "." + c
  {
    ParseNumerals(a, b, c);
    var t := Triple(DigitsValue(a), DigitsValue(b), DigitsValue(c));
    assert Unpack(a + "." + b + "." + c) == Some(t);
    CanonicalRoundTrip(a);
    CanonicalRoundTrip(b);
    CanonicalRoundTrip(c);
  }

  /** A component that int() refuses makes parse_version fail. */
  lemma ParseRejects(s: string, k: nat)
    requires k < |Split(s, '.')| && PyInt(Split(s, '.')[k]).None?
    ensures ParseVersion(s).None? && Unpack(s).None?
  {
  }

  /** A dotless word such as "beta" is one part int() refuses. */
  lemma ParseRejectsWord()
    ensures ParseVersion("beta").None?
  {
    assert Split("beta", '.') == ["beta"];
    assert Strip("beta") == "beta" by { StripNoop("beta"); }
    assert !DigitBody("beta");
  }

  // ---------------------------------------------------------------------
  // update_version.py main
  // ---------------------------------------------------------------------

  /** update_version.py main: parse the stored version (crashing if it does not unpack),
      then bump the patch only when recent merges were seen. */
  function UpdateVersionMain(stored: Option<string>, hasMerges: bool): Outcome {
    match Unpack(Stored(stored))
    case None => Crashed
    case Some(t) => if hasMerges then Written(FormatVersion(IncrementPatch(t))) else Unchanged
  }

  /** Only a merge makes update_version.py write, and what it writes is the patch bump of
      the stored version; without merges a parseable version is left as it is. */
  lemma UpdateVersionMeaning(stored: Option<string>, hasMerges: bool)
    ensures UpdateVersionMain(stored, hasMerges).Crashed? <==> Unpack(Stored(stored)).None?
    ensures UpdateVersionMain(stored, hasMerges).Written? <==> hasMerges && Unpack(Stored(stored)).Some?
    ensures UpdateVersionMain(stored, hasMerges).Written? ==>
      var t := Unpack(Stored(stored)).value;
      Unpack(UpdateVersionMain(stored, hasMerges).v) == Some(Triple(t.major, t.minor, t.patch + 1))
    ensures stored.None? ==> UpdateVersionMain(stored, hasMerges) == (if hasMerges then Written("0.0.2") else Unchanged)
  {
    if Unpack(Stored(stored)).Some? {
      ParseFormat(IncrementPatch(Unpack(Stored(stored)).value));
    }
    if stored.None? {
      DefaultUnpacks();
    }
  }

  /** The fallback version unpacks to (0, 0, 1), and its patch bump prints as "0.0.2". */
  lemma DefaultUnpacks()
    ensures Unpack(DefaultVersion) == Some(Triple(0, 0, 1))
    ensures FormatVersion(IncrementPatch(Triple(0, 0, 1))) == "0.0.2"
  {
    DefaultFormats();
    ParseFormat(Triple(0, 0, 1));
    BumpFormats();
  }

  lemma DefaultFormats()
    ensures FormatVersion(Triple(0, 0, 1)) == DefaultVersion
  {
    assert IntToString(0) == "0" && IntToString(1) == "1";
  }

  lemma BumpFormats()
    ensures FormatVersion(Triple(0, 0, 2)) == "0.0.2"
  {
    assert IntToString(0) == "0" && IntToString(2) == "2";
  }

  // ---------------------------------------------------------------------
  // check_new_branch.py
  // ---------------------------------------------------------------------

  /** The branches that never bump the version: the main lines and the start branch. */
  predicate Protected(branch: string) {
    branch == "master" || branch == "main" || branch == "hu05"
  }

  /** is_new_branch, with the answers of git as parameters: the current branch name (None
      when rev-parse fails), whether it is on the remote, and the two stored versions. */
  function IsNewBranch(branch: Option<string>, existsRemote: bool, masterStored: Option<string>,
                       currentStored: Option<string>): bool {
    if branch.None? || branch.value == "" || branch.value == "HEAD" then false
    else if Protected(branch.value) then false
    else if existsRemote then false
    else Stored(currentStored) == Stored(masterStored)
  }

  /** A branch is new exactly when it has a real name, is none of master/main/hu05, is not
      on the remote, and its version still equals master's. */
  lemma IsNewBranchMeaning(branch: Option<string>, existsRemote: bool, masterStored: Option<string>,
                           currentStored: Option<string>)
    ensures IsNewBranch(branch, existsRemote, masterStored, currentStored) <==>
      branch.Some? && branch.value != "" && branch.value != "HEAD"
      && branch.value != "master" && branch.value != "main" && branch.value != "hu05"
      && !existsRemote && Stored(currentStored) == Stored(masterStored)
  {
  }

  /** check_new_branch.py main: outside a git work tree, or on a branch that is not new,
      nothing happens; otherwise master's version is parsed and its patch bumped. */
  function CheckNewBranchMain(isRepo: bool, branch: Option<string>, existsRemote: bool,
                              masterStored: Option<string>, currentStored: Option<string>): Outcome {
    if !isRepo || !IsNewBranch(branch, existsRemote, masterStored, currentStored) then Unchanged
    else
      match Unpack(Stored(masterStored))
      case None => Crashed
      case Some(t) => Written(FormatVersion(IncrementPatch(t)))
  }

  /** The version written on a new branch is master's with the patch raised by one and major
      and minor kept; on any other branch nothing is written. */
  lemma NewBranchVersion(isRepo: bool, branch: Option<string>, existsRemote: bool,
                         masterStored: Option<string>, currentStored: Option<string>)
    ensures CheckNewBranchMain(isRepo, branch, existsRemote, masterStored, currentStored).Written? <==>
      isRepo && IsNewBranch(branch, existsRemote, masterStored, currentStored) && Unpack(Stored(masterStored)).Some?
    ensures CheckNewBranchMain(isRepo, branch, existsRemote, masterStored, currentStored).Written? ==>
      var t := Unpack(Stored(masterStored)).value;
      var w := Unpack(CheckNewBranchMain(isRepo, branch, existsRemote, masterStored, currentStored).v);
      w == Some(IncrementPatch(t)) && Less(t, w.value)
  {
    if Unpack(Stored(masterStored)).Some? {
      ParseFormat(IncrementPatch(Unpack(Stored(masterStored)).value));
    }
  }
}
