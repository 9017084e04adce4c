// validate_npcs.py: normalize_npc_name, the canonical spelling of an NPC name found on the wiki.
module NpcNames {
  import opened Util

  /** npc_map, in listed order: a lower-case fragment and the canonical name it stands for. */
  const NpcMap: seq<(string, string)> := [
    ("prapor", "Prapor"),
    ("therapist", "Therapist"),
    ("skier", "Skier"),
    ("peacekeeper", "Peacekeeper"),
    ("mechanic", "Mechanic"),
    ("ragman", "Ragman"),
    ("jaeger", "Jaeger"),
    ("j\U{E4}ger", "Jaeger"),
    ("lightkeeper", "Lightkeeper"),
    ("light keeper", "Lightkeeper")
  ]

  /** The eight canonical NPC names. */
  const CanonicalNames: set<string> :=
    {"Prapor", "Therapist", "Skier", "Peacekeeper", "Mechanic", "Ragman", "Jaeger", "Lightkeeper"}

  /** Position of the first fragment, from index k on, that occurs in the text. */
  function FirstMatch(table: seq<(string, string)>, text: string, k: nat): (r: Option<nat>)
    requires k <= |table|
    ensures r.Some? ==>
      (k <= r.value < |table| && Contains(text, table[r.value].0)
      && forall j :: k <= j < r.value ==> !Contains(text, table[j].0))
    ensures r.None? ==> forall j :: k <= j < |table| ==> !Contains(text, table[j].0)
    decreases |table| - k
  {
    if k == |table| then None
    else if Contains(text, table[k].0) then Some(k)
    else FirstMatch(table, text, k + 1)
  }

  /** The name after stripping: the canonical name of the first fragment its lower-case form
      contains, or the name itself. */
  function Canonicalize(name: string): string {
    match FirstMatch(NpcMap, Lower(name), 0)
    case Some(k) => NpcMap[k].1
    case None => name
  }

  /** normalize_npc_name: None or "" give None; otherwise the stripped name, canonicalised. */
  function NormalizeNpcName(npcName: Option<string>): Option<string> {
    if npcName.None? || npcName.value == "" then None
    else Some(Canonicalize(Strip(npcName.value)))
  }

  // ---------------------------------------------------------------------
  // Properties
  // ---------------------------------------------------------------------

  /** No name only for a missing or empty name. */
  lemma NormalizeNone(npcName: Option<string>)
    ensures NormalizeNpcName(npcName).None? <==> npcName.None? || npcName.value == ""
  {
  }

  /** The search finds exactly the first fragment that occurs. */
  lemma FirstMatchIs(table: seq<(string, string)>, text: string, k: nat)
    requires k < |table| && Contains(text, table[k].0)
    requires forall j :: 0 <= j < k ==> !Contains(text, table[j].0)
    ensures FirstMatch(table, text, 0) == Some(k)
  {
    var r := FirstMatch(table, text, 0);
    assert r.Some? && !(r.value < k) && !(k < r.value);
  }

  /** The first fragment of the table, in listed order, that the lower-case name contains
      decides the result; with none, the name comes back unchanged. */
  lemma CanonicalizeMeaning(name: string)
    ensures forall k :: (0 <= k < |NpcMap| && Contains(Lower(name), NpcMap[k].0)
        && (forall j :: 0 <= j < k ==> !Contains(Lower(name), NpcMap[j].0))
        ==> Canonicalize(name) == NpcMap[k].1)
    ensures (forall k :: 0 <= k < |NpcMap| ==> !Contains(Lower(name), NpcMap[k].0))
        ==> Canonicalize(name) == name
  {
    forall k | 0 <= k < |NpcMap| && Contains(Lower(name), NpcMap[k].0)
        && (forall j :: 0 <= j < k ==> !Contains(Lower(name), NpcMap[j].0))
      ensures Canonicalize(name) == NpcMap[k].1
    {
      FirstMatchIs(NpcMap, Lower(name), k);
    }
  }

  /** Every table entry maps to a canonical name. */
  lemma MapIntoCanonical()
    ensures forall k :: 0 <= k < |NpcMap| ==> NpcMap[k].1 in CanonicalNames
  {
  }

  /** A non-empty name is normalised to one of the eight canonical names or to the stripped
      name. */
  lemma NormalizeRange(name: string)
    requires name != ""
    ensures NormalizeNpcName(Some(name)) == Some(Canonicalize(Strip(name)))
    ensures Canonicalize(Strip(name)) in CanonicalNames || Canonicalize(Strip(name)) == Strip(name)
  {
    MapIntoCanonical();
  }

  lemma ContainsWhole(s: string)
    ensures Contains(s, s)
  {
    assert OccursAt(s, s, 0);
  }

  lemma LightKeeperSearch()
    ensures FirstMatch(NpcMap, "light keeper", 0) == Some(9)
  {
    var low := "light keeper";
    LightKeeperMissesTraders();
    assert !Contains(low, NpcMap[8].0) by {
      assert !OccursAt(low, "lightkeeper", 0) by { assert low[5] != "lightkeeper"[5]; }
      assert !OccursAt(low, "lightkeeper", 1) by { assert low[1] != "lightkeeper"[0]; }
    }
    ContainsWhole(low);
    FirstMatchIs(NpcMap, low, 9);
  }

  /** "light keeper" contains none of the first eight fragments. */
  lemma LightKeeperMissesTraders()
    ensures forall j :: 0 <= j < 8 ==> !Contains("light keeper", NpcMap[j].0)
  {
    var low := "light keeper";
    LightKeeperLacks('a');
    LightKeeperLacks('s');
    LightKeeperLacks('m');
    LightKeeperLacks('j');
    NotContainsChar(low, "prapor", 'a');
    NotContainsChar(low, "therapist", 'a');
    NotContainsChar(low, "skier", 's');
    NotContainsChar(low, "peacekeeper", 'a');
    NotContainsChar(low, "mechanic", 'm');
    NotContainsChar(low, "ragman", 'a');
    NotContainsChar(low, "jaeger", 'a');
    NotContainsChar(low, "j\U{E4}ger", 'j');
  }

  lemma LightKeeperLacks(c: char)
    requires c == 'a' || c == 's' || c == 'm' || c == 'j'
    ensures c !in "light keeper"
  {
  }

  /** "Light Keeper" is canonicalised to "Lightkeeper". */
  lemma LightKeeperExample()
    ensures NormalizeNpcName(Some("Light Keeper")) == Some("Lightkeeper")
  {
    StripNoop("Light Keeper");
    LightKeeperLower();
    LightKeeperSearch();
  }

  lemma LightKeeperLower()
    ensures Lower("Light Keeper") == "light keeper"
  {
    var s := "Light Keeper";
    var t := "light keeper";
    forall i | 0 <= i < 12 ensures Lower(s)[i] == t[i] {
      assert Lower(s)[i] == LowerChar(s[i]);
    }
  }

  lemma FenceSearch()
    ensures FirstMatch(NpcMap, "fence", 0) == None
  {
    FenceMissesTraders();
    FenceMissesOthers();
    assert forall k :: 0 <= k < |NpcMap| ==> !Contains("fence", NpcMap[k].0);
  }

  lemma FenceMissesTraders()
    ensures forall j :: 0 <= j < 5 ==> !Contains("fence", NpcMap[j].0)
  {
    var low := "fence";
    NotContainsChar(low, "prapor", 'p');
    NotContainsChar(low, "therapist", 't');
    NotContainsChar(low, "skier", 's');
    NotContainsChar(low, "peacekeeper", 'p');
    NotContainsChar(low, "mechanic", 'm');
  }

  lemma FenceMissesOthers()
    ensures forall j :: 5 <= j < 10 ==> !Contains("fence", NpcMap[j].0)
  {
    var low := "fence";
    NotContainsChar(low, "ragman", 'r');
    NotContainsChar(low, "jaeger", 'j');
    NotContainsChar(low, "j\U{E4}ger", 'j');
    NotContainsChar(low, "lightkeeper", 'l');
    NotContainsChar(low, "light keeper", 'l');
  }

  /** A name no fragment matches comes back without its surrounding spaces. */
  lemma UnknownExample()
    ensures NormalizeNpcName(Some(" Fence ")) == Some("Fence")
  {
    FenceStrip();
    FenceLower();
    FenceSearch();
  }

  lemma FenceStrip()
    ensures Strip(" Fence ") == "Fence"
  {
    FenceTrimStart();
    FenceTrimEnd();
  }

  lemma FenceTrimStart()
    ensures TrimStart(" Fence ", IsSpace) == "Fence "
  {
    var a := " Fence ";
    assert IsSpace(a[0]) && a[1..] == "Fence ";
    TrimStartNoop("Fence ", IsSpace);
  }

  lemma FenceTrimEnd()
    ensures TrimEnd("Fence ", IsSpace) == "Fence"
  {
    var b := "Fence ";
    assert IsSpace(b[5]) && b[..5] == "Fence";
    TrimEndNoop("Fence", IsSpace);
  }

  lemma FenceLower()
    ensures Lower("Fence") == "fence"
  {
    var s := "Fence";
    var t := "fence";
    forall i | 0 <= i < 5 ensures Lower(s)[i] == t[i] {
      assert Lower(s)[i] == LowerChar(s[i]);
    }
  }

  /** A blank name is not None: it strips to "". */
  lemma BlankExample()
    ensures NormalizeNpcName(Some("  ")) == Some("")
  {
    assert TrimStart("  ", IsSpace) == "";
    assert Lower("") == "";
    assert FirstMatch(NpcMap, "", 0) == None by {
      forall k | 0 <= k < |NpcMap| ensures !Contains("", NpcMap[k].0) {
        assert |NpcMap[k].0| > 0;
      }
    }
  }

  lemma JaegerSearch()
    ensures FirstMatch(NpcMap, "j\U{E4}ger", 0) == Some(7)
  {
    var low := "j\U{E4}ger";
    NotContainsChar(low, NpcMap[0].0, 'p');
    NotContainsChar(low, NpcMap[1].0, 't');
    NotContainsChar(low, NpcMap[2].0, 's');
    NotContainsChar(low, NpcMap[3].0, 'p');
    NotContainsChar(low, NpcMap[4].0, 'm');
    NotContainsChar(low, NpcMap[5].0, 'a');
    NotContainsChar(low, NpcMap[6].0, 'a');
    ContainsWhole(low);
    FirstMatchIs(NpcMap, low, 7);
  }

  /** "Jäger" is canonicalised to "Jaeger". */
  lemma JaegerExample()
    ensures NormalizeNpcName(Some("J\U{E4}ger")) == Some("Jaeger")
  {
    StripNoop("J\U{E4}ger");
    JaegerLower();
    JaegerSearch();
  }

  lemma JaegerLower()
    ensures Lower("J\U{E4}ger") == "j\U{E4}ger"
  {
    var s := "J\U{E4}ger";
    var t := "j\U{E4}ger";
    forall i | 0 <= i < 5 ensures Lower(s)[i] == t[i] {
      assert Lower(s)[i] == LowerChar(s[i]);
    }
  }
}
