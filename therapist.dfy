// The Therapist availability check: which prerequisites keep a quest from
// being available for a given list of completed ids, and which kappa quests
// of the Therapist should show as available.
module Therapist {
  import opened Util
  import opened Catalog
  import Simulate

  /** The entry for one prerequisite that keeps the quest unavailable, if it does. */
  function MessageOf(p: string, completed: seq<string>, idx: map<string, Located>): Option<string> {
    if p !in idx then Some(p + " (NAO EXISTE)")
    else if p !in completed then Some(idx[p].quest.name + " (" + idx[p].npc + ")")
    else None
  }

  /** The entries for a list of prerequisites, in list order. */
  function Messages(ps: seq<string>, completed: seq<string>, idx: map<string, Located>): seq<string>
    decreases |ps|
  {
    if ps == [] then []
    else
      var m := MessageOf(ps[|ps| - 1], completed, idx);
      Messages(ps[..|ps| - 1], completed, idx) + (if m.Some? then [m.value] else [])
  }

  /** check_availability's answer: available iff nothing is missing, with the missing entries. */
  function Availability(q: Quest, completed: seq<string>, idx: map<string, Located>): (bool, seq<string>) {
    var ps := AllPrereqs(q);
    if ps == [] then (true, [])
    else
      var missing := Messages(ps, completed, idx);
      (|missing| == 0, missing)
  }

  method CheckAvailability(q: Quest, completed: seq<string>, idx: map<string, Located>)
    returns (isAvailable: bool, missing: seq<string>)
    ensures (isAvailable, missing) == Availability(q, completed, idx)
  {
    var allPrereqs := q.prerequisites + q.prerequisitesExternal;
    if allPrereqs == [] {
      return true, [];
    }
    missing := [];
    for i := 0 to |allPrereqs|
      invariant missing == Messages(allPrereqs[..i], completed, idx)
    {
      assert allPrereqs[..i + 1][..i] == allPrereqs[..i];
      var p := allPrereqs[i];
      if p !in idx {
        missing := missing + [p + " (NAO EXISTE)"];
      } else if p !in completed {
        missing := missing + [idx[p].quest.name + " (" + idx[p].npc + ")"];
      }
    }
    assert allPrereqs[..|allPrereqs|] == allPrereqs;
    isAvailable := |missing| == 0;
  }

  /** No entries iff every prerequisite is indexed and completed. */
  lemma {:induction false} MessagesEmptyIff(ps: seq<string>, completed: seq<string>, idx: map<string, Located>)
    ensures Messages(ps, completed, idx) == [] <==> forall i :: 0 <= i < |ps| ==> ps[i] in idx && ps[i] in completed
    decreases |ps|
  {
    if ps != [] {
      var init := ps[..|ps| - 1];
      MessagesEmptyIff(init, completed, idx);
      assert forall i :: 0 <= i < |init| ==> init[i] == ps[i];
    }
  }

  /** The number of entries is the number of prerequisites that are unindexed or not completed, and
      an unindexed one is tagged as not existing. */
  lemma MessagesCount(ps: seq<string>, completed: seq<string>, idx: map<string, Located>)
    ensures |Messages(ps, completed, idx)| == |Filter(ps, Blocking(completed, idx))|
    ensures forall p :: p in ps && p !in idx ==> p + " (NAO EXISTE)" in Messages(ps, completed, idx)
  {
    MessagesLength(ps, completed, idx);
    forall p | p in ps && p !in idx ensures p + " (NAO EXISTE)" in Messages(ps, completed, idx) {
      MessagesTagged(ps, completed, idx, p);
    }
  }

  lemma {:induction false} MessagesLength(ps: seq<string>, completed: seq<string>, idx: map<string, Located>)
    ensures |Messages(ps, completed, idx)| == |Filter(ps, Blocking(completed, idx))|
    decreases |ps|
  {
    if ps != [] {
      var init := ps[..|ps| - 1];
      MessagesLength(init, completed, idx);
      var m := MessageOf(ps[|ps| - 1], completed, idx);
      assert |Messages(ps, completed, idx)| == |Messages(init, completed, idx)| + (if m.Some? then 1 else 0);
      assert m.Some? <==> Blocking(completed, idx)(ps[|ps| - 1]);
      assert ps == init + [ps[|ps| - 1]];
      FilterAppend(init, [ps[|ps| - 1]], Blocking(completed, idx));
      FilterSingleton(ps[|ps| - 1], Blocking(completed, idx));
    }
  }

  lemma {:induction false} MessagesTagged(ps: seq<string>, completed: seq<string>, idx: map<string, Located>, p: string)
    requires p in ps && p !in idx
    ensures p + " (NAO EXISTE)" in Messages(ps, completed, idx)
    decreases |ps|
  {
    var init := ps[..|ps| - 1];
    var tail := MessageOf(ps[|ps| - 1], completed, idx);
    assert Messages(ps, completed, idx) == Messages(init, completed, idx) + (if tail.Some? then [tail.value] else []);
    if p != ps[|ps| - 1] {
      var k :| 0 <= k < |ps| && ps[k] == p;
      assert init[k] == p;
      MessagesTagged(init, completed, idx, p);
    }
  }

  function Blocking(completed: seq<string>, idx: map<string, Located>): string -> bool {
    (p: string) => p !in idx || p !in completed
  }

  /** No prerequisites: available with nothing missing; in general available iff nothing is missing. */
  lemma AvailabilityMeaning(q: Quest, completed: seq<string>, idx: map<string, Located>)
    ensures AllPrereqs(q) == [] ==> Availability(q, completed, idx) == (true, [])
    ensures Availability(q, completed, idx).0 <==> Availability(q, completed, idx).1 == []
  {
  }

  /** This check and the simulator's prerequisite test agree on every quest. */
  lemma AgreesWithSimulator(q: Quest, completed: seq<string>, idx: map<string, Located>)
    ensures Availability(q, completed, idx).0 == Simulate.AllMet(q, (set c | c in completed), idx)
  {
    MessagesEmptyIff(AllPrereqs(q), completed, idx);
  }

  // ---------------------------------------------------------------------
  // main: the kappa quests that should be available
  // ---------------------------------------------------------------------

  /** The quests the player has active in the game. */
  const ActiveQuests: seq<string> := ["pharmacist", "postman_pat_part_2", "out_of_curiosity", "operation_aquarius_part_1"]

  datatype Listed = Listed(name: string, id: string)

  predicate ShouldBeAvailable(q: Quest, idx: map<string, Located>) {
    q.kappaRequired && Availability(q, ActiveQuests, idx).0 && q.id !in ActiveQuests
  }

  /** The row a quest contributes to the listing, if it should be available. */
  function ListedOf(q: Quest, idx: map<string, Located>): Option<Listed> {
    if ShouldBeAvailable(q, idx) then Some(Listed(q.name, q.id)) else None
  }

  function ListedFn(idx: map<string, Located>): Quest -> Option<Listed> {
    (q: Quest) => ListedOf(q, idx)
  }

  function ListingOf(quests: seq<Quest>, idx: map<string, Located>): seq<Listed> {
    Collect(quests, ListedFn(idx))
  }

  /** The Therapist's quests that should be available; None when the catalog has no Therapist
      (the lookup of data['npcs']['therapist'] fails). */
  method KappaShouldBeAvailable(cat: seq<Npc>, idx: map<string, Located>) returns (listing: Option<seq<Listed>>)
    ensures NpcByKey(cat, "therapist").None? ==> listing.None?
    ensures NpcByKey(cat, "therapist").Some? ==> listing == Some(ListingOf(NpcByKey(cat, "therapist").value.quests, idx))
  {
    var therapist := NpcByKey(cat, "therapist");
    if therapist.None? {
      return None;
    }
    var quests := therapist.value.quests;
    var out: seq<Listed> := [];
    for i := 0 to |quests|
      invariant out == ListingOf(quests[..i], idx)
    {
      CollectSnoc(quests, i, ListedFn(idx));
      var q := quests[i];
      if !q.kappaRequired {
        continue;
      }
      var isAvailable, _ := CheckAvailability(q, ActiveQuests, idx);
      if isAvailable && q.id !in ActiveQuests {
        out := out + [Listed(q.name, q.id)];
      }
    }
    assert quests[..|quests|] == quests;
    return Some(out);
  }

  /** A quest is listed iff it is a kappa quest of that list, available for the active ids and not active itself. */
  lemma ListingIff(quests: seq<Quest>, idx: map<string, Located>, r: Listed)
    ensures r in ListingOf(quests, idx) <==>
      exists k :: 0 <= k < |quests| && r == Listed(quests[k].name, quests[k].id)
        && quests[k].kappaRequired && Availability(quests[k], ActiveQuests, idx).0 && quests[k].id !in ActiveQuests
  {
    var f := ListedFn(idx);
    CollectMember(quests, f, r);
    if r in ListingOf(quests, idx) {
      var k :| 0 <= k < |quests| && f(quests[k]) == Some(r);
      assert ShouldBeAvailable(quests[k], idx);
    }
    if exists k :: 0 <= k < |quests| && r == Listed(quests[k].name, quests[k].id)
        && quests[k].kappaRequired && Availability(quests[k], ActiveQuests, idx).0 && quests[k].id !in ActiveQuests {
      var k :| 0 <= k < |quests| && r == Listed(quests[k].name, quests[k].id)
        && quests[k].kappaRequired && Availability(quests[k], ActiveQuests, idx).0 && quests[k].id !in ActiveQuests;
      assert f(quests[k]) == Some(r);
    }
  }
}
