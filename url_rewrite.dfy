// The loop fix_wiki_links.py and fix_capitalization.py share: for every quest of every NPC,
// compute a new wikiUrl; where it differs from the stored one, overwrite it in place and
// count the change.
module UrlRewrite {
  import opened Util
  import opened Catalog

  /** A quest with its wikiUrl replaced by the one computed for it. */
  function RewriteQuest(q: Quest, f: Quest -> string): Quest {
    q.(wikiUrl := f(q))
  }

  function RewriteQuests(qs: seq<Quest>, f: Quest -> string): seq<Quest> {
    seq(|qs|, j requires 0 <= j < |qs| => RewriteQuest(qs[j], f))
  }

  function RewriteNpc(n: Npc, f: Quest -> string): Npc {
    n.(quests := RewriteQuests(n.quests, f))
  }

  /** The database after the loop: every quest's URL is the computed one. */
  function RewriteCatalog(cat: seq<Npc>, f: Quest -> string): seq<Npc> {
    seq(|cat|, i requires 0 <= i < |cat| => RewriteNpc(cat[i], f))
  }

  /** A quest whose computed URL is not the stored one. */
  function Changed(f: Quest -> string): Entry -> bool {
    (e: Entry) => f(e.quest) != e.quest.wikiUrl
  }

  /** The quests the loop counts, in visiting order. */
  function ChangedEntries(cat: seq<Npc>, f: Quest -> string): seq<Entry> {
    Filter(Entries(cat), Changed(f))
  }

  /** The inner loop, over the quests of the i-th NPC: each quest's URL is overwritten in
      its list, and the list is stored back under the NPC. */
  method RewriteNpcUrls(db: Database, i: nat, f: Quest -> string) returns (count: nat)
    requires i < |db.npcs|
    modifies db
    ensures db.npcs == old(db.npcs)[i := RewriteNpc(old(db.npcs)[i], f)]
    ensures count == |Filter(NpcEntries(old(db.npcs)[i]), Changed(f))|
  {
    var n := db.npcs[i];
    var quests := n.quests;
    count := 0;
    for j := 0 to |quests|
      invariant db.npcs == old(db.npcs)
      invariant QuestsUpTo(quests, n.quests, f, j)
      invariant count == |Filter(NpcEntries(n)[..j], Changed(f))|
    {
      var q := quests[j];
      CountedStep(n, j, f);
      QuestsStep(quests, n.quests, f, j);
      var newUrl := f(q);
      if q.wikiUrl != newUrl {
        quests := quests[j := q.(wikiUrl := newUrl)];
        count := count + 1;
      }
    }
    assert NpcEntries(n)[..|n.quests|] == NpcEntries(n);
    QuestsAll(quests, n.quests, f);
    db.npcs := db.npcs[i := n.(quests := quests)];
  }

  /** The quests before j carry their computed URL and the rest are as they were. */
  predicate QuestsUpTo(now: seq<Quest>, orig: seq<Quest>, f: Quest -> string, j: nat) {
    |now| == |orig| && j <= |orig|
    && (forall k :: 0 <= k < j ==> now[k] == RewriteQuest(orig[k], f))
    && forall k :: j <= k < |orig| ==> now[k] == orig[k]
  }

  lemma QuestsStep(now: seq<Quest>, orig: seq<Quest>, f: Quest -> string, j: nat)
    requires QuestsUpTo(now, orig, f, j) && j < |orig|
    ensures now[j] == orig[j]
    ensures orig[j].wikiUrl != f(orig[j]) ==> QuestsUpTo(now[j := orig[j].(wikiUrl := f(orig[j]))], orig, f, j + 1)
    ensures orig[j].wikiUrl == f(orig[j]) ==> QuestsUpTo(now, orig, f, j + 1)
  {
  }

  lemma QuestsAll(now: seq<Quest>, orig: seq<Quest>, f: Quest -> string)
    requires QuestsUpTo(now, orig, f, |orig|)
    ensures now == RewriteQuests(orig, f)
  {
  }

  lemma CountedStep(n: Npc, j: nat, f: Quest -> string)
    requires j < |n.quests|
    ensures |Filter(NpcEntries(n)[..j + 1], Changed(f))| ==
      |Filter(NpcEntries(n)[..j], Changed(f))| + (if f(n.quests[j]) != n.quests[j].wikiUrl then 1 else 0)
  {
    assert NpcEntries(n)[..j + 1][..j] == NpcEntries(n)[..j];
  }

  lemma CountedPrefix(cat: seq<Npc>, i: nat, f: Quest -> string)
    requires i < |cat|
    ensures |Filter(Entries(cat[..i + 1]), Changed(f))| ==
      |Filter(Entries(cat[..i]), Changed(f))| + |Filter(NpcEntries(cat[i]), Changed(f))|
  {
    EntriesPrefix(cat, i);
    FilterAppend(Entries(cat[..i]), NpcEntries(cat[i]), Changed(f));
  }

  /** The loop over the NPCs and their quests. */
  method RewriteUrls(db: Database, f: Quest -> string) returns (fixedCount: nat)
    modifies db
    ensures db.npcs == RewriteCatalog(old(db.npcs), f)
    ensures fixedCount == |ChangedEntries(old(db.npcs), f)|
  {
    ghost var start := db.npcs;
    fixedCount := 0;
    for i := 0 to |db.npcs|
      invariant RewrittenUpTo(db.npcs, start, f, i)
      invariant fixedCount == |Filter(Entries(start[..i]), Changed(f))|
    {
      ghost var before := db.npcs;
      var count := RewriteNpcUrls(db, i, f);
      RewrittenStep(before, start, f, i);
      CountedPrefix(start, i, f);
      fixedCount := fixedCount + count;
    }
    assert start[..|start|] == start;
    RewrittenAll(db.npcs, start, f);
  }

  /** The NPCs before i are rewritten and the rest are as they were. */
  predicate RewrittenUpTo(now: seq<Npc>, start: seq<Npc>, f: Quest -> string, i: nat) {
    |now| == |start| && i <= |start|
    && (forall k :: 0 <= k < i ==> now[k] == RewriteNpc(start[k], f))
    && forall k :: i <= k < |start| ==> now[k] == start[k]
  }

  lemma RewrittenStep(now: seq<Npc>, start: seq<Npc>, f: Quest -> string, i: nat)
    requires RewrittenUpTo(now, start, f, i) && i < |start|
    ensures RewrittenUpTo(now[i := RewriteNpc(now[i], f)], start, f, i + 1)
  {
  }

  lemma RewrittenAll(now: seq<Npc>, start: seq<Npc>, f: Quest -> string)
    requires RewrittenUpTo(now, start, f, |start|)
    ensures now == RewriteCatalog(start, f)
  {
  }

  // ---------------------------------------------------------------------
  // Properties
  // ---------------------------------------------------------------------

  /** One NPC is left as it was exactly when none of its quests is counted. */
  lemma NpcUnchangedIff(n: Npc, f: Quest -> string)
    ensures RewriteNpc(n, f) == n <==> Filter(NpcEntries(n), Changed(f)) == []
  {
    FilterEmptyIff(NpcEntries(n), Changed(f));
    if RewriteNpc(n, f) == n {
      forall j | 0 <= j < |n.quests| ensures f(n.quests[j]) == n.quests[j].wikiUrl {
        assert RewriteNpc(n, f).quests[j] == n.quests[j];
      }
    }
    if Filter(NpcEntries(n), Changed(f)) == [] {
      forall j | 0 <= j < |n.quests| ensures RewriteQuests(n.quests, f)[j] == n.quests[j] {
        assert !Changed(f)(NpcEntries(n)[j]);
      }
    }
  }

  /** The database is left as it was exactly when the count is zero. */
  lemma {:induction false} UnchangedIff(cat: seq<Npc>, f: Quest -> string)
    ensures RewriteCatalog(cat, f) == cat <==> |ChangedEntries(cat, f)| == 0
    decreases |cat|
  {
    if cat != [] {
      var p := cat[..|cat| - 1];
      var n := cat[|cat| - 1];
      UnchangedIff(p, f);
      NpcUnchangedIff(n, f);
      FilterAppend(Entries(p), NpcEntries(n), Changed(f));
      assert RewriteCatalog(cat, f) == RewriteCatalog(p, f) + [RewriteNpc(n, f)];
      assert cat == p + [n];
    }
  }

  /** Each counted quest is one whose computed URL differs, and every such quest is counted. */
  lemma ChangedMeaning(cat: seq<Npc>, f: Quest -> string, e: Entry)
    ensures e in ChangedEntries(cat, f) <==> e in Entries(cat) && f(e.quest) != e.quest.wikiUrl
  {
    FilterMember(Entries(cat), Changed(f), e);
  }
}
