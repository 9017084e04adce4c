// The dict-of-lists idiom of the tier scripts:
//   groups = {}
//   for x in xs:
//     if key(x) not in groups: groups[key(x)] = []
//     groups[key(x)].append(x)
// A dict keeps its keys in first-insertion order, so it is modelled as a list of
// (key, items) pairs in that order.
module Grouping {
  import opened Util

  /** The position of key k among the groups, if present. */
  function GroupPos<K(==), T>(g: seq<(K, seq<T>)>, k: K): (r: Option<nat>)
    ensures r.Some? ==> r.value < |g| && g[r.value].0 == k
    ensures r.None? ==> forall j :: 0 <= j < |g| ==> g[j].0 != k
    decreases |g|
  {
    if g == [] then None
    else if g[0].0 == k then Some(0)
    else match GroupPos(g[1..], k)
      case None => None
      case Some(j) => Some(j + 1)
  }

  /** The dict after the loop over s. */
  function GroupBy<T, K(==)>(s: seq<T>, key: T -> K): seq<(K, seq<T>)>
    decreases |s|
  {
    if s == [] then []
    else
      var g := GroupBy(s[..|s| - 1], key);
      var x := s[|s| - 1];
      match GroupPos(g, key(x))
      case None => g + [(key(x), [x])]
      case Some(j) => g[j := (key(x), g[j].1 + [x])]
  }

  /** The dict's keys in order. */
  function Keys<K, T>(g: seq<(K, seq<T>)>): (ks: seq<K>)
    ensures |ks| == |g| && forall j :: 0 <= j < |g| ==> ks[j] == g[j].0
  {
    seq(|g|, j requires 0 <= j < |g| => g[j].0)
  }

  /** key(x) for every x, in list order. */
  function KeySeq<T, K>(s: seq<T>, key: T -> K): (ks: seq<K>)
    ensures |ks| == |s| && forall i :: 0 <= i < |s| ==> ks[i] == key(s[i])
  {
    seq(|s|, i requires 0 <= i < |s| => key(s[i]))
  }

  function Is<T, K(==)>(key: T -> K, k: K): T -> bool {
    (x: T) => key(x) == k
  }

  /** The loop, run over s. */
  method BuildGroups<T, K(==)>(s: seq<T>, key: T -> K) returns (groups: seq<(K, seq<T>)>)
    ensures groups == GroupBy(s, key)
  {
    groups := [];
    for i := 0 to |s|
      invariant groups == GroupBy(s[..i], key)
    {
      assert s[..i + 1][..i] == s[..i];
      var x := s[i];
      var pos := GroupPos(groups, key(x));
      if pos.None? {
        groups := groups + [(key(x), [x])];
      } else {
        var j := pos.value;
        groups := groups[j := (key(x), groups[j].1 + [x])];
      }
    }
    assert s[..|s|] == s;
  }

  /** The keys are the distinct keys of s, in order of first appearance. */
  lemma {:induction false} GroupByKeyOrder<T, K(!new)>(s: seq<T>, key: T -> K)
    ensures Keys(GroupBy(s, key)) == Dedup(KeySeq(s, key))
    decreases |s|
  {
    if s != [] {
      var p := s[..|s| - 1];
      var x := s[|s| - 1];
      GroupByKeyOrder(p, key);
      var g := GroupBy(p, key);
      var k := key(x);
      assert KeySeq(s, key)[..|s| - 1] == KeySeq(p, key);
      assert KeySeq(s, key)[|s| - 1] == k;
      if GroupPos(g, k).Some? {
        assert Keys(g)[GroupPos(g, k).value] == k;
        assert Keys(GroupBy(s, key)) == Keys(g);
      } else {
        assert k !in Keys(g);
        assert Keys(GroupBy(s, key)) == Keys(g) + [k];
      }
    }
  }

  /** No element of s carries a key that has no group. */
  lemma NoGroupNoElement<T, K(!new)>(s: seq<T>, key: T -> K, k: K)
    requires GroupPos(GroupBy(s, key), k).None?
    ensures Filter(s, Is(key, k)) == []
  {
    GroupByKeyOrder(s, key);
    FilterEmptyIff(s, Is(key, k));
    forall i | 0 <= i < |s| ensures !Is(key, k)(s[i]) {
      assert KeySeq(s, key)[i] == key(s[i]);
      assert key(s[i]) in Dedup(KeySeq(s, key));
      assert key(s[i]) in Keys(GroupBy(s, key));
    }
  }

  /** Each key's list holds exactly the elements of s with that key, in list order. */
  lemma {:induction false} GroupByContents<T, K(!new)>(s: seq<T>, key: T -> K)
    ensures forall j :: 0 <= j < |GroupBy(s, key)| ==>
      GroupBy(s, key)[j].1 == Filter(s, Is(key, GroupBy(s, key)[j].0))
    decreases |s|
  {
    if s != [] {
      var p := s[..|s| - 1];
      var x := s[|s| - 1];
      GroupByContents(p, key);
      var g := GroupBy(p, key);
      var k := key(x);
      forall j | 0 <= j < |GroupBy(s, key)|
        ensures GroupBy(s, key)[j].1 == Filter(s, Is(key, GroupBy(s, key)[j].0))
      {
        var kj := GroupBy(s, key)[j].0;
        assert Filter(s, Is(key, kj)) == Filter(p, Is(key, kj)) + (if k == kj then [x] else []);
        match GroupPos(g, k)
        case None =>
          if j == |g| {
            NoGroupNoElement(p, key, k);
          } else {
            assert GroupBy(s, key)[j] == g[j];
          }
        case Some(m) =>
          if j != m {
            GroupByKeyOrder(p, key);
            assert Keys(g)[j] == g[j].0 && Keys(g)[m] == k;
            assert g[j].0 != k;
            assert GroupBy(s, key)[j] == g[j];
          }
      }
    }
  }

  /** A key has a group exactly when some element carries it. */
  lemma GroupByKeys<T, K(!new)>(s: seq<T>, key: T -> K, k: K)
    ensures GroupPos(GroupBy(s, key), k).Some? <==> exists i :: 0 <= i < |s| && key(s[i]) == k
  {
    GroupByKeyOrder(s, key);
    var g := GroupBy(s, key);
    if GroupPos(g, k).Some? {
      assert Keys(g)[GroupPos(g, k).value] == k;
      assert k in KeySeq(s, key);
    }
    if exists i :: 0 <= i < |s| && key(s[i]) == k {
      var i :| 0 <= i < |s| && key(s[i]) == k;
      assert KeySeq(s, key)[i] == k;
      assert k in Keys(g);
    }
  }

  /** A list holds more than one element with a property exactly when two positions do. */
  lemma {:induction false} FilterMoreThanOne<T>(s: seq<T>, f: T -> bool)
    ensures |Filter(s, f)| > 1 <==> exists i, j :: 0 <= i < j < |s| && f(s[i]) && f(s[j])
    decreases |s|
  {
    if s != [] {
      var p := s[..|s| - 1];
      var x := s[|s| - 1];
      FilterMoreThanOne(p, f);
      FilterEmptyIff(p, f);
      if exists i, j :: 0 <= i < j < |s| && f(s[i]) && f(s[j]) {
        var i, j :| 0 <= i < j < |s| && f(s[i]) && f(s[j]);
        if j < |p| {
          assert p[i] == s[i] && p[j] == s[j];
        } else {
          assert p[i] == s[i];
        }
      }
      if |Filter(s, f)| > 1 {
        if |Filter(p, f)| <= 1 {
          assert f(x);
          var i :| 0 <= i < |p| && f(p[i]);
          assert s[i] == p[i];
        } else {
          var i, j :| 0 <= i < j < |p| && f(p[i]) && f(p[j]);
          assert s[i] == p[i] && s[j] == p[j];
        }
      }
    }
  }
}
