// Python's sorted(): a stable sort under a total order, as the tier scripts use it on
// integers (tier lists), on records by a key (sorted(..., key=...)) and on strings
// (sorted(dict.keys())).
module Sorting {

  /** le is the "at most" test of a total preorder: any two values compare one way or the
      other, and the comparison chains. */
  ghost predicate Total<T(!new)>(le: (T, T) -> bool) {
    (forall a, b :: le(a, b) || le(b, a))
    && (forall a, b, c :: le(a, b) && le(b, c) ==> le(a, c))
  }

  predicate SortedWith<T>(s: seq<T>, le: (T, T) -> bool) {
    forall i, j :: 0 <= i < j < |s| ==> le(s[i], s[j])
  }

  /** Insert x after every element it is not strictly below, keeping earlier equals first. */
  function InsertWith<T>(x: T, s: seq<T>, le: (T, T) -> bool): (r: seq<T>)
    ensures |r| == |s| + 1
    decreases |s|
  {
    if s == [] || !le(s[0], x) then [x] + s else [s[0]] + InsertWith(x, s[1..], le)
  }

  /** sorted(s): insertion sort, element by element in list order, hence stable. */
  function SortWith<T>(s: seq<T>, le: (T, T) -> bool): (r: seq<T>)
    ensures |r| == |s|
    decreases |s|
  {
    if s == [] then [] else InsertWith(s[|s| - 1], SortWith(s[..|s| - 1], le), le)
  }

  lemma {:induction false} InsertWithSorted<T(!new)>(x: T, s: seq<T>, le: (T, T) -> bool)
    requires Total(le) && SortedWith(s, le)
    ensures SortedWith(InsertWith(x, s, le), le)
    ensures multiset(InsertWith(x, s, le)) == multiset(s) + multiset{x}
    decreases |s|
  {
    InsertWithPerm(x, s, le);
    if s == [] || !le(s[0], x) {
      assert s != [] ==> le(x, s[0]);
      assert forall j :: 0 <= j < |s| ==> le(x, s[j]) by {
        if s != [] { assert forall j :: 0 <= j < |s| ==> le(s[0], s[j]); }
      }
      SortedCons(x, s, le);
    } else {
      var t := s[1..];
      SortedTail(s, le);
      InsertWithSorted(x, t, le);
      var r := InsertWith(x, t, le);
      InsertWithPerm(x, t, le);
      HeadBound(s, r, x, le);
      SortedCons(s[0], r, le);
    }
  }

  lemma {:induction false} InsertWithPerm<T>(x: T, s: seq<T>, le: (T, T) -> bool)
    ensures multiset(InsertWith(x, s, le)) == multiset(s) + multiset{x}
    decreases |s|
  {
    if s != [] && le(s[0], x) {
      var t := s[1..];
      InsertWithPerm(x, t, le);
      assert InsertWith(x, s, le) == [s[0]] + InsertWith(x, t, le);
      assert s == [s[0]] + t;
      assert multiset(s) == multiset{s[0]} + multiset(t);
    }
  }

  lemma SortedTail<T>(s: seq<T>, le: (T, T) -> bool)
    requires s != [] && SortedWith(s, le)
    ensures SortedWith(s[1..], le)
  {
    var t := s[1..];
    forall i, j | 0 <= i < j < |t| ensures le(t[i], t[j]) {
      assert t[i] == s[i + 1] && t[j] == s[j + 1];
    }
  }

  lemma SortedCons<T>(a: T, r: seq<T>, le: (T, T) -> bool)
    requires SortedWith(r, le) && forall j :: 0 <= j < |r| ==> le(a, r[j])
    ensures SortedWith([a] + r, le)
  {
    var c := [a] + r;
    forall i, j | 0 <= i < j < |c| ensures le(c[i], c[j]) {
      assert c[j] == r[j - 1];
      if i > 0 { assert c[i] == r[i - 1]; }
    }
  }

  /** Every element of r, made of the tail of sorted s and an x no smaller than s's head, is
      no smaller than that head. */
  lemma HeadBound<T>(s: seq<T>, r: seq<T>, x: T, le: (T, T) -> bool)
    requires s != [] && SortedWith(s, le) && le(s[0], x)
    requires multiset(r) == multiset(s[1..]) + multiset{x}
    ensures forall j :: 0 <= j < |r| ==> le(s[0], r[j])
  {
    var t := s[1..];
    forall j | 0 <= j < |r| ensures le(s[0], r[j]) {
      assert r[j] in multiset(r);
      if r[j] != x {
        assert r[j] in multiset(t);
        var k :| 0 <= k < |t| && t[k] == r[j];
        assert s[k + 1] == r[j];
      }
    }
  }

  /** The result is in order and holds exactly the input's elements. */
  lemma {:induction false} SortWithSorted<T(!new)>(s: seq<T>, le: (T, T) -> bool)
    requires Total(le)
    ensures SortedWith(SortWith(s, le), le)
    ensures multiset(SortWith(s, le)) == multiset(s)
    decreases |s|
  {
    if s != [] {
      var p := s[..|s| - 1];
      SortWithSorted(p, le);
      InsertWithSorted(s[|s| - 1], SortWith(p, le), le);
      assert s == p + [s[|s| - 1]];
    }
  }

  /** An element no earlier element exceeds goes to the end. */
  lemma {:induction false} InsertWithLast<T>(x: T, s: seq<T>, le: (T, T) -> bool)
    requires forall k :: 0 <= k < |s| ==> le(s[k], x)
    ensures InsertWith(x, s, le) == s + [x]
    decreases |s|
  {
    if s != [] {
      InsertWithLast(x, s[1..], le);
      assert [s[0]] + (s[1..] + [x]) == s + [x];
    }
  }

  /** The stable sort leaves a list alone exactly when it is already in order, so comparing
      a list with its sorted copy is a sortedness test. */
  lemma {:induction false} SortWithIdentity<T(!new)>(s: seq<T>, le: (T, T) -> bool)
    requires Total(le)
    ensures SortWith(s, le) == s <==> SortedWith(s, le)
  {
    SortWithSorted(s, le);
    if SortedWith(s, le) {
      SortedIsFixed(s, le);
    }
  }

  lemma {:induction false} SortedIsFixed<T>(s: seq<T>, le: (T, T) -> bool)
    requires SortedWith(s, le)
    ensures SortWith(s, le) == s
    decreases |s|
  {
    if s != [] {
      var p := s[..|s| - 1];
      var x := s[|s| - 1];
      assert SortedWith(p, le) by {
        forall i, j | 0 <= i < j < |p| ensures le(p[i], p[j]) {
          assert p[i] == s[i] && p[j] == s[j];
        }
      }
      SortedIsFixed(p, le);
      assert forall k :: 0 <= k < |p| ==> le(p[k], x) by {
        forall k | 0 <= k < |p| ensures le(p[k], x) {
          assert p[k] == s[k];
        }
      }
      InsertWithLast(x, p, le);
      assert p + [x] == s;
    }
  }

  // ---------------------------------------------------------------------
  // Python's order on str: code point by code point, a proper prefix first
  // ---------------------------------------------------------------------

  predicate StrLe(a: string, b: string)
    decreases |a|
  {
    a == [] || (b != [] && (a[0] < b[0] || (a[0] == b[0] && StrLe(a[1..], b[1..]))))
  }

  lemma {:induction false} StrLeTotalPair(a: string, b: string)
    ensures StrLe(a, b) || StrLe(b, a)
    decreases |a|
  {
    if a != [] && b != [] && a[0] == b[0] {
      StrLeTotalPair(a[1..], b[1..]);
    }
  }

  lemma {:induction false} StrLeTrans(a: string, b: string, c: string)
    requires StrLe(a, b) && StrLe(b, c)
    ensures StrLe(a, c)
    decreases |a|
  {
    if a != [] && a[0] == b[0] && b[0] == c[0] {
      StrLeTrans(a[1..], b[1..], c[1..]);
    }
  }

  function StrLeFn(): (string, string) -> bool {
    (a: string, b: string) => StrLe(a, b)
  }

  lemma StrLeTotal()
    ensures Total(StrLeFn())
  {
    forall a: string, b: string ensures StrLeFn()(a, b) || StrLeFn()(b, a) {
      StrLeTotalPair(a, b);
    }
    forall a: string, b: string, c: string | StrLeFn()(a, b) && StrLeFn()(b, c) ensures StrLeFn()(a, c) {
      StrLeTrans(a, b, c);
    }
  }

  /** Distinct strings are never at most each other both ways. */
  lemma {:induction false} StrLeAntisymmetric(a: string, b: string)
    requires StrLe(a, b) && StrLe(b, a)
    ensures a == b
    decreases |a|
  {
    if a != [] {
      StrLeAntisymmetric(a[1..], b[1..]);
      assert a == [a[0]] + a[1..] && b == [b[0]] + b[1..];
    }
  }

  // ---------------------------------------------------------------------
  // Python's order on int
  // ---------------------------------------------------------------------

  function IntLe(): (int, int) -> bool {
    (a: int, b: int) => a <= b
  }

  lemma IntLeTotal()
    ensures Total(IntLe())
  {
  }
}
