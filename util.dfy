// Shared helpers: the small part of Python's str/int/urllib behaviour and of
// JavaScript's array search that the scripts and the tracker rely on.
module Util {

  datatype Option<+T> = None | Some(value: T)

  // ---------------------------------------------------------------------
  // Characters
  // ---------------------------------------------------------------------

  predicate IsDigit(c: char) { '0' <= c <= '9' }

  predicate IsAsciiLetter(c: char) { 'a' <= c <= 'z' || 'A' <= c <= 'Z' }

  /** str.isalnum(), restricted to ASCII. */
  predicate IsAsciiAlnum(c: char) { IsAsciiLetter(c) || IsDigit(c) }

  /** str.isspace(): the characters Python treats as whitespace (strip, \s, int()). */
  predicate IsSpace(c: char) {
    var n := c as int;
    n == 32 || 9 <= n <= 13 || 28 <= n <= 31 || n == 0x85 || n == 0xA0 || n == 0x1680
    || 0x2000 <= n <= 0x200A || n == 0x2028 || n == 0x2029 || n == 0x202F || n == 0x205F
    || n == 0x3000
  }

  /** Upper-case letters str.lower() changes, restricted to ASCII and Latin-1. */
  predicate IsUpper(c: char) {
    var n := c as int;
    65 <= n <= 90 || (0xC0 <= n <= 0xDE && n != 0xD7)
  }

  function LowerChar(c: char): (r: char)
    ensures !IsUpper(r)
    ensures !IsUpper(c) ==> r == c
  {
    if IsUpper(c) then (c as int + 32) as char else c
  }

  /** str.lower() over ASCII and Latin-1 letters. */
  function Lower(s: string): string {
    seq(|s|, i requires 0 <= i < |s| => LowerChar(s[i]))
  }

  predicate NoUpper(s: string) { forall i :: 0 <= i < |s| ==> !IsUpper(s[i]) }

  lemma LowerNoUpper(s: string)
    ensures NoUpper(Lower(s))
  {
  }

  lemma LowerIdentity(s: string)
    requires NoUpper(s)
    ensures Lower(s) == s
  {
  }

  lemma LowerAppend(a: string, b: string)
    ensures Lower(a + b) == Lower(a) + Lower(b)
  {
  }

  lemma LowerSlice(s: string, i: nat, j: nat)
    requires i <= j <= |s|
    ensures Lower(s[i..j]) == Lower(s)[i..j]
  {
  }

  // ---------------------------------------------------------------------
  // Substrings
  // ---------------------------------------------------------------------

  predicate OccursAt(s: string, sub: string, i: int) {
    0 <= i && i + |sub| <= |s| && s[i..i + |sub|] == sub
  }

  /** Python's `sub in s`. */
  predicate Contains(s: string, sub: string) {
    exists i :: 0 <= i <= |s| - |sub| && OccursAt(s, sub, i)
  }

  lemma ContainsChars(s: string, sub: string, c: char)
    requires Contains(s, sub) && c in sub
    ensures c in s
  {
    var i :| 0 <= i <= |s| - |sub| && OccursAt(s, sub, i);
    var k :| 0 <= k < |sub| && sub[k] == c;
    assert s[i + k] == sub[k];
  }

  /** A text that lacks one of the pattern's characters does not contain the pattern. */
  lemma NotContainsChar(s: string, sub: string, c: char)
    requires c !in s && c in sub
    ensures !Contains(s, sub)
  {
    if Contains(s, sub) {
      ContainsChars(s, sub, c);
    }
  }

  /** str.replace(pat, rep): every non-overlapping occurrence, left to right. */
  function Replace(s: string, pat: string, rep: string): string
    requires pat != []
    decreases |s|
  {
    if |s| < |pat| then s
    else if s[..|pat|] == pat then rep + Replace(s[|pat|..], pat, rep)
    else [s[0]] + Replace(s[1..], pat, rep)
  }

  lemma {:induction false} ReplaceAbsent(s: string, pat: string, rep: string)
    requires pat != [] && !Contains(s, pat)
    ensures Replace(s, pat, rep) == s
    decreases |s|
  {
    if |s| < |pat| {
    } else {
      assert OccursAt(s, pat, 0) ==> Contains(s, pat);
      assert !Contains(s[1..], pat) by {
        if Contains(s[1..], pat) {
          var i :| 0 <= i <= |s[1..]| - |pat| && OccursAt(s[1..], pat, i);
          assert s[i + 1..i + 1 + |pat|] == s[1..][i..i + |pat|];
          assert OccursAt(s, pat, i + 1);
        }
      }
      ReplaceAbsent(s[1..], pat, rep);
    }
  }

  /** Every character of the result comes from the input or from the replacement. */
  lemma {:induction false} ReplaceChars(s: string, pat: string, rep: string, c: char)
    requires pat != []
    requires c in Replace(s, pat, rep)
    ensures c in s || c in rep
    decreases |s|
  {
    if |s| < |pat| {
    } else if s[..|pat|] == pat {
      if c !in rep {
        ReplaceChars(s[|pat|..], pat, rep, c);
        assert s[|pat|..] == s[|pat|..];
      }
    } else {
      if c != s[0] {
        ReplaceChars(s[1..], pat, rep, c);
      }
    }
  }

  /** Replacing a one-character pattern by a string without it removes that character. */
  lemma {:induction false} ReplaceRemovesChar(s: string, c: char, rep: string)
    requires c !in rep
    ensures c !in Replace(s, [c], rep)
    decreases |s|
  {
    if |s| < 1 {
    } else if s[..1] == [c] {
      ReplaceRemovesChar(s[1..], c, rep);
    } else {
      assert s[0] != c by { assert s[..1] == [s[0]]; }
      ReplaceRemovesChar(s[1..], c, rep);
    }
  }

  lemma {:induction false} ReplaceKeepsOut(s: string, pat: string, rep: string, c: char)
    requires pat != [] && c !in s && c !in rep
    ensures c !in Replace(s, pat, rep)
  {
    if c in Replace(s, pat, rep) {
      ReplaceChars(s, pat, rep, c);
    }
  }

  lemma {:induction false} ReplaceLength(s: string, pat: string, rep: string)
    requires pat != [] && |rep| <= |pat|
    ensures |Replace(s, pat, rep)| <= |s|
    ensures Contains(s, pat) && |rep| < |pat| ==> |Replace(s, pat, rep)| < |s|
    decreases |s|
  {
    if |s| < |pat| {
    } else if s[..|pat|] == pat {
      ReplaceLength(s[|pat|..], pat, rep);
    } else {
      ReplaceLength(s[1..], pat, rep);
      if Contains(s, pat) {
        var i :| 0 <= i <= |s| - |pat| && OccursAt(s, pat, i);
        assert i != 0;
        assert s[1..][i - 1..i - 1 + |pat|] == s[i..i + |pat|];
        assert OccursAt(s[1..], pat, i - 1);
      }
    }
  }

  /** Number of occurrences of one character (str.count of a one-character string). */
  function CountChar(s: string, c: char): nat
    decreases |s|
  {
    if s == [] then 0 else (if s[0] == c then 1 else 0) + CountChar(s[1..], c)
  }

  // ---------------------------------------------------------------------
  // Stripping
  // ---------------------------------------------------------------------

  function TrimStart(s: string, drop: char -> bool): (r: string)
    ensures |r| <= |s| && r == s[|s| - |r|..]
    ensures r != [] ==> !drop(r[0])
    decreases |s|
  {
    if s != [] && drop(s[0]) then TrimStart(s[1..], drop) else s
  }

  function TrimEnd(s: string, drop: char -> bool): (r: string)
    ensures |r| <= |s| && r == s[..|r|]
    ensures r != [] ==> !drop(r[|r| - 1])
    decreases |s|
  {
    if s != [] && drop(s[|s| - 1]) then TrimEnd(s[..|s| - 1], drop) else s
  }

  /** str.strip(). */
  function Strip(s: string): string {
    TrimEnd(TrimStart(s, IsSpace), IsSpace)
  }

  /** str.strip(c) and str.rstrip(c) for a single character c. */
  function StripChar(s: string, c: char): string {
    TrimEnd(TrimStart(s, x => x == c), x => x == c)
  }

  function RStripChar(s: string, c: char): string {
    TrimEnd(s, x => x == c)
  }

  /** Stripping yields a contiguous slice of the input. */
  lemma StripIsSlice(s: string)
    ensures exists a, b :: 0 <= a <= b <= |s| && Strip(s) == s[a..b]
  {
    var t := TrimStart(s, IsSpace);
    var a := |s| - |t|;
    var r := TrimEnd(t, IsSpace);
    assert t == s[a..] && r == t[..|r|];
    DropTake(s, a, |r|);
    assert Strip(s) == s[a..a + |r|];
  }

  /** A prefix of a suffix is a slice. */
  lemma DropTake(s: string, a: nat, k: nat)
    requires a + k <= |s|
    ensures s[a..][..k] == s[a..a + k]
  {
  }

  lemma TrimStartNoop(s: string, drop: char -> bool)
    requires s == [] || !drop(s[0])
    ensures TrimStart(s, drop) == s
  {
  }

  lemma TrimEndNoop(s: string, drop: char -> bool)
    requires s == [] || !drop(s[|s| - 1])
    ensures TrimEnd(s, drop) == s
  {
  }

  lemma StripNoop(s: string)
    requires s == [] || (!IsSpace(s[0]) && !IsSpace(s[|s| - 1]))
    ensures Strip(s) == s
  {
  }

  // ---------------------------------------------------------------------
  // Splitting and joining on one separator character
  // ---------------------------------------------------------------------

  function IndexOf(s: string, c: char): (i: nat)
    requires c in s
    ensures i < |s| && s[i] == c && c !in s[..i]
    decreases |s|
  {
    if s[0] == c then 0 else 1 + IndexOf(s[1..], c)
  }

  /** str.split(sep) for a one-character separator. */
  function Split(s: string, sep: char): (parts: seq<string>)
    ensures |parts| >= 1
    decreases |s|
  {
    if sep !in s then [s]
    else
      var i := IndexOf(s, sep);
      [s[..i]] + Split(s[i + 1..], sep)
  }

  /** sep.join(parts). */
  function Join(parts: seq<string>, sep: char): string
    decreases |parts|
  {
    if |parts| == 0 then ""
    else if |parts| == 1 then parts[0]
    else parts[0] + [sep] + Join(parts[1..], sep)
  }

  lemma {:induction false} JoinChars(parts: seq<string>, sep: char, c: char)
    requires c != sep
    requires forall k :: 0 <= k < |parts| ==> c !in parts[k]
    ensures c !in Join(parts, sep)
    decreases |parts|
  {
    if |parts| > 1 {
      JoinChars(parts[1..], sep, c);
    }
  }

  lemma {:induction false} IndexOfAfter(a: string, c: char, b: string)
    requires c !in a
    ensures c in a + [c] + b && IndexOf(a + [c] + b, c) == |a|
    decreases |a|
  {
    var s := a + [c] + b;
    assert s[|a|] == c;
    if a != [] {
      assert s[1..] == a[1..] + [c] + b;
      IndexOfAfter(a[1..], c, b);
    }
  }

  /** Splitting what was joined gives back the parts, when no part holds the separator. */
  lemma {:induction false} SplitJoin(parts: seq<string>, sep: char)
    requires |parts| >= 1
    requires forall k :: 0 <= k < |parts| ==> sep !in parts[k]
    ensures Split(Join(parts, sep), sep) == parts
    decreases |parts|
  {
    if |parts| == 1 {
    } else {
      var rest := Join(parts[1..], sep);
      var s := parts[0] + [sep] + rest;
      assert sep in s by { assert s[|parts[0]|] == sep; }
      IndexOfAfter(parts[0], sep, rest);
      var i := IndexOf(s, sep);
      assert s[..i] == parts[0];
      assert s[i + 1..] == rest;
      SplitJoin(parts[1..], sep);
    }
  }

  // ---------------------------------------------------------------------
  // De-duplication keeping first occurrences (list(dict.fromkeys(xs)))
  // ---------------------------------------------------------------------

  predicate NoDuplicates<T(==)>(s: seq<T>) {
    forall i, j :: 0 <= i < j < |s| ==> s[i] != s[j]
  }

  /** Position of the first occurrence of x in s. */
  function FirstIndex<T(==)>(s: seq<T>, x: T): (k: nat)
    requires x in s
    ensures k < |s| && s[k] == x && x !in s[..k]
    decreases |s|
  {
    if x in s[..|s| - 1] then FirstIndex(s[..|s| - 1], x) else |s| - 1
  }

  lemma {:induction false} FirstIndexPrefix<T>(a: seq<T>, b: seq<T>, x: T)
    requires x in a
    ensures FirstIndex(a + b, x) == FirstIndex(a, x)
    decreases |b|
  {
    if b == [] {
      assert a + b == a;
    } else {
      var b' := b[..|b| - 1];
      assert (a + b)[..|a + b| - 1] == a + b';
      assert x in a + b';
      FirstIndexPrefix(a, b', x);
    }
  }

  lemma FirstIndexAppended<T>(a: seq<T>, x: T)
    requires x !in a
    ensures FirstIndex(a + [x], x) == |a|
  {
    var s := a + [x];
    assert s[..|s| - 1] == a;
    assert x !in s[..|s| - 1];
  }

  function Dedup<T(==,!new)>(s: seq<T>): (r: seq<T>)
    ensures forall x :: x in r <==> x in s
    ensures NoDuplicates(r)
    decreases |s|
  {
    if s == [] then []
    else
      var d := Dedup(s[..|s| - 1]);
      if s[|s| - 1] in d then d else d + [s[|s| - 1]]
  }

  /** The kept elements appear in the order of their first occurrences. */
  lemma {:induction false} DedupOrder<T(!new)>(s: seq<T>)
    ensures forall i, j :: 0 <= i < j < |Dedup(s)| ==>
      FirstIndex(s, Dedup(s)[i]) < FirstIndex(s, Dedup(s)[j])
    decreases |s|
  {
    if s != [] {
      var p := s[..|s| - 1];
      var x := s[|s| - 1];
      DedupOrder(p);
      var d := Dedup(p);
      forall y | y in p ensures FirstIndex(s, y) == FirstIndex(p, y) {
        assert s[..|s| - 1] == p;
      }
      if x !in d {
        assert FirstIndex(s, x) == |s| - 1;
        forall i | 0 <= i < |d| ensures d[i] in s && FirstIndex(s, d[i]) < |s| - 1 {
          assert d[i] in p;
        }
      }
    }
  }

  // ---------------------------------------------------------------------
  // Decimal numerals
  // ---------------------------------------------------------------------

  function DigitChar(d: nat): (c: char)
    requires d < 10
    ensures IsDigit(c)
  {
    ('0' as int + d) as char
  }

  function DigitValue(c: char): nat
    requires IsDigit(c)
  {
    c as int - '0' as int
  }

  predicate AllDigits(s: string) { forall i :: 0 <= i < |s| ==> IsDigit(s[i]) }

  /** The value of a run of decimal digits. */
  function DigitsValue(s: string): nat
    requires AllDigits(s)
    decreases |s|
  {
    if s == [] then 0 else DigitsValue(s[..|s| - 1]) * 10 + DigitValue(s[|s| - 1])
  }

  /** str(n) for n >= 0. */
  function NatToString(n: nat): string
    decreases n
  {
    if n < 10 then [DigitChar(n)] else NatToString(n / 10) + [DigitChar(n % 10)]
  }

  /** str(i) / f"{i}" for any integer. */
  function IntToString(i: int): string {
    if i < 0 then "-" + NatToString(-i) else NatToString(i)
  }

  /** A numeral without a superfluous leading zero, as str() prints it. */
  predicate Canonical(s: string) {
    |s| >= 1 && AllDigits(s) && (|s| > 1 ==> s[0] != '0')
  }

  lemma {:induction false} NatToStringCanonical(n: nat)
    ensures Canonical(NatToString(n)) && DigitsValue(NatToString(n)) == n
    decreases n
  {
    if n >= 10 {
      NatToStringCanonical(n / 10);
      var s := NatToString(n);
      assert s[..|s| - 1] == NatToString(n / 10);
    }
  }

  lemma {:induction false} LeadingDigitPositive(s: string)
    requires Canonical(s) && |s| > 1
    ensures DigitsValue(s[..|s| - 1]) >= 1
    decreases |s|
  {
    var p := s[..|s| - 1];
    if |p| > 1 {
      assert p[..|p| - 1] == s[..|s| - 2];
      LeadingDigitPositive(p);
    }
  }

  /** Printing the value of a canonical numeral gives the numeral back. */
  lemma {:induction false} CanonicalRoundTrip(s: string)
    requires Canonical(s)
    ensures NatToString(DigitsValue(s)) == s
    decreases |s|
  {
    if |s| > 1 {
      var p := s[..|s| - 1];
      LeadingDigitPositive(s);
      assert Canonical(p);
      CanonicalRoundTrip(p);
      var v := DigitsValue(s);
      assert v / 10 == DigitsValue(p) && v % 10 == DigitValue(s[|s| - 1]);
    } else {
      assert s == [DigitChar(DigitValue(s[0]))];
    }
  }

  // ---------------------------------------------------------------------
  // Python int() on a string, base 10
  // ---------------------------------------------------------------------

  /** Digits with single underscores between them, as int() accepts: a digit, then more
      digits, each one perhaps preceded by a single '_'. */
  predicate DigitBody(b: string)
    decreases |b|
  {
    |b| >= 1 && IsDigit(b[0])
    && (|b| == 1 || (if b[1] == '_' then |b| >= 3 && DigitBody(b[2..]) else DigitBody(b[1..])))
  }

  function RemoveUnderscores(b: string): (r: string)
    ensures AllDigits(b) ==> r == b
    decreases |b|
  {
    if b == [] then [] else (if b[0] == '_' then [] else [b[0]]) + RemoveUnderscores(b[1..])
  }

  /** Without its underscores, a digit body is a run of digits. */
  lemma {:induction false} BodyDigits(b: string)
    requires DigitBody(b)
    ensures AllDigits(RemoveUnderscores(b))
    decreases |b|
  {
    var r := RemoveUnderscores(b);
    if |b| > 1 {
      var rest := RemoveUnderscores(b[1..]);
      if b[1] == '_' {
        BodyDigits(b[2..]);
        assert b[1..][1..] == b[2..];
        assert rest == RemoveUnderscores(b[2..]);
      } else {
        BodyDigits(b[1..]);
      }
      assert r == [b[0]] + rest;
      assert forall k :: 0 <= k < |r| ==> IsDigit(r[k]) by {
        forall k | 0 <= k < |r| ensures IsDigit(r[k]) {
          if k > 0 { assert r[k] == rest[k - 1]; }
        }
      }
    } else {
      assert r == [b[0]];
    }
  }

  function BodyValue(b: string): nat
    requires DigitBody(b)
  {
    BodyDigits(b);
    DigitsValue(RemoveUnderscores(b))
  }

  /** int(s): surrounding whitespace, an optional sign, then a digit body; None where Python raises ValueError. */
  function PyInt(s: string): Option<int> {
    SignedBody(Strip(s))
  }

  /** int() on the stripped text: an optional sign, then a digit body. */
  function SignedBody(t: string): Option<int> {
    if |t| > 0 && (t[0] == '+' || t[0] == '-') then
      if DigitBody(t[1..]) then Some(if t[0] == '-' then -(BodyValue(t[1..]) as int) else BodyValue(t[1..]))
      else None
    else if DigitBody(t) then Some(BodyValue(t))
    else None
  }

  /** int() reads a plain numeral as its value. */
  lemma PyIntOfNumeral(d: string)
    requires |d| >= 1 && AllDigits(d)
    ensures PyInt(d) == Some(DigitsValue(d) as int)
  {
    DigitsAreBody(d);
    PyIntOfBody(d, DigitsValue(d));
  }

  /** A digit body ends in a digit. */
  lemma {:induction false} BodyEndsInDigit(b: string)
    requires DigitBody(b)
    ensures IsDigit(b[|b| - 1])
    decreases |b|
  {
    if |b| > 1 {
      if b[1] == '_' {
        BodyEndsInDigit(b[2..]);
        assert b[2..][|b[2..]| - 1] == b[|b| - 1];
      } else {
        BodyEndsInDigit(b[1..]);
        assert b[1..][|b[1..]| - 1] == b[|b| - 1];
      }
    }
  }

  lemma DigitNotSpace(c: char)
    requires IsDigit(c)
    ensures !IsSpace(c) && c != '+' && c != '-'
  {
  }

  /** int() reads a digit body as its value. */
  lemma PyIntOfBody(d: string, v: nat)
    requires DigitBody(d) && BodyValue(d) == v
    ensures PyInt(d) == Some(v as int)
  {
    BodyEndsInDigit(d);
    DigitNotSpace(d[0]);
    DigitNotSpace(d[|d| - 1]);
    StripNoop(d);
  }

  /** int() reads a digit body after a minus sign as the negated value. */
  lemma PyIntOfNegBody(d: string, m: string, v: nat)
    requires DigitBody(d) && BodyValue(d) == v
    requires m == "-" + d
    ensures PyInt(m) == Some(-(v as int))
  {
    BodyEndsInDigit(d);
    DigitNotSpace(d[|d| - 1]);
    MinusParts(d, m);
    StripNoop(m);
  }

  lemma MinusParts(d: string, m: string)
    requires |d| >= 1 && m == "-" + d
    ensures |m| >= 2 && m[0] == '-' && m[1..] == d && m[|m| - 1] == d[|d| - 1]
  {
  }

  /** A plain numeral is a digit body worth its digits. */
  lemma {:induction false} DigitsAreBody(d: string)
    requires |d| >= 1 && AllDigits(d)
    ensures DigitBody(d) && BodyValue(d) == DigitsValue(d)
    decreases |d|
  {
    if |d| > 1 {
      assert d[1] != '_';
      assert AllDigits(d[1..]) by {
        forall k | 0 <= k < |d[1..]| ensures IsDigit(d[1..][k]) {
          assert d[1..][k] == d[k + 1];
        }
      }
      DigitsAreBody(d[1..]);
    }
    assert RemoveUnderscores(d) == d;
  }

  /** str(n) is a digit body worth n. */
  lemma NatToStringBody(n: nat)
    ensures DigitBody(NatToString(n)) && BodyValue(NatToString(n)) == n
  {
    NatToStringCanonical(n);
    DigitsAreBody(NatToString(n));
  }

  /** int(str(i)) == i. */
  lemma PyIntOfIntToString(i: int)
    ensures PyInt(IntToString(i)) == Some(i)
  {
    var n: nat := if i < 0 then -i else i;
    NatToStringBody(n);
    if i < 0 {
      PyIntOfNegBody(NatToString(n), IntToString(i), n);
    } else {
      PyIntOfBody(NatToString(n), n);
    }
  }

  // ---------------------------------------------------------------------
  // urllib.parse.quote(s, safe=''): UTF-8 bytes, unreserved ones kept
  // ---------------------------------------------------------------------

  /** The UTF-8 encoding of one Unicode scalar value. */
  function Utf8(c: char): (bytes: seq<nat>)
    ensures 1 <= |bytes| <= 4
    ensures forall k :: 0 <= k < |bytes| ==> bytes[k] < 256
    ensures c as int < 128 <==> |bytes| == 1
    ensures |bytes| == 1 ==> bytes[0] == c as int
    ensures |bytes| > 1 ==> forall k :: 0 <= k < |bytes| ==> bytes[k] >= 128
  {
    var n := c as int;
    if n < 0x80 then [n]
    else if n < 0x800 then [0xC0 + n / 64, 0x80 + n % 64]
    else if n < 0x10000 then [0xE0 + n / 4096, 0x80 + (n / 64) % 64, 0x80 + n % 64]
    else [0xF0 + n / 262144, 0x80 + (n / 4096) % 64, 0x80 + (n / 64) % 64, 0x80 + n % 64]
  }

  /** Bytes quote() leaves as they are: letters, digits and "_.-~" (section 2.3 of RFC 3986). */
  predicate Unreserved(b: nat) {
    (65 <= b <= 90) || (97 <= b <= 122) || (48 <= b <= 57)
    || b == '_' as int || b == '.' as int || b == '-' as int || b == '~' as int
  }

  function HexDigit(d: nat): (c: char)
    requires d < 16
  {
    if d < 10 then DigitChar(d) else ('A' as int + d - 10) as char
  }

  /** One byte: itself if unreserved, otherwise "%XX" with upper-case hex (section 2.1 of RFC 3986). */
  function QuoteByte(b: nat): (r: string)
    requires b < 256
    ensures Unreserved(b) ==> r == [b as char]
    ensures !Unreserved(b) ==> |r| == 3 && r[0] == '%'
  {
    if Unreserved(b) then [b as char] else ['%', HexDigit(b / 16), HexDigit(b % 16)]
  }

  function QuoteBytes(bs: seq<nat>): string
    requires forall k :: 0 <= k < |bs| ==> bs[k] < 256
    decreases |bs|
  {
    if bs == [] then "" else QuoteByte(bs[0]) + QuoteBytes(bs[1..])
  }

  function Quote(s: string): string
    decreases |s|
  {
    if s == [] then "" else QuoteBytes(Utf8(s[0])) + Quote(s[1..])
  }

  lemma {:induction false} QuoteNoUnderscore(s: string)
    requires '_' !in s
    ensures '_' !in Quote(s)
    decreases |s|
  {
    if s != [] {
      var bs := Utf8(s[0]);
      assert '_' !in QuoteBytes(bs) by {
        if |bs| == 1 {
          assert QuoteBytes(bs) == QuoteByte(bs[0]);
        } else {
          QuoteBytesHighNoUnderscore(bs);
        }
      }
      QuoteNoUnderscore(s[1..]);
    }
  }

  lemma {:induction false} QuoteBytesHighNoUnderscore(bs: seq<nat>)
    requires forall k :: 0 <= k < |bs| ==> 128 <= bs[k] < 256
    ensures '_' !in QuoteBytes(bs)
    decreases |bs|
  {
    if bs != [] {
      assert !Unreserved(bs[0]);
      var h := QuoteByte(bs[0]);
      assert h == ['%', HexDigit(bs[0] / 16), HexDigit(bs[0] % 16)];
      QuoteBytesHighNoUnderscore(bs[1..]);
    }
  }

  lemma QuoteNonEmpty(s: string)
    requires s != []
    ensures Quote(s) != []
  {
    var bs := Utf8(s[0]);
    assert |QuoteByte(bs[0])| >= 1;
  }

  // ---------------------------------------------------------------------
  // List comprehensions with a condition ([x for x in s if f(x)])
  // ---------------------------------------------------------------------

  function Filter<T>(s: seq<T>, f: T -> bool): (r: seq<T>)
    ensures |r| <= |s|
    ensures forall k :: 0 <= k < |r| ==> f(r[k]) && r[k] in s
    decreases |s|
  {
    if s == [] then []
    else Filter(s[..|s| - 1], f) + (if f(s[|s| - 1]) then [s[|s| - 1]] else [])
  }

  lemma {:induction false} FilterMember<T>(s: seq<T>, f: T -> bool, x: T)
    ensures x in Filter(s, f) <==> x in s && f(x)
    decreases |s|
  {
    if s != [] {
      FilterMember(s[..|s| - 1], f, x);
      assert s == s[..|s| - 1] + [s[|s| - 1]];
    }
  }

  lemma {:induction false} FilterAppend<T>(a: seq<T>, b: seq<T>, f: T -> bool)
    ensures Filter(a + b, f) == Filter(a, f) + Filter(b, f)
    decreases |b|
  {
    if b == [] {
      assert a + b == a;
    } else {
      var b' := b[..|b| - 1];
      assert (a + b)[..|a + b| - 1] == a + b';
      FilterAppend(a, b', f);
    }
  }

  lemma FilterSingleton<T>(x: T, f: T -> bool)
    ensures Filter([x], f) == if f(x) then [x] else []
  {
    assert [x][..0] == [];
  }

  lemma FilterEmptyIff<T>(s: seq<T>, f: T -> bool)
    ensures Filter(s, f) == [] <==> forall k :: 0 <= k < |s| ==> !f(s[k])
  {
    if Filter(s, f) == [] {
      forall k | 0 <= k < |s| ensures !f(s[k]) {
        FilterMember(s, f, s[k]);
      }
    } else {
      var x := Filter(s, f)[0];
      FilterMember(s, f, x);
    }
  }

  /** The i-th kept element sits at position k of s, and what is kept before it is what the
      filter keeps of s[..k]. */
  ghost predicate FilterAt<T>(s: seq<T>, f: T -> bool, i: int, k: int) {
    0 <= k < |s| && 0 <= i < |Filter(s, f)| && s[k] == Filter(s, f)[i] && Filter(s[..k], f) == Filter(s, f)[..i]
  }

  /** The filter keeps the elements in their order in s. */
  lemma {:induction false} FilterIndex<T>(s: seq<T>, f: T -> bool, i: int)
    requires 0 <= i < |Filter(s, f)|
    ensures exists k :: FilterAt(s, f, i, k)
    decreases |s|
  {
    var p := s[..|s| - 1];
    if i < |Filter(p, f)| {
      FilterIndex(p, f, i);
      var k :| FilterAt(p, f, i, k);
      assert s[..k] == p[..k];
      assert Filter(s, f)[..i] == Filter(p, f)[..i];
      assert FilterAt(s, f, i, k);
    } else {
      assert s[..|s| - 1] == p;
      assert Filter(s, f)[..i] == Filter(p, f);
      assert FilterAt(s, f, i, |s| - 1);
    }
  }

  // ---------------------------------------------------------------------
  // Collecting the present results of a per-element search
  // ---------------------------------------------------------------------

  function Collect<A, B>(s: seq<A>, f: A -> Option<B>): seq<B>
    decreases |s|
  {
    if s == [] then []
    else
      var r := f(s[|s| - 1]);
      Collect(s[..|s| - 1], f) + (if r.Some? then [r.value] else [])
  }

  lemma CollectSnoc<A, B>(s: seq<A>, i: nat, f: A -> Option<B>)
    requires i < |s|
    ensures Collect(s[..i + 1], f) == Collect(s[..i], f) + (if f(s[i]).Some? then [f(s[i]).value] else [])
  {
    assert s[..i + 1][..i] == s[..i];
  }

  /** Each collected value comes from one element, every present result is collected,
      and each element gives at most one value. */
  lemma {:induction false} CollectMember<A, B>(s: seq<A>, f: A -> Option<B>, y: B)
    ensures y in Collect(s, f) <==> exists k :: 0 <= k < |s| && f(s[k]) == Some(y)
    ensures |Collect(s, f)| <= |s|
    decreases |s|
  {
    if s != [] {
      var p := s[..|s| - 1];
      CollectMember(p, f, y);
      if exists k :: 0 <= k < |p| && f(p[k]) == Some(y) {
        var k :| 0 <= k < |p| && f(p[k]) == Some(y);
        assert s[k] == p[k];
      }
      if exists k :: 0 <= k < |s| && f(s[k]) == Some(y) {
        var k :| 0 <= k < |s| && f(s[k]) == Some(y);
        if k < |p| { assert p[k] == s[k]; }
      }
    }
  }

  /** The results of f on each element, concatenated in order. */
  function FlatMap<A, B>(s: seq<A>, f: A -> seq<B>): seq<B>
    decreases |s|
  {
    if s == [] then [] else FlatMap(s[..|s| - 1], f) + f(s[|s| - 1])
  }

  lemma FlatMapSnoc<A, B>(s: seq<A>, i: nat, f: A -> seq<B>)
    requires i < |s|
    ensures FlatMap(s[..i + 1], f) == FlatMap(s[..i], f) + f(s[i])
  {
    assert s[..i + 1][..i] == s[..i];
  }

  lemma {:induction false} FlatMapMember<A, B>(s: seq<A>, f: A -> seq<B>, y: B)
    ensures y in FlatMap(s, f) <==> exists k :: 0 <= k < |s| && y in f(s[k])
    decreases |s|
  {
    if s != [] {
      var p := s[..|s| - 1];
      FlatMapMember(p, f, y);
      if exists k :: 0 <= k < |p| && y in f(p[k]) {
        var k :| 0 <= k < |p| && y in f(p[k]);
        assert s[k] == p[k];
      }
      if exists k :: 0 <= k < |s| && y in f(s[k]) {
        var k :| 0 <= k < |s| && y in f(s[k]);
        if k < |p| { assert p[k] == s[k]; }
      }
    }
  }
}
