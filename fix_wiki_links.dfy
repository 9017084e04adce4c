// fix_wiki_links.py: rebuild every quest's wiki link from its name, and store it where it
// differs from the one on file.
module FixWikiLinks {
  import opened Util
  import opened Catalog
  import UrlRewrite

  const WikiBase := "https://escapefromtarkov.fandom.com/wiki/"

  /** The name with " - " written "_-_" and the remaining spaces written "_", cut at "_". */
  function Segments(name: string): seq<string> {
    Split(Replace(Replace(name, " - ", "_-_"), " ", "_"), '_')
  }

  /** One segment's contribution to encoded_parts: empty segments are dropped. */
  function EncodeFn(): string -> Option<string> {
    (part: string) => if part != "" then Some(Quote(part)) else None
  }

  function EncodedParts(name: string): seq<string> {
    Collect(Segments(name), EncodeFn())
  }

  /** The URL fix_wiki_url returns. */
  function WikiUrl(name: string): string {
    WikiBase + Join(EncodedParts(name), '_')
  }

  /** fix_wiki_url, with its loop over the segments. */
  method FixWikiUrl(questName: string) returns (url: string)
    ensures url == WikiUrl(questName)
  {
    var urlName := Replace(questName, " - ", "_-_");
    urlName := Replace(urlName, " ", "_");
    var parts := Split(urlName, '_');
    var encodedParts: seq<string> := [];
    for i := 0 to |parts|
      invariant encodedParts == Collect(parts[..i], EncodeFn())
    {
      CollectSnoc(parts, i, EncodeFn());
      if parts[i] != "" {
        var encoded := Quote(parts[i]);
        encodedParts := encodedParts + [encoded];
      }
    }
    assert parts[..|parts|] == parts;
    url := WikiBase + Join(encodedParts, '_');
  }

  function WikiUrlFn(): Quest -> string {
    (q: Quest) => WikiUrl(q.name)
  }

  /** The script: every quest's link rebuilt in place; the file is always written back. */
  method FixWikiLinks(db: Database) returns (fixedCount: nat)
    modifies db
    ensures db.npcs == UrlRewrite.RewriteCatalog(old(db.npcs), WikiUrlFn())
    ensures fixedCount == |UrlRewrite.ChangedEntries(old(db.npcs), WikiUrlFn())|
  {
    fixedCount := UrlRewrite.RewriteUrls(db, WikiUrlFn());
  }

  // ---------------------------------------------------------------------
  // Properties
  // ---------------------------------------------------------------------

  /** Characters a URL path segment may carry after quote(safe=''): the unreserved
      characters of section 2.3 of RFC 3986 and the '%' of a percent-encoded octet. */
  predicate UrlChar(c: char) {
    Unreserved(c as int) || c == '%'
  }

  lemma {:induction false} QuoteBytesChars(bs: seq<nat>)
    requires forall k :: 0 <= k < |bs| ==> bs[k] < 256
    ensures forall k :: 0 <= k < |QuoteBytes(bs)| ==> UrlChar(QuoteBytes(bs)[k])
    decreases |bs|
  {
    if bs != [] {
      QuoteBytesChars(bs[1..]);
      var h := QuoteByte(bs[0]);
      if !Unreserved(bs[0]) {
        assert h == ['%', HexDigit(bs[0] / 16), HexDigit(bs[0] % 16)];
      }
      assert forall k :: 0 <= k < |h| ==> UrlChar(h[k]);
    }
  }

  /** Every character quote() emits is unreserved or '%'. */
  lemma {:induction false} QuoteChars(s: string)
    ensures forall k :: 0 <= k < |Quote(s)| ==> UrlChar(Quote(s)[k])
    decreases |s|
  {
    if s != [] {
      QuoteBytesChars(Utf8(s[0]));
      QuoteChars(s[1..]);
    }
  }

  /** No part of a split holds the separator. */
  lemma {:induction false} SplitPartsFree(s: string, sep: char)
    ensures forall k :: 0 <= k < |Split(s, sep)| ==> sep !in Split(s, sep)[k]
    decreases |s|
  {
    if sep in s {
      var i := IndexOf(s, sep);
      SplitPartsFree(s[i + 1..], sep);
    }
  }

  /** Each encoded part is non-empty, holds no '_' and only URL characters. */
  lemma EncodedPartsShape(name: string)
    ensures forall k :: 0 <= k < |EncodedParts(name)| ==>
      EncodedParts(name)[k] != "" && '_' !in EncodedParts(name)[k]
      && forall m :: 0 <= m < |EncodedParts(name)[k]| ==> UrlChar(EncodedParts(name)[k][m])
  {
    var segs := Segments(name);
    SplitPartsFree(Replace(Replace(name, " - ", "_-_"), " ", "_"), '_');
    forall k | 0 <= k < |EncodedParts(name)|
      ensures EncodedParts(name)[k] != "" && '_' !in EncodedParts(name)[k]
      ensures forall m :: 0 <= m < |EncodedParts(name)[k]| ==> UrlChar(EncodedParts(name)[k][m])
    {
      var y := EncodedParts(name)[k];
      CollectMember(segs, EncodeFn(), y);
      var t :| 0 <= t < |segs| && EncodeFn()(segs[t]) == Some(y);
      QuoteNonEmpty(segs[t]);
      QuoteNoUnderscore(segs[t]);
      QuoteChars(segs[t]);
    }
  }

  /** Every separator stands between two non-separator characters. */
  predicate Separated(s: string, sep: char) {
    forall i :: 0 <= i < |s| && s[i] == sep ==> 0 < i < |s| - 1 && s[i + 1] != sep
  }

  lemma {:induction false} JoinSeparated(parts: seq<string>, sep: char)
    requires forall k :: 0 <= k < |parts| ==> parts[k] != [] && sep !in parts[k]
    ensures Separated(Join(parts, sep), sep)
    ensures |parts| >= 1 ==> |Join(parts, sep)| >= |parts[0]| && Join(parts, sep)[..|parts[0]|] == parts[0]
    decreases |parts|
  {
    if |parts| > 1 {
      var rest := Join(parts[1..], sep);
      JoinSeparated(parts[1..], sep);
      var s := parts[0] + [sep] + rest;
      assert rest[0] == parts[1][0];
      assert s[..|parts[0]|] == parts[0];
      assert forall i :: 0 <= i < |parts[0]| ==> s[i] == parts[0][i] && s[i] != sep;
      forall i | 0 <= i < |s| && s[i] == sep ensures 0 < i < |s| - 1 && s[i + 1] != sep {
        if i > |parts[0]| {
          assert s[i] == rest[i - |parts[0]| - 1];
          assert s[i + 1] == rest[i - |parts[0]|];
        }
      }
    }
  }

  /** The URL is the wiki base followed by a name part that has no space, only URL
      characters, and no empty segment (no "__", no leading or trailing '_'); splitting the
      name part at '_' gives back the encoded segments. */
  lemma WikiUrlShape(name: string)
    ensures |WikiUrl(name)| >= |WikiBase| && WikiUrl(name)[..|WikiBase|] == WikiBase
    ensures var part := WikiUrl(name)[|WikiBase|..];
      ' ' !in part && Separated(part, '_')
      && (forall m :: 0 <= m < |part| ==> UrlChar(part[m]))
      && (part == "" <==> EncodedParts(name) == [])
      && (EncodedParts(name) != [] ==> Split(part, '_') == EncodedParts(name))
  {
    var ps := EncodedParts(name);
    var part := Join(ps, '_');
    assert WikiUrl(name)[|WikiBase|..] == part;
    EncodedPartsShape(name);
    JoinSeparated(ps, '_');
    assert forall m :: 0 <= m < |part| ==> UrlChar(part[m]) by {
      JoinAllChars(ps, '_');
    }
    assert ' ' !in part by {
      forall m | 0 <= m < |part| ensures part[m] != ' ' {
        assert UrlChar(part[m]);
      }
    }
    if ps != [] {
      SplitJoin(ps, '_');
      assert |part| >= |ps[0]| > 0;
    }
  }

  lemma {:induction false} JoinAllChars(parts: seq<string>, sep: char)
    requires UrlChar(sep)
    requires forall k :: 0 <= k < |parts| ==> forall m :: 0 <= m < |parts[k]| ==> UrlChar(parts[k][m])
    ensures forall m :: 0 <= m < |Join(parts, sep)| ==> UrlChar(Join(parts, sep)[m])
    decreases |parts|
  {
    if |parts| > 1 {
      JoinAllChars(parts[1..], sep);
      var s := parts[0] + [sep] + Join(parts[1..], sep);
      forall m | 0 <= m < |s| ensures UrlChar(s[m]) {
        if m < |parts[0]| {
          assert s[m] == parts[0][m];
        } else if m > |parts[0]| {
          assert s[m] == Join(parts[1..], sep)[m - |parts[0]| - 1];
        }
      }
    }
  }

  /** Replacing in a text whose start holds no first character of the pattern leaves
      that start alone. */
  lemma {:induction false} ReplaceAfter(a: string, rest: string, pat: string, rep: string)
    requires pat != [] && pat[0] !in a
    ensures Replace(a + rest, pat, rep) == a + Replace(rest, pat, rep)
    decreases |a|
  {
    if a != [] {
      var s := a + rest;
      if |s| < |pat| {
        ReplaceAbsent(rest, pat, rep);
      } else {
        assert s[..|pat|][0] == a[0];
        assert s[1..] == a[1..] + rest;
        ReplaceAfter(a[1..], rest, pat, rep);
      }
    } else {
      assert a + rest == rest;
    }
  }

  lemma ReplacePartSeparator(a: string, b: string)
    requires ' ' !in a && ' ' !in b
    ensures Replace(Replace(a + " - " + b, " - ", "_-_"), " ", "_") == a + "_-_" + b
  {
    var name := a + " - " + b;
    assert name == a + (" - " + b);
    ReplaceAfter(a, " - " + b, " - ", "_-_");
    NotContainsChar(b, " - ", ' ');
    ReplaceAbsent(b, " - ", "_-_");
    assert (" - " + b)[..3] == " - " && (" - " + b)[3..] == b;
    var r1 := a + "_-_" + b;
    assert Replace(name, " - ", "_-_") == r1;
    assert ' ' !in r1;
    NotContainsChar(r1, " ", ' ');
    ReplaceAbsent(r1, " ", "_");
  }

  lemma JoinPart(x: string, z: string)
    ensures Join([x, "-", z], '_') == x + "_-_" + z
  {
    assert Join([z], '_') == z;
    assert [x, "-", z][1..] == ["-", z] && ["-", z][1..] == [z];
    assert Join(["-", z], '_') == "-" + "_" + z;
  }

  lemma SplitPartSeparator(a: string, b: string)
    requires '_' !in a && '_' !in b
    ensures Split(a + "_-_" + b, '_') == [a, "-", b]
  {
    JoinPart(a, b);
    SplitJoin([a, "-", b], '_');
  }

  lemma QuoteDash()
    ensures Quote("-") == "-"
  {
    assert Utf8('-') == [45];
    assert QuoteBytes([45]) == QuoteByte(45);
    assert "-"[1..] == "";
  }

  lemma CollectPart(a: string, b: string)
    requires a != "" && b != ""
    ensures Collect([a, "-", b], EncodeFn()) == [Quote(a), "-", Quote(b)]
  {
    QuoteDash();
    var f := EncodeFn();
    assert [a, "-", b][..2] == [a, "-"] && [a, "-"][..1] == [a] && [a][..0] == [];
    assert Collect([a], f) == [Quote(a)];
    assert Collect([a, "-"], f) == [Quote(a), "-"];
  }

  lemma EncodePartSegments(a: string, b: string)
    requires a != "" && b != ""
    ensures Join(Collect([a, "-", b], EncodeFn()), '_') == Quote(a) + "_-_" + Quote(b)
  {
    CollectPart(a, b);
    JoinPart(Quote(a), Quote(b));
  }

  /** A name "A - B" whose sides are non-empty and hold no space or '_' gives the link
      A_-_B, each side percent-encoded. */
  lemma PartSeparator(a: string, b: string)
    requires a != "" && b != ""
    requires ' ' !in a && '_' !in a && ' ' !in b && '_' !in b
    ensures WikiUrl(a + " - " + b) == WikiBase + Quote(a) + "_-_" + Quote(b)
  {
    var name := a + " - " + b;
    ReplacePartSeparator(a, b);
    SplitPartSeparator(a, b);
    assert Segments(name) == [a, "-", b];
    EncodePartSegments(a, b);
    var qa, qb := Quote(a), Quote(b);
    assert Join(EncodedParts(name), '_') == qa + "_-_" + qb;
    ConcatAssoc(WikiBase, qa, "_-_", qb);
  }

  lemma ConcatAssoc(w: string, x: string, y: string, z: string)
    ensures w + (x + y + z) == w + x + y + z
  {
  }

  /** An ASCII character outside the unreserved set becomes one "%XX" triple. */
  lemma QuoteReserved(c: char)
    requires c as int < 128 && !Unreserved(c as int)
    ensures Quote([c]) == ['%', HexDigit(c as int / 16), HexDigit(c as int % 16)]
  {
    assert Utf8(c) == [c as int];
    assert QuoteBytes([c as int]) == QuoteByte(c as int);
    assert [c][1..] == [];
  }

  /** quote() writes an apostrophe, a question mark, a space and a non-ASCII letter as
      percent-encoded UTF-8 octets. */
  lemma QuoteExamples()
    ensures Quote("'") == "%27" && Quote("?") == "%3F" && Quote(" ") == "%20"
    ensures Quote("\U{E4}") == "%C3%A4"
  {
    QuoteReserved('\'');
    QuoteReserved('?');
    QuoteReserved(' ');
    assert HexDigit(2) == '2' && HexDigit(7) == '7' && HexDigit(3) == '3' && HexDigit(15) == 'F' && HexDigit(0) == '0';
    assert Utf8('\U{E4}') == [0xC3, 0xA4];
    assert QuoteBytes([0xC3, 0xA4]) == QuoteByte(0xC3) + QuoteBytes([0xA4]);
  }
}
