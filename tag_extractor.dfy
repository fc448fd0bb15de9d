/**
  The tag extractor `kml_parm`: the document text is split wherever the
  pattern `</?NAME>` matches, i.e. at every `<NAME>` and every `</NAME>`,
  scanning from the left; the fragments at odd positions of the split are the
  tag contents. List mode returns all of them stripped, scalar mode the one at
  position 1 (a missing one is Python's IndexError).
 */
module TagExtractor {
  import opened PyText
  import opened Results

  /** Characters of the tag names the converter looks up (`name`, `href`, `north`, `coordinates`, ...) */
  predicate IsTagChar(c: char) {
    'a' <= c <= 'z' || 'A' <= c <= 'Z' || '0' <= c <= '9' || c == '_' || c == ':'
  }

  /** A tag name that means itself inside the pattern `</?NAME>`: no regular-expression syntax, no `<`, `/` or `>` */
  predicate PlainTag(t: string) {
    forall k :: 0 <= k < |t| ==> IsTagChar(t[k])
  }

  /** The two strings the pattern matches */
  datatype Delims = Delims(open: string, close: string)

  /** The opening tag `<t>` */
  function OpenTag(t: string): string {
    "<" + t + ">"
  }

  /** The delimiters of tag `t`: `<t>` and `</t>` */
  function TagDelims(t: string): Delims {
    Delims(OpenTag(t), "</" + t + ">")
  }

  /** Delimiters that consume text when they match */
  predicate NonEmpty(ds: Delims) {
    ds.open != [] && ds.close != []
  }

  /**
    Delimiters that a left-to-right scan cannot confuse: each starts with `<`
    and holds no other `<`, and neither is a prefix of the other.
   */
  predicate Separable(ds: Delims) {
    && NonEmpty(ds) && ds.open[0] == '<' && ds.close[0] == '<'
    && (forall k :: 0 < k < |ds.open| ==> ds.open[k] != '<')
    && (forall k :: 0 < k < |ds.close| ==> ds.close[k] != '<')
    && !(ds.open <= ds.close) && !(ds.close <= ds.open)
  }

  /** The length of the delimiter matched at the start of `s` (the optional `/` is tried first), or 0 */
  function DelimAt(s: string, ds: Delims): nat {
    if ds.close <= s then |ds.close| else if ds.open <= s then |ds.open| else 0
  }

  /** Neither delimiter occurs anywhere in `s` */
  predicate NoDelim(s: string, ds: Delims) {
    !Occurs(s, ds.open) && !Occurs(s, ds.close)
  }

  /** The text before the first delimiter match in `s` (all of `s` when there is none) */
  function Fragment(s: string, ds: Delims): (r: string)
    ensures r <= s
    ensures |r| == |s| || DelimAt(s[|r|..], ds) > 0
    decreases |s|
  {
    if s == [] || DelimAt(s, ds) > 0 then [] else [s[0]] + Fragment(s[1..], ds)
  }

  /** `re.split(pattern, s)`: the fragments between successive delimiter matches */
  function SplitTag(s: string, ds: Delims): (r: seq<string>)
    ensures |r| >= 1
    decreases |s|
  {
    var f := Fragment(s, ds);
    if |f| == |s| then [s] else [f] + SplitTag(s[|f| + DelimAt(s[|f|..], ds)..], ds)
  }

  /** Plain tag names give delimiters the scan cannot confuse */
  lemma TagDelimsSeparable(t: string)
    requires PlainTag(t)
    ensures Separable(TagDelims(t))
  {
    var ds := TagDelims(t);
    forall k | 0 < k < |ds.open|
      ensures ds.open[k] != '<'
    {
      if k <= |t| {
        assert ds.open[k] == t[k - 1];
      }
    }
    forall k | 0 < k < |ds.close|
      ensures ds.close[k] != '<'
    {
      if 1 < k <= |t| + 1 {
        assert ds.close[k] == t[k - 2];
      }
    }
    assert ds.open[1] != '/' by {
      if t != [] {
        assert ds.open[1] == t[0];
      }
    }
    assert ds.open[1] != ds.close[1];
  }

  /** The first fragment holds no delimiter: the scan stops at the first match */
  lemma {:induction false} FragmentNoDelim(s: string, ds: Delims)
    requires NonEmpty(ds)
    ensures NoDelim(Fragment(s, ds), ds)
    decreases |s|
  {
    if s != [] && DelimAt(s, ds) == 0 {
      var r := Fragment(s, ds);
      FragmentNoDelim(s[1..], ds);
      assert r[1..] == Fragment(s[1..], ds);
    }
  }

  /** No fragment of the split holds a delimiter */
  lemma {:induction false} SplitTagPieces(s: string, ds: Delims)
    requires NonEmpty(ds)
    ensures forall k :: 0 <= k < |SplitTag(s, ds)| ==> NoDelim(SplitTag(s, ds)[k], ds)
    decreases |s|
  {
    var f := Fragment(s, ds);
    FragmentNoDelim(s, ds);
    if |f| < |s| {
      var rest := s[|f| + DelimAt(s[|f|..], ds)..];
      SplitTagPieces(rest, ds);
      assert SplitTag(s, ds) == [f] + SplitTag(rest, ds);
    } else {
      assert f == s;
    }
  }

  /** The split has a single fragment exactly when neither delimiter occurs */
  lemma SplitTagSingle(s: string, ds: Delims)
    requires NonEmpty(ds)
    ensures |SplitTag(s, ds)| == 1 <==> NoDelim(s, ds)
  {
    var f := Fragment(s, ds);
    FragmentNoDelim(s, ds);
    if |f| < |s| {
      if ds.close <= s[|f|..] {
        OccursInSuffix(s, |f|, ds.close);
      } else {
        OccursInSuffix(s, |f|, ds.open);
      }
    } else {
      assert f == s;
    }
  }

  /** Stripping keeps a text free of delimiters */
  lemma StripPieces(l: seq<string>, ds: Delims)
    requires forall k :: 0 <= k < |l| ==> NoDelim(l[k], ds)
    ensures forall k :: 0 <= k < |l| ==> NoDelim(Strip(l[k]), ds)
  {
    forall k | 0 <= k < |l|
      ensures NoDelim(Strip(l[k]), ds)
    {
      if Occurs(Strip(l[k]), ds.open) {
        StripOccurs(l[k], ds.open);
      }
      if Occurs(Strip(l[k]), ds.close) {
        StripOccurs(l[k], ds.close);
      }
    }
  }

  /** `kml_parm(hdr, t, lst=True)`: every odd-position fragment, stripped */
  function KmlParmList(hdr: string, t: string): (r: seq<string>)
    ensures forall k :: 0 <= k < |r| ==> Stripped(r[k]) && NoDelim(r[k], TagDelims(t))
    ensures !NoDelim(hdr, TagDelims(t)) ==> |r| >= 1
  {
    var ds := TagDelims(t);
    var l := SplitTag(hdr, ds);
    SplitTagPieces(hdr, ds);
    StripPieces(l, ds);
    SplitTagSingle(hdr, ds);
    seq(|l| / 2, k requires 0 <= k < |l| / 2 => Strip(l[2 * k + 1]))
  }

  /** `kml_parm(hdr, t)`: the fragment at position 1, stripped; IndexError when the split has only one fragment */
  function KmlParm(hdr: string, t: string): (r: Result<string>)
    ensures r.Failure? <==> NoDelim(hdr, TagDelims(t))
    ensures r.Failure? ==> r.error == MissingTag(t)
    ensures r.Success? ==> Stripped(r.value) && NoDelim(r.value, TagDelims(t))
  {
    var ds := TagDelims(t);
    var l := SplitTag(hdr, ds);
    SplitTagSingle(hdr, ds);
    if |l| < 2 then Failure(MissingTag(t))
    else
      SplitTagPieces(hdr, ds);
      StripPieces(l, ds);
      Success(Strip(l[1]))
  }

  /** A match cannot start inside a piece that holds no `d` and run on into text that starts with `<` */
  lemma NotAcross(f: string, rest: string, d: string)
    requires f != [] && !Occurs(f, d)
    requires rest != [] && rest[0] == '<'
    requires forall k :: 0 < k < |d| ==> d[k] != '<'
    ensures !(d <= f + rest)
  {
    if |d| <= |f| {
      assert (f + rest)[..|d|] == f[..|d|];
    } else {
      assert (f + rest)[|f|] == '<';
    }
  }

  /** No match starts at a non-empty delimiter-free piece followed by a delimiter or by nothing */
  lemma NoDelimAtJoin(f: string, rest: string, ds: Delims)
    requires Separable(ds) && f != [] && NoDelim(f, ds)
    requires rest == [] || DelimAt(rest, ds) > 0
    ensures DelimAt(f + rest, ds) == 0
  {
    if rest == [] {
      assert f + rest == f;
    } else {
      NotAcross(f, rest, ds.open);
      NotAcross(f, rest, ds.close);
    }
  }

  /** A delimiter at the start is matched whole */
  lemma DelimAtDelim(d: string, x: string, ds: Delims)
    requires Separable(ds) && (d == ds.open || d == ds.close)
    ensures DelimAt(d + x, ds) == |d|
  {
    if d == ds.open {
      if |ds.close| <= |ds.open| {
        assert (d + x)[..|ds.close|] == ds.open[..|ds.close|];
      } else {
        assert ds.close[..|ds.open|] != ds.open;
        assert (d + x)[..|ds.open|] == ds.open;
      }
    }
  }

  /** The first fragment of a delimiter-free piece followed by a delimiter (or by nothing) is that piece */
  lemma {:induction false} FragmentBefore(f: string, rest: string, ds: Delims)
    requires Separable(ds) && NoDelim(f, ds)
    requires rest == [] || DelimAt(rest, ds) > 0
    ensures Fragment(f + rest, ds) == f
    decreases |f|
  {
    if f == [] {
      assert f + rest == rest;
    } else {
      var s := f + rest;
      NoDelimAtJoin(f, rest, ds);
      assert Fragment(s[1..], ds) == f[1..] by {
        assert NoDelim(f[1..], ds);
        assert s[1..] == f[1..] + rest;
        FragmentBefore(f[1..], rest, ds);
      }
      assert s[0] == f[0];
      assert [f[0]] + f[1..] == f;
    }
  }

  /** Concatenation regrouped around its last two parts */
  lemma Regroup(a: string, b: string, c: string, d: string)
    ensures a + b + c + d == a + b + (c + d)
  {
  }

  /** Concatenation of five parts regrouped around its last three */
  lemma RegroupPair(a: string, b: string, c: string, d: string, e: string)
    ensures a + b + c + d + e == a + b + (c + d + e)
  {
  }

  /** Two elements put in front one at a time */
  lemma ConsPair(x: string, y: string, l: seq<string>)
    ensures [x] + ([y] + l) == [x, y] + l
  {
  }

  /** Splitting a delimiter-free piece, a delimiter and more text: the piece, then the split of the text */
  lemma SplitTagAfterDelim(f: string, d: string, x: string, ds: Delims)
    requires Separable(ds) && (d == ds.open || d == ds.close) && NoDelim(f, ds)
    ensures SplitTag(f + d + x, ds) == [f] + SplitTag(x, ds)
  {
    var rest := d + x;
    DelimAtDelim(d, x, ds);
    FragmentBefore(f, rest, ds);
    assert f + d + x == f + rest;
    assert (f + rest)[|f|..] == rest;
    assert (f + rest)[|f| + |d|..] == x;
  }

  /** Splitting a delimiter-free text: the text alone */
  lemma SplitTagWhole(f: string, ds: Delims)
    requires Separable(ds) && NoDelim(f, ds)
    ensures SplitTag(f, ds) == [f]
  {
    FragmentBefore(f, [], ds);
    assert f + [] == f;
  }

  /** The first fragment of the split is the text before the first match */
  lemma SplitTagHead(s: string, ds: Delims)
    ensures SplitTag(s, ds)[0] == Fragment(s, ds)
  {
    if |Fragment(s, ds)| == |s| {
      assert Fragment(s, ds) == s;
    }
  }

  /** Scalar mode returns the second fragment of the split, stripped, whenever there is one */
  lemma KmlParmOfSplit(hdr: string, t: string)
    requires |SplitTag(hdr, TagDelims(t))| >= 2
    ensures KmlParm(hdr, t) == Success(Strip(SplitTag(hdr, TagDelims(t))[1]))
  {
  }

  /** The fragment after the first delimiter runs up to the next delimiter or the end of the text */
  lemma SplitTagSecond(f: string, d: string, g: string, tail: string, ds: Delims)
    requires Separable(ds) && (d == ds.open || d == ds.close)
    requires NoDelim(f, ds) && NoDelim(g, ds)
    requires tail == [] || DelimAt(tail, ds) > 0
    ensures |SplitTag(f + d + g + tail, ds)| >= 2 && SplitTag(f + d + g + tail, ds)[1] == g
  {
    Regroup(f, d, g, tail);
    assert SplitTag(f + d + (g + tail), ds) == [f] + SplitTag(g + tail, ds) by {
      SplitTagAfterDelim(f, d, g + tail, ds);
    }
    assert SplitTag(g + tail, ds)[0] == g by {
      SplitTagHead(g + tail, ds);
      FragmentBefore(g, tail, ds);
    }
  }

  /**
    Scalar mode on text with a delimiter: the stripped text between the first
    delimiter and the next one, or the end of the text.
   */
  lemma KmlParmBetween(f: string, d: string, g: string, tail: string, t: string)
    requires PlainTag(t) && (d == TagDelims(t).open || d == TagDelims(t).close)
    requires NoDelim(f, TagDelims(t)) && NoDelim(g, TagDelims(t))
    requires tail == [] || DelimAt(tail, TagDelims(t)) > 0
    ensures KmlParm(f + d + g + tail, t) == Success(Strip(g))
  {
    TagDelimsSeparable(t);
    SplitTagSecond(f, d, g, tail, TagDelims(t));
    KmlParmOfSplit(f + d + g + tail, t);
  }

  /** A document holding each of `items` between `<t>` and `</t>`: `first`, then `<t>` items[k] `</t>` gaps[k] for each k */
  function Tagged(ds: Delims, first: string, items: seq<string>, gaps: seq<string>): string
    requires |gaps| == |items|
    decreases |items|
  {
    if items == [] then first
    else first + ds.open + items[0] + ds.close + Tagged(ds, gaps[0], items[1..], gaps[1..])
  }

  /** The pieces of a tagged document are all free of delimiters */
  predicate WellTagged(ds: Delims, first: string, items: seq<string>, gaps: seq<string>) {
    && Separable(ds)
    && |gaps| == |items|
    && NoDelim(first, ds)
    && (forall k :: 0 <= k < |items| ==> NoDelim(items[k], ds))
    && (forall k :: 0 <= k < |gaps| ==> NoDelim(gaps[k], ds))
  }

  /** The text outside the tags and the items, alternating in document order */
  function Interleave(first: string, items: seq<string>, gaps: seq<string>): (r: seq<string>)
    requires |gaps| == |items|
    ensures |r| == 2 * |items| + 1
    decreases |items|
  {
    if items == [] then [first]
    else [first, items[0]] + Interleave(gaps[0], items[1..], gaps[1..])
  }

  /** The items sit at the odd positions of the interleaving */
  lemma {:induction false} InterleaveOdd(first: string, items: seq<string>, gaps: seq<string>)
    requires |gaps| == |items|
    ensures forall k :: 0 <= k < |items| ==> Interleave(first, items, gaps)[2 * k + 1] == items[k]
    decreases |items|
  {
    if items != [] {
      var inner := Interleave(gaps[0], items[1..], gaps[1..]);
      InterleaveOdd(gaps[0], items[1..], gaps[1..]);
      forall k | 0 < k < |items|
        ensures Interleave(first, items, gaps)[2 * k + 1] == items[k]
      {
        var j := k - 1;
        assert Interleave(first, items, gaps)[2 * k + 1] == inner[2 * j + 1];
      }
    }
  }

  /** One tagged item: the text before it, the item, then the split of what follows */
  lemma SplitTagPair(first: string, item: string, rest: string, ds: Delims)
    requires Separable(ds) && NoDelim(first, ds) && NoDelim(item, ds)
    ensures SplitTag(first + ds.open + item + ds.close + rest, ds) == [first, item] + SplitTag(rest, ds)
  {
    var inner := item + ds.close + rest;
    RegroupPair(first, ds.open, item, ds.close, rest);
    assert SplitTag(inner, ds) == [item] + SplitTag(rest, ds) by {
      SplitTagAfterDelim(item, ds.close, rest, ds);
    }
    assert SplitTag(first + ds.open + inner, ds) == [first] + SplitTag(inner, ds) by {
      SplitTagAfterDelim(first, ds.open, inner, ds);
    }
    ConsPair(first, item, SplitTag(rest, ds));
  }

  /** The split of a tagged document is the interleaving of the outside text and the items */
  lemma {:induction false} SplitTagged(ds: Delims, first: string, items: seq<string>, gaps: seq<string>)
    requires WellTagged(ds, first, items, gaps)
    ensures SplitTag(Tagged(ds, first, items, gaps), ds) == Interleave(first, items, gaps)
    decreases |items|
  {
    if items == [] {
      SplitTagWhole(first, ds);
    } else {
      assert WellTagged(ds, gaps[0], items[1..], gaps[1..]);
      SplitTagged(ds, gaps[0], items[1..], gaps[1..]);
      SplitTagPair(first, items[0], Tagged(ds, gaps[0], items[1..], gaps[1..]), ds);
    }
  }

  /** Mapping the odd positions of an interleaving maps the items */
  lemma MapOdd(l: seq<string>, items: seq<string>, f: string -> string)
    requires |l| == 2 * |items| + 1
    requires forall k :: 0 <= k < |items| ==> l[2 * k + 1] == items[k]
    ensures seq(|l| / 2, k requires 0 <= k < |l| / 2 => f(l[2 * k + 1]))
         == seq(|items|, k requires 0 <= k < |items| => f(items[k]))
  {
    var lhs := seq(|l| / 2, k requires 0 <= k < |l| / 2 => f(l[2 * k + 1]));
    assert |lhs| == |items|;
    forall k | 0 <= k < |items|
      ensures lhs[k] == f(items[k])
    {
      assert l[2 * k + 1] == items[k];
    }
  }

  /** List mode returns one stripped item per tag pair, in document order */
  lemma KmlParmListTagged(t: string, first: string, items: seq<string>, gaps: seq<string>)
    requires PlainTag(t) && |gaps| == |items|
    requires NoDelim(first, TagDelims(t))
    requires forall k :: 0 <= k < |items| ==> NoDelim(items[k], TagDelims(t))
    requires forall k :: 0 <= k < |gaps| ==> NoDelim(gaps[k], TagDelims(t))
    ensures KmlParmList(Tagged(TagDelims(t), first, items, gaps), t) == seq(|items|, k requires 0 <= k < |items| => Strip(items[k]))
  {
    var ds := TagDelims(t);
    assert SplitTag(Tagged(ds, first, items, gaps), ds) == Interleave(first, items, gaps) by {
      TagDelimsSeparable(t);
      SplitTagged(ds, first, items, gaps);
    }
    InterleaveOdd(first, items, gaps);
    MapOdd(Interleave(first, items, gaps), items, Strip);
  }
}