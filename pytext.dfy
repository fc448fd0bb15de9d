/**
  The Python 2 string built-ins the converter relies on, over `string`
  (a sequence of characters): the whitespace test, `strip`, the substring
  test `p in s`, `split` on one separator character and its inverse `join`,
  `split()` on whitespace runs, ASCII `lower` and one-character `replace`.
 */
module PyText {

  /** `c.isspace()` for one character of a byte string */
  predicate IsSpace(c: char) {
    c == ' ' || c == '\t' || c == '\n' || c == '\r' || c == '\U{B}' || c == '\U{C}'
  }

  predicate AllSpace(s: string) {
    forall k :: 0 <= k < |s| ==> IsSpace(s[k])
  }

  predicate NoSpace(s: string) {
    forall k :: 0 <= k < |s| ==> !IsSpace(s[k])
  }

  /** Neither end of `s` is whitespace: what `strip` leaves behind */
  predicate Stripped(s: string) {
    s == [] || (!IsSpace(s[0]) && !IsSpace(s[|s| - 1]))
  }

  /** `s.lstrip()`: the suffix left after the leading run of whitespace */
  function LStrip(s: string): (r: string)
    ensures |r| <= |s| && r == s[|s| - |r|..]
    ensures AllSpace(s[..|s| - |r|])
    ensures r == [] || !IsSpace(r[0])
    decreases |s|
  {
    if s != [] && IsSpace(s[0]) then LStrip(s[1..]) else s
  }

  /** `s.rstrip()`: the prefix left after the trailing run of whitespace */
  function RStrip(s: string): (r: string)
    ensures |r| <= |s| && r == s[..|r|]
    ensures AllSpace(s[|r|..])
    ensures r == [] || !IsSpace(r[|r| - 1])
    decreases |s|
  {
    if s != [] && IsSpace(s[|s| - 1]) then RStrip(s[..|s| - 1]) else s
  }

  /** `s.strip()`: `rstrip` after `lstrip` */
  function Strip(s: string): (r: string)
    ensures |r| <= |s|
    ensures Stripped(r)
    // what is left is `s` from the end of its leading whitespace, with only whitespace cut from its end
    ensures Trimmed(s, |s| - |LStrip(s)|, r)
  {
    StripSlice(s);
    RStrip(LStrip(s))
  }

  /** `r` is the slice of `s` that starts at `i`, with nothing but whitespace before and after it */
  predicate Trimmed(s: string, i: int, r: string) {
    0 <= i && i + |r| <= |s| && r == s[i..i + |r|] && AllSpace(s[..i]) && AllSpace(s[i + |r|..])
  }

  /** `rstrip` after `lstrip` keeps a slice of `s` with only whitespace around it */
  lemma StripSlice(s: string)
    ensures Trimmed(s, |s| - |LStrip(s)|, RStrip(LStrip(s)))
  {
    var l := LStrip(s);
    PrefixOfSuffix(s, |s| - |l|, l, RStrip(l));
  }

  /** A prefix of a suffix of `s`, each followed by whitespace only, is a slice of `s` with whitespace around it */
  lemma PrefixOfSuffix(s: string, i: nat, l: string, r: string)
    requires i <= |s| && l == s[i..] && AllSpace(s[..i])
    requires |r| <= |l| && r == l[..|r|] && AllSpace(l[|r|..])
    ensures Trimmed(s, i, r)
  {
    assert s[i + |r|..] == l[|r|..];
  }

  /** Python's `p in s` on strings, scanning `s` from the left */
  predicate Occurs(s: string, p: string)
    decreases |s|
  {
    p <= s || (s != [] && Occurs(s[1..], p))
  }

  /** The scan agrees with the positional reading of `p in s`: some suffix of `s` starts with `p` */
  lemma {:induction false} OccursAt(s: string, p: string)
    ensures Occurs(s, p) <==> exists k :: 0 <= k <= |s| && p <= s[k..]
    decreases |s|
  {
    if s != [] {
      OccursAt(s[1..], p);
      if Occurs(s[1..], p) {
        var k :| 0 <= k <= |s[1..]| && p <= s[1..][k..];
        assert s[1..][k..] == s[k + 1..];
      }
      if k :| 0 < k <= |s| && p <= s[k..] {
        assert s[1..][k - 1..] == s[k..];
      }
    } else {
      assert s[0..] == s;
    }
    assert p <= s ==> p <= s[0..];
  }

  /** What occurs in a suffix occurs in the whole */
  lemma {:induction false} OccursInSuffix(s: string, i: nat, p: string)
    requires i <= |s| && Occurs(s[i..], p)
    ensures Occurs(s, p)
    decreases i
  {
    if i > 0 {
      assert s[1..][i - 1..] == s[i..];
      OccursInSuffix(s[1..], i - 1, p);
    } else {
      assert s[i..] == s;
    }
  }

  /** What occurs in a prefix occurs in the whole */
  lemma {:induction false} OccursInPrefix(s: string, j: nat, p: string)
    requires j <= |s| && Occurs(s[..j], p)
    ensures Occurs(s, p)
    decreases j
  {
    if p <= s[..j] {
      assert s[..j] <= s;
    } else {
      assert s[..j][1..] == s[1..][..j - 1];
      OccursInPrefix(s[1..], j - 1, p);
    }
  }

  /** What `strip` returns occurs in its argument */
  lemma StripOccurs(s: string, p: string)
    requires Occurs(Strip(s), p)
    ensures Occurs(s, p)
  {
    var l := LStrip(s);
    OccursInPrefix(l, |Strip(s)|, p);
    OccursInSuffix(s, |s| - |l|, p);
  }

  /** The text before the first `c` in `s` */
  function Piece(s: string, c: char): (r: string)
    ensures r <= s && c !in r
    ensures |r| == |s| || s[|r|] == c
    decreases |s|
  {
    if s == [] || s[0] == c then [] else [s[0]] + Piece(s[1..], c)
  }

  /** `s.split(c)` for a one-character separator */
  function SplitOn(s: string, c: char): (r: seq<string>)
    ensures |r| >= 1
    decreases |s|
  {
    var p := Piece(s, c);
    if |p| == |s| then [s] else [p] + SplitOn(s[|p| + 1..], c)
  }

  /** No piece of a split holds the separator */
  lemma {:induction false} SplitOnPieces(s: string, c: char)
    ensures forall k :: 0 <= k < |SplitOn(s, c)| ==> c !in SplitOn(s, c)[k]
    decreases |s|
  {
    var p := Piece(s, c);
    if |p| < |s| {
      SplitOnPieces(s[|p| + 1..], c);
      assert p == s[..|p|];
    }
  }

  /** `c.join(parts)` */
  function JoinWith(parts: seq<string>, c: char): string
  {
    if parts == [] then ""
    else if |parts| == 1 then parts[0]
    else parts[0] + [c] + JoinWith(parts[1..], c)
  }

  /** Joining the pieces of a split gives the string back */
  lemma {:induction false} JoinSplit(s: string, c: char)
    ensures JoinWith(SplitOn(s, c), c) == s
    decreases |s|
  {
    var p := Piece(s, c);
    if |p| < |s| {
      var rest := s[|p| + 1..];
      var pieces := SplitOn(rest, c);
      assert JoinWith(pieces, c) == rest by {
        JoinSplit(rest, c);
      }
      assert JoinWith([p] + pieces, c) == p + [c] + JoinWith(pieces, c) by {
        assert ([p] + pieces)[1..] == pieces;
      }
      assert s == p + [c] + rest by {
        assert p == s[..|p|];
      }
    }
  }

  /** The first piece ends at the first separator */
  lemma {:induction false} PieceBefore(a: string, b: string, c: char)
    requires c !in a
    ensures Piece(a + [c] + b, c) == a
    decreases |a|
  {
    if a != [] {
      assert (a + [c] + b)[1..] == a[1..] + [c] + b;
      PieceBefore(a[1..], b, c);
    }
  }

  /** A split peels off everything up to the first separator */
  lemma SplitOnFirst(a: string, b: string, c: char)
    requires c !in a
    ensures SplitOn(a + [c] + b, c) == [a] + SplitOn(b, c)
  {
    PieceBefore(a, b, c);
    assert (a + [c] + b)[|a| + 1..] == b;
  }

  /** Splitting a join of separator-free parts gives the parts back */
  lemma {:induction false} SplitJoin(parts: seq<string>, c: char)
    requires |parts| >= 1
    requires forall k :: 0 <= k < |parts| ==> c !in parts[k]
    ensures SplitOn(JoinWith(parts, c), c) == parts
    decreases |parts|
  {
    if |parts| == 1 {
      PieceWhole(parts[0], c);
    } else {
      SplitJoin(parts[1..], c);
      SplitOnFirst(parts[0], JoinWith(parts[1..], c), c);
      assert [parts[0]] + parts[1..] == parts;
    }
  }

  /** Without the separator the whole string is one piece */
  lemma {:induction false} PieceWhole(s: string, c: char)
    requires c !in s
    ensures Piece(s, c) == s
    decreases |s|
  {
    if s != [] {
      PieceWhole(s[1..], c);
      assert [s[0]] + s[1..] == s;
    }
  }

  /** The last piece of a split is what follows the last separator */
  lemma {:induction false} SplitOnLast(a: string, b: string, c: char)
    requires c !in b
    ensures SplitOn(a + [c] + b, c)[|SplitOn(a + [c] + b, c)| - 1] == b
    decreases |a|
  {
    var s := a + [c] + b;
    var p := Piece(s, c);
    assert s[|a|] == c;
    var rest := SplitOn(s[|p| + 1..], c);
    assert SplitOn(s, c) == [p] + rest;
    assert rest[|rest| - 1] == b by {
      if |p| == |a| {
        assert s[|p| + 1..] == b;
        PieceWhole(b, c);
      } else {
        assert s[|p| + 1..] == a[|p| + 1..] + [c] + b by {
          assert p == a[..|p|];
        }
        SplitOnLast(a[|p| + 1..], b, c);
      }
    }
    LastOfCons(p, rest);
  }

  /** Putting an element in front keeps the last element */
  lemma LastOfCons<T>(x: T, xs: seq<T>)
    requires |xs| >= 1
    ensures ([x] + xs)[|[x] + xs| - 1] == xs[|xs| - 1]
  {
  }

  /** The longest whitespace-free prefix of `s` */
  function Word(s: string): (r: string)
    ensures r <= s && NoSpace(r)
    ensures |r| == |s| || IsSpace(s[|r|])
    ensures s != [] && !IsSpace(s[0]) ==> r != []
    decreases |s|
  {
    if s == [] || IsSpace(s[0]) then [] else [s[0]] + Word(s[1..])
  }

  /** `s.split()`: the maximal whitespace-free runs of `s`, in order */
  function Words(s: string): seq<string>
    decreases |s|
  {
    var t := LStrip(s);
    if t == [] then []
    else
      var w := Word(t);
      [w] + Words(t[|w|..])
  }

  /** Every token of `split()` is non-empty and holds no whitespace */
  lemma {:induction false} WordsAreTokens(s: string)
    ensures forall k :: 0 <= k < |Words(s)| ==> Words(s)[k] != [] && NoSpace(Words(s)[k])
    decreases |s|
  {
    var t := LStrip(s);
    if t != [] {
      var w := Word(t);
      var rest := Words(t[|w|..]);
      WordsAreTokens(t[|w|..]);
      assert Words(s) == [w] + rest;
      ConsTokens(w, rest);
    }
  }

  /** A token in front of a list of tokens gives a list of tokens */
  lemma ConsTokens(w: string, rest: seq<string>)
    requires w != [] && NoSpace(w)
    requires forall k :: 0 <= k < |rest| ==> rest[k] != [] && NoSpace(rest[k])
    ensures forall k :: 0 <= k < |[w] + rest| ==> ([w] + rest)[k] != [] && NoSpace(([w] + rest)[k])
  {
    forall k | 0 < k < |[w] + rest|
      ensures ([w] + rest)[k] == rest[k - 1]
    {
    }
  }

  /** A text laid out as `lead`, then each token followed by its separator */
  function Spaced(lead: string, tokens: seq<string>, seps: seq<string>): (r: string)
    requires |seps| == |tokens|
    ensures lead <= r
    decreases |tokens|
  {
    if tokens == [] then lead
    else lead + tokens[0] + Spaced(seps[0], tokens[1..], seps[1..])
  }

  /** The separators are whitespace, and all but the last are non-empty */
  predicate WellSpaced(lead: string, tokens: seq<string>, seps: seq<string>) {
    && |seps| == |tokens|
    && AllSpace(lead)
    && (forall k :: 0 <= k < |tokens| ==> tokens[k] != [] && NoSpace(tokens[k]))
    && (forall k :: 0 <= k < |seps| ==> AllSpace(seps[k]))
    && (forall k :: 0 <= k < |seps| - 1 ==> seps[k] != [])
  }

  lemma {:induction false} LStripAfterSpace(a: string, b: string)
    requires AllSpace(a) && (b == [] || !IsSpace(b[0]))
    ensures LStrip(a + b) == b
    decreases |a|
  {
    if a != [] {
      assert (a + b)[1..] == a[1..] + b;
      LStripAfterSpace(a[1..], b);
    } else {
      assert a + b == b;
    }
  }

  lemma {:induction false} WordOfToken(tok: string, rest: string)
    requires tok != [] && NoSpace(tok) && (rest == [] || IsSpace(rest[0]))
    ensures Word(tok + rest) == tok
    decreases |tok|
  {
    assert (tok + rest)[1..] == tok[1..] + rest;
    if |tok| > 1 {
      WordOfToken(tok[1..], rest);
    } else {
      assert tok[1..] + rest == rest;
    }
    assert [tok[0]] + tok[1..] == tok;
  }

  /** `split()` takes a token that follows whitespace and stops at the whitespace after it */
  lemma WordsStep(lead: string, tok: string, rest: string)
    requires AllSpace(lead) && tok != [] && NoSpace(tok) && (rest == [] || IsSpace(rest[0]))
    ensures Words(lead + tok + rest) == [tok] + Words(rest)
  {
    assert lead + (tok + rest) == lead + tok + rest;
    LStripAfterSpace(lead, tok + rest);
    WordOfToken(tok, rest);
    assert (tok + rest)[|tok|..] == rest;
  }

  /** `split()` recovers the tokens of a whitespace-separated layout, in order */
  lemma {:induction false} WordsOfSpaced(lead: string, tokens: seq<string>, seps: seq<string>)
    requires WellSpaced(lead, tokens, seps)
    ensures Words(Spaced(lead, tokens, seps)) == tokens
    decreases |tokens|
  {
    if tokens == [] {
      LStripAfterSpace(lead, []);
      assert lead + [] == lead;
    } else {
      var tok, rest := tokens[0], Spaced(seps[0], tokens[1..], seps[1..]);
      assert Words(rest) == tokens[1..] by {
        assert WellSpaced(seps[0], tokens[1..], seps[1..]);
        WordsOfSpaced(seps[0], tokens[1..], seps[1..]);
      }
      assert rest == [] || IsSpace(rest[0]) by {
        assert seps[0] <= rest;
        if |tokens| > 1 {
          assert seps[0] != [];
        }
      }
      assert Words(lead + tok + rest) == [tok] + Words(rest) by {
        WordsStep(lead, tok, rest);
      }
      assert [tok] + tokens[1..] == tokens;
    }
  }

  /** `c.lower()` for ASCII letters */
  function LowerChar(c: char): char {
    if 'A' <= c <= 'Z' then (c as int + 32) as char else c
  }

  /** `s.lower()` */
  function Lower(s: string): string {
    seq(|s|, k requires 0 <= k < |s| => LowerChar(s[k]))
  }

  /** `s.replace(a, b)` for one-character `a` and `b` */
  function ReplaceChar(s: string, a: char, b: char): string {
    seq(|s|, k requires 0 <= k < |s| => if s[k] == a then b else s[k])
  }
}
