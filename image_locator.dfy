/**
  `find_image`: the image a `<href>` names is looked up in the directory of
  the KML file by its last path segment, ignoring letter case.
 */
module ImageLocator {
  import opened PyText
  import opened Results

  /** The file-name pattern: the last segment of the path, with `\` read as `/`, in lower case */
  function ImagePattern(imgPath: string): (r: string)
    ensures '/' !in r && '\\' !in r
  {
    var parts := SplitOn(ReplaceChar(imgPath, '\\', '/'), '/');
    var last := parts[|parts| - 1];
    assert '/' !in last by {
      SplitOnPieces(ReplaceChar(imgPath, '\\', '/'), '/');
    }
    assert '\\' !in last by {
      var slashed := ReplaceChar(imgPath, '\\', '/');
      forall k | 0 <= k < |slashed|
        ensures slashed[k] != '\\'
      {
      }
      assert '\\' !in slashed;
      SplitOnLastWithin(slashed, '/');
    }
    Lower(last)
  }

  /** The last piece of a split is a part of the text that was split */
  lemma SplitOnLastWithin(s: string, c: char)
    ensures forall x :: x in SplitOn(s, c)[|SplitOn(s, c)| - 1] ==> x in s
  {
    JoinWithLast(SplitOn(s, c), c);
    JoinSplit(s, c);
  }

  /** Every character of the last part is in the joined text */
  lemma {:induction false} JoinWithLast(parts: seq<string>, c: char)
    requires |parts| >= 1
    ensures forall x :: x in parts[|parts| - 1] ==> x in JoinWith(parts, c)
    decreases |parts|
  {
    if |parts| > 1 {
      JoinWithLast(parts[1..], c);
      JoinWithTail(parts, c);
    }
  }

  /** Joining more than one part ends with the join of all but the first */
  lemma JoinWithTail(parts: seq<string>, c: char)
    requires |parts| > 1
    ensures forall x :: x in JoinWith(parts[1..], c) ==> x in JoinWith(parts, c)
  {
  }

  /** The name the directory is listed under: the KML file's directory, or `.` when it has none */
  function ListedDir(mapDir: string): (r: string)
    ensures r != []
    ensures mapDir != [] ==> r == mapDir
    ensures mapDir == [] ==> r == "."
  {
    if mapDir != [] then mapDir else "."
  }

  /** The entries of `listing` whose lower-case form equals `patt`, in listing order */
  function Matches(listing: seq<string>, patt: string): (r: seq<string>)
    ensures |r| <= |listing|
    ensures forall k :: 0 <= k < |r| ==> Lower(r[k]) == patt
    decreases |listing|
  {
    if listing == [] then []
    else if Lower(listing[0]) == patt then [listing[0]] + Matches(listing[1..], patt)
    else Matches(listing[1..], patt)
  }

  /** The matches are exactly the entries that lower-case to the pattern */
  lemma {:induction false} MatchesMembers(listing: seq<string>, patt: string)
    ensures forall x :: x in Matches(listing, patt) <==> x in listing && Lower(x) == patt
    decreases |listing|
  {
    if listing != [] {
      MatchesMembers(listing[1..], patt);
      assert listing == [listing[0]] + listing[1..];
    }
  }

  /** The first match is the first entry, in listing order, that lower-cases to the pattern */
  lemma {:induction false} MatchesFirst(listing: seq<string>, patt: string, k: nat)
    requires k < |listing| && Lower(listing[k]) == patt
    requires forall j :: 0 <= j < k ==> Lower(listing[j]) != patt
    ensures Matches(listing, patt) != [] && Matches(listing, patt)[0] == listing[k]
    decreases k
  {
    if k > 0 {
      MatchesFirst(listing[1..], patt, k - 1);
    }
  }

  /** There is no match exactly when no entry lower-cases to the pattern */
  lemma MatchesEmpty(listing: seq<string>, patt: string)
    ensures Matches(listing, patt) == [] <==> forall k :: 0 <= k < |listing| ==> Lower(listing[k]) != patt
  {
    MatchesMembers(listing, patt);
    if Matches(listing, patt) != [] {
      var x := Matches(listing, patt)[0];
      assert x in Matches(listing, patt);
    }
  }

  /**
    `find_image(imgPath, mapDir)`: the directory name joined with the first
    entry of the directory that matches the pattern, or "Image file not found".
    `listDir` and `join` stand for `os.listdir` and `os.path.join`.
   */
  function FindImage(imgPath: string, mapDir: string, listDir: string -> seq<string>, join: (string, string) -> string): (r: Result<string>)
    ensures var listing := listDir(ListedDir(mapDir));
      r.Failure? <==> forall k :: 0 <= k < |listing| ==> Lower(listing[k]) != ImagePattern(imgPath)
    ensures r.Failure? ==> r.error == ImageNotFound(imgPath)
    ensures var listing := listDir(ListedDir(mapDir));
      r.Success? ==> exists k :: 0 <= k < |listing| && Lower(listing[k]) == ImagePattern(imgPath) && r.value == join(mapDir, listing[k])
  {
    var listing := listDir(ListedDir(mapDir));
    var m := Matches(listing, ImagePattern(imgPath));
    MatchesEmpty(listing, ImagePattern(imgPath));
    MatchesMembers(listing, ImagePattern(imgPath));
    if m == [] then Failure(ImageNotFound(imgPath))
    else
      assert m[0] in m;
      Success(join(mapDir, m[0]))
  }

  /** When several entries match, the one listed first is used */
  lemma FindImageFirst(imgPath: string, mapDir: string, listDir: string -> seq<string>, join: (string, string) -> string, k: nat)
    requires var listing := listDir(ListedDir(mapDir));
      k < |listing| && Lower(listing[k]) == ImagePattern(imgPath)
      && forall j :: 0 <= j < k ==> Lower(listing[j]) != ImagePattern(imgPath)
    ensures FindImage(imgPath, mapDir, listDir, join) == Success(join(mapDir, listDir(ListedDir(mapDir))[k]))
  {
    MatchesFirst(listDir(ListedDir(mapDir)), ImagePattern(imgPath), k);
  }

  /** Replacing characters distributes over concatenation */
  lemma ReplaceCharAppend(a: string, b: string, x: char, y: char)
    ensures ReplaceChar(a + b, x, y) == ReplaceChar(a, x, y) + ReplaceChar(b, x, y)
  {
  }

  /** The pattern of a path is the lower-cased name after its last separator, `/` or `\` */
  lemma ImagePatternName(dir: string, sep: char, name: string)
    requires sep == '/' || sep == '\\'
    requires '/' !in name && '\\' !in name
    ensures ImagePattern(dir + [sep] + name) == Lower(name)
  {
    var d := ReplaceChar(dir, '\\', '/');
    assert ReplaceChar(name, '\\', '/') == name;
    assert ReplaceChar([sep], '\\', '/') == ['/'];
    ReplaceCharAppend(dir, [sep], '\\', '/');
    ReplaceCharAppend(dir + [sep], name, '\\', '/');
    SplitOnLast(d, name, '/');
  }

  /** A reference without any separator, such as `img.png`, is looked up by its own name in lower case */
  lemma ImagePatternPlain(name: string)
    requires '/' !in name && '\\' !in name
    ensures ImagePattern(name) == Lower(name)
  {
    assert ReplaceChar(name, '\\', '/') == name;
    PieceWhole(name, '/');
  }

  /** A Windows-style reference `a\b\Map.PNG` is looked up as `map.png` */
  lemma ImagePatternWindows()
    ensures ImagePattern("a\\b\\Map.PNG") == "map.png"
  {
    ImagePatternName("a\\b", '\\', "Map.PNG");
    assert "a\\b" + ['\\'] + "Map.PNG" == "a\\b\\Map.PNG";
    assert Lower("Map.PNG") == "map.png";
  }
}
