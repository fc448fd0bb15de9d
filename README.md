# kml2gdal core, modelled in Dafny

`kml2gdal.py` (tilers-tools) turns the `<GroundOverlay>` blocks of a KML
document into GDAL virtual rasters (`.vrt`). Each raster is georeferenced by
four ground control points (GCPs) that tie the image's pixel corners to the
overlay's ground corners. This project models the converter's logic on
strings, lists and coordinates, and proves what each step promises:

- `results.dfy` (`Results`): the converter's errors, a `Result` type, and
  `MapAll`. `MapAll` is a list comprehension that stops at its first
  failing element.
- `pytext.dfy` (`PyText`): the Python string built-ins the converter relies on:
  - `strip`, `split(c)` and `join`;
  - whitespace `split()`;
  - ASCII `lower`;
  - one-character `replace`;
  - substring `in`.
- `tag_extractor.dfy` (`TagExtractor`): `kml_parm`. The text is split on
  `<t>` and `</t>`, and the fragments at odd positions are kept, stripped.
- `image_locator.dfy` (`ImageLocator`): `find_image`. The image file is
  found by case-insensitive name in the KML file's directory.
- `footprint.dfy` (`Footprint`): the overlay's ground corners.
  - A `<gx:LatLonQuad>` gives one point per token.
  - A `<LatLonBox>` gives its four corners.
  - A `<rotation>` turns the projected box into a parallelogram.
- `georef.dfy` (`Georef`): the GCP list, the output projection string, and
  the destination file name.
- `overlay.dfy` (`Overlay`):
  - `overlay2vrt` as a function from one overlay block to a `VrtPlan`: the
    image, the output file, the projection, the GCPs and the description.
  - `kml2vrt` as a method whose loop converts the blocks in document order
    and stops at the first failure.

What the converter asks of the outside world is passed in as the `Env`
record:
- `os.listdir`, `os.path.join` and `os.path.splitext`;
- `float()`;
- the geographic-to-Mercator transformer;
- sine and cosine of the rotation angle;
- the raster size of the image.

Python exceptions become `Failure` values, one `Error` constructor per
exception kind:
- `IndexError` from a missing tag (`MissingTag`) or from too few coordinates
  (`ShortCoordinates`);
- `ValueError` from `float()` (`BadNumber`);
- the failed `assert` on `<LatLonBox>` (`MissingFootprint`);
- the two `Exception`s the converter raises itself (`InvalidDocument`,
  `ImageNotFound`).

Behaviour of the converter worth noting:
- **The overlay name is required.** A `<GroundOverlay>` without
  `<name>`/`</name>` fails with `MissingTag("name")`. Scalar `kml_parm`
  indexes fragment 1, so the name is not optional.
- **A quad may have any number of points.** The GCP list pairs the first
  `min(4, n)` of them with the pixel corners, as `zip` does. There is not
  always exactly four.
- **The first failing overlay stops the whole document.** The converter
  does not go on to the overlay's siblings.
- **Two more errors exist.** `float()` rejecting a number, and a corner with
  too few numbers, are errors of their own.

## Model

| member | source | states |
|---|---|---|
| PyText.Strip | tilers_tools/kml2gdal.py:40 | `strip()` gives the slice of the text that starts after its leading whitespace, with nothing but whitespace before and after it, and no whitespace at either of its own ends |
| PyText.StripOccurs | tilers_tools/kml2gdal.py:40 | anything that occurs in the stripped text occurs in the original |
| PyText.OccursAt | tilers_tools/kml2gdal.py:78 | substring `in` holds exactly when the pattern is a prefix of some suffix of the text |
| PyText.SplitOnPieces | tilers_tools/kml2gdal.py:44 | no piece of `split(c)` contains `c` |
| PyText.JoinSplit | tilers_tools/kml2gdal.py:79 | joining the pieces of `split(c)` with `c` gives back the text |
| PyText.SplitJoin | tilers_tools/kml2gdal.py:79 | splitting the join of pieces without `c` gives back the pieces |
| PyText.SplitOnFirst | tilers_tools/kml2gdal.py:79 | the first piece of `split(c)` runs up to the first `c` |
| PyText.SplitOnLast | tilers_tools/kml2gdal.py:44-45 | the last piece of `split(c)` is the text after the last `c` |
| PyText.WordsAreTokens | tilers_tools/kml2gdal.py:79 | every token of `split()` is non-empty and free of whitespace |
| PyText.WordsOfSpaced | tilers_tools/kml2gdal.py:79 | `split()` of tokens separated by whitespace gives back the tokens, in order |
| TagExtractor.TagDelimsSeparable | tilers_tools/kml2gdal.py:38 | for a plain tag name, `<t>` and `</t>` cannot be confused by the left-to-right scan |
| TagExtractor.SplitTagPieces | tilers_tools/kml2gdal.py:38 | no fragment of the split contains `<t>` or `</t>` |
| TagExtractor.SplitTagSingle | tilers_tools/kml2gdal.py:38 | the split has one fragment exactly when neither `<t>` nor `</t>` occurs |
| TagExtractor.KmlParmList | tilers_tools/kml2gdal.py:37-40 | list mode: every item is stripped and free of delimiters; at least one item once a delimiter occurs |
| TagExtractor.KmlParm | tilers_tools/kml2gdal.py:37-40 | scalar mode fails (IndexError) exactly when neither `<t>` nor `</t>` occurs; otherwise the value is stripped and delimiter-free |
| TagExtractor.FragmentBefore | tilers_tools/kml2gdal.py:38 | the scan stops exactly at the first delimiter after delimiter-free text |
| TagExtractor.SplitTagAfterDelim | tilers_tools/kml2gdal.py:38 | text, a delimiter and more text split into the text, then the split of the rest |
| TagExtractor.KmlParmBetween | tilers_tools/kml2gdal.py:38-40 | scalar mode returns the stripped text between the first delimiter and the next one or the end |
| TagExtractor.InterleaveOdd | tilers_tools/kml2gdal.py:40 | the slice `l[1::2]` of an interleaving picks out the items |
| TagExtractor.SplitTagged | tilers_tools/kml2gdal.py:38 | a document of `<t>…</t>` pairs splits into the outside text and the items, alternating |
| TagExtractor.KmlParmListTagged | tilers_tools/kml2gdal.py:37-40 | for n well-formed non-nested pairs, list mode returns exactly the n stripped items in document order |
| ImageLocator.ImagePattern | tilers_tools/kml2gdal.py:43-45 | the pattern contains neither `/` nor `\` |
| ImageLocator.ImagePatternName | tilers_tools/kml2gdal.py:43-45 | the pattern is the lower-cased name after the last `/` or `\` |
| ImageLocator.ImagePatternPlain | tilers_tools/kml2gdal.py:43-45 | a reference without any separator, such as `img.png`, gives its own name in lower case |
| ImageLocator.ImagePatternWindows | tilers_tools/kml2gdal.py:43-45 | `a\b\Map.PNG` is looked up as `map.png` |
| ImageLocator.ListedDir | tilers_tools/kml2gdal.py:46 | the KML file's directory is listed when it is non-empty, and `.` when it is empty |
| ImageLocator.Matches | tilers_tools/kml2gdal.py:46 | every entry kept lower-cases to the pattern, and no more entries are kept than listed |
| ImageLocator.MatchesMembers | tilers_tools/kml2gdal.py:46 | the matches are exactly the entries that lower-case to the pattern |
| ImageLocator.MatchesFirst | tilers_tools/kml2gdal.py:46-48 | the first match is the first matching entry in listing order |
| ImageLocator.MatchesEmpty | tilers_tools/kml2gdal.py:46-49 | there is no match exactly when no entry lower-cases to the pattern |
| ImageLocator.FindImage | tilers_tools/kml2gdal.py:42-49 | fails with "Image file not found" exactly when no entry matches; otherwise the directory joined with a matching entry |
| ImageLocator.FindImageFirst | tilers_tools/kml2gdal.py:46-48 | the entry used is the first matching one in listing order |
| Results.MapAllSuccess | tilers_tools/kml2gdal.py:79 | a comprehension succeeds exactly when every element does, each result at its input's position |
| Results.MapAllFailure | tilers_tools/kml2gdal.py:79 | a failing comprehension reports the error of its first failing element |
| Footprint.ParseNumber | tilers_tools/kml2gdal.py:82 | `float()` succeeds exactly when the parser accepts the text, else `BadNumber` |
| Footprint.ParsePoint | tilers_tools/kml2gdal.py:79 | a quad point has one number per comma-separated field |
| Footprint.QuadCorners | tilers_tools/kml2gdal.py:79 | a quad has one point per whitespace-separated token |
| Footprint.ParsePointFields | tilers_tools/kml2gdal.py:79 | a point written as comma-separated numbers yields those numbers in order |
| Footprint.QuadCornersInOrder | tilers_tools/kml2gdal.py:79 | a quad yields one point per token, in document order |
| Footprint.QuadCornersFailure | tilers_tools/kml2gdal.py:79 | a quad fails with the error of its first bad token |
| Footprint.BoxCorners | tilers_tools/kml2gdal.py:83 | a box has four corners of two numbers each |
| Footprint.ReadBounds | tilers_tools/kml2gdal.py:87 | the bounds are read when corners 0 and 2 have two numbers and corner 1 one; IndexError otherwise |
| Footprint.BoxBoundsRoundTrip | tilers_tools/kml2gdal.py:83-87 | reading the bounds of a box's corners gives back the box |
| Footprint.RotateBounds | tilers_tools/kml2gdal.py:89-104 | four corners forming a parallelogram with edges (dx·c, dx·s) and (−dy·s, dy·c), both diagonals through the box's centre |
| Footprint.RotateNone | tilers_tools/kml2gdal.py:83-104 | with sine 0 and cosine 1 the result is the box's corners (west,south), (east,south), (east,north), (west,north) |
| Footprint.RotateRectangle | tilers_tools/kml2gdal.py:89-104 | adjacent edges are perpendicular; for s²+c²=1 the edges have the box's width and height |
| Footprint.RotateQuarter | tilers_tools/kml2gdal.py:89-104 | a quarter turn of the box (0,0)–(10,10) gives (10,0), (10,10), (0,10), (0,0) |
| Georef.GcpId | tilers_tools/kml2gdal.py:110 | `str(i+1)` is the single decimal digit of i+1 |
| Georef.GcpIds | tilers_tools/kml2gdal.py:110 | the ids are "1", "2", "3", "4" |
| Georef.ZipGcpsPositions | tilers_tools/kml2gdal.py:111 | the zip pairs id k, pixel corner k and ground point k up to the shortest list; IndexError on a ground point of fewer than two numbers |
| Georef.BuildGcps | tilers_tools/kml2gdal.py:109-111 | min(4, n) GCPs; entry k has ground x/y from point k, z 0, pixel corner k of (0,h), (w,h), (w,0), (0,0), empty info and id k+1 |
| Georef.BoxGcps | tilers_tools/kml2gdal.py:109-111 | for a box, the bottom-left pixel goes to south-west, bottom-right to south-east, top-right to north-east and top-left to north-west |
| Georef.DestinationName | tilers_tools/kml2gdal.py:57-62 | the name ends in `.vrt` after the overlay name; in long-name mode it starts with the image base and ` - ` |
| Overlay.BoxSide | tilers_tools/kml2gdal.py:82 | a box side is the number in its tag; a missing tag fails with `MissingTag` (IndexError), text that is not a number with `BadNumber` of that text (ValueError) |
| Overlay.SourceCorners | tilers_tools/kml2gdal.py:78-83 | neither quad nor box fails the assertion; a quad gives the points of its `<coordinates>` (or `MissingTag`); a box succeeds exactly when its four sides do, gives the corners of those four numbers, and otherwise fails with the error of the first side that fails |
| Overlay.Project | tilers_tools/kml2gdal.py:85 | the projection keeps the number and order of the corners, mapping each one |
| Overlay.Rotated | tilers_tools/kml2gdal.py:86-104 | short corners fail with IndexError before the angle is read; the angle's tag lookup never fails; an angle that is not a number fails with `BadNumber`; it succeeds exactly when the bounds and the angle are read, and then gives the read bounds turned by the sine and cosine of the angle |
| Overlay.GroundCorners | tilers_tools/kml2gdal.py:78-104 | a failing footprint is the result; without a `<rotation>` the ground corners are the projected source corners, with one they are those corners read back as a box and turned |
| Overlay.NameAndImage | tilers_tools/kml2gdal.py:53-56 | the name, then the `<href>`, then the image are looked up, and the first that fails gives the error: `MissingTag("name")`, `MissingTag("href")` or `ImageNotFound` of the reference; the image is what `find_image` finds for the `<href>` |
| Overlay.ControlPoints | tilers_tools/kml2gdal.py:78-111 | a corner failure is the overlay's failure; otherwise the GCPs pair the image's corners, in the raster's size, with the ground corners |
| Overlay.OverlayToVrt | tilers_tools/kml2gdal.py:51-121 | succeeds exactly when the name, the image and the GCPs do, and otherwise fails with the error of the first of these that fails; a success uses the found image, the destination name from the image base and the name, the Mercator projection, the GCPs pairing the image's corners with the ground corners, and the name as description when non-empty |
| Overlay.BoxGroundCorners | tilers_tools/kml2gdal.py:82-85 | an unrotated box under a point-keeping projection has the box's own corners |
| Overlay.BoxOverlayPlan | tilers_tools/kml2gdal.py:51-121 | under a point-keeping projection, an unrotated box overlay gives four GCPs tying the pixel corners to SW, SE, NE, NW in that order |
| Overlay.RotatedBoxGroundCorners | tilers_tools/kml2gdal.py:80-104 | a rotated box's ground corners are the extent read from its projected corners, turned by the sine and cosine of its angle |
| Overlay.RotatedBoxGcps | tilers_tools/kml2gdal.py:80-111 | a rotated box overlay gives four GCPs tying the pixel corners BL, BR, TR, TL to the four corners of the turned box, in order |
| Overlay.QuadGroundCorners | tilers_tools/kml2gdal.py:78-85 | an unrotated quad's ground corner k is the projection of the point its token k parses to |
| Overlay.QuadGcps | tilers_tools/kml2gdal.py:78-111 | an unrotated quad overlay gives min(4, n) GCPs, image corner k on the projection of point k |
| Overlay.ProjectedPlan | tilers_tools/kml2gdal.py:85-111 | when the ground corners are the projected points, GCP k ties image corner k to projected point k, for the first four points |
| Footprint.QuadCornersOf | tilers_tools/kml2gdal.py:79 | a quad whose tokens parse to given points yields exactly those points |
| Overlay.OverlayBlocks | tilers_tools/kml2gdal.py:128-130 | a document without `<GroundOverlay>` is rejected; otherwise at least one block, none containing `<GroundOverlay>` |
| Overlay.ConvertOverlays | tilers_tools/kml2gdal.py:131-132 | the written plans are the conversions of the first blocks in order; the loop stops at and reports the first failure |
| Overlay.ConvertDocument | tilers_tools/kml2gdal.py:125-132 | an invalid document writes nothing; otherwise the blocks are converted in order up to the first failure, and a document that succeeds writes at least one plan |

## Left out

- GDAL itself is not modelled: opening the image, `CreateCopy`, `SetProjection`, `SetGCPs`, `SetGeoTransform`, `SetMetadataItem` and releasing the handles. `VrtPlan` records what would be written.
- Removing an existing destination file is not modelled. Nor is the fact that the copy exists before the corners are computed, which leaves a partly written file when a later step fails.
- `shape2cutline` is not part of this model, so there is no `CUTLINE` metadata item.
- The projection is an `Env` parameter, applied point by point, that keeps the number and order of the points. `MyTransformer` and `proj_cs2geog_cs` are not part of this model.
- Floating point is modelled over `real`:
  - `float()` is a parameter that either yields a number or fails;
  - `math.radians`, `sin` and `cos` are one parameter, taking degrees and returning the sine and cosine;
  - IEEE rounding is not modelled.
- These `os` services are parameters: `os.listdir`, `os.path.join` and `os.path.splitext`. `os.path.split` and reading the file are not modelled: the document text and its directory are inputs of `ConvertDocument`.
- Command-line parsing, the `--dest-dir` option (which the converter never uses), the debug logging and the loop over the command-line files are not modelled. `--long-name` is the `Env` field `longName`.
- TagExtractor.KmlParm: the regular expression `</?name>` is modelled as a scan for the two literal strings. This is faithful for the tag names the converter uses: letters, `:` and no regular-expression syntax. Other names are outside the model.
- `lower` and the whitespace set of `strip` and `split()` are ASCII only. This is how Python 2 byte strings behave in the C locale.
