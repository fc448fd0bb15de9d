/**
  `overlay2vrt` and `kml2vrt`: each `<GroundOverlay>` of a KML document
  becomes a plan for one georeferenced `.vrt` file. What the converter asks
  of the outside world (directory listing, path handling, number parsing,
  the map projection, trigonometry, the raster's size) comes in through `Env`.
 */
module Overlay {
  import opened PyText
  import opened Results
  import opened TagExtractor
  import opened ImageLocator
  import opened Footprint
  import opened Georef

  /** The outside world as the converter sees it */
  datatype Env = Env(
    listDir: string -> seq<string>,        // os.listdir
    joinPath: (string, string) -> string,  // os.path.join
    stripExt: string -> string,            // os.path.splitext: the path without its extension
    longName: bool,                        // the --long-name option
    parseFloat: string -> Option<real>,    // Python's float, None for a ValueError
    project: Coord -> Coord,               // the geographic-to-Mercator transformer, one point at a time
    sinCos: real -> (real, real),          // sine and cosine of an angle given in degrees
    rasterSize: string -> (int, int))      // width and height of the image at a path

  /** What `overlay2vrt` writes: the source image, the output file, its projection, its control points and its description */
  datatype VrtPlan = VrtPlan(image: string, dstFile: string, srs: string, gcps: seq<Gcp>, description: Option<string>)

  /** One side of a `<LatLonBox>`: the number written in the tag */
  function BoxSide(ol: string, tag: string, env: Env): (r: Result<real>)
    ensures r.Success? <==> KmlParm(ol, tag).Success? && env.parseFloat(KmlParm(ol, tag).value).Some?
    ensures r.Success? ==> r.value == env.parseFloat(KmlParm(ol, tag).value).value
    // a missing tag is an IndexError, text that is not a number a ValueError
    ensures r.Failure? ==>
      r.error == if KmlParm(ol, tag).Failure? then MissingTag(tag) else BadNumber(KmlParm(ol, tag).value)
  {
    var text :- KmlParm(ol, tag);
    ParseNumber(env.parseFloat, text)
  }

  /**
    The geographic corners in `overlay2vrt`: the points of a `<gx:LatLonQuad>`
    when the overlay has one, otherwise the corners of its `<LatLonBox>`
    (whose sides are read north, south, east, west); an overlay with neither
    fails its assertion.
   */
  function SourceCorners(ol: string, env: Env): (r: Result<seq<Coord>>)
    ensures !Occurs(ol, OpenTag("gx:LatLonQuad")) && !Occurs(ol, OpenTag("LatLonBox")) ==> r == Failure(MissingFootprint)
    // a quad: the points of its `<coordinates>`, or the error of reading them
    ensures Occurs(ol, OpenTag("gx:LatLonQuad")) ==>
      if KmlParm(ol, "coordinates").Failure? then r == Failure(MissingTag("coordinates"))
      else r == QuadCorners(env.parseFloat, KmlParm(ol, "coordinates").value)
    // a box: its corners once all four sides are read, otherwise the error of the first side that fails
    ensures !Occurs(ol, OpenTag("gx:LatLonQuad")) && Occurs(ol, OpenTag("LatLonBox")) ==>
      && (r.Success? <==> BoxSide(ol, "north", env).Success? && BoxSide(ol, "south", env).Success?
                          && BoxSide(ol, "east", env).Success? && BoxSide(ol, "west", env).Success?)
      && (r.Success? ==> r.value == BoxCorners(BoxSide(ol, "north", env).value, BoxSide(ol, "south", env).value,
                                               BoxSide(ol, "east", env).value, BoxSide(ol, "west", env).value))
      && (r.Failure? ==>
            r.error == if BoxSide(ol, "north", env).Failure? then BoxSide(ol, "north", env).error
                       else if BoxSide(ol, "south", env).Failure? then BoxSide(ol, "south", env).error
                       else if BoxSide(ol, "east", env).Failure? then BoxSide(ol, "east", env).error
                       else BoxSide(ol, "west", env).error)
  {
    if Occurs(ol, OpenTag("gx:LatLonQuad")) then
      var coords :- KmlParm(ol, "coordinates");
      QuadCorners(env.parseFloat, coords)
    else if !Occurs(ol, OpenTag("LatLonBox")) then
      Failure(MissingFootprint)
    else
      var north :- BoxSide(ol, "north", env);
      var south :- BoxSide(ol, "south", env);
      var east :- BoxSide(ol, "east", env);
      var west :- BoxSide(ol, "west", env);
      Success(BoxCorners(north, south, east, west))
  }

  /** The geographic corners taken through the Mercator transformer, keeping their number and order */
  function Project(refs: seq<Coord>, env: Env): (r: seq<Coord>)
    ensures |r| == |refs| && forall k :: 0 <= k < |refs| ==> r[k] == env.project(refs[k])
  {
    seq(|refs|, k requires 0 <= k < |refs| => env.project(refs[k]))
  }

  /**
    The rotation step of `overlay2vrt`: the projected box read back from its
    corners, then turned by the `<rotation>` angle (read after the corners).
   */
  function Rotated(ol: string, refs: seq<Coord>, env: Env): (r: Result<seq<Coord>>)
    ensures ReadBounds(refs).Failure? ==> r == Failure(ShortCoordinates)
    // the angle's tag lookup cannot fail where the converter takes this branch
    ensures Occurs(ol, OpenTag("rotation")) && r.Failure? ==> r.error != MissingTag("rotation")
    ensures r.Success? <==> ReadBounds(refs).Success? && KmlParm(ol, "rotation").Success?
                            && env.parseFloat(KmlParm(ol, "rotation").value).Some?
    // the box's extent turned by the sine and cosine of the angle
    ensures r.Success? ==> var sc := env.sinCos(env.parseFloat(KmlParm(ol, "rotation").value).value);
      r.value == RotateBounds(ReadBounds(refs).value, sc.0, sc.1)
    // once the corners and the tag are read, the only failure is an angle that is not a number
    ensures r.Failure? && ReadBounds(refs).Success? && KmlParm(ol, "rotation").Success? ==>
      r.error == BadNumber(KmlParm(ol, "rotation").value)
  {
    var b :- ReadBounds(refs);
    var text :- KmlParm(ol, "rotation");
    var degrees :- ParseNumber(env.parseFloat, text);
    var (s, c) := env.sinCos(degrees);
    Success(RotateBounds(b, s, c))
  }

  /** The ground corners in the output projection, turned when the overlay has a `<rotation>` */
  function GroundCorners(ol: string, env: Env): (r: Result<seq<Coord>>)
    ensures SourceCorners(ol, env).Failure? ==> r == Failure(SourceCorners(ol, env).error)
    // without a rotation: the geographic corners, projected
    ensures SourceCorners(ol, env).Success? && !Occurs(ol, OpenTag("rotation")) ==>
      r == Success(Project(SourceCorners(ol, env).value, env))
    // with one: the box read back from the projected corners, turned
    ensures SourceCorners(ol, env).Success? && Occurs(ol, OpenTag("rotation")) ==>
      r == Rotated(ol, Project(SourceCorners(ol, env).value, env), env)
    ensures r.Success? && Occurs(ol, OpenTag("rotation")) ==> |r.value| == 4
  {
    var src :- SourceCorners(ol, env);
    var dst := Project(src, env);
    if Occurs(ol, OpenTag("rotation")) then Rotated(ol, dst, env) else Success(dst)
  }

  /** The overlay's name and the path of the image its `<href>` names, read in that order */
  function NameAndImage(ol: string, mapDir: string, env: Env): (r: Result<(string, string)>)
    ensures KmlParm(ol, "name").Failure? ==> r == Failure(MissingTag("name"))
    ensures r.Success? ==> KmlParm(ol, "name") == Success(r.value.0) && KmlParm(ol, "href").Success?
    ensures r.Success? ==> FindImage(KmlParm(ol, "href").value, mapDir, env.listDir, env.joinPath) == Success(r.value.1)
    // the first step that fails gives the error: the name, the reference, then the search for the image
    ensures r.Failure? ==>
      r.error == if KmlParm(ol, "name").Failure? then MissingTag("name")
                 else if KmlParm(ol, "href").Failure? then MissingTag("href")
                 else ImageNotFound(KmlParm(ol, "href").value)
  {
    var name :- KmlParm(ol, "name");
    var href :- KmlParm(ol, "href");
    var imgPath :- FindImage(href, mapDir, env.listDir, env.joinPath);
    Success((name, imgPath))
  }

  /** The control points tying the image's corners to the ground corners */
  function ControlPoints(ol: string, imgPath: string, env: Env): (r: Result<seq<Gcp>>)
    ensures r.Success? ==> |r.value| <= 4
    ensures GroundCorners(ol, env).Failure? ==> r == Failure(GroundCorners(ol, env).error)
    // image corner k goes with ground corner k, in the raster's own size
    ensures GroundCorners(ol, env).Success? ==>
      r == BuildGcps(GroundCorners(ol, env).value, env.rasterSize(imgPath).0, env.rasterSize(imgPath).1)
  {
    var dst :- GroundCorners(ol, env);
    var (w, h) := env.rasterSize(imgPath);
    BuildGcps(dst, w, h)
  }

  /**
    `overlay2vrt(ol, mapDir)`: the name and image reference, the image found in
    the directory, the destination name, the ground corners and the control
    points, each step stopping the overlay with its error.
   */
  function OverlayToVrt(ol: string, mapDir: string, env: Env): (r: Result<VrtPlan>)
    ensures KmlParm(ol, "name").Failure? ==> r == Failure(MissingTag("name"))
    ensures r.Success? ==> KmlParm(ol, "name").Success? && KmlParm(ol, "href").Success?
    ensures r.Success? ==> FindImage(KmlParm(ol, "href").value, mapDir, env.listDir, env.joinPath) == Success(r.value.image)
    ensures r.Success? ==> var name := KmlParm(ol, "name").value;
      && r.value.dstFile == DestinationName(env.stripExt(r.value.image), name, env.longName)
      && r.value.description == (if name == [] then None else Some(name))
    ensures r.Success? ==> r.value.srs == MercatorSrs && |r.value.gcps| <= 4
    // the control points pair the image's corners with the overlay's ground corners
    ensures r.Success? ==>
      && GroundCorners(ol, env).Success?
      && Success(r.value.gcps) == BuildGcps(GroundCorners(ol, env).value, env.rasterSize(r.value.image).0, env.rasterSize(r.value.image).1)
    ensures r.Success? <==> NameAndImage(ol, mapDir, env).Success? && ControlPoints(ol, NameAndImage(ol, mapDir, env).value.1, env).Success?
    // a failure is that of the image lookup, or else that of the control points
    ensures r.Failure? ==>
      r.error == if NameAndImage(ol, mapDir, env).Failure? then NameAndImage(ol, mapDir, env).error
                 else ControlPoints(ol, NameAndImage(ol, mapDir, env).value.1, env).error
  {
    var found :- NameAndImage(ol, mapDir, env);
    var (name, imgPath) := found;
    var dstFile := DestinationName(env.stripExt(imgPath), name, env.longName);
    var gcps :- ControlPoints(ol, imgPath, env);
    Success(VrtPlan(imgPath, dstFile, MercatorSrs, gcps, if name == [] then None else Some(name)))
  }

  /** An unrotated `<LatLonBox>` under a projection that keeps points as they are: the box's own corners */
  lemma BoxGroundCorners(ol: string, env: Env, north: real, south: real, east: real, west: real)
    requires !Occurs(ol, OpenTag("gx:LatLonQuad")) && Occurs(ol, OpenTag("LatLonBox")) && !Occurs(ol, OpenTag("rotation"))
    requires BoxSide(ol, "north", env) == Success(north) && BoxSide(ol, "south", env) == Success(south)
    requires BoxSide(ol, "east", env) == Success(east) && BoxSide(ol, "west", env) == Success(west)
    requires forall p :: env.project(p) == p
    ensures GroundCorners(ol, env) == Success(BoxCorners(north, south, east, west))
  {
    var corners := BoxCorners(north, south, east, west);
    assert SourceCorners(ol, env) == Success(corners);
    assert Project(corners, env) == corners;
  }

  /**
    An unrotated `<LatLonBox>` overlay under a projection that keeps points as
    they are: four control points, the image's bottom-left pixel on the
    south-west corner and its top-right pixel on the north-east one.
   */
  lemma BoxOverlayPlan(ol: string, mapDir: string, env: Env, name: string, img: string,
                       north: real, south: real, east: real, west: real)
    requires NameAndImage(ol, mapDir, env) == Success((name, img))
    requires !Occurs(ol, OpenTag("gx:LatLonQuad")) && Occurs(ol, OpenTag("LatLonBox")) && !Occurs(ol, OpenTag("rotation"))
    requires BoxSide(ol, "north", env) == Success(north) && BoxSide(ol, "south", env) == Success(south)
    requires BoxSide(ol, "east", env) == Success(east) && BoxSide(ol, "west", env) == Success(west)
    requires forall p :: env.project(p) == p
    ensures var (w, h) := env.rasterSize(img);
      OverlayToVrt(ol, mapDir, env) == Success(VrtPlan(
        img, DestinationName(env.stripExt(img), name, env.longName), MercatorSrs,
        [Gcp(west, south, 0.0, 0, h, "", "1"), Gcp(east, south, 0.0, w, h, "", "2"),
         Gcp(east, north, 0.0, w, 0, "", "3"), Gcp(west, north, 0.0, 0, 0, "", "4")],
        if name == [] then None else Some(name)))
  {
    BoxGroundCorners(ol, env, north, south, east, west);
    var (w, h) := env.rasterSize(img);
    BoxGcps(north, south, east, west, w, h);
  }

  /**
    A rotated `<LatLonBox>`: the extent read back from the box's projected
    corners, turned by the sine and cosine of the `<rotation>` angle.
   */
  lemma RotatedBoxGroundCorners(ol: string, env: Env, north: real, south: real, east: real, west: real, degrees: real)
    requires !Occurs(ol, OpenTag("gx:LatLonQuad")) && Occurs(ol, OpenTag("LatLonBox")) && Occurs(ol, OpenTag("rotation"))
    requires BoxSide(ol, "north", env) == Success(north) && BoxSide(ol, "south", env) == Success(south)
    requires BoxSide(ol, "east", env) == Success(east) && BoxSide(ol, "west", env) == Success(west)
    requires BoxSide(ol, "rotation", env) == Success(degrees)
    requires forall k :: 0 <= k < 4 ==> |env.project(BoxCorners(north, south, east, west)[k])| == 2
    ensures ReadBounds(Project(BoxCorners(north, south, east, west), env)).Success?
    ensures GroundCorners(ol, env) == Success(RotateBounds(ReadBounds(Project(BoxCorners(north, south, east, west), env)).value,
                                                           env.sinCos(degrees).0, env.sinCos(degrees).1))
  {
    var dst := Project(BoxCorners(north, south, east, west), env);
    assert SourceCorners(ol, env) == Success(BoxCorners(north, south, east, west));
    assert |dst[0]| == 2 && |dst[1]| == 2 && |dst[2]| == 2;
  }

  /**
    A rotated `<LatLonBox>` overlay: four control points, which put the
    image's bottom-left, bottom-right, top-right and top-left pixels on the
    corners of the turned box in that order.
   */
  lemma RotatedBoxGcps(ol: string, mapDir: string, env: Env, north: real, south: real, east: real, west: real, degrees: real)
    requires !Occurs(ol, OpenTag("gx:LatLonQuad")) && Occurs(ol, OpenTag("LatLonBox")) && Occurs(ol, OpenTag("rotation"))
    requires BoxSide(ol, "north", env) == Success(north) && BoxSide(ol, "south", env) == Success(south)
    requires BoxSide(ol, "east", env) == Success(east) && BoxSide(ol, "west", env) == Success(west)
    requires BoxSide(ol, "rotation", env) == Success(degrees)
    requires forall k :: 0 <= k < 4 ==> |env.project(BoxCorners(north, south, east, west)[k])| == 2
    requires OverlayToVrt(ol, mapDir, env).Success?
    ensures ReadBounds(Project(BoxCorners(north, south, east, west), env)).Success?
    ensures var plan := OverlayToVrt(ol, mapDir, env).value;
      var (w, h) := env.rasterSize(plan.image);
      var q := RotateBounds(ReadBounds(Project(BoxCorners(north, south, east, west), env)).value,
                            env.sinCos(degrees).0, env.sinCos(degrees).1);
      plan.gcps == [Gcp(q[0][0], q[0][1], 0.0, 0, h, "", "1"), Gcp(q[1][0], q[1][1], 0.0, w, h, "", "2"),
                    Gcp(q[2][0], q[2][1], 0.0, w, 0, "", "3"), Gcp(q[3][0], q[3][1], 0.0, 0, 0, "", "4")]
  {
    RotatedBoxGroundCorners(ol, env, north, south, east, west, degrees);
    var plan := OverlayToVrt(ol, mapDir, env).value;
    var q := GroundCorners(ol, env).value;
    FourGcps(q, env.rasterSize(plan.image).0, env.rasterSize(plan.image).1, plan.gcps);
  }

  /** Four ground points of two numbers each give the four control points, pixel corner k on ground point k */
  lemma FourGcps(q: seq<Coord>, w: int, h: int, gcps: seq<Gcp>)
    requires |q| == 4 && forall k :: 0 <= k < 4 ==> |q[k]| == 2
    requires BuildGcps(q, w, h) == Success(gcps)
    ensures gcps == [Gcp(q[0][0], q[0][1], 0.0, 0, h, "", "1"), Gcp(q[1][0], q[1][1], 0.0, w, h, "", "2"),
                     Gcp(q[2][0], q[2][1], 0.0, w, 0, "", "3"), Gcp(q[3][0], q[3][1], 0.0, 0, 0, "", "4")]
  {
    assert |gcps| == 4;
    assert gcps == [gcps[0], gcps[1], gcps[2], gcps[3]];
  }

  /**
    A `<gx:LatLonQuad>` without rotation, whose `<coordinates>` are the tokens
    `tokens` laid out with whitespace: ground corner k is the projection of
    the point token k parses to.
   */
  lemma QuadGroundCorners(ol: string, env: Env, lead: string, tokens: seq<string>, seps: seq<string>, points: seq<Coord>)
    requires Occurs(ol, OpenTag("gx:LatLonQuad")) && !Occurs(ol, OpenTag("rotation"))
    requires WellSpaced(lead, tokens, seps) && KmlParm(ol, "coordinates") == Success(Spaced(lead, tokens, seps))
    requires |points| == |tokens| && forall k :: 0 <= k < |tokens| ==> ParsePoint(env.parseFloat, tokens[k]) == Success(points[k])
    ensures GroundCorners(ol, env) == Success(Project(points, env))
  {
    assert SourceCorners(ol, env) == Success(points) by {
      QuadCornersOf(env.parseFloat, lead, tokens, seps, points);
    }
  }

  /**
    A `<gx:LatLonQuad>` overlay without rotation: one control point for each
    of its first four points, image corner k on the projection of point k.
   */
  lemma QuadGcps(ol: string, mapDir: string, env: Env, lead: string, tokens: seq<string>, seps: seq<string>, points: seq<Coord>)
    requires Occurs(ol, OpenTag("gx:LatLonQuad")) && !Occurs(ol, OpenTag("rotation"))
    requires WellSpaced(lead, tokens, seps) && KmlParm(ol, "coordinates") == Success(Spaced(lead, tokens, seps))
    requires |points| == |tokens| && forall k :: 0 <= k < |tokens| ==> ParsePoint(env.parseFloat, tokens[k]) == Success(points[k])
    requires OverlayToVrt(ol, mapDir, env).Success?
    ensures ProjectedGcps(OverlayToVrt(ol, mapDir, env).value, points, env)
  {
    QuadGroundCorners(ol, env, lead, tokens, seps, points);
    ProjectedPlan(ol, mapDir, env, points);
  }

  /** The plan's control points put image corner k on the projection of `points[k]`, for the first four points */
  predicate ProjectedGcps(plan: VrtPlan, points: seq<Coord>, env: Env) {
    var (w, h) := env.rasterSize(plan.image);
    && |plan.gcps| == Min(4, |points|)
    && (forall k :: 0 <= k < |plan.gcps| ==> |env.project(points[k])| >= 2)
    && forall k :: 0 <= k < |plan.gcps| ==>
         plan.gcps[k] == Gcp(env.project(points[k])[0], env.project(points[k])[1], 0.0,
                             PixelCorners(w, h)[k].0, PixelCorners(w, h)[k].1, "", GcpId(k))
  }

  /** An overlay whose ground corners are the projection of `points` pairs the image corners with them */
  lemma ProjectedPlan(ol: string, mapDir: string, env: Env, points: seq<Coord>)
    requires GroundCorners(ol, env) == Success(Project(points, env))
    requires OverlayToVrt(ol, mapDir, env).Success?
    ensures ProjectedGcps(OverlayToVrt(ol, mapDir, env).value, points, env)
  {
    var plan := OverlayToVrt(ol, mapDir, env).value;
    var (w, h) := env.rasterSize(plan.image);
    assert BuildGcps(Project(points, env), w, h) == Success(plan.gcps);
    GcpsOfProjected(points, env, w, h, plan.gcps);
  }

  /** The control points built from projected points put image corner k on projected point k */
  lemma GcpsOfProjected(points: seq<Coord>, env: Env, w: int, h: int, gcps: seq<Gcp>)
    requires BuildGcps(Project(points, env), w, h) == Success(gcps)
    ensures |gcps| == Min(4, |points|)
    ensures forall k :: 0 <= k < |gcps| ==> |env.project(points[k])| >= 2
    ensures forall k :: 0 <= k < |gcps| ==>
      gcps[k] == Gcp(env.project(points[k])[0], env.project(points[k])[1], 0.0,
                     PixelCorners(w, h)[k].0, PixelCorners(w, h)[k].1, "", GcpId(k))
  {
  }

  /**
    The document check and split in `kml2vrt`: the contents of every
    `<GroundOverlay>` of a document; a document without one is rejected.
   */
  function OverlayBlocks(text: string): (r: Result<seq<string>>)
    ensures r.Failure? <==> !Occurs(text, OpenTag("GroundOverlay"))
    ensures r.Failure? ==> r.error == InvalidDocument
    ensures r.Success? ==> |r.value| >= 1
    ensures r.Success? ==> forall k :: 0 <= k < |r.value| ==> !Occurs(r.value[k], OpenTag("GroundOverlay"))
  {
    if !Occurs(text, OpenTag("GroundOverlay")) then Failure(InvalidDocument)
    else Success(KmlParmList(text, "GroundOverlay"))
  }

  /**
    The loop of `kml2vrt`: the overlays converted in order by `convert` (which
    stands for `overlay2vrt`). The first one that fails stops the loop: the plans
    before it are what has been written, and its error is reported.
   */
  method ConvertOverlays(overlays: seq<string>, convert: string -> Result<VrtPlan>) returns (written: seq<VrtPlan>, err: Option<Error>)
    ensures |written| <= |overlays|
    ensures forall k :: 0 <= k < |written| ==> convert(overlays[k]) == Success(written[k])
    ensures err.None? <==> |written| == |overlays|
    ensures err.Some? ==> convert(overlays[|written|]) == Failure(err.value)
  {
    written := [];
    var i := 0;
    while i < |overlays|
      invariant 0 <= i <= |overlays|
      invariant |written| == i
      invariant forall k :: 0 <= k < i ==> convert(overlays[k]) == Success(written[k])
    {
      var plan := convert(overlays[i]);
      if plan.Failure? {
        return written, Some(plan.error);
      }
      written := written + [plan.value];
      i := i + 1;
    }
    return written, None;
  }

  /**
    `kml2vrt`: a document without `<GroundOverlay>` is rejected before anything
    is written; otherwise its overlays are converted in document order.
   */
  method ConvertDocument(text: string, mapDir: string, env: Env) returns (written: seq<VrtPlan>, err: Option<Error>)
    ensures OverlayBlocks(text).Failure? ==> written == [] && err == Some(InvalidDocument)
    ensures OverlayBlocks(text).Success? ==> var blocks := OverlayBlocks(text).value;
      && |written| <= |blocks|
      && (forall k :: 0 <= k < |written| ==> OverlayToVrt(blocks[k], mapDir, env) == Success(written[k]))
      && (err.None? <==> |written| == |blocks|)
      && (err.Some? ==> OverlayToVrt(blocks[|written|], mapDir, env) == Failure(err.value))
    ensures err.None? ==> |written| >= 1
  {
    var blocks := OverlayBlocks(text);
    if blocks.Failure? {
      return [], Some(blocks.error);
    }
    written, err := ConvertOverlays(blocks.value, ol => OverlayToVrt(ol, mapDir, env));
  }
}
