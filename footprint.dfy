/**
  The ground footprint of an overlay: the corners read from a
  `<gx:LatLonQuad>` or a `<LatLonBox>`, and the parallelogram a
  `<rotation>` turns the projected box into.
 */
module Footprint {
  import opened PyText
  import opened Results

  /** A point as the converter holds it: a list of numbers, x (longitude or easting) first, then y */
  type Coord = seq<real>

  /** Python's `float` on a text: the number it denotes, or a ValueError; the parser itself is a parameter */
  function ParseNumber(parseFloat: string -> Option<real>, text: string): (r: Result<real>)
    ensures r.Success? <==> parseFloat(text).Some?
    ensures r.Success? ==> r.value == parseFloat(text).value
    ensures r.Failure? ==> r.error == BadNumber(text)
  {
    match parseFloat(text)
    case Some(v) => Success(v)
    case None => Failure(BadNumber(text))
  }

  /** One point of a quad: its comma-separated fields, each parsed as a number */
  function ParsePoint(parseFloat: string -> Option<real>, tok: string): (r: Result<Coord>)
    ensures r.Success? ==> |r.value| == |SplitOn(tok, ',')|
  {
    MapAll(SplitOn(tok, ','), text => ParseNumber(parseFloat, text))
  }

  /** The points of a quad: one per whitespace-separated token of its coordinates */
  function QuadCorners(parseFloat: string -> Option<real>, coords: string): (r: Result<seq<Coord>>)
    ensures r.Success? ==> |r.value| == |Words(coords)|
  {
    MapAll(Words(coords), tok => ParsePoint(parseFloat, tok))
  }

  /** A point written as comma-separated numbers yields those numbers, in order */
  lemma ParsePointFields(parseFloat: string -> Option<real>, fields: seq<string>)
    requires |fields| >= 1 && forall k :: 0 <= k < |fields| ==> ',' !in fields[k]
    ensures var r := ParsePoint(parseFloat, JoinWith(fields, ','));
      && (r.Success? <==> forall k :: 0 <= k < |fields| ==> parseFloat(fields[k]).Some?)
      && (r.Success? ==> |r.value| == |fields| && forall k :: 0 <= k < |fields| ==> r.value[k] == parseFloat(fields[k]).value)
  {
    SplitJoin(fields, ',');
    MapAllSuccess(fields, text => ParseNumber(parseFloat, text));
  }

  /** A quad written as whitespace-separated tokens yields one point per token, in document order */
  lemma QuadCornersInOrder(parseFloat: string -> Option<real>, lead: string, tokens: seq<string>, seps: seq<string>)
    requires WellSpaced(lead, tokens, seps)
    ensures var r := QuadCorners(parseFloat, Spaced(lead, tokens, seps));
      && (r.Success? <==> forall k :: 0 <= k < |tokens| ==> ParsePoint(parseFloat, tokens[k]).Success?)
      && (r.Success? ==> |r.value| == |tokens| && forall k :: 0 <= k < |tokens| ==> ParsePoint(parseFloat, tokens[k]) == Success(r.value[k]))
  {
    WordsOfSpaced(lead, tokens, seps);
    MapAllSuccess(tokens, tok => ParsePoint(parseFloat, tok));
  }

  /** A quad whose tokens parse to `points` yields exactly `points` */
  lemma QuadCornersOf(parseFloat: string -> Option<real>, lead: string, tokens: seq<string>, seps: seq<string>, points: seq<Coord>)
    requires WellSpaced(lead, tokens, seps)
    requires |points| == |tokens| && forall k :: 0 <= k < |tokens| ==> ParsePoint(parseFloat, tokens[k]) == Success(points[k])
    ensures QuadCorners(parseFloat, Spaced(lead, tokens, seps)) == Success(points)
  {
    QuadCornersInOrder(parseFloat, lead, tokens, seps);
    var r := QuadCorners(parseFloat, Spaced(lead, tokens, seps));
    assert r.Success?;
    assert r.value == points;
  }

  /** A quad fails on the first token that does not parse, with that token's error */
  lemma QuadCornersFailure(parseFloat: string -> Option<real>, coords: string)
    requires QuadCorners(parseFloat, coords).Failure?
    ensures exists k :: (0 <= k < |Words(coords)|
                         && ParsePoint(parseFloat, Words(coords)[k]) == Failure(QuadCorners(parseFloat, coords).error)
                         && forall j :: 0 <= j < k ==> ParsePoint(parseFloat, Words(coords)[j]).Success?)
  {
    MapAllFailure(Words(coords), tok => ParsePoint(parseFloat, tok));
  }

  /** The corners of a box, counter-clockwise from the south-west one */
  function BoxCorners(north: real, south: real, east: real, west: real): (r: seq<Coord>)
    ensures |r| == 4 && forall k :: 0 <= k < 4 ==> |r[k]| == 2
  {
    [[west, south], [east, south], [east, north], [west, north]]
  }

  /** The extent of a box */
  datatype Bounds = Bounds(north: real, south: real, east: real, west: real)

  /** The extent read back from projected corners in `overlay2vrt`: north and east from corners 2 and 1, south and west from corner 0; IndexError on a short list */
  function ReadBounds(refs: seq<Coord>): (r: Result<Bounds>)
    ensures r.Success? <==> |refs| >= 3 && |refs[0]| >= 2 && |refs[1]| >= 1 && |refs[2]| >= 2
    ensures r.Failure? ==> r.error == ShortCoordinates
  {
    if |refs| >= 3 && |refs[0]| >= 2 && |refs[1]| >= 1 && |refs[2]| >= 2 then
      Success(Bounds(refs[2][1], refs[0][1], refs[1][0], refs[0][0]))
    else
      Failure(ShortCoordinates)
  }

  /** Reading the bounds of a box's corners gives back the box */
  lemma BoxBoundsRoundTrip(b: Bounds)
    ensures ReadBounds(BoxCorners(b.north, b.south, b.east, b.west)) == Success(b)
  {
  }

  /**
    The rotation in `overlay2vrt`: the box of extent `b` turned by the angle whose sine is `s`
    and cosine is `c`, as four corners starting from the south-west one.
   */
  function RotateBounds(b: Bounds, s: real, c: real): (r: seq<Coord>)
    ensures |r| == 4 && forall k :: 0 <= k < 4 ==> |r[k]| == 2
    // a parallelogram: the south and north edges are both the turned east-west extent ...
    ensures var dx := b.east - b.west;
      && r[1][0] - r[0][0] == r[2][0] - r[3][0] == dx * c
      && r[1][1] - r[0][1] == r[2][1] - r[3][1] == dx * s
    // ... the west and east edges are both the turned south-north extent ...
    ensures var dy := b.north - b.south;
      && r[3][0] - r[0][0] == r[2][0] - r[1][0] == -dy * s
      && r[3][1] - r[0][1] == r[2][1] - r[1][1] == dy * c
    // ... and both diagonals have the box's centre as their midpoint
    ensures r[0][0] + r[2][0] == r[1][0] + r[3][0] == b.west + b.east
    ensures r[0][1] + r[2][1] == r[1][1] + r[3][1] == b.south + b.north
  {
    var dx := b.east - b.west;
    var dy := b.north - b.south;
    var xc := (b.west + b.east) / 2.0;
    var yc := (b.south + b.north) / 2.0;
    var x1 := dy * s;
    var x2 := dx * c;
    var y1 := dy * c;
    var y2 := dx * s;
    var x0 := xc - (x1 + x2) / 2.0;
    var y0 := yc - (y1 + y2) / 2.0;
    [[x0 + x1, y0], [x0 + x1 + x2, y0 + y2], [x0 + x2, y0 + y1 + y2], [x0, y0 + y1]]
  }

  /** No rotation (sine 0, cosine 1) gives back the box's own corners */
  lemma RotateNone(b: Bounds)
    ensures RotateBounds(b, 0.0, 1.0) == BoxCorners(b.north, b.south, b.east, b.west)
  {
  }

  /**
    The parallelogram is a rectangle: adjacent edges are perpendicular, and
    for a true angle (s² + c² = 1) the edges keep the box's width and height.
   */
  lemma RotateRectangle(b: Bounds, s: real, c: real)
    ensures var r := RotateBounds(b, s, c);
      (r[1][0] - r[0][0]) * (r[3][0] - r[0][0]) + (r[1][1] - r[0][1]) * (r[3][1] - r[0][1]) == 0.0
    ensures s * s + c * c == 1.0 ==> var r := RotateBounds(b, s, c);
      && (r[1][0] - r[0][0]) * (r[1][0] - r[0][0]) + (r[1][1] - r[0][1]) * (r[1][1] - r[0][1]) == (b.east - b.west) * (b.east - b.west)
      && (r[3][0] - r[0][0]) * (r[3][0] - r[0][0]) + (r[3][1] - r[0][1]) * (r[3][1] - r[0][1]) == (b.north - b.south) * (b.north - b.south)
  {
    var r := RotateBounds(b, s, c);
    var dx, dy := b.east - b.west, b.north - b.south;
    var ex, ey, nx, ny := r[1][0] - r[0][0], r[1][1] - r[0][1], r[3][0] - r[0][0], r[3][1] - r[0][1];
    assert ex == dx * c && ey == dx * s && nx == -dy * s && ny == dy * c;
    Perpendicular(dx, dy, s, c);
    if s * s + c * c == 1.0 {
      TurnedLength(dx, s, c);
      TurnedLength(dy, s, c);
      assert nx * nx == (dy * s) * (dy * s);
    }
  }

  /** The turned east-west and south-north directions are perpendicular */
  lemma Perpendicular(dx: real, dy: real, s: real, c: real)
    ensures (dx * c) * (-dy * s) + (dx * s) * (dy * c) == 0.0
  {
  }

  /** Turning by a true angle keeps a length */
  lemma TurnedLength(d: real, s: real, c: real)
    requires s * s + c * c == 1.0
    ensures (d * c) * (d * c) + (d * s) * (d * s) == d * d
  {
    assert (d * c) * (d * c) + (d * s) * (d * s) == d * d * (s * s + c * c);
  }

  /** A quarter turn of the box from (0, 0) to (10, 10) starts from its south-east corner */
  lemma RotateQuarter()
    ensures RotateBounds(Bounds(10.0, 0.0, 10.0, 0.0), 1.0, 0.0) == [[10.0, 0.0], [10.0, 10.0], [0.0, 10.0], [0.0, 0.0]]
  {
  }
}
