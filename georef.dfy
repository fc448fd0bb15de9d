/**
  The georeference written into the output: one ground control point per
  image corner, and the name of the `.vrt` file it goes to.
 */
module Georef {
  import opened Results
  import opened Footprint

  /** A ground control point as GDAL's `GCP(x, y, z, pixel, line, info, id)` takes it */
  datatype Gcp = Gcp(x: real, y: real, z: real, pixel: int, line: int, info: string, id: string)

  /** The output's spatial reference: spherical Mercator on the WGS84 semi-major axis */
  const MercatorSrs: string :=
    "+proj=merc +a=6378137 +b=6378137 +lat_ts=0.0 +lon_0=0.0 +x_0=0.0 +y_0=0 +k=1.0 +units=m +nadgrids=@null +wktext +no_defs"

  /** The image corners, counter-clockwise from the bottom-left one, in raster coordinates (line 0 at the top) */
  function PixelCorners(w: int, h: int): seq<(int, int)> {
    [(0, h), (w, h), (w, 0), (0, 0)]
  }

  /** The identifier of a control point: its one-based index as a decimal digit */
  function GcpId(i: nat): (r: string)
    requires i < 9
    ensures |r| == 1 && '1' <= r[0] <= '9'
    ensures r[0] as int - '0' as int == i + 1
  {
    [(i + 1 + '0' as int) as char]
  }

  /** The identifiers of the four control points */
  function GcpIds(): (r: seq<string>)
    ensures r == ["1", "2", "3", "4"]
  {
    seq(4, i requires 0 <= i < 4 => GcpId(i))
  }

  /**
    The control points built by zipping identifiers, image corners and ground
    points, each at height 0 with no info text. There are as many as the
    shortest list has entries; a ground point of fewer than two numbers is an
    IndexError.
   */
  function ZipGcps(ids: seq<string>, corners: seq<(int, int)>, refs: seq<Coord>): (r: Result<seq<Gcp>>)
    decreases |ids|
  {
    if ids == [] || corners == [] || refs == [] then Success([])
    else if |refs[0]| < 2 then Failure(ShortCoordinates)
    else
      var rest :- ZipGcps(ids[1..], corners[1..], refs[1..]);
      Success([Gcp(refs[0][0], refs[0][1], 0.0, corners[0].0, corners[0].1, "", ids[0])] + rest)
  }

  /** The smaller of two lengths */
  function Min(a: nat, b: nat): nat {
    if a <= b then a else b
  }

  /** Zipping pairs up the three lists position by position, up to the shortest */
  lemma {:induction false} ZipGcpsPositions(ids: seq<string>, corners: seq<(int, int)>, refs: seq<Coord>)
    ensures var n := Min(Min(|ids|, |corners|), |refs|);
      var r := ZipGcps(ids, corners, refs);
      && (r.Success? <==> forall k :: 0 <= k < n ==> |refs[k]| >= 2)
      && (r.Failure? ==> r.error == ShortCoordinates)
      && (r.Success? ==> |r.value| == n && forall k :: 0 <= k < n ==>
            r.value[k] == Gcp(refs[k][0], refs[k][1], 0.0, corners[k].0, corners[k].1, "", ids[k]))
    decreases |ids|
  {
    if ids != [] && corners != [] && refs != [] {
      ZipGcpsPositions(ids[1..], corners[1..], refs[1..]);
      var n := Min(Min(|ids|, |corners|), |refs|);
      forall k | 0 < k < n
        ensures refs[k] == refs[1..][k - 1] && corners[k] == corners[1..][k - 1] && ids[k] == ids[1..][k - 1]
      {
      }
    }
  }

  /** The control points of `overlay2vrt`, pairing image corner k with ground point k, for the first four ground points */
  function BuildGcps(refs: seq<Coord>, w: int, h: int): (r: Result<seq<Gcp>>)
    ensures r.Success? <==> forall k :: 0 <= k < Min(4, |refs|) ==> |refs[k]| >= 2
    ensures r.Failure? ==> r.error == ShortCoordinates
    ensures r.Success? ==> |r.value| == Min(4, |refs|) && forall k :: 0 <= k < |r.value| ==>
      r.value[k] == Gcp(refs[k][0], refs[k][1], 0.0, PixelCorners(w, h)[k].0, PixelCorners(w, h)[k].1, "", GcpId(k))
  {
    ZipGcpsPositions(GcpIds(), PixelCorners(w, h), refs);
    ZipGcps(GcpIds(), PixelCorners(w, h), refs)
  }

  /**
    For a box, the bottom-left pixel is tied to the south-west corner, the
    bottom-right to the south-east, the top-right to the north-east and the
    top-left to the north-west.
   */
  lemma BoxGcps(north: real, south: real, east: real, west: real, w: int, h: int)
    ensures BuildGcps(BoxCorners(north, south, east, west), w, h) == Success([
      Gcp(west, south, 0.0, 0, h, "", "1"),
      Gcp(east, south, 0.0, w, h, "", "2"),
      Gcp(east, north, 0.0, w, 0, "", "3"),
      Gcp(west, north, 0.0, 0, 0, "", "4")])
  {
    var refs := BoxCorners(north, south, east, west);
    var r := BuildGcps(refs, w, h);
    assert r.Success? by {
      assert forall k :: 0 <= k < 4 ==> |refs[k]| >= 2;
    }
    var v := r.value;
    assert GcpIds() == ["1", "2", "3", "4"];
    assert |v| == 4;
    assert v[0] == Gcp(west, south, 0.0, 0, h, "", "1");
    assert v[1] == Gcp(east, south, 0.0, w, h, "", "2");
    assert v[2] == Gcp(east, north, 0.0, w, 0, "", "3");
    assert v[3] == Gcp(west, north, 0.0, 0, 0, "", "4");
    assert v == [v[0], v[1], v[2], v[3]];
  }

  /**
    The output file name in `overlay2vrt`: `<base> - <name>.vrt` in long-name mode
    and `<name>.vrt` otherwise, where `base` is the image path without its
    extension.
   */
  function DestinationName(base: string, name: string, longName: bool): (r: string)
    ensures |r| >= |name| + 4 && r[|r| - 4..] == ".vrt"
    ensures r[..|r| - 4][|r| - 4 - |name|..] == name
    ensures longName ==> |r| == |base| + 3 + |name| + 4 && r[..|base|] == base && r[|base|..|base| + 3] == " - "
    ensures !longName ==> |r| == |name| + 4
  {
    if longName then base + " - " + name + ".vrt" else name + ".vrt"
  }
}
