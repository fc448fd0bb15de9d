/** Outcomes of the converter's steps: a value, or the error that stops the current document. */
module Results {

  /** The ways converting one KML document can fail. */
  datatype Error =
    | InvalidDocument          // the text has no `<GroundOverlay>` at all
    | MissingTag(tag: string)  // a scalar tag lookup found neither `<tag>` nor `</tag>`
    | ImageNotFound(path: string) // no directory entry matches the referenced image
    | MissingFootprint         // neither `<gx:LatLonQuad>` nor `<LatLonBox>` is present
    | ShortCoordinates         // a corner has too few numbers, or there are too few corners
    | BadNumber(text: string)  // `float()` rejects a number's text

  datatype Result<T> = Success(value: T) | Failure(error: Error) {
    predicate IsFailure() {
      Failure?
    }

    function PropagateFailure<U>(): Result<U>
      requires Failure?
    {
      Failure(error)
    }

    function Extract(): T
      requires Success?
    {
      value
    }
  }

  datatype Option<T> = None | Some(value: T)

  /**
    A list comprehension whose element expression can raise: the elements are
    computed left to right and the first failure stops the whole list.
   */
  function MapAll<A, B>(xs: seq<A>, f: A -> Result<B>): (r: Result<seq<B>>)
    ensures r.Success? ==> |r.value| == |xs|
    decreases |xs|
  {
    if xs == [] then Success([])
    else
      var head :- f(xs[0]);
      var tail :- MapAll(xs[1..], f);
      Success([head] + tail)
  }

  /** On success, every element is the image of the input at the same position */
  lemma {:induction false} MapAllSuccess<A, B>(xs: seq<A>, f: A -> Result<B>)
    ensures MapAll(xs, f).Success? <==> forall k :: 0 <= k < |xs| ==> f(xs[k]).Success?
    ensures MapAll(xs, f).Success? ==> forall k :: 0 <= k < |xs| ==> f(xs[k]) == Success(MapAll(xs, f).value[k])
    decreases |xs|
  {
    if xs != [] {
      MapAllSuccess(xs[1..], f);
      if f(xs[0]).Success? && MapAll(xs[1..], f).Success? {
        var r := MapAll(xs, f).value;
        forall k | 0 < k < |xs|
          ensures f(xs[k]) == Success(r[k])
        {
          assert xs[k] == xs[1..][k - 1];
        }
      } else if f(xs[0]).Success? {
        var k :| 0 <= k < |xs[1..]| && f(xs[1..][k]).Failure?;
        assert xs[k + 1] == xs[1..][k];
      }
    }
  }

  /** On failure, the error is that of the first element that fails */
  lemma {:induction false} MapAllFailure<A, B>(xs: seq<A>, f: A -> Result<B>)
    requires MapAll(xs, f).Failure?
    ensures exists k :: (0 <= k < |xs| && f(xs[k]) == Failure(MapAll(xs, f).error)
                         && forall j :: 0 <= j < k ==> f(xs[j]).Success?)
    decreases |xs|
  {
    if f(xs[0]).Success? {
      MapAllFailure(xs[1..], f);
      var k :| 0 <= k < |xs[1..]| && f(xs[1..][k]) == Failure(MapAll(xs[1..], f).error)
        && forall j :: 0 <= j < k ==> f(xs[1..][j]).Success?;
      assert f(xs[k + 1]) == Failure(MapAll(xs, f).error);
      forall j | 0 < j < k + 1
        ensures f(xs[j]).Success?
      {
        assert xs[j] == xs[1..][j - 1];
      }
    } else {
      assert f(xs[0]) == Failure(MapAll(xs, f).error);
    }
  }
}
