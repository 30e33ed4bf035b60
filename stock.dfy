/** A stock: a rectangle with a width, a height and a location on the sheet. */
module Stocks {

  /** A location (x, y), as the source's two-element tuples. */
  type Point = (int, int)

  /** The value of a stock at one moment: its location and its current orientation. */
  datatype Rect = Rect(x: int, y: int, width: int, height: int)

  /** The same rectangle turned by 90 degrees: width and height exchanged, location kept. */
  function Rotated(r: Rect): Rect {
    r.(width := r.height, height := r.width)
  }

  /** Turning a rectangle twice gives it back. */
  lemma RotatedTwice(r: Rect)
    ensures Rotated(Rotated(r)) == r
  {
  }

  /** Two values of the same stock agree on the unordered pair of its sides. */
  predicate SameSides(a: Rect, b: Rect) {
    (a.width == b.width && a.height == b.height) || (a.width == b.height && a.height == b.width)
  }

  class Stock {
    var width: int
    var height: int
    var x: int
    var y: int

    /** The stock's current value. */
    function AsRect(): Rect
      reads this
    {
      Rect(x, y, width, height)
    }

    /** Stores the sides as given; the location defaults to the origin. */
    constructor (width: int, height: int, x: int := 0, y: int := 0)
      ensures this.width == width && this.height == height
      ensures this.x == x && this.y == y
    {
      this.width := width;
      this.height := height;
      this.x := x;
      this.y := y;
    }

    /** Turns the stock by 90 degrees in place; the location is not touched. */
    method Rotate()
      modifies this
      ensures AsRect() == Rotated(old(AsRect()))
    {
      width, height := height, width;
    }

    /** Moves the stock to `point`; its sides are not touched. */
    method SetLoc(point: Point)
      modifies this
      ensures x == point.0 && y == point.1
      ensures width == old(width) && height == old(height)
    {
      x := point.0;
      y := point.1;
    }

    /** Reads the location back; changes nothing. */
    method GetLoc() returns (p: Point)
      ensures p.0 == x && p.1 == y
    {
      p := (x, y);
    }
  }

  /** Rotating a stock twice restores its sides, and its location never moves. */
  method RotateTwice(s: Stock)
    modifies s
    ensures s.AsRect() == old(s.AsRect())
  {
    s.Rotate();
    s.Rotate();
    RotatedTwice(old(s.AsRect()));
  }

  /** Reading the location straight after setting it gives back the point that was set. */
  method SetThenGet(s: Stock, point: Point) returns (p: Point)
    modifies s
    ensures p == point
    ensures s.width == old(s.width) && s.height == old(s.height)
  {
    s.SetLoc(point);
    p := s.GetLoc();
  }
}
