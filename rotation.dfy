/** The orientation of the displayed image and the crop rectangle that goes
    with it: the "Rotate L" and "Rotate R" buttons, and the orientation taken
    from the Exif Orientation tag (0x0112) when an image is decoded by the
    platform codecs.

    The orientation counts anticlockwise quarter turns, 0 to 3. The crop
    rectangle runs from corner `a` (inclusive) to corner `b` (exclusive) in
    pixel coordinates of the displayed, already rotated image. */
module Rotation {

  datatype Point = Point(x: int, y: int)

  /** The displayed image and its crop. */
  datatype View = View(w: int, h: int, orientation: int, a: Point, b: Point)

  /** `clamp_circular(x, lo, hi)`: a value that left the range re-enters at
      the other end. */
  function ClampCircular(x: int, lo: int, hi: int): int {
    if x < lo then hi else if x > hi then lo else x
  }

  /** "Rotate L": a quarter turn anticlockwise. The crop corners are computed
      from the old width, then width and height are swapped. */
  function RotateLeft(v: View): View {
    View(v.h, v.w, ClampCircular(v.orientation + 1, 0, 3),
         Point(v.a.y, v.w - v.b.x), Point(v.b.y, v.w - v.a.x))
  }

  /** "Rotate R": a quarter turn clockwise, computed from the old height. */
  function RotateRight(v: View): View {
    View(v.h, v.w, ClampCircular(v.orientation - 1, 0, 3),
         Point(v.h - v.b.y, v.a.x), Point(v.h - v.a.y, v.b.x))
  }

  /** A crop rectangle inside the image with at least one pixel, the state
      the crop clamps of the editor keep. */
  predicate ValidView(v: View) {
    0 <= v.orientation <= 3
    && 0 <= v.a.x < v.b.x <= v.w && 0 <= v.a.y < v.b.y <= v.h
  }

  /** The pixel (x, y) of a w-by-h image after a quarter turn anticlockwise;
      the reference the crop transform of "Rotate L" is checked against. */
  function TurnLeft(p: Point, w: int): Point {
    Point(p.y, w - 1 - p.x)
  }

  // ---------------------------------------------------------------------------
  // Properties.

  /** "Rotate R" undoes "Rotate L" and the other way round. */
  lemma RotateInverse(v: View)
    requires 0 <= v.orientation <= 3
    ensures RotateRight(RotateLeft(v)) == v
    ensures RotateLeft(RotateRight(v)) == v
  {
  }

  /** Four turns to the left give back the view. */
  lemma FourLeftTurns(v: View)
    requires 0 <= v.orientation <= 3
    ensures RotateLeft(RotateLeft(RotateLeft(RotateLeft(v)))) == v
  {
  }

  /** Both buttons keep a valid crop valid and swap the image's sides. */
  lemma RotatePreservesValid(v: View)
    requires ValidView(v)
    ensures ValidView(RotateLeft(v)) && ValidView(RotateRight(v))
    ensures RotateLeft(v).w == v.h && RotateLeft(v).h == v.w
    ensures RotateRight(v).w == v.h && RotateRight(v).h == v.w
  {
  }

  /** The crop keeps covering the same pixels: a pixel lies in the crop before
      "Rotate L" exactly when its turned position lies in the crop after. */
  lemma RotateLeftKeepsPixels(v: View, p: Point)
    ensures var r := RotateLeft(v);
            var q := TurnLeft(p, v.w);
            (v.a.x <= p.x < v.b.x && v.a.y <= p.y < v.b.y)
            <==> (r.a.x <= q.x < r.b.x && r.a.y <= q.y < r.b.y)
  {
  }

  // ---------------------------------------------------------------------------
  // The Exif Orientation tag.

  /** The orientation set from the Exif Orientation tag: 3 (upside down) is two
      quarter turns, 6 one clockwise turn, 8 one anticlockwise turn; every
      other value, the mirrored ones included, leaves the orientation as it
      was. */
  function ExifOrientation(tag: int, current: int): (o: int)
    ensures tag == 3 || tag == 6 || tag == 8 ==> 0 <= o <= 3
    ensures tag != 3 && tag != 6 && tag != 8 ==> o == current
  {
    match tag
    case 3 => 2
    case 6 => 3
    case 8 => 1
    case _ => current
  }

  /** The clockwise quarter turns the Exif standard asks for to display an
      unmirrored image with the given tag value. */
  function ExifClockwiseTurns(tag: int): int
    requires tag == 1 || tag == 3 || tag == 6 || tag == 8
  {
    if tag == 1 then 0 else if tag == 3 then 2 else if tag == 6 then 1 else 3
  }

  /** For the rotated tag values, the orientation set is the turn the
      standard asks for, expressed anticlockwise. */
  lemma ExifMatchesStandard(tag: int, current: int)
    requires tag == 3 || tag == 6 || tag == 8
    ensures (ExifOrientation(tag, current) + ExifClockwiseTurns(tag)) % 4 == 0
  {
  }
}
