/** Viewport arithmetic of the sketch: the pointer conversion done by the
    mouse-move listener and the orthographic frustum bounds that the camera is
    given at start-up and after every resize. All quantities are `real`, an
    idealisation of the JavaScript doubles (no rounding, no infinities),
    except that the one place where the source divides by a height that may
    be zero keeps the NaN it produces. */
module Geometry {

  /** A point in viewport space: origin at the centre, y pointing up. */
  datatype Vec2 = Vec2(x: real, y: real)

  /** Converts a pointer position in window pixels (origin top-left, y down)
      to viewport space, as the mouse-move listener does. */
  function ToViewport(clientX: real, clientY: real, innerWidth: nat, innerHeight: nat): (p: Vec2)
    ensures p.x + innerWidth as real / 2.0 == clientX
    ensures innerHeight as real / 2.0 - p.y == clientY
  {
    Vec2(clientX - innerWidth as real / 2.0, -clientY + innerHeight as real / 2.0)
  }

  /** The inverse conversion, from viewport space back to window pixels. */
  function ToWindow(p: Vec2, innerWidth: nat, innerHeight: nat): (c: Vec2)
  {
    Vec2(p.x + innerWidth as real / 2.0, innerHeight as real / 2.0 - p.y)
  }

  lemma ViewportRoundTrip(clientX: real, clientY: real, innerWidth: nat, innerHeight: nat)
    ensures ToWindow(ToViewport(clientX, clientY, innerWidth, innerHeight), innerWidth, innerHeight)
            == Vec2(clientX, clientY)
  {
  }

  lemma WindowRoundTrip(p: Vec2, innerWidth: nat, innerHeight: nat)
    ensures var c := ToWindow(p, innerWidth, innerHeight);
            ToViewport(c.x, c.y, innerWidth, innerHeight) == p
  {
  }

  /** The window centre is the viewport origin; the top-left corner of the
      window is the top-left corner of the viewport. */
  lemma ViewportCorners(innerWidth: nat, innerHeight: nat)
    ensures ToViewport(innerWidth as real / 2.0, innerHeight as real / 2.0, innerWidth, innerHeight)
            == Vec2(0.0, 0.0)
    ensures ToViewport(0.0, 0.0, innerWidth, innerHeight)
            == Vec2(-(innerWidth as real) / 2.0, innerHeight as real / 2.0)
  {
  }

  /** A double that is either finite or NaN: `height * (width / height)` is
      NaN when the height is zero, since `width / 0` is an infinity (or NaN
      when the width is zero too) and zero times an infinity is NaN. */
  datatype Extent = Finite(value: real) | NaN

  /** The four bounds of an orthographic camera. */
  datatype Bounds = Bounds(left: Extent, right: Extent, top: real, bottom: real)

  /** Half of `frustumSize * aspect` with `aspect = width / height` and
      `frustumSize = height`, divided by `sign` (2 or -2, as the source writes
      the two horizontal bounds). */
  function HalfWidth(width: nat, height: nat, sign: real): Extent
    requires sign != 0.0
  {
    if height == 0 then NaN
    else
      var aspect := width as real / height as real;
      var frustumSize := height as real;
      Finite((frustumSize * aspect) / sign)
  }

  /** The frustum bounds for a canvas of the given pixel size, as written at
      camera creation and again on every resize. */
  function Frustum(width: nat, height: nat): (b: Bounds)
    ensures b.top == height as real / 2.0 && b.bottom == -(height as real) / 2.0
    ensures height > 0 ==> b.left == Finite(-(width as real) / 2.0) && b.right == Finite(width as real / 2.0)
    ensures height == 0 ==> b.left == NaN && b.right == NaN
  {
    var frustumSize := height as real;
    Bounds(HalfWidth(width, height, -2.0), HalfWidth(width, height, 2.0),
           frustumSize / 2.0, frustumSize / -2.0)
  }

  /** For a non-degenerate canvas the bounds are symmetric about the origin
      and span exactly the canvas: `right - left == width`, `top - bottom == height`. */
  lemma FrustumSpansCanvas(width: nat, height: nat)
    requires height > 0
    ensures var b := Frustum(width, height);
            b.left.Finite? && b.right.Finite? &&
            b.left.value == -b.right.value && b.bottom == -b.top &&
            b.right.value - b.left.value == width as real &&
            b.top - b.bottom == height as real
  {
  }

  /** Resizing to 1600 x 900 puts the top at 450 and the bottom at -450, and
      the horizontal bounds at `-aspect * 450` and `aspect * 450`. */
  lemma FrustumAfterResizeExample()
    ensures var aspect := 1600.0 / 900.0;
            Frustum(1600, 900) == Bounds(Finite(-aspect * 450.0), Finite(aspect * 450.0), 450.0, -450.0)
  {
  }

  /** The camera state: the canvas size (`sizes`) and the orthographic bounds
      derived from it. The invariant is that the bounds are never stale. */
  class Viewport {
    var width: nat
    var height: nat
    var bounds: Bounds

    ghost predicate Valid()
      reads this
    {
      bounds == Frustum(width, height)
    }

    /** initCamera: bounds from the content canvas size. */
    constructor (canvasWidth: nat, canvasHeight: nat)
      ensures Valid()
      ensures width == canvasWidth && height == canvasHeight
    {
      width, height := canvasWidth, canvasHeight;
      bounds := Frustum(canvasWidth, canvasHeight);
    }

    /** onResize: the new window size becomes the canvas size and the bounds
        are recomputed from it. */
    method OnResize(innerWidth: nat, innerHeight: nat)
      modifies this
      ensures Valid()
      ensures width == innerWidth && height == innerHeight
    {
      width := innerWidth;
      height := innerHeight;
      bounds := Frustum(width, height);
    }
  }
}
