/**
 * The draw-rectangle arithmetic that every tool of the site repeats: scale an
 * iw × ih image by `Math.min` ("contain", fit) or `Math.max` ("cover", fill) of
 * the two axis ratios, then centre it on a tw × th canvas.  Coordinates are real
 * numbers; the IEEE-754 rounding of the browser is not modelled.
 */
module Geometry {

  /** A pixel count of a decoded image: positive. */
  type Pixels = n: int | n > 0 witness 1

  /** The intrinsic size of a decoded image (`img.width`, `img.height`). */
  datatype Dims = Dims(w: Pixels, h: Pixels)

  /** A drawImage destination: top-left corner and size, in canvas units. */
  datatype Rect = Rect(x: real, y: real, w: real, h: real)

  /** `Math.min` on two numbers. */
  function Min(a: real, b: real): (m: real)
    ensures m <= a && m <= b
    ensures m == a || m == b
  {
    if a <= b then a else b
  }

  /** `Math.max` on two numbers. */
  function Max(a: real, b: real): (m: real)
    ensures m >= a && m >= b
    ensures m == a || m == b
  {
    if a >= b then a else b
  }

  /** `Math.min(tw / iw, th / ih)`: the scale at which an iw × ih image fits tw × th. */
  function ContainScale(iw: real, ih: real, tw: real, th: real): (s: real)
    requires iw > 0.0 && ih > 0.0
    ensures iw * s <= tw && ih * s <= th
    ensures iw * s == tw || ih * s == th
  {
    Min(tw / iw, th / ih)
  }

  /** `Math.max(tw / iw, th / ih)`: the scale at which an iw × ih image covers tw × th. */
  function CoverScale(iw: real, ih: real, tw: real, th: real): (s: real)
    requires iw > 0.0 && ih > 0.0
    ensures iw * s >= tw && ih * s >= th
    ensures iw * s == tw || ih * s == th
  {
    Max(tw / iw, th / ih)
  }

  /** The contain scale is the largest scale at which the image still fits. */
  lemma ContainScaleIsLargest(iw: real, ih: real, tw: real, th: real, t: real)
    requires iw > 0.0 && ih > 0.0
    requires iw * t <= tw && ih * t <= th
    ensures t <= ContainScale(iw, ih, tw, th)
  {
    var s := ContainScale(iw, ih, tw, th);
    if iw * s == tw {
      assert iw * t <= iw * s;
    } else {
      assert ih * t <= ih * s;
    }
  }

  /** The cover scale is the smallest scale at which the image still covers the canvas. */
  lemma CoverScaleIsSmallest(iw: real, ih: real, tw: real, th: real, t: real)
    requires iw > 0.0 && ih > 0.0
    requires iw * t >= tw && ih * t >= th
    ensures t >= CoverScale(iw, ih, tw, th)
  {
    var s := CoverScale(iw, ih, tw, th);
    if iw * s == tw {
      assert iw * t >= iw * s;
    } else {
      assert ih * t >= ih * s;
    }
  }

  /**
   * The image scaled by s and drawn at `((tw - iw * s) / 2, (th - ih * s) / 2)`,
   * the centring every tool uses.
   */
  function Centered(iw: real, ih: real, tw: real, th: real, s: real): Rect
  {
    Rect((tw - iw * s) / 2.0, (th - ih * s) / 2.0, iw * s, ih * s)
  }

  /** The rectangle keeps the image's aspect ratio (stated without dividing). */
  predicate KeepsAspect(r: Rect, iw: real, ih: real)
  {
    r.w * ih == r.h * iw
  }

  /** The margins left and right are equal, and so are those above and below. */
  predicate CentredOn(r: Rect, tw: real, th: real)
  {
    r.x == tw - (r.x + r.w) && r.y == th - (r.y + r.h)
  }

  /** The rectangle lies inside the canvas. */
  predicate Inside(r: Rect, tw: real, th: real)
  {
    0.0 <= r.x && r.x + r.w <= tw && 0.0 <= r.y && r.y + r.h <= th
  }

  /** The rectangle covers the whole canvas. */
  predicate Covers(r: Rect, tw: real, th: real)
  {
    r.x <= 0.0 && tw <= r.x + r.w && r.y <= 0.0 && th <= r.y + r.h
  }

  /** The rectangle meets the canvas edge on at least one axis. */
  predicate TightOnOneAxis(r: Rect, tw: real, th: real)
  {
    r.w == tw || r.h == th
  }

  /** Contain geometry: centred, aspect-preserving, inside the canvas, touching one pair of edges. */
  function ContainRect(iw: real, ih: real, tw: real, th: real): (r: Rect)
    requires iw > 0.0 && ih > 0.0 && tw >= 0.0 && th >= 0.0
    ensures Inside(r, tw, th) && TightOnOneAxis(r, tw, th)
    ensures KeepsAspect(r, iw, ih) && CentredOn(r, tw, th)
  {
    var s := ContainScale(iw, ih, tw, th);
    assert iw * s * ih == ih * s * iw;
    Centered(iw, ih, tw, th, s)
  }

  /** Cover geometry: centred, aspect-preserving, covering the canvas, flush on one axis. */
  function CoverRect(iw: real, ih: real, tw: real, th: real): (r: Rect)
    requires iw > 0.0 && ih > 0.0
    ensures Covers(r, tw, th) && TightOnOneAxis(r, tw, th)
    ensures KeepsAspect(r, iw, ih) && CentredOn(r, tw, th)
  {
    var s := CoverScale(iw, ih, tw, th);
    assert iw * s * ih == ih * s * iw;
    Centered(iw, ih, tw, th, s)
  }

  /**
   * The contain rectangle is the largest centred, aspect-preserving rectangle inside the
   * canvas: any other scale that fits gives a rectangle no wider than it.
   */
  lemma ContainRectIsLargest(iw: real, ih: real, tw: real, th: real, t: real)
    requires iw > 0.0 && ih > 0.0 && tw >= 0.0 && th >= 0.0
    requires Inside(Centered(iw, ih, tw, th, t), tw, th)
    ensures iw * t <= ContainRect(iw, ih, tw, th).w
  {
    ContainScaleIsLargest(iw, ih, tw, th, t);
    var s := ContainScale(iw, ih, tw, th);
    assert iw * t <= iw * s;
  }

  /** Scaling the canvas by k > 0 scales both axis ratios, and so the chosen scale, by k. */
  lemma ScalesScale(iw: real, ih: real, tw: real, th: real, k: real)
    requires iw > 0.0 && ih > 0.0 && k > 0.0
    ensures CoverScale(iw, ih, k * tw, k * th) == k * CoverScale(iw, ih, tw, th)
    ensures ContainScale(iw, ih, k * tw, k * th) == k * ContainScale(iw, ih, tw, th)
  {
    var a, b := tw / iw, th / ih;
    assert (k * tw) / iw == k * a;
    assert (k * th) / ih == k * b;
    assert CoverScale(iw, ih, k * tw, k * th) == Max(k * a, k * b);
    assert ContainScale(iw, ih, k * tw, k * th) == Min(k * a, k * b);
    if a < b {
      MulStrictlyMonotone(k, a, b);
    } else if b < a {
      MulStrictlyMonotone(k, b, a);
    }
  }

  /** The two scales of the canvas scaled by k, as values. */
  lemma ScaledScales(iw: real, ih: real, tw: real, th: real, k: real) returns (cover: real, contain: real)
    requires iw > 0.0 && ih > 0.0 && k > 0.0
    ensures cover == CoverScale(iw, ih, tw, th) && k * cover == CoverScale(iw, ih, k * tw, k * th)
    ensures contain == ContainScale(iw, ih, tw, th) && k * contain == ContainScale(iw, ih, k * tw, k * th)
  {
    ScalesScale(iw, ih, tw, th, k);
    cover, contain := CoverScale(iw, ih, tw, th), ContainScale(iw, ih, tw, th);
  }

  lemma MulStrictlyMonotone(k: real, a: real, b: real)
    requires k > 0.0 && a < b
    ensures k * a < k * b
  {
    assert k * b - k * a == k * (b - a);
  }

  /** A rectangle scaled by k about the canvas origin. */
  function Scaled(r: Rect, k: real): Rect
  {
    Rect(k * r.x, k * r.y, k * r.w, k * r.h)
  }

  /**
   * Scaling the canvas by k > 0 scales the cover rectangle by k: a preview canvas with
   * the export canvas's proportions shows the export in miniature.
   */
  lemma CoverScaleInvariant(iw: real, ih: real, tw: real, th: real, k: real)
    requires iw > 0.0 && ih > 0.0 && k > 0.0
    ensures Centered(iw, ih, k * tw, k * th, CoverScale(iw, ih, k * tw, k * th))
              == Scaled(Centered(iw, ih, tw, th, CoverScale(iw, ih, tw, th)), k)
  {
    var s, _ := ScaledScales(iw, ih, tw, th, k);
    CenteredScales(iw, ih, tw, th, s, k, k * s);
  }

  /** The same for the contain rectangle. */
  lemma ContainScaleInvariant(iw: real, ih: real, tw: real, th: real, k: real)
    requires iw > 0.0 && ih > 0.0 && k > 0.0
    ensures Centered(iw, ih, k * tw, k * th, ContainScale(iw, ih, k * tw, k * th))
              == Scaled(Centered(iw, ih, tw, th, ContainScale(iw, ih, tw, th)), k)
  {
    var _, s := ScaledScales(iw, ih, tw, th, k);
    CenteredScales(iw, ih, tw, th, s, k, k * s);
  }

  /** Centring at scale k·s on a canvas scaled by k gives the rectangle at scale s scaled by k. */
  lemma CenteredScales(iw: real, ih: real, tw: real, th: real, s: real, k: real, ks: real)
    requires ks == k * s
    ensures Centered(iw, ih, k * tw, k * th, ks) == Scaled(Centered(iw, ih, tw, th, s), k)
  {
    assert iw * (k * s) == k * (iw * s);
    assert ih * (k * s) == k * (ih * s);
  }

  /** `a / b > c / d` compared without dividing. */
  lemma CrossCompare(a: real, b: real, c: real, d: real)
    requires b > 0.0 && d > 0.0
    ensures a / b > c / d <==> a * d > c * b
  {
    var x, y := a / b, c / d;
    assert a == x * b && c == y * d;
    assert a * d == x * (b * d) && c * b == y * (b * d);
    if x > y {
      MulStrictlyMonotone(b * d, y, x);
    } else {
      MulMonotoneReal(b * d, x, y);
    }
  }

  lemma MulMonotoneReal(k: real, a: real, b: real)
    requires k > 0.0 && a <= b
    ensures a * k <= b * k
  {
    assert b * k - a * k == (b - a) * k;
  }

  /** `a / (b / c) == c * (a / b)`. */
  lemma RatioStep(a: real, b: real, c: real)
    requires b > 0.0 && c > 0.0
    ensures a / (b / c) == c * (a / b)
  {
    var r := b / c;
    assert r * c == b;
    var q := a / r;
    assert q * r == a;
    assert c * (a / b) * b == c * a;
    assert q * b == q * r * c;
  }
}
