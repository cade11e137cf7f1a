/**
 * Axis-aligned boxes (android.graphics.RectF) and the overlap measures that
 * DogBreedClassifier uses for non-maximum suppression. Coordinates are reals,
 * so float rounding is not modelled.
 */
module BoxGeometry {
  import opened Wrappers

  datatype Rect = Rect(left: real, top: real, right: real, bottom: real)

  function Min(a: real, b: real): real { if a < b then a else b }
  function Max(a: real, b: real): real { if a > b then a else b }

  /** RectF.width() and RectF.height(): negative when the edges are crossed. */
  function Width(r: Rect): real { r.right - r.left }
  function Height(r: Rect): real { r.bottom - r.top }

  /** RectF.centerX() and RectF.centerY(). */
  function CenterX(r: Rect): real { (r.left + r.right) / 2.0 }
  function CenterY(r: Rect): real { (r.top + r.bottom) / 2.0 }

  function Area(r: Rect): real { Width(r) * Height(r) }

  /**
   * overlap(x1, w1, x2, w2): the length shared by the interval of width w1
   * centred at x1 and the one of width w2 centred at x2 (negative when they
   * are apart). It never exceeds either width.
   */
  function Overlap(x1: real, w1: real, x2: real, w2: real): (r: real)
    ensures r <= w1 && r <= w2
  {
    var l1 := x1 - w1 / 2.0;
    var l2 := x2 - w2 / 2.0;
    var left := if l1 > l2 then l1 else l2;
    var r1 := x1 + w1 / 2.0;
    var r2 := x2 + w2 / 2.0;
    var right := if r1 < r2 then r1 else r2;
    right - left
  }

  /** The horizontal overlap box_intersection computes: min of right edges minus max of left edges. */
  function XOverlap(a: Rect, b: Rect): (r: real)
    ensures r == Min(a.right, b.right) - Max(a.left, b.left)
  {
    Overlap(CenterX(a), Width(a), CenterX(b), Width(b))
  }

  /** The vertical overlap: min of bottom edges minus max of top edges. */
  function YOverlap(a: Rect, b: Rect): (r: real)
    ensures r == Min(a.bottom, b.bottom) - Max(a.top, b.top)
  {
    Overlap(CenterY(a), Height(a), CenterY(b), Height(b))
  }

  /**
   * box_intersection: the area of the common part, 0 when the boxes are
   * apart on either axis; never negative.
   */
  function BoxIntersection(a: Rect, b: Rect): (r: real)
    ensures r >= 0.0
    ensures XOverlap(a, b) <= 0.0 || YOverlap(a, b) <= 0.0 ==> r == 0.0
    ensures XOverlap(a, b) >= 0.0 && YOverlap(a, b) >= 0.0 ==>
              r == (Min(a.right, b.right) - Max(a.left, b.left)) * (Min(a.bottom, b.bottom) - Max(a.top, b.top))
  {
    var w := XOverlap(a, b);
    var h := YOverlap(a, b);
    if w < 0.0 || h < 0.0 then 0.0 else w * h
  }

  /** box_union: both areas less the intersection. */
  function BoxUnion(a: Rect, b: Rect): real
  {
    Area(a) + Area(b) - BoxIntersection(a, b)
  }

  /**
   * box_iou. A zero union makes the Java float quotient NaN or infinite,
   * modelled as None: such a value is never below a threshold.
   */
  function BoxIou(a: Rect, b: Rect): Option<real>
  {
    var u := BoxUnion(a, b);
    if u == 0.0 then None else Some(BoxIntersection(a, b) / u)
  }

  /** The comparison box_iou(a, b) < thresh, evaluated as Java floats evaluate it. */
  predicate IouBelow(a: Rect, b: Rect, thresh: real)
  {
    BoxIou(a, b).Some? && BoxIou(a, b).value < thresh
  }

  lemma OverlapSymmetric(x1: real, w1: real, x2: real, w2: real)
    ensures Overlap(x1, w1, x2, w2) == Overlap(x2, w2, x1, w1)
  {
  }

  lemma IntersectionSymmetric(a: Rect, b: Rect)
    ensures BoxIntersection(a, b) == BoxIntersection(b, a)
  {
    assert XOverlap(a, b) == XOverlap(b, a);
    assert YOverlap(a, b) == YOverlap(b, a);
  }

  /** IoU is symmetric, so the suppression test does not depend on argument order. */
  lemma IouSymmetric(a: Rect, b: Rect)
    ensures BoxIou(a, b) == BoxIou(b, a)
    ensures IouBelow(a, b, 0.25) == IouBelow(b, a, 0.25)
  {
    IntersectionSymmetric(a, b);
  }

  /** A box of positive width and height has IoU exactly 1 with itself. */
  lemma IouSelf(a: Rect)
    requires Width(a) > 0.0 && Height(a) > 0.0
    ensures BoxIou(a, a) == Some(1.0)
  {
    assert XOverlap(a, a) == Width(a);
    assert YOverlap(a, a) == Height(a);
    assert BoxIntersection(a, a) == Area(a);
    assert Area(a) > 0.0 by { MulPositive(Width(a), Height(a)); }
    assert BoxUnion(a, a) == Area(a);
    assert BoxIou(a, a) == Some(Area(a) / Area(a));
    SelfQuotient(Area(a));
  }

  /**
   * Boxes that do not overlap on some axis have intersection 0, hence IoU 0
   * unless their union is 0 (when Java computes NaN).
   */
  lemma IouDisjoint(a: Rect, b: Rect)
    requires a.right <= b.left || b.right <= a.left || a.bottom <= b.top || b.bottom <= a.top
    ensures BoxIntersection(a, b) == 0.0
    ensures BoxUnion(a, b) != 0.0 ==> BoxIou(a, b) == Some(0.0)
    ensures BoxUnion(a, b) == 0.0 ==> BoxIou(a, b) == None
  {
  }

  /**
   * For well-formed boxes (edges not crossed) of positive area, the IoU lies
   * in [0, 1].
   */
  lemma IouBounds(a: Rect, b: Rect)
    requires Width(a) > 0.0 && Height(a) > 0.0 && Width(b) > 0.0 && Height(b) > 0.0
    ensures BoxIou(a, b).Some?
    ensures 0.0 <= BoxIou(a, b).value <= 1.0
  {
    IntersectionAtMostArea(a, b);
    IntersectionAtMostArea(b, a);
    IntersectionSymmetric(a, b);
    var i := BoxIntersection(a, b);
    assert Area(a) > 0.0 by { MulPositive(Width(a), Height(a)); }
    var u := BoxUnion(a, b);
    assert u >= Area(a) > 0.0;
    DivAtMostOne(i, u);
  }

  /** For a well-formed box `a`, the intersection with any box is at most the area of `a`. */
  lemma IntersectionAtMostArea(a: Rect, b: Rect)
    requires Width(a) > 0.0 && Height(a) > 0.0
    ensures BoxIntersection(a, b) <= Area(a)
  {
    var w, h := XOverlap(a, b), YOverlap(a, b);
    if w >= 0.0 && h >= 0.0 {
      MulMonotone(w, Width(a), h, Height(a));
    } else {
      MulPositive(Width(a), Height(a));
    }
  }

  lemma SelfQuotient(x: real)
    requires x != 0.0
    ensures x / x == 1.0
  {
  }

  lemma DivAtMostOne(i: real, u: real)
    requires 0.0 <= i <= u && u > 0.0
    ensures 0.0 <= i / u <= 1.0
  {
  }

  lemma MulMonotone(x: real, x': real, y: real, y': real)
    requires 0.0 <= x <= x' && 0.0 <= y <= y'
    ensures x * y <= x' * y'
  {
    assert x * y <= x' * y;
    assert x' * y <= x' * y';
  }

  lemma MulPositive(x: real, y: real)
    requires x > 0.0 && y > 0.0
    ensures x * y > 0.0
  {
  }
}
