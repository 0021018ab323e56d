/** Filling one triangle: translation to screen coordinates, the clamped
    bounding box, barycentric weights, the inclusive inside test, depth
    interpolation and the depth-tested writes to the z-buffer and image. */
module Raster {
  import opened Geometry
  import opened Wrappers
  import opened DepthBuffer

  /** Moves a vertex from the view's centred coordinates to pixel
      coordinates: x and y are shifted by half the (integer) width and
      height, z is kept. */
  function ToScreen(v: Vertex, w: nat, h: nat): Vertex
  {
    Vertex(v.x + (w / 2) as real, v.y + (h / 2) as real, v.z)
  }

  /** Translation changes no edge of a triangle, so no face normal. */
  lemma ToScreenKeepsNormal(v1: Vertex, v2: Vertex, v3: Vertex, w: nat, h: nat)
    ensures FaceNormal(ToScreen(v1, w, h), ToScreen(v2, w, h), ToScreen(v3, w, h))
         == FaceNormal(v1, v2, v3)
  {
    assert Edge(ToScreen(v1, w, h), ToScreen(v2, w, h)) == Edge(v1, v2);
    assert Edge(ToScreen(v1, w, h), ToScreen(v3, w, h)) == Edge(v1, v3);
  }

  function Min3(a: real, b: real, c: real): (m: real)
    ensures m <= a && m <= b && m <= c
    ensures m == a || m == b || m == c
  {
    if a <= b && a <= c then a else if b <= c then b else c
  }

  function Max3(a: real, b: real, c: real): (m: real)
    ensures a <= m && b <= m && c <= m
    ensures m == a || m == b || m == c
  {
    if a >= b && a >= c then a else if b >= c then b else c
  }

  /** The least integer not below r. */
  function Ceil(r: real): (c: int)
    ensures r <= c as real < r + 1.0
  {
    -((-r).Floor)
  }

  /** The greatest integer not above r. */
  function Floor(r: real): (f: int)
    ensures r - 1.0 < f as real <= r
  {
    r.Floor
  }

  function Max(a: int, b: int): int
  {
    if a < b then b else a
  }

  function Min(a: int, b: int): int
  {
    if a < b then a else b
  }

  /** The inclusive pixel ranges the fill loops scan. */
  datatype Box = Box(minX: int, maxX: int, minY: int, maxY: int)

  predicate InBox(b: Box, x: int, y: int)
  {
    b.minX <= x <= b.maxX && b.minY <= y <= b.maxY
  }

  /** The triangle's bounding box in pixels, clamped to the image: the pixels
      it holds are exactly the on-screen pixels whose coordinates lie between
      the triangle's smallest and largest vertex coordinates. */
  function BoundingBox(s1: Vertex, s2: Vertex, s3: Vertex, w: int, h: int): (b: Box)
    ensures forall x, y :: InBox(b, x, y) <==>
              0 <= x < w && 0 <= y < h
              && Min3(s1.x, s2.x, s3.x) <= x as real <= Max3(s1.x, s2.x, s3.x)
              && Min3(s1.y, s2.y, s3.y) <= y as real <= Max3(s1.y, s2.y, s3.y)
  {
    Box(Max(0, Ceil(Min3(s1.x, s2.x, s3.x))), Min(w - 1, Floor(Max3(s1.x, s2.x, s3.x))),
        Max(0, Ceil(Min3(s1.y, s2.y, s3.y))), Min(h - 1, Floor(Max3(s1.y, s2.y, s3.y))))
  }

  /** The expression the rasterizer uses both for the triangle's area and for
      the numerators of the weights: zero when (x, y) is on the line through
      a and b, and of opposite signs on its two sides. */
  function Side(a: Vertex, b: Vertex, x: real, y: real): real
  {
    (y - b.y) * (a.x - b.x) + (a.y - b.y) * (b.x - x)
  }

  /** Twice the signed area of the projected triangle. */
  function TriangleArea(s1: Vertex, s2: Vertex, s3: Vertex): real
  {
    Side(s2, s3, s1.x, s1.y)
  }

  /** The area is the negated z coordinate of the face normal: a face seen
      edge-on has zero area. */
  lemma AreaIsNormalZ(v1: Vertex, v2: Vertex, v3: Vertex)
    ensures TriangleArea(v1, v2, v3) == -FaceNormal(v1, v2, v3).z
  {
  }

  datatype Weights = Weights(b1: real, b2: real, b3: real)

  /** The barycentric weights of (x, y) with respect to the triangle. */
  function Barycentric(s1: Vertex, s2: Vertex, s3: Vertex, x: real, y: real): Weights
    requires TriangleArea(s1, s2, s3) != 0.0
  {
    var area := TriangleArea(s1, s2, s3);
    Weights(Side(s2, s3, x, y) / area, Side(s3, s1, x, y) / area, Side(s1, s2, x, y) / area)
  }

  /** The inside test, closed at both ends: pixels on an edge are filled. */
  predicate Inside(w: Weights)
  {
    0.0 <= w.b1 <= 1.0 && 0.0 <= w.b2 <= 1.0 && 0.0 <= w.b3 <= 1.0
  }

  /** The weighted sum of three values. */
  function Combine(w: Weights, p1: real, p2: real, p3: real): real
  {
    w.b1 * p1 + w.b2 * p2 + w.b3 * p3
  }

  /** The depth interpolated from the vertices' z coordinates. */
  function Interpolate(w: Weights, s1: Vertex, s2: Vertex, s3: Vertex): real
  {
    Combine(w, s1.z, s2.z, s3.z)
  }

  /** What the triangle contributes at pixel (x, y): nothing for a
      degenerate triangle, whose weights are not finite numbers and so fail
      every comparison, nor outside it; otherwise the interpolated depth with
      the face colour. */
  function FragmentAt(s1: Vertex, s2: Vertex, s3: Vertex, colour: int, x: int, y: int): Option<Fragment>
  {
    if TriangleArea(s1, s2, s3) == 0.0 then None
    else
      var w := Barycentric(s1, s2, s3, x as real, y as real);
      if Inside(w) then Some(Fragment(Interpolate(w, s1, s2, s3), colour)) else None
  }

  /** The polynomial identities behind the weights, with the numerators and
      the area named: they add up to the area, and weighted by them the
      vertices add up to (x, y) times the area. */
  lemma SideIdentities(x: real, y: real, x1: real, y1: real, x2: real, y2: real, x3: real, y3: real,
                       n1: real, n2: real, n3: real, a: real)
    requires a == (y1 - y3) * (x2 - x3) + (y2 - y3) * (x3 - x1)
    requires n1 == (y - y3) * (x2 - x3) + (y2 - y3) * (x3 - x)
    requires n2 == (y - y1) * (x3 - x1) + (y3 - y1) * (x1 - x)
    requires n3 == (y - y2) * (x1 - x2) + (y1 - y2) * (x2 - x)
    ensures n1 + n2 + n3 == a
    ensures n1 * x1 + n2 * x2 + n3 * x3 == x * a
    ensures n1 * y1 + n2 * y2 + n3 * y3 == y * a
  {
  }

  /** Dividing the numerators by the area keeps a weighted sum's relation
      to the area. */
  lemma DivideByArea(b1: real, b2: real, b3: real, n1: real, n2: real, n3: real, a: real,
                     p1: real, p2: real, p3: real, q: real)
    requires a != 0.0 && b1 == n1 / a && b2 == n2 / a && b3 == n3 / a
    requires n1 * p1 + n2 * p2 + n3 * p3 == q * a
    ensures b1 * p1 + b2 * p2 + b3 * p3 == q
  {
    assert n1 == b1 * a && n2 == b2 * a && n3 == b3 * a;
    assert (b1 * p1 + b2 * p2 + b3 * p3) * a == q * a;
  }

  /** The weights are the barycentric coordinates of (x, y): they sum to 1
      and, as coefficients of the vertices, give back the point. */
  lemma {:induction false} BarycentricCoordinates(s1: Vertex, s2: Vertex, s3: Vertex, x: real, y: real)
    requires TriangleArea(s1, s2, s3) != 0.0
    ensures var w := Barycentric(s1, s2, s3, x, y);
      w.b1 + w.b2 + w.b3 == 1.0 && Combine(w, s1.x, s2.x, s3.x) == x && Combine(w, s1.y, s2.y, s3.y) == y
  {
    var a := TriangleArea(s1, s2, s3);
    var w := Barycentric(s1, s2, s3, x, y);
    var n1, n2, n3 := Side(s2, s3, x, y), Side(s3, s1, x, y), Side(s1, s2, x, y);
    SideIdentities(x, y, s1.x, s1.y, s2.x, s2.y, s3.x, s3.y, n1, n2, n3, a);
    DivideByArea(w.b1, w.b2, w.b3, n1, n2, n3, a, 1.0, 1.0, 1.0, 1.0);
    DivideByArea(w.b1, w.b2, w.b3, n1, n2, n3, a, s1.x, s2.x, s3.x, x);
    DivideByArea(w.b1, w.b2, w.b3, n1, n2, n3, a, s1.y, s2.y, s3.y, y);
  }

  /** At each vertex the weights single that vertex out, so the interpolated
      depth there is the vertex's own z. */
  lemma {:induction false} BarycentricAtVertices(s1: Vertex, s2: Vertex, s3: Vertex)
    requires TriangleArea(s1, s2, s3) != 0.0
    ensures Barycentric(s1, s2, s3, s1.x, s1.y) == Weights(1.0, 0.0, 0.0)
    ensures Barycentric(s1, s2, s3, s2.x, s2.y) == Weights(0.0, 1.0, 0.0)
    ensures Barycentric(s1, s2, s3, s3.x, s3.y) == Weights(0.0, 0.0, 1.0)
    ensures Interpolate(Weights(1.0, 0.0, 0.0), s1, s2, s3) == s1.z
  {
    var a := TriangleArea(s1, s2, s3);
    SideRotation(s1, s2, s3);
    SideAtEnds(s1, s2);
    SideAtEnds(s2, s3);
    SideAtEnds(s3, s1);
    assert a / a == 1.0 && 0.0 / a == 0.0;
  }

  /** Side is affine in the point: at a weighted combination of three points,
      with weights summing to 1, it is the same combination of its values
      there. */
  lemma SideAffine(a: Vertex, b: Vertex, c: Weights, s1: Vertex, s2: Vertex, s3: Vertex)
    requires c.b1 + c.b2 + c.b3 == 1.0
    ensures Side(a, b, Combine(c, s1.x, s2.x, s3.x), Combine(c, s1.y, s2.y, s3.y))
         == Combine(c, Side(a, b, s1.x, s1.y), Side(a, b, s2.x, s2.y), Side(a, b, s3.x, s3.y))
  {
    AffineScalar(a.x, a.y, b.x, b.y, c.b1, c.b2, c.b3, s1.x, s1.y, s2.x, s2.y, s3.x, s3.y);
  }

  lemma AffineScalar(ax: real, ay: real, xb: real, yb: real, c1: real, c2: real, c3: real,
                     x1: real, y1: real, x2: real, y2: real, x3: real, y3: real)
    requires c1 + c2 + c3 == 1.0
    ensures ((c1 * y1 + c2 * y2 + c3 * y3) - yb) * (ax - xb) + (ay - yb) * (xb - (c1 * x1 + c2 * x2 + c3 * x3))
         == c1 * ((y1 - yb) * (ax - xb) + (ay - yb) * (xb - x1))
          + c2 * ((y2 - yb) * (ax - xb) + (ay - yb) * (xb - x2))
          + c3 * ((y3 - yb) * (ax - xb) + (ay - yb) * (xb - x3))
  {
  }

  /** The weights are the only barycentric coordinates: for any weights
      summing to 1, the point they combine the vertices into gets exactly
      those weights back. */
  lemma {:induction false} BarycentricUnique(s1: Vertex, s2: Vertex, s3: Vertex, c: Weights)
    requires TriangleArea(s1, s2, s3) != 0.0
    requires c.b1 + c.b2 + c.b3 == 1.0
    ensures Barycentric(s1, s2, s3, Combine(c, s1.x, s2.x, s3.x), Combine(c, s1.y, s2.y, s3.y)) == c
  {
    var a := TriangleArea(s1, s2, s3);
    var x, y := Combine(c, s1.x, s2.x, s3.x), Combine(c, s1.y, s2.y, s3.y);
    SideRotation(s1, s2, s3);
    SideAtEnds(s2, s3);
    SideAtEnds(s3, s1);
    SideAtEnds(s1, s2);
    SideAffine(s2, s3, c, s1, s2, s3);
    SideAffine(s3, s1, c, s1, s2, s3);
    SideAffine(s1, s2, c, s1, s2, s3);
    assert Side(s2, s3, x, y) == c.b1 * a;
    assert Side(s3, s1, x, y) == c.b2 * a;
    assert Side(s1, s2, x, y) == c.b3 * a;
  }

  /** The centroid has weights (1/3, 1/3, 1/3), so it passes the inside
      test. */
  lemma BarycentricCentroid(s1: Vertex, s2: Vertex, s3: Vertex)
    requires TriangleArea(s1, s2, s3) != 0.0
    ensures var w := Barycentric(s1, s2, s3, (s1.x + s2.x + s3.x) / 3.0, (s1.y + s2.y + s3.y) / 3.0);
      w == Weights(1.0 / 3.0, 1.0 / 3.0, 1.0 / 3.0) && Inside(w)
  {
    var c := Weights(1.0 / 3.0, 1.0 / 3.0, 1.0 / 3.0);
    BarycentricUnique(s1, s2, s3, c);
    assert Combine(c, s1.x, s2.x, s3.x) == (s1.x + s2.x + s3.x) / 3.0;
    assert Combine(c, s1.y, s2.y, s3.y) == (s1.y + s2.y + s3.y) / 3.0;
  }

  /** `c` are barycentric coordinates of (x, y): they sum to 1 and combine
      the vertices into the point. */
  predicate IsCoordinates(c: Weights, s1: Vertex, s2: Vertex, s3: Vertex, x: real, y: real)
  {
    c.b1 + c.b2 + c.b3 == 1.0 && Combine(c, s1.x, s2.x, s3.x) == x && Combine(c, s1.y, s2.y, s3.y) == y
  }

  /** For a non-degenerate triangle, a pixel gets a fragment exactly when it
      lies in the closed triangle, that is, when it has non-negative
      barycentric coordinates; the fragment's depth is then the same
      combination of the vertices' z. */
  lemma {:induction false} FragmentIffInTriangle(s1: Vertex, s2: Vertex, s3: Vertex, colour: int, x: int, y: int)
    requires TriangleArea(s1, s2, s3) != 0.0
    ensures FragmentAt(s1, s2, s3, colour, x, y).Some?
        <==> exists c :: IsCoordinates(c, s1, s2, s3, x as real, y as real) && Inside(c)
    ensures forall c :: IsCoordinates(c, s1, s2, s3, x as real, y as real) && Inside(c) ==>
              FragmentAt(s1, s2, s3, colour, x, y) == Some(Fragment(Combine(c, s1.z, s2.z, s3.z), colour))
  {
    var px, py := x as real, y as real;
    var w := Barycentric(s1, s2, s3, px, py);
    BarycentricCoordinates(s1, s2, s3, px, py);
    assert IsCoordinates(w, s1, s2, s3, px, py);
    forall c | IsCoordinates(c, s1, s2, s3, px, py)
      ensures c == w
    {
      BarycentricUnique(s1, s2, s3, c);
    }
  }

  /** The area expression is the same whichever vertex it starts from. */
  lemma SideRotation(s1: Vertex, s2: Vertex, s3: Vertex)
    ensures Side(s2, s3, s1.x, s1.y) == Side(s3, s1, s2.x, s2.y) == Side(s1, s2, s3.x, s3.y)
  {
  }

  /** The line through a and b passes through a and b. */
  lemma SideAtEnds(a: Vertex, b: Vertex)
    ensures Side(a, b, a.x, a.y) == 0.0 && Side(a, b, b.x, b.y) == 0.0
  {
  }

  /** Weights that pass the inside test and sum to 1 combine three values
      into one between the smallest and the largest of them. */
  lemma ConvexCombination(w: Weights, p1: real, p2: real, p3: real)
    requires Inside(w) && w.b1 + w.b2 + w.b3 == 1.0
    ensures Min3(p1, p2, p3) <= Combine(w, p1, p2, p3) <= Max3(p1, p2, p3)
  {
    Between(w.b1, w.b2, w.b3, p1, p2, p3, Min3(p1, p2, p3), Max3(p1, p2, p3));
  }

  lemma Between(b1: real, b2: real, b3: real, p1: real, p2: real, p3: real, lo: real, hi: real)
    requires 0.0 <= b1 && 0.0 <= b2 && 0.0 <= b3 && b1 + b2 + b3 == 1.0
    requires lo <= p1 <= hi && lo <= p2 <= hi && lo <= p3 <= hi
    ensures lo <= b1 * p1 + b2 * p2 + b3 * p3 <= hi
  {
    ScaleNonneg(b1, p1 - lo);
    ScaleNonneg(b2, p2 - lo);
    ScaleNonneg(b3, p3 - lo);
    ScaleNonneg(b1, hi - p1);
    ScaleNonneg(b2, hi - p2);
    ScaleNonneg(b3, hi - p3);
  }

  lemma ScaleNonneg(a: real, b: real)
    requires 0.0 <= a && 0.0 <= b
    ensures 0.0 <= a * b
  {
  }

  /** A fragment is produced only for a pixel inside the triangle's extent,
      and its depth lies between the vertices' depths. */
  lemma {:induction false} FragmentInExtent(s1: Vertex, s2: Vertex, s3: Vertex, colour: int, x: int, y: int)
    requires FragmentAt(s1, s2, s3, colour, x, y).Some?
    ensures Min3(s1.x, s2.x, s3.x) <= x as real <= Max3(s1.x, s2.x, s3.x)
    ensures Min3(s1.y, s2.y, s3.y) <= y as real <= Max3(s1.y, s2.y, s3.y)
    ensures Min3(s1.z, s2.z, s3.z) <= FragmentAt(s1, s2, s3, colour, x, y).value.depth <= Max3(s1.z, s2.z, s3.z)
  {
    var w := Barycentric(s1, s2, s3, x as real, y as real);
    BarycentricCoordinates(s1, s2, s3, x as real, y as real);
    ConvexCombination(w, s1.x, s2.x, s3.x);
    ConvexCombination(w, s1.y, s2.y, s3.y);
    ConvexCombination(w, s1.z, s2.z, s3.z);
  }

  /** Scanning only the bounding box loses nothing: an on-screen pixel
      outside the box gets no fragment. */
  lemma BoxCoversFragments(s1: Vertex, s2: Vertex, s3: Vertex, colour: int, w: int, h: int, x: int, y: int)
    requires 0 <= x < w && 0 <= y < h
    requires !InBox(BoundingBox(s1, s2, s3, w, h), x, y)
    ensures FragmentAt(s1, s2, s3, colour, x, y) == None
  {
    if FragmentAt(s1, s2, s3, colour, x, y).Some? {
      FragmentInExtent(s1, s2, s3, colour, x, y);
      assert false;
    }
  }

  /** A face whose normal has no z component (seen edge-on) draws nothing. */
  lemma EdgeOnDrawsNothing(v1: Vertex, v2: Vertex, v3: Vertex, w: nat, h: nat, colour: int, x: int, y: int)
    requires FaceNormal(v1, v2, v3).z == 0.0
    ensures FragmentAt(ToScreen(v1, w, h), ToScreen(v2, w, h), ToScreen(v3, w, h), colour, x, y) == None
  {
    ToScreenKeepsNormal(v1, v2, v3, w, h);
    AreaIsNormalZ(ToScreen(v1, w, h), ToScreen(v2, w, h), ToScreen(v3, w, h));
  }

  /** Row-major position of pixel (x, y) in an image `w` pixels wide. */
  function PixelIndex(x: int, y: int, w: int): int
  {
    y * w + x
  }

  /** On screen, the position is in range and gives back the pixel. */
  lemma PixelIndexInverse(x: int, y: int, w: nat, h: nat)
    requires 0 <= x < w && 0 <= y < h
    ensures 0 <= PixelIndex(x, y, w) < w * h
    ensures PixelIndex(x, y, w) % w == x && PixelIndex(x, y, w) / w == y
  {
    MulLe(y + 1, h, w);
    DivModUnique(PixelIndex(x, y, w), w, y, x);
  }

  /** Every position in a w * h buffer is the position of one on-screen
      pixel. */
  lemma PixelIndexOnto(i: int, w: nat, h: nat)
    requires 0 <= i < w * h
    ensures 0 <= i % w < w && 0 <= i / w < h && PixelIndex(i % w, i / w, w) == i
  {
    if i / w >= h {
      MulLe(h, i / w, w);
      assert false;
    }
  }

  lemma MulLe(a: int, b: int, w: int)
    requires a <= b && 0 <= w
    ensures a * w <= b * w
  {
    assert b * w - a * w == (b - a) * w;
  }

  /** Quotient and remainder are the only ones with a remainder in range. */
  lemma DivModUnique(i: int, w: int, q: int, r: int)
    requires 0 <= r < w && i == q * w + r
    ensures i / w == q && i % w == r
  {
    var q', r' := i / w, i % w;
    assert i == q' * w + r' && 0 <= r' < w;
    if q' < q {
      MulLe(q' + 1, q, w);
      assert false;
    } else if q < q' {
      MulLe(q + 1, q', w);
      assert false;
    }
  }

  /** Distinct on-screen pixels have distinct positions. */
  lemma PixelIndexInjective(x: int, y: int, x': int, y': int, w: nat, h: nat)
    requires 0 <= x < w && 0 <= y < h && 0 <= x' < w && 0 <= y' < h
    requires PixelIndex(x, y, w) == PixelIndex(x', y', w)
    ensures x == x' && y == y'
  {
    PixelIndexInverse(x, y, w, h);
    PixelIndexInverse(x', y', w, h);
  }

  /** The state of pixel `i`: its z-buffer entry and its image colour. */
  function PixelAt(zBuffer: array<Depth>, img: array<int>, i: int): Pixel
    reads zBuffer, img
    requires 0 <= i < zBuffer.Length && i < img.Length
  {
    Pixel(zBuffer[i], img[i])
  }

  /** Pixel (px, py) comes before (x, y) in the fill loops' row-by-row
      order. */
  predicate Before(px: int, py: int, x: int, y: int)
  {
    py < y || (py == y && px < x)
  }

  /** Fills one triangle into the z-buffer and the image, both `w` * `h`
      pixels in row-major order. The vertices are in view coordinates; they
      are moved to pixel coordinates, and every pixel of the clamped bounding
      box goes through the inside test and the depth test. Each pixel ends as
      the depth test leaves it for this triangle's fragment there. */
  method RasterizeTriangle(zBuffer: array<Depth>, img: array<int>, w: nat, h: nat,
                           v1: Vertex, v2: Vertex, v3: Vertex, colour: int)
    requires zBuffer.Length == w * h && img.Length == w * h
    modifies zBuffer, img
    ensures forall i :: 0 <= i < w * h ==>
              PixelAt(zBuffer, img, i)
              == Step(old(PixelAt(zBuffer, img, i)),
                      FragmentAt(ToScreen(v1, w, h), ToScreen(v2, w, h), ToScreen(v3, w, h), colour, i % w, i / w))
  {
    ghost var z0, img0 := zBuffer[..], img[..];
    forall i | 0 <= i < w * h
      ensures 0 <= i % w < w && 0 <= i / w < h && PixelIndex(i % w, i / w, w) == i
    {
      PixelIndexOnto(i, w, h);
    }
    var s1, s2, s3 := ToScreen(v1, w, h), ToScreen(v2, w, h), ToScreen(v3, w, h);
    var box := BoundingBox(s1, s2, s3, w, h);
    var area := TriangleArea(s1, s2, s3);
    var y := box.minY;
    while y <= box.maxY
      invariant forall i :: 0 <= i < w * h ==>
                  PixelAt(zBuffer, img, i)
                  == if InBox(box, i % w, i / w) && i / w < y
                     then Step(Pixel(z0[i], img0[i]), FragmentAt(s1, s2, s3, colour, i % w, i / w))
                     else Pixel(z0[i], img0[i])
      decreases box.maxY - y
    {
      var x := box.minX;
      while x <= box.maxX
        invariant forall i :: 0 <= i < w * h ==>
                    PixelAt(zBuffer, img, i)
                    == if InBox(box, i % w, i / w) && Before(i % w, i / w, x, y)
                       then Step(Pixel(z0[i], img0[i]), FragmentAt(s1, s2, s3, colour, i % w, i / w))
                       else Pixel(z0[i], img0[i])
        decreases box.maxX - x
      {
        assert InBox(box, x, y);
        if area != 0.0 {
          var weights := Barycentric(s1, s2, s3, x as real, y as real);
          if Inside(weights) {
            var depth := Interpolate(weights, s1, s2, s3);
            var index := PixelIndex(x, y, w);
            PixelIndexInverse(x, y, w, h);
            if Nearer(depth, zBuffer[index]) {
              img[index] := colour;
              zBuffer[index] := D(depth);
            }
          }
        }
        x := x + 1;
      }
      y := y + 1;
    }
    forall i | 0 <= i < w * h && !InBox(box, i % w, i / w)
      ensures FragmentAt(s1, s2, s3, colour, i % w, i / w) == None
    {
      BoxCoversFragments(s1, s2, s3, colour, w, h, i % w, i / w);
    }
  }
}
