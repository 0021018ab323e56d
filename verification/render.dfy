/** One frame: the tetrahedron's triangles rotated by the heading and pitch
    matrices, shaded, and filled one after another into a fresh z-buffer and
    image. */
module Scene {
  import opened Geometry
  import opened Matrices
  import opened Wrappers
  import opened DepthBuffer
  import opened Raster

  /** An sRGB colour, each channel 0..255. */
  datatype Colour = Colour(red: int, green: int, blue: int)

  const White := Colour(255, 255, 255)
  const Red := Colour(255, 0, 0)
  const Green := Colour(0, 255, 0)
  const Blue := Colour(0, 0, 255)

  /** Three vertices and the colour the face is filled with. */
  datatype Triangle = Triangle(v1: Vertex, v2: Vertex, v3: Vertex, colour: Colour)

  /** The scene: four faces of a regular tetrahedron centred on the origin,
      in this order. */
  const Tetrahedron: seq<Triangle> :=
    [Triangle(Vertex(100.0, 100.0, 100.0), Vertex(-100.0, -100.0, 100.0), Vertex(-100.0, 100.0, -100.0), White),
     Triangle(Vertex(100.0, 100.0, 100.0), Vertex(-100.0, -100.0, 100.0), Vertex(100.0, -100.0, -100.0), Red),
     Triangle(Vertex(-100.0, 100.0, -100.0), Vertex(100.0, -100.0, -100.0), Vertex(100.0, 100.0, 100.0), Green),
     Triangle(Vertex(-100.0, 100.0, -100.0), Vertex(100.0, -100.0, -100.0), Vertex(-100.0, -100.0, 100.0), Blue)]

  /** The view rotation: heading first, then pitch, each given by the cosine
      and sine of its angle. */
  function ViewTransform(hc: real, hs: real, pc: real, ps: real): Matrix3
  {
    Product(Heading(hc, hs), Pitch(pc, ps))
  }

  /** What triangle `t` contributes at pixel (x, y) once rotated by `m`:
      `shade` turns the face colour and the unnormalised face normal of the
      rotated triangle into the ARGB value written to the image. */
  function TriangleFragment(t: Triangle, m: Matrix3, w: nat, h: nat,
                            shade: (Colour, Vertex) -> int, x: int, y: int): Option<Fragment>
  {
    var v1, v2, v3 := Transform(m, t.v1), Transform(m, t.v2), Transform(m, t.v3);
    FragmentAt(ToScreen(v1, w, h), ToScreen(v2, w, h), ToScreen(v3, w, h),
               shade(t.colour, FaceNormal(v1, v2, v3)), x, y)
  }

  /** The fragments of all triangles at pixel (x, y), in drawing order. */
  function Fragments(tris: seq<Triangle>, m: Matrix3, w: nat, h: nat,
                     shade: (Colour, Vertex) -> int, x: int, y: int): seq<Option<Fragment>>
  {
    seq(|tris|, k requires 0 <= k < |tris| => TriangleFragment(tris[k], m, w, h, shade, x, y))
  }

  /** Drawing one more triangle adds its fragment at the end. */
  lemma FragmentsSnoc(tris: seq<Triangle>, k: nat, m: Matrix3, w: nat, h: nat,
                      shade: (Colour, Vertex) -> int, x: int, y: int)
    requires k < |tris|
    ensures Fragments(tris[..k + 1], m, w, h, shade, x, y)
         == Fragments(tris[..k], m, w, h, shade, x, y) + [TriangleFragment(tris[k], m, w, h, shade, x, y)]
  {
  }

  /** The frame: the view matrix is built by the multiplication loop, the
      image starts transparent and the z-buffer at negative infinity, and the
      triangles are filled in order. Every pixel ends as the depth test leaves
      it after all the triangles' fragments there. */
  method Render(tris: seq<Triangle>, hc: real, hs: real, pc: real, ps: real, w: nat, h: nat,
                shade: (Colour, Vertex) -> int)
    returns (zBuffer: array<Depth>, img: array<int>)
    requires 0 < w && 0 < h
    ensures fresh(zBuffer) && fresh(img)
    ensures zBuffer.Length == w * h && img.Length == w * h
    ensures forall i :: 0 <= i < w * h ==>
              PixelAt(zBuffer, img, i)
              == Resolve(Blank, Fragments(tris, ViewTransform(hc, hs, pc, ps), w, h, shade, i % w, i / w))
  {
    var transform := Multiply(Heading(hc, hs), Pitch(pc, ps));
    img := new int[w * h](_ => 0);
    zBuffer := NewZBuffer(w, h);
    for k := 0 to |tris|
      invariant forall i :: 0 <= i < w * h ==>
                  PixelAt(zBuffer, img, i)
                  == Resolve(Blank, Fragments(tris[..k], transform, w, h, shade, i % w, i / w))
    {
      var t := tris[k];
      var v1, v2, v3 := Transform(transform, t.v1), Transform(transform, t.v2), Transform(transform, t.v3);
      var norm := FaceNormal(v1, v2, v3);
      RasterizeTriangle(zBuffer, img, w, h, v1, v2, v3, shade(t.colour, norm));
      forall i | 0 <= i < w * h
        ensures PixelAt(zBuffer, img, i)
             == Resolve(Blank, Fragments(tris[..k + 1], transform, w, h, shade, i % w, i / w))
      {
        var fs := Fragments(tris[..k], transform, w, h, shade, i % w, i / w);
        var f := TriangleFragment(t, transform, w, h, shade, i % w, i / w);
        FragmentsSnoc(tris, k, transform, w, h, shade, i % w, i / w);
        ResolveSnoc(Blank, fs, f);
      }
    }
    assert tris[..|tris|] == tris;
  }

  /** The depth image does not depend on the order in which the triangles
      are drawn: the same triangles in another order, or repeated, leave the
      same depth at every pixel. */
  lemma RenderDepthOrderFree(tris: seq<Triangle>, tris': seq<Triangle>, m: Matrix3, w: nat, h: nat,
                             shade: (Colour, Vertex) -> int, x: int, y: int)
    requires forall t :: t in tris <==> t in tris'
    ensures Resolve(Blank, Fragments(tris, m, w, h, shade, x, y)).depth
         == Resolve(Blank, Fragments(tris', m, w, h, shade, x, y)).depth
  {
    var fs, gs := Fragments(tris, m, w, h, shade, x, y), Fragments(tris', m, w, h, shade, x, y);
    forall f | f in fs
      ensures f in gs
    {
      var k :| 0 <= k < |fs| && fs[k] == f;
      assert tris[k] in tris';
      var k' :| 0 <= k' < |tris'| && tris'[k'] == tris[k];
      assert gs[k'] == f;
    }
    forall f | f in gs
      ensures f in fs
    {
      var k' :| 0 <= k' < |gs| && gs[k'] == f;
      assert tris'[k'] in tris;
      var k :| 0 <= k < |tris| && tris[k] == tris'[k'];
      assert fs[k] == f;
    }
    ResolveDepthOrderFree(Blank, fs, gs);
  }

  /** The scene is a regular tetrahedron: every edge of every face has
      squared length 80000. */
  lemma TetrahedronIsRegular()
    ensures |Tetrahedron| == 4
    ensures forall t :: t in Tetrahedron ==>
              NormSq(Edge(t.v1, t.v2)) == 80000.0 && NormSq(Edge(t.v1, t.v3)) == 80000.0
              && NormSq(Edge(t.v2, t.v3)) == 80000.0
  {
  }

  /** Every vertex of the tetrahedron is at squared distance 30000 from the
      origin, and stays there under any view rotation. */
  lemma TetrahedronOnSphere(hc: real, hs: real, pc: real, ps: real)
    requires hc * hc + hs * hs == 1.0 && pc * pc + ps * ps == 1.0
    ensures forall t :: t in Tetrahedron ==>
              NormSq(Transform(ViewTransform(hc, hs, pc, ps), t.v1)) == 30000.0
              && NormSq(Transform(ViewTransform(hc, hs, pc, ps), t.v2)) == 30000.0
              && NormSq(Transform(ViewTransform(hc, hs, pc, ps), t.v3)) == 30000.0
  {
    forall t | t in Tetrahedron
      ensures NormSq(Transform(ViewTransform(hc, hs, pc, ps), t.v1)) == 30000.0
      ensures NormSq(Transform(ViewTransform(hc, hs, pc, ps), t.v2)) == 30000.0
      ensures NormSq(Transform(ViewTransform(hc, hs, pc, ps), t.v3)) == 30000.0
    {
      ViewTransformPreservesNorm(hc, hs, pc, ps, t.v1);
      ViewTransformPreservesNorm(hc, hs, pc, ps, t.v2);
      ViewTransformPreservesNorm(hc, hs, pc, ps, t.v3);
    }
  }
}
