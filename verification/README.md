# DemoViewer rasterizer, modelled in Dafny

DemoViewer draws a four-faced tetrahedron. It rotates the vertices by a
heading matrix and then a pitch matrix. Each face is flat-shaded by its normal.
The faces are filled by a software rasterizer that uses barycentric
coordinates and a z-buffer.

This project models the numeric core of one frame:

- the 3x3 matrix product, as the triple loop that computes it;
- the row-vector transform;
- the face normal;
- the z-buffer set-up;
- the per-triangle fill:
  - translation to pixel coordinates;
  - the clamped bounding box;
  - the weights and the inclusive inside test;
  - the interpolated depth;
  - the strict depth test;
  - the writes to the z-buffer and the image;
- the frame loop over the triangles.

The project proves properties of the model:

- **Composition order**: transforming by `heading * pitch` applies heading
  first.
- **Rotations**: the heading and pitch rotations are orthonormal, so the view
  transform keeps every vertex at its distance from the origin.
- **Fill**: the weights are true barycentric coordinates. The bounding box
  holds every pixel that can receive a fragment. Every pixel ends as the depth
  test leaves it.
- **Depth**: the final depth is the maximum over the fragments, so it does not
  depend on the drawing order.

Files and modules:

- `option.dfy` (`Wrappers`): the optional value.
- `geometry.dfy` (`Geometry`): vertices, edges and the cross-product face
  normal.
- `matrix3.dfy` (`Matrices`): the row-major 3x3 matrices, the multiplication
  loop, the transform and the algebra.
- `zbuffer.dfy` (`DepthBuffer`): depths with negative infinity, the depth
  test at one pixel, and the z-buffer initialisation loop.
- `raster.dfy` (`Raster`): the per-triangle fill, with its box, weights,
  inside test and pixel indexing.
- `render.dfy` (`Scene`): the scene and the frame loop.

Java doubles are modelled as exact reals. The only infinity modelled is the
initial depth, negative infinity.

Where the code and its documented design differ, the model
follows the code:

- **Zero-area triangle.** The code divides by a zero area without a guard.
  Every weight is then NaN or an infinity, and each such value fails one of the
  comparisons `>= 0` and `<= 1`. So a degenerate triangle draws nothing, and the
  model says exactly that (`FragmentAt` gives `None`).
- **Empty window.** A width or height of zero makes the image
  constructor throw (DemoViewer.java:92), so `Render` requires a positive
  width and height.
- **Drawing order.** Drawing order does not matter for the depth, which is
  proved. It does matter for the colour when two triangles tie on depth at a
  pixel. The depth test is strict (`zBuffer[zIndex] < depth`), so the first
  triangle drawn keeps the pixel (`ResolveFirstWinner`, `ColourDependsOnOrder`).

## Model

| member | source | states |
|---|---|---|
| `Geometry.FaceNormal` | DemoViewer.java:166-171 | The cross product of the edges v1->v2 and v1->v3 is orthogonal to both edges. |
| `Matrices.Heading` | DemoViewer.java:57-60 | The heading matrix, row-major, from the cosine and sine of the heading angle. |
| `Matrices.Pitch` | DemoViewer.java:63-66 | The pitch matrix, row-major, from the cosine and sine of the pitch angle. |
| `Matrices.HeadingKeepsHeight` | DemoViewer.java:57-60 | The heading matrix rotates a vertex in the x-z plane and keeps its y. |
| `Matrices.PitchKeepsX` | DemoViewer.java:63-66 | The pitch matrix rotates a vertex in the y-z plane and keeps its x. |
| `Matrices.Product` | DemoViewer.java:317-328 | The matrix product the multiplication loop computes, entry by entry. |
| `Matrices.Transform` | DemoViewer.java:330-335 | The row vector (x, y, z) times the matrix: the new x is read from entries 0, 3 and 6, and so on. |
| `Matrices.Multiply` | DemoViewer.java:317-328 | The triple loop over a zero-initialised nine-entry buffer returns the matrix product: entry (row, col) is row `row` of the receiver dotted with column `col` of the argument. Operands are values and stay unchanged. |
| `Matrices.PartialSumComplete` | DemoViewer.java:322-324 | The three accumulated terms of one cell, added in loop order, equal that entry of the product. |
| `Matrices.TransformProduct` | DemoViewer.java:330-335 | Transforming a vertex by `a * b` is transforming it by `a`, then by `b` (the row-vector convention). |
| `Matrices.HeadingThenPitch` | DemoViewer.java:57-76 | The viewer's `headingTransform.multiply(pitchTransform)` rotates by heading first and by pitch second. |
| `Matrices.TransformIdentity` | DemoViewer.java:330-335 | The identity matrix leaves every vertex unchanged. |
| `Matrices.ProductIdentity` | DemoViewer.java:317-328 | The identity is a left and a right unit of the product. |
| `Matrices.ProductAssociative` | DemoViewer.java:317-328 | The product is associative. |
| `Matrices.ProductNotCommutative` | DemoViewer.java:57-76 | A quarter heading turn and a quarter pitch turn give different products in the two orders, so the order of composition matters. |
| `Matrices.ZeroAngleIsIdentity` | DemoViewer.java:57-66 | At angle 0 (cosine 1, sine 0) the heading and pitch matrices are the identity. |
| `Matrices.HeadingIsOrthonormal` | DemoViewer.java:57-60 | With cos² + sin² = 1, the heading matrix times its transpose is the identity. |
| `Matrices.PitchIsOrthonormal` | DemoViewer.java:63-66 | With cos² + sin² = 1, the pitch matrix times its transpose is the identity. |
| `Matrices.OrthonormalProduct` | DemoViewer.java:317-328 | The product of two orthonormal matrices is orthonormal. |
| `Matrices.OrthonormalPreservesNorm` | DemoViewer.java:330-335 | Transforming by an orthonormal matrix keeps a vertex's squared length. |
| `Matrices.ViewTransformPreservesNorm` | DemoViewer.java:55-76 | The composed heading-and-pitch transform keeps every vertex's distance from the origin. |
| `DepthBuffer.Nearer` | DemoViewer.java:219 | The strict depth test: a fragment wins only over a smaller stored depth, and always over negative infinity. |
| `DepthBuffer.Resolve` | DemoViewer.java:142-227 | The pixel after its fragments go through the depth test in drawing order. Its depth never falls below the starting depth, and it is either untouched or holds some fragment's depth and colour. |
| `DepthBuffer.NewZBuffer` | DemoViewer.java:103-108 | The z-buffer has W*H entries, and after the loop every entry is negative infinity. |
| `DepthBuffer.Step` | DemoViewer.java:214-223 | The depth test at one pixel: the state changes iff there is a fragment and its depth is strictly greater than the stored depth. The new state is then that depth and the fragment's colour; otherwise nothing changes. The stored depth never decreases. |
| `DepthBuffer.ResolveMonotone` | DemoViewer.java:219-222 | Over a run of fragments, the stored depth after a prefix is never greater than after the whole run. |
| `DepthBuffer.ResolveIsMaximum` | DemoViewer.java:142-227 | After all fragments, the stored depth is the maximum of the initial depth and every fragment's depth. It bounds all of them and equals one of them. |
| `DepthBuffer.ResolveFirstWinner` | DemoViewer.java:214-223 | Either the pixel is untouched, or it holds the colour and depth of the earliest fragment of maximal depth: that fragment beats the initial depth, is strictly deeper than every fragment before it, and no fragment after it is deeper. |
| `DepthBuffer.ColourDependsOnOrder` | DemoViewer.java:219-222 | Two fragments at the same depth leave the colour of whichever is drawn first, so swapping them changes the colour. |
| `DepthBuffer.ResolveDepthOrderFree` | DemoViewer.java:142-227 | Two fragment sequences with the same elements, in any order or multiplicity, leave the same depth. |
| `DepthBuffer.ResolveSnoc` | DemoViewer.java:142-227 | Drawing one more triangle is one more depth-test step on the pixel's state. |
| `Raster.ToScreenKeepsNormal` | DemoViewer.java:190-197 | Shifting x and y by half the integer width and height leaves the face normal unchanged. |
| `Raster.ToScreen` | DemoViewer.java:190-197 | The translation to pixel coordinates: x and y shifted by half the integer width and height, z kept. |
| `Raster.Ceil` | DemoViewer.java:200 | `Math.ceil`: the least integer not below the argument. |
| `Raster.Floor` | DemoViewer.java:201 | `Math.floor`: the greatest integer not above the argument. |
| `Raster.BoundingBox` | DemoViewer.java:199-204 | A pixel is in the clamped box iff it is on screen, [0, W-1] x [0, H-1], and between the triangle's smallest and largest vertex x and y. |
| `Raster.TriangleArea` | DemoViewer.java:206 | Twice the signed area of the projected triangle, as the source writes it. |
| `Raster.Barycentric` | DemoViewer.java:210-212 | The three weights of a pixel, each a numerator divided by the area. |
| `Raster.Inside` | DemoViewer.java:214 | The inside test, inclusive at 0 and 1 for all three weights. |
| `Raster.Interpolate` | DemoViewer.java:216 | The fragment depth: the weighted sum of the vertices' z. |
| `Raster.FragmentAt` | DemoViewer.java:206-216 | What one triangle contributes at one pixel: nothing if the area is zero or the pixel fails the inside test, otherwise the interpolated depth and the face colour. |
| `Raster.AreaIsNormalZ` | DemoViewer.java:206 | The area expression is the negated z of the face normal. |
| `Raster.BarycentricCoordinates` | DemoViewer.java:210-212 | For a non-degenerate triangle, the three weights sum to 1, and as coefficients of the vertices they give back the pixel's (x, y). |
| `Raster.BarycentricUnique` | DemoViewer.java:210-212 | For a non-degenerate triangle and any weights summing to 1, the point they combine the vertices into gets exactly those weights back: the weights are the unique barycentric coordinates. |
| `Raster.BarycentricCentroid` | DemoViewer.java:210-214 | The centroid gets weights (1/3, 1/3, 1/3) and passes the inside test. |
| `Raster.SideAffine` | DemoViewer.java:210-212 | Each weight's numerator is affine in the pixel: at a combination of points with weights summing to 1 it is that combination of its values. |
| `Raster.FragmentIffInTriangle` | DemoViewer.java:206-216 | For a non-degenerate triangle, a pixel gets a fragment iff it has barycentric coordinates that are all in [0, 1], that is, iff it lies in the closed triangle. The fragment's depth is then that combination of the vertices' z. |
| `Raster.BarycentricAtVertices` | DemoViewer.java:210-216 | At v1 the weights are (1, 0, 0), and likewise at v2 and v3. The depth interpolated at v1 is v1's z. |
| `Raster.ConvexCombination` | DemoViewer.java:214-216 | Weights that pass the inclusive inside test and sum to 1 combine three values into one between their minimum and maximum. |
| `Raster.FragmentInExtent` | DemoViewer.java:210-216 | A pixel that yields a fragment lies within the triangle's x and y extent. The fragment's depth lies between the smallest and largest vertex z. |
| `Raster.BoxCoversFragments` | DemoViewer.java:199-214 | Scanning only the box loses nothing: an on-screen pixel outside the box has no fragment. |
| `Raster.EdgeOnDrawsNothing` | DemoViewer.java:166-214 | A face whose normal has zero z (seen edge-on) produces no fragment at any pixel. |
| `Raster.PixelIndexInverse` | DemoViewer.java:217 | For an on-screen pixel, `y * W + x` is in [0, W*H), and x and y are recovered from it by remainder and quotient. |
| `Raster.PixelIndexOnto` | DemoViewer.java:103 | Every position i of the W*H buffer is the index of the on-screen pixel (i % W, i / W). That no other pixel has it is `PixelIndexInjective`. |
| `Raster.PixelIndexInjective` | DemoViewer.java:217 | Distinct on-screen pixels have distinct indices. |
| `Raster.RasterizeTriangle` | DemoViewer.java:190-226 | After filling one triangle, every pixel of the W*H z-buffer and image equals the depth test applied to its old state and the triangle's fragment there. Pixels outside the box, or outside the triangle, are unchanged. |
| `Scene.ViewTransform` | DemoViewer.java:76 | The view rotation, heading times pitch. |
| `Scene.TriangleFragment` | DemoViewer.java:143-186 | One triangle's fragment at a pixel: its vertices rotated, translated to the screen, and its colour shaded from its face normal. |
| `Scene.FragmentsSnoc` | DemoViewer.java:142-145 | Fragments for a one-longer prefix of the triangles are those of the prefix plus the next triangle's. |
| `Scene.Render` | DemoViewer.java:55-227 | The frame. The buffers are fresh and W*H long. Each pixel ends as the depth test leaves it after the fragments of all triangles in order, starting from negative infinity and a transparent image. The rotation is the one the multiplication loop builds. |
| `Scene.RenderDepthOrderFree` | DemoViewer.java:142-227 | Drawing the same triangles in another order, or with repeats, gives the same depth at every pixel. |
| `Scene.TetrahedronIsRegular` | DemoViewer.java:30-53 | The scene's four faces have every edge of squared length 80000: a regular tetrahedron. |
| `Scene.TetrahedronOnSphere` | DemoViewer.java:30-53 | Every tetrahedron vertex is at squared distance 30000 from the origin and stays there under any heading and pitch rotation. |

## Left out

- The Swing frame, sliders, listeners and repaint (DemoViewer.java:9-27, 234-242): user interface only.
- The wireframe pass (DemoViewer.java:126-140) and the final `drawImage` (DemoViewer.java:229): these call the Graphics2D drawing API, which is not part of this model.
- `Math.toRadians`, `Math.sin` and `Math.cos`: each rotation takes the cosine and sine of its angle as inputs. The orthonormality lemmas assume cos² + sin² = 1 where they need it.
- Normal normalisation and `getShade` (DemoViewer.java:173-186, 245-257): these use `Math.sqrt`, `Math.abs` and `Math.pow` on doubles. Their result is a parameter, `shade`, which maps the face colour and the unnormalised normal to the ARGB value written to the image. `Color.getRGB` packing is inside it.
- IEEE double rounding, NaN and infinities: the arithmetic is exact over reals. The one place NaN matters, the division by a zero area, is modelled by its effect: no fragment.
- The `(int)` casts of the box bounds saturate in Java for huge coordinates. This is not modelled because it changes nothing. When the cast saturates, the clamped range is already empty in both Java and the model.
- Aliasing of `Matrix3.values`: matrices are values here, so `multiply` cannot modify its operands. In Java it only writes its fresh `result` array.
- In-place updates of the fresh `Vertex` objects (normalising `norm`, translating `v1`-`v3`): modelled as new values, since those objects are never shared.
- `Render` returns the z-buffer and image instead of discarding the z-buffer and drawing the image. The scene, `Tetrahedron`, is passed to it as `tris`.
