# A verified model of a small C software renderer

This project models, in Dafny, the core of a teaching renderer written in
C (the `lib/` directory of the repository).  It covers the following:

- points, vectors, 4×4 matrices and the premultiplying transform builders;
- the framebuffer with its bounds-checked accessors;
- the drawing state and its texture averaging;
- the lights and the shading sum;
- polygons and polylines with their shading set-up;
- the view matrices;
- the integer rasterisers for lines, circles and ellipses;
- the scanline polygon fill, with its edge table and active list;
- the scene-graph interpreter `Module_draw` and its module builders;
- the ray tracer's objects, scene list, hit tests and colour combination.

Arithmetic is exact:

- C `double` is Dafny `real`, and C `int` is unbounded `int`.
- The conversions that differ from Dafny's are written out in `CNum`. These are truncation toward zero for `(int)x`, C99 `/` and `%`, and a division `Quot` that guards its zero divisor.
- `sqrt` and `pow` cannot be defined over `real`. They are passed in as function values (`CNum.Libm`), and the facts a property needs about them are preconditions.

Pointers become values:

- Every struct is an immutable datatype, and every routine that fills a struct through a pointer is a function that returns the new value.
- The module store is an arena of element lists indexed by module number. This keeps the by-reference sharing of `Module_module`.
- Module traversal carries a fuel bound because the C has no cycle guard.

Rasterisers:

- Each rasteriser is split into the sequence of pixel writes it issues, as fragments, and the bounds-checked writes that apply them (`Raster.Paint`, `Raster.DepthTest`).
- Its contract then says which pixels change, to what, and which do not.

The files follow the C sources one to one, and each file's doc comment names its C file:

- `numeric`, `colors`, `geometry` (point.c, vector.c), `images` (image.c), `raster`;
- `lines` (line.c), `drawstate`, `lighting`, `polygons`, `polylines`, `matrix`, `views`;
- `circles`, `ellipses`, `edges`, `edgetable` and `scanfill` (scanlineSkeleton.c);
- `modules`, `moduledraw` and `drawproperties` (module.c);
- `rayobjects`, `raymodule` and `ray` (ray_object.c, ray_module.c, ray.c).

## Model

| member | source | states |
|---|---|---|
| CNum.Trunc | lib/point.c:33-37 | `(int)x` truncates toward zero: the result lies within 1 of x, on the same side of 0 as x, and never farther from 0 than x |
| CNum.CDiv | lib/view.c:41 | C99 integer division: for non-negative dividend and positive divisor q·b ≤ a < q·b + b; the sign of the quotient follows the operands' signs |
| CNum.CRem | lib/line.c:536 | C99 `%`: a == CDiv(a,b)·b + m, with m in [0, abs(b)) for a ≥ 0 and in (-abs(b), 0] for a < 0 |
| Colors.ColorSumMonoid | lib/image.c:286-290 | Color_sum is channel-wise addition: black is its unit, and it is commutative and associative |
| Geometry.PointSet2D | lib/point.c:17-22 | Point_set2D gives (x, y, 0, 1) |
| Geometry.PointSet | lib/point.c:25-30 | Point_set gives (x, y, z, 1) |
| Geometry.PointNormalize | lib/point.c:57-62 | Point_normalize sets w to 1, keeps z, and the new x and y times the old w give the old x and y |
| Geometry.PointNormalizeIdempotent | lib/point.c:57-62 | normalising twice equals normalising once |
| Geometry.PointNormalizeFixes | lib/point.c:57-62 | a point with w = 1 is unchanged by Point_normalize |
| Geometry.PointDist2AsWrittenIsWrong | lib/point.c:65-69 | the as-written Point_dist2 gives 6 from the origin to (2,1,0) and 5 the other way; the true squared distance is 5 |
| Geometry.PointDist2Intended | lib/point.c:65-69 | the intended squared distance is never negative and is 0 between equal points |
| Geometry.PointDist2IntendedSymmetric | lib/point.c:65-69 | the intended squared distance does not depend on argument order |
| Geometry.PointDist | lib/point.c:72-74 | Point_dist is sqrt of the correctly spelled squared distance |
| Geometry.VectorSet | lib/vector.c:17-22 | Vector_set gives (x, y, z, 0) |
| Geometry.LenSquaredIsDot | lib/vector.c:48-50 | Vector_lenSquared(v) equals Vector_dot(v, v), is never negative and is 0 for the zero vector |
| Geometry.Length | lib/vector.c:42-44 | Vector_length is sqrt of the squared length |
| Geometry.Normalize | lib/vector.c:54-63 | a vector of length 0 is returned unchanged; otherwise w becomes 0 and x, y, z times the length give the old components |
| Geometry.NormalizeUnit | lib/vector.c:54-63 | normalising a vector of length 1 changes only w |
| Geometry.NormalizeKeepsOrthogonal | lib/vector.c:54-63 | normalising two orthogonal vectors leaves them orthogonal |
| Geometry.Cross | lib/vector.c:73-77 | Vector_cross's x, y, z are a.y·b.z − a.z·b.y, a.z·b.x − a.x·b.z and a.x·b.y − a.y·b.x, so the result is orthogonal to both arguments; its w is the destination's own |
| Geometry.CrossLagrange | lib/vector.c:73-77 | the squared length of a × b is \|a\|²·\|b\|² − (a·b)² |
| Geometry.CrossAntiCommutes | lib/vector.c:73-77 | swapping the arguments of Vector_cross negates x, y and z |
| Geometry.Sum | lib/vector.c:81-85 | Vector_sum's scalar product with every vector is the sum of its arguments' scalar products, and its w is the destination's own |
| Geometry.DotDetermines | lib/vector.c:67-69 | two vectors with the same scalar products against the three axes have the same x, y and z |
| Geometry.SumComponents | lib/vector.c:81-85 | Vector_sum's x, y, z are the component sums, and summing is associative in them |
| Geometry.Scale | lib/vector.c:89-93 | Vector_scale scales every scalar product by k, and its w is the destination's own |
| Geometry.DotSumSymmetric | lib/vector.c:67-69 | Vector_dot is symmetric and Vector_sum commutes |
| Images.IndexInRange | lib/image.c:180-249 | pixel (r, c) of an r × c image lives at data[r·cols + c], inside the array |
| Images.IndexInjective | lib/image.c:180-249 | distinct in-range coordinates address distinct elements of data |
| Images.Setf | lib/image.c:217-219 | Image_setf replaces pixel (r, c) and no other |
| Images.Getc | lib/image.c:187-189 | Image_getc reads channel b of pixel (r, c) |
| Images.Setc | lib/image.c:224-226 | Image_setc writes channel b of pixel (r, c); the other channels, alpha, depth and every other pixel are kept |
| Images.GetZ | lib/image.c:201-206 | Image_getz returns the stored depth in range and 0 out of range |
| Images.SetZ | lib/image.c:238-242 | Image_setz changes only the depth of the addressed pixel, and is a no-op out of range |
| Images.GetColor | lib/image.c:269-282 | Image_getColor returns the pixel's rgb in range and black out of range |
| Images.SetColor | lib/image.c:295-305 | Image_setColor changes only the rgb of the addressed pixel, with no clamping, and is a no-op out of range |
| Images.SetGetRoundTrip | lib/image.c:201-305 | getColor after setColor returns the colour written, getz after setz the depth written, and each setter leaves the other field alone |
| Images.Alloc | lib/image.c:36-51 | Image_alloc gives rows × cols pixels, each with alpha 0 and depth 1.0 |
| Images.Clear | lib/image.c:70-77 | Image_clear leaves no data and zero rows and columns |
| Images.Reset | lib/image.c:319-329 | Image_reset leaves every pixel black with depth 1.0 and keeps alpha |
| Images.PpmChannel | lib/image.c:157-166 | a channel is written as (unsigned char)(255·min(v, 1)): the byte is in [0, 255], 255 for v ≥ 1, the truncation of 255·v in between, and 0 for small negative v |
| Images.PpmChannelMonotone | lib/image.c:157-166 | a larger channel value never gives a smaller byte |
| Images.PpmBytes | lib/image.c:157-167 | Image_writePPM produces one byte triple per pixel, in data order, each channel converted as above |
| Raster.PaintLastWins | lib/image.c:295-305 | after a sequence of Image_setColor calls, a pixel has the colour of the last write aimed at it, or keeps its colour if none was; alpha and depth never change |
| Raster.PaintUniform | lib/image.c:295-305 | painting writes of a single colour colours exactly the pixels some write aims at |
| Raster.HitsAppend | lib/image.c:295-305 | a pixel is aimed at by two batches of writes in sequence iff by one of them |
| Raster.Spread | lib/circle.c:32-50 | the writes of a loop that issues a batch per loop state aim at exactly the pixels some state's batch aims at, and every write comes from some state |
| Raster.PaintSpread | lib/circle.c:32-50 | painting such a loop's writes in one colour colours exactly the pixels some loop state aims at; depths are kept |
| Raster.RowPair | lib/circle.c:182-191 | the fill loop of Circle_fillPoints writes exactly rows r1 and r2 over the columns lo ≤ c < hi |
| Raster.DepthTestKeepsNearest | lib/line.c:286-296 | after depth-tested writes, each pixel holds the greatest of its old depth and the depths aimed at it; it is untouched if nothing was nearer, and otherwise takes the colour of the first write that reached the greatest depth; alpha never changes |
| Lines.LineSet2D | lib/line.c:14-23 | Line_set2D gives endpoints (x0, y0, 0, 1) and (x1, y1, 0, 1) with the z-buffer flag 1 |
| Lines.LineSet | lib/line.c:26-30 | Line_set stores the endpoints verbatim with the z-buffer flag 1 |
| Lines.LineNormalize | lib/line.c:33-42 | Line_normalize sets both w to 1, keeps z and the flag, and the new x and y times the old w give the old values |
| Lines.LineNormalizeIdempotent | lib/line.c:33-42 | normalising a line twice equals normalising it once |
| Lines.SetZBuffer | lib/line.c:46-48 | Line_zBuffer sets only the flag |
| Lines.Walk | lib/line.c:79-99 | the first-octant loop runs dx times; the minor offset it records at step i is the closed form, and it never decreases and never skips |
| Lines.MinorStep | lib/line.c:83-97 | consecutive minor offsets of the octant walk differ by 0 or 1 |
| Lines.Orient | lib/line.c:57-75 | the rasterisers start from the endpoint with the smaller y and negate dx and dy when dy < 0, so dy ≥ 0 and the start and end are the two endpoints |
| Lines.ShapesAgree | lib/line.c:78-236 | the branch tests of Line_drawDashed and of the other rasterisers pick the same branch, and each branch covers the directions it handles (horizontal, vertical, the four octants) |
| Lines.OctantParams | lib/line.c:79-190 | each octant branch sets up an error term and increments that satisfy the walk's requirements |
| Lines.Path | lib/line.c:78-236 | a line visits max(abs(dx), abs(dy)) cells |
| Lines.PathConnected | lib/line.c:78-236 | successive visited cells differ and are at most one column and one row apart |
| Lines.FirstOctantTracksLine | lib/line.c:79-99 | in the first octant, step i is in column x + i, and its row offset k is the one with k < (i + 1/2)·dy/dx ≤ k + 1 |
| Lines.PathSymmetric | lib/line.c:57-75 | for a line that is neither horizontal nor vertical, swapping the endpoints visits the same cells |
| Lines.Ends | lib/line.c:57-64 | the rasterisers truncate the endpoint coordinates to int |
| Lines.SelectHits | lib/line.c:81-99 | the writes of the kept steps of a walk, shifted by an offset, aim at exactly those shifted cells |
| Lines.NoZFragsHit | lib/line.c:78-236 | Line_drawNoZBuffer aims at a pixel iff a walked cell inside the image, shifted by the branch's offset, lands on it |
| Lines.DrawNoZBuffer | lib/line.c:51-236 | Line_drawNoZBuffer colours exactly those pixels; depths and all other pixels are unchanged |
| Lines.DashFragsHit | lib/line.c:533-641 | Line_drawDashed aims at a pixel iff some step i of the walk with i mod (gap + gapSize) < gap (C remainder) is at that pixel |
| Lines.DrawDashed | lib/line.c:507-641 | Line_drawDashed colours exactly those pixels; depths and every other pixel are unchanged |
| Lines.SolidDash | lib/line.c:533-641 | with gapSize 0 every step of the walk is drawn |
| Lines.ZFrags | lib/line.c:240-296 | the depth-tested rasteriser issues one write per visited cell, with 1/z = start + i·step |
| Lines.DrawZBuffer | lib/line.c:240-489 | Line_drawZBuffer never lowers a depth; a pixel that changes lies on the path, takes colour c and a strictly greater depth; no visited cell ends with a depth below that of a write aimed at it |
| Lines.Draw | lib/line.c:491-498 | Line_draw runs the depth-tested rasteriser exactly when the flag is 1, and otherwise leaves depths alone |
| Lines.DrawAll | lib/polygon.c:199-215 | drawing a list of segments with the z-buffer off leaves every depth unchanged |
| Lines.PointDraw | lib/point.c:33-37 | Point_draw colours pixel ((int)y, (int)x) when it is in range, and nothing else |
| DrawStates.Create | lib/drawstate.c:12-25 | DrawState_create gives white colour, body and surface, coefficient 0, Gouraud shading, z-buffer on and the viewer at the origin |
| DrawStates.SetColor | lib/drawstate.c:28-30 | DrawState_setColor changes only color |
| DrawStates.SetBody | lib/drawstate.c:33-35 | DrawState_setBody changes only body |
| DrawStates.SetSurface | lib/drawstate.c:38-40 | DrawState_setSurface changes only surface |
| DrawStates.SetSurfaceCoeff | lib/drawstate.c:43-45 | DrawState_setSurfaceCoeff changes only surfaceCoeff |
| DrawStates.SettersCommute | lib/drawstate.c:28-45 | setters of different fields commute, and of two writes to one field the last wins |
| DrawStates.WidenLowIsMin | lib/drawstate.c:79-89 | widening the low bound by a corner takes the minimum with the corner's truncated coordinate |
| DrawStates.WidenHighIsMax | lib/drawstate.c:79-89 | widening the high bound takes the maximum |
| DrawStates.TextureBox | lib/drawstate.c:76-89 | Texture_value's box spans from the least to the greatest truncated corner coordinate in x and in y |
| DrawStates.TextureValue | lib/drawstate.c:95-109 | Texture_value times the box area is the sum of Image_getColor over the box, with texels outside the image counting as black |
| DrawStates.ColumnSumUniform | lib/drawstate.c:95-104 | a column of texels of one colour k sums to k repeated over its height |
| DrawStates.BoxSumUniform | lib/drawstate.c:95-104 | a box of texels of one colour sums to that colour repeated over its area |
| DrawStates.MeanOfUniformBox | lib/drawstate.c:95-109 | the mean over a non-empty box of texels of colour k is k |
| DrawStates.TextureValueUniform | lib/drawstate.c:70-109 | Texture_value over a non-empty box whose texels all have colour k returns k |
| Lighting.LightInit | lib/lighting.c:11-26 | Light_init gives type none, white, direction (1,0,0), position at the origin, cutoff 0 and sharpness 32, keeping only the two w's of the slot |
| Lighting.LightCopy | lib/lighting.c:30-49 | Light_copy copies type, colour, cutoff, sharpness and the x, y, z of direction and position; it equals the source whenever the two w's already agree |
| Lighting.LightInitIdempotent | lib/lighting.c:11-26 | Light_init twice is Light_init once, and it forgets every field but the two w's |
| Lighting.Create | lib/lighting.c:53-62 | Lighting_create has no lights in use, and every one of the MAX_LIGHTS slots is default-initialised |
| Lighting.Init | lib/lighting.c:66-68 | Lighting_init resets only the count |
| Lighting.Add | lib/lighting.c:75-111 | Lighting_add appends only while fewer than MAX_LIGHTS−1 lights are in use, and otherwise changes nothing; the new slot has the given type, cutoff and sharpness, and takes the default colour, direction and position when the argument is NULL; no other slot changes |
| Lighting.AddNeverExceedsCap | lib/lighting.c:80-110 | starting at or below MAX_LIGHTS−1, the count never exceeds MAX_LIGHTS−1 after an add |
| Lighting.Contribution | lib/lighting.c:133-196 | none, direct and spot lights add nothing; an ambient light adds Cl·Cb whatever N, V and p are; a point light facing away from a one-sided surface adds nothing, and otherwise adds Cb·Cl·(L·N) + Cl·Cs·((L·N + V·N)/2)^s, with both dot products negated for a two-sided surface facing away |
| Lighting.HalfWayDot | lib/lighting.c:169-176 | the halfway vector's scalar product with N is the mean of L·N and V·N |
| Lighting.TwoSidedEitherFace | lib/lighting.c:178-191 | a point light lights a two-sided surface the same whichever way its normal points |
| Lighting.Shading | lib/lighting.c:119-203 | with no lights in use the result is black |
| Lighting.InertLightsAddNothing | lib/lighting.c:137-195 | with only none, direct and spot lights in use the sum is black |
| Lighting.NoPointLightsIsAmbient | lib/lighting.c:133-159 | without point lights the result is the sum of the ambient terms, independent of N, V and p |
| Lighting.SingleAmbient | lib/lighting.c:140-157 | a single ambient light gives exactly Cl·Cb |
| Lighting.AddThenShade | lib/lighting.c:75-203 | adding a light adds exactly its own contribution to the shading of every point (the sum is unclamped) |
| Lighting.SumLightsPrefix | lib/lighting.c:133 | the sum depends only on the lights in use |
| Lighting.Diffuse | lib/lighting.c:207-240 | Light_diffuse is black for a one-sided surface facing away, Cb·Cl·abs(L·N) for a two-sided one, and Cb·Cl·(L·N) when facing the light |
| Lighting.DiffuseIsPointContribution | lib/lighting.c:207-240 | Light_diffuse equals a point light's contribution with a black specular colour |
| Polygons.SetNULL | lib/polygon.c:99-109 | Polygon_setNULL gives no vertices, every array NULL, oneSided 0 and zBuffer 1 |
| Polygons.Create | lib/polygon.c:17-30 | Polygon_create gives no vertices, NULL vertex attributes, oneSided 0 and zBuffer 1 |
| Polygons.Set | lib/polygon.c:113-127 | Polygon_set makes the vertices the first numV points of vlist and changes nothing else |
| Polygons.SetZBuffer | lib/polygon.c:131-133 | Polygon_zBuffer sets only the flag |
| Polygons.Clear | lib/polygon.c:61-82 | Polygon_clear leaves no vertices, NULL normal and colour arrays, oneSided 0 and zBuffer 1, and keeps the texture pointer and the world arrays |
| Polygons.Copy | lib/polygon.c:137-175 | Polygon_copy copies vertices, zBuffer and oneSided, and each of normal, colour and texture exactly when the source has it; otherwise the destination keeps what the conditional clear left |
| Polygons.CopyFull | lib/polygon.c:137-175 | copying a polygon that has all three arrays reproduces it, apart from the destination's world arrays |
| Polygons.Normalize | lib/polygon.c:270-279 | Polygon_normalize sets every vertex's w to 1 and keeps z; the new x and y times the old w give the old values |
| Polygons.NormalizeIdempotent | lib/polygon.c:270-279 | normalising twice equals normalising once |
| Polygons.SetColors | lib/polygon.c:371-385 | Polygon_setColors stores the first numV colours and changes nothing else |
| Polygons.SetNormals | lib/polygon.c:387-400 | Polygon_setNormals stores the first numV normals and changes nothing else |
| Polygons.SetTexture | lib/polygon.c:402-413 | Polygon_setTexture stores the first numV texture coordinates and changes nothing else |
| Polygons.SetAll | lib/polygon.c:462-475 | Polygon_setAll stores vertices, colours, normals and texture coordinates (numV of each) and both flags |
| Polygons.CalculateNormals | lib/polygon.c:428-455 | Polygon_calculateNormals sets numV identical normals with w = 0, each the cross product of the edges v0−v1 and v1−v2 and orthogonal to both |
| Polygons.CalculatedNormalLength | lib/polygon.c:428-455 | the computed normal's squared length is \|e1\|²·\|e2\|² − (e1·e2)² of the two edges |
| Polygons.SetWorld | lib/polygon.c:477-493 | Polygon_setWorld makes wNormal and wVertex element-wise copies of the first numV normals and vertices |
| Polygons.AverageNormal | lib/polygon.c:304-317 | the flat branch's average normal times nVertex is the sum of the normals |
| Polygons.AverageOfEqualNormals | lib/polygon.c:304-317 | when all normals are equal, their average is that normal |
| Polygons.Shade | lib/polygon.c:286-356 | Polygon_shade gives every vertex a colour and normalises the normals in place (flat once, Gouraud twice); ShadeFlat gives every vertex the one colour shaded from the normalised average of the unit normals, with the view vector of the vertex one past the end, and stores it in the draw state; ShadeGouraud shades each vertex from its own normal and position |
| Polygons.FlatOfEqualUnitNormals | lib/polygon.c:304-331 | when every normal is the same unit vector, flat shading uses that vector as the face normal |
| Polygons.GouraudWithoutPointLights | lib/polygon.c:342-356 | under Gouraud shading with no point lights, every vertex gets the sum of the ambient terms |
| Polygons.Frame | lib/polygon.c:191-215 | Polygon_drawFrame draws exactly nVertex segments, one per consecutive pair and then last to first, each with the polygon's z-buffer flag |
| Polygons.FrameClosed | lib/polygon.c:191-215 | the frame is a closed loop: each segment starts where the previous one ends, the first where the last ends |
| Polygons.FrameOfCopy | lib/polygon.c:137-215 | a copy has the same frame as the original |
| Polygons.DrawFrame | lib/polygon.c:191-215 | drawing the frame with the z-buffer off never changes a depth |
| Polylines.SetNULL | lib/polyline.c:16-64 | Polyline_create and Polyline_setNULL give no vertices |
| Polylines.Set | lib/polyline.c:67-83 | Polyline_set makes the vertices the first numV points of vlist |
| Polylines.Clear | lib/polyline.c:52-58 | Polyline_clear leaves no vertices |
| Polylines.Copy | lib/polyline.c:86-95 | Polyline_copy copies the vertices and keeps the destination's own flag |
| Polylines.SetZBuffer | lib/polyline.c:150-152 | Polyline_zBuffer sets only the flag |
| Polylines.Normalize | lib/polyline.c:106-115 | Polyline_normalize sets every vertex's w to 1 and keeps z; the new x and y times the old w give the old values |
| Polylines.NormalizeIdempotent | lib/polyline.c:106-115 | normalising twice equals normalising once |
| Polylines.Frame | lib/polyline.c:129-146 | Polyline_drawFrame draws numV−1 segments between consecutive vertices, with no closing segment, each built by Line_set with flag 1 |
| Polylines.FrameChained | lib/polyline.c:137-146 | each segment starts where the previous one ends |
| Polylines.FrameExtend | lib/polyline.c:137-146 | appending a vertex appends exactly one segment |
| Matrices.Flat | lib/matrix.c:43-46 | Matrix_get's row-major layout: entry (r, c) is double number 4r + c of the sixteen |
| Matrices.Set | lib/matrix.c:48-51 | Matrix_set writes entry (r, c) and leaves the other fifteen |
| Matrices.Clear | lib/matrix.c:25-31 | Matrix_clear makes all sixteen entries 0 |
| Matrices.Identity | lib/matrix.c:34-41 | Matrix_identity puts 1 on the diagonal and 0 elsewhere |
| Matrices.Transpose | lib/matrix.c:63-75 | the six swaps of Matrix_transpose leave entry (i, j) holding the old entry (j, i) |
| Matrices.TransposeInvolution | lib/matrix.c:63-75 | transposing twice gives the matrix back, and the diagonal never moves |
| Matrices.MultiplyEntry | lib/matrix.c:77-113 | entry (i, j) of Matrix_multiply's result is row i of left times column j of right |
| Matrices.IdentityUnit | lib/matrix.c:77-113 | the identity is a left and a right unit of the product |
| Matrices.XformComp | lib/matrix.c:114-124 | component i of Matrix_xformPoint (and Matrix_xformVector) is row i of the matrix times the point |
| Matrices.XformIdentity | lib/matrix.c:114-124 | the identity leaves every point unchanged |
| Matrices.XformMultiply | lib/matrix.c:77-124 | transforming by a product is transforming by the right factor and then by the left one |
| Matrices.Dot4Mix | lib/matrix.c:114-124 | a row's dot product with a point is linear in the row |
| Matrices.Scale2DActs | lib/matrix.c:183-197 | the matrix Matrix_scale2D premultiplies multiplies x by sx and y by sy |
| Matrices.RotateZActs | lib/matrix.c:199-216 | the Matrix_rotateZ matrix sends (x, y) to (cos·x − sin·y, sin·x + cos·y) |
| Matrices.Translate2DActs | lib/matrix.c:218-233 | the Matrix_translate2D matrix adds tx·w to x and ty·w to y |
| Matrices.Translate2DRows | lib/matrix.c:218-233 | Matrix_translate2D adds tx and ty times the homogeneous row to rows 0 and 1 |
| Matrices.Translate2DOnIdentity | lib/matrix.c:218-233 | translating the identity puts tx at entry 3 and ty at entry 7 |
| Matrices.Translate2DAfter | lib/matrix.c:218-233 | transforming by the translated matrix is transforming by the old one and then moving by (tx·w, ty·w) |
| Matrices.Shear2DActs | lib/matrix.c:235-254 | the Matrix_shear2D matrix adds shx·y to x and shy·x to y |
| Matrices.TranslateActs | lib/matrix.c:256-270 | the Matrix_translate matrix moves a point by (tx, ty, tz) times its w |
| Matrices.ScaleActs | lib/matrix.c:272-286 | the Matrix_scale matrix multiplies x, y, z by sx, sy, sz |
| Matrices.RotateXActs | lib/matrix.c:288-304 | the Matrix_rotateX matrix turns (y, z) and keeps x and w |
| Matrices.RotateYActs | lib/matrix.c:306-321 | the Matrix_rotateY matrix turns (z, x) and keeps y and w |
| Matrices.RotateXYZ | lib/matrix.c:323-342 | row i of Matrix_rotateXYZ's result combines rows 0-2 of m with the weights of u, v or w, and the homogeneous row is kept |
| Matrices.RotateXYZActs | lib/matrix.c:323-342 | the axis alignment's new coordinates are the point's dot products with u, v and w |
| Matrices.ShearZActs | lib/matrix.c:344-357 | the Matrix_shearZ matrix adds shx·z to x and shy·z to y |
| Matrices.PerspectiveRows | lib/matrix.c:359-379 | Matrix_perspective replaces the homogeneous row by row 2 over d |
| Matrices.PerspectiveActs | lib/matrix.c:359-379 | the perspective keeps x, y, z and makes w = z / d |
| Matrices.Apply | lib/matrix.c:183-379 | every builder premultiplies its own fixed matrix |
| Matrices.StepActs | lib/matrix.c:183-379 | each builder's matrix moves points as the step's coordinate formula says |
| Matrices.ApplyActs | lib/matrix.c:77-379 | transforming by a matrix after one builder call is transforming by the old matrix and then moving by that step |
| Matrices.ApplyAllActs | lib/matrix.c:77-379 | transforming by the matrix a sequence of builder calls produces is moving the point through the steps in the order they were called |
| Matrices.MoveAllAppend | lib/matrix.c:183-379 | moving through two sequences of steps is moving through their concatenation |
| Matrices.XformLine | lib/matrix.c:172-181 | Matrix_xformLine transforms both endpoints as points and keeps the flag |
| Matrices.XformPolyline | lib/matrix.c:153-169 | Matrix_xformPolyline transforms every vertex and keeps the count and the flag |
| Matrices.XformPolygon | lib/matrix.c:136-151 | Matrix_xformPolygon transforms vertex i as a point and normal i as a vector for every vertex, and changes nothing else |
| Matrices.XformPolylineCompose | lib/matrix.c:77-169 | transforming a polyline by b and then by a is transforming it by a × b |
| Matrices.XformPolygonCompose | lib/matrix.c:77-151 | transforming a polygon by b and then by a is transforming it by a × b |
| Views.ViewHeight | lib/view.c:35 | dy is chosen so that dy / dx equals screeny / screenx |
| Views.ViewScale | lib/view.c:39 | the x scale factor maps the view width dx onto screenx pixels |
| Views.ViewScaleUniform | lib/view.c:35-39 | with a non-degenerate view the y factor is exactly the negated x factor: the view flips y and does not distort |
| Views.View2DMapsPoint | lib/view.c:34-41 | Matrix_setView2D sends a point to its offset from the view reference point along the view's x axis and its perpendicular, scaled, and shifted to the image centre (integer halves of the screen size) |
| Views.View2DMovesPoint | lib/view.c:37-40 | the four builder steps of Matrix_setView2D move a point as View2DMapsPoint states |
| Views.View2DCentersVrp | lib/view.c:34-41 | the view reference point lands on the centre pixel |
| Views.ViewAxes | lib/view.c:58-62 | the two cross products give u, vup and vpn pairwise orthogonal, vpn unchanged |
| Views.UnitAxes | lib/view.c:72-75 | normalising the three axes keeps them pairwise orthogonal |
| Views.ScaledFocal | lib/view.c:87-95 | the focal length becomes d / (d + b) |
| Views.CanonicalVrp | lib/view.c:64-91 | the translation, alignment, centre-of-projection shift and volume scale put the view reference point on the z axis at depth d / (d + b) |
| Views.ProjectionOfFocalPoint | lib/view.c:97-108 | perspective, image scale and centring send that point to the centre pixel, keeping depth and w = 1 |
| Views.View3DCentersVrp | lib/view.c:45-110 | Matrix_setView3D sends the view reference point to the centre pixel at depth d / (d + b) with w = 1 |
| Circles.Octant | lib/circle.c:23-51 | Circle_draw's loop visits exactly the states of the midpoint walk from (−radius, −1), and at most radius + 1 of them |
| Circles.DecisionSteps | lib/circle.c:39-48 | both updates of the decision variable keep it equal to the midpoint decision value at the new point |
| Circles.OctantUnique | lib/circle.c:23-51 | the walk is determined by the radius alone |
| Circles.OctantInQuadrant | lib/circle.c:32-48 | for a radius of at least 1 every visited point lies left of and above the centre |
| Circles.PlotPoints | lib/circle.c:87-96 | Circle_plotPoints writes eight pixels, all in the given colour |
| Circles.PlotPointsSymmetric | lib/circle.c:87-96 | the eight pixels are closed under mirroring the column, mirroring the row and swapping along the diagonal |
| Circles.Draw | lib/circle.c:23-51 | Circle_draw colours exactly the in-image reflections of the walk's points and changes no depth and no other pixel |
| Circles.FillPoints | lib/circle.c:179-192 | Circle_fillPoints as written fills on four rows the columns from the left reflection up to two short of the right one |
| Circles.FillPointsMissesOutline | lib/circle.c:179-192 | an outline pixel Circle_plotPoints draws is missed by the fill while its mirror image is filled |
| Circles.FillPointsIntended | lib/circle.c:179-192 | the corrected spans run from the left reflection to the right reflection inclusive |
| Circles.FillPointsIntendedCoversOutline | lib/circle.c:179-192 | the corrected spans are symmetric about the centre column and cover the eight outline pixels |
| Circles.DrawFill | lib/circle.c:147-192 | Circle_drawFill colours exactly the in-image pixels of the spans as written of the walk's points |
| Circles.DrawFillIntended | lib/circle.c:147-192 | the corrected fill colours exactly the in-image pixels of the corrected spans |
| Circles.FillPointsWithinIntended | lib/circle.c:179-192 | every pixel of a span as written is in the corrected span, which adds only the columns cx − x − 1 and cx − y − 1 |
| Ellipses.Quadrant | lib/ellipse.c:34-85 | Ellipse_draw's two loops visit the midpoint states, x stepping by one in the first region and y by one in the second, ending on y = 0 |
| Ellipses.Region1 | lib/ellipse.c:55-68 | the first loop runs while px < py, each iteration one Step1, keeping px and py equal to 2·Ry²·(−x) and 2·Rx²·(−y) |
| Ellipses.Region2 | lib/ellipse.c:69-84 | the second loop runs while y < 0, each iteration one Step2, and stops exactly on y = 0 |
| Ellipses.Step1Facts | lib/ellipse.c:55-68 | one first-region iteration keeps the slope terms, steps x out by one, keeps y at or above the centre and shrinks py − px |
| Ellipses.Step2Facts | lib/ellipse.c:71-84 | one second-region iteration keeps the slope terms and steps y in by one without passing 0 |
| Ellipses.GuardMeansAbove | lib/ellipse.c:55 | while the first loop runs the point is above the centre |
| Ellipses.PlotPoints | lib/ellipse.c:25-30 | Ellipse_plotPoints writes four pixels in the given colour |
| Ellipses.PlotPointsSymmetric | lib/ellipse.c:25-30 | the four pixels are closed under mirroring the column and mirroring the row |
| Ellipses.Draw | lib/ellipse.c:34-85 | Ellipse_draw colours exactly the in-image reflections of the walk's points and changes no depth and no other pixel |
| Ellipses.FillPoints | lib/ellipse.c:144-151 | Ellipse_fillPoints as written fills on two rows the columns from the left reflection up to two short of the right one |
| Ellipses.FillPointsMissesOutline | lib/ellipse.c:144-151 | an outline pixel is missed by the fill while its mirror image is filled |
| Ellipses.FillPointsIntended | lib/ellipse.c:144-151 | the corrected span runs from the left reflection to the right reflection inclusive |
| Ellipses.FillPointsIntendedCoversOutline | lib/ellipse.c:144-151 | the corrected span is symmetric about the centre column and covers the four outline pixels |
| Ellipses.DrawFill | lib/ellipse.c:89-151 | Ellipse_drawFill colours exactly the in-image pixels of the spans as written of the walk's points |
| Ellipses.DrawFillIntended | lib/ellipse.c:89-151 | the corrected fill colours exactly the in-image pixels of the corrected spans |
| Ellipses.FillPointsWithinIntended | lib/ellipse.c:144-151 | every pixel of a span as written is in the corrected span, which adds only the column cx − x − 1 |
| Edges.Insert | lib/scanlineSkeleton.c:31-46 | insertEdge adds exactly the new edge to the list: one longer, same multiset plus the edge |
| Edges.InsertPos | lib/scanlineSkeleton.c:36-43 | the walk stops at the first edge whose xIntersect is greater than the new one's, or at the end |
| Edges.InsertSplices | lib/scanlineSkeleton.c:31-46 | insertEdge splices the new edge in at that place and keeps the order of the others |
| Edges.InsertKeepsSorted | lib/scanlineSkeleton.c:31-46 | on a sorted list the new edge goes after every edge with an equal or smaller key and before every greater one, and the list stays sorted |
| Edges.InsertAll | lib/scanlineSkeleton.c:347-356 | inserting a list of edges one by one keeps exactly those edges and the old ones |
| Edges.InsertAllKeepsSorted | lib/scanlineSkeleton.c:580-590 | inserting edges into a sorted list leaves it sorted |
| Edges.BuildActive | lib/scanlineSkeleton.c:346-356 | buildActiveList moves the row's bucket into the active list, keeping every edge and the sorted order |
| Edges.Resort | lib/scanlineSkeleton.c:579-590 | resortActiveList produces a sorted permutation of the active list |
| Edges.InsertAtEnd | lib/scanlineSkeleton.c:31-46 | an edge whose key is at least every key already in the list goes at its end |
| Edges.InsertAllSorted | lib/scanlineSkeleton.c:579-590 | the re-insertion is stable: an already sorted list comes back in the same order, equal keys included |
| Edges.ResortSortedIsIdentity | lib/scanlineSkeleton.c:579-590 | resorting a sorted active list changes nothing |
| Edges.AdvanceTimesLinear | lib/scanlineSkeleton.c:554-570 | after k updates each running value of a surviving edge has moved k of its increments and the increments and yUpper are unchanged |
| Edges.AdvanceTimesDepth | lib/scanlineSkeleton.c:555-556 | after k updates xIntersect and zIntersect have moved k steps |
| Edges.Update | lib/scanlineSkeleton.c:543-577 | updateActiveList leaves only edges whose yUpper is beyond the scanline |
| Edges.UpdateSurvivors | lib/scanlineSkeleton.c:543-577 | exactly the edges ending after the scanline survive, each advanced once |
| Edges.UpdateAppend | lib/scanlineSkeleton.c:543-577 | the survivors keep their relative order |
| Edges.UpdateNoneEnding | lib/scanlineSkeleton.c:543-577 | when no edge ends on the scanline every edge is advanced in place |
| EdgeTable.RoundRow | lib/scanlineSkeleton.c:57-58 | (int)(y + 0.5) of a non-negative y is the truncation of y or one more |
| EdgeTable.Ceil | lib/scanlineSkeleton.c:180 | ceil(y) is the least integer at or above y |
| EdgeTable.StartOffset | lib/scanlineSkeleton.c:154-178 | the distance above y1 at which makeEdgeRec first samples an edge is never negative |
| EdgeTable.StartOffsetMissesRow | lib/scanlineSkeleton.c:154-158 | an edge starting at y1 = 0.5 is filed in row 1 but sampled at the centre of row 0 |
| EdgeTable.StartOffsetIntended | lib/scanlineSkeleton.c:154-178 | the corrected offset reaches exactly the centre of the edge's first row |
| EdgeTable.StartOffsetOnlyMidpointsDiffer | lib/scanlineSkeleton.c:154-178 | as written and corrected offsets agree except when y1 is a half-integer |
| EdgeTable.PerspSpansEdge | lib/scanlineSkeleton.c:80-138 | stepping a/z by its per-scan step over the height of the edge goes from a1/z1 to a2/z2 |
| EdgeTable.LerpEnds | lib/scanlineSkeleton.c:76-77 | the linear interpolation passes through both ends of the segment |
| EdgeTable.LerpStep | lib/scanlineSkeleton.c:555-556 | one more unit of height adds one per-scan step |
| EdgeTable.Track | lib/scanlineSkeleton.c:159-183 | an attribute sampled off above y1 is its value on the segment there, and its step times the height is the change over the edge |
| EdgeTable.Interpolants | lib/scanlineSkeleton.c:80-176 | s/z and t/z start at their lower-end values moved off steps; t moves by the s step in the upper-half branch, as written at line 163 |
| EdgeTable.EdgeFrom | lib/scanlineSkeleton.c:154-183 | x and 1/z of the record are the segment's values off above the lower end, with slopes (x2 − x1)/(y2 − y1) and (1/z2 − 1/z1)/(y2 − y1) |
| EdgeTable.EdgeRows | lib/scanlineSkeleton.c:226-230 | a kept edge is filed in row RoundRow(y1) and stays active through RoundRow(y2) − 1, inside the image |
| EdgeTable.MakeEdgeRec | lib/scanlineSkeleton.c:54-237 | makeEdgeRec drops exactly the edges starting above the image or ending below its last row; a kept edge is filed in RoundRow(y1) with yUpper = RoundRow(y2) − 1 |
| EdgeTable.MakeEdgeRecIntended | lib/scanlineSkeleton.c:54-237 | the corrected makeEdgeRec drops and files exactly the same edges as the one as written |
| EdgeTable.MakeEdgeRecAgrees | lib/scanlineSkeleton.c:154-178 | unless y1 is a half-integer, makeEdgeRec as written and corrected build the same record |
| EdgeTable.StartOffsetAtMidpoint | lib/scanlineSkeleton.c:154-178 | for a half-integer y1 the offset as written lands on the centre of the row below the edge's first row |
| EdgeTable.MakeEdgeRecSamples | lib/scanlineSkeleton.c:54-237 | a kept edge starts x and 1/z at the segment's values at the centre of its first row, or of the row below when y1 is a half-integer, and steps them by the segment's slopes |
| EdgeTable.MakeEdgeRecIntendedSamples | lib/scanlineSkeleton.c:54-237 | the corrected record always starts at the centre of its first row |
| EdgeTable.EdgeSamplesRowCentres | lib/scanlineSkeleton.c:543-577 | after k scanlines a kept edge holds the segment's x and 1/z at the centre of row row + k, or of row row + k − 1 when y1 is a half-integer |
| EdgeTable.SampleAlong | lib/scanlineSkeleton.c:555-556 | an edge on the segment at height y0 with the segment's slopes is on it at y0 + k after k advances |
| EdgeTable.PairRec | lib/scanlineSkeleton.c:306-334 | iteration i of buildEdgeList makes no edge exactly when both ends round to the same row or makeEdgeRec drops it; otherwise makeEdgeRec's record, as written, of the edge from the lower end to the upper |
| EdgeTable.Table | lib/scanlineSkeleton.c:241-343 | buildEdgeList's table has one bucket per image row |
| EdgeTable.TableBuckets | lib/scanlineSkeleton.c:241-343 | each bucket is sorted and holds exactly the kept edges that start in its row |
| EdgeTable.MinRow | lib/scanlineSkeleton.c:287-316 | the minimum is at most (int)y of every vertex seen |
| EdgeTable.MaxRowAsWritten | lib/scanlineSkeleton.c:288-317 | as written the last vertex counts with (int)y + 1 and every loop vertex only with (int)y |
| EdgeTable.MaxRowIntended | lib/scanlineSkeleton.c:288-317 | the corrected bound counts every vertex with (int)y + 1 |
| EdgeTable.ClipRows | lib/scanlineSkeleton.c:339-340 | the clipped bounds start at 0 or later and end before the last image row is passed |
| EdgeTable.ScanRange | lib/scanlineSkeleton.c:286-340 | the corrected scan range lies inside the image |
| EdgeTable.ScanRangeCoversEdges | lib/scanlineSkeleton.c:241-343 | with the corrected bounds the scan loop visits every row on which a kept edge is active |
| EdgeTable.ScanRangeAsWritten | lib/scanlineSkeleton.c:286-340 | the scan range buildEdgeList computes lies inside the image and starts at the clipped minimum row |
| EdgeTable.MaxRowAsWrittenBelow | lib/scanlineSkeleton.c:288-317 | the bound as written never exceeds the corrected one |
| EdgeTable.ScanRangeAsWrittenWithin | lib/scanlineSkeleton.c:286-340 | the scan range as written starts with the corrected one and ends no later |
| EdgeTable.ScanRangeAsWrittenMissesRow | lib/scanlineSkeleton.c:288-317 | for a rectangle whose last vertex lies on its lower side, the bound as written stops before a row an edge is active on |
| ScanFill.StepsLinear | lib/scanlineSkeleton.c:512-527 | after k columns the running 1/z, s, t and colour have moved k increments: the fill is linear along the span |
| ScanFill.MakeSpan | lib/scanlineSkeleton.c:377-406 | a span runs from (int) of the left edge's x to (int) of the right edge's x and starts with the left edge's values |
| ScanFill.ArrivesAt | lib/scanlineSkeleton.c:384-396 | stepping from a1 by (a1 − a2)/(start − end) for end − start columns arrives at a2 |
| ScanFill.SpanReachesRightEdge | lib/scanlineSkeleton.c:377-529 | a left-to-right span interpolates exactly between its edges: at its end column the running 1/z, colour, s and t are the right edge's |
| ScanFill.ShadePixelDepth | lib/scanlineSkeleton.c:416-510 | writing a pixel never changes alpha; with the z-buffer on it keeps the pixel or takes the new, strictly greater 1/z; with it off the depth is untouched |
| ScanFill.Plot | lib/scanlineSkeleton.c:410-510 | one column of fillScan changes only its own pixel, and only inside the image |
| ScanFill.FillSpan | lib/scanlineSkeleton.c:410-529 | the column loop of a span touches no pixel off its row or outside [start, end) |
| ScanFill.FillSpanColumn | lib/scanlineSkeleton.c:410-529 | each in-image column of the span is one pixel write with the running values that many columns on |
| ScanFill.FillSpanDepth | lib/scanlineSkeleton.c:410-529 | over a span, alpha is kept and with the z-buffer on no depth decreases, off no depth changes |
| ScanFill.ConstantSpanPaints | lib/scanlineSkeleton.c:488-510 | with ShadeConstant and the z-buffer off every in-image column of the span gets the draw state's colour |
| ScanFill.FillScan | lib/scanlineSkeleton.c:359-532 | fillScan touches only the scanline's pixels inside the spans of the pairs (1st, 2nd), (3rd, 4th), …; an unpaired last edge is ignored |
| ScanFill.FillScanDepth | lib/scanlineSkeleton.c:359-532 | the depth discipline holds over the whole row |
| ScanFill.RowEdgesLive | lib/scanlineSkeleton.c:54-237 | every edge filed in a row's bucket stays active at least through that row |
| ScanFill.BucketLive | lib/scanlineSkeleton.c:241-343 | the edges in the finished table's bucket of a row are active at least through it |
| ScanFill.Scanline | lib/scanlineSkeleton.c:625-633 | one iteration of Polygon_drawFill's loop writes only its row, keeps the depth discipline and leaves a sorted active list of edges still live |
| ScanFill.DrawFill | lib/scanlineSkeleton.c:599-644 | Polygon_drawFill touches no row outside the scan range buildEdgeList computes, as written, and keeps the depth discipline |
| ScanFill.DrawShade | lib/scanlineSkeleton.c:651-692 | Polygon_drawShade draws the frame for ShadeFrame (no depth changes) and fills for every other method |
| Modules.CreateModule | lib/module.c:112-117 | Module_create gives a new, empty module and changes no existing one |
| Modules.Insert | lib/module.c:138-147 | Module_insert appends the element at the tail and changes no other module |
| Modules.InsertAllAppends | lib/module.c:138-147 | element order is insertion order: inserting a list one by one appends exactly that list |
| Modules.InsertKeepsWellFormed | lib/module.c:138-147 | inserting an element whose sub-module references are live keeps every reference live |
| Modules.ClearModule | lib/module.c:120-128 | Module_clear frees every element of the module and leaves no list to use |
| Modules.ClearedSubmoduleDangles | lib/module.c:120-128 | a module that still lists a cleared module as a sub-module refers to freed memory |
| Modules.ElementInit | lib/module.c:29-87 | Element_init keeps the tag; copies points, lines, circles, matrices, colours and the coefficient; deep-copies polylines and polygons; stores texture and module pointers; and stores nothing for ObjNone and ObjLight |
| Modules.Add | lib/module.c:151-209 | Module_module, Module_point, Module_line, Module_polyline, Module_polygon, Module_circle and Module_texture append one element with their own tag and change no other module (Module_sphere and Module_plane excepted) |
| Modules.AddAttribute | lib/module.c:688-709 | Module_color, Module_bodyColor, Module_surfaceColor and Module_surfaceCoeff append exactly one element with their own tag and the given value, and change no other module |
| Modules.AddIdentity | lib/module.c:216-221 | Module_identity appends an ObjIdentity element holding the identity |
| Modules.StepElement | lib/module.c:480-527 | the element Module_translate, Module_scale, Module_rotateX, Module_rotateY and Module_rotateXYZ make holds the builder applied to the identity, that is, the builder's own matrix |
| Modules.AddStep | lib/module.c:227-260 | Module_translate2D, Module_scale2D and Module_rotateZ append one ObjMatrix element holding the builder's own matrix |
| Modules.AddShear2DAsWritten | lib/module.c:266-273 | as written, Module_shear2D appends the matrix of a translation by (shx, shy) |
| Modules.Shear2DAsWrittenMovesOrigin | lib/module.c:266-273 | that matrix moves the origin to (shx, shy), which no shear does |
| Modules.AddShear2D | lib/module.c:262-273 | the corrected Module_shear2D appends the shear matrix |
| Modules.CubeCorners | lib/module.c:539-547 | Module_cube numbers eight corners |
| Modules.CubeLines | lib/module.c:548-582 | the wire-frame cube is twelve line elements |
| Modules.CubeLinesAreTheEdges | lib/module.c:548-582 | each of the twelve is a z-buffered line along a cube edge, and no edge repeats |
| Modules.Face | lib/module.c:584-683 | each solid face is a four-vertex polygon with four copies of its normal and the face's texture coordinates |
| Modules.FaceElement | lib/module.c:584-683 | Module_polygon stores a duplicate of that face |
| Modules.Cube | lib/module.c:533-685 | Module_cube appends to the given module only |
| Modules.FaceArrays | lib/module.c:584-683 | face f's vertices are its four corners and its normals four copies of its normal |
| Modules.FaceOnSurface | lib/module.c:584-683 | every solid face is a square on the cube's surface: its corners lie in the plane n·p = 1/2 of its outward unit normal n |
| Modules.FaceNormalsDistinct | lib/module.c:584-683 | the six faces face six different ways |
| Modules.CubeSolidPlain | lib/module.c:584-683 | with solid ≠ 0 and no textures Module_cube appends exactly the six face polygons |
| Modules.CubeSolidTextured | lib/module.c:584-683 | with textures each face polygon is preceded by an ObjTexture element for its texture and uses the fixed texture coordinates |
| Modules.CubeWireframe | lib/module.c:548-582 | with solid == 0 Module_cube appends exactly the wire-frame lines |
| ModuleDraw.XformLineCompose | lib/matrix.c:172-181 | transforming a line by b and then by a is transforming it by a × b |
| ModuleDraw.XformThree | lib/module.c:313-327 | transforming by LTM, then GTM, then VTM is transforming by VTM × GTM × LTM |
| ModuleDraw.LineCommand | lib/module.c:313-328 | an ObjLine is drawn in the current colour at the line under VTM × GTM × LTM, normalised |
| ModuleDraw.PolylineCommand | lib/module.c:347-362 | an ObjPolyline is drawn as the open chain of its vertices under VTM × GTM × LTM, normalised |
| ModuleDraw.XformPointInPlaceUpperTriangular | lib/matrix.c:114-124 | transforming a point onto itself gives the true product exactly for upper-triangular matrices |
| ModuleDraw.XformPointInPlaceMisplaces | lib/module.c:330-345 | transformed onto itself, (1, 0, 0) under a quarter turn lands on the origin instead of (0, 1, 0) |
| ModuleDraw.PointCommandAsWrittenUpperTriangular | lib/module.c:330-345 | with translations and scales only, the written point case draws where a line endpoint would be |
| ModuleDraw.PointCommandAsWrittenLocalOnly | lib/module.c:330-345 | with GTM and VTM the identity the written point case reduces to the LTM's in-place transform |
| ModuleDraw.PointCommandAsWrittenMisplaces | lib/module.c:330-345 | a point under a quarter-turn LTM is drawn at the origin as written |
| ModuleDraw.PointCommand | lib/module.c:330-345 | the corrected point case draws the point under VTM × GTM × LTM, normalised |
| ModuleDraw.PointCommandPlaces | lib/module.c:330-345 | the corrected point case draws the quarter-turned point at (0, 1) |
| ModuleDraw.PolygonStep | lib/module.c:364-397 | an ObjPolygon keeps its vertex count; only Flat shading changes the DrawState, and only its flat colour |
| ModuleDraw.PolygonStepStages | lib/module.c:364-390 | the scratch polygon after LTM and GTM holds the source vertices and normals under GTM × LTM |
| ModuleDraw.PolygonStepVertices | lib/module.c:364-390 | without Gouraud each drawn vertex is the source vertex under VTM × GTM × LTM, normalised; Gouraud normalises the world vertex before VTM |
| ModuleDraw.PolygonStepPhong | lib/module.c:372-376 | Phong hands the rasteriser world vertices and normals equal to the source ones under GTM × LTM |
| ModuleDraw.PolygonStepFlat | lib/module.c:377-384 | Flat shading gives every vertex the one colour it also leaves in the DrawState |
| ModuleDraw.PolygonStepFacts | lib/module.c:364-384 | the stages up to shading keep the normals and the vertex count |
| ModuleDraw.PolygonStepResult | lib/module.c:386-390 | after shading VTM and Polygon_normalize act on the vertices only |
| ModuleDraw.Act | lib/module.c:306-456 | every element other than a sub-module draws at most one command, exactly for lines, points, polylines, polygons and circles; only ObjIdentity and ObjMatrix change LTM; ObjNone, ObjLight, ObjSphere and ObjPlane do nothing |
| DrawProperties.ActPoint | lib/module.c:330-345 | an ObjPoint draws its point transformed in place, as written; with upper-triangular LTM, GTM and VTM this is the point under VTM × GTM × LTM |
| ModuleDraw.Draw | lib/module.c:280-477 | Module_draw never changes the DrawState's set-up fields |
| ModuleDraw.Run | lib/module.c:303-475 | the element loop only appends commands |
| ModuleDraw.Visit | lib/module.c:458-468 | an ObjModule draws the sub-module and leaves the caller's DrawState, LTM and scratch polygon as they were |
| DrawProperties.RunAppend | lib/module.c:303-475 | walking a concatenation walks the first list and then the second from where it stopped |
| DrawProperties.DrawMoreFuel | lib/module.c:280-477 | a larger nesting allowance never changes a draw that finished |
| DrawProperties.RunFlat | lib/module.c:303-475 | a list without sub-modules always finishes, and draws the same with any allowance |
| DrawProperties.ActMatrix | lib/module.c:420-424 | ObjMatrix multiplies its matrix onto LTM from the left and draws nothing |
| DrawProperties.ActColor | lib/module.c:426-429 | ObjColor replaces the current colour and draws nothing |
| DrawProperties.ActLine | lib/module.c:313-328 | ObjLine draws the line through VTM × GTM × LTM in the current colour |
| DrawProperties.VisitAct | lib/module.c:306-456 | an element other than a sub-module is visited by its own case alone |
| DrawProperties.StepElements | lib/module.c:227-260 | the builder adders' elements carry the builders' own matrices, one per call |
| DrawProperties.RunMatrices | lib/module.c:420-424 | a run of matrix elements draws nothing and leaves LTM = M_k × … × M_1 × LTM |
| DrawProperties.AccumulateSteps | lib/module.c:420-424 | the matrices the adders append accumulate to the matrix the same builder calls build |
| DrawProperties.TransformedLine | lib/module.c:280-477 | a module of matrix elements followed by a line draws that line once, through VTM × GTM × the accumulated LTM, in the current colour, and leaves the DrawState alone |
| DrawProperties.TransformedLineSteps | lib/module.c:280-477 | the same for elements the builder adders appended: LTM is the matrix their builders build from the identity |
| DrawProperties.StepsMovePoints | lib/matrix.c:183-379 | the built LTM sends a model point where the steps, done one after another, move it |
| DrawProperties.ColorThenLine | lib/module.c:313-328 | an ObjColor sets the colour the following line is drawn in |
| DrawProperties.CircleIgnoresModelling | lib/module.c:400-412 | a circle is drawn with the VTM only, whatever LTM and GTM are |
| DrawProperties.SubmoduleOnly | lib/module.c:458-468 | a module whose only element is a sub-module draws what the sub-module draws and hands back its caller's DrawState |
| DrawProperties.ChildEditSeenByParent | lib/module.c:151-154 | sub-modules are held by reference: an element added to the child later is drawn by the parent too |
| RayObjects.PlaneSet | lib/ray_object.c:19-27 | Plane_set divides A, B, C and D by √(A² + B² + C²) and leaves colours, flags and index alone |
| RayObjects.PlaneSetUnit | lib/ray_object.c:19-27 | with an exact square root the set plane's normal has unit length |
| RayObjects.PlaneSetSamePoints | lib/ray_object.c:19-27 | the set plane holds exactly the points the given coefficients describe |
| RayObjects.PlaneSetColor | lib/ray_object.c:40-44 | Plane_setColor sets diffuse, specular and the reflective flag and nothing else |
| RayObjects.SphereSet | lib/ray_object.c:57-60 | Sphere_set sets centre and radius and nothing else |
| RayObjects.SphereSetColor | lib/ray_object.c:73-81 | Sphere_setColor sets the three colours and both flags and keeps centre, radius and index |
| RayObjects.SphereSetRIndex | lib/ray_object.c:90-92 | Sphere_setRIndex sets the index of refraction only |
| RayModules.RayElementCreate | lib/ray_module.c:19-24 | a fresh element carries tag value 0, which is the sphere tag |
| RayModules.CreatedReadsAsSphere | lib/ray_module.c:70-174 | the getters read a fresh element's payload as a sphere |
| RayModules.RayElementInit | lib/ray_module.c:38-52 | RayElement_init keeps the tag and copies the payload the tag selects; for any other tag nothing is copied |
| RayModules.GettersOfPlane | lib/ray_module.c:70-174 | every getter reads the plane's field for a plane element |
| RayModules.GettersOfSphere | lib/ray_module.c:70-174 | every getter reads the sphere's field for a sphere element |
| RayModules.GettersOfOther | lib/ray_module.c:70-174 | every getter gives black, 0.0 or 0 for any other tag |
| RayModules.RayModuleCreate | lib/ray_module.c:188-193 | RayModule_create gives an empty list |
| RayModules.RayModuleInsert | lib/ray_module.c:238-247 | RayModule_insert appends the element at the tail |
| RayModules.InsertOrder | lib/ray_module.c:238-247 | elements are kept in insertion order |
| RayModules.RayModulePlane | lib/ray_module.c:256-259 | RayModule_plane appends one plane element |
| RayModules.RayModuleSphere | lib/ray_module.c:268-271 | RayModule_sphere appends one sphere element |
| RayModules.RayModuleClear | lib/ray_module.c:204-212 | RayModule_clear leaves no list to insert into or trace |
| Rays.RaySet | lib/ray.c:26-30 | Ray_set keeps the origin and normalises the direction |
| Rays.IntersectionSet | lib/ray.c:285-288 | Intersection_set sets point and normal and keeps the element |
| Rays.IntersectionCopy | lib/ray.c:297-300 | Intersection_copy copies point and normal only, exactly as Intersection_set with them would |
| Rays.AddColorsChannels | lib/ray.c:524-535 | the refraction weight is its red channel for all three channels, and with nothing reflected or refracted the point colour is returned |
| Rays.OffsetAlong | lib/ray.c:416-465 | moving t along the ray changes the plane equation by t·(A·v) |
| Rays.PlaneHitExactly | lib/ray.c:416-465 | Ray_planeIntersect hits exactly when the meeting parameter is non-negative and the plane is not culled; the hit is that point on the plane, with a normal against the ray |
| Rays.AlongFromCentre | lib/ray.c:333-405 | the squared distance from the centre of the point t along a unit ray is t² − 2t·close + d² |
| Rays.ChordLands | lib/ray.c:333-405 | close ± the half chord lands on the sphere |
| Rays.SphereHitShape | lib/ray.c:333-405 | a sphere hit passed both early exits and is the point at the chosen distance, with the normal (q − c)/r |
| Rays.SphereHitAhead | lib/ray.c:333-405 | with an exact square root a hit lies strictly ahead of the ray origin |
| Rays.SphereDistAhead | lib/ray.c:333-405 | past the first early exit the chosen distance is not behind the origin |
| Rays.HalfChordRoot | lib/ray.c:333-405 | the root of the squared half chord squares back to r² − d² + close² |
| Rays.SphereHitOnSurface | lib/ray.c:333-405 | with a unit direction and an exact root a hit lies on the sphere |
| Rays.OnSphereAt | lib/ray.c:333-405 | a unit ray meets the sphere at close ± the half chord |
| Rays.SphereHitNormal | lib/ray.c:333-405 | for a non-zero radius the normal at a hit has unit length |
| Rays.ChordAhead | lib/ray.c:333-405 | the distance picked (close − sq from outside, close + sq from inside) is non-negative, and positive from inside |
| Rays.SphereMissIsMiss | lib/ray.c:333-405 | the two early exits are real misses: no point strictly ahead lies on the sphere |
| Rays.Intersect | lib/ray.c:310-322 | Ray_intersect tests planes one-sided and spheres as spheres, and never hits anything else |
| Rays.Scan | lib/ray.c:475-511 | the element loop keeps the strictly nearest hit closer than 10e10, the first one among equals |
| Rays.Trace | lib/ray.c:475-511 | trace returns the nearest hit of the ray among all elements, or none |
| Rays.MirrorReflects | lib/ray.c:110-126 | for a unit normal the mirrored direction has the same length and the opposite component along the normal |
| Rays.Reflect | lib/ray.c:110-126 | Ray_reflect's direction is the mirrored direction, normalised |
| Rays.Blocks | lib/ray.c:170-180 | the shadow loop stops exactly when some element is hit, at any distance |
| Rays.PerLight | lib/ray.c:153-199 | each light contributes nothing when shadowed and otherwise its Light_diffuse value |
| Rays.SumsAgreeUnshadowed | lib/ray.c:153-199 | while no light is shadowed the as-written and corrected sums agree |
| Rays.SumIntendedAppend | lib/ray.c:153-199 | the corrected sum adds each unshadowed value once and nothing for a shadowed light |
| Rays.SumIntendedAllShadowed | lib/ray.c:153-199 | with every light shadowed the corrected sum is black |
| Rays.SendStaleDiffuse | lib/ray.c:148-199 | one lit and one shadowed light: as written the lit value is counted twice, corrected once |
| Rays.RaySendAgreesUnshadowed | lib/ray.c:137-202 | Ray_send as written equals the corrected one when no light is shadowed |
| Rays.RaySendStaleDiffuse | lib/ray.c:137-202 | with the second of two lights shadowed Ray_send as written returns twice the first light's value |
| Rays.RayTraceBlack | lib/ray.c:214-275 | Ray_trace, as written and corrected, is black when the depth is used up or nothing is hit nearer than 10e10 |
| Rays.RayTraceMatte | lib/ray.c:214-275 | at a non-reflective element the colour is the diffuse light Ray_send gathers there, as written for Ray_trace and corrected for the corrected trace |
| Rays.RayTraceLastBounce | lib/ray.c:214-275 | at a reflective element with depth 1 the reflected ray adds nothing, as written and corrected |
| Rays.RayTraceStaleDiffuse | lib/ray.c:137-275 | on a matte element with the second of two lights shadowed, Ray_trace returns twice the first light's diffuse value and the corrected trace returns it once |

## Left out

- Image_create, Image_free, Polygon_init, Polygon_free, Polyline_init, Polyline_free, Element_create, Element_delete, Module_delete, RayElement_delete, RayModule_delete: allocation and freeing. Values replace pointers, and a failed allocation, which the C reports and then exits on, has no counterpart.
- Image_readPPM, Image_readPPM2, Texture_create and the file writing in Image_writePPM: file I/O. The bytes Image_writePPM hands to the writer are modelled (`Images.PpmBytes`).
- Matrix_print, Point_print, Vector_print, Polyline_print, Ray_print, Color_print and every `printf`: console output.
- Matrix_copy, Point_copy, Vector_copy, DrawState_copy, Ray_copy, Intersection_copy, View2D_set, Circle_set, Ellipse_set, Color_set: whole-struct copies and plain constructors. They are value assignment here.
- Image_setColorWB, Point_drawf: not used by the rendering paths modelled.
- lib/perlin.c: the noise generator is not part of this model.
- Line_drawSmoothly and swap: the anti-aliased line is not part of this model.
- Polygon_drawFillB: the barycentric fill is not part of this model.
- Circle_drawXForm and Circle_plotPointsXForm: `Module_draw` hands a circle to the rasteriser with the view matrix (`ModuleDraw.DrawCircle`), and the transformed plotting is not modelled.
- Ray_refract: never called by the tracer, which keeps its refraction value and coefficient black.
- deleteAfter: the linked-list unlink is folded into the list functions of `updateActiveList`.
- The C's `double` and `float` arithmetic: both are exact `real` arithmetic here, so rounding, overflow, infinities and NaN are not modelled. This covers the `float` rgb, a and z of FPixel and the `float` channels of Color (include/cb_image.h:17-19, 31), the `float` cutoff and sharpness of Light (include/cb_lighting.h:27-28), the `float` s, t and surfaceCoeff of DrawState (include/cb_drawstate.h:31-44), the `float` coefficient of a module element (include/cb_module.h:42), the `float` locals of makeEdgeRec, and the `float` parameters of Sphere_set and Sphere_setRIndex.
- CNum.Quot: division by zero yields 0 rather than an IEEE infinity or NaN. Every contract that relies on a quotient excludes the zero divisor.
- `sqrt` and `pow`: they are parameters (`CNum.Libm`), not computed. Properties that need them state their facts as preconditions.
- C `int` overflow: integers are unbounded.
- The globals global_light and global_rayModule: they are parameters of the ray tracer.
- The texture image pointers and sub-module pointers: they are indices into an arena or stored values, so sharing is modelled for modules and textures, but not aliasing in general.
- ModuleDraw.Draw: carries a fuel bound. The C has no guard against a module that contains itself and would recurse until the stack runs out; the model stops when the fuel is spent.
- Modules.ElementInit: requires a tag other than ObjSphere and ObjPlane. Those cases of Element_init have no `break` (lib/module.c:53-59): ObjSphere copies sizeof(Sphere), then sizeof(Plane), then sizeof(Matrix) bytes from the caller's object, and ObjPlane the last two, so both read past the end of a Sphere or Plane. Module_sphere and Module_plane (lib/module.c:192-201), the only callers with those tags, are left out with it; Module_draw ignores both tags.
- Polygons.Shade: requires flat or Gouraud shading, the two methods Polygon_shade handles. The flat branch reads one vertex past the end of the array; that value is the `pastEnd` parameter.
- Polylines.Frame: models the segments Polyline_drawFrame builds but not their rasterisation. Line_set gives each segment the flag 1 while its 2D endpoints have z = 0, so Line_drawZBuffer would divide by zero.
- Rays.RaySendAsWritten: Light_diffuse normalises N and p in place (lib/lighting.c:212-214), so later lights' shadow rays and Ray_reflect see the updated values; the model passes the originals. The two differ only for a non-unit normal or a hit point with w other than 1.
- Polygons.DrawFrame: requires a z-buffer flag other than 1. With the flag 1 the frame's 2D endpoints have z = 0, and Line_drawZBuffer would divide by it.
- ScanFill.DrawShade: requires the same of its frame branch, for the same reason.
- EdgeTable.MakeEdgeRec: requires non-zero endpoint depths. With z = 0 the C leaves s and t uninitialised. The top-clipping code of makeEdgeRec (lib/scanlineSkeleton.c:199-224) is unreachable, because such edges are dropped first, so it is not modelled.
- Matrices.XformPolygon: requires a normal array, which the C dereferences unconditionally.
- The default branch of Polygon_drawShade: the shading enumeration has no other value, so it cannot be reached.
- The sphere lemmas of `Rays`: they require an exact square root and a unit direction. Their conclusions hold only up to rounding in the C.
- ray.c lines 258 and 266 name `result`, which is not declared in Ray_trace: the model reads them as the intersection `ret` found by the search, the only one in scope.
- The polygon `tex` field outside the fill: it is stored and copied as a value and is otherwise unused.
- The headers under include/: their declarations are the datatypes of each module.

## Findings

| source | as written | input that shows it | evidently intended | confidence | as-written member | corrected member |
|---|---|---|---|---|---|---|
| lib/point.c:65-69 | the y and z terms subtract p2's x instead of p2's y and z | from (0, 0, 0) to (2, 1, 0) it gives 6, the other way round 5 | the squared Euclidean distance, 5 both ways | high, not executed | Geometry.PointDist2AsWrittenIsWrong | Geometry.PointDist2Intended |
| lib/circle.c:179-192 | the span loop runs while i < cx - x - 1, stopping one column short of the outline on the right | radius 2 about (0, 0): outline pixel at row -2, column 0 is drawn by Circle_plotPoints but not filled, while column -1 is | a fill covering the outline's span, symmetric like the outline | medium, not executed | Circles.FillPointsMissesOutline | Circles.FillPointsIntended |
| lib/ellipse.c:144-151 | the same loop bound as the circle fill | Ry = 2 about (0, 0): row -2, column 0 is outlined but not filled | a fill covering the outline's span | medium, not executed | Ellipses.FillPointsMissesOutline | Ellipses.FillPointsIntended |
| lib/scanlineSkeleton.c:154-178 | the upper-half test uses y1 <= floor(y1) + 0.5, so the midpoint counts as the lower branch | y1 = 0.5: the edge is filed in row 1 but sampled at height 0.5, the centre of row 0 | the first sample at the centre of the edge's first row, height 1.5 | high, not executed | EdgeTable.StartOffsetMissesRow | EdgeTable.StartOffsetIntended |
| lib/scanlineSkeleton.c:288-317 | the maximum row starts at (int)y + 1 for the last vertex but takes (int)y for every other vertex | the rectangle with corners (0, 0.2) and (10, 5.7), listed from (10, 5.7), in 10 rows: its edges are active in rows 0 to 5 but the loop stops before row 5 | every vertex counted as (int)y + 1, so the loop reaches every active row | high, not executed | EdgeTable.ScanRangeAsWrittenMissesRow | EdgeTable.ScanRange |
| lib/module.c:266-273 | Module_shear2D builds its matrix with Matrix_translate2D | shx = 1, shy = 0: the element moves the origin to (1, 0) | a shear matrix, which leaves the origin fixed | high, not executed | Modules.Shear2DAsWrittenMovesOrigin | Modules.AddShear2D |
| lib/module.c:330-345 | ObjPoint transforms its point in place, so later coordinates read already-updated earlier ones | LTM a quarter turn about z, point (1, 0, 0), GTM and VTM identity: the point is drawn at (0, 0, 0) | the point transformed as a whole, (0, 1, 0) | high, not executed | ModuleDraw.PointCommandAsWrittenMisplaces | ModuleDraw.PointCommand |
| lib/ray.c:137-202 | a shadowed light adds the previous light's diffuse value again, because the variable is not reset | two lights, the first unshadowed with value d, the second shadowed: the result is 2d | a shadowed light adds nothing, so the result is d | high, not executed | Rays.RaySendStaleDiffuse | Rays.RaySend |
