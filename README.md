# Grafiquitas core in Dafny

Grafiquitas is a small CPU software rasterizer written in C++. This project
models its core and proves properties of the model:

- the **geometry stage** (`RePiGeometryStage`): it walks the index buffer
  with a stride that depends on the topology, builds point, line and
  triangle lists from a vertex shader given as a function, classifies
  winding, divides by w and resets its bindings;
- the **rasterizer stage** (`RePiRasterizerStage`):
  - viewport-size resolution in `Execute`;
  - Cohen–Sutherland region codes and line clipping;
  - Bresenham line stepping;
  - cull-mode and wireframe dispatch;
  - the three-swap vertex sort;
  - flat-bottom and flat-top scanline fills, with their column clamping;
- the **pixel surface** (`RePiImage`, `RePiTexture`):
  - a byte buffer with bounds-checked get, set and clear;
  - BMP row padding, row flipping and mask extraction;
  - the 32-bit colour pack and unpack;
  - texture address modes and sample-index bounds;
- **skeletal animation** (`RePiSkeleton`, `RePiChannel`, `RePiAnimation`,
  `RePiAnimator`):
  - the bone registry and keyframe tracks;
  - the channel registry;
  - the play/stop/update cycle;
  - the depth-first propagation that fills the joint and skinning palettes;
- **containers and assets** (`RePiMesh`, `RePi3DModel`, the vertex, line and
  triangle values, `RePiResourceManager`, `RePiModule`):
  - append-only meshes;
  - the model's bone-palette copy;
  - path splitting and skeleton flattening into a line mesh;
  - bone-weight slot assignment and topology choice;
  - find-or-create caches;
  - the singleton life cycle.

Types and conventions:
- Floating-point values are modelled as `real`.
- Matrices, lerp and slerp are symbolic terms, so the matrix product is never
  evaluated.
- Pixel writes are modelled as a sequence of `PixelWrite`s applied to the
  target's byte buffer (`Paint`).
- Imperative parts are classes with `modifies` and `reads` frames. Each
  method is proved against a specification function.

Files:

| file | module | contents |
|---|---|---|
| base.dfy | Base | vectors, colours, topology, `Option`, `Outcome`, truncating division and conversion, `fmod` |
| primitives.dfy | Primitives | `RePiVertex`, `RePiLine`, `RePiTriangle` |
| image.dfy | Imaging | pixel addressing, BMP encode/decode arithmetic, `RePiImage` |
| texture.dfy | Texturing | pack/unpack, address modes, sampling indices, `RePiTexture` |
| clipping.dfy | Clipping | region codes and line clipping |
| lines.dfy | Lines | Bresenham stepping |
| rasterizer.dfy | Rasterizer | triangle dispatch, scanline fills, `RePiRasterizerStage` |
| geometry.dfy | Geometry | orientation, divide-by-w, primitive assembly, `RePiGeometryStage` |
| skeletal.dfy | Skeletal | skeleton, channels, animations, `RePiAnimator` |
| model.dfy | Models | `RePiMesh`, `RePi3DModel` |
| resources.dfy | Resources | path helpers, skeleton line mesh, weight slots, `RePiResourceManager` caches |
| singleton.dfy | Singleton | `RePiModule` |

## Model

| member | source | states |
|---|---|---|
| Base.TDiv | Grafiquitas/RePiRasterizerStage.cpp:181-200 | C++ integer division truncates toward zero; for a non-negative dividend and a positive divisor it is floor division |
| Base.Trunc | Grafiquitas/RePiRasterizerStage.cpp:120-122 | `int32_t(float)` truncates toward zero: the result lies within 1 of x, on the side of zero |
| Base.FMod | Grafiquitas/RePiTexture.cpp:132-167 | `fmod` keeps the sign of the dividend and has magnitude below the divisor |
| Primitives.NewVertex | Grafiquitas/RePi3DModel.h:12-25 | the position gets w = 1; texcoord, normal, binormal and tangent are stored as given; all four bone weights and indices are 0 |
| Primitives.DefaultVertex | Grafiquitas/RePi3DModel.h:12-25 | the default vertex sits at the origin with w = 1 |
| Primitives.NewLine | Grafiquitas/RePi3DModel.h:47-53 | a line stores v0 and v1 in argument order |
| Primitives.NewTriangle | Grafiquitas/RePi3DModel.h:63-72 | a triangle stores v0, v1, v2 in order, with orientation collinear |
| Imaging.Resized | Grafiquitas/RePiImage.h:19 | `vector::resize` keeps the old bytes and zero-fills new ones |
| Imaging.PixelInBuffer | Grafiquitas/RePiImage.cpp:218-223 | an in-range pixel's bytes lie inside a buffer of width·bpp·height bytes |
| Imaging.PixelsApart | Grafiquitas/RePiImage.cpp:252-261 | two distinct in-range pixels occupy disjoint byte ranges |
| Imaging.ReadPixel | Grafiquitas/RePiImage.cpp:210-239 | GetPixel returns black for an empty buffer or an out-of-range xy; alpha is 255 when bpp < 4 |
| Imaging.WritePixel | Grafiquitas/RePiImage.cpp:241-250 | SetPixel leaves the buffer unchanged for an empty buffer or an out-of-range xy |
| Imaging.WritePixelBytes | Grafiquitas/RePiImage.cpp:252-261 | in range and with bpp ≥ 3, SetPixel writes b, g, r (and a when bpp ≥ 4) at y·pitch + x·bpp, and no other byte changes |
| Imaging.ReadAfterWrite | Grafiquitas/RePiImage.cpp:225-261 | GetPixel after SetPixel at the same pixel returns the colour, with alpha 255 when bpp = 3 |
| Imaging.ReadOtherAfterWrite | Grafiquitas/RePiImage.cpp:225-261 | SetPixel at one pixel does not change what GetPixel returns at any other pixel |
| Imaging.ClearedPixel | Grafiquitas/RePiImage.cpp:264-279 | after Clear, every pixel's bpp bytes equal the clear pattern |
| Imaging.LowestSetBitFromIsLowest | Grafiquitas/RePiImage.cpp:81-98 | the scan stops at the lowest set bit at or after its start, or at 32 |
| Imaging.TrailingZerosIsLowestSetBit | Grafiquitas/RePiImage.cpp:81-98 | countTrailingZeros is the index of the lowest set bit, and 32 exactly when the value is 0 |
| Imaging.CountTrailingZeros | Grafiquitas/RePiImage.cpp:81-98 | the loop over the 32 bits returns the trailing-zero count |
| Imaging.RowSize | Grafiquitas/RePiImage.cpp:42 | (n + 3) & ~3 is a multiple of 4, at least n and below n + 4 |
| Imaging.Padding | Grafiquitas/RePiImage.cpp:65 | the row padding is below 4 and brings the row to a multiple of 4 |
| Imaging.SourceRow | Grafiquitas/RePiImage.cpp:176 | output row y is read from stored row H−1−y when the stored height is positive, else from row y |
| Imaging.SourceRowInvolution | Grafiquitas/RePiImage.cpp:176 | the row flip is its own inverse |
| Imaging.DecodeMasks | Grafiquitas/RePiImage.cpp:137-149 | uncompressed files get the default masks by bit depth; a bit-field file whose header is too short for masks gets none |
| Imaging.MaskCount | Grafiquitas/RePiImage.cpp:152-155 | the channel count is the number of nonzero masks, at most 4 |
| Imaging.DefaultMaskShifts | Grafiquitas/RePiImage.cpp:139-145 | the default blue, green, red and alpha masks shift by 0, 8, 16 and 24 |
| Imaging.ExtractDefaults | Grafiquitas/RePiImage.cpp:185-203 | (pixel & mask) >> ctz(mask) picks the file's bytes 0, 1, 2 and 3 for the default masks |
| Imaging.DecodeSwapsRedAndBlue | Grafiquitas/RePiImage.cpp:185-203 | as written, Decode stores the file's bytes in red, green, blue, alpha order, so a 24- or 32-bit pixel comes out with bytes 0 and 2 swapped |
| Imaging.DecodeKeepsFileBytes | Grafiquitas/RePiImage.cpp:185-203 | the corrected channel order keeps the file's byte order, which is the B, G, R order GetPixel reads |
| Imaging.TopDownDataSizeNegative | Grafiquitas/RePiImage.cpp:166-167 | as written, the data size of a top-down file (negative height) is negative |
| Imaging.DataSize | Grafiquitas/RePiImage.cpp:166-167 | the corrected data size is row size times \|height\| |
| Imaging.DecodeReadsInBounds | Grafiquitas/RePiImage.cpp:174-183 | every source pixel that Decode reads lies inside the corrected data size |
| Imaging.Encode | Grafiquitas/RePiImage.cpp:22-79 | Encode refuses empty or short images; otherwise it writes the signature, header sizes, dimensions, bit depth, compression 0, padded rows and the total file size |
| Imaging.EncodeLayout | Grafiquitas/RePiImage.cpp:63-76 | the stored pixel data is the image's rows, bottom row first, each padded to a multiple of 4 |
| Imaging.EncodedRowsBlock | Grafiquitas/RePiImage.cpp:67-76 | stored row k is image row H−1−k |
| Imaging.EncodeDecodePixel | Grafiquitas/RePiImage.cpp:22-208 | for 24 and 32 bits, the stored pixel that decoding loads for (x, y) from an encoded image has, in the corrected channel order, exactly the bytes of pixel (x, y) |
| Imaging.EncodedRowsDecode | Grafiquitas/RePiImage.cpp:22-208 | for 24 and 32 bits, every pixel of every output row of an encoded image decodes to that pixel's bytes |
| Imaging.DecodeRowRestores | Grafiquitas/RePiImage.cpp:178-204 | when each pixel of row y decodes to a buffer's bytes, the inner loop over x pixels makes the first y rows and x pixels equal that buffer |
| Imaging.DecodeRowsRestores | Grafiquitas/RePiImage.cpp:174-205 | when every row decodes to a buffer's bytes, the outer loop over y rows makes the first y rows equal that buffer |
| Imaging.EncodeDecodeRoundTrip | Grafiquitas/RePiImage.cpp:22-208 | for 24 and 32 bits, decoding an encoded image into an empty image gives back the width, the height, bits/8 channels and the whole buffer, in the corrected channel order |
| Imaging.Image.constructor | Grafiquitas/RePiImage.cpp:9-15 | a new image is 0×0 with no bits and an empty buffer |
| Imaging.Image.Create | Grafiquitas/RePiImage.h:11-19 | sets width, height and bits, sets channels = bits >> 3, and resizes the buffer to width·(bits >> 3)·height, zero-filling new bytes |
| Imaging.Image.SetPixel | Grafiquitas/RePiImage.cpp:241-262 | the new buffer is WritePixel of the old one; the dimensions are unchanged |
| Imaging.Image.Clear | Grafiquitas/RePiImage.cpp:264-279 | the new buffer is the first bpp bytes of the clear colour, repeated across each row and down the rows |
| Imaging.Image.Decode | Grafiquitas/RePiImage.cpp:100-208 | rejects a bad signature, bit depths below 8 and compression other than 0 or 3, changing nothing; otherwise sets width, \|height\|, the accumulated channel count and bits, and fills the buffer row by row through the flip and the masks |
| Imaging.Image.DecodePixels | Grafiquitas/RePiImage.cpp:174-205 | the nested row and column loops compute DecodeRows |
| Texturing.FormatBits | Grafiquitas/RePiTexture.cpp:7-19 | 32 bits for R8G8B8A8_UNORM and R32_FLOAT, and 0 for any other format |
| Texturing.UnpackPack | Grafiquitas/RePiTexture.cpp:180-207 | UnpackFloat(PackFloat(c)) == c for every colour |
| Texturing.PackUnpack | Grafiquitas/RePiTexture.cpp:180-207 | PackFloat(UnpackFloat(d)) == d for every 32-bit pattern |
| Texturing.ClampCoord | Grafiquitas/RePiTexture.cpp:169-176 | clamp maps into [0,1] and leaves values already in [0,1] unchanged |
| Texturing.WrapCoord | Grafiquitas/RePiTexture.cpp:132-137 | wrap maps u ≥ 0 into [0,1) and keeps a negative u negative |
| Texturing.MirrorCoord | Grafiquitas/RePiTexture.cpp:138-145 | mirror maps any u into [0,1] |
| Texturing.MirrorOnceLeavesUnitRange | Grafiquitas/RePiTexture.cpp:147-167 | as written, mirror-once maps u in (−1,0) to 1 − u, which is above 1 |
| Texturing.MirrorOnceCoord | Grafiquitas/RePiTexture.cpp:147-167 | the corrected mirror-once maps every u into [0,1], mapping (−1,0) to −u and (1,2) to 2 − u |
| Texturing.MirrorOnceAgrees | Grafiquitas/RePiTexture.cpp:147-167 | outside (−1,0) the corrected mirror-once agrees with the code as written |
| Texturing.AdjustTextureAddress | Grafiquitas/RePiTexture.cpp:123-178 | every mode except wrap yields coordinates in [0,1]; wrap yields [0,1) for non-negative input |
| Texturing.NearestInRange | Grafiquitas/RePiTexture.cpp:40-46 | for u in [0,1], the point-sample index ⌊u·(n−1)⌋ lies in [0, n−1] |
| Texturing.LinearTapsInRange | Grafiquitas/RePiTexture.cpp:48-60 | the bilinear taps satisfy x0 ≤ x1 = min(x0+1, n−1) ≤ n−1, with a fraction in [0,1) |
| Texturing.PointSampleInImage | Grafiquitas/RePiTexture.cpp:40-46 | after address adjustment, point sampling reads a pixel inside the image |
| Texturing.WriteDataReadsBack | Grafiquitas/RePiTexture.cpp:88-93 | packing the pixel that WriteData(xy, d) wrote gives back d |
| Texturing.ClearColorReadsBack | Grafiquitas/RePiTexture.cpp:106-110 | after ClearColor(c), every pixel of a 32-bit texture reads c |
| Texturing.Texture.constructor | Grafiquitas/RePiTexture.h:9 | a new texture wraps a fresh empty image |
| Texturing.Texture.Create | Grafiquitas/RePiTexture.cpp:3-21 | creates the image at the given size with the format's bit count, so an unknown format gets an empty buffer |
| Texturing.Texture.GetSize | Grafiquitas/RePiTexture.cpp:95-98 | the size is the image's width and height, both non-negative |
| Texturing.Texture.WriteColor | Grafiquitas/RePiTexture.cpp:81-86 | writes the colour through SetPixel |
| Texturing.Texture.WriteData | Grafiquitas/RePiTexture.cpp:88-93 | writes UnpackFloat(data) through SetPixel |
| Texturing.Texture.ClearData | Grafiquitas/RePiTexture.cpp:100-104 | ClearData(v) is Clear(UnpackFloat(v)) |
| Texturing.Texture.ClearColor | Grafiquitas/RePiTexture.cpp:106-110 | clears with the colour's 4-byte representation |
| Texturing.Texture.SampleColor | Grafiquitas/RePiTexture.cpp:23-79 | an unknown filter yields 0; point sampling reads the pixel at the scaled adjusted coordinates |
| Clipping.ClipToUV | Grafiquitas/RePiRasterizerStage.cpp:111-116 | clip-space x, y in [−1,1] map into [0,1], with the y axis flipped |
| Clipping.ClipToXYInViewport | Grafiquitas/RePiRasterizerStage.cpp:117-124 | clip-space points in [−1,1]² land inside the viewport |
| Clipping.RegionCode | Grafiquitas/RePiRasterizerStage.cpp:125-151 | LEFT iff x < min.x, else RIGHT iff x > max.x; BOTTOM iff y < min.y, else TOP iff y > max.y; no other bits; 0 iff the point is inside the box |
| Clipping.SharedBits | Grafiquitas/RePiRasterizerStage.cpp:159-171 | the two codes share a bit iff both endpoints are beyond the same side of the box |
| Clipping.IntersectionBetween | Grafiquitas/RePiRasterizerStage.cpp:172-216 | each clip step moves the chosen outside endpoint onto the box edge it crossed, staying between the endpoints (so its divisor is never 0) |
| Clipping.StepDecreases | Grafiquitas/RePiRasterizerStage.cpp:172-216 | each clip step decreases the distance measure, so the loop terminates |
| Clipping.ClipSpec | Grafiquitas/RePiRasterizerStage.cpp:153-220 | an accepted line has both ends in the box and a rejected one has both ends beyond one side; a line inside is accepted unchanged and one with a shared code bit is rejected unchanged |
| Clipping.ClipLine | Grafiquitas/RePiRasterizerStage.cpp:153-220 | the clipping loop computes ClipSpec, and its accepted endpoints lie in the box |
| Lines.StepTracking | Grafiquitas/RePiRasterizerStage.cpp:341-360 | each Bresenham step moves x and/or y by one toward the end, and always along the major axis |
| Lines.IterateTrace | Grafiquitas/RePiRasterizerStage.cpp:324-361 | the pen after i steps is at the i-th traced point |
| Lines.PenAt | Grafiquitas/RePiRasterizerStage.cpp:324-361 | the loop stops exactly after all traced points, and each step writes the pen's point |
| Lines.PointsCount | Grafiquitas/RePiRasterizerStage.cpp:324-361 | the loop writes max(\|dx\|, \|dy\|) points |
| Lines.PointsShape | Grafiquitas/RePiRasterizerStage.cpp:324-361 | the points start at (x0, y0), move one unit toward (x1, y1) each time, stay between the ends and never include (x1, y1) |
| Rasterizer.PaintConcat | Grafiquitas/RePiRasterizerStage.cpp:84-106 | painting two write sequences one after the other is painting their concatenation |
| Rasterizer.PaintLastWriteWins | Grafiquitas/RePiImage.cpp:241-262 | after a sequence of writes, each in-range pixel holds the last colour written to it, or its old value |
| Rasterizer.ClippedSegment | Grafiquitas/RePiRasterizerStage.cpp:308-322 | DrawLine's clipped segment lies in the box from (0,0) to (width,height) |
| Rasterizer.LineWritesShape | Grafiquitas/RePiRasterizerStage.cpp:308-362 | DrawLine writes nothing unless target, constant buffer and shader are bound and the clip accepts; otherwise it writes green at max(\|dx\|,\|dy\|) unit-step points from the first endpoint, never the last |
| Rasterizer.RowWritesColumns | Grafiquitas/RePiRasterizerStage.cpp:476-484 | a scanline row writes consecutive columns from its first to its last |
| Rasterizer.Ends | Grafiquitas/RePiRasterizerStage.cpp:468-470 | the row's two ends are put in increasing order |
| Rasterizer.RowOfColumns | Grafiquitas/RePiRasterizerStage.cpp:468-484 | a row writes columns max(0,left) to min(W−1,right) and nothing else |
| Rasterizer.FillWritesInside | Grafiquitas/RePiRasterizerStage.cpp:439-550 | a fill writes only columns in [0, W−1] and rows in its own range |
| Rasterizer.BottomFill | Grafiquitas/RePiRasterizerStage.cpp:442-458 | a flat-bottom fill returns at once for height ≤ 0; otherwise both edges start at v1 and reach the left and right bottom vertices after height rows |
| Rasterizer.TopFill | Grafiquitas/RePiRasterizerStage.cpp:498-514 | a flat-top fill returns at once for height ≤ 0; otherwise the edges start at the left and right top vertices and meet at v3 |
| Rasterizer.SortByY | Grafiquitas/RePiRasterizerStage.cpp:407-409 | the three conditional swaps leave y1 ≤ y2 ≤ y3 |
| Rasterizer.SortByYPermutes | Grafiquitas/RePiRasterizerStage.cpp:407-409 | the swaps permute the three vertices |
| Rasterizer.SortCorners | Grafiquitas/RePiRasterizerStage.cpp:407-409 | the three swaps compute SortByY |
| Rasterizer.SplitVertex | Grafiquitas/RePiRasterizerStage.cpp:421-431 | the split vertex lies on v2's row, with w = 1 |
| Rasterizer.Parts | Grafiquitas/RePiRasterizerStage.cpp:411-435 | equal y2, y3 dispatches flat-bottom, else equal y1, y2 dispatches flat-top, else the triangle splits at y2 into a flat-bottom and a flat-top part |
| Rasterizer.CulledWritesNothing | Grafiquitas/RePiRasterizerStage.cpp:367-381 | a triangle is drawn only when it is CW under front culling or CCW under back culling |
| Rasterizer.EdgesInside | Grafiquitas/RePiRasterizerStage.cpp:383-393 | wireframe edges v0→v1, v1→v2, v2→v0 write green inside the clip box |
| Rasterizer.TriangleWritesInside | Grafiquitas/RePiRasterizerStage.cpp:364-437 | a solid triangle writes only columns in [0, W−1]; a wireframe one writes green only inside the clip box |
| Rasterizer.ResolveSize | Grafiquitas/RePiRasterizerStage.cpp:63-78 | the size comes from the depth texture, then from the target; it aborts exactly when both are bound and the depth size is nonzero and different |
| Rasterizer.RasterizerStage.constructor | Grafiquitas/RePiRasterizerStage.h:11-51 | a new stage has nothing bound and the default settings |
| Rasterizer.RasterizerStage.BindTriangleList | Grafiquitas/RePiRasterizerStage.cpp:7-12 | stores the binding |
| Rasterizer.RasterizerStage.BindLineList | Grafiquitas/RePiRasterizerStage.cpp:13-18 | stores the binding |
| Rasterizer.RasterizerStage.BindPointList | Grafiquitas/RePiRasterizerStage.cpp:19-24 | stores the binding |
| Rasterizer.RasterizerStage.BindRasteriserSettings | Grafiquitas/RePiRasterizerStage.cpp:25-30 | stores the settings |
| Rasterizer.RasterizerStage.BindTarget | Grafiquitas/RePiRasterizerStage.cpp:37-42 | stores the binding |
| Rasterizer.RasterizerStage.BindDepth | Grafiquitas/RePiRasterizerStage.cpp:43-48 | stores the binding |
| Rasterizer.RasterizerStage.BindConstantBuffer | Grafiquitas/RePiRasterizerStage.cpp:49-54 | stores the binding |
| Rasterizer.RasterizerStage.BindPixelShader | Grafiquitas/RePiRasterizerStage.cpp:55-60 | stores the binding |
| Rasterizer.RasterizerStage.Execute | Grafiquitas/RePiRasterizerStage.cpp:61-110 | sets the size as resolved; on an abort or without a pixel shader the target is untouched; otherwise the target receives all triangles' writes, then all lines' writes, and points write nothing |
| Rasterizer.RasterizerStage.DrawFrame | Grafiquitas/RePiRasterizerStage.cpp:80-108 | with a pixel shader, the target receives the triangle writes, then the line writes |
| Rasterizer.RasterizerStage.DrawTriangles | Grafiquitas/RePiRasterizerStage.cpp:82-89 | the triangle loop paints every triangle's writes in list order |
| Rasterizer.RasterizerStage.DrawLines | Grafiquitas/RePiRasterizerStage.cpp:91-98 | the line loop paints every line's writes in list order |
| Rasterizer.RasterizerStage.DrawLine | Grafiquitas/RePiRasterizerStage.cpp:308-362 | the target receives exactly LineWrites |
| Rasterizer.RasterizerStage.DrawSegment | Grafiquitas/RePiRasterizerStage.cpp:324-361 | the Bresenham loop paints green at exactly the traced points |
| Rasterizer.RasterizerStage.DrawTriangle | Grafiquitas/RePiRasterizerStage.cpp:364-437 | the target receives exactly TriangleWrites: nothing when culled, the three edges in wireframe, else the sorted fill parts |
| Rasterizer.RasterizerStage.DrawEdges | Grafiquitas/RePiRasterizerStage.cpp:383-393 | the target receives the three edges' line writes, v0→v1, v1→v2, v2→v0 |
| Rasterizer.RasterizerStage.DrawSolid | Grafiquitas/RePiRasterizerStage.cpp:394-436 | the target receives the fills of the projected, sorted corners |
| Rasterizer.RasterizerStage.DrawSorted | Grafiquitas/RePiRasterizerStage.cpp:411-435 | the target receives the writes of each dispatched part in order |
| Rasterizer.RasterizerStage.DrawBottomTri | Grafiquitas/RePiRasterizerStage.cpp:439-493 | the target receives the flat-bottom fill's writes |
| Rasterizer.RasterizerStage.DrawTopTri | Grafiquitas/RePiRasterizerStage.cpp:495-550 | the target receives the flat-top fill's writes |
| Rasterizer.RasterizerStage.DrawFill | Grafiquitas/RePiRasterizerStage.cpp:460-492 | the row loop paints each row's span from the first row to the last |
| Rasterizer.DrawSpan | Grafiquitas/RePiRasterizerStage.cpp:468-491 | one row of a fill paints exactly the row's clamped columns |
| Rasterizer.DrawRow | Grafiquitas/RePiRasterizerStage.cpp:476-484 | the column loop paints the shaded pixels of one row, left to right |
| Geometry.ClipVertex | Grafiquitas/RePiGeometryStage.cpp:180-186 | x, y and z are divided by the original w and w becomes 1 when w ≠ 0; nothing else changes |
| Geometry.OrientationSwap | Grafiquitas/RePiGeometryStage.cpp:161-178 | swapping v1 and v2 exchanges CW and CCW and keeps collinear |
| Geometry.OrientationRotate | Grafiquitas/RePiGeometryStage.cpp:161-178 | rotating the vertices keeps the orientation |
| Geometry.Stride | Grafiquitas/RePiGeometryStage.cpp:64-80 | the stride is 1, 2 or 3 for point, line and triangle lists, and 0 for any other topology |
| Geometry.ShadedAt | Grafiquitas/RePiGeometryStage.cpp:88-116 | a vertex fetch succeeds iff the index position and the index both lie in range |
| Geometry.MakeTriangle | Grafiquitas/RePiGeometryStage.cpp:118-121 | the assembled triangle keeps v0, v1, v2 and gets its computed orientation |
| Geometry.EmitDefined | Grafiquitas/RePiGeometryStage.cpp:84-129 | one loop step succeeds iff all its stride fetches succeed |
| Geometry.AssembleSucceeds | Grafiquitas/RePiGeometryStage.cpp:82-130 | the walk succeeds iff the remaining index count is a multiple of the stride and every index is in range |
| Geometry.PointsFrom | Grafiquitas/RePiGeometryStage.cpp:86-93 | one point per remaining index |
| Geometry.TrianglesFromShape | Grafiquitas/RePiGeometryStage.cpp:107-122 | triangle k is built from indices 3k, 3k+1, 3k+2, in order |
| Geometry.LinesFromShape | Grafiquitas/RePiGeometryStage.cpp:94-106 | line k is built from indices 2k and 2k+1, in order |
| Geometry.PointsFromShape | Grafiquitas/RePiGeometryStage.cpp:86-93 | point k is the shaded vertex of index k |
| Geometry.TriangleListAssembly | Grafiquitas/RePiGeometryStage.cpp:59-130 | n valid indices give exactly n/3 triangles, and the point and line lists stay empty |
| Geometry.LineListAssembly | Grafiquitas/RePiGeometryStage.cpp:59-130 | n valid indices give exactly n/2 lines, and the other lists stay empty |
| Geometry.PointListAssembly | Grafiquitas/RePiGeometryStage.cpp:59-130 | n valid indices give exactly n points, and the other lists stay empty |
| Geometry.GeometryStage.constructor | Grafiquitas/RePiGeometryStage.cpp:5-10 | a new stage has empty lists, nothing bound and an undefined topology |
| Geometry.GeometryStage.BindVertexBuffer | Grafiquitas/RePiGeometryStage.cpp:19-24 | stores the binding |
| Geometry.GeometryStage.BindIndexBuffer | Grafiquitas/RePiGeometryStage.cpp:25-30 | stores the binding |
| Geometry.GeometryStage.BindConstantBuffer | Grafiquitas/RePiGeometryStage.cpp:31-36 | stores the binding |
| Geometry.GeometryStage.BindVertexShader | Grafiquitas/RePiGeometryStage.cpp:37-42 | stores the binding |
| Geometry.GeometryStage.BindTopology | Grafiquitas/RePiGeometryStage.cpp:43-48 | stores the topology |
| Geometry.GeometryStage.Execute | Grafiquitas/RePiGeometryStage.cpp:49-139 | the lists are kept unless all four bindings are present; otherwise they are rebuilt by the walk. A failed fetch reports failure and skips the reset. Otherwise the vertex and index bindings are reset and the topology becomes undefined, while the shader and constant buffer stay bound |
| Skeletal.InsertName | Grafiquitas/RePiAnimator.cpp:292-318 | inserting a new name into the channel map's key order keeps it sorted and adds exactly that name |
| Skeletal.Skeleton.constructor | Grafiquitas/RePiAnimator.h:53-73 | a new skeleton has no bones and no root |
| Skeletal.Skeleton.SetRoot | Grafiquitas/RePiAnimator.cpp:68-72 | sets the root |
| Skeletal.Skeleton.GetBone | Grafiquitas/RePiAnimator.cpp:79-96 | returns the existing bone for a known name; for a new name it inserts a bone whose index is the previous count, so the count grows by exactly 1 |
| Skeletal.Skeleton.GetBoneIndex | Grafiquitas/RePiAnimator.cpp:98-107 | returns the bone's index, inserting an unknown name first |
| Skeletal.Skeleton.GetBoneCount | Grafiquitas/RePiAnimator.cpp:109-112 | every bone's index is below the count |
| Skeletal.AddBoneDense | Grafiquitas/RePiAnimator.cpp:79-96 | inserting with index = count keeps the indices exactly 0..N−1 |
| Skeletal.RegisteredKeepsDense | Grafiquitas/RePiAnimator.cpp:79-96 | repeated GetBone calls keep indices dense, keep existing bones and register every name |
| Skeletal.AddKeyFrameData | Grafiquitas/RePiAnimator.cpp:235-249 | appends the key, links the previous last key's next to it, and keeps every key's next pointing to its successor |
| Skeletal.ScanKeys | Grafiquitas/RePiAnimator.cpp:251-275 | the scan's result is the last key of the prefix whose times are at most t |
| Skeletal.GetKeyFrameDataByTime | Grafiquitas/RePiAnimator.cpp:251-275 | none for an empty track; the first key when t precedes it; otherwise the key just before the first key later than t |
| Skeletal.KeyLookupSorted | Grafiquitas/RePiAnimator.cpp:251-275 | for sorted times the lookup gives the largest i with time_i ≤ t |
| Skeletal.HoldsAfterLastKey | Grafiquitas/RePiAnimator.cpp:179-233 | after the last key, the sample is the last key's value |
| Skeletal.InterpolatesBetweenKeys | Grafiquitas/RePiAnimator.cpp:179-233 | between keys i and i+1, the sample interpolates them at the fraction of t between their times |
| Skeletal.Channel.constructor | Grafiquitas/RePiAnimator.cpp:126-130 | a new channel has the bone index and three empty tracks |
| Skeletal.Channel.AddScaleKey | Grafiquitas/RePiAnimator.cpp:153-158 | appends a scale key through AddKeyFrameData |
| Skeletal.Channel.AddRotationKey | Grafiquitas/RePiAnimator.cpp:160-165 | appends a rotation key through AddKeyFrameData |
| Skeletal.Channel.AddPositionKey | Grafiquitas/RePiAnimator.cpp:167-172 | appends a position key through AddKeyFrameData |
| Skeletal.Channel.GetTransformByTime | Grafiquitas/RePiAnimator.cpp:179-233 | a channel with no keys samples the identity |
| Skeletal.Animation.constructor | Grafiquitas/RePiAnimator.cpp:277-281 | a new animation has its cycle time and no channels |
| Skeletal.Animation.GetChannel | Grafiquitas/RePiAnimator.cpp:292-318 | none for a dead bone; the existing channel for a known name; otherwise a new empty channel with the bone's index, added under its name |
| Skeletal.Animation.ChannelFrom | Grafiquitas/RePiAnimator.cpp:320-335 | the first channel in name order whose bone index matches, or none |
| Skeletal.Animation.GetChannelByIndex | Grafiquitas/RePiAnimator.cpp:320-335 | the loop over the channel map computes ChannelFrom |
| Skeletal.ApplyConcat | Grafiquitas/RePiAnimator.cpp:476-506 | applying two palette write sequences in turn is applying their concatenation |
| Skeletal.ApplyLast | Grafiquitas/RePiAnimator.cpp:501-505 | a palette slot holds the last write made to it |
| Skeletal.WritesShape | Grafiquitas/RePiAnimator.cpp:476-506 | a bone's own palette write comes last, after its children's, with joint = local × parent and skin = offset × joint |
| Skeletal.ChildReceivesJoint | Grafiquitas/RePiAnimator.cpp:492-498 | each child's writes appear in its parent's writes, computed with the parent's joint as the parent transform |
| Skeletal.PosedBone | Grafiquitas/RePiAnimator.cpp:476-506 | after propagation, a bone's slots hold local × parent and offset × (local × parent) |
| Skeletal.ClampedIndexAsWritten | Grafiquitas/RePiAnimator.cpp:381-387 | as written, the clamp bounds the index by the capacity inclusive |
| Skeletal.ClampAdmitsCapacity | Grafiquitas/RePiAnimator.cpp:381-387 | as written, index = capacity passes the clamp, one past the end of the palette |
| Skeletal.ClampedIndex | Grafiquitas/RePiAnimator.cpp:381-387 | the corrected clamp keeps in-range indices and maps larger ones to capacity − 1 |
| Skeletal.Animator.constructor | Grafiquitas/RePiAnimator.cpp:342-346 | a new animator has no animations, no active animation, no skeleton, time 0, and fresh palettes |
| Skeletal.Animator.AddAnimation | Grafiquitas/RePiAnimator.cpp:348-356 | adds the animation under a new name and never overwrites an existing one |
| Skeletal.Animator.PlayAnimation | Grafiquitas/RePiAnimator.cpp:410-423 | activates the named animation, or none when absent, and resets the time to 0 |
| Skeletal.Animator.StopAnimation | Grafiquitas/RePiAnimator.cpp:425-428 | afterwards IsPlayingAnimation is false |
| Skeletal.Animator.CurrentPose | Grafiquitas/RePiAnimator.cpp:476-490 | each bone's local transform is its channel's sample when the active animation has one, else its rest transform |
| Skeletal.Animator.UpdateBoneTransform | Grafiquitas/RePiAnimator.cpp:476-506 | the two palettes become the old palettes with the depth-first writes from the given bone applied; a dead bone writes nothing |
| Skeletal.Animator.UpdateBone | Grafiquitas/RePiAnimator.cpp:478-505 | the palettes receive the children's writes followed by the bone's own |
| Skeletal.Animator.LocalTransform | Grafiquitas/RePiAnimator.cpp:480-489 | the local transform is the channel sample or the rest transform |
| Skeletal.Animator.Store | Grafiquitas/RePiAnimator.cpp:501-505 | writes the joint and skin matrices at the bone's index and nothing else |
| Skeletal.Animator.UpdateChildren | Grafiquitas/RePiAnimator.cpp:492-498 | the child loop applies each live child's writes in order |
| Skeletal.Animator.UpdateChild | Grafiquitas/RePiAnimator.cpp:494-497 | a live child receives its subtree's writes |
| Skeletal.Animator.SetSkeleton | Grafiquitas/RePiAnimator.cpp:370-379 | binds the skeleton and, when it is alive, propagates from its root with the identity |
| Skeletal.Animator.Update | Grafiquitas/RePiAnimator.cpp:457-474 | nothing changes without an active animation; otherwise time += tick, reset to 0 when it exceeds the cycle (so it stays in [0, cycle] for non-negative inputs), and with a skeleton the palettes are propagated from the root |
| Skeletal.Animator.GetBoneTransform | Grafiquitas/RePiAnimator.cpp:381-387 | with the corrected clamp, returns the skinning matrix at the clamped index, and at the index itself when it is in range |
| Skeletal.Animator.TransferBoneData | Grafiquitas/RePiAnimator.cpp:404-408 | the destination becomes a copy of the skinning palette |
| Models.U32 | Grafiquitas/RePi3DModel.cpp:127-130 | the conversion to uint32_t is below 2^32 and is the identity below it |
| Models.Mesh.constructor | Grafiquitas/RePi3DModel.cpp:6-12 | a new mesh has empty buffers, no material and an undefined topology |
| Models.Mesh.AddVertex | Grafiquitas/RePi3DModel.cpp:21-25 | appends exactly one vertex, and earlier ones are unchanged |
| Models.Mesh.AddIndex | Grafiquitas/RePi3DModel.cpp:27-31 | appends exactly one index, and earlier ones are unchanged |
| Models.Mesh.SetTopology | Grafiquitas/RePi3DModel.cpp:33-37 | GetTopology returns the topology set |
| Models.Mesh.SetMaterial | Grafiquitas/RePi3DModel.cpp:39-43 | GetMaterial returns the material set |
| Models.Model.constructor | Grafiquitas/RePi3DModel.cpp:112-115 | a new model has the identity transform, no meshes and no animator |
| Models.Model.SetTransform | Grafiquitas/RePi3DModel.cpp:132-136 | GetTransform returns the transform set |
| Models.Model.AddMesh | Grafiquitas/RePi3DModel.cpp:138-142 | appends the mesh, so GetMeshCount grows by one |
| Models.Model.GetMeshCount | Grafiquitas/RePi3DModel.cpp:127-130 | the mesh count is the list length, cast to 32 bits |
| Models.Model.BindAnimator | Grafiquitas/RePi3DModel.cpp:144-148 | stores the animator |
| Models.Model.Update | Grafiquitas/RePi3DModel.cpp:169-178 | copies the animator's whole palette only when the animator is alive and playing; otherwise the bone array is unchanged |
| Resources.LastOf | Grafiquitas/RePiResourceManager.cpp:195-238 | finds the last position holding one of the characters, or none |
| Resources.FindLastOf | Grafiquitas/RePiResourceManager.cpp:195-238 | `find_last_of` returns npos iff no character matches, else the last match |
| Resources.Substr | Grafiquitas/RePiResourceManager.cpp:213-225 | `substr(pos, count)` is the slice of min(count, size − pos) characters from pos |
| Resources.GetFolderPath | Grafiquitas/RePiResourceManager.cpp:195-211 | the whole path when there is no separator, else the prefix through the last separator |
| Resources.GetFullFileName | Grafiquitas/RePiResourceManager.cpp:227-238 | the whole path when there is no separator, else the suffix after the last one |
| Resources.GetFileName | Grafiquitas/RePiResourceManager.cpp:213-225 | the whole path without a dot; otherwise the text after the last separator (from 0 when there is none, as npos + 1 wraps) up to the last dot, or the rest when the dot precedes the separator |
| Resources.WrapSucc | Grafiquitas/RePiResourceManager.cpp:219 | npos + 1 wraps to 0 in size_t |
| Resources.WrapDiff | Grafiquitas/RePiResourceManager.cpp:221 | a size_t difference wraps modulo 2^64 |
| Resources.SplitPath | Grafiquitas/RePiResourceManager.cpp:195-238 | with a separator, folder path + full file name is the path |
| Resources.FileNameIsStem | Grafiquitas/RePiResourceManager.cpp:213-238 | when the last dot follows the last separator, the full file name is the file name plus the extension; otherwise the two agree |
| Resources.BareNameIsItsOwnFolder | Grafiquitas/RePiResourceManager.cpp:195-211 | as written, the folder of "a.bmp" is "a.bmp", so folder + file name is not the path |
| Resources.FolderPath | Grafiquitas/RePiResourceManager.cpp:195-211 | the corrected folder path is empty without a separator and agrees with GetFolderPath otherwise |
| Resources.SplitPathAlways | Grafiquitas/RePiResourceManager.cpp:195-238 | with the corrected folder path, folder + full file name is always the path |
| Resources.EdgeCount | Grafiquitas/RePiResourceManager.cpp:730-753 | flattening emits two indices per parent-child edge: 2·(bones − 1) |
| Resources.EdgesIffChild | Grafiquitas/RePiResourceManager.cpp:730-753 | a bone's index list is nonempty iff it has children |
| Resources.SkeletonVertex | Grafiquitas/RePiResourceManager.cpp:735-740 | vertex k has bone index k in slot 0 with weight 1, other slots zero |
| Resources.VertexRun | Grafiquitas/RePiResourceManager.cpp:735-740 | a run of vertices numbered consecutively |
| Resources.VertexRunConcat | Grafiquitas/RePiResourceManager.cpp:730-753 | consecutive runs concatenate into one |
| Resources.ProcessBone | Grafiquitas/RePiResourceManager.cpp:730-753 | appends one vertex per reachable bone in depth-first pre-order and the (parent, child) index pair for each edge before recursing; a dead bone appends nothing |
| Resources.ProcessChild | Grafiquitas/RePiResourceManager.cpp:742-751 | one child step appends that child's subtree |
| Resources.MakeLineMesh | Grafiquitas/RePiResourceManager.cpp:300-320 | the new mesh holds the vertices and indices in order, with line-list topology |
| Resources.SkeletonMesh | Grafiquitas/RePiResourceManager.cpp:290-322 | a line mesh is made iff the skeleton yields vertices and indices, and it holds the flattened skeleton |
| Resources.FirstFreeSlot | Grafiquitas/RePiResourceManager.cpp:534-543 | the first of the four slots whose weight is 0, or none |
| Resources.AssignWeight | Grafiquitas/RePiResourceManager.cpp:534-543 | the weight goes into the first free slot, or is dropped when all four are occupied; occupied slots are untouched |
| Resources.MeshTopology | Grafiquitas/RePiResourceManager.cpp:548-555 | triangle list iff the index count is a multiple of 3, else point list |
| Resources.MeshTopologyAssembles | Grafiquitas/RePiResourceManager.cpp:548-555 | the chosen topology has a nonzero stride dividing the index count |
| Resources.ResourceManager.constructor | Grafiquitas/RePiResourceManager.cpp:11-14 | a new manager is not ready and has empty caches |
| Resources.ResourceManager.GetSkeleton | Grafiquitas/RePiResourceManager.cpp:240-273 | none for key 0; the cached skeleton for a present key; otherwise the built skeleton, cached only when it exists |
| Resources.ResourceManager.GetSkeletonMesh | Grafiquitas/RePiResourceManager.cpp:275-326 | none for key 0; the cached mesh for a present key; otherwise the flattened skeleton's line mesh, cached when made, and a newly built skeleton is cached by the nested GetSkeleton |
| Resources.ResourceManager.GetImage | Grafiquitas/RePiResourceManager.cpp:394-423 | none for key 0; the cached texture for a present key; a failed load is not cached |
| Resources.ResourceManager.InitCustomResources | Grafiquitas/RePiResourceManager.cpp:178-187 | a second call is a fatal error and changes nothing; the first marks the manager ready and loads the error texture, which the image cache then holds under its key when the load succeeds |
| Singleton.Module.constructor | Grafiquitas/RePiModule.h:81-86 | the module starts shut down, so IsReady is false |
| Singleton.Module.IsReady | Grafiquitas/RePiModule.h:21-24 | ready iff an instance exists |
| Singleton.Module.Instance | Grafiquitas/RePiModule.h:11-19 | a fatal error while shut down; otherwise the instance |
| Singleton.Module.StartUp | Grafiquitas/RePiModule.h:26-45 | while started it returns false and changes nothing; otherwise it creates the instance, calls the callback when there is one and returns true |
| Singleton.Module.ShutDown | Grafiquitas/RePiModule.h:47-72 | while shut down it is a fatal error that changes nothing; otherwise the module is shut down and the instance is gone |

## Left out

- The OpenMP `parallel for` loops in the rasterizer's `Execute` run sequentially in the model.
- Floating point is modelled as `real`: no rounding, NaN or infinity.
- `RePiMatrix` products, `lerp` and `slerp` are symbolic terms, never evaluated; the interpolation fraction is kept as an unevaluated term, so the unguarded division by (t1 − t0) in `GetTransformByTime` is not modelled.
- Skeletal.Channel.GetTransformByTime: a pure function; the write-back of the interpolated value into the stored keyframe is not modelled.
- Skeletal.Animator.UpdateBoneTransform: the bone's stored final transform (`SetFinalTransform`) is not modelled; only the two palettes are.
- Skeletal.Animator.UpdateBoneTransform: requires every bone index below the palette capacity; the source writes out of bounds otherwise.
- Skeletal.Animator.GetBoneTransform: uses the corrected clamp (see Findings).
- `MaxBoneCapacity` is not part of this model; it is a constructor parameter.
- The joint palette and the model's bone array start as identity matrices; the `RePiMatrix` default constructor is not part of this model.
- The pixel shader is a function parameter that already holds the bound material and constant buffer; `RePiLinearColor` conversion is the identity on colours.
- The `RePiColor` memory layout used by `Clear`'s memcpy is not part of this model; it is assumed to be blue, green, red, alpha (`Representation`), the order the pixel accessors use.
- Texturing.ClearColorReadsBack: holds only under the assumed blue, green, red, alpha layout of `RePiColor`; with another layout the source's ClearColor followed by GetPixel returns the channels permuted.
- Texturing.Texture.ClearColor: copies `Representation(c)`, the assumed blue, green, red, alpha layout of `RePiColor`.
- Imaging.Image.Decode: uses the corrected channel order (see Findings): pixels keep the file's B, G, R(, A) byte order, where the source stores them as R, G, B, A.
- Imaging.Image.Decode: uses the corrected data size RowSize · |height| (see Findings); for a top-down file the source throws after it has already changed the channel count, width, height, bit depth and buffer, where the model decodes the file.
- Imaging.Image.DecodePixels: its loop writes the corrected channel order (`ChannelBytes`), not the source's R, G, B, A order (`ChannelBytesAsWritten`).
- Imaging.DecodeRow: splices the corrected channel order (`ChannelBytes`) and reads within the corrected data size.
- Texturing.Adjust: uses the corrected mirror-once coordinate (`MirrorOnceCoord`, see Findings); the source maps u in (−1, 0) to 1 − fmod(u, 1), in (1, 2).
- Texturing.AdjustTextureAddress: its [0, 1] guarantee for mirror-once holds for the corrected coordinate only; the source gives a value in (1, 2) for u in (−1, 0).
- Texturing.PointSampleInImage: holds for the corrected mirror-once only; for u in (−1, 0) the source's point index lies past the image and GetPixel returns black.
- Texturing.Texture.SampleColor: mirror-once sampling uses the corrected coordinate; for u in (−1, 0) the source samples outside the image.
- Skeletal.Skeleton.Valid: assumes the bone hierarchy is acyclic (the ghost `rank` decreases from parent to child). The source does not ensure it: `ProcessRawBone` links bones by node name, so a scene node that repeats an ancestor's name makes that bone its own descendant, and `ProcessBone` and `UpdateBoneTransform` then recurse without end.
- Clipping.ClipLine: the int32 products such as (x1 − x0) · (yMax − y0) are unbounded integers; their 32-bit overflow is not modelled.
- Clipping.ClipToXY: the `int32_t(float)` conversion truncates an unbounded real; the undefined behaviour of an out-of-range value, such as a vertex near w = 0, is not modelled.
- Rasterizer.RasterizerStage.DrawSegment: Bresenham's int32 `err` and `e2` are unbounded; their 32-bit overflow is not modelled.
- Imaging.Image.Pitch: the uint32 pitch and its product with the int32 height are unbounded, with no wrap-around.
- Imaging.BmpFile: the DIB width is modelled as a natural number; the source assigns the signed int32 width unchecked.
- Depth testing (`DrawDepth`, `DrawPixel`) is not implemented in the source and not modelled.
- Geometry.ClipVertex: a vertex with w = 0 gets 0 coordinates instead of infinities.
- Geometry.GeometryStage.Execute: requires a nonzero stride when the index buffer is nonempty; the source loops forever on strip or undefined topologies.
- Geometry.GeometryStage.Execute: a failed `at()` is reported as a false result rather than a thrown exception.
- The vertex shader is an opaque function parameter, as is the pixel shader.
- Out-of-buffer byte reads in `GetPixel` and writes in `SetPixel` for images with fewer than 3 bytes per pixel are undefined behaviour in the source; the model reads 0 and drops the write.
- BMP file I/O (stream open, read and write) is left out; the file is a `BmpFile` value and the pixel data a byte sequence.
- File I/O and Assimp import are left out. This covers `ReadFile`, `ProcessRawBone`, the vertex extraction of `GetMesh`, `GetAnimation` key extraction, `Get3DModel`, `BindAnimations` and `ProcessSmothTangentBinormal`. The `built` and `loaded` parameters stand for their results.
- `std::hash` keys are given naturals.
- `weak_ptr` expiry is modelled by map membership and `null`.
- Models.Mesh.AddIndex: the 32-bit width of mesh indices is not modelled.
- Resources.SkeletonVertex: the bone index is cast to 32 bits only in slot 0.
- Singleton.Module.StartUp: the callback's effects are modelled only as the `calledBack` result.
- Singleton.Module.Instance: the fatal error is modelled as `None`.
- Several members model part of a larger source function, with a smaller contract:
  - LocalTransform, Store, UpdateChild and UpdateChildren are parts of `UpdateBoneTransform`;
  - ProcessChild is part of `ProcessBone`;
  - SkeletonMesh and MakeLineMesh are parts of `GetSkeletonMesh`;
  - DrawSegment, DrawEdges, DrawSolid, DrawSorted, DrawFill, DrawSpan and DrawRow are parts of `DrawLine`, `DrawTriangle` and the fills.
- `GetMaterial`, `GetAnimation` and `Get3DModel` of the resource manager are not modelled, because they only drive the import.
- The camera, the SDL window and the metadata and material holders are not modelled.

## Findings

| source | as written | input that shows it | evidently intended | confidence | as-written member | corrected member |
|---|---|---|---|---|---|---|
| Grafiquitas/RePiImage.cpp:166-167 | `DataSize = RowSize * dibHeader.Height` uses the signed height | a top-down BMP (height −2, width 1, 24 bits) gives DataSize −8, and the buffer cannot be sized | RowSize · \|height\| | not executed | Imaging.TopDownDataSizeNegative | Imaging.DataSize |
| Grafiquitas/RePiImage.cpp:185-203 | channels are stored in red, green, blue, alpha order, while `GetPixel` reads b, g, r | a 24-bit file pixel with bytes (b0, b1, b2) is stored as (b2, b1, b0) | keep the file's B, G, R(, A) byte order | not executed | Imaging.DecodeSwapsRedAndBlue | Imaging.DecodeKeepsFileBytes |
| Grafiquitas/RePiTexture.cpp:147-167 | mirror-once maps u in (−1, 0) to 1 − fmod(u, 1) | u = −0.5 gives 1.5, outside [0, 1] | −u, which lies in (0, 1) | not executed | Texturing.MirrorOnceLeavesUnitRange | Texturing.MirrorOnceCoord |
| Grafiquitas/RePiAnimator.cpp:381-387 | the index is clamped to [0, MaxBoneCapacity] inclusive | index = capacity reads one past the end of the palette | clamp to capacity − 1 | not executed | Skeletal.ClampAdmitsCapacity | Skeletal.ClampedIndex |
| Grafiquitas/RePiResourceManager.cpp:195-211 | with no separator, the folder path is the whole path | "a.bmp" has folder "a.bmp", so folder + file name is "a.bmpa.bmp" | an empty folder | not executed | Resources.BareNameIsItsOwnFolder | Resources.FolderPath |
