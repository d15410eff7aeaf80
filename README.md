# RayTracer core in Dafny

This project models the discrete core of the yiyaowen/RayTracer C++ renderer and proves properties of that model. It covers five parts.

- **The scene graph of `Shape`.** Shapes are linked by child lists and parent back-links, which are edited in place. The tree is flattened by `generatePriorityList`, which can sort by priority. `hitAll` walks the tree.
- **The tile processor `PartialProcessor`.** Each tile has a private row-major buffer. `process` fills it pixel by pixel, and `writeToFullImage` copies it into the full image.
- **The two exporters, `ExporterManager` and `PPMManager`.** Both keep a row-major colour buffer. `ExporterManager` writes it as Netpbm plain PPM ("P3") text or as interleaved RGBA bytes for the PNG writer. `PPMManager` packs RGB bytes for the PNG writer.
- **The control flow of `rayColor`.** This is the depth cutoff, the nearest-hit and first-hit scans over the shape list, absorption, and the recursive component-wise product.
- **The `Vector3<int>` algebra.** This covers the component-wise operators, `dot`, `cross`, `reflect`, `zero`, and the in-place `+=` and `*=`.

## Files

The files follow the source's structure.

- `graph_math.dfy`: module `GraphMath`, for GraphMath/Vector3.hpp.
  - `Vector3i` is a value type with the operators as functions.
  - `MutableVector3i` is a class over a 3-element array, for `+=` and `*=`.
  - `Vector3d` is over `real`.
- `pixel_buffer.dfy`: module `PixelBuffer`. It holds what the exporters share:
  - row-major cell indexing and `std::vector::resize`;
  - the `int` to `unsigned char` conversion;
  - the RGB and RGBA byte layouts;
  - the decimal text `operator<<` writes for an integer.
- `plain_ppm.dfy`: module `PlainPpm`. It is the P3 text of `ExporterManager::endWrite`, as the sequence of stream writes and as the resulting text. A whitespace-token reader sits beside it, with a proved round trip.
- `exporter_manager.dfy`: module `Exporter`. Class `ExporterManager`, whose methods are proved against `PlainPpm.Text` and `PixelBuffer.Pack`.
- `ppm_manager.dfy`: module `PPMExport`. Class `PPMManager`.
- `shape_tree.dfy`: module `ShapeTree`. Shapes live in an arena of records addressed by handles.
  - A record that is not `alive` stands for a shape whose `weak_ptr`s have expired.
  - Class `ShapeArena` holds the records and edits them in place.
  - The walks are recursive functions, together with an imperative `generatePriorityList`.
- `partial_processor.dfy`: module `Partial`. Class `PartialProcessor`. `writeToFullImage` writes a caller's `array`.
- `ray_color.dfy`: module `RayColor`.
  - `Radiance` is the recursive function.
  - `ComputeRayColor` and `NearestScan` are the loops of `rayColor`, proved against it.
  - The shapes' `hit`, the materials' `scatter` and the normalisation of the direction are functions of a `World` value.
- `seqs.dfy` and `wrappers.dfy` hold generic sequence lemmas and `Option`.

## Notes on the source

Some behaviours of the code are easy to misread from its names. The model follows the code in each case.

- **Sort direction.** `isAscending == true` uses `>` (Shape/Shape.h:61-63), so it orders by non-increasing priority; `false` orders by non-decreasing priority. `ShapeTree.SortedForMeaning` states this.
- **Nearest-hit selection.** Only hits with `t > 0.0` qualify, and ties go to the earliest shape in the list, because the comparison is a strict `<` (RayTracer/RayColor.cpp:28).
- **`PPMManager` output.** Despite its name, `PPMManager::endWrite` writes a three-channel PNG (Exporter/PPMManager.cpp:37-44). Its plain-PPM text output is commented out.
- **`setLabel`.** `setLabel` assigns the label the shape already has, so it changes nothing (Shape/Shape.h:78).

## Model

| member | source | states |
|---|---|---|
| GraphMath.Zero | GraphMath/Vector3.hpp:116-118 | `zero()`, also the default constructor's value; `AddZeroIdentity`, `CrossSelfIsZero` and `Length2IsSelfDot` state its properties |
| GraphMath.Neg | GraphMath/Vector3.hpp:26 | unary minus; `NegInvolution`, `SubIsAddNeg` and `CrossAntiCommutes` state its properties |
| GraphMath.Add | GraphMath/Vector3.hpp:32-34 | `u + v`; `AddComponentwise`, `AddCommutes` and `AddZeroIdentity` state its properties, `AddAssign` is proved against it |
| GraphMath.Sub | GraphMath/Vector3.hpp:36-38 | `u - v`; `AddComponentwise` and `SubIsAddNeg` state its properties |
| GraphMath.Mul | GraphMath/Vector3.hpp:40-42 | the component-wise `u * v`; `MulCommutes` states its property |
| GraphMath.Scale | GraphMath/Vector3.hpp:44-46 | `t * v`; `ScaleCommutes` states its property, `MulAssign` is proved against it |
| GraphMath.ScaleRight | GraphMath/Vector3.hpp:48-50 | `v * t`; `ScaleCommutes` shows it equals `t * v` |
| GraphMath.Length2 | GraphMath/Vector3.hpp:81-83 | `length2`; `Length2IsSelfDot` states its properties |
| GraphMath.Dot | GraphMath/Vector3.hpp:85-87 | `dot`; `DotCommutes`, `Length2IsSelfDot` and `CrossOrthogonal` state its properties |
| GraphMath.Cross | GraphMath/Vector3.hpp:89-93 | `cross`; `CrossOrthogonal`, `CrossSelfIsZero` and `CrossAntiCommutes` state its properties |
| GraphMath.Reflect | GraphMath/Vector3.hpp:104-106 | `reflect`; `ReflectFlipsNormalComponent` and `DotSubScale` state its properties |
| GraphMath.MulD | GraphMath/Vector3.hpp:40-42 | the component-wise product of `Vector3d`, which applies an attenuation in `rayColor`; `MulDZero` states its property |
| GraphMath.AddComponentwise | GraphMath/Vector3.hpp:32-38 | `u + v` and `u - v` act component by component |
| GraphMath.AddZeroIdentity | GraphMath/Vector3.hpp:116-118 | `zero()` is a two-sided identity of `+` |
| GraphMath.AddCommutes | GraphMath/Vector3.hpp:32-34 | `u + v == v + u` |
| GraphMath.NegInvolution | GraphMath/Vector3.hpp:26 | unary minus is an involution |
| GraphMath.SubIsAddNeg | GraphMath/Vector3.hpp:26-38 | `u - v == u + (-v)` |
| GraphMath.DotCommutes | GraphMath/Vector3.hpp:85-87 | `dot(u, v) == dot(v, u)` |
| GraphMath.Length2IsSelfDot | GraphMath/Vector3.hpp:81-87 | `length2(v) == dot(v, v)`, it is never negative, and it is 0 exactly for the zero vector |
| GraphMath.CrossOrthogonal | GraphMath/Vector3.hpp:89-93 | `cross(u, v)` is orthogonal to both `u` and `v` |
| GraphMath.CrossSelfIsZero | GraphMath/Vector3.hpp:89-93 | `cross(u, u) == zero()` |
| GraphMath.CrossAntiCommutes | GraphMath/Vector3.hpp:89-93 | `cross(u, v) == -cross(v, u)` |
| GraphMath.ScaleCommutes | GraphMath/Vector3.hpp:44-50 | `v * t == t * v`, and both scale each component by `t` |
| GraphMath.MulCommutes | GraphMath/Vector3.hpp:40-42 | the component-wise product commutes |
| GraphMath.ReflectFlipsNormalComponent | GraphMath/Vector3.hpp:104-106 | for `dot(n, n) == 1`, `dot(reflect(v, n), n) == -dot(v, n)` |
| GraphMath.DotSubScale | GraphMath/Vector3.hpp:104-106 | `dot(v - k n, n) == dot(v, n) - k dot(n, n)`, the step that `reflect`'s property rests on |
| GraphMath.MutableVector3i.constructor | GraphMath/Vector3.hpp:20 | a fresh array holding `c0, c1, c2` |
| GraphMath.MutableVector3i.Default | GraphMath/Vector3.hpp:19 | a fresh array holding the zero vector |
| GraphMath.MutableVector3i.AddAssign | GraphMath/Vector3.hpp:56-61 | after `a += b`, `a` is the old `a` plus `b` |
| GraphMath.MutableVector3i.MulAssign | GraphMath/Vector3.hpp:63-68 | after `a *= t`, `a` is `t` times the old `a` |
| GraphMath.MulDZero | GraphMath/Vector3.hpp:40-42 | the component-wise product with the zero vector is zero, on either side |
| PixelBuffer.CellIndex | Exporter/ExporterManager.cpp:69 | the row-major index `x + y*width`; `CellIndexInBounds` bounds it |
| PixelBuffer.PixelBytes | Exporter/ExporterManager.cpp:54-57 | the bytes of one cell; `PackCell` places them in the packed vector |
| PixelBuffer.Pack | Exporter/ExporterManager.cpp:52-58 | the packed byte vector, `Stride()` bytes per cell; `PackCell`, `PackAppend` and `UnpackPack` state its properties, `FillRgba`, `FillRgb` and both `EndWrite`s are proved against it |
| PixelBuffer.NatToDecimal | Exporter/ExporterManager.cpp:39 | the decimal text of a size; `NatToDecimalRoundTrip` states its properties |
| PixelBuffer.IntToDecimal | GraphMath/Vector3.hpp:29 | the decimal text of an `int` component; `IntToDecimalRoundTrip` states that it reads back |
| PixelBuffer.Resize | Exporter/ExporterManager.cpp:26 | `resize(n)` gives length `n`, keeps the old cells below `n` and fills the new ones with zero vectors |
| PixelBuffer.CellIndexInBounds | Exporter/ExporterManager.cpp:69 | pixel `(x, y)` with `x < w` and `y < h` has row-major index `x + y*w < w*h` |
| PixelBuffer.MulMonotone | Exporter/ExporterManager.cpp:69 | row offsets `y*w` grow with `y`, so rows do not overlap |
| PixelBuffer.ToByte | Exporter/ExporterManager.cpp:54-56 | the conversion to `unsigned char` keeps the value modulo 256 and is the identity on 0..255 |
| PixelBuffer.PackCell | Exporter/ExporterManager.cpp:52-58 | cell `i` occupies bytes `4i .. 4i+3` (RGBA) or `3i .. 3i+2` (RGB) of the packed vector, holding r, g, b and, for RGBA, 255 |
| PixelBuffer.PackAppend | Exporter/ExporterManager.cpp:53-58 | packing handles the cells one after another: the bytes of a concatenation are the concatenated bytes |
| PixelBuffer.PackStep | Exporter/ExporterManager.cpp:53-58 | writing the bytes of cell `i` after the packed first `i` cells gives the packed first `i + 1` cells |
| PixelBuffer.UnpackPack | Exporter/PPMManager.cpp:37-42 | when every channel is in 0..255, the packed bytes give back exactly the buffer |
| PixelBuffer.NatToDecimalRoundTrip | Exporter/ExporterManager.cpp:39 | the decimal text of a size is non-empty, all digits, has no leading zero and reads back as the size |
| PixelBuffer.IntToDecimalRoundTrip | GraphMath/Vector3.hpp:28-30 | the text written for an `int` component, with a minus sign when negative, reads back as that component |
| PlainPpm.Header | Exporter/ExporterManager.cpp:39 | the header `P3\n w h\n255\n`; `TokensOfHeader` states what it reads as |
| PlainPpm.PixelLine | Exporter/ExporterManager.cpp:42 | the line `r g b\n` of one cell; `TokensOfLine` states what it reads as |
| PlainPpm.Lines | Exporter/ExporterManager.cpp:40-44 | the writes of the pixel loop, one per cell; `StreamPpm` is proved against it |
| PlainPpm.Pixels | Exporter/ExporterManager.cpp:40-44 | the pixel text; `ConcatLines` and `TokensOfPixels` state its properties |
| PlainPpm.Concat | Exporter/ExporterManager.cpp:39-44 | the stream contents after a sequence of writes; `ConcatAppend`, `ConcatLines` and `StreamedText` state its properties |
| PlainPpm.Text | Exporter/ExporterManager.cpp:39-44 | the whole P3 file; `StreamedText` ties it to the writes and `TextRoundTrip` reads it back, and `EndWrite` is proved against it |
| PlainPpm.StreamedText | Exporter/ExporterManager.cpp:39-44 | the header write followed by one write per cell, in order, is the whole P3 file `Text` |
| PlainPpm.ConcatLines | Exporter/ExporterManager.cpp:40-44 | streaming the pixel lines one by one yields the pixel text, first pixel first |
| PlainPpm.TokensOfHeader | Exporter/ExporterManager.cpp:39 | the header reads as exactly the tokens `P3`, width, height, `255` |
| PlainPpm.TokensOfLine | GraphMath/Vector3.hpp:28-30 | a pixel line `r g b\n` reads as exactly its three decimal components |
| PlainPpm.TokensOfPixels | Exporter/ExporterManager.cpp:40-44 | the pixel text reads as three tokens per cell, in row-major order |
| PlainPpm.TextRoundTrip | Exporter/ExporterManager.cpp:39-44 | reading back the P3 text gives exactly the width, the height and the `w*h` cells written |
| Exporter.ExporterManager.constructor | Exporter/ExporterManager.h:35-36 | the size is 0 by 0 and the buffer is empty |
| Exporter.ExporterManager.StartWrite | Exporter/ExporterManager.cpp:23-27 | records the width and height and resizes the buffer to `w*h` cells, so the buffer length matches the size |
| Exporter.ExporterManager.WriteColor | Exporter/ExporterManager.cpp:68-70 | sets only cell `x + y*width` to the colour; the size and every other cell are unchanged |
| Exporter.ExporterManager.EndWrite | Exporter/ExporterManager.cpp:29-66 | PPM: fails with no file when the stream does not open, otherwise succeeds with the P3 text. PNG: succeeds with `w`, `h`, 4 channels and the RGBA bytes. Any other type fails with no file |
| Exporter.ExporterManager.StreamPpm | Exporter/ExporterManager.cpp:39-44 | the writes are the header, then one line per cell of the whole buffer in row-major order (`j` outer, `i` inner) |
| Exporter.ExporterManager.StreamRow | Exporter/ExporterManager.cpp:41-43 | the inner loop writes the lines of the cells of row `j`, left to right |
| Exporter.ExporterManager.FillRgba | Exporter/ExporterManager.cpp:52-58 | the byte vector is the RGBA packing of the buffer, `4*w*h` bytes |
| Exporter.PutPixel | Exporter/ExporterManager.cpp:54-57 | the four assignments write r, g, b, 255 at offset `4i` and leave every other byte unchanged |
| PPMExport.PPMManager.constructor | Exporter/PPMManager.h:30-31 | the size is 0 by 0 and the buffer is empty |
| PPMExport.PPMManager.StartWrite | Exporter/PPMManager.cpp:23-27 | records the width and height and resizes the buffer to `w*h` cells |
| PPMExport.PPMManager.WriteColor | Exporter/PPMManager.cpp:62-64 | sets only cell `x + y*width`; everything else is unchanged |
| PPMExport.PPMManager.EndWrite | Exporter/PPMManager.cpp:29-60 | always returns true and hands the PNG writer `w`, `h`, 3 channels and the RGB bytes |
| PPMExport.PPMManager.FillRgb | Exporter/PPMManager.cpp:37-42 | the byte vector is the RGB packing of the buffer, `3*w*h` bytes |
| PPMExport.PutPixel | Exporter/PPMManager.cpp:39-41 | the three assignments write r, g, b at offset `3i` and leave every other byte unchanged |
| ShapeTree.Removed | Shape/Shape.h:103-121 | the two `remove_if` lambdas, both removing expired entries; `SurvivorsMembers` states its effect |
| ShapeTree.Survivors | Shape/Shape.h:104-110 | what `erase(remove_if)` keeps; `SurvivorsMembers`, `SurvivorsAppend` and `SurvivorsAll` state its properties, `RemoveIf` is proved against it |
| ShapeTree.AddChildState | Shape/Shape.h:94-96 | the arena after `addChild`; `AddChild` is proved against it, `AddChildKeepsRanked` states what it keeps |
| ShapeTree.RemoveState | Shape/Shape.h:103-121 | the arena after `removeChild` or `removeAllChildrenWithLabel`; both methods are proved against it, `RemoveKeepsRanked` states what it keeps |
| ShapeTree.SetParentState | Shape/Shape.h:85-90 | the arena after `setParent`; `SetParent` is proved against it |
| ShapeTree.BindState | Shape/Shape.h:98-101 | the arena after `bindShapes`; `BindFresh`, `BindMoves` and `BindSameParent` state its three cases, `BindShapes` is proved against it |
| ShapeTree.PreOrder | Shape/Shape.h:48-56 | the pre-order list of the live tree; `PreOrderLive` and `HitAllIsFirstInPreOrder` state its properties, `Collect` and `GeneratePriorityList` are proved against it |
| ShapeTree.ChildrenOrder | Shape/Shape.h:51-56 | the lists of the children from a position on; `ChildrenOrderLive` and `HitChildrenIsFirst` state its properties |
| ShapeTree.HitAll | Shape/Shape.h:34-46 | `hitAll`; `HitAllIsFirstInPreOrder` states that it finds the first shape of the pre-order list whose `hit` succeeds |
| ShapeTree.HitChildren | Shape/Shape.h:39-44 | the loop of `hitAll` over the children; `HitChildrenIsFirst` states what it finds |
| ShapeTree.Before | Shape/Shape.h:58-69 | the comparator; `SortedForMeaning` states the order it gives |
| ShapeTree.ShapeArena.Label | Shape/Shape.h:77 | `label()`; `SetLabel` leaves it unchanged |
| ShapeTree.ShapeArena.Priority | Shape/Shape.h:80 | `priority()`; `SetPriority` sets it |
| ShapeTree.SurvivorsMembers | Shape/Shape.h:103-121 | after `erase(remove_if)`, an entry remains exactly when it was there, is live and is not removed by the lambda |
| ShapeTree.SurvivorsAppend | Shape/Shape.h:104-110 | survivors keep their relative order |
| ShapeTree.SurvivorsAll | Shape/Shape.h:104-110 | when the lambda removes no entry, the list is unchanged |
| ShapeTree.SurvivorsOfSameShapes | Shape/Shape.h:105-110 | what survives depends only on which shapes are live and on their labels |
| ShapeTree.RemoveIf | Shape/Shape.h:104-110 | the one-pass `remove_if` keeps, in order, exactly the survivors |
| ShapeTree.BindFresh | Shape/Shape.h:98-101 | a child with no live parent becomes the last child of `p` and has parent `p`; no other shape changes |
| ShapeTree.BindMoves | Shape/Shape.h:98-101 | rebinding from a live parent `q != p` removes the child (and expired entries) from `q`'s children, appends it to `p`'s, and sets its parent to `p` |
| ShapeTree.BindSameParent | Shape/Shape.h:98-101 | rebinding to the current parent leaves the child out of `p`'s children, while its parent is still `p` |
| ShapeTree.AddChildKeepsRanked | Shape/Shape.h:94-96 | adding a child of lower rank keeps the tree acyclic |
| ShapeTree.RemoveKeepsRanked | Shape/Shape.h:103-121 | removing children never makes the tree cyclic |
| ShapeTree.SetParentKeepsRanked | Shape/Shape.h:85-90 | `setParent` never makes the tree cyclic |
| ShapeTree.BindKeepsRanked | Shape/Shape.h:98-101 | `bindShapes(p, c)` keeps the tree acyclic when `c` ranks below `p` |
| ShapeTree.PreOrderLive | Shape/Shape.h:48-56 | every shape in the flattened list is live |
| ShapeTree.FirstWhereSpec | Shape/Shape.h:34-46 | the reference search finds nothing exactly when nothing is accepted, and otherwise an accepted element with none accepted before it |
| ShapeTree.HitAllIsFirstInPreOrder | Shape/Shape.h:34-46 | `hitAll` succeeds exactly at the first shape of the pre-order list whose `hit` succeeds, and fails when none does |
| ShapeTree.HitChildrenIsFirst | Shape/Shape.h:39-44 | the loop over the children finds the first hit of the children's pre-order lists, in order |
| ShapeTree.SortedForMeaning | Shape/Shape.h:58-69 | with `isAscending == true` a sorted list has non-increasing priorities; with `false`, non-decreasing ones |
| ShapeTree.SortByPriority | Shape/Shape.h:70 | the sort returns a permutation of the list that is sorted for the comparator |
| ShapeTree.InsertSorted | Shape/Shape.h:70 | inserting into a sorted list keeps it sorted and adds exactly the one element |
| ShapeTree.InsertKeepsSorted | Shape/Shape.h:70 | inserting before the first element the new one goes before keeps the order |
| ShapeTree.CollectStep | Shape/Shape.h:51-56 | appending a live child's list, or nothing for an expired child, keeps the collected list on track for the pre-order list |
| ShapeTree.ShapeArena.Create | Shape/Shape.h:28-29 | a new live shape with the given label and priority, no parent and no children, at a new handle |
| ShapeTree.ShapeArena.Release | Shape/Shape.h:131-133 | the last owner letting go expires every `weak_ptr` to the shape and changes nothing else |
| ShapeTree.ShapeArena.SetLabel | Shape/Shape.h:78 | `setLabel` changes nothing, because it assigns the current label |
| ShapeTree.ShapeArena.SetPriority | Shape/Shape.h:81 | only the priority of the shape changes |
| ShapeTree.ShapeArena.AddChild | Shape/Shape.h:94-96 | the child is appended to the end of the children, without deduplication; earlier entries and all other shapes are unchanged |
| ShapeTree.ShapeArena.RemoveChild | Shape/Shape.h:103-111 | the children become the survivors: every entry for `ptr` and every expired entry go, and the rest keep their order |
| ShapeTree.ShapeArena.RemoveAllChildrenWithLabel | Shape/Shape.h:113-121 | every live child with that label and every expired entry are removed, and the rest keep their order |
| ShapeTree.ShapeArena.SetParent | Shape/Shape.h:85-90 | a live old parent drops this shape from its children, then the parent link becomes `q` |
| ShapeTree.ShapeArena.BindShapes | Shape/Shape.h:98-101 | the child is appended to `p`'s children, then `setParent(p)` runs on the result |
| ShapeTree.ShapeArena.GeneratePriorityList | Shape/Shape.h:48-74 | without a value the result is the pre-order list. With one it is a permutation of that list, sorted for the comparator. In both cases only live shapes appear |
| ShapeTree.ShapeArena.AllInArena | Shape/Shape.h:48-56 | every element of a permutation of the pre-order list is a shape of the arena |
| ShapeTree.ShapeArena.Collect | Shape/Shape.h:49-56 | the shape itself, then the list of each live child. Without sorting this is exactly the pre-order list, and in every case a permutation of it |
| Partial.TileOf | Concurrency/PartialProcessor.cpp:38-40 | the loop bounds and offsets of `writeToFullImage`; `TileCount` and `InsideImage` state its properties |
| Partial.FullIndex | Concurrency/PartialProcessor.cpp:40 | the full-image index of tile cell `(i, j)`; `FullIndexInjective` states its property |
| Partial.WriteColumn | Concurrency/PartialProcessor.cpp:39-42 | the full image after the inner loop; `ColumnKeeps` and `ColumnIgnoresBase` state its properties |
| Partial.Composite | Concurrency/PartialProcessor.cpp:38-43 | the full image after the outer loop; `CompositeKeeps` and `CompositeIgnoresBase` state its properties |
| Partial.Blit | Concurrency/PartialProcessor.cpp:36-44 | the full image after `writeToFullImage`, of the same length; `BlitOutside`, `BlitRectangle` and `CompositeCommutes` state its properties, `WriteToFullImage` is proved against it |
| Partial.Colour | Concurrency/PartialProcessor.cpp:25 | the colour of tile cell `(x, y)`, at the y-flipped row; `ColourMeans` and `Process` state it |
| Partial.Spot | Concurrency/PartialProcessor.cpp:17-19 | the image pixel of tile cell `(x, y)`; `SpotMeans` and `Process` state it |
| Partial.BlitOutside | Concurrency/PartialProcessor.cpp:36-44 | the copy leaves every full-image cell outside the tile's rectangle as it was |
| Partial.BlitRectangle | Concurrency/PartialProcessor.cpp:38-41 | after the copy, full-image cell `left+i + (top+j)*fullWidth` holds tile cell `i + j*w` |
| Partial.CompositeCommutes | Concurrency/PartialProcessor.cpp:36-44 | two tiles that write disjoint cells give the same full image in either order |
| Partial.ColumnKeeps | Concurrency/PartialProcessor.cpp:39-42 | inner iterations leave alone a cell none of them writes |
| Partial.CompositeKeeps | Concurrency/PartialProcessor.cpp:38-43 | outer iterations leave alone a cell none of them writes |
| Partial.ColumnIgnoresBase | Concurrency/PartialProcessor.cpp:39-42 | a cell written in a column ends up the same whatever the column held before |
| Partial.CompositeIgnoresBase | Concurrency/PartialProcessor.cpp:38-43 | a cell the copy writes ends up the same whatever the full image held before |
| Partial.FullIndexInjective | Concurrency/PartialProcessor.cpp:40 | when a tile row is no wider than a full row, distinct tile cells go to distinct full-image cells |
| Partial.InsideImage | Concurrency/PartialProcessor.cpp:40 | a tile whose ranges lie inside `fullSize` writes only indices below `fullW*fullH`, and its rows are no wider than the image's |
| Partial.RenderedStep | Concurrency/PartialProcessor.cpp:17-31 | filling one more row while keeping the earlier rows covers one row more |
| Partial.RenderedAppend | Concurrency/PartialProcessor.cpp:17-31 | appending one row to the visited pixels covers one row more |
| Partial.RowDone | Concurrency/PartialProcessor.cpp:17-31 | one outer iteration extends both the buffer and the visiting order by a row |
| Partial.ColourMeans | Concurrency/PartialProcessor.cpp:25 | a rendered tile cell `(x, y)` holds the colour for column `wf+x` and flipped row `fullH-1-(hf+y)` |
| Partial.SpotMeans | Concurrency/PartialProcessor.cpp:17-19 | the visit at tile cell `(x, y)` is image pixel `(wf+x, hf+y)` |
| Partial.PartialProcessor.constructor | Concurrency/PartialProcessor.h:34-38 | keeps the scene info and id, sets the tile width and height from the inclusive ranges, and gives `width*height` zero cells |
| Partial.PartialProcessor.WriteColor | Concurrency/PartialProcessor.cpp:46-48 | sets only cell `x + y*width` to the colour; every other cell is unchanged |
| Partial.PartialProcessor.TileCount | Concurrency/PartialProcessor.cpp:38-39 | the loops of the copy run over the tile's columns and rows, and the buffer holds them all |
| Partial.PartialProcessor.WriteToFullImage | Concurrency/PartialProcessor.cpp:36-44 | the full image becomes the copy `Blit` of the tile, and the tile buffer is not changed |
| Partial.PartialProcessor.Process | Concurrency/PartialProcessor.cpp:14-34 | each pixel of the tile's inclusive ranges is visited once, row by row, and stored at its tile cell. Every cell `(x, y)` ends up holding the colour of column `wf+x` at the y-flipped row `fullH-1-(hf+y)` |
| Partial.PartialProcessor.ProcessRow | Concurrency/PartialProcessor.cpp:19-31 | the inner loop fills tile row `y` left to right and keeps the rows before it |
| Partial.PartialProcessor.RowGeometry | Concurrency/PartialProcessor.h:35-37 | row `y` of the tile lies inside its buffer |
| RayColor.Reported | RayTracer/RayColor.cpp:27 | what a shape reports in a hit test on `(0.001, infinity)`; `ComputeRayColor` shows every test uses those bounds |
| RayColor.Qualifies | RayTracer/RayColor.cpp:27-28 | a hit the nearest-hit scan can take; `NearestUpToSpec` uses it |
| RayColor.Chosen | RayTracer/RayColor.cpp:23-65 | the hit `rayColor` goes on with; `NearestScan` is proved against it, `NearestUpToSpec` and `FirstUpToSpec` characterise it |
| RayColor.Sky | RayTracer/RayColor.cpp:44-47 | the background; `SkyOfDirection`, `NearestMissIsSky` and `FirstMissIsSky` state its properties |
| RayColor.Radiance | RayTracer/RayColor.cpp:14-71 | the colour `rayColor` returns; `DepthCutoff`, `NearestMissIsSky`, `NearestHitColour`, `FirstMissIsSky` and `FirstHitColour` state its cases, `ComputeRayColor` is proved against it |
| RayColor.NearestUpTo | RayTracer/RayColor.cpp:26-32 | the index the scan holds is one of the shapes seen so far and reports a hit with `t > 0` |
| RayColor.NearestUpToSpec | RayTracer/RayColor.cpp:24-32 | the scan finds nothing exactly when no shape reports `t > 0`. Otherwise it finds exactly the hit of least `t`, ties going to the earliest shape |
| RayColor.NearestFound | RayTracer/RayColor.cpp:26-32 | what the scan holds after `n` shapes is nothing or the nearest qualifying hit among them |
| RayColor.NearestUnique | RayTracer/RayColor.cpp:28 | with the strict `<`, at most one shape is the nearest |
| RayColor.FirstUpTo | RayTracer/RayColor.cpp:54-65 | the first-hit scan only finds shapes that report a hit |
| RayColor.FirstUpToSpec | RayTracer/RayColor.cpp:54-65 | the first-hit scan finds nothing exactly when no shape reports a hit. Otherwise it finds the first shape that does, whatever its `t` |
| RayColor.FirstStays | RayTracer/RayColor.cpp:55-64 | once a shape has reported a hit, later shapes do not change the choice |
| RayColor.DepthCutoff | RayTracer/RayColor.cpp:18 | with `depth <= 0` the colour is black for any ray and any list |
| RayColor.SkyOfDirection | RayTracer/RayColor.cpp:44-47 | the background depends on the ray's direction only |
| RayColor.NearestMissIsSky | RayTracer/RayColor.cpp:33-48 | in nearest-hit mode, with no hit at `t > 0`, the colour is the background |
| RayColor.NearestHitColour | RayTracer/RayColor.cpp:33-42 | in nearest-hit mode the colour comes from the nearest hit: black when it is absorbed, otherwise attenuation times the colour one bounce later |
| RayColor.FirstMissIsSky | RayTracer/RayColor.cpp:66-69 | in first-hit mode, with no hit, the colour is the background |
| RayColor.FirstHitColour | RayTracer/RayColor.cpp:54-65 | in first-hit mode the colour comes from the first shape that reports a hit, even when a later one is nearer: black when absorbed, otherwise attenuation times the colour one bounce later |
| RayColor.ComputeRayColor | RayTracer/RayColor.cpp:14-71 | returns `Radiance`. Every hit test is made with `t_min = 0.001` and `t_max = infinity`. The recursion, each level with `depth - 1` and the same policy, tests the list at most `depth` times |
| RayColor.NearestScan | RayTracer/RayColor.cpp:24-32 | the loop keeps the nearest qualifying hit, so `nearHit.t < infinity` afterwards means a hit was found; it makes one hit test per shape |

## Left out

- **Floating point.** `double` is modelled as Dafny's exact `real`. Rounding, NaN and infinite `t` values reported by a shape are not modelled.
- **Intersection tests, materials and direction normalisation.** `Shape::hit` is an uninterpreted function: `hitAll`'s `hit` and `rayColor`'s `hit` in `World`. `Material::scatter` and the `y` of `normalize(direction)` are functions of `World`. Sphere intersection and the Lambertian, metal and dielectric materials are floating point and random.
- **`hitAll`'s `HitResult` out-parameter.** The model reports which shape's `hit` succeeded first. It assumes that a failing `hit` does not leave a partial result behind.
- **The camera and random sampling in `process`.** `process` averages `sampleCount` camera rays through `rayColor`. That colour is the parameter `shade` of the column and the y-flipped row. The camera, `randomReal` and the average are not modelled.
- **The `writeColor(..., Vector3d, bool)` overloads.** These apply gamma correction, multiply by 254.999 and truncate (Concurrency/PartialProcessor.cpp:50-57, Exporter/ExporterManager.cpp:72-79, Exporter/PPMManager.cpp:66-73). `Process` stores `shade`'s integer colour directly.
- **File and stream I/O.** The `ofstream`, its close, the destructors and `stbi_write_png` are not modelled. Whether the file opens is the parameter `fileOpens`. What `endWrite` produces is the `FileOutput` value: the text, or the arguments of the PNG writer. The stream is modelled at the granularity of one write per `<<` statement of the pixel loop. The PNG writer's result is ignored, as in the source.
- **`PPMManager`'s plain-PPM code** is commented out in the source (Exporter/PPMManager.cpp:30-35, 46-57), so it is not modelled.
- **Threads, tile dispatch, futures and the join.** No such code is among the modelled files. The model is limited to one tile's buffer and the compositor.
- **`std::sort` tie order.** The sort is modelled as an insertion sort. Only the result's sortedness and that it is a permutation are stated. Its order among shapes of equal priority is not claimed to match `std::sort`.
- **Machine integers.** Sizes are `nat` and channel values are unbounded `int`. The `size_t` and `int` wrap-around of `w*h` and of the index arithmetic is not modelled. The `uint32_t` priority is a subtype of 0..2^32-1.
- **Vector3 `/` and `/=`, `length`, `normalize`, `nearZero` and `refract`.** These are floating point only. `/=` also lacks a return statement (GraphMath/Vector3.hpp:70-74). `operator[]` and the `x/y/z` accessors are datatype fields.
- **Null pointers.** A null `shared_ptr` passed to `addChild`, `removeChild` or `bindShapes` is not modelled. A null parent in `setParent` is `None`. A shape is addressed by handle only.
- **Shape ownership.** The arena marks a shape as released. It does not model who holds the `shared_ptr`s. Acyclicity of the tree is a hypothesis (`Ranked`) of the recursive walks, because the source's recursion does not end on a cycle.
- **Other `Shape` members.** `material`, `setMaterial` and the `parent()`/`children()` accessors are plain field reads. The accessors are `records[h].parent` and `records[h].children`.
- **`PartialSceneInfo.camera` and `shapeList`.** These only feed the colour, which is `shade`.
- **Scene/Scene.cpp and RayTracer/RayTracer.cpp.** These are the scene presets and the entry point. `RayTracer.cpp`'s own `rayColor` duplicates RayColor.cpp.
- **Out-of-range stores.** The three `writeColor(x, y, Vector3i)` methods require a cell index inside the buffer (Exporter/ExporterManager.cpp:68-70, Exporter/PPMManager.cpp:62-64, Concurrency/PartialProcessor.cpp:46-48). `writeToFullImage` requires every index it writes to lie inside the full image (`Fits`, Concurrency/PartialProcessor.cpp:36-44). Storing outside a `std::vector` is undefined behaviour in the source, so that case is not modelled.
- **Partial.BlitRectangle** requires that the tile's rows are no wider than a full-image row (`cols <= fullWidth`). Without that, cells of one tile row can land in the next full row, and a later write can overwrite an earlier one. `Partial.InsideImage` shows the condition holds for tiles inside the image.
- **Partial.PartialProcessor.constructor** requires a non-negative cell count. For a negative count, `resize` of a `std::vector` fails in the source.
- **Partial.InsideImage** states its bound only for non-empty ranges inside `fullSize`. It does not cover a tile whose range is empty.
