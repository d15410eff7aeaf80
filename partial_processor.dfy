/** `PartialProcessor` (Concurrency/PartialProcessor.h and .cpp): one tile of
    the image, given by inclusive column and row ranges of the full image. It
    renders its cells into a buffer of its own and then copies that buffer
    into the full image. */
module Partial {
  import opened GraphMath
  import opened PixelBuffer

  /** `std::pair<int, int>`. */
  datatype IntPair = IntPair(first: int, second: int)

  /** `PartialSceneInfo`, without the camera and the shape list, which only
      feed the colour of a pixel (see `Process`). */
  datatype PartialSceneInfo = PartialSceneInfo(
    fullSize: IntPair,
    widthRange: IntPair,
    heightRange: IntPair,
    maxDepth: int,
    sampleCount: int)

  /** How many times `for (int i = 0; i < n; ++i)` runs. */
  function Span(n: int): nat { if n < 0 then 0 else n }

  /** The geometry that `writeToFullImage` uses: the full-image cell of the
      tile's top-left corner, the number of columns and rows its loops run,
      and the width of a full-image row. */
  datatype Tile = Tile(left: int, top: int, cols: nat, rows: nat, stride: int)

  function TileOf(info: PartialSceneInfo): Tile
  {
    Tile(info.widthRange.first, info.heightRange.first,
         Span(info.widthRange.second - info.widthRange.first + 1),
         Span(info.heightRange.second - info.heightRange.first + 1),
         info.fullSize.first)
  }

  /** The full-image index that tile cell (i, j) is copied to. */
  function FullIndex(t: Tile, i: nat, j: nat): int
  {
    t.left + i + (t.top + j) * t.stride
  }

  /** Every index the copy writes lies inside a full image of `len` cells. */
  ghost predicate Fits(t: Tile, len: nat)
  {
    forall i: nat, j: nat :: i < t.cols && j < t.rows ==> 0 <= FullIndex(t, i, j) < len
  }

  /** Full-image cell `k` is written by the copy of tile `t`. */
  ghost predicate Touched(t: Tile, k: int)
  {
    exists i: nat, j: nat :: i < t.cols && j < t.rows && FullIndex(t, i, j) == k
  }

  /** Full-image cell `k` is written by column `i` of the copy of tile `t`. */
  ghost predicate ColumnTouched(t: Tile, i: nat, k: int)
  {
    exists j: nat :: j < t.rows && FullIndex(t, i, j) == k
  }

  /** The full image after the first `j` iterations of the inner loop of
      `writeToFullImage` for column `i`. */
  function WriteColumn(full: seq<Vector3i>, tile: seq<Vector3i>, t: Tile, i: nat, j: nat): (r: seq<Vector3i>)
    requires Fits(t, |full|) && t.cols * t.rows <= |tile|
    requires i < t.cols && j <= t.rows
    ensures |r| == |full|
  {
    if j == 0 then full
    else
      CellIndexInBounds(i, j - 1, t.cols, t.rows);
      WriteColumn(full, tile, t, i, j - 1)[FullIndex(t, i, j - 1) := tile[CellIndex(i, j - 1, t.cols)]]
  }

  /** The full image after the first `i` iterations of the outer loop. */
  function Composite(full: seq<Vector3i>, tile: seq<Vector3i>, t: Tile, i: nat): (r: seq<Vector3i>)
    requires Fits(t, |full|) && t.cols * t.rows <= |tile|
    requires i <= t.cols
    ensures |r| == |full|
  {
    if i == 0 then full else WriteColumn(Composite(full, tile, t, i - 1), tile, t, i - 1, t.rows)
  }

  /** The full image after the whole of `writeToFullImage`. */
  function Blit(full: seq<Vector3i>, tile: seq<Vector3i>, t: Tile): (r: seq<Vector3i>)
    requires Fits(t, |full|) && t.cols * t.rows <= |tile|
    ensures |r| == |full|
  {
    Composite(full, tile, t, t.cols)
  }

  /** Inner iterations `lo` up to `hi` leave alone a cell none of them writes. */
  lemma {:induction false} ColumnKeeps(full: seq<Vector3i>, tile: seq<Vector3i>, t: Tile, i: nat, lo: nat, hi: nat, k: int)
    requires Fits(t, |full|) && t.cols * t.rows <= |tile|
    requires i < t.cols && lo <= hi <= t.rows && 0 <= k < |full|
    requires forall j: nat :: lo <= j < hi ==> FullIndex(t, i, j) != k
    ensures WriteColumn(full, tile, t, i, hi)[k] == WriteColumn(full, tile, t, i, lo)[k]
  {
    if lo < hi {
      ColumnKeeps(full, tile, t, i, lo, hi - 1, k);
    }
  }

  /** Outer iterations `lo` up to `hi` leave alone a cell none of them writes. */
  lemma {:induction false} CompositeKeeps(full: seq<Vector3i>, tile: seq<Vector3i>, t: Tile, lo: nat, hi: nat, k: int)
    requires Fits(t, |full|) && t.cols * t.rows <= |tile|
    requires lo <= hi <= t.cols && 0 <= k < |full|
    requires forall i: nat, j: nat :: lo <= i < hi && j < t.rows ==> FullIndex(t, i, j) != k
    ensures Composite(full, tile, t, hi)[k] == Composite(full, tile, t, lo)[k]
  {
    if lo < hi {
      CompositeKeeps(full, tile, t, lo, hi - 1, k);
      ColumnKeeps(Composite(full, tile, t, hi - 1), tile, t, hi - 1, 0, t.rows, k);
    }
  }

  /** The copy leaves every full-image cell outside the tile as it was. */
  lemma BlitOutside(full: seq<Vector3i>, tile: seq<Vector3i>, t: Tile, k: int)
    requires Fits(t, |full|) && t.cols * t.rows <= |tile|
    requires 0 <= k < |full| && !Touched(t, k)
    ensures Blit(full, tile, t)[k] == full[k]
  {
    CompositeKeeps(full, tile, t, 0, t.cols, k);
  }

  /** A cell written in column `i` ends up the same whatever the column held. */
  lemma {:induction false} ColumnIgnoresBase(a: seq<Vector3i>, b: seq<Vector3i>, tile: seq<Vector3i>, t: Tile, i: nat, j: nat, k: int)
    requires |a| == |b| && Fits(t, |a|) && t.cols * t.rows <= |tile|
    requires i < t.cols && j <= t.rows
    requires exists j': nat :: j' < j && FullIndex(t, i, j') == k
    ensures WriteColumn(a, tile, t, i, j)[k] == WriteColumn(b, tile, t, i, j)[k]
  {
    if FullIndex(t, i, j - 1) != k {
      var j': nat :| j' < j && FullIndex(t, i, j') == k;
      ColumnIgnoresBase(a, b, tile, t, i, j - 1, k);
    }
  }

  /** A cell the copy writes ends up the same whatever the full image held. */
  lemma {:induction false} CompositeIgnoresBase(a: seq<Vector3i>, b: seq<Vector3i>, tile: seq<Vector3i>, t: Tile, i: nat, k: int)
    requires |a| == |b| && Fits(t, |a|) && t.cols * t.rows <= |tile|
    requires i <= t.cols
    requires exists i': nat, j': nat :: i' < i && j' < t.rows && FullIndex(t, i', j') == k
    ensures Composite(a, tile, t, i)[k] == Composite(b, tile, t, i)[k]
  {
    var pa, pb := Composite(a, tile, t, i - 1), Composite(b, tile, t, i - 1);
    if ColumnTouched(t, i - 1, k) {
      ColumnIgnoresBase(pa, pb, tile, t, i - 1, t.rows, k);
    } else {
      var i': nat, j': nat :| i' < i && j' < t.rows && FullIndex(t, i', j') == k;
      assert i' < i - 1;
      CompositeIgnoresBase(a, b, tile, t, i - 1, k);
      ColumnKeeps(pa, tile, t, i - 1, 0, t.rows, k);
      ColumnKeeps(pb, tile, t, i - 1, 0, t.rows, k);
    }
  }

  /** Two tiles whose copies write disjoint sets of cells can be copied into
      the full image in either order. */
  lemma CompositeCommutes(full: seq<Vector3i>, s: Tile, sTile: seq<Vector3i>, t: Tile, tTile: seq<Vector3i>)
    requires Fits(s, |full|) && s.cols * s.rows <= |sTile|
    requires Fits(t, |full|) && t.cols * t.rows <= |tTile|
    requires forall k :: !(Touched(s, k) && Touched(t, k))
    ensures Blit(Blit(full, sTile, s), tTile, t) == Blit(Blit(full, tTile, t), sTile, s)
  {
    var st, ts := Blit(Blit(full, sTile, s), tTile, t), Blit(Blit(full, tTile, t), sTile, s);
    forall k | 0 <= k < |full| ensures st[k] == ts[k] {
      if Touched(s, k) {
        BlitOutside(Blit(full, sTile, s), tTile, t, k);
        CompositeIgnoresBase(full, Blit(full, tTile, t), sTile, s, s.cols, k);
      } else if Touched(t, k) {
        BlitOutside(Blit(full, tTile, t), sTile, s, k);
        CompositeIgnoresBase(full, Blit(full, sTile, s), tTile, t, t.cols, k);
      } else {
        BlitOutside(Blit(full, sTile, s), tTile, t, k);
        BlitOutside(full, sTile, s, k);
        BlitOutside(Blit(full, tTile, t), sTile, s, k);
        BlitOutside(full, tTile, t, k);
      }
    }
  }

  /** When a tile row is no wider than a full-image row, distinct tile cells
      go to distinct full-image cells. */
  lemma FullIndexInjective(t: Tile, i: nat, j: nat, i': nat, j': nat)
    requires t.cols <= t.stride && i < t.cols && i' < t.cols
    requires FullIndex(t, i, j) == FullIndex(t, i', j')
    ensures i == i' && j == j'
  {
    var w := t.stride as nat;
    if j < j' {
      MulMonotone(j + 1, j', w);
    } else if j' < j {
      MulMonotone(j' + 1, j, w);
    }
  }

  /** When a tile row is no wider than a full-image row, the copy puts tile
      cell (i, j) at full-image cell (left + i, top + j). */
  lemma BlitRectangle(full: seq<Vector3i>, tile: seq<Vector3i>, t: Tile, i: nat, j: nat)
    requires Fits(t, |full|) && t.cols * t.rows <= |tile|
    requires t.cols <= t.stride && i < t.cols && j < t.rows
    ensures CellIndex(i, j, t.cols) < |tile|
    ensures Blit(full, tile, t)[FullIndex(t, i, j)] == tile[CellIndex(i, j, t.cols)]
  {
    CellIndexInBounds(i, j, t.cols, t.rows);
    var k := FullIndex(t, i, j);
    forall i': nat, j': nat | i + 1 <= i' < t.cols && j' < t.rows ensures FullIndex(t, i', j') != k {
      if FullIndex(t, i', j') == k { FullIndexInjective(t, i, j, i', j'); }
    }
    CompositeKeeps(full, tile, t, i + 1, t.cols, k);
    var before := Composite(full, tile, t, i);
    forall j': nat | j + 1 <= j' < t.rows ensures FullIndex(t, i, j') != k {
      if FullIndex(t, i, j') == k { FullIndexInjective(t, i, j, i, j'); }
    }
    ColumnKeeps(before, tile, t, i, j + 1, t.rows, k);
  }

  /** A non-empty tile whose ranges lie inside `fullSize` only writes cells of a
      `fullSize.first * fullSize.second` image, and its rows are no wider than
      the image's. */
  lemma InsideImage(info: PartialSceneInfo)
    requires 0 <= info.widthRange.first <= info.widthRange.second < info.fullSize.first
    requires 0 <= info.heightRange.first <= info.heightRange.second < info.fullSize.second
    ensures Fits(TileOf(info), info.fullSize.first * info.fullSize.second)
    ensures TileOf(info).cols <= TileOf(info).stride
  {
    var t := TileOf(info);
    forall i: nat, j: nat | i < t.cols && j < t.rows
      ensures 0 <= FullIndex(t, i, j) < info.fullSize.first * info.fullSize.second
    {
      var x, y: nat := info.widthRange.first + i, info.heightRange.first + j;
      CellIndexInBounds(x, y, info.fullSize.first, info.fullSize.second);
      assert FullIndex(t, i, j) == CellIndex(x, y, info.fullSize.first);
    }
  }

  /** The first `rows` rows, `cols` cells each, of the row-major `s` hold
      `f(column, row)`. */
  ghost predicate Rendered<T>(s: seq<T>, cols: nat, rows: nat, f: (nat, nat) -> T)
  {
    forall x: nat, y: nat :: x < cols && y < rows ==>
      CellIndex(x, y, cols) < |s| && s[CellIndex(x, y, cols)] == f(x, y)
  }

  /** Filling row `row` while keeping the rows before it renders one row more. */
  lemma RenderedStep<T>(prior: seq<T>, after: seq<T>, cols: nat, row: nat, f: (nat, nat) -> T)
    requires Rendered(prior, cols, row, f)
    requires row * cols + cols <= |after|
    requires forall k :: 0 <= k < row * cols ==> k < |prior| && after[k] == prior[k]
    requires forall x: nat :: x < cols ==> after[CellIndex(x, row, cols)] == f(x, row)
    ensures Rendered(after, cols, row + 1, f)
  {
    forall x: nat, y: nat | x < cols && y < row + 1
      ensures CellIndex(x, y, cols) < |after| && after[CellIndex(x, y, cols)] == f(x, y)
    {
      if y < row {
        MulMonotone(y + 1, row, cols);
      }
    }
  }

  /** Appending row `row` to the rows before it renders one row more. */
  lemma RenderedAppend<T>(prior: seq<T>, line: seq<T>, cols: nat, row: nat, f: (nat, nat) -> T)
    requires Rendered(prior, cols, row, f)
    requires |prior| == row * cols && |line| == cols
    requires forall x: nat :: x < cols ==> line[x] == f(x, row)
    ensures Rendered(prior + line, cols, row + 1, f)
  {
    forall x: nat | x < cols ensures (prior + line)[CellIndex(x, row, cols)] == f(x, row) {
      assert CellIndex(x, row, cols) == |prior| + x;
    }
    RenderedStep(prior, prior + line, cols, row, f);
  }

  /** One iteration of the outer loop of `process`: the tile buffer and the
      visiting order both cover one row more. */
  lemma RowDone<T, U>(prior: seq<T>, after: seq<T>, visited: seq<U>, line: seq<U>, cols: nat, row: nat,
                      f: (nat, nat) -> T, g: (nat, nat) -> U)
    requires Rendered(prior, cols, row, f) && Rendered(visited, cols, row, g)
    requires |prior| == |after| && row * cols + cols <= |after|
    requires forall k :: 0 <= k < row * cols ==> k < |prior| && after[k] == prior[k]
    requires forall x: nat :: x < cols ==> after[CellIndex(x, row, cols)] == f(x, row)
    requires |visited| == row * cols && |line| == cols
    requires forall x: nat :: x < cols ==> line[x] == g(x, row)
    ensures Rendered(after, cols, row + 1, f) && Rendered(visited + line, cols, row + 1, g)
    ensures |visited + line| == (row + 1) * cols
  {
    RenderedStep(prior, after, cols, row, f);
    RenderedAppend(visited, line, cols, row, g);
  }

  /** The colour `process` gives tile cell (x, y). */
  ghost function Colour(info: PartialSceneInfo, shade: (int, int) -> Vector3i): (nat, nat) -> Vector3i
  {
    (x: nat, y: nat) => shade(info.widthRange.first + x, info.fullSize.second - 1 - (info.heightRange.first + y))
  }

  /** The image pixel that `process` visits for tile cell (x, y). */
  ghost function Spot(info: PartialSceneInfo): (nat, nat) -> (int, int)
  {
    (x: nat, y: nat) => (info.widthRange.first + x, info.heightRange.first + y)
  }

  lemma ColourMeans(s: seq<Vector3i>, info: PartialSceneInfo, shade: (int, int) -> Vector3i, cols: nat, rows: nat)
    requires Rendered(s, cols, rows, Colour(info, shade))
    ensures forall x: nat, y: nat :: x < cols && y < rows ==>
      CellIndex(x, y, cols) < |s| &&
      s[CellIndex(x, y, cols)] == shade(info.widthRange.first + x, info.fullSize.second - 1 - (info.heightRange.first + y))
  {
  }

  lemma SpotMeans(s: seq<(int, int)>, info: PartialSceneInfo, cols: nat, rows: nat)
    requires Rendered(s, cols, rows, Spot(info))
    ensures forall x: nat, y: nat :: x < cols && y < rows ==>
      CellIndex(x, y, cols) < |s| && s[CellIndex(x, y, cols)] == (info.widthRange.first + x, info.heightRange.first + y)
  {
  }

  class PartialProcessor {
    const info: PartialSceneInfo
    const id: int
    const width: int
    const height: int
    var buffer: seq<Vector3i>

    ghost predicate Valid()
      reads this
    {
      && width == info.widthRange.second - info.widthRange.first + 1
      && height == info.heightRange.second - info.heightRange.first + 1
      && |buffer| == width * height
    }

    /** The `resize` of the constructor succeeds only for a non-negative cell
        count. */
    constructor (sceneInfo: PartialSceneInfo, iD: int)
      requires (sceneInfo.widthRange.second - sceneInfo.widthRange.first + 1)
             * (sceneInfo.heightRange.second - sceneInfo.heightRange.first + 1) >= 0
      ensures Valid()
      ensures info == sceneInfo && id == iD
      ensures buffer == seq(width * height, _ => Zero())
    {
      info := sceneInfo;
      id := iD;
      var w := sceneInfo.widthRange.second - sceneInfo.widthRange.first + 1;
      var h := sceneInfo.heightRange.second - sceneInfo.heightRange.first + 1;
      width, height := w, h;
      buffer := Resize([], w * h);
    }

    /** `writeColor(int, int, Vector3i)`: stores one tile cell, row-major. */
    method WriteColor(partialX: int, partialY: int, color: Vector3i)
      requires Valid()
      requires 0 <= partialX + partialY * width < |buffer|
      modifies this
      ensures Valid()
      ensures buffer == old(buffer)[partialX + partialY * width := color]
    {
      buffer := buffer[partialX + partialY * width := color];
    }

    /** The tile's ranges fix the loops of the copy, and its buffer is large
        enough for them. */
    lemma TileCount()
      requires Valid()
      ensures TileOf(info).cols * TileOf(info).rows <= |buffer|
      ensures width > 0 ==> TileOf(info).cols == width
    {
    }

    /** `writeToFullImage`: column by column, each column top to bottom, copies
        tile cell (i, j) to full-image cell `left + i + (top + j) * fullWidth`.
        It changes only `fullImage`. */
    method WriteToFullImage(fullImage: array<Vector3i>)
      requires Valid()
      requires Fits(TileOf(info), fullImage.Length)
      modifies fullImage
      ensures TileOf(info).cols * TileOf(info).rows <= |buffer|
      ensures fullImage[..] == Blit(old(fullImage[..]), buffer, TileOf(info))
    {
      TileCount();
      var t := TileOf(info);
      ghost var original := fullImage[..];
      var i := 0;
      while i < width
        invariant 0 <= i <= t.cols
        invariant fullImage[..] == Composite(original, buffer, t, i)
      {
        var j := 0;
        while j < height
          invariant 0 <= j <= t.rows
          invariant fullImage[..] == WriteColumn(Composite(original, buffer, t, i), buffer, t, i, j)
        {
          CellIndexInBounds(i, j, t.cols, t.rows);
          var k := info.widthRange.first + i + (info.heightRange.first + j) * info.fullSize.first;
          assert k == FullIndex(t, i, j) && i + j * width == CellIndex(i, j, t.cols);
          fullImage[k] := buffer[i + j * width];
          j := j + 1;
        }
        i := i + 1;
      }
    }

    /** `process`: rows of the tile outer, columns inner, each pixel once.
        The colour of image pixel (i, j), which the source averages over
        `sampleCount` camera rays, is `shade(i, fullSize.second - 1 - j)`:
        a function of the column and of the row counted from the bottom.
        `visited` lists the pixels in the order visited. */
    method Process(shade: (int, int) -> Vector3i) returns (ghost visited: seq<(int, int)>)
      requires Valid()
      modifies this
      ensures Valid()
      ensures |buffer| == old(|buffer|)
      ensures forall x: nat, y: nat :: x < TileOf(info).cols && y < TileOf(info).rows ==>
        CellIndex(x, y, TileOf(info).cols) < |buffer| &&
        buffer[CellIndex(x, y, TileOf(info).cols)]
          == shade(info.widthRange.first + x, info.fullSize.second - 1 - (info.heightRange.first + y))
      ensures |visited| == TileOf(info).cols * TileOf(info).rows
      ensures forall x: nat, y: nat :: x < TileOf(info).cols && y < TileOf(info).rows ==>
        CellIndex(x, y, TileOf(info).cols) < |visited| &&
        visited[CellIndex(x, y, TileOf(info).cols)] == (info.widthRange.first + x, info.heightRange.first + y)
    {
      ghost var c, rows := TileOf(info).cols, TileOf(info).rows;
      ghost var colour := Colour(info, shade);
      ghost var spot := Spot(info);
      visited := [];
      var j := info.heightRange.first;
      ghost var row: nat := 0;
      while j <= info.heightRange.second
        invariant Valid()
        invariant row == j - info.heightRange.first && row <= rows
        invariant |buffer| == old(|buffer|)
        invariant |visited| == row * c
        invariant Rendered(buffer, c, row, colour)
        invariant Rendered(visited, c, row, spot)
      {
        visited := ProcessRow(j, row, shade, visited);
        j := j + 1;
        row := row + 1;
      }
      ColourMeans(buffer, info, shade, c, rows);
      SpotMeans(visited, info, c, rows);
    }

    /** One iteration of the outer loop of `process`: the pixels of image
        row `j`, which is row `y` of the tile, left to right. */
    method ProcessRow(j: int, ghost y: nat, shade: (int, int) -> Vector3i, ghost visited: seq<(int, int)>)
      returns (ghost visited': seq<(int, int)>)
      requires Valid()
      requires info.heightRange.first <= j <= info.heightRange.second && y == j - info.heightRange.first
      requires |visited| == y * TileOf(info).cols
      requires Rendered(buffer, TileOf(info).cols, y, Colour(info, shade))
      requires Rendered(visited, TileOf(info).cols, y, Spot(info))
      modifies this
      ensures Valid()
      ensures TileOf(info).cols * TileOf(info).rows == |buffer|
      ensures |visited'| == (y + 1) * TileOf(info).cols
      ensures Rendered(buffer, TileOf(info).cols, y + 1, Colour(info, shade))
      ensures Rendered(visited', TileOf(info).cols, y + 1, Spot(info))
    {
      ghost var c := TileOf(info).cols;
      ghost var prior := buffer;
      RowGeometry(y);
      ghost var line := [];
      var i := info.widthRange.first;
      while i <= info.widthRange.second
        invariant Valid()
        invariant 0 <= i - info.widthRange.first <= c
        invariant forall k :: 0 <= k < y * c ==> buffer[k] == prior[k]
        invariant forall x: nat :: x < i - info.widthRange.first ==>
          buffer[CellIndex(x, y, c)] == shade(info.widthRange.first + x, info.fullSize.second - 1 - j)
        invariant |line| == i - info.widthRange.first
        invariant forall x: nat :: x < |line| ==> line[x] == (info.widthRange.first + x, j)
      {
        var color := shade(i, info.fullSize.second - 1 - j);
        ghost var x: nat := i - info.widthRange.first;
        assert x + (j - info.heightRange.first) * width == CellIndex(x, y, c);
        WriteColor(i - info.widthRange.first, j - info.heightRange.first, color);
        line := line + [(i, j)];
        i := i + 1;
      }
      RowDone(prior, buffer, visited, line, c, y, Colour(info, shade), Spot(info));
      visited' := visited + line;
    }

    /** Row `y` of a non-empty tile lies inside the buffer, whose rows are
        `width` cells long. */
    lemma RowGeometry(y: nat)
      requires Valid() && y < height
      ensures width >= 0 && TileOf(info).cols == width && TileOf(info).rows == height
      ensures (y + 1) * width <= |buffer|
    {
      MulMonotone(y + 1, height, width);
    }
  }
}
