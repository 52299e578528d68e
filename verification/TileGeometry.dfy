/** How a frame is cut into analysis tiles and GPU blocks, and why the per-tile sums
    compose to the whole-frame sum. */
module TileGeometry {
  import opened DivMod

  const TILE_ROWS: int := 15
  const TILE_COLS: int := 15
  const GPU_BLOCK_W: int := 32
  const GPU_BLOCK_H: int := 8
  const GPU_CHROMA_BLOCK_H: int := 4
  const GPU_MAX_ROWS_PER_THREAD: int := 9

  datatype Geometry = Geometry(valid: bool, rows: int, cols: int, tileW: int, tileH: int)

  const INVALID := Geometry(false, 0, 0, 0, 0)

  /** h is an admissible divisor: in 1..cap, dividing n, and accepted by pred. */
  predicate Admissible(n: int, cap: int, pred: int -> bool, h: int) {
    1 <= h <= cap && h <= n && n % h == 0 && pred(h)
  }

  predicate IsLargest(n: int, cap: int, pred: int -> bool, r: int) {
    Admissible(n, cap, pred, r) && forall h :: 1 <= h <= cap && Admissible(n, cap, pred, h) ==> h <= r
  }

  method LargestDivisor(n: int, cap: int, pred: int -> bool) returns (r: int)
    ensures r == 0 ==> forall h :: !Admissible(n, cap, pred, h)
    ensures r != 0 ==> IsLargest(n, cap, pred, r)
  {
    var h := if n < cap then n else cap;
    while h >= 1
      invariant forall k :: h < k ==> !Admissible(n, cap, pred, k)
      decreases h
    {
      if n % h == 0 && pred(h) {
        return h;
      }
      h := h - 1;
    }
    return 0;
  }

  function ComputeTileGeometry(w: int, h: int): Geometry {
    if w <= 0 || h <= 0 then INVALID
    else if w % TILE_COLS != 0 || h % TILE_ROWS != 0 then INVALID
    else
      var tileW, tileH := w / TILE_COLS, h / TILE_ROWS;
      if tileW % GPU_BLOCK_W != 0 || tileH % GPU_BLOCK_H != 0 then INVALID
      else if (tileW / 2) % GPU_BLOCK_W != 0 || (tileH / 2) % GPU_CHROMA_BLOCK_H != 0 then INVALID
      else Geometry(true, TILE_ROWS, TILE_COLS, tileW, tileH)
  }

  /** Blocks per tile, and the rows one thread walks. */
  datatype TileMap = TileMap(blocksX: int, blocksY: int, rowsPerThread: int)

  datatype PlaneGrid = PlaneGrid(gridX: int, gridY: int, map_: TileMap)

  function AtLeastOne(n: int): (r: int)
    ensures r >= 1
  {
    if n > 0 then n else 1
  }

  function AnyHeight(h: int): bool {
    true
  }

  /** The rows each thread walks: the largest divisor of the tile's height in
      blocks up to the cap, or 1 when the tile is not whole blocks tall. */
  ghost predicate IsRowsPerThread(tileH: int, blockH: int, rows: int)
    requires blockH >= 1
  {
    if tileH % blockH != 0 then rows == 1
    else IsLargest(tileH / blockH, GPU_MAX_ROWS_PER_THREAD, AnyHeight, rows)
  }

  method GpuPlaneGrid(planeW: int, planeH: int, blockH: int) returns (g: PlaneGrid)
    ensures IsPlaneGrid(planeW, planeH, blockH, g)
  {
    var w, h, bh := AtLeastOne(planeW), AtLeastOne(planeH), AtLeastOne(blockH);
    var tileW, tileH := CeilDiv(w, TILE_COLS), CeilDiv(h, TILE_ROWS);
    var rows := 1;
    if tileH % bh == 0 {
      rows := LargestDivisor(tileH / bh, GPU_MAX_ROWS_PER_THREAD, AnyHeight);
      DivBounds(tileH, bh);
      assert tileH / bh >= 1;
      assert Admissible(tileH / bh, GPU_MAX_ROWS_PER_THREAD, AnyHeight, 1);
    }
    var spanH := bh * rows;
    assert spanH >= 1;
    var blocksX, blocksY := CeilDiv(tileW, GPU_BLOCK_W), CeilDiv(tileH, spanH);
    if blocksX < 1 {
      blocksX := 1;
    }
    if blocksY < 1 {
      blocksY := 1;
    }
    g := PlaneGrid(CeilDiv(w, GPU_BLOCK_W), CeilDiv(h, spanH), TileMap(blocksX, blocksY, rows));
  }

  /** What the grid must satisfy for any plane and block height, validated or not. */
  ghost predicate IsPlaneGrid(planeW: int, planeH: int, blockH: int, g: PlaneGrid) {
    var w, h, bh := AtLeastOne(planeW), AtLeastOne(planeH), AtLeastOne(blockH);
    var tileW, tileH := CeilDiv(w, TILE_COLS), CeilDiv(h, TILE_ROWS);
    && IsRowsPerThread(tileH, bh, g.map_.rowsPerThread)
    && var spanH := bh * g.map_.rowsPerThread;
       && spanH >= 1
       && g.gridX == CeilDiv(w, GPU_BLOCK_W)
       && g.gridY == CeilDiv(h, spanH)
       && g.map_.blocksX == AtLeastOne(CeilDiv(tileW, GPU_BLOCK_W))
       && g.map_.blocksY == AtLeastOne(CeilDiv(tileH, spanH))
  }

  /** The height of a block in plane rows. */
  function SpanH(blockH: int, g: PlaneGrid): int {
    AtLeastOne(blockH) * g.map_.rowsPerThread
  }

  // ----- any plane, validated or not -----

  /** The ceilings never fall short: enough blocks cover the axis, and dividing a
      block index by the blocks per tile stays below the number of tiles. */
  lemma AxisCovered(size: int, block: int, tiles: int, pixel: int, index: int)
    requires 0 < size && 0 < block && 0 < tiles
    requires 0 <= pixel < size
    requires 0 <= index < CeilDiv(size, block)
    ensures CeilDiv(size, tiles) >= 1 && CeilDiv(CeilDiv(size, tiles), block) >= 1
    ensures 0 <= pixel / block < CeilDiv(size, block)
    ensures 0 <= index / CeilDiv(CeilDiv(size, tiles), block) < tiles
  {
    var tile, grid := CeilDiv(size, tiles), CeilDiv(size, block);
    CancelMul(0, tile, tiles);
    var perTile := CeilDiv(tile, block);
    CancelMul(0, perTile, block);
    QuotientBelow(pixel, block, grid);
    MulLe(tile, perTile * block, tiles);
    assert perTile * block * tiles == perTile * tiles * block;
    CancelMul(grid - 1, perTile * tiles, block);
    QuotientBelow(index, perTile, tiles);
  }

  /** For every plane size and block height, accepted by the geometry or not, every
      pixel falls in some block of the grid, and every block in some tile. */
  lemma GridAlwaysCovers(planeW: int, planeH: int, blockH: int, g: PlaneGrid, x: int, y: int, bi: int, bj: int)
    requires IsPlaneGrid(planeW, planeH, blockH, g)
    requires 0 <= x < AtLeastOne(planeW) && 0 <= y < AtLeastOne(planeH)
    requires 0 <= bi < g.gridX && 0 <= bj < g.gridY
    ensures 0 <= x / GPU_BLOCK_W < g.gridX && 0 <= y / SpanH(blockH, g) < g.gridY
    ensures g.map_.blocksX >= 1 && g.map_.blocksY >= 1
    ensures 0 <= bi / g.map_.blocksX < TILE_COLS && 0 <= bj / g.map_.blocksY < TILE_ROWS
  {
    AxisCovered(AtLeastOne(planeW), GPU_BLOCK_W, TILE_COLS, x, bi);
    AxisCovered(AtLeastOne(planeH), SpanH(blockH, g), TILE_ROWS, y, bj);
  }

  // ----- an accepted frame -----

  /** The geometry accepts exactly the frames whose sides are positive multiples of
      15 tiles of two blocks wide and one block tall. */
  lemma AcceptedIff(w: int, h: int)
    ensures ComputeTileGeometry(w, h).valid <==> w > 0 && h > 0 && w % 960 == 0 && h % 120 == 0
  {
    WidthIff(w);
    HeightIff(h);
  }

  /** 960 is 15 tiles of two blocks, with whole blocks at half width too. */
  lemma WidthIff(w: int)
    ensures w % 960 == 0 <==> w % 15 == 0 && (w / 15) % 32 == 0 && (w / 15 / 2) % 32 == 0
  {
    if w % 960 == 0 {
      MultipleOf(w / 960, 64, 15);
      MultipleOf(w / 960, 32, 2);
      ModOfMultiple(w / 960 * 2, 32);
      ModOfMultiple(w / 960, 32);
    }
    if w % 15 == 0 && (w / 15) % 32 == 0 && (w / 15 / 2) % 32 == 0 {
      assert w / 15 == 2 * (w / 15 / 2) by {
        EvenBlocks(w / 15);
      }
      ModOfMultiple(w / 15 / 2 / 32, 960);
    }
  }

  lemma EvenBlocks(tile: int)
    requires tile % 32 == 0
    ensures tile == 2 * (tile / 2)
  {
    var k := tile / 32;
    assert tile == 32 * k;
    DivUnique(tile, 2, 16 * k);
  }

  lemma HeightIff(h: int)
    ensures h % 120 == 0 <==> h % 15 == 0 && (h / 15) % 8 == 0 && (h / 15 / 2) % 4 == 0
  {
    if h % 120 == 0 {
      MultipleOf(h / 120, 8, 15);
      MultipleOf(h / 120, 4, 2);
      ModOfMultiple(h / 120, 8);
      ModOfMultiple(h / 120, 4);
    }
    if h % 15 == 0 && (h / 15) % 8 == 0 {
      var v := h / 15 / 8;
      assert h == 120 * v;
      ModOfMultiple(v, 120);
    }
  }

  lemma MultipleOf(k: int, a: int, b: int)
    requires 0 < b
    ensures k * (a * b) == (k * a) * b
    ensures (k * (a * b)) / b == k * a && (k * (a * b)) % b == 0
  {
    DivUnique((k * a) * b, b, k * a);
    ModOfMultiple(k * a, b);
  }

  /** A plane cut exactly: tiles of whole blocks, and whole tiles. */
  predicate Exact(planeW: int, planeH: int, blockH: int, tileW: int, tileH: int) {
    && 0 < tileW && 0 < tileH && 0 < blockH
    && planeW == TILE_COLS * tileW && planeH == TILE_ROWS * tileH
    && tileW % GPU_BLOCK_W == 0 && tileH % blockH == 0
  }

  /** Both planes of an accepted frame, the chroma one at half size, are exact. */
  lemma AcceptedPlanesAreExact(w: int, h: int)
    requires ComputeTileGeometry(w, h).valid
    ensures var g := ComputeTileGeometry(w, h);
            && Exact(w, h, GPU_BLOCK_H, g.tileW, g.tileH)
            && Exact(w / 2, h / 2, GPU_CHROMA_BLOCK_H, g.tileW / 2, g.tileH / 2)
  {
    HalvesAgree(w / 15, w, 32);
    HalvesAgree(h / 15, h, 8);
  }

  /** Fifteen even tiles halve to fifteen half tiles. */
  lemma HalvesAgree(tile: int, size: int, block: int)
    requires size == 15 * tile && 0 < tile && (block == 32 || block == 8) && tile % block == 0
    ensures size / 2 == 15 * (tile / 2) && 0 < tile / 2
  {
    var k := tile / block;
    assert tile == block * k;
    assert tile == 2 * (tile / 2);
  }

  lemma ExactAxis(size: int, tile: int, block: int, tiles: int)
    requires 0 < tiles && 0 < block && 0 < tile && tile % block == 0 && size == tiles * tile
    ensures CeilDiv(size, tiles) == tile
    ensures CeilDiv(tile, block) == tile / block >= 1
    ensures (tile / block) * block == tile
    ensures CeilDiv(size, block) == tiles * (tile / block)
  {
    DivBounds(tile, block);
    var q := tile / block;
    assert q * block == tile;
    CancelMul(0, q, block);
    CeilDivExact(tile, tiles);
    CeilDivExact(q, block);
    assert size == tiles * q * block;
    CeilDivExact(tiles * q, block);
  }

  /** On an exact plane the block height still divides the tile height, so tiles,
      blocks and plane nest with nothing left over. */
  lemma ExactGrid(planeW: int, planeH: int, blockH: int, tileW: int, tileH: int, g: PlaneGrid)
    requires Exact(planeW, planeH, blockH, tileW, tileH)
    requires IsPlaneGrid(planeW, planeH, blockH, g)
    ensures SpanH(blockH, g) >= 1 && g.map_.blocksX >= 1 && g.map_.blocksY >= 1
    ensures g.map_.blocksX * GPU_BLOCK_W == tileW && g.map_.blocksY * SpanH(blockH, g) == tileH
    ensures g.gridX == TILE_COLS * g.map_.blocksX && g.gridY == TILE_ROWS * g.map_.blocksY
  {
    assert planeW == TILE_COLS * tileW && planeH == TILE_ROWS * tileH;
    ExactAxis(planeW, tileW, GPU_BLOCK_W, TILE_COLS);
    CeilDivExact(tileH, TILE_ROWS);
    assert CeilDiv(planeH, TILE_ROWS) == tileH;
    var rows := g.map_.rowsPerThread;
    var n := tileH / blockH;
    DivBounds(tileH, blockH);
    DivBounds(n, rows);
    assert tileH == (n / rows) * rows * blockH;
    assert (n / rows) * rows * blockH == (n / rows) * (blockH * rows);
    var span := blockH * rows;
    assert SpanH(blockH, g) == span;
    assert (n / rows) * span == tileH;
    ModOfMultiple(n / rows, span);
    ExactAxis(planeH, tileH, span, TILE_ROWS);
  }

  /** Pixel (x, y) belongs to block (bi, bj). */
  predicate InBlock(blockH: int, g: PlaneGrid, bi: int, bj: int, x: int, y: int) {
    && bi * GPU_BLOCK_W <= x < bi * GPU_BLOCK_W + GPU_BLOCK_W
    && bj * SpanH(blockH, g) <= y < bj * SpanH(blockH, g) + SpanH(blockH, g)
  }

  /** The blocks partition the plane's pixels: a pixel of the plane is in exactly
      one block of the grid, and a block of the grid holds only pixels of the
      plane, all of them in the tile its index divides to. */
  lemma BlocksPartitionThePlane(
    planeW: int, planeH: int, blockH: int, tileW: int, tileH: int, g: PlaneGrid, x: int, y: int, bi: int, bj: int)
    requires Exact(planeW, planeH, blockH, tileW, tileH)
    requires IsPlaneGrid(planeW, planeH, blockH, g)
    ensures 0 < SpanH(blockH, g) && 0 < g.map_.blocksX && 0 < g.map_.blocksY
    ensures InBlock(blockH, g, bi, bj, x, y) <==> bi == x / GPU_BLOCK_W && bj == y / SpanH(blockH, g)
    ensures InBlock(blockH, g, bi, bj, x, y) ==>
              (0 <= x < planeW && 0 <= y < planeH <==> 0 <= bi < g.gridX && 0 <= bj < g.gridY)
    ensures InBlock(blockH, g, bi, bj, x, y) ==> x / tileW == bi / g.map_.blocksX && y / tileH == bj / g.map_.blocksY
  {
    ExactGrid(planeW, planeH, blockH, tileW, tileH, g);
    var span := SpanH(blockH, g);
    QuotientBounds(x, GPU_BLOCK_W, bi);
    QuotientBounds(y, span, bj);
    if InBlock(blockH, g, bi, bj, x, y) {
      CellMembership(x, GPU_BLOCK_W, bi, g.gridX);
      CellMembership(y, span, bj, g.gridY);
      assert g.gridX * GPU_BLOCK_W == planeW;
      assert g.gridY * span == TILE_ROWS * (g.map_.blocksY * span) == planeH;
      assert tileW == GPU_BLOCK_W * g.map_.blocksX && tileH == span * g.map_.blocksY;
      NestedQuotient(x, GPU_BLOCK_W, g.map_.blocksX);
      NestedQuotient(y, span, g.map_.blocksY);
    }
  }

  // ----- blocks per tile -----

  /** The blocks of the grid whose index divides to tile (tx, ty). */
  ghost function BlocksOfTile(g: PlaneGrid, tx: int, ty: int): set<(int, int)>
    requires 0 < g.map_.blocksX && 0 < g.map_.blocksY
  {
    set bi, bj | 0 <= bi < g.gridX && 0 <= bj < g.gridY && bi / g.map_.blocksX == tx && bj / g.map_.blocksY == ty ::
      (bi, bj)
  }

  ghost function Rectangle(x0: int, x1: int, y0: int, y1: int): set<(int, int)> {
    set x, y | x0 <= x < x1 && y0 <= y < y1 :: (x, y)
  }

  lemma {:induction false} ColumnSize(x: int, y0: int, y1: int)
    requires y0 <= y1
    ensures |Rectangle(x, x + 1, y0, y1)| == y1 - y0
    decreases y1 - y0
  {
    if y0 < y1 {
      ColumnSize(x, y0, y1 - 1);
      assert Rectangle(x, x + 1, y0, y1) == Rectangle(x, x + 1, y0, y1 - 1) + {(x, y1 - 1)};
    } else {
      assert Rectangle(x, x + 1, y0, y1) == {};
    }
  }

  lemma {:induction false} RectangleSize(x0: int, x1: int, y0: int, y1: int)
    requires x0 <= x1 && y0 <= y1
    ensures |Rectangle(x0, x1, y0, y1)| == (x1 - x0) * (y1 - y0)
    decreases x1 - x0
  {
    if x0 < x1 {
      RectangleSize(x0, x1 - 1, y0, y1);
      ColumnSize(x1 - 1, y0, y1);
      var front, last := Rectangle(x0, x1 - 1, y0, y1), Rectangle(x1 - 1, x1, y0, y1);
      assert Rectangle(x0, x1, y0, y1) == front + last;
      assert front !! last;
      assert (x1 - x0) * (y1 - y0) == (x1 - 1 - x0) * (y1 - y0) + (y1 - y0);
    } else {
      assert Rectangle(x0, x1, y0, y1) == {};
    }
  }

  /** Of `tiles` runs of n, run t is the n numbers from t * n. */
  lemma TileAxis(i: int, n: int, t: int, tiles: int)
    requires 0 < n && 0 <= t < tiles
    ensures 0 <= i < tiles * n && i / n == t <==> t * n <= i < t * n + n
  {
    QuotientBounds(i, n, t);
    MulLe(0, t, n);
    MulLe(t + 1, tiles, n);
  }

  lemma BlocksAreARectangle(g: PlaneGrid, tx: int, ty: int)
    requires 0 < g.map_.blocksX && 0 < g.map_.blocksY
    requires g.gridX == TILE_COLS * g.map_.blocksX && g.gridY == TILE_ROWS * g.map_.blocksY
    requires 0 <= tx < TILE_COLS && 0 <= ty < TILE_ROWS
    ensures var x0, y0 := tx * g.map_.blocksX, ty * g.map_.blocksY;
            BlocksOfTile(g, tx, ty) == Rectangle(x0, x0 + g.map_.blocksX, y0, y0 + g.map_.blocksY)
  {
    var nx, ny := g.map_.blocksX, g.map_.blocksY;
    var blocks, cells := BlocksOfTile(g, tx, ty), Rectangle(tx * nx, tx * nx + nx, ty * ny, ty * ny + ny);
    forall bi, bj
      ensures (bi, bj) in blocks <==> (bi, bj) in cells
    {
      TileAxis(bi, nx, tx, TILE_COLS);
      TileAxis(bj, ny, ty, TILE_ROWS);
    }
  }

  /** Every tile of an exact plane gets blocks_x * blocks_y blocks. */
  lemma EveryTileGetsItsBlocks(
    planeW: int, planeH: int, blockH: int, tileW: int, tileH: int, g: PlaneGrid, tx: int, ty: int)
    requires Exact(planeW, planeH, blockH, tileW, tileH)
    requires IsPlaneGrid(planeW, planeH, blockH, g)
    requires 0 <= tx < TILE_COLS && 0 <= ty < TILE_ROWS
    ensures 0 < g.map_.blocksX && 0 < g.map_.blocksY
    ensures |BlocksOfTile(g, tx, ty)| == g.map_.blocksX * g.map_.blocksY
  {
    ExactGrid(planeW, planeH, blockH, tileW, tileH, g);
    BlocksAreARectangle(g, tx, ty);
    var x0, y0 := tx * g.map_.blocksX, ty * g.map_.blocksY;
    RectangleSize(x0, x0 + g.map_.blocksX, y0, y0 + g.map_.blocksY);
  }

  // ----- sums -----

  function RowSum(f: (int, int) -> int, y: int, x0: int, x1: int): int
    decreases x1 - x0
  {
    if x0 >= x1 then 0 else RowSum(f, y, x0, x1 - 1) + f(x1 - 1, y)
  }

  /** The sum of f over the pixels of a rectangle, row by row. */
  function RectSum(f: (int, int) -> int, x0: int, x1: int, y0: int, y1: int): int
    decreases y1 - y0
  {
    if y0 >= y1 then 0 else RectSum(f, x0, x1, y0, y1 - 1) + RowSum(f, y1 - 1, x0, x1)
  }

  /** The sum over a rectangle of cells, each cell summed by itself first. */
  function CellRowSum(f: (int, int) -> int, cw: int, ch: int, cy: int, cx0: int, cx1: int): int
    decreases cx1 - cx0
  {
    if cx0 >= cx1 then 0
    else CellRowSum(f, cw, ch, cy, cx0, cx1 - 1) + RectSum(f, (cx1 - 1) * cw, cx1 * cw, cy * ch, (cy + 1) * ch)
  }

  function CellsSum(f: (int, int) -> int, cw: int, ch: int, cx0: int, cx1: int, cy0: int, cy1: int): int
    decreases cy1 - cy0
  {
    if cy0 >= cy1 then 0
    else CellsSum(f, cw, ch, cx0, cx1, cy0, cy1 - 1) + CellRowSum(f, cw, ch, cy1 - 1, cx0, cx1)
  }

  lemma {:induction false} RowSumSplit(f: (int, int) -> int, y: int, x0: int, x1: int, x2: int)
    requires x0 <= x1 <= x2
    ensures RowSum(f, y, x0, x2) == RowSum(f, y, x0, x1) + RowSum(f, y, x1, x2)
    decreases x2 - x1
  {
    if x1 < x2 {
      RowSumSplit(f, y, x0, x1, x2 - 1);
    }
  }

  lemma {:induction false} RectSumSplitX(f: (int, int) -> int, x0: int, x1: int, x2: int, y0: int, y1: int)
    requires x0 <= x1 <= x2
    ensures RectSum(f, x0, x2, y0, y1) == RectSum(f, x0, x1, y0, y1) + RectSum(f, x1, x2, y0, y1)
    decreases y1 - y0
  {
    if y0 < y1 {
      RectSumSplitX(f, x0, x1, x2, y0, y1 - 1);
      RowSumSplit(f, y1 - 1, x0, x1, x2);
    }
  }

  lemma {:induction false} RectSumSplitY(f: (int, int) -> int, x0: int, x1: int, y0: int, y1: int, y2: int)
    requires y0 <= y1 <= y2
    ensures RectSum(f, x0, x1, y0, y2) == RectSum(f, x0, x1, y0, y1) + RectSum(f, x0, x1, y1, y2)
    decreases y2 - y1
  {
    if y1 < y2 {
      RectSumSplitY(f, x0, x1, y0, y1, y2 - 1);
    }
  }

  lemma {:induction false} EmptyRectSum(f: (int, int) -> int, x0: int, x1: int, y0: int, y1: int)
    requires x0 >= x1
    ensures RectSum(f, x0, x1, y0, y1) == 0
    decreases y1 - y0
  {
    if y0 < y1 {
      EmptyRectSum(f, x0, x1, y0, y1 - 1);
    }
  }

  lemma {:induction false} CellRowIsRect(f: (int, int) -> int, cw: int, ch: int, cy: int, cx0: int, cx1: int)
    requires 0 < cw && 0 < ch && cx0 <= cx1
    ensures CellRowSum(f, cw, ch, cy, cx0, cx1) == RectSum(f, cx0 * cw, cx1 * cw, cy * ch, (cy + 1) * ch)
    decreases cx1 - cx0
  {
    if cx0 < cx1 {
      CellRowIsRect(f, cw, ch, cy, cx0, cx1 - 1);
      assert cx0 * cw <= (cx1 - 1) * cw <= cx1 * cw;
      RectSumSplitX(f, cx0 * cw, (cx1 - 1) * cw, cx1 * cw, cy * ch, (cy + 1) * ch);
    } else {
      EmptyRectSum(f, cx0 * cw, cx1 * cw, cy * ch, (cy + 1) * ch);
    }
  }

  lemma {:induction false} CellsAreRect(
    f: (int, int) -> int, cw: int, ch: int, cx0: int, cx1: int, cy0: int, cy1: int)
    requires 0 < cw && 0 < ch && cx0 <= cx1 && cy0 <= cy1
    ensures CellsSum(f, cw, ch, cx0, cx1, cy0, cy1) == RectSum(f, cx0 * cw, cx1 * cw, cy0 * ch, cy1 * ch)
    decreases cy1 - cy0
  {
    if cy0 < cy1 {
      CellsAreRect(f, cw, ch, cx0, cx1, cy0, cy1 - 1);
      CellRowIsRect(f, cw, ch, cy1 - 1, cx0, cx1);
      assert cy0 * ch <= (cy1 - 1) * ch <= cy1 * ch;
      RectSumSplitY(f, cx0 * cw, cx1 * cw, cy0 * ch, (cy1 - 1) * ch, cy1 * ch);
    }
  }

  /** What tile (tx, ty) accumulates: its blocks, each reduced by itself. */
  function TileSum(f: (int, int) -> int, blockH: int, g: PlaneGrid, tx: int, ty: int): int {
    CellsSum(f, GPU_BLOCK_W, SpanH(blockH, g),
             tx * g.map_.blocksX, (tx + 1) * g.map_.blocksX, ty * g.map_.blocksY, (ty + 1) * g.map_.blocksY)
  }

  function TileRowTotal(f: (int, int) -> int, blockH: int, g: PlaneGrid, ty: int, n: nat): int {
    if n == 0 then 0 else TileRowTotal(f, blockH, g, ty, n - 1) + TileSum(f, blockH, g, n - 1, ty)
  }

  /** The frame total composed from the tiles, n rows of them. */
  function TilesTotal(f: (int, int) -> int, blockH: int, g: PlaneGrid, n: nat): int {
    if n == 0 then 0 else TilesTotal(f, blockH, g, n - 1) + TileRowTotal(f, blockH, g, n - 1, TILE_COLS)
  }

  lemma TileSumIsRect(
    f: (int, int) -> int, planeW: int, planeH: int, blockH: int, tileW: int, tileH: int, g: PlaneGrid, tx: nat, ty: nat)
    requires Exact(planeW, planeH, blockH, tileW, tileH)
    requires IsPlaneGrid(planeW, planeH, blockH, g)
    ensures TileSum(f, blockH, g, tx, ty) == RectSum(f, tx * tileW, (tx + 1) * tileW, ty * tileH, (ty + 1) * tileH)
  {
    ExactGrid(planeW, planeH, blockH, tileW, tileH, g);
    var nx, ny, span := g.map_.blocksX, g.map_.blocksY, SpanH(blockH, g);
    MulLe(tx, tx + 1, nx);
    MulLe(ty, ty + 1, ny);
    CellsAreRect(f, GPU_BLOCK_W, span, tx * nx, (tx + 1) * nx, ty * ny, (ty + 1) * ny);
    MulAssoc(tx, GPU_BLOCK_W, nx);
    MulAssoc(tx + 1, GPU_BLOCK_W, nx);
    MulAssoc(ty, span, ny);
    MulAssoc(ty + 1, span, ny);
  }

  lemma {:induction false} TileRowIsRect(
    f: (int, int) -> int, planeW: int, planeH: int, blockH: int, tileW: int, tileH: int, g: PlaneGrid, ty: nat, n: nat)
    requires Exact(planeW, planeH, blockH, tileW, tileH)
    requires IsPlaneGrid(planeW, planeH, blockH, g)
    ensures TileRowTotal(f, blockH, g, ty, n) == RectSum(f, 0, n * tileW, ty * tileH, (ty + 1) * tileH)
  {
    if n == 0 {
      EmptyRectSum(f, 0, n * tileW, ty * tileH, (ty + 1) * tileH);
    } else {
      TileRowIsRect(f, planeW, planeH, blockH, tileW, tileH, g, ty, n - 1);
      TileSumIsRect(f, planeW, planeH, blockH, tileW, tileH, g, n - 1, ty);
      MulLe(0, n - 1, tileW);
      MulLe(n - 1, n, tileW);
      RectSumSplitX(f, 0, (n - 1) * tileW, n * tileW, ty * tileH, (ty + 1) * tileH);
    }
  }

  lemma {:induction false} TileRowsCompose(
    f: (int, int) -> int, planeW: int, planeH: int, blockH: int, tileW: int, tileH: int, g: PlaneGrid, n: nat)
    requires Exact(planeW, planeH, blockH, tileW, tileH)
    requires IsPlaneGrid(planeW, planeH, blockH, g)
    ensures TilesTotal(f, blockH, g, n) == RectSum(f, 0, planeW, 0, n * tileH)
  {
    if n > 0 {
      TileRowsCompose(f, planeW, planeH, blockH, tileW, tileH, g, n - 1);
      AppendTileRow(f, planeW, planeH, blockH, tileW, tileH, g, n - 1);
    }
  }

  lemma AppendTileRow(
    f: (int, int) -> int, planeW: int, planeH: int, blockH: int, tileW: int, tileH: int, g: PlaneGrid, ty: nat)
    requires Exact(planeW, planeH, blockH, tileW, tileH)
    requires IsPlaneGrid(planeW, planeH, blockH, g)
    ensures RectSum(f, 0, planeW, 0, ty * tileH) + TileRowTotal(f, blockH, g, ty, TILE_COLS) ==
            RectSum(f, 0, planeW, 0, (ty + 1) * tileH)
  {
    TileRowIsRect(f, planeW, planeH, blockH, tileW, tileH, g, ty, TILE_COLS);
    MulLe(0, ty, tileH);
    MulLe(ty, ty + 1, tileH);
    RectSumSplitY(f, 0, planeW, 0, ty * tileH, (ty + 1) * tileH);
  }

  /** Composing block to tile to frame gives, for any integer pixel function, the
      sum of one pass over the whole plane. */
  lemma TilesComposeToThePlane(
    f: (int, int) -> int, planeW: int, planeH: int, blockH: int, tileW: int, tileH: int, g: PlaneGrid)
    requires Exact(planeW, planeH, blockH, tileW, tileH)
    requires IsPlaneGrid(planeW, planeH, blockH, g)
    ensures TilesTotal(f, blockH, g, TILE_ROWS) == RectSum(f, 0, planeW, 0, planeH)
  {
    TileRowsCompose(f, planeW, planeH, blockH, tileW, tileH, g, TILE_ROWS);
  }

  /** The tile of a plane, as its blocks: what TileSum adds up is exactly the blocks whose
      index divides to the tile. */
  lemma TileSumIsOverItsBlocks(
    planeW: int, planeH: int, blockH: int, tileW: int, tileH: int, g: PlaneGrid, tx: int, ty: int, bi: int, bj: int)
    requires Exact(planeW, planeH, blockH, tileW, tileH) && IsPlaneGrid(planeW, planeH, blockH, g)
    requires 0 <= tx < TILE_COLS && 0 <= ty < TILE_ROWS
    ensures 0 < g.map_.blocksX && 0 < g.map_.blocksY
    ensures (bi, bj) in BlocksOfTile(g, tx, ty) <==>
            && tx * g.map_.blocksX <= bi < (tx + 1) * g.map_.blocksX
            && ty * g.map_.blocksY <= bj < (ty + 1) * g.map_.blocksY
  {
    ExactGrid(planeW, planeH, blockH, tileW, tileH, g);
    BlocksAreARectangle(g, tx, ty);
    assert (tx + 1) * g.map_.blocksX == tx * g.map_.blocksX + g.map_.blocksX;
    assert (ty + 1) * g.map_.blocksY == ty * g.map_.blocksY + g.map_.blocksY;
  }

  /** On both planes of an accepted frame, the chroma one at half size, block to tile to
      frame adds up to one pass over the plane. */
  lemma AcceptedFramesCompose(f: (int, int) -> int, w: int, h: int, luma: PlaneGrid, chroma: PlaneGrid)
    requires ComputeTileGeometry(w, h).valid
    requires IsPlaneGrid(w, h, GPU_BLOCK_H, luma) && IsPlaneGrid(w / 2, h / 2, GPU_CHROMA_BLOCK_H, chroma)
    ensures TilesTotal(f, GPU_BLOCK_H, luma, TILE_ROWS) == RectSum(f, 0, w, 0, h)
    ensures TilesTotal(f, GPU_CHROMA_BLOCK_H, chroma, TILE_ROWS) == RectSum(f, 0, w / 2, 0, h / 2)
  {
    var g := ComputeTileGeometry(w, h);
    AcceptedPlanesAreExact(w, h);
    TilesComposeToThePlane(f, w, h, GPU_BLOCK_H, g.tileW, g.tileH, luma);
    TilesComposeToThePlane(f, w / 2, h / 2, GPU_CHROMA_BLOCK_H, g.tileW / 2, g.tileH / 2, chroma);
  }
}
