/** The grouped order in which the launched blocks visit the tiles of C. */
module Swizzle {
  import opened Arithmetic
  import MatmulBlock

  const GROUP_SIZE_M := 8

  function Min(a: int, b: int): int { if a <= b then a else b }

  /** Rows of tiles in the group that starts at tile row `first`. */
  function GroupRows(gridM: int, first: int): int { Min(gridM - first, GROUP_SIZE_M) }

  /** The tile (row, column) worked on by block (blockIdx.x, blockIdx.y). */
  function TileOf(gridM: int, gridN: int, bX: int, bY: int): (tile: (int, int))
    requires 0 <= bX < gridN && 0 <= bY < gridM
    ensures 0 <= tile.0 < gridM && 0 <= tile.1 < gridN
  {
    var pid := bY * gridN + bX;
    var perGroup := GROUP_SIZE_M * gridN;
    var groupId := pid / perGroup;
    var first := groupId * GROUP_SIZE_M;
    var rows := GroupRows(gridM, first);
    var inGroup := pid % perGroup;
    GroupBounds(gridM, gridN, bX, bY);
    QuotientBelow(inGroup, rows, gridN);
    (first + inGroup % rows, inGroup / rows)
  }

  /** Position of a tile in the launch order. */
  function Pid(gridM: int, gridN: int, m: int, n: int): int {
    var first := m - m % GROUP_SIZE_M;
    first * gridN + n * GroupRows(gridM, first) + (m - first)
  }

  /** The block that works on tile (m, n). */
  function BlockFor(gridM: int, gridN: int, m: int, n: int): (b: (int, int))
    requires 0 <= m < gridM && 0 <= n < gridN
  {
    var pid := Pid(gridM, gridN, m, n);
    (pid % gridN, pid / gridN)
  }

  lemma GroupBounds(gridM: int, gridN: int, bX: int, bY: int)
    requires 0 <= bX < gridN && 0 <= bY < gridM
    ensures var pid := bY * gridN + bX;
            var first := pid / (GROUP_SIZE_M * gridN) * GROUP_SIZE_M;
            0 <= first < gridM && 0 <= pid
            && 0 <= pid % (GROUP_SIZE_M * gridN) < GroupRows(gridM, first) * gridN
            && pid == first * gridN + pid % (GROUP_SIZE_M * gridN)
  {
    var pid := bY * gridN + bX;
    var perGroup := GROUP_SIZE_M * gridN;
    PidBelow(gridM, gridN, bX, bY);
    GroupOf(gridM, gridN, perGroup, pid, pid / perGroup, pid % perGroup);
  }

  /** Block number pid, split by the group size, lands in an existing group. */
  lemma GroupOf(gridM: int, gridN: int, perGroup: int, pid: int, q: int, inGroup: int)
    requires gridN > 0 && 0 <= pid < gridM * gridN
    requires perGroup == GROUP_SIZE_M * gridN && 0 <= inGroup < perGroup
    requires pid == q * perGroup + inGroup
    ensures 0 <= q * GROUP_SIZE_M < gridM
    ensures inGroup < GroupRows(gridM, q * GROUP_SIZE_M) * gridN
    ensures pid == q * GROUP_SIZE_M * gridN + inGroup
  {
    var first := q * GROUP_SIZE_M;
    MulAssociates(q, GROUP_SIZE_M, gridN);
    if q < 0 {
      MulMonotone(q, -1, perGroup);
      assert false;
    }
    if first >= gridM {
      MulMonotone(gridM, first, gridN);
      assert false;
    }
    MulDistributes(gridM, first, gridN);
  }

  lemma PidBelow(gridM: int, gridN: int, bX: int, bY: int)
    requires 0 <= bX < gridN && 0 <= bY < gridM
    ensures 0 <= bY * gridN + bX < gridM * gridN
  {
    MulNonNegative(bY, gridN);
    MulMonotone(bY + 1, gridM, gridN);
    MulDistributes(bY, 1, gridN);
  }

  /** Every tile has its block: the swizzle hits each tile of the grid ... */
  lemma TileIsHit(gridM: int, gridN: int, m: int, n: int)
    requires 0 <= m < gridM && 0 <= n < gridN
    ensures var b := BlockFor(gridM, gridN, m, n);
            0 <= b.0 < gridN && 0 <= b.1 < gridM && TileOf(gridM, gridN, b.0, b.1) == (m, n)
  {
    hide TileOf, GroupRows;
    var first := m - m % GROUP_SIZE_M;
    var rows := GroupRows(gridM, first);
    var inGroup := n * rows + (m - first);
    var pid := first * gridN + inGroup;
    RowInGroup(gridM, m);
    InGroupBounds(gridM, gridN, m, n, first, rows);
    MulAssociates(first / GROUP_SIZE_M, GROUP_SIZE_M, gridN);
    DivModIs(pid, GROUP_SIZE_M * gridN, first / GROUP_SIZE_M, inGroup);
    DivModIs(inGroup, rows, n, m - first);
    QuotientBelow(pid, gridN, gridM);
    SplitsBack(pid, gridN);
    TileIs(gridM, gridN, pid % gridN, pid / gridN, first, inGroup);
  }

  lemma SplitsBack(x: int, d: int)
    requires d > 0
    ensures x / d * d + x % d == x && 0 <= x % d < d
  {}

  lemma RowInGroup(gridM: int, m: int)
    requires 0 <= m < gridM
    ensures var first := m - m % GROUP_SIZE_M; var rows := GroupRows(gridM, first);
            0 <= first <= m < first + rows && first + rows <= gridM && rows <= GROUP_SIZE_M
            && first / GROUP_SIZE_M * GROUP_SIZE_M == first
  {}

  lemma TileIs(gridM: int, gridN: int, bX: int, bY: int, first: int, inGroup: int)
    requires 0 <= bX < gridN && 0 <= bY < gridM
    requires (bY * gridN + bX) / (GROUP_SIZE_M * gridN) * GROUP_SIZE_M == first
    requires (bY * gridN + bX) % (GROUP_SIZE_M * gridN) == inGroup
    requires first < gridM
    ensures var rows := GroupRows(gridM, first);
            TileOf(gridM, gridN, bX, bY) == (first + inGroup % rows, inGroup / rows)
  {}

  lemma InGroupBounds(gridM: int, gridN: int, m: int, n: int, first: int, rows: int)
    requires 0 <= n < gridN && 0 <= first <= m < first + rows && first + rows <= gridM && rows <= GROUP_SIZE_M
    ensures 0 <= n * rows + (m - first) < GROUP_SIZE_M * gridN
    ensures 0 <= first * gridN && first * gridN + n * rows + (m - first) < gridM * gridN
  {
    MulNonNegative(n, rows);
    MulNonNegative(first, gridN);
    MulMonotone(n + 1, gridN, rows);
    MulDistributes(n, 1, rows);
    MulMonotone(rows, GROUP_SIZE_M, gridN);
    MulMonotone(rows, gridM - first, gridN);
    MulDistributes(gridM, first, gridN);
  }

  /** ... and no two blocks hit the same tile: BlockFor is its two-sided inverse. */
  lemma BlockIsUnique(gridM: int, gridN: int, bX: int, bY: int)
    requires 0 <= bX < gridN && 0 <= bY < gridM
    ensures var tile := TileOf(gridM, gridN, bX, bY);
            BlockFor(gridM, gridN, tile.0, tile.1) == (bX, bY)
  {
    hide TileOf, GroupRows;
    var pid := bY * gridN + bX;
    var perGroup := GROUP_SIZE_M * gridN;
    var first := pid / perGroup * GROUP_SIZE_M;
    var inGroup := pid % perGroup;
    GroupBounds(gridM, gridN, bX, bY);
    TileIs(gridM, gridN, bX, bY, first, inGroup);
    TileInGroup(gridM, gridN, pid / perGroup, inGroup);
    DivModIs(pid, gridN, bY, bX);
  }

  lemma TileInGroup(gridM: int, gridN: int, q: int, inGroup: int)
    requires 0 <= q * GROUP_SIZE_M < gridM && 0 <= inGroup
    ensures var first := q * GROUP_SIZE_M; var rows := GroupRows(gridM, first);
            rows > 0 && Pid(gridM, gridN, first + inGroup % rows, inGroup / rows) == first * gridN + inGroup
  {
    var first := q * GROUP_SIZE_M;
    var rows := GroupRows(gridM, first);
    SplitsBack(inGroup, rows);
    DivModIs(first + inGroup % rows, GROUP_SIZE_M, q, inGroup % rows);
  }

  lemma PidOfTile(gridM: int, gridN: int, bX: int, bY: int)
    requires 0 <= bX < gridN && 0 <= bY < gridM
    ensures var tile := TileOf(gridM, gridN, bX, bY); Pid(gridM, gridN, tile.0, tile.1) == bY * gridN + bX
  {
    hide TileOf, Pid;
    var tile := TileOf(gridM, gridN, bX, bY);
    BlockIsUnique(gridM, gridN, bX, bY);
    SplitsBack(Pid(gridM, gridN, tile.0, tile.1), gridN);
  }

  lemma TileOfPid(gridM: int, gridN: int, bX: int, bY: int, m: int, n: int)
    requires 0 <= bX < gridN && 0 <= bY < gridM && 0 <= m < gridM && 0 <= n < gridN
    requires Pid(gridM, gridN, m, n) == bY * gridN + bX
    ensures TileOf(gridM, gridN, bX, bY) == (m, n)
  {
    hide TileOf;
    TileIsHit(gridM, gridN, m, n);
    DivModIs(bY * gridN + bX, gridN, bY, bX);
  }

  /** The tile after (m, n): down its column inside the group, then the group's next column, then the next group. */
  function Successor(gridM: int, gridN: int, m: int, n: int): (int, int) {
    if m % 8 < 7 && m + 1 < gridM then (m + 1, n)
    else if n + 1 < gridN then (m - m % 8, n + 1)
    else (m + 1, 0)
  }

  lemma SuccessorPid(gridM: int, gridN: int, m: int, n: int)
    requires 0 <= m < gridM && 0 <= n < gridN
    ensures var next := Successor(gridM, gridN, m, n);
            next.0 < gridM ==> Pid(gridM, gridN, next.0, next.1) == Pid(gridM, gridN, m, n) + 1
    ensures Successor(gridM, gridN, m, n).0 >= gridM ==> Pid(gridM, gridN, m, n) + 1 == gridM * gridN
  {
    hide GroupRows;
    var first := m - m % GROUP_SIZE_M;
    var rows := GroupRows(gridM, first);
    RowInGroup(gridM, m);
    RowAfter(m);
    if m % GROUP_SIZE_M == GROUP_SIZE_M - 1 || m + 1 == gridM {
      LastInColumn(gridM, m);
      MulDistributes(n, 1, rows);
      MulDistributes(first, rows, gridN);
      MulCommutes(rows, gridN);
    }
  }

  lemma RowAfter(m: int)
    ensures (m - m % GROUP_SIZE_M) % GROUP_SIZE_M == 0
    ensures (m + 1) % GROUP_SIZE_M == if m % GROUP_SIZE_M < GROUP_SIZE_M - 1 then m % GROUP_SIZE_M + 1 else 0
  {}

  lemma LastInColumn(gridM: int, m: int)
    requires 0 <= m < gridM && (m % GROUP_SIZE_M == GROUP_SIZE_M - 1 || m + 1 == gridM)
    ensures m % GROUP_SIZE_M == GroupRows(gridM, m - m % GROUP_SIZE_M) - 1
  {}

  /** The launch visits a group of 8 tile rows column by column: the next block has the next tile in that order. */
  lemma BlocksWalkColumns(gridM: int, gridN: int, bX: int, bY: int, bX': int, bY': int)
    requires 0 <= bX < gridN && 0 <= bY < gridM && 0 <= bX' < gridN && 0 <= bY' < gridM
    requires bY' * gridN + bX' == bY * gridN + bX + 1
    ensures var tile := TileOf(gridM, gridN, bX, bY);
            TileOf(gridM, gridN, bX', bY') == Successor(gridM, gridN, tile.0, tile.1)
  {
    hide TileOf, Pid;
    var tile := TileOf(gridM, gridN, bX, bY);
    PidOfTile(gridM, gridN, bX, bY);
    SuccessorPid(gridM, gridN, tile.0, tile.1);
    PidBelow(gridM, gridN, bX', bY');
    var next := Successor(gridM, gridN, tile.0, tile.1);
    TileOfPid(gridM, gridN, bX', bY', next.0, next.1);
  }

  // ---------------------------------------------------------------- 32-bit arithmetic

  predicate IsInt32(x: int) { -0x8000_0000 <= x < 0x8000_0000 }

  /** Every value the source computes for a block in 32-bit ints, block_row and block_col included, fits. */
  predicate FitsInt32(gridM: int, gridN: int, bX: int, bY: int)
    requires 0 <= bX < gridN && 0 <= bY < gridM
  {
    GroupBounds(gridM, gridN, bX, bY);
    var pid := bY * gridN + bX;
    var perGroup := GROUP_SIZE_M * gridN;
    var first := pid / perGroup * GROUP_SIZE_M;
    var rows := GroupRows(gridM, first);
    var inGroup := pid % perGroup;
    var tile := TileOf(gridM, gridN, bX, bY);
    && IsInt32(gridM) && IsInt32(gridN) && IsInt32(pid) && IsInt32(perGroup)
    && IsInt32(pid / perGroup) && IsInt32(first) && IsInt32(gridM - first) && IsInt32(rows)
    && IsInt32(inGroup) && IsInt32(inGroup % rows) && IsInt32(tile.0) && IsInt32(tile.1)
    && IsInt32(tile.0 * MatmulBlock.TILE_M) && IsInt32(tile.1 * MatmulBlock.TILE_N)
  }

  /** The largest of them decide. */
  lemma FitsWhen(gridM: int, gridN: int, bX: int, bY: int)
    requires 0 <= bX < gridN && 0 <= bY < gridM
    ensures FitsInt32(gridM, gridN, bX, bY) <==>
              IsInt32(gridM) && IsInt32(bY * gridN + bX) && IsInt32(GROUP_SIZE_M * gridN)
              && IsInt32(TileOf(gridM, gridN, bX, bY).0 * MatmulBlock.TILE_M) && IsInt32(TileOf(gridM, gridN, bX, bY).1 * MatmulBlock.TILE_N)
  {
    hide TileOf;
    GroupBounds(gridM, gridN, bX, bY);
    var pid := bY * gridN + bX;
    var perGroup := GROUP_SIZE_M * gridN;
    SmallParts(pid, perGroup);
    SmallParts(pid % perGroup, GroupRows(gridM, pid / perGroup * GROUP_SIZE_M));
  }

  lemma SmallParts(x: int, d: int)
    requires x >= 0 && d > 0
    ensures 0 <= x / d <= x && 0 <= x % d <= x && 0 <= x % d < d
  {
    SplitsBack(x, d);
    if x / d < 0 {
      MulMonotone(x / d, -1, d);
    } else {
      MulMonotone(1, d, x / d);
      MulCommutes(d, x / d);
    }
  }

  /** On the grids CUDA can launch (gridDim.y is at most 65535) the 32-bit arithmetic of every block is
      defined if and only if there are at most 2^31 tiles in at most 2^25 columns. */
  lemma SwizzleFitsInt32(gridM: int, gridN: int)
    requires 1 <= gridM <= 65535 && gridN >= 1
    ensures (forall bX, bY :: 0 <= bX < gridN && 0 <= bY < gridM ==> FitsInt32(gridM, gridN, bX, bY))
            <==> gridM * gridN <= 0x8000_0000 && gridN <= 0x200_0000
  {
    hide TileOf, FitsInt32, BlockFor;
    if gridM * gridN <= 0x8000_0000 && gridN <= 0x200_0000 {
      forall bX, bY | 0 <= bX < gridN && 0 <= bY < gridM ensures FitsInt32(gridM, gridN, bX, bY) {
        PidBelow(gridM, gridN, bX, bY);
        FitsWhen(gridM, gridN, bX, bY);
      }
    } else if gridN > 0x200_0000 {
      TileIsHit(gridM, gridN, 0, gridN - 1);
      var b := BlockFor(gridM, gridN, 0, gridN - 1);
      FitsWhen(gridM, gridN, b.0, b.1);
      assert !FitsInt32(gridM, gridN, b.0, b.1);
    } else {
      MulDistributes(gridM, 1, gridN);
      FitsWhen(gridM, gridN, gridN - 1, gridM - 1);
      assert !FitsInt32(gridM, gridN, gridN - 1, gridM - 1);
    }
  }
}
