/** The chunk map as a value: what `getTile`, `setTile`, the `setTiles`
    handler and the `oldData` sync of `Chunk.render` do to it
    (main.js:77-156, main.js:750-756). The classes in module ChunkStore are
    proved to follow these functions. */
module ChunkSpec {
  import opened Tiles
  import opened Grid

  /** One chunk: its cells, the copy last drawn, and the redraw flag. */
  datatype ChunkState = ChunkState(data: seq<Byte>, oldData: seq<Byte>, needsRedraw: bool)

  /** The `chunks` dictionary, keyed by `chunkKey`. */
  type Chunks = map<int, ChunkState>

  predicate WellFormed(cs: Chunks) {
    forall k | k in cs :: |cs[k].data| == CellCount && |cs[k].oldData| == CellCount
  }

  /** Between two renders the drawn copy lags behind only in a chunk that is
      marked for redraw. */
  predicate Synced(cs: Chunks) {
    forall k | k in cs :: !cs[k].needsRedraw ==> cs[k].oldData == cs[k].data
  }

  /** A freshly constructed chunk: both arrays zero, no redraw pending
      (main.js:78-90). */
  function Blank(): (c: ChunkState)
    ensures |c.data| == CellCount && |c.oldData| == CellCount
    ensures forall i | 0 <= i < CellCount :: c.data[i] == 0
  {
    ChunkState(seq(CellCount, _ => 0), seq(CellCount, _ => 0), false)
  }

  /** The value a `Uint8Array` stores for an integer: its residue mod 256. */
  function ToByte(tile: int): (b: Byte)
    ensures 0 <= tile < 256 ==> b == tile
  {
    tile % 256
  }

  /** `getTile` (main.js:122-134). */
  function ReadTile(cs: Chunks, x: int, y: int): Byte
    requires WellFormed(cs)
  {
    var key := KeyOf(x, y);
    if key !in cs then 0 else cs[key].data[CellIndex(x, y)]
  }

  /** `setTile` (main.js:136-150): create the chunk if missing; stop if the
      cell already holds `tile`; otherwise store it and mark the chunk. */
  function WriteTile(cs: Chunks, x: int, y: int, tile: int): (cs': Chunks)
    requires WellFormed(cs)
    ensures WellFormed(cs')
  {
    var key := KeyOf(x, y);
    var c := if key in cs then cs[key] else Blank();
    var i := CellIndex(x, y);
    if c.data[i] == tile then cs[key := c]
    else cs[key := c.(data := c.data[i := ToByte(tile)], needsRedraw := true)]
  }

  /** Reading a cell nobody wrote gives 0, and it never fails. */
  lemma ReadAbsent(cs: Chunks, x: int, y: int)
    requires WellFormed(cs) && KeyOf(x, y) !in cs
    ensures ReadTile(cs, x, y) == 0
  {
  }

  /** After a write the cell reads back the stored byte. */
  lemma ReadAfterWrite(cs: Chunks, x: int, y: int, tile: int)
    requires WellFormed(cs)
    ensures ReadTile(WriteTile(cs, x, y, tile), x, y) == ToByte(tile)
  {
  }

  /** A write touches only its own cell: every cell with another chunk key
      or another index reads as before, every other chunk is untouched, and
      a chunk is created only when its key was missing. */
  lemma WriteFrame(cs: Chunks, x: int, y: int, tile: int, qx: int, qy: int)
    requires WellFormed(cs)
    requires KeyOf(qx, qy) != KeyOf(x, y) || CellIndex(qx, qy) != CellIndex(x, y)
    ensures ReadTile(WriteTile(cs, x, y, tile), qx, qy) == ReadTile(cs, qx, qy)
  {
  }

  lemma WriteKeys(cs: Chunks, x: int, y: int, tile: int)
    requires WellFormed(cs)
    ensures WriteTile(cs, x, y, tile).Keys == cs.Keys + {KeyOf(x, y)}
    ensures forall k | k in cs && k != KeyOf(x, y) :: WriteTile(cs, x, y, tile)[k] == cs[k]
  {
  }

  /** Writing the value a cell already holds changes nothing, the redraw
      flag included. */
  lemma WriteSameIsNoop(cs: Chunks, x: int, y: int, tile: int)
    requires WellFormed(cs) && KeyOf(x, y) in cs && ReadTile(cs, x, y) == tile
    ensures WriteTile(cs, x, y, tile) == cs
  {
  }

  /** A write keeps the invariant between the drawn copy and the flag. */
  lemma WriteKeepsSynced(cs: Chunks, x: int, y: int, tile: int)
    requires WellFormed(cs) && Synced(cs)
    ensures Synced(WriteTile(cs, x, y, tile))
  {
  }

  /** Reading back cell (qx, qy) after writing cell (x, y): the written byte
      if they are the same cell, the old value otherwise, for cells less than
      2 ** 16 apart horizontally. */
  lemma ReadWrite(cs: Chunks, x: int, y: int, tile: int, qx: int, qy: int)
    requires WellFormed(cs)
    requires -KeyBase < qx - x < KeyBase
    ensures ReadTile(WriteTile(cs, x, y, tile), qx, qy)
            == if qx == x && qy == y then ToByte(tile) else ReadTile(cs, qx, qy)
  {
    ChunkDistance(qx, x);
    CellAddressInjective(qx, qy, x, y);
    if qx != x || qy != y {
      WriteFrame(cs, x, y, tile, qx, qy);
    }
  }

  /** The key really does alias cells: cell (2 ** 23, -128) lies in chunk
      (2 ** 16, -1), whose key is that of chunk (0, 0), at the same index as
      cell (0, 0), so a write to one is read at the other. */
  lemma WriteAliases(cs: Chunks, tile: int)
    requires WellFormed(cs)
    ensures ReadTile(WriteTile(cs, 0, 0, tile), ChunkSize * KeyBase, -ChunkSize) == ToByte(tile)
  {
    assert ChunkOf(ChunkSize * KeyBase) == KeyBase && ChunkOf(-ChunkSize) == -1;
    assert KeyOf(ChunkSize * KeyBase, -ChunkSize) == KeyOf(0, 0);
    ModIsEuclidean(ChunkSize * KeyBase, ChunkSize);
    ModIsEuclidean(-ChunkSize, ChunkSize);
    assert CellIndex(ChunkSize * KeyBase, -ChunkSize) == CellIndex(0, 0);
    ReadAfterWrite(cs, 0, 0, tile);
  }

  /** Entry (x, y) of a row-major `size` by `size` block: `tileList[y * size + x]`. */
  function RowMajor(tiles: seq<int>, size: nat, x: nat, y: nat): int
    requires x < size && y < size && |tiles| >= size * size
  {
    BlockIndex(size, y, x);
    tiles[y * size + x]
  }

  lemma BlockIndex(size: nat, row: nat, col: nat)
    requires row < size && col < size
    ensures 0 <= row * size + col < size * size
  {
    MulLeft(row + 1, size, size);
    assert (row + 1) * size == row * size + size;
  }

  lemma {:induction false} MulLeft(a: nat, b: nat, c: nat)
    requires a <= b
    ensures a * c <= b * c
    decreases b - a
  {
    if a < b {
      MulLeft(a, b - 1, c);
      assert b * c == (b - 1) * c + c;
    }
  }

  /** The first `n` cells of row `row` of the `setTiles` block at
      (px, py), written left to right (the inner loop at main.js:752-754). */
  function WriteRow(cs: Chunks, px: int, py: int, size: nat, tiles: seq<int>, row: nat, n: nat): (cs': Chunks)
    requires WellFormed(cs)
    requires row < size && n <= size && |tiles| >= size * size
    ensures WellFormed(cs')
    decreases n
  {
    if n == 0 then cs
    else WriteTile(WriteRow(cs, px, py, size, tiles, row, n - 1), px + n - 1, py + row, RowMajor(tiles, size, n - 1, row))
  }

  /** The first `rows` rows of the block (the outer loop at main.js:751). */
  function WriteRows(cs: Chunks, px: int, py: int, size: nat, tiles: seq<int>, rows: nat): (cs': Chunks)
    requires WellFormed(cs)
    requires rows <= size && |tiles| >= size * size
    ensures WellFormed(cs')
    decreases rows
  {
    if rows == 0 then cs
    else WriteRow(WriteRows(cs, px, py, size, tiles, rows - 1), px, py, size, tiles, rows - 1, size)
  }

  /** After `n` cells of row `row`: a written cell holds its entry of
      `tiles`, every other cell reads as before. The cells considered are
      those whose column is less than 2 ** 16 away from every column of the
      block, so that no written cell aliases them. */
  lemma {:induction false} ReadWriteRow(cs: Chunks, px: int, py: int, size: nat, tiles: seq<int>,
                                        row: nat, n: nat, qx: int, qy: int)
    requires WellFormed(cs)
    requires row < size && n <= size && |tiles| >= size * size
    requires px + size - KeyBase <= qx < px + KeyBase
    ensures ReadTile(WriteRow(cs, px, py, size, tiles, row, n), qx, qy)
            == if qy == py + row && px <= qx < px + n then ToByte(RowMajor(tiles, size, qx - px, row))
               else ReadTile(cs, qx, qy)
    decreases n
  {
    if n > 0 {
      ReadWriteRow(cs, px, py, size, tiles, row, n - 1, qx, qy);
      ReadRowStep(cs, px, py, size, tiles, row, n, qx, qy);
    }
  }

  /** The last cell written by `WriteRow(.., n)` is the only one whose read
      differs from `WriteRow(.., n - 1)`. */
  lemma ReadRowStep(cs: Chunks, px: int, py: int, size: nat, tiles: seq<int>,
                    row: nat, n: nat, qx: int, qy: int)
    requires WellFormed(cs)
    requires row < size && 0 < n <= size && |tiles| >= size * size
    requires px + size - KeyBase <= qx < px + KeyBase
    ensures ReadTile(WriteRow(cs, px, py, size, tiles, row, n), qx, qy)
            == if qx == px + n - 1 && qy == py + row then ToByte(RowMajor(tiles, size, n - 1, row))
               else ReadTile(WriteRow(cs, px, py, size, tiles, row, n - 1), qx, qy)
  {
    var prev := WriteRow(cs, px, py, size, tiles, row, n - 1);
    ReadWrite(prev, px + n - 1, py + row, RowMajor(tiles, size, n - 1, row), qx, qy);
  }

  /** After `rows` full rows: a written cell holds its entry of `tiles`,
      every other cell within the same column distance reads as before. */
  lemma {:induction false} ReadWriteRows(cs: Chunks, px: int, py: int, size: nat, tiles: seq<int>,
                                         rows: nat, qx: int, qy: int)
    requires WellFormed(cs)
    requires rows <= size && |tiles| >= size * size
    requires px + size - KeyBase <= qx < px + KeyBase
    ensures ReadTile(WriteRows(cs, px, py, size, tiles, rows), qx, qy)
            == if py <= qy < py + rows && px <= qx < px + size then ToByte(RowMajor(tiles, size, qx - px, qy - py))
               else ReadTile(cs, qx, qy)
    decreases rows
  {
    if rows > 0 {
      ReadWriteRows(cs, px, py, size, tiles, rows - 1, qx, qy);
      ReadWriteRow(WriteRows(cs, px, py, size, tiles, rows - 1), px, py, size, tiles, rows - 1, size, qx, qy);
    }
  }

  /** The `setTiles` handler's promise: once the whole block is written,
      cell (px + x, py + y) holds entry y * size + x of `tiles`, provided the
      block is at most 2 ** 16 cells wide (so that no two of its cells share
      a chunk key and index). */
  lemma SetTilesReadsBack(cs: Chunks, px: int, py: int, size: nat, tiles: seq<int>, x: nat, y: nat)
    requires WellFormed(cs)
    requires size <= KeyBase && |tiles| >= size * size
    requires x < size && y < size
    ensures ReadTile(WriteRows(cs, px, py, size, tiles, size), px + x, py + y) == ToByte(RowMajor(tiles, size, x, y))
  {
    ReadWriteRows(cs, px, py, size, tiles, size, px + x, py + y);
  }

  /** The handler leaves every cell outside the block as it was, for cells
      whose column is less than 2 ** 16 away from every column of the
      block (farther cells may share a chunk key with a block cell). */
  lemma SetTilesFrame(cs: Chunks, px: int, py: int, size: nat, tiles: seq<int>, qx: int, qy: int)
    requires WellFormed(cs) && |tiles| >= size * size
    requires px + size - KeyBase <= qx < px + KeyBase
    requires !(px <= qx < px + size && py <= qy < py + size)
    ensures ReadTile(WriteRows(cs, px, py, size, tiles, size), qx, qy) == ReadTile(cs, qx, qy)
  {
    ReadWriteRows(cs, px, py, size, tiles, size, qx, qy);
  }

  /** `Chunk.render` as far as the chunk map sees it (main.js:92-104): the
      drawn copy catches up with the cells and the flag is cleared. */
  function Render(cs: Chunks, key: int): (cs': Chunks)
    requires WellFormed(cs) && Synced(cs) && key in cs
    ensures WellFormed(cs') && Synced(cs')
    ensures cs'.Keys == cs.Keys
    ensures cs'[key].oldData == cs'[key].data == cs[key].data && !cs'[key].needsRedraw
    ensures forall k | k in cs && k != key :: cs'[k] == cs[k]
  {
    if !cs[key].needsRedraw then cs
    else cs[key := cs[key].(oldData := cs[key].data, needsRedraw := false)]
  }
}
