/** The sparse chunked tile store as the source keeps it: a dictionary of
    `Chunk` objects, each owning two byte arrays and a redraw flag, updated
    in place by `setTile` (main.js:77-156) and by the `setTiles` handler
    (main.js:750-756). Every method is proved against module ChunkSpec
    through the ghost view `Store.View()`. */
module ChunkStore {
  import opened Tiles
  import opened Grid
  import opened ChunkSpec

  /** `Chunk` (main.js:77-114) without its canvas. */
  class Chunk {
    const x: int
    const y: int
    const data: array<Byte>
    const oldData: array<Byte>
    var needsRedraw: bool

    ghost predicate Valid()
      reads this, data, oldData
    {
      && data.Length == CellCount
      && oldData.Length == CellCount
      && data != oldData
      && (!needsRedraw ==> oldData[..] == data[..])
    }

    ghost function State(): ChunkState
      reads this, data, oldData
    {
      ChunkState(data[..], oldData[..], needsRedraw)
    }

    constructor (x: int, y: int)
      ensures Valid() && fresh(data) && fresh(oldData)
      ensures this.x == x && this.y == y
      ensures State() == Blank()
    {
      this.x := x;
      this.y := y;
      data := new Byte[CellCount](_ => 0);
      oldData := new Byte[CellCount](_ => 0);
      needsRedraw := false;
      new;
      assert data[..] == Blank().data;
      assert oldData[..] == Blank().oldData;
    }

    /** The `oldData` sync of `render` (main.js:92-104), without the drawing:
        if a redraw is pending, copy every changed cell and clear the flag. */
    method Render()
      requires Valid()
      modifies this, oldData
      ensures Valid()
      ensures data[..] == old(data[..])
      ensures oldData[..] == data[..] && !needsRedraw
    {
      if !needsRedraw {
        return;
      }
      needsRedraw := false;
      for row := 0 to ChunkSize
        modifies oldData
        invariant forall i | 0 <= i < row * ChunkSize :: oldData[i] == data[i]
      {
        for col := 0 to ChunkSize
          modifies oldData
          invariant forall i | 0 <= i < row * ChunkSize + col :: oldData[i] == data[i]
        {
          var index := row * ChunkSize + col;
          var tile := data[index];
          if oldData[index] == tile {
            continue;
          }
          oldData[index] := tile;
        }
      }
      assert oldData[..] == data[..];
    }
  }

  /** No object of one chunk is shared with another chunk. */
  predicate Apart(a: Chunk, b: Chunk) {
    && a != b
    && a.data != b.data && a.data != b.oldData
    && a.oldData != b.data && a.oldData != b.oldData
  }

  /** The `chunks` dictionary with `getTile` and `setTile`. */
  class Store {
    var chunks: map<int, Chunk>
    ghost var Repr: set<object>

    ghost predicate Valid()
      reads this, Repr
    {
      && this in Repr
      && (forall k | k in chunks :: chunks[k] in Repr && chunks[k].data in Repr && chunks[k].oldData in Repr)
      && (forall k | k in chunks :: chunks[k].Valid())
      && (forall k, k' | k in chunks && k' in chunks && k != k' :: Apart(chunks[k], chunks[k']))
    }

    /** The dictionary as a value. */
    ghost function View(): (cs: Chunks)
      reads this, Repr
      requires Valid()
      ensures WellFormed(cs) && Synced(cs)
      ensures cs.Keys == chunks.Keys
    {
      map k | k in chunks :: chunks[k].State()
    }

    /** `let chunks = {}` (main.js:116). */
    constructor ()
      ensures Valid() && fresh(Repr)
      ensures View() == map[]
    {
      chunks := map[];
      Repr := {this};
    }

    /** `getTile` (main.js:122-134): 0 for a cell of a chunk never created. */
    function GetTile(x: int, y: int): (t: Byte)
      reads this, Repr
      requires Valid()
      ensures t == ReadTile(View(), x, y)
      ensures KeyOf(x, y) !in chunks ==> t == 0
    {
      var chunkX := x / ChunkSize;
      var chunkY := y / ChunkSize;
      var key := ChunkKey(chunkX, chunkY);
      if key !in chunks then 0
      else chunks[key].data[CellIndex(x, y)]
    }

    /** `setTile` (main.js:136-150), without the "Lucky" notification. */
    method SetTile(x: int, y: int, tile: int)
      requires Valid()
      modifies Repr
      ensures Valid() && fresh(Repr - old(Repr))
      ensures View() == WriteTile(old(View()), x, y, tile)
    {
      var chunkX := x / ChunkSize;
      var chunkY := y / ChunkSize;
      var key := ChunkKey(chunkX, chunkY);
      if key !in chunks {
        AddChunk(key, chunkX, chunkY);
      }
      var chunk := chunks[key];
      var index := CellIndex(x, y);
      if chunk.data[index] == tile {
        return;
      }
      StoreCell(key, index, ToByte(tile));
    }

    /** `chunks[key] = new Chunk(chunkX, chunkY)` (main.js:140-142). */
    method AddChunk(key: int, chunkX: int, chunkY: int)
      requires Valid() && key !in chunks
      modifies this
      ensures Valid() && fresh(Repr - old(Repr))
      ensures View() == old(View())[key := Blank()]
    {
      var c := new Chunk(chunkX, chunkY);
      chunks := chunks[key := c];
      Repr := Repr + {c, c.data, c.oldData};
    }

    /** `chunk.data[index] = tile; chunk.needsRedraw = true` (main.js:149-150). */
    method StoreCell(key: int, index: int, b: Byte)
      requires Valid() && key in chunks && 0 <= index < CellCount
      modifies chunks[key], chunks[key].data
      ensures Valid() && Repr == old(Repr) && chunks == old(chunks)
      ensures View() == old(View())[key := old(View())[key].(data := old(View())[key].data[index := b], needsRedraw := true)]
    {
      ghost var before := View();
      var chunk := chunks[key];
      chunk.data[index] := b;
      chunk.needsRedraw := true;
      forall k | k in chunks && k != key
        ensures chunks[k].State() == before[k]
      {
        assert Apart(chunks[k], chunk);
      }
      assert View() == before[key := chunk.State()];
    }

    /** The `setTiles` handler (main.js:750-756): a `size` by `size`
        row-major block written cell by cell through `setTile`. */
    method SetTiles(px: int, py: int, size: nat, tiles: seq<int>)
      requires Valid() && |tiles| >= size * size
      modifies Repr
      ensures Valid() && fresh(Repr - old(Repr))
      ensures View() == WriteRows(old(View()), px, py, size, tiles, size)
      ensures size <= KeyBase ==>
                forall x: nat, y: nat | x < size && y < size ::
                  GetTile(px + x, py + y) == ToByte(RowMajor(tiles, size, x, y))
    {
      ghost var start := View();
      for y := 0 to size
        invariant Valid() && fresh(Repr - old(Repr))
        invariant View() == WriteRows(start, px, py, size, tiles, y)
      {
        SetRow(px, py, size, tiles, y);
      }
      if size <= KeyBase {
        forall x: nat, y: nat | x < size && y < size
          ensures GetTile(px + x, py + y) == ToByte(RowMajor(tiles, size, x, y))
        {
          SetTilesReadsBack(start, px, py, size, tiles, x, y);
        }
      }
    }

    /** One pass of the inner loop of the `setTiles` handler (main.js:752-754). */
    method SetRow(px: int, py: int, size: nat, tiles: seq<int>, y: nat)
      requires Valid() && y < size && |tiles| >= size * size
      modifies Repr
      ensures Valid() && fresh(Repr - old(Repr))
      ensures View() == WriteRow(old(View()), px, py, size, tiles, y, size)
    {
      ghost var start := View();
      for x := 0 to size
        invariant Valid() && fresh(Repr - old(Repr))
        invariant View() == WriteRow(start, px, py, size, tiles, y, x)
      {
        SetCell(px, py, size, tiles, y, x, start);
      }
    }

    /** One pass of that inner loop: `setTile` on the next cell of the row. */
    method SetCell(px: int, py: int, size: nat, tiles: seq<int>, y: nat, x: nat, ghost start: Chunks)
      requires Valid() && y < size && x < size && |tiles| >= size * size && WellFormed(start)
      requires View() == WriteRow(start, px, py, size, tiles, y, x)
      modifies Repr
      ensures Valid() && fresh(Repr - old(Repr))
      ensures View() == WriteRow(start, px, py, size, tiles, y, x + 1)
    {
      SetTile(px + x, py + y, RowMajor(tiles, size, x, y));
    }

    /** `chunk.render()` for the chunk under `key`, as far as the store sees
        it: the drawn copy catches up and the flag is cleared. */
    method RenderChunk(key: int)
      requires Valid() && key in chunks
      modifies Repr
      ensures Valid() && Repr == old(Repr)
      ensures View() == Render(old(View()), key)
    {
      ghost var before := View();
      var chunk := chunks[key];
      chunk.Render();
      forall k | k in chunks && k != key
        ensures chunks[k].State() == before[k]
      {
        assert Apart(chunks[k], chunk);
      }
      assert View() == before[key := chunk.State()];
    }
  }
}
