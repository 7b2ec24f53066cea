/** Optional values: the source's `null`/`false`/`undefined` results. */
module Maybe {
  datatype Option<T> = None | Some(value: T)
}

/** Tile codes of the world and the walkability rule shared by the
    pathfinder and the per-frame decision step (main.js:3-24). */
module Tiles {

  /** One cell of a chunk's `Uint8Array`. */
  type Byte = b: int | 0 <= b < 256

  const EmptyTile: Byte := 128
  const BlockStartTile: Byte := 129
  const BlockTileAmount: nat := 8
  const TrailStartTile: Byte := 137
  const TrailTileAmount: nat := 8
  const FlourTile: Byte := 145
  const WaterTile: Byte := 146
  const PowderTile: Byte := 147
  const BreadTile: Byte := 148
  const OvenTile: Byte := 149
  const HospitalTile: Byte := 150
  const SymbolStartTile: Byte := 33
  const SymbolTileAmount: nat := 94

  predicate IsBlock(tile: int) {
    BlockStartTile <= tile < BlockStartTile + BlockTileAmount
  }

  predicate IsTrail(tile: int) {
    TrailStartTile <= tile < TrailStartTile + TrailTileAmount
  }

  /** Flour, water, baking powder and bread. */
  predicate IsResource(tile: int) {
    FlourTile <= tile <= BreadTile
  }

  predicate IsSymbol(tile: int) {
    SymbolStartTile <= tile < SymbolStartTile + SymbolTileAmount
  }

  /** `walkable` at main.js:17-24, condition for condition. */
  predicate Walkable(tile: int) {
    && tile != 0
    && tile != OvenTile
    && tile != HospitalTile
    && (tile < BlockStartTile || tile >= BlockStartTile + BlockTileAmount)
  }

  /** The categories of the tile namespace, an independent reading of the
      constants at main.js:3-15. */
  datatype Category =
    | Void          // 0: unexplored, or never loaded
    | Symbol        // 33 .. 126
    | Empty         // 128
    | Block         // 129 .. 136
    | Trail         // 137 .. 144
    | Resource      // 145 .. 148
    | Oven          // 149
    | Hospital      // 150
    | Unassigned    // every other byte

  function Classify(tile: Byte): (c: Category)
    ensures c == Block <==> IsBlock(tile)
    ensures c == Trail <==> IsTrail(tile)
    ensures c == Resource <==> IsResource(tile)
    ensures c == Symbol <==> IsSymbol(tile)
  {
    if tile == 0 then Void
    else if 33 <= tile <= 126 then Symbol
    else if tile == 128 then Empty
    else if 129 <= tile <= 136 then Block
    else if 137 <= tile <= 144 then Trail
    else if 145 <= tile <= 148 then Resource
    else if tile == 149 then Oven
    else if tile == 150 then Hospital
    else Unassigned
  }

  /** Walkability is decided by the category alone: only void, blocks, the
      oven and the hospital stop a walker. */
  lemma WalkableByCategory(tile: Byte)
    ensures Walkable(tile) <==> Classify(tile) !in {Void, Block, Oven, Hospital}
  {
  }

  /** The same rule with the codes written out. */
  lemma WalkableExactly(tile: Byte)
    ensures !Walkable(tile) <==> tile == 0 || tile == 149 || tile == 150 || 129 <= tile <= 136
  {
  }
}
