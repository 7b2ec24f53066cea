/** Coordinates on the unbounded tile plane: positions, the four step
    directions, the source's non-negative modulo and the chunk addressing
    of main.js:52-54 and main.js:118-131. */
module Grid {

  datatype Pos = Pos(x: int, y: int)

  function Abs(n: int): nat {
    if n < 0 then -n else n
  }

  /** The `directions` table (main.js:404): 0 = -y, 1 = +x, 2 = +y, 3 = -x. */
  function Direction(d: int): (v: Pos)
    requires 0 <= d < 4
    ensures Abs(v.x) + Abs(v.y) == 1
  {
    if d == 0 then Pos(0, -1)
    else if d == 1 then Pos(1, 0)
    else if d == 2 then Pos(0, 1)
    else Pos(-1, 0)
  }

  function Move(p: Pos, d: int): Pos
    requires 0 <= d < 4
  {
    Pos(p.x + Direction(d).x, p.y + Direction(d).y)
  }

  predicate Adjacent(a: Pos, b: Pos) {
    Abs(a.x - b.x) + Abs(a.y - b.y) == 1
  }

  /** Every adjacent cell is reached by exactly one direction. */
  lemma AdjacentByDirection(a: Pos, b: Pos)
    ensures Adjacent(a, b) <==> exists d :: 0 <= d < 4 && Move(a, d) == b
  {
    if Adjacent(a, b) {
      if b.y < a.y { assert Move(a, 0) == b; }
      else if b.x > a.x { assert Move(a, 1) == b; }
      else if b.y > a.y { assert Move(a, 2) == b; }
      else { assert Move(a, 3) == b; }
    }
  }

  /** JavaScript's `%`: truncating division, the remainder takes the sign
      of the dividend. Dafny's own `%` is Euclidean. */
  function JsRem(n: int, d: int): (r: int)
    requires d != 0
    ensures Abs(r) < Abs(d)
    ensures n >= 0 ==> r >= 0
    ensures n <= 0 ==> r <= 0
  {
    if n >= 0 then n % Abs(d) else -((-n) % Abs(d))
  }

  /** `mod` at main.js:52-54: `((n % m) + m) % m`. */
  function Mod(n: int, m: int): int
    requires m != 0
  {
    JsRem(JsRem(n, m) + m, m)
  }

  /** For a positive modulus `Mod` is the floored modulo: it lies in [0, m),
      it is congruent to n, and it is Dafny's Euclidean `%`. */
  lemma ModIsEuclidean(n: int, m: int)
    requires m > 0
    ensures 0 <= Mod(n, m) < m
    ensures Mod(n, m) == n % m
    ensures (n - Mod(n, m)) % m == 0
  {
    var s := JsRem(n, m);
    if n >= 0 {
      DivModUnique(s + m, m, 1, s);
    } else {
      var a, b := (-n) % m, (-n) / m;
      assert -n == b * m + a;
      if a == 0 {
        DivModUnique(m, m, 1, 0);
        DivModUnique(n, m, -b, 0);
      } else {
        DivModUnique(m - a, m, 0, m - a);
        DivModUnique(n, m, -b - 1, m - a);
      }
    }
    DivModUnique(n - n % m, m, n / m, 0);
  }

  /** Quotient and remainder by a positive divisor are unique. */
  lemma DivModUnique(n: int, m: int, q: int, r: int)
    requires m > 0 && 0 <= r < m && n == q * m + r
    ensures n / m == q && n % m == r
  {
    var q0, r0 := n / m, n % m;
    assert n == q0 * m + r0;
    var k := q - q0;
    assert k * m == r0 - r;
    if k >= 1 {
      MulAtLeast(k, m);
    } else if k <= -1 {
      MulAtLeast(-k, m);
    }
  }

  lemma {:induction false} MulAtLeast(k: int, m: int)
    requires k >= 1 && m > 0
    ensures k * m >= m
  {
    if k > 1 {
      MulAtLeast(k - 1, m);
      assert k * m == (k - 1) * m + m;
    }
  }

  const ChunkSize: int := 128
  /** The multiplier of the row part of a chunk key: 2 ** 16. */
  const KeyBase: int := 65536
  const CellCount: int := ChunkSize * ChunkSize

  /** `chunkKey` at main.js:118-120. */
  function ChunkKey(cx: int, cy: int): int {
    cy * KeyBase + cx
  }

  /** The chunk coordinate of a world coordinate: `Math.floor(c / chunkSize)`;
      Dafny's `/` by a positive divisor is floor division. */
  function ChunkOf(c: int): int {
    c / ChunkSize
  }

  /** The key of the chunk that holds cell (x, y) (main.js:123-125). */
  function KeyOf(x: int, y: int): int {
    ChunkKey(ChunkOf(x), ChunkOf(y))
  }

  /** The index of cell (x, y) inside its chunk's array (main.js:131). */
  function CellIndex(x: int, y: int): (i: int)
    ensures 0 <= i < CellCount
  {
    ModIsEuclidean(x, ChunkSize);
    ModIsEuclidean(y, ChunkSize);
    Mod(y, ChunkSize) * ChunkSize + Mod(x, ChunkSize)
  }

  /** Chunk keys tell chunks apart as long as their column numbers are less
      than 2 ** 16 apart. */
  lemma ChunkKeyInjective(cx1: int, cy1: int, cx2: int, cy2: int)
    requires -KeyBase < cx1 - cx2 < KeyBase
    ensures ChunkKey(cx1, cy1) == ChunkKey(cx2, cy2) <==> cx1 == cx2 && cy1 == cy2
  {
    if ChunkKey(cx1, cy1) == ChunkKey(cx2, cy2) {
      assert (cy2 - cy1) * KeyBase == cx1 - cx2;
    }
  }

  /** Beyond that distance two different chunks share a key. */
  lemma ChunkKeyCollision()
    ensures ChunkKey(-1, 0) == ChunkKey(65535, -1)
  {
  }

  /** Cells less than 2 ** 16 apart horizontally lie in chunks whose columns
      are less than 2 ** 16 apart. */
  lemma ChunkDistance(x1: int, x2: int)
    requires -KeyBase < x1 - x2 < KeyBase
    ensures -KeyBase < ChunkOf(x1) - ChunkOf(x2) < KeyBase
  {
    var c1, c2 := ChunkOf(x1), ChunkOf(x2);
    assert c1 * ChunkSize <= x1 < c1 * ChunkSize + ChunkSize;
    assert c2 * ChunkSize <= x2 < c2 * ChunkSize + ChunkSize;
    assert (c1 - c2) * ChunkSize < KeyBase + ChunkSize;
    assert (c2 - c1) * ChunkSize < KeyBase + ChunkSize;
  }

  /** Two cells share a chunk key and an in-chunk index exactly when they are
      the same cell, provided their chunk columns are less than 2 ** 16
      apart. */
  lemma CellAddressInjective(x1: int, y1: int, x2: int, y2: int)
    requires -KeyBase < ChunkOf(x1) - ChunkOf(x2) < KeyBase
    ensures (KeyOf(x1, y1) == KeyOf(x2, y2) && CellIndex(x1, y1) == CellIndex(x2, y2))
            <==> x1 == x2 && y1 == y2
  {
    if KeyOf(x1, y1) == KeyOf(x2, y2) && CellIndex(x1, y1) == CellIndex(x2, y2) {
      ChunkKeyInjective(ChunkOf(x1), ChunkOf(y1), ChunkOf(x2), ChunkOf(y2));
      ModIsEuclidean(x1, ChunkSize);
      ModIsEuclidean(x2, ChunkSize);
      ModIsEuclidean(y1, ChunkSize);
      ModIsEuclidean(y2, ChunkSize);
      var mx1, mx2, my1, my2 := x1 % ChunkSize, x2 % ChunkSize, y1 % ChunkSize, y2 % ChunkSize;
      assert my1 * ChunkSize + mx1 == my2 * ChunkSize + mx2;
      assert mx1 == mx2 && my1 == my2;
      assert x1 == ChunkOf(x1) * ChunkSize + mx1;
      assert x2 == ChunkOf(x2) * ChunkSize + mx2;
      assert y1 == ChunkOf(y1) * ChunkSize + my1;
      assert y2 == ChunkOf(y2) * ChunkSize + my2;
    }
  }

  /** What the source knows of an entity (main.js:65-74, main.js:199-201):
      the local player object itself, whose position is the client's own
      position, or any other entity with its class name and position. */
  datatype EntityClass = PlayerClass | EnemyClass | CrackClass | OtherClass
  datatype Entity = LocalPlayer | Other(className: EntityClass, pos: Pos)
}
