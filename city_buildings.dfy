/**
 * The `BUILDINGS` generator of constants.ts: a row-major walk over the block
 * grid, skipping the spawn block, that pushes one or two randomly sized and
 * offset buildings per block. The walk is specified by `LayoutFrom`; the method
 * `GenerateBuildings` keeps the source's three nested loops and is proved to
 * produce exactly that layout.
 */
module CityBuildings {
  import opened JsNum
  import opened GameTypes
  import opened City

  /** Draws per building: three scale components and two offsets. */
  const BuildingDraws: nat := 5

  /** The spawn block is skipped: both block centres within the safe radius. */
  predicate SafeBlock(i: int, j: int)
  {
    Abs(i as real * GridInterval) < SafeZoneRadius && Abs(j as real * GridInterval) < SafeZoneRadius
  }

  /** On the visited grid the safe test excludes exactly the block at the origin. */
  lemma SafeBlockIsOrigin(i: int, j: int)
    ensures SafeBlock(i, j) <==> i == 0 && j == 0
  {
    if i != 0 {
      assert Abs(i as real * GridInterval) >= GridInterval;
    }
    if j != 0 {
      assert Abs(j as real * GridInterval) >= GridInterval;
    }
  }

  /** `Math.floor(rand(1, 3))`. */
  function BuildingCount(r: real): (n: nat)
    requires 0.0 <= r < 1.0
    ensures 1 <= n <= 2
  {
    Rand(r, 1.0, 3.0).Floor
  }

  function BuildingId(i: int, j: int, k: nat): string
  {
    "b-" + IntToString(i) + "-" + IntToString(j) + "-" + NatToString(k)
  }

  /** The k-th building of block (i, j), from draws `c .. c + 4`. */
  function NewBuilding(i: int, j: int, k: nat, rand: nat -> real, c: nat): Building
    requires RandomStream(rand)
  {
    var sx := Rand(rand(c), 8.0, 12.0);
    var h := Rand(rand(c + 1), 15.0, 45.0);
    var sz := Rand(rand(c + 2), 8.0, 12.0);
    var ox := Offset(rand(c + 3), BlockSize - sx - 2.0);
    var oz := Offset(rand(c + 4), BlockSize - sz - 2.0);
    Building(BuildingId(i, j, k),
      Vec3(i as real * GridInterval + ox, 0.0, j as real * GridInterval + oz),
      Vec3(sx, h, sz))
  }

  /** The first `n` buildings of block (i, j), the first drawing from `c`. */
  function BlockBuildings(i: int, j: int, n: nat, rand: nat -> real, c: nat): (bs: seq<Building>)
    requires RandomStream(rand)
    ensures |bs| == n
  {
    seq(n, k requires 0 <= k < n => NewBuilding(i, j, k, rand, c + BuildingDraws * k))
  }

  /** The layout produced from block (i, j) onward in row-major order, reading draws
      from `c`, and the first draw left unused. */
  function LayoutFrom(i: int, j: int, rand: nat -> real, c: nat): (seq<Building>, nat)
    requires RandomStream(rand)
    requires -HalfBlocks <= i && -HalfBlocks <= j <= HalfBlocks + 1
    decreases HalfBlocks + 1 - i, HalfBlocks + 1 - j
  {
    if i > HalfBlocks then ([], c)
    else if j > HalfBlocks then LayoutFrom(i + 1, -HalfBlocks, rand, c)
    else if SafeBlock(i, j) then LayoutFrom(i, j + 1, rand, c)
    else
      var n := BuildingCount(rand(c));
      var rest := LayoutFrom(i, j + 1, rand, c + 1 + BuildingDraws * n);
      (BlockBuildings(i, j, n, rand, c + 1) + rest.0, rest.1)
  }

  /** `BUILDINGS`, drawing from `start`. */
  function Layout(rand: nat -> real, start: nat): (seq<Building>, nat)
    requires RandomStream(rand)
  {
    LayoutFrom(-HalfBlocks, -HalfBlocks, rand, start)
  }

  /**
   * The nested `for` loops with `push`. The result is the layout above, and the
   * cursor ends at the first draw the loops did not use.
   */
  method GenerateBuildings(rand: nat -> real, start: nat) returns (buildings: seq<Building>, next: nat)
    requires RandomStream(rand)
    ensures (buildings, next) == Layout(rand, start)
  {
    var total := Layout(rand, start);
    GridConstants();
    var lo, hi := -HalfBlocks, HalfBlocks;
    buildings := [];
    next := start;
    var i := lo;
    while i <= hi
      invariant lo <= i <= hi + 1
      invariant buildings + LayoutFrom(i, lo, rand, next).0 == total.0
      invariant LayoutFrom(i, lo, rand, next).1 == total.1
    {
      buildings, next := GenerateRow(buildings, i, rand, next);
      LayoutFromRowEnd(i, rand, next);
      i := i + 1;
    }
    assert buildings + [] == buildings;
  }

  /** The `for j` loop of row `i`, drawing from `c`. */
  method GenerateRow(buildings: seq<Building>, i: int, rand: nat -> real, c: nat)
    returns (pushed: seq<Building>, next: nat)
    requires RandomStream(rand)
    requires -HalfBlocks <= i <= HalfBlocks
    ensures pushed + LayoutFrom(i, HalfBlocks + 1, rand, next).0 == buildings + LayoutFrom(i, -HalfBlocks, rand, c).0
    ensures LayoutFrom(i, HalfBlocks + 1, rand, next).1 == LayoutFrom(i, -HalfBlocks, rand, c).1
  {
    var lo, hi := -HalfBlocks, HalfBlocks;
    pushed, next := buildings, c;
    var j := lo;
    while j <= hi
      invariant lo <= j <= hi + 1
      invariant pushed + LayoutFrom(i, j, rand, next).0 == buildings + LayoutFrom(i, lo, rand, c).0
      invariant LayoutFrom(i, j, rand, next).1 == LayoutFrom(i, lo, rand, c).1
    {
      var before, from := pushed, next;
      if !SafeBlock(i, j) {
        var n := BuildingCount(rand(next));
        pushed := PushBlock(pushed, i, j, n, rand, next + 1);
        next := next + 1 + BuildingDraws * n;
      }
      LayoutFromStep(i, j, rand, from, before, pushed, next);
      j := j + 1;
    }
  }

  /** The `for k` loop of one block: push its `n` buildings, drawing from `c`. */
  method PushBlock(buildings: seq<Building>, i: int, j: int, n: nat, rand: nat -> real, c: nat)
    returns (pushed: seq<Building>)
    requires RandomStream(rand)
    ensures pushed == buildings + BlockBuildings(i, j, n, rand, c)
  {
    pushed := buildings;
    var k := 0;
    while k < n
      invariant 0 <= k <= n
      invariant pushed == buildings + BlockBuildings(i, j, k, rand, c)
    {
      var b := NewBuilding(i, j, k, rand, c + BuildingDraws * k);
      BlockBuildingsSnoc(i, j, k, rand, c);
      pushed := pushed + [b];
      k := k + 1;
    }
  }

  lemma BlockBuildingsSnoc(i: int, j: int, k: nat, rand: nat -> real, c: nat)
    requires RandomStream(rand)
    ensures BlockBuildings(i, j, k + 1, rand, c)
      == BlockBuildings(i, j, k, rand, c) + [NewBuilding(i, j, k, rand, c + BuildingDraws * k)]
  {
    var longer := BlockBuildings(i, j, k + 1, rand, c);
    var shorter := BlockBuildings(i, j, k, rand, c);
    forall m | 0 <= m < k
      ensures longer[m] == shorter[m]
    {
    }
  }

  /** One block of the walk inside a row: what was pushed for (i, j) followed by the
      rest of the row is the row from (i, j), and the cursor agrees. */
  lemma LayoutFromStep(i: int, j: int, rand: nat -> real, c: nat, before: seq<Building>,
                       pushed: seq<Building>, next: nat)
    requires RandomStream(rand)
    requires -HalfBlocks <= i <= HalfBlocks && -HalfBlocks <= j <= HalfBlocks
    requires SafeBlock(i, j) ==> pushed == before && next == c
    requires !SafeBlock(i, j) ==>
      var n := BuildingCount(rand(c));
      pushed == before + BlockBuildings(i, j, n, rand, c + 1) && next == c + 1 + BuildingDraws * n
    ensures pushed + LayoutFrom(i, j + 1, rand, next).0 == before + LayoutFrom(i, j, rand, c).0
    ensures LayoutFrom(i, j + 1, rand, next).1 == LayoutFrom(i, j, rand, c).1
  {
  }

  /** Past the last column the walk moves to the next row. */
  lemma LayoutFromRowEnd(i: int, rand: nat -> real, c: nat)
    requires RandomStream(rand)
    requires -HalfBlocks <= i <= HalfBlocks
    ensures LayoutFrom(i, HalfBlocks + 1, rand, c) == LayoutFrom(i + 1, -HalfBlocks, rand, c)
  {
  }

  // ---------------------------------------------------------------------------
  // Properties of the layout

  /** Number of non-spawn blocks at or after (i, j) in row-major order. */
  function BlocksLeft(i: int, j: int): int
  {
    if i > HalfBlocks then 0
    else
      var origin := if i < 0 || (i == 0 && j <= 0) then 1 else 0;
      (HalfBlocks - i) * (2 * HalfBlocks + 1) + (HalfBlocks + 1 - j) - origin
  }

  /** Each remaining block contributes one or two buildings. */
  lemma {:induction false} LayoutFromCount(i: int, j: int, rand: nat -> real, c: nat)
    requires RandomStream(rand)
    requires -HalfBlocks <= i && -HalfBlocks <= j <= HalfBlocks + 1
    ensures BlocksLeft(i, j) <= |LayoutFrom(i, j, rand, c).0| <= 2 * BlocksLeft(i, j)
    ensures LayoutFrom(i, j, rand, c).1 >= c
    decreases HalfBlocks + 1 - i, HalfBlocks + 1 - j
  {
    GridConstants();
    if i > HalfBlocks {
    } else if j > HalfBlocks {
      LayoutFromCount(i + 1, -HalfBlocks, rand, c);
    } else if SafeBlock(i, j) {
      SafeBlockIsOrigin(i, j);
      LayoutFromCount(i, j + 1, rand, c);
    } else {
      SafeBlockIsOrigin(i, j);
      var n := BuildingCount(rand(c));
      LayoutFromCount(i, j + 1, rand, c + 1 + BuildingDraws * n);
    }
  }

  /** 288 blocks are populated, so the city has between 288 and 576 buildings. */
  lemma LayoutSize(rand: nat -> real, start: nat)
    requires RandomStream(rand)
    ensures 288 <= |Layout(rand, start).0| <= 576
  {
    GridConstants();
    LayoutFromCount(-HalfBlocks, -HalfBlocks, rand, start);
  }

  /** What the generator promises of a building it pushes for block (i, j). */
  predicate PlacedIn(b: Building, i: int, j: int, k: nat)
  {
    && -HalfBlocks <= i <= HalfBlocks && -HalfBlocks <= j <= HalfBlocks
    && !(i == 0 && j == 0)
    && k < 2
    && b.id == BuildingId(i, j, k)
    && b.position.y == 0.0
    && 8.0 <= b.scale.x < 12.0 && 15.0 <= b.scale.y < 45.0 && 8.0 <= b.scale.z < 12.0
    && Abs(b.position.x - i as real * GridInterval) + b.scale.x / 2.0 <= 11.5
    && Abs(b.position.z - j as real * GridInterval) + b.scale.z / 2.0 <= 11.5
  }

  /** A single building keeps its footprint inside the 25-wide block: the offset is at
      most (23 - size) / 2, so the outer face is at most 11.5 from the centre. */
  lemma NewBuildingPlaced(i: int, j: int, k: nat, rand: nat -> real, c: nat)
    requires RandomStream(rand)
    requires -HalfBlocks <= i <= HalfBlocks && -HalfBlocks <= j <= HalfBlocks
    requires !(i == 0 && j == 0) && k < 2
    ensures PlacedIn(NewBuilding(i, j, k, rand, c), i, j, k)
  {
  }

  ghost predicate Placed(b: Building)
  {
    exists i, j, k :: PlacedIn(b, i, j, k)
  }

  lemma {:induction false} LayoutFromPlaced(i: int, j: int, rand: nat -> real, c: nat)
    requires RandomStream(rand)
    requires -HalfBlocks <= i && -HalfBlocks <= j <= HalfBlocks + 1
    ensures forall b :: b in LayoutFrom(i, j, rand, c).0 ==> Placed(b)
    decreases HalfBlocks + 1 - i, HalfBlocks + 1 - j
  {
    if i > HalfBlocks {
    } else if j > HalfBlocks {
      LayoutFromPlaced(i + 1, -HalfBlocks, rand, c);
    } else if SafeBlock(i, j) {
      LayoutFromPlaced(i, j + 1, rand, c);
    } else {
      var n := BuildingCount(rand(c));
      var block := BlockBuildings(i, j, n, rand, c + 1);
      var rest := LayoutFrom(i, j + 1, rand, c + 1 + BuildingDraws * n);
      assert LayoutFrom(i, j, rand, c).0 == block + rest.0;
      LayoutFromPlaced(i, j + 1, rand, c + 1 + BuildingDraws * n);
      BlockPlaced(i, j, n, rand, c + 1);
      ConcatPlaced(block, rest.0);
    }
  }

  lemma ConcatPlaced(a: seq<Building>, b: seq<Building>)
    requires forall x :: x in a ==> Placed(x)
    requires forall x :: x in b ==> Placed(x)
    ensures forall x :: x in a + b ==> Placed(x)
  {
  }

  /** All buildings of one non-spawn block are placed. */
  lemma BlockPlaced(i: int, j: int, n: nat, rand: nat -> real, c: nat)
    requires RandomStream(rand)
    requires -HalfBlocks <= i <= HalfBlocks && -HalfBlocks <= j <= HalfBlocks
    requires !SafeBlock(i, j) && n <= 2
    ensures forall b :: b in BlockBuildings(i, j, n, rand, c) ==> Placed(b)
  {
    SafeBlockIsOrigin(i, j);
    var block := BlockBuildings(i, j, n, rand, c);
    forall m | 0 <= m < n
      ensures Placed(block[m])
    {
      NewBuildingPlaced(i, j, m, rand, c + BuildingDraws * m);
      assert PlacedIn(block[m], i, j, m);
    }
  }

  /** Every building of `BUILDINGS` belongs to a non-spawn block of the [-8, 8] grid,
      has id `b-i-j-k` with k in {0, 1}, sizes in [8, 12) x [15, 45) x [8, 12), and a
      footprint within 11.5 of its block centre. */
  lemma LayoutPlaced(rand: nat -> real, start: nat)
    requires RandomStream(rand)
    ensures forall b :: b in Layout(rand, start).0 ==> exists i, j, k :: PlacedIn(b, i, j, k)
  {
    LayoutFromPlaced(-HalfBlocks, -HalfBlocks, rand, start);
  }
}
