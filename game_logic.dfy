/** Grid and world rules: brick colours, brick and power-up generation on
    the 6 by 14 grid, moving everything down one row, clean-up, the
    game-over test and the helpers about landed balls.

    Every `Math.random()` draw is an argument in [0, 1). */
module GameLogic {
  import opened Config
  import opened Entities

  // ---------------------------------------------------------------------
  // Brick colour
  // ---------------------------------------------------------------------

  /** Palette index for a brick's health: one colour per band of five
      health points, cycling through the palette. For health below 1 the
      index is what JavaScript computes (zero or negative), which does not
      name a palette entry. */
  function BrickColor(health: int): (c: int)
    ensures health >= 1 ==> 0 <= c < PaletteSize
    ensures health < 1 ==> c <= 0 && c + PaletteSize > 0
  {
    JsRem((health - 1) / 5, PaletteSize)
  }

  /** Healths 5k+1 .. 5k+5 all get palette index k mod 10. */
  lemma {:induction false} BandColor(k: nat, j: int)
    requires 1 <= j <= 5
    ensures BrickColor(5 * k + j) == k % PaletteSize
  {
    assert (5 * k + j - 1) / 5 == k by {
      assert 5 * k <= 5 * k + j - 1 < 5 * (k + 1);
    }
  }

  /** The colour mapping repeats every 50 health points. */
  lemma {:induction false} ColorCycle(health: int)
    requires health >= 1
    ensures BrickColor(health + 5 * PaletteSize) == BrickColor(health)
  {
    var k := (health - 1) / 5;
    var j := health - 5 * k;
    BandColor(k, j);
    BandColor(k + PaletteSize, j);
    assert health + 5 * PaletteSize == 5 * (k + PaletteSize) + j;
  }

  // ---------------------------------------------------------------------
  // The grid and the Fisher-Yates shuffle
  // ---------------------------------------------------------------------

  const CellCount: nat := BrickRows * BrickCols

  predicate Distinct<T(==)>(s: seq<T>) {
    forall i, j :: 0 <= i < j < |s| ==> s[i] != s[j]
  }

  /** All grid cells in the order the nested row/column loops list them. */
  function GridCells(): (cs: seq<Cell>)
    ensures |cs| == CellCount
  {
    seq(CellCount, k requires 0 <= k < CellCount => Cell(k / BrickCols, k % BrickCols))
  }

  /** Every grid cell is listed once. */
  lemma GridCellsWellFormed()
    ensures Distinct(GridCells())
    ensures forall k :: 0 <= k < CellCount ==> InGrid(GridCells()[k])
  {
    var cs := GridCells();
    forall i, j | 0 <= i < j < |cs|
      ensures cs[i] != cs[j]
    {
      assert i == (i / BrickCols) * BrickCols + i % BrickCols;
      assert j == (j / BrickCols) * BrickCols + j % BrickCols;
    }
  }

  /** Builds the cell list with the source's two nested loops. */
  method GridPositions() returns (a: array<Cell>)
    ensures fresh(a) && a[..] == GridCells()
  {
    a := new Cell[CellCount];
    for row := 0 to BrickRows
      invariant forall k :: 0 <= k < row * BrickCols ==> a[k] == GridCells()[k]
    {
      for col := 0 to BrickCols
        invariant forall k :: 0 <= k < row * BrickCols + col ==> a[k] == GridCells()[k]
      {
        a[row * BrickCols + col] := Cell(row, col);
      }
    }
  }

  function Swap<T>(s: seq<T>, i: nat, j: nat): (r: seq<T>)
    requires i < |s| && j < |s|
    ensures |r| == |s| && r[i] == s[j] && r[j] == s[i]
    ensures forall k :: 0 <= k < |s| && k != i && k != j ==> r[k] == s[k]
  {
    s[i := s[j]][j := s[i]]
  }

  lemma SwapPermutes<T>(s: seq<T>, i: nat, j: nat)
    requires i < |s| && j < |s|
    ensures multiset(Swap(s, i, j)) == multiset(s)
    ensures Distinct(s) ==> Distinct(Swap(s, i, j))
  {
    var t := Swap(s, i, j);
    if Distinct(s) {
      forall a, b | 0 <= a < b < |t|
        ensures t[a] != t[b]
      {
        var a' := if a == i then j else if a == j then i else a;
        var b' := if b == i then j else if b == j then i else b;
        assert t[a] == s[a'] && t[b] == s[b'] && a' != b';
      }
    }
  }

  /** Enough draws for a shuffle of n elements. */
  predicate ShuffleDraws(draws: seq<real>, n: nat) {
    |draws| >= n - 1 && AllRandom(draws)
  }

  /** The Fisher-Yates passes for indices i, i-1, .., 1 of `s`: the pass
      for index i swaps it with `Math.floor(r * (i + 1))`, r being the draw
      taken for it (the first draw serves the last index). */
  function ShuffleFrom<T>(s: seq<T>, draws: seq<real>, i: int): (r: seq<T>)
    requires -1 <= i < |s| && ShuffleDraws(draws, |s|)
    ensures |r| == |s|
    decreases i
  {
    if i <= 0 then s
    else ShuffleFrom(Swap(s, i, RandomIndex(draws[|s| - 1 - i], i + 1)), draws, i - 1)
  }

  /** Each pass only swaps, so the passes permute the sequence and keep
      its elements distinct. */
  lemma {:induction false} ShuffleFromPermutes<T>(s: seq<T>, draws: seq<real>, i: int)
    requires -1 <= i < |s| && ShuffleDraws(draws, |s|)
    ensures multiset(ShuffleFrom(s, draws, i)) == multiset(s)
    ensures Distinct(s) ==> Distinct(ShuffleFrom(s, draws, i))
    decreases i
  {
    if i > 0 {
      var j := RandomIndex(draws[|s| - 1 - i], i + 1);
      var t := Swap(s, i, j);
      SwapPermutes(s, i, j);
      ShuffleFromPermutes(t, draws, i - 1);
      assert ShuffleFrom(s, draws, i) == ShuffleFrom(t, draws, i - 1);
    }
  }

  function Shuffled<T>(s: seq<T>, draws: seq<real>): (r: seq<T>)
    requires ShuffleDraws(draws, |s|)
    ensures |r| == |s|
  {
    ShuffleFrom(s, draws, |s| - 1)
  }

  /** A shuffle is a permutation; distinct elements stay distinct. */
  lemma ShuffledPermutes<T>(s: seq<T>, draws: seq<real>)
    requires ShuffleDraws(draws, |s|)
    ensures multiset(Shuffled(s, draws)) == multiset(s)
    ensures Distinct(s) ==> Distinct(Shuffled(s, draws))
  {
    ShuffleFromPermutes(s, draws, |s| - 1);
  }

  /** The in-place Fisher-Yates shuffle, from the last index down to 1. */
  method Shuffle<T>(a: array<T>, draws: seq<real>)
    requires ShuffleDraws(draws, a.Length)
    modifies a
    ensures a[..] == Shuffled(old(a[..]), draws)
  {
    var i := a.Length - 1;
    while i > 0
      invariant -1 <= i < a.Length
      invariant ShuffleFrom(a[..], draws, i) == Shuffled(old(a[..]), draws)
      decreases i
    {
      var j := RandomIndex(draws[a.Length - 1 - i], i + 1);
      ghost var before := a[..];
      ShuffleStep(before, draws, i, j);
      var t := a[i];
      a[i] := a[j];
      a[j] := t;
      SwappedArray(before, a[..], i, j);
      i := i - 1;
    }
  }

  /** One pass of the shuffle, unfolded. */
  lemma ShuffleStep<T>(s: seq<T>, draws: seq<real>, i: int, j: nat)
    requires 0 < i < |s| && ShuffleDraws(draws, |s|)
    requires j == RandomIndex(draws[|s| - 1 - i], i + 1)
    ensures ShuffleFrom(s, draws, i) == ShuffleFrom(Swap(s, i, j), draws, i - 1)
  {
  }

  lemma SwappedArray<T>(before: seq<T>, after: seq<T>, i: nat, j: nat)
    requires i < |before| && j < |before| && |after| == |before|
    requires after[j] == before[i] && after[i] == (if i == j then before[i] else before[j])
    requires forall k :: 0 <= k < |before| && k != i && k != j ==> after[k] == before[k]
    ensures after == Swap(before, i, j)
  {
  }

  /** An element of a shuffle comes from the shuffled sequence. */
  lemma ShuffledMember<T>(s: seq<T>, draws: seq<real>, k: nat)
    requires ShuffleDraws(draws, |s|) && k < |s|
    ensures Shuffled(s, draws)[k] in s
  {
    ShuffledPermutes(s, draws);
    var r := Shuffled(s, draws);
    assert r[k] in multiset(r);
  }

  // ---------------------------------------------------------------------
  // Bricks
  // ---------------------------------------------------------------------

  /** A fresh brick on a grid cell. */
  function NewBrick(c: Cell, health: int): Brick {
    Brick(ColumnX(c.col), RowY(c.row), BrickWidth, BrickHeight, health, health, BrickColor(health), false)
  }

  /** A brick sits exactly on a grid cell in one of the 14 columns and a
      row at or below the first one. */
  predicate Placed(b: Brick) {
    var c := BrickCell(b);
    0 <= c.row && 0 <= c.col < BrickCols && b.x == ColumnX(c.col) && b.y == RowY(c.row) &&
    b.width == BrickWidth && b.height == BrickHeight
  }

  lemma NewBrickCell(c: Cell, health: int)
    ensures BrickCell(NewBrick(c, health)) == c
  {
    CellAtOffset(c, 0.0, 0.0);
  }

  /** `Math.floor(n * 0.4)`: the number of bricks of the first field. */
  function FortyPercent(n: nat): (k: nat)
    ensures 5 * k <= 2 * n < 5 * k + 5
  {
    (n as real * 0.4).Floor
  }

  /** `Math.floor(n * 0.5)`: the number of new top-row bricks. */
  function Half(n: nat): (k: nat)
    ensures 2 * k <= n < 2 * k + 2
  {
    (n as real * 0.5).Floor
  }

  const InitialBrickCount: nat := FortyPercent(CellCount)

  lemma InitialBrickCountIs33()
    ensures InitialBrickCount == 33
  {
    assert (84 as real * 0.4) == 33.6;
  }

  /** Health of a brick of the first field: 1, 2 or 3. */
  function InitialHealth(r: real): (h: int)
    requires IsRandom(r)
    ensures 1 <= h <= 3
  {
    RandomIndex(r, 3) + 1
  }

  predicate InitialDraws(swapDraws: seq<real>, healthDraws: seq<real>) {
    ShuffleDraws(swapDraws, CellCount) && |healthDraws| >= InitialBrickCount && AllRandom(healthDraws)
  }

  /** The first field: the first 40% of the shuffled cells, each with a
      drawn health. */
  function InitialBricks(swapDraws: seq<real>, healthDraws: seq<real>): seq<Brick>
    requires InitialDraws(swapDraws, healthDraws)
  {
    var cells := Shuffled(GridCells(), swapDraws);
    seq(InitialBrickCount, i requires 0 <= i < InitialBrickCount =>
      NewBrick(cells[i], InitialHealth(healthDraws[i])))
  }

  /** The first field has 33 bricks on 33 distinct grid cells, each brick a
      fresh one of health 1 to 3 coloured for its health. */
  lemma {:induction false} InitialBricksWellFormed(swapDraws: seq<real>, healthDraws: seq<real>)
    requires InitialDraws(swapDraws, healthDraws)
    ensures var bs := InitialBricks(swapDraws, healthDraws);
            |bs| == 33 &&
            (forall i :: 0 <= i < |bs| ==>
               Placed(bs[i]) && InGrid(BrickCell(bs[i])) &&
               1 <= bs[i].health <= 3 && bs[i].maxHealth == bs[i].health &&
               bs[i].color == BrickColor(bs[i].health) && !bs[i].destroyed) &&
            (forall i, j :: 0 <= i < j < |bs| ==> BrickCell(bs[i]) != BrickCell(bs[j]))
  {
    InitialBrickCountIs33();
    GridCellsWellFormed();
    ShuffledPermutes(GridCells(), swapDraws);
    var bs := InitialBricks(swapDraws, healthDraws);
    var cells := Shuffled(GridCells(), swapDraws);
    forall i | 0 <= i < |bs|
      ensures BrickCell(bs[i]) == cells[i] && InGrid(cells[i])
    {
      NewBrickCell(cells[i], InitialHealth(healthDraws[i]));
      ShuffledMember(GridCells(), swapDraws, i);
    }
  }

  /** `generateBricks`: lists the cells, shuffles them in place and places
      bricks on the first 40% of them. */
  method GenerateBricks(swapDraws: seq<real>, healthDraws: seq<real>) returns (bricks: seq<Brick>)
    requires InitialDraws(swapDraws, healthDraws)
    ensures bricks == InitialBricks(swapDraws, healthDraws)
  {
    var positions := GridPositions();
    Shuffle(positions, swapDraws);
    var brickCount := FortyPercent(positions.Length);
    bricks := [];
    for i := 0 to brickCount
      invariant |bricks| == i
      invariant forall k :: 0 <= k < i ==> bricks[k] == InitialBricks(swapDraws, healthDraws)[k]
    {
      var health := InitialHealth(healthDraws[i]);
      bricks := bricks + [NewBrick(positions[i], health)];
    }
  }

  // ---------------------------------------------------------------------
  // New top-row bricks
  // ---------------------------------------------------------------------

  /** The columns held by power-ups that stand in the first grid row. */
  function BlockedColumns(powerUps: seq<PowerUp>): (cols: set<int>)
    ensures forall c :: c in cols <==> exists i :: 0 <= i < |powerUps| && PowerUpCell(powerUps[i]) == Cell(0, c)
  {
    if |powerUps| == 0 then {}
    else
      var rest := BlockedColumns(powerUps[..|powerUps| - 1]);
      var cell := PowerUpCell(powerUps[|powerUps| - 1]);
      assert forall i :: 0 <= i < |powerUps| - 1 ==> powerUps[..|powerUps| - 1][i] == powerUps[i];
      if cell.row == 0 then rest + {cell.col} else rest
  }

  /** The columns below n that are not blocked, in increasing order. */
  function FreeColumns(blocked: set<int>, n: nat): (cols: seq<int>)
    ensures |cols| <= n
    ensures forall c :: c in cols <==> 0 <= c < n && c !in blocked
    ensures forall i, j :: 0 <= i < j < |cols| ==> cols[i] < cols[j]
  {
    if n == 0 then []
    else if n - 1 in blocked then FreeColumns(blocked, n - 1)
    else
      var rest := FreeColumns(blocked, n - 1);
      assert forall i :: 0 <= i < |rest| ==> rest[i] in rest;
      rest + [n - 1]
  }

  /** With nothing blocked below n, all n columns are free. */
  lemma {:induction false} AllColumnsFree(blocked: set<int>, n: nat)
    requires forall c :: 0 <= c < n ==> c !in blocked
    ensures |FreeColumns(blocked, n)| == n
  {
    if n > 0 {
      AllColumnsFree(blocked, n - 1);
    }
  }

  /** `Math.max(1, round)`: the lowest health of the new row's bricks. */
  function MinTopRowHealth(round: int): int {
    if round > 1 then round else 1
  }

  /** The health of a new top-row brick: the round's minimum or one more. */
  function TopRowHealth(round: int, r: real): (h: int)
    requires IsRandom(r)
    ensures MinTopRowHealth(round) <= h <= MinTopRowHealth(round) + 1
  {
    RandomIndex(r, 2) + MinTopRowHealth(round)
  }

  /** Enough draws for a new row of bricks: at most 14 free columns to
      shuffle and at most 7 healths. */
  predicate TopRowDraws(swapDraws: seq<real>, healthDraws: seq<real>) {
    |swapDraws| >= BrickCols - 1 && AllRandom(swapDraws) &&
    |healthDraws| >= BrickCols / 2 && AllRandom(healthDraws)
  }

  /** The new top row: half of the shuffled free columns get a brick. */
  function TopRowBricks(round: int, powerUps: seq<PowerUp>, swapDraws: seq<real>, healthDraws: seq<real>): seq<Brick>
    requires TopRowDraws(swapDraws, healthDraws)
  {
    var cols := Shuffled(FreeColumns(BlockedColumns(powerUps), BrickCols), swapDraws);
    seq(Half(|cols|), i requires 0 <= i < Half(|cols|) =>
      NewBrick(Cell(0, cols[i]), TopRowHealth(round, healthDraws[i])))
  }

  /** The bricks of a new row stand in distinct free columns of the first
      grid row, never under a power-up of that row, and have a health of
      `max(1, round)` or one more. */
  lemma {:induction false} TopRowBricksWellFormed(round: int, powerUps: seq<PowerUp>, swapDraws: seq<real>, healthDraws: seq<real>)
    requires TopRowDraws(swapDraws, healthDraws)
    ensures var bs := TopRowBricks(round, powerUps, swapDraws, healthDraws);
            var free := FreeColumns(BlockedColumns(powerUps), BrickCols);
            |bs| == Half(|free|) &&
            (forall i :: 0 <= i < |bs| ==>
               Placed(bs[i]) && BrickCell(bs[i]).row == 0 && BrickCell(bs[i]).col in free &&
               MinTopRowHealth(round) <= bs[i].health <= MinTopRowHealth(round) + 1 &&
               bs[i].maxHealth == bs[i].health && bs[i].color == BrickColor(bs[i].health) &&
               !bs[i].destroyed) &&
            (forall i, j :: 0 <= i < j < |bs| ==> BrickCell(bs[i]) != BrickCell(bs[j])) &&
            (forall i, k :: 0 <= i < |bs| && 0 <= k < |powerUps| ==> BrickCell(bs[i]) != PowerUpCell(powerUps[k]))
  {
    var bs := TopRowBricks(round, powerUps, swapDraws, healthDraws);
    var free := FreeColumns(BlockedColumns(powerUps), BrickCols);
    var cols := Shuffled(free, swapDraws);
    ShuffledPermutes(free, swapDraws);
    forall i | 0 <= i < |bs|
      ensures BrickCell(bs[i]) == Cell(0, cols[i]) && cols[i] in free
    {
      NewBrickCell(Cell(0, cols[i]), TopRowHealth(round, healthDraws[i]));
      ShuffledMember(free, swapDraws, i);
    }
    assert Distinct(free);
  }

  /** With no power-up in the first row, seven of the 14 columns get a
      brick. */
  lemma TopRowBricksUnblocked(round: int, powerUps: seq<PowerUp>, swapDraws: seq<real>, healthDraws: seq<real>)
    requires TopRowDraws(swapDraws, healthDraws)
    requires forall k :: 0 <= k < |powerUps| ==> PowerUpCell(powerUps[k]).row != 0
    ensures |TopRowBricks(round, powerUps, swapDraws, healthDraws)| == 7
  {
    AllColumnsFree(BlockedColumns(powerUps), BrickCols);
  }

  /** The blocked-column pass of `generateTopRowBricks`. */
  method CollectBlockedColumns(powerUps: seq<PowerUp>) returns (blocked: set<int>)
    ensures blocked == BlockedColumns(powerUps)
  {
    blocked := {};
    for k := 0 to |powerUps|
      invariant blocked == BlockedColumns(powerUps[..k])
    {
      assert powerUps[..k + 1][..k] == powerUps[..k];
      var cell := PowerUpCell(powerUps[k]);
      if cell.row == 0 {
        blocked := blocked + {cell.col};
      }
    }
    assert powerUps[..|powerUps|] == powerUps;
  }

  /** The free-column pass of `generateTopRowBricks`. */
  method ListFreeColumns(blocked: set<int>) returns (available: seq<int>)
    ensures available == FreeColumns(blocked, BrickCols)
  {
    available := [];
    for c := 0 to BrickCols
      invariant available == FreeColumns(blocked, c)
    {
      if c !in blocked {
        available := available + [c];
      }
    }
  }

  /** `generateTopRowBricks`: collects the blocked columns, lists the free
      ones, shuffles them in place and places bricks in the first half.
      (The source also takes the existing bricks, which it does not use.) */
  method GenerateTopRowBricks(round: int, powerUps: seq<PowerUp>, swapDraws: seq<real>, healthDraws: seq<real>)
    returns (bricks: seq<Brick>)
    requires TopRowDraws(swapDraws, healthDraws)
    ensures bricks == TopRowBricks(round, powerUps, swapDraws, healthDraws)
  {
    var blocked := CollectBlockedColumns(powerUps);
    var available := ListFreeColumns(blocked);
    var columns := new int[|available|](i requires 0 <= i < |available| => available[i]);
    assert columns[..] == available;
    Shuffle(columns, swapDraws);
    var brickCount := Half(columns.Length);
    bricks := [];
    for i := 0 to brickCount
      invariant |bricks| == i
      invariant forall k :: 0 <= k < i ==> bricks[k] == TopRowBricks(round, powerUps, swapDraws, healthDraws)[k]
    {
      var health := TopRowHealth(round, healthDraws[i]);
      bricks := bricks + [NewBrick(Cell(0, columns[i]), health)];
    }
  }

  // ---------------------------------------------------------------------
  // Occupied cells and the first power-ups
  // ---------------------------------------------------------------------

  /** The cells of all the given bricks, destroyed ones included. */
  function BrickCells(bricks: seq<Brick>): (cells: set<Cell>)
    ensures forall c :: c in cells <==> exists i :: 0 <= i < |bricks| && BrickCell(bricks[i]) == c
  {
    if |bricks| == 0 then {}
    else
      var rest := BrickCells(bricks[..|bricks| - 1]);
      assert forall i :: 0 <= i < |bricks| - 1 ==> bricks[..|bricks| - 1][i] == bricks[i];
      rest + {BrickCell(bricks[|bricks| - 1])}
  }

  /** The cells of the bricks that are not destroyed. */
  function OccupiedCells(bricks: seq<Brick>): (cells: set<Cell>)
    ensures forall c :: c in cells <==>
      exists i :: 0 <= i < |bricks| && !bricks[i].destroyed && BrickCell(bricks[i]) == c
  {
    if |bricks| == 0 then {}
    else
      var rest := OccupiedCells(bricks[..|bricks| - 1]);
      assert forall i :: 0 <= i < |bricks| - 1 ==> bricks[..|bricks| - 1][i] == bricks[i];
      var last := bricks[|bricks| - 1];
      if last.destroyed then rest else rest + {BrickCell(last)}
  }

  /** `getOccupiedCells`: one pass over the bricks, skipping destroyed
      ones. */
  method GetOccupiedCells(bricks: seq<Brick>) returns (cells: set<Cell>)
    ensures cells == OccupiedCells(bricks)
  {
    cells := {};
    for k := 0 to |bricks|
      invariant cells == OccupiedCells(bricks[..k])
    {
      assert bricks[..k + 1][..k] == bricks[..k];
      if !bricks[k].destroyed {
        cells := cells + {BrickCell(bricks[k])};
      }
    }
    assert bricks[..|bricks|] == bricks;
  }

  /** Power-ups are only placed in cells whose centre is above this line
      (600). */
  const PowerUpPlacementLimit: real := CanvasHeight - 200.0

  /** The centre of a grid cell, where a power-up is put. */
  function CellCentre(c: Cell): Point {
    Point(ColumnX(c.col) + BrickWidth / 2.0, RowY(c.row) + BrickHeight / 2.0)
  }

  /** `createPowerUp`: a fresh, uncollected power-up centred on `p`. */
  function CreatePowerUp(p: Point): PowerUp {
    PowerUp(p.x, p.y, PowerUpSize, false)
  }

  /** A power-up in a cell's centre is mapped back to that cell. */
  lemma CentreCell(c: Cell)
    ensures PowerUpCell(CreatePowerUp(CellCentre(c))) == c
  {
    CellAtOffset(c, BrickWidth / 2.0, BrickHeight / 2.0);
  }

  lemma CentreInjective(a: Cell, b: Cell)
    ensures CellCentre(a) == CellCentre(b) ==> a == b
  {
    CentreCell(a);
    CentreCell(b);
  }

  predicate FreeForPowerUp(c: Cell, occupied: set<Cell>) {
    c !in occupied && CellCentre(c).y < PowerUpPlacementLimit
  }

  /** The centres of the listed cells that no brick occupies and that lie
      above the placement limit, in list order. */
  function EmptyCentres(cells: seq<Cell>, occupied: set<Cell>): (ps: seq<Point>)
    ensures |ps| <= |cells|
  {
    if |cells| == 0 then []
    else
      var rest := EmptyCentres(cells[..|cells| - 1], occupied);
      var c := cells[|cells| - 1];
      if FreeForPowerUp(c, occupied) then rest + [CellCentre(c)] else rest
  }

  /** The listed centres are exactly those of the free listed cells. */
  lemma {:induction false} EmptyCentresMembers(cells: seq<Cell>, occupied: set<Cell>)
    ensures forall p :: p in EmptyCentres(cells, occupied) <==>
              exists c :: c in cells && FreeForPowerUp(c, occupied) && p == CellCentre(c)
  {
    if |cells| > 0 {
      var init := cells[..|cells| - 1];
      EmptyCentresMembers(init, occupied);
      assert forall d :: d in cells <==> d in init || d == cells[|cells| - 1];
    }
  }

  /** Distinct cells have distinct centres. */
  lemma {:induction false} EmptyCentresDistinct(cells: seq<Cell>, occupied: set<Cell>)
    requires Distinct(cells)
    ensures Distinct(EmptyCentres(cells, occupied))
  {
    if |cells| > 0 {
      var init := cells[..|cells| - 1];
      var c := cells[|cells| - 1];
      EmptyCentresDistinct(init, occupied);
      EmptyCentresMembers(init, occupied);
      var rest := EmptyCentres(init, occupied);
      if FreeForPowerUp(c, occupied) {
        forall i | 0 <= i < |rest|
          ensures rest[i] != CellCentre(c)
        {
          assert rest[i] in rest;
          var d :| d in init && FreeForPowerUp(d, occupied) && rest[i] == CellCentre(d);
          CentreInjective(c, d);
          assert d != c;
        }
      }
    }
  }

  /** `Math.min(n, Math.floor(Math.random() * 3) + 1)`: how many of the
      shuffled empty centres get a power-up. */
  function PowerUpCount(available: nat, r: real): (k: nat)
    requires IsRandom(r)
    ensures k <= available && k <= 3
    ensures available > 0 ==> k >= 1
  {
    var wanted := RandomIndex(r, 3) + 1;
    if available < wanted then available else wanted
  }

  predicate InitialPowerUpDraws(swapDraws: seq<real>, countDraw: real) {
    ShuffleDraws(swapDraws, CellCount) && IsRandom(countDraw)
  }

  /** The first power-ups: one to three of the empty cell centres in
      shuffled order. */
  function InitialPowerUps(bricks: seq<Brick>, swapDraws: seq<real>, countDraw: real): seq<PowerUp>
    requires InitialPowerUpDraws(swapDraws, countDraw)
  {
    var shuffled := Shuffled(EmptyCentres(GridCells(), BrickCells(bricks)), swapDraws);
    var count := PowerUpCount(|shuffled|, countDraw);
    seq(count, i requires 0 <= i < count => CreatePowerUp(shuffled[i]))
  }

  /** The first power-ups: at most three (at least one when a cell is
      free), each uncollected and in the centre of a distinct grid cell
      that no brick (destroyed or not) occupies. */
  lemma {:induction false} InitialPowerUpsWellFormed(bricks: seq<Brick>, swapDraws: seq<real>, countDraw: real)
    requires InitialPowerUpDraws(swapDraws, countDraw)
    ensures var ps := InitialPowerUps(bricks, swapDraws, countDraw);
            var empty := EmptyCentres(GridCells(), BrickCells(bricks));
            |ps| <= 3 && (|empty| > 0 ==> |ps| >= 1) &&
            (forall i :: 0 <= i < |ps| ==>
               var c := PowerUpCell(ps[i]);
               InGrid(c) && FreeForPowerUp(c, BrickCells(bricks)) &&
               ps[i] == CreatePowerUp(CellCentre(c))) &&
            (forall i, j :: 0 <= i < j < |ps| ==> PowerUpCell(ps[i]) != PowerUpCell(ps[j]))
  {
    var occupied := BrickCells(bricks);
    var empty := EmptyCentres(GridCells(), occupied);
    var shuffled := Shuffled(empty, swapDraws);
    var ps := InitialPowerUps(bricks, swapDraws, countDraw);
    GridCellsWellFormed();
    EmptyCentresDistinct(GridCells(), occupied);
    EmptyCentresMembers(GridCells(), occupied);
    ShuffledPermutes(empty, swapDraws);
    forall i | 0 <= i < |ps|
      ensures var c := PowerUpCell(ps[i]);
              InGrid(c) && FreeForPowerUp(c, occupied) && ps[i] == CreatePowerUp(CellCentre(c))
    {
      ShuffledMember(empty, swapDraws, i);
      var c :| c in GridCells() && FreeForPowerUp(c, occupied) && shuffled[i] == CellCentre(c);
      CentreCell(c);
    }
    forall i, j | 0 <= i < j < |ps|
      ensures PowerUpCell(ps[i]) != PowerUpCell(ps[j])
    {
      assert shuffled[i] != shuffled[j];
    }
  }

  /** `generateInitialPowerUps`: collects the cells of all bricks, lists
      the free centres row by row, shuffles them in place and keeps the
      first one to three. */
  method GenerateInitialPowerUps(bricks: seq<Brick>, swapDraws: seq<real>, countDraw: real)
    returns (powerUps: seq<PowerUp>)
    requires InitialPowerUpDraws(swapDraws, countDraw)
    ensures powerUps == InitialPowerUps(bricks, swapDraws, countDraw)
  {
    var occupied := CollectBrickCells(bricks);
    var emptyCells := ListEmptyCentres(occupied);
    var shuffled := new Point[|emptyCells|](i requires 0 <= i < |emptyCells| => emptyCells[i]);
    assert shuffled[..] == emptyCells;
    Shuffle(shuffled, swapDraws);
    var count := PowerUpCount(shuffled.Length, countDraw);
    powerUps := [];
    for i := 0 to count
      invariant |powerUps| == i
      invariant forall k :: 0 <= k < i ==> powerUps[k] == InitialPowerUps(bricks, swapDraws, countDraw)[k]
    {
      powerUps := powerUps + [CreatePowerUp(shuffled[i])];
    }
  }

  /** The occupied-cell pass of `generateInitialPowerUps`. */
  method CollectBrickCells(bricks: seq<Brick>) returns (cells: set<Cell>)
    ensures cells == BrickCells(bricks)
  {
    cells := {};
    for k := 0 to |bricks|
      invariant cells == BrickCells(bricks[..k])
    {
      assert bricks[..k + 1][..k] == bricks[..k];
      cells := cells + {BrickCell(bricks[k])};
    }
    assert bricks[..|bricks|] == bricks;
  }

  lemma GridCellAt(r: nat, c: nat)
    requires r < BrickRows && c < BrickCols
    ensures r * BrickCols + c < CellCount && GridCells()[r * BrickCols + c] == Cell(r, c)
  {
    var k := r * BrickCols + c;
    assert k / BrickCols == r && k % BrickCols == c;
  }

  lemma EmptyCentresStep(cells: seq<Cell>, occupied: set<Cell>, k: nat)
    requires k < |cells|
    ensures EmptyCentres(cells[..k + 1], occupied) ==
            EmptyCentres(cells[..k], occupied) +
            (if FreeForPowerUp(cells[k], occupied) then [CellCentre(cells[k])] else [])
  {
    assert cells[..k + 1][..k] == cells[..k];
  }

  /** The row-by-row empty-cell pass of `generateInitialPowerUps`. */
  method ListEmptyCentres(occupied: set<Cell>) returns (centres: seq<Point>)
    ensures centres == EmptyCentres(GridCells(), occupied)
  {
    centres := [];
    for r := 0 to BrickRows
      invariant centres == EmptyCentres(GridCells()[..r * BrickCols], occupied)
    {
      for c := 0 to BrickCols
        invariant centres == EmptyCentres(GridCells()[..r * BrickCols + c], occupied)
      {
        centres := VisitCell(centres, occupied, r, c);
      }
    }
    assert GridCells()[..CellCount] == GridCells();
  }

  /** One cell of the empty-cell pass: its centre is listed when the cell
      is free and above the placement limit. */
  method VisitCell(centres: seq<Point>, occupied: set<Cell>, r: nat, c: nat) returns (next: seq<Point>)
    requires r < BrickRows && c < BrickCols
    requires centres == EmptyCentres(GridCells()[..r * BrickCols + c], occupied)
    ensures next == EmptyCentres(GridCells()[..r * BrickCols + c + 1], occupied)
  {
    EmptyCentresStep(GridCells(), occupied, r * BrickCols + c);
    GridCellAt(r, c);
    var x := ColumnX(c) + BrickWidth / 2.0;
    var y := RowY(r) + BrickHeight / 2.0;
    next := centres;
    if Cell(r, c) !in occupied && y < PowerUpPlacementLimit {
      next := centres + [Point(x, y)];
    }
  }

  // ---------------------------------------------------------------------
  // End-of-round list operations
  // ---------------------------------------------------------------------

  /** A brick one row further down. */
  function MovedDown(b: Brick): Brick {
    b.(y := b.y + RowPitch)
  }

  /** `moveBricksDown`: every brick one row further down. */
  function MoveBricksDown(bricks: seq<Brick>): (moved: seq<Brick>)
    ensures |moved| == |bricks|
    ensures forall i :: 0 <= i < |bricks| ==> moved[i] == MovedDown(bricks[i])
  {
    if |bricks| == 0 then [] else [MovedDown(bricks[0])] + MoveBricksDown(bricks[1..])
  }

  /** Moving down keeps a brick on the grid and puts it in the next row of
      the same column; nothing but its height on screen changes. */
  lemma MovedDownCell(b: Brick)
    requires Placed(b)
    ensures Placed(MovedDown(b))
    ensures BrickCell(MovedDown(b)) == Cell(BrickCell(b).row + 1, BrickCell(b).col)
  {
    var c := BrickCell(b);
    var below := Cell(c.row + 1, c.col);
    assert RowY(c.row) + RowPitch == RowY(below.row);
    CellAtOffset(below, 0.0, 0.0);
  }

  lemma MoveBricksDownCells(bricks: seq<Brick>)
    requires forall i :: 0 <= i < |bricks| ==> Placed(bricks[i])
    ensures var moved := MoveBricksDown(bricks);
            forall i :: 0 <= i < |bricks| ==>
              Placed(moved[i]) && BrickCell(moved[i]) == Cell(BrickCell(bricks[i]).row + 1, BrickCell(bricks[i]).col)
  {
    forall i | 0 <= i < |bricks| {
      MovedDownCell(bricks[i]);
    }
  }

  /** A live brick whose bottom edge is on or below the game-over line. */
  predicate ReachesBottom(b: Brick) {
    !b.destroyed && b.y + b.height >= GameOverLine
  }

  /** `checkGameOver`: does some live brick reach the game-over line? */
  function CheckGameOver(bricks: seq<Brick>): (over: bool)
    ensures over <==> exists i :: 0 <= i < |bricks| && ReachesBottom(bricks[i])
  {
    if |bricks| == 0 then false
    else
      assert forall i :: 1 <= i < |bricks| ==> bricks[1..][i - 1] == bricks[i];
      ReachesBottom(bricks[0]) || CheckGameOver(bricks[1..])
  }

  /** For a brick on the grid, reaching the game-over line means standing
      in row 20 or below. */
  lemma ReachesBottomRow(b: Brick)
    requires Placed(b)
    ensures b.y + b.height >= GameOverLine <==> BrickCell(b).row >= 20
  {
  }

  /** `cleanupDestroyedBricks`: the live bricks, in order. */
  function CleanupDestroyedBricks(bricks: seq<Brick>): (live: seq<Brick>)
    ensures |live| <= |bricks|
    ensures forall b :: b in live <==> b in bricks && !b.destroyed
  {
    if |bricks| == 0 then []
    else
      var rest := CleanupDestroyedBricks(bricks[1..]);
      assert forall b :: b in bricks <==> b == bricks[0] || b in bricks[1..];
      if bricks[0].destroyed then rest else [bricks[0]] + rest
  }

  lemma {:induction false} CleanupAppend(a: seq<Brick>, b: seq<Brick>)
    ensures CleanupDestroyedBricks(a + b) == CleanupDestroyedBricks(a) + CleanupDestroyedBricks(b)
  {
    if |a| > 0 {
      assert (a + b)[1..] == a[1..] + b;
      CleanupAppend(a[1..], b);
    } else {
      assert a + b == b;
    }
  }

  /** Cleaning up twice is the same as cleaning up once. */
  lemma {:induction false} CleanupIdempotent(bricks: seq<Brick>)
    ensures CleanupDestroyedBricks(CleanupDestroyedBricks(bricks)) == CleanupDestroyedBricks(bricks)
  {
    if |bricks| > 0 {
      CleanupIdempotent(bricks[1..]);
      var rest := CleanupDestroyedBricks(bricks[1..]);
      if !bricks[0].destroyed {
        assert ([bricks[0]] + rest)[1..] == rest;
      }
    }
  }

  /** Removing destroyed bricks changes neither the occupied cells nor the
      game-over verdict. */
  lemma CleanupKeepsOccupiedAndVerdict(bricks: seq<Brick>)
    ensures OccupiedCells(CleanupDestroyedBricks(bricks)) == OccupiedCells(bricks)
    ensures CheckGameOver(CleanupDestroyedBricks(bricks)) == CheckGameOver(bricks)
  {
    var live := CleanupDestroyedBricks(bricks);
    forall c | c in OccupiedCells(bricks)
      ensures c in OccupiedCells(live)
    {
      var i :| 0 <= i < |bricks| && !bricks[i].destroyed && BrickCell(bricks[i]) == c;
      assert bricks[i] in live;
      var j :| 0 <= j < |live| && live[j] == bricks[i];
    }
    forall c | c in OccupiedCells(live)
      ensures c in OccupiedCells(bricks)
    {
      var i :| 0 <= i < |live| && !live[i].destroyed && BrickCell(live[i]) == c;
      assert live[i] in bricks;
      var j :| 0 <= j < |bricks| && bricks[j] == live[i];
    }
    if CheckGameOver(bricks) {
      var i :| 0 <= i < |bricks| && ReachesBottom(bricks[i]);
      assert bricks[i] in live;
      var j :| 0 <= j < |live| && live[j] == bricks[i];
    }
    if CheckGameOver(live) {
      var i :| 0 <= i < |live| && ReachesBottom(live[i]);
      assert live[i] in bricks;
      var j :| 0 <= j < |bricks| && bricks[j] == live[i];
    }
  }

  /** Power-ups moved below this line (750) are dropped. */
  const PowerUpDropLine: real := CanvasHeight - 50.0

  /** A power-up one row further down. */
  function PowerUpMovedDown(p: PowerUp): PowerUp {
    p.(y := p.y + RowPitch)
  }

  /** An uncollected power-up survives the move if it stays above the
      drop line. */
  predicate SurvivesMove(p: PowerUp) {
    !p.collected && p.y + RowPitch < PowerUpDropLine
  }

  /** `movePowerUpsDown`: drops collected power-ups, moves the rest one row
      down and drops those past the drop line. */
  function MovePowerUpsDown(powerUps: seq<PowerUp>): (moved: seq<PowerUp>)
    ensures |moved| <= |powerUps|
    ensures forall p :: p in moved <==> exists q :: q in powerUps && SurvivesMove(q) && p == PowerUpMovedDown(q)
  {
    if |powerUps| == 0 then []
    else
      var rest := MovePowerUpsDown(powerUps[1..]);
      assert forall q :: q in powerUps <==> q == powerUps[0] || q in powerUps[1..];
      if SurvivesMove(powerUps[0]) then [PowerUpMovedDown(powerUps[0])] + rest else rest
  }

  /** Moving power-ups down keeps their order: the list moves piece by
      piece, each power-up on its own. */
  lemma {:induction false} MovePowerUpsDownAppend(a: seq<PowerUp>, b: seq<PowerUp>)
    ensures MovePowerUpsDown(a + b) == MovePowerUpsDown(a) + MovePowerUpsDown(b)
  {
    if |a| > 0 {
      assert (a + b)[1..] == a[1..] + b;
      MovePowerUpsDownAppend(a[1..], b);
    } else {
      assert a + b == b;
    }
  }

  /** A single power-up is kept, moved down one row, exactly when it
      survives the move. */
  lemma MovePowerUpsDownOne(p: PowerUp)
    ensures MovePowerUpsDown([p]) == if SurvivesMove(p) then [PowerUpMovedDown(p)] else []
  {
    assert [p][1..] == [];
  }

  /** Power-ups that stood at or below the first row's top edge no longer
      stand in the first row after the move, so they never block a column
      of the new top row. */
  lemma MovedPowerUpsLeaveTopRow(powerUps: seq<PowerUp>)
    requires forall k :: 0 <= k < |powerUps| ==> powerUps[k].y >= OffsetTop
    ensures forall k :: 0 <= k < |MovePowerUpsDown(powerUps)| ==> PowerUpCell(MovePowerUpsDown(powerUps)[k]).row >= 1
    ensures BlockedColumns(MovePowerUpsDown(powerUps)) == {}
  {
    var moved := MovePowerUpsDown(powerUps);
    forall k | 0 <= k < |moved|
      ensures PowerUpCell(moved[k]).row >= 1
    {
      assert moved[k] in moved;
      var q :| q in powerUps && SurvivesMove(q) && moved[k] == PowerUpMovedDown(q);
      MovedPowerUpRow(q);
    }
    var blocked := BlockedColumns(moved);
    assert forall c :: c !in blocked;
    assert blocked == {};
  }

  lemma MovedPowerUpRow(q: PowerUp)
    requires q.y >= OffsetTop
    ensures PowerUpCell(PowerUpMovedDown(q)).row >= 1
  {
    var f := (PowerUpMovedDown(q).y - OffsetTop) / RowPitch;
    assert f >= 1.0;
  }

  /** `createBall`: a moving ball at the launch point. */
  function CreateBall(x: real, y: real, vx: real, vy: real): Ball {
    Ball(x, y, vx, vy, true)
  }

  /** `areAllBallsLanded`: there is at least one ball and none is active. */
  predicate AllBallsLanded(balls: seq<Ball>) {
    |balls| > 0 && forall i :: 0 <= i < |balls| ==> !balls[i].active
  }

  /** A ball counts for the next launch point when it is strictly inside
      the canvas horizontally. */
  predicate InsideCanvas(b: Ball) {
    0.0 < b.x < CanvasWidth
  }

  /** `getLastLandedBallX`: the x of the last ball (in array order) that is
      inside the canvas, or the middle of the canvas if there is none. */
  function LastLandedBallX(balls: seq<Ball>): (x: real)
    ensures 0.0 < x < CanvasWidth
    ensures (exists i :: 0 <= i < |balls| && InsideCanvas(balls[i]) && x == balls[i].x &&
               forall j :: i < j < |balls| ==> !InsideCanvas(balls[j])) ||
            ((forall i :: 0 <= i < |balls| ==> !InsideCanvas(balls[i])) && x == CanvasWidth / 2.0)
  {
    if |balls| == 0 then CanvasWidth / 2.0
    else
      var last := balls[|balls| - 1];
      if InsideCanvas(last) then last.x
      else
        var init := balls[..|balls| - 1];
        assert forall i :: 0 <= i < |init| ==> init[i] == balls[i];
        LastLandedBallX(init)
  }

  /** A ball just created is in play, so a volley that holds it has not
      landed; a ball created inside the canvas and last in the list gives
      the launch point of the next round. */
  lemma CreatedBallInPlay(balls: seq<Ball>, x: real, y: real, vx: real, vy: real)
    ensures !AllBallsLanded(balls + [CreateBall(x, y, vx, vy)])
    ensures 0.0 < x < CanvasWidth ==> LastLandedBallX(balls + [CreateBall(x, y, vx, vy)]) == x
  {
    var s := balls + [CreateBall(x, y, vx, vy)];
    assert s[|s| - 1] == CreateBall(x, y, vx, vy);
  }

  // ---------------------------------------------------------------------
  // New top-row power-ups
  // ---------------------------------------------------------------------

  /** A JavaScript number that may be `undefined`. */
  datatype JsNumber = Num(value: real) | Undefined

  /** `r < n`: a comparison with `undefined` is always false. */
  predicate JsLess(r: real, n: JsNumber) {
    n.Num? && r < n.value
  }

  /** The four-percent chance the source's comment gives for a new
      power-up in a free top-row column. */
  const SpawnChance: real := 0.04

  /** The columns of the new top-row bricks, recovered by rounding. */
  function BrickColumns(bricks: seq<Brick>): (cols: set<int>)
    ensures forall c :: c in cols <==> exists i :: 0 <= i < |bricks| && BrickCell(bricks[i]).col == c
  {
    if |bricks| == 0 then {}
    else
      var rest := BrickColumns(bricks[..|bricks| - 1]);
      assert forall i :: 0 <= i < |bricks| - 1 ==> bricks[..|bricks| - 1][i] == bricks[i];
      rest + {BrickCell(bricks[|bricks| - 1]).col}
  }

  /** The power-up that may appear in top-row column `c`. */
  function TopRowPowerUp(c: int): PowerUp {
    CreatePowerUp(CellCentre(Cell(0, c)))
  }

  predicate SpawnDraws(draws: seq<real>) {
    |draws| >= BrickCols && AllRandom(draws)
  }

  /** The power-ups of columns 0 .. n-1: column c gets one when no new
      brick stands in it and its draw is below `chance`. */
  function SpawnedPowerUps(occupied: set<int>, draws: seq<real>, chance: JsNumber, n: nat): (ps: seq<PowerUp>)
    requires n <= |draws|
    ensures |ps| <= n
    ensures forall p :: p in ps <==>
      exists c :: 0 <= c < n && c !in occupied && JsLess(draws[c], chance) && p == TopRowPowerUp(c)
  {
    if n == 0 then []
    else
      var rest := SpawnedPowerUps(occupied, draws, chance, n - 1);
      if n - 1 !in occupied && JsLess(draws[n - 1], chance) then rest + [TopRowPowerUp(n - 1)] else rest
  }

  function TopRowPowerUps(newBricks: seq<Brick>, draws: seq<real>, chance: JsNumber): seq<PowerUp>
    requires SpawnDraws(draws)
  {
    SpawnedPowerUps(BrickColumns(newBricks), draws, chance, BrickCols)
  }

  /** With `SPAWN_CHANCE` read from a configuration that does not define
      it, no power-up ever appears in the new top row. */
  lemma TopRowPowerUpsAsWrittenEmpty(newBricks: seq<Brick>, draws: seq<real>)
    requires SpawnDraws(draws)
    ensures TopRowPowerUps(newBricks, draws, Undefined) == []
  {
    NeverSpawns(BrickColumns(newBricks), draws, BrickCols);
  }

  lemma {:induction false} NeverSpawns(occupied: set<int>, draws: seq<real>, n: nat)
    requires n <= |draws|
    ensures SpawnedPowerUps(occupied, draws, Undefined, n) == []
  {
    if n > 0 {
      NeverSpawns(occupied, draws, n - 1);
    }
  }

  /** With the intended four-percent chance, free column c of the new top
      row gets a power-up in its centre exactly when its draw is below
      0.04; every new power-up is in the first row, clear of the new
      bricks. */
  lemma TopRowPowerUpsSpawn(newBricks: seq<Brick>, draws: seq<real>)
    requires SpawnDraws(draws)
    ensures var ps := TopRowPowerUps(newBricks, draws, Num(SpawnChance));
            (forall c :: 0 <= c < BrickCols ==>
               (TopRowPowerUp(c) in ps <==> c !in BrickColumns(newBricks) && draws[c] < SpawnChance)) &&
            (forall k :: 0 <= k < |ps| ==>
               PowerUpCell(ps[k]).row == 0 &&
               forall i :: 0 <= i < |newBricks| ==> PowerUpCell(ps[k]).col != BrickCell(newBricks[i]).col)
  {
    var ps := TopRowPowerUps(newBricks, draws, Num(SpawnChance));
    forall c | 0 <= c < BrickCols
      ensures TopRowPowerUp(c) in ps <==> c !in BrickColumns(newBricks) && draws[c] < SpawnChance
    {
      if TopRowPowerUp(c) in ps {
        var d :| 0 <= d < BrickCols && d !in BrickColumns(newBricks) && JsLess(draws[d], Num(SpawnChance)) &&
                 TopRowPowerUp(c) == TopRowPowerUp(d);
        CentreInjective(Cell(0, c), Cell(0, d));
      }
    }
    forall k | 0 <= k < |ps|
      ensures PowerUpCell(ps[k]).row == 0 &&
              forall i :: 0 <= i < |newBricks| ==> PowerUpCell(ps[k]).col != BrickCell(newBricks[i]).col
    {
      assert ps[k] in ps;
      var d :| 0 <= d < BrickCols && d !in BrickColumns(newBricks) && JsLess(draws[d], Num(SpawnChance)) &&
               ps[k] == TopRowPowerUp(d);
      CentreCell(Cell(0, d));
    }
  }

  /** `generateTopRowPowerUps`: collects the new bricks' columns, then
      walks the 14 columns and decides each free one by its draw. */
  method GenerateTopRowPowerUps(newBricks: seq<Brick>, draws: seq<real>, chance: JsNumber)
    returns (powerUps: seq<PowerUp>)
    requires SpawnDraws(draws)
    ensures powerUps == TopRowPowerUps(newBricks, draws, chance)
  {
    var occupiedCols: set<int> := {};
    for k := 0 to |newBricks|
      invariant occupiedCols == BrickColumns(newBricks[..k])
    {
      assert newBricks[..k + 1][..k] == newBricks[..k];
      occupiedCols := occupiedCols + {BrickCell(newBricks[k]).col};
    }
    assert newBricks[..|newBricks|] == newBricks;
    powerUps := [];
    for c := 0 to BrickCols
      invariant powerUps == SpawnedPowerUps(occupiedCols, draws, chance, c)
    {
      if c !in occupiedCols {
        if JsLess(draws[c], chance) {
          var position := Point(ColumnX(c) + BrickWidth / 2.0, OffsetTop + BrickHeight / 2.0);
          assert position == CellCentre(Cell(0, c));
          powerUps := powerUps + [CreatePowerUp(position)];
        }
      }
    }
  }

  // ---------------------------------------------------------------------
  // Layout invariants of the brick list
  // ---------------------------------------------------------------------

  /** No two bricks of the list stand in the same grid cell. */
  predicate DistinctCells(bricks: seq<Brick>) {
    forall i, j :: 0 <= i < j < |bricks| ==> BrickCell(bricks[i]) != BrickCell(bricks[j])
  }

  predicate AllPlaced(bricks: seq<Brick>) {
    forall i :: 0 <= i < |bricks| ==> Placed(bricks[i])
  }

  /** Removing destroyed bricks keeps the others where they are. */
  lemma {:induction false} CleanupKeepsLayout(bricks: seq<Brick>)
    requires AllPlaced(bricks) && DistinctCells(bricks)
    ensures AllPlaced(CleanupDestroyedBricks(bricks)) && DistinctCells(CleanupDestroyedBricks(bricks))
  {
    if |bricks| > 0 {
      var tail := bricks[1..];
      assert AllPlaced(tail) && DistinctCells(tail) by {
        assert forall i :: 0 <= i < |tail| ==> tail[i] == bricks[i + 1];
      }
      CleanupKeepsLayout(tail);
      var rest := CleanupDestroyedBricks(tail);
      if !bricks[0].destroyed {
        forall j | 0 <= j < |rest|
          ensures BrickCell(rest[j]) != BrickCell(bricks[0])
        {
          assert rest[j] in tail;
          var k :| 0 <= k < |tail| && tail[k] == rest[j];
          assert tail[k] == bricks[k + 1];
        }
        var live := [bricks[0]] + rest;
        assert forall i :: 1 <= i < |live| ==> live[i] == rest[i - 1];
      }
    }
  }

  /** Moving every brick down one row keeps the layout and fills no cell of
      the first row. */
  lemma MoveDownKeepsLayout(bricks: seq<Brick>)
    requires AllPlaced(bricks) && DistinctCells(bricks)
    ensures var moved := MoveBricksDown(bricks);
            AllPlaced(moved) && DistinctCells(moved) &&
            forall i :: 0 <= i < |moved| ==> BrickCell(moved[i]).row >= 1
  {
    MoveBricksDownCells(bricks);
  }

  /** A first-row list and a list below the first row can be joined
      without two bricks sharing a cell. */
  lemma JoinRowsKeepsLayout(top: seq<Brick>, below: seq<Brick>)
    requires AllPlaced(top) && DistinctCells(top) && forall i :: 0 <= i < |top| ==> BrickCell(top[i]).row == 0
    requires AllPlaced(below) && DistinctCells(below) && forall i :: 0 <= i < |below| ==> BrickCell(below[i]).row >= 1
    ensures AllPlaced(top + below) && DistinctCells(top + below)
    ensures forall i :: 0 <= i < |top + below| ==> (BrickCell((top + below)[i]).row == 0 <==> i < |top|)
  {
    var all := top + below;
    assert forall i :: 0 <= i < |all| ==> all[i] == (if i < |top| then top[i] else below[i - |top|]);
    forall i, j | 0 <= i < j < |all|
      ensures BrickCell(all[i]) != BrickCell(all[j])
    {
      if j < |top| {
      } else if i >= |top| {
        assert all[i] == below[i - |top|] && all[j] == below[j - |top|];
      } else {
        assert BrickCell(all[i]).row == 0 && all[j] == below[j - |top|];
      }
    }
  }

  /** Power-ups stand in a grid row, never above the first one. */
  predicate PowerUpsOnField(powerUps: seq<PowerUp>) {
    forall k :: 0 <= k < |powerUps| ==> powerUps[k].y >= OffsetTop
  }

  /** The first field keeps bricks on distinct grid cells and power-ups on
      the field. */
  lemma InitialFieldLayout(swapDraws: seq<real>, healthDraws: seq<real>, powerUpDraws: seq<real>, countDraw: real)
    requires InitialDraws(swapDraws, healthDraws) && InitialPowerUpDraws(powerUpDraws, countDraw)
    ensures var bs := InitialBricks(swapDraws, healthDraws);
            AllPlaced(bs) && DistinctCells(bs) && PowerUpsOnField(InitialPowerUps(bs, powerUpDraws, countDraw))
  {
    InitialBricksWellFormed(swapDraws, healthDraws);
    InitialPowerUpsOnField(InitialBricks(swapDraws, healthDraws), powerUpDraws, countDraw);
  }

  lemma InitialPowerUpsOnField(bricks: seq<Brick>, swapDraws: seq<real>, countDraw: real)
    requires InitialPowerUpDraws(swapDraws, countDraw)
    ensures PowerUpsOnField(InitialPowerUps(bricks, swapDraws, countDraw))
  {
    InitialPowerUpsWellFormed(bricks, swapDraws, countDraw);
    var ps := InitialPowerUps(bricks, swapDraws, countDraw);
    forall k | 0 <= k < |ps|
      ensures ps[k].y >= OffsetTop
    {
      assert ps[k] == CreatePowerUp(CellCentre(PowerUpCell(ps[k])));
    }
  }

  /** After the bricks are cleaned up and moved down, one of them reaches
      the game-over line exactly when a live brick stood in row 19 or
      lower before the move. */
  lemma MovedGameOverRow(bricks: seq<Brick>)
    requires AllPlaced(bricks)
    ensures CheckGameOver(MoveBricksDown(CleanupDestroyedBricks(bricks))) <==>
            exists i :: 0 <= i < |bricks| && !bricks[i].destroyed && BrickCell(bricks[i]).row >= 19
  {
    var live := CleanupDestroyedBricks(bricks);
    LivePlaced(bricks);
    MovedReachesBottom(live);
    if exists i :: 0 <= i < |bricks| && !bricks[i].destroyed && BrickCell(bricks[i]).row >= 19 {
      var i :| 0 <= i < |bricks| && !bricks[i].destroyed && BrickCell(bricks[i]).row >= 19;
      assert bricks[i] in live;
    }
    if exists j :: 0 <= j < |live| && BrickCell(live[j]).row >= 19 {
      var j :| 0 <= j < |live| && BrickCell(live[j]).row >= 19;
      assert live[j] in live;
    }
  }

  /** The bricks that survive the cleanup are live bricks of the field. */
  lemma LivePlaced(bricks: seq<Brick>)
    requires AllPlaced(bricks)
    ensures var live := CleanupDestroyedBricks(bricks);
            AllPlaced(live) && forall j :: 0 <= j < |live| ==> live[j] in bricks && !live[j].destroyed
  {
    var live := CleanupDestroyedBricks(bricks);
    forall j | 0 <= j < |live|
      ensures live[j] in bricks && !live[j].destroyed && Placed(live[j])
    {
      assert live[j] in live;
    }
  }

  /** Live placed bricks moved down a row reach the game-over line exactly
      when one stood in row 19 or lower. */
  lemma MovedReachesBottom(bricks: seq<Brick>)
    requires AllPlaced(bricks) && forall j :: 0 <= j < |bricks| ==> !bricks[j].destroyed
    ensures CheckGameOver(MoveBricksDown(bricks)) <==> exists j :: 0 <= j < |bricks| && BrickCell(bricks[j]).row >= 19
  {
    var moved := MoveBricksDown(bricks);
    MoveBricksDownCells(bricks);
    forall j | 0 <= j < |moved|
      ensures ReachesBottom(moved[j]) <==> BrickCell(bricks[j]).row >= 19
    {
      ReachesBottomRow(moved[j]);
    }
    if exists j :: 0 <= j < |bricks| && BrickCell(bricks[j]).row >= 19 {
      var j :| 0 <= j < |bricks| && BrickCell(bricks[j]).row >= 19;
      assert ReachesBottom(moved[j]);
    }
  }

  /** The bricks that survive a round, moved down, keep distinct cells
      below the first row. */
  lemma LiveMovedLayout(bricks: seq<Brick>)
    requires AllPlaced(bricks) && DistinctCells(bricks)
    ensures var moved := MoveBricksDown(CleanupDestroyedBricks(bricks));
            AllPlaced(moved) && DistinctCells(moved) &&
            forall i :: 0 <= i < |moved| ==> BrickCell(moved[i]).row >= 1
  {
    CleanupKeepsLayout(bricks);
    MoveDownKeepsLayout(CleanupDestroyedBricks(bricks));
  }

  /** The new top row after the power-ups moved down: seven bricks on
      distinct cells of the first row. */
  lemma NewTopRowLayout(round: int, powerUps: seq<PowerUp>, swapDraws: seq<real>, healthDraws: seq<real>)
    requires TopRowDraws(swapDraws, healthDraws) && PowerUpsOnField(powerUps)
    ensures var top := TopRowBricks(round, MovePowerUpsDown(powerUps), swapDraws, healthDraws);
            |top| == 7 && AllPlaced(top) && DistinctCells(top) &&
            forall i :: 0 <= i < |top| ==> BrickCell(top[i]).row == 0
  {
    var moved := MovePowerUpsDown(powerUps);
    MovedPowerUpsLeaveTopRow(powerUps);
    TopRowBricksUnblocked(round, moved, swapDraws, healthDraws);
    TopRowBricksWellFormed(round, moved, swapDraws, healthDraws);
  }

  /** Moved and newly spawned power-ups stay on the field. */
  lemma NextPowerUpsOnField(powerUps: seq<PowerUp>, top: seq<Brick>, spawnDraws: seq<real>, chance: JsNumber)
    requires SpawnDraws(spawnDraws) && PowerUpsOnField(powerUps)
    ensures PowerUpsOnField(MovePowerUpsDown(powerUps) + TopRowPowerUps(top, spawnDraws, chance))
  {
    var moved := MovePowerUpsDown(powerUps);
    var spawned := TopRowPowerUps(top, spawnDraws, chance);
    forall k | 0 <= k < |moved|
      ensures moved[k].y >= OffsetTop
    {
      assert moved[k] in moved;
    }
    forall k | 0 <= k < |spawned|
      ensures spawned[k].y >= OffsetTop
    {
      assert spawned[k] in spawned;
    }
    var ps := moved + spawned;
    assert forall k :: 0 <= k < |ps| ==> ps[k] == (if k < |moved| then moved[k] else spawned[k - |moved|]);
  }
}
