/**
 * The pellet spawner: it walks the ground tilemap's cell bounds column by
 * column and gives every eligible cell (a ground tile, no wall tile, outside
 * every exclusion disc) one pellet, or a power pellet at the configured
 * positions. Tilemaps become the set of cells holding a tile, prefabs become
 * whether one is assigned, and the spawner's children become a sequence of items.
 */
module Pellets {
  import opened Common

  /** A grid cell (Vector2Int / Vector3Int with z = 0). */
  datatype Cell = Cell(x: int, y: int)

  /** BoundsInt: the cells of [xMin, xMax) x [yMin, yMax). */
  datatype Bounds = Bounds(xMin: int, xMax: int, yMin: int, yMax: int)
  {
    predicate Contains(c: Cell)
    {
      xMin <= c.x < xMax && yMin <= c.y < yMax
    }
  }

  /** A tilemap: its cell bounds and the cells that hold a tile. */
  datatype Tilemap = Tilemap(cellBounds: Bounds, tiles: set<Cell>)
  {
    predicate HasTile(c: Cell)
    {
      c in tiles
    }
  }

  /** A spawned child, named after its cell (Pellet_x_y, PowerPellet_x_y). */
  datatype Item = Pellet(cell: Cell) | PowerPellet(cell: Cell)

  /** What SpawnAllPellets did: gave up for a missing tilemap or prefab, or spawned so many items. */
  datatype SpawnOutcome = Aborted | Spawned(pellets: nat, powerPellets: nat)

  /** The inspector settings that decide which cell gets what. */
  datatype Settings = Settings(wall: Option<Tilemap>, powerPelletPositions: seq<Cell>,
                               exclusionCenters: seq<Cell>, exclusionRadius: int,
                               hasPowerPelletPrefab: bool)

  /** Vector2Int.Distance(p, c) <= radius, compared on squares: a distance is
      never negative, and for a non-negative radius sqrt(n) <= r iff n <= r * r. */
  predicate WithinRadius(p: Cell, c: Cell, radius: int)
  {
    radius >= 0 && (p.x - c.x) * (p.x - c.x) + (p.y - c.y) * (p.y - c.y) <= radius * radius
  }

  predicate Excluded(s: Settings, c: Cell)
  {
    exists i :: 0 <= i < |s.exclusionCenters| && WithinRadius(c, s.exclusionCenters[i], s.exclusionRadius)
  }

  /** A cell gets an item: it has ground, no wall (when there is a wall map) and is not excluded. */
  predicate Eligible(ground: Tilemap, s: Settings, c: Cell)
  {
    && ground.HasTile(c)
    && !(s.wall.Some? && s.wall.value.HasTile(c))
    && !Excluded(s, c)
  }

  /** The item an eligible cell gets: a power pellet at a power position when
      that prefab is assigned, a pellet otherwise. */
  function Classify(s: Settings, c: Cell): (r: Item)
    ensures r.cell == c
    ensures r.PowerPellet? <==> c in s.powerPelletPositions && s.hasPowerPelletPrefab
  {
    if c in s.powerPelletPositions && s.hasPowerPelletPrefab then PowerPellet(c) else Pellet(c)
  }

  function ItemsAt(ground: Tilemap, s: Settings, c: Cell): seq<Item>
  {
    if Eligible(ground, s, c) then [Classify(s, c)] else []
  }

  /** The items of column x for rows yMin up to (not including) y, in row order. */
  function ColumnItems(ground: Tilemap, s: Settings, x: int, yMin: int, y: int): seq<Item>
    decreases y - yMin
  {
    if y <= yMin then [] else ColumnItems(ground, s, x, yMin, y - 1) + ItemsAt(ground, s, Cell(x, y - 1))
  }

  /** The items of columns b.xMin up to (not including) x, column by column. */
  function GridItems(ground: Tilemap, s: Settings, b: Bounds, x: int): seq<Item>
    decreases x - b.xMin
  {
    if x <= b.xMin then [] else GridItems(ground, s, b, x - 1) + ColumnItems(ground, s, x - 1, b.yMin, b.yMax)
  }

  /** Everything one spawn pass creates, in creation order. */
  function Layout(ground: Tilemap, s: Settings): seq<Item>
  {
    GridItems(ground, s, ground.cellBounds, ground.cellBounds.xMax)
  }

  /** The number of ground cells of column x in rows yMin up to y. */
  function GroundInColumn(ground: Tilemap, x: int, yMin: int, y: int): nat
    decreases y - yMin
  {
    if y <= yMin then 0
    else GroundInColumn(ground, x, yMin, y - 1) + (if ground.HasTile(Cell(x, y - 1)) then 1 else 0)
  }

  function GroundInGrid(ground: Tilemap, b: Bounds, x: int): nat
    decreases x - b.xMin
  {
    if x <= b.xMin then 0 else GroundInGrid(ground, b, x - 1) + GroundInColumn(ground, x - 1, b.yMin, b.yMax)
  }

  /** The number of ground cells inside the ground map's bounds. */
  function GroundCount(ground: Tilemap): nat
  {
    GroundInGrid(ground, ground.cellBounds, ground.cellBounds.xMax)
  }

  function PowerCount(items: seq<Item>): (r: nat)
    ensures r <= |items|
  {
    if |items| == 0 then 0
    else PowerCount(items[..|items| - 1]) + (if items[|items| - 1].PowerPellet? then 1 else 0)
  }

  lemma PowerCountSnoc(items: seq<Item>, item: Item)
    ensures PowerCount(items + [item]) == PowerCount(items) + (if item.PowerPellet? then 1 else 0)
  {
    assert (items + [item])[..|items|] == items;
  }

  lemma {:induction false} PowerCountAppend(a: seq<Item>, b: seq<Item>)
    ensures PowerCount(a + b) == PowerCount(a) + PowerCount(b)
    decreases |b|
  {
    if |b| > 0 {
      var last := b[|b| - 1];
      var front := b[..|b| - 1];
      assert b == front + [last];
      assert a + b == (a + front) + [last];
      PowerCountAppend(a, front);
      PowerCountSnoc(a + front, last);
      PowerCountSnoc(front, last);
    } else {
      assert a + b == a;
    }
  }

  /** One more column: the grid grows by that column's items and power pellets. */
  lemma GridStep(ground: Tilemap, s: Settings, b: Bounds, x: int, base: seq<Item>)
    requires b.xMin <= x
    ensures base + GridItems(ground, s, b, x + 1) == (base + GridItems(ground, s, b, x)) + ColumnItems(ground, s, x, b.yMin, b.yMax)
    ensures PowerCount(GridItems(ground, s, b, x + 1))
         == PowerCount(GridItems(ground, s, b, x)) + PowerCount(ColumnItems(ground, s, x, b.yMin, b.yMax))
  {
    PowerCountAppend(GridItems(ground, s, b, x), ColumnItems(ground, s, x, b.yMin, b.yMax));
  }

  /** One more row of a column: it grows by that cell's items. */
  lemma ColumnStep(ground: Tilemap, s: Settings, x: int, yMin: int, y: int, base: seq<Item>)
    requires yMin <= y
    ensures base + ColumnItems(ground, s, x, yMin, y + 1) == (base + ColumnItems(ground, s, x, yMin, y)) + ItemsAt(ground, s, Cell(x, y))
    ensures PowerCount(ColumnItems(ground, s, x, yMin, y + 1))
         == PowerCount(ColumnItems(ground, s, x, yMin, y))
            + (if Eligible(ground, s, Cell(x, y)) && Classify(s, Cell(x, y)).PowerPellet? then 1 else 0)
  {
    var column := ColumnItems(ground, s, x, yMin, y);
    if Eligible(ground, s, Cell(x, y)) {
      PowerCountSnoc(column, Classify(s, Cell(x, y)));
    } else {
      assert column + [] == column;
    }
  }

  /* Properties of the layout */

  /** Cells come in column-major order: by x, then by y. */
  predicate Before(a: Cell, b: Cell)
  {
    a.x < b.x || (a.x == b.x && a.y < b.y)
  }

  /** Every item's cell is eligible and the item is what Classify gives it. */
  predicate Faithful(ground: Tilemap, s: Settings, items: seq<Item>)
  {
    forall i :: 0 <= i < |items| ==> Eligible(ground, s, items[i].cell) && items[i] == Classify(s, items[i].cell)
  }

  predicate AllWithin(items: seq<Item>, b: Bounds)
  {
    forall i :: 0 <= i < |items| ==> b.Contains(items[i].cell)
  }

  /** Items in strictly increasing column-major order of their cells (so no cell twice). */
  predicate ColumnMajor(items: seq<Item>)
  {
    forall i, j :: 0 <= i < j < |items| ==> Before(items[i].cell, items[j].cell)
  }

  lemma AppendShape(ground: Tilemap, s: Settings, a: seq<Item>, ra: Bounds, b: seq<Item>, rb: Bounds, r: Bounds)
    requires Faithful(ground, s, a) && Faithful(ground, s, b)
    requires AllWithin(a, ra) && AllWithin(b, rb) && ColumnMajor(a) && ColumnMajor(b)
    requires forall c, d :: ra.Contains(c) && rb.Contains(d) ==> Before(c, d)
    requires forall c :: ra.Contains(c) || rb.Contains(c) ==> r.Contains(c)
    ensures Faithful(ground, s, a + b) && AllWithin(a + b, r) && ColumnMajor(a + b)
  {
    var ab := a + b;
    forall i, j | 0 <= i < j < |ab|
      ensures Before(ab[i].cell, ab[j].cell)
    {
      if j < |a| {
        assert ab[i] == a[i] && ab[j] == a[j];
      } else if i < |a| {
        assert ab[i] == a[i] && ab[j] == b[j - |a|];
      } else {
        assert ab[i] == b[i - |a|] && ab[j] == b[j - |a|];
      }
    }
    forall i | 0 <= i < |ab|
      ensures r.Contains(ab[i].cell) && Eligible(ground, s, ab[i].cell) && ab[i] == Classify(s, ab[i].cell)
    {
      if i < |a| {
        assert ab[i] == a[i];
      } else {
        assert ab[i] == b[i - |a|];
      }
    }
  }

  /** A column's items lie in that column, in rows [yMin, y), in increasing row
      order, and each is what its eligible cell is classified as. */
  lemma {:induction false} ColumnShape(ground: Tilemap, s: Settings, x: int, yMin: int, y: int)
    ensures Faithful(ground, s, ColumnItems(ground, s, x, yMin, y))
    ensures AllWithin(ColumnItems(ground, s, x, yMin, y), Bounds(x, x + 1, yMin, y))
    ensures ColumnMajor(ColumnItems(ground, s, x, yMin, y))
    decreases y - yMin
  {
    if y > yMin {
      ColumnShape(ground, s, x, yMin, y - 1);
      AppendShape(ground, s, ColumnItems(ground, s, x, yMin, y - 1), Bounds(x, x + 1, yMin, y - 1),
                  ItemsAt(ground, s, Cell(x, y - 1)), Bounds(x, x + 1, y - 1, y), Bounds(x, x + 1, yMin, y));
    }
  }

  /** Every eligible cell of a column's rows has an item in that column. */
  lemma {:induction false} ColumnCovers(ground: Tilemap, s: Settings, x: int, yMin: int, y: int, c: Cell)
    requires c.x == x && yMin <= c.y < y && Eligible(ground, s, c)
    ensures Classify(s, c) in ColumnItems(ground, s, x, yMin, y)
    decreases y - yMin
  {
    if c.y < y - 1 {
      ColumnCovers(ground, s, x, yMin, y - 1, c);
    } else {
      assert ItemsAt(ground, s, c) == [Classify(s, c)];
    }
  }

  /** The grid's items lie in columns [b.xMin, x) and rows [b.yMin, b.yMax), in
      strictly increasing column-major order, each classified as its eligible cell. */
  lemma {:induction false} GridShape(ground: Tilemap, s: Settings, b: Bounds, x: int)
    ensures Faithful(ground, s, GridItems(ground, s, b, x))
    ensures AllWithin(GridItems(ground, s, b, x), Bounds(b.xMin, x, b.yMin, b.yMax))
    ensures ColumnMajor(GridItems(ground, s, b, x))
    decreases x - b.xMin
  {
    if x > b.xMin {
      GridShape(ground, s, b, x - 1);
      ColumnShape(ground, s, x - 1, b.yMin, b.yMax);
      AppendShape(ground, s, GridItems(ground, s, b, x - 1), Bounds(b.xMin, x - 1, b.yMin, b.yMax),
                  ColumnItems(ground, s, x - 1, b.yMin, b.yMax), Bounds(x - 1, x, b.yMin, b.yMax),
                  Bounds(b.xMin, x, b.yMin, b.yMax));
    }
  }

  /** Every eligible cell in columns [b.xMin, x) and rows [b.yMin, b.yMax) has its item in the grid. */
  lemma {:induction false} GridCovers(ground: Tilemap, s: Settings, b: Bounds, x: int, c: Cell)
    requires b.xMin <= c.x < x && b.yMin <= c.y < b.yMax && Eligible(ground, s, c)
    ensures Classify(s, c) in GridItems(ground, s, b, x)
    decreases x - b.xMin
  {
    if c.x < x - 1 {
      GridCovers(ground, s, b, x - 1, c);
    } else {
      ColumnCovers(ground, s, x - 1, b.yMin, b.yMax, c);
    }
  }

  /** A cell inside the bounds gets an item iff it is eligible; the item is
      what Classify says; and no cell gets two items. So each eligible cell
      gets exactly one item and the layout has one item per eligible cell. */
  lemma LayoutIsExactlyTheEligibleCells(ground: Tilemap, s: Settings)
    ensures forall i :: 0 <= i < |Layout(ground, s)| ==>
              ground.cellBounds.Contains(Layout(ground, s)[i].cell) &&
              Eligible(ground, s, Layout(ground, s)[i].cell) &&
              Layout(ground, s)[i] == Classify(s, Layout(ground, s)[i].cell)
    ensures forall c :: ground.cellBounds.Contains(c) && Eligible(ground, s, c) ==> Classify(s, c) in Layout(ground, s)
    ensures forall i, j :: 0 <= i < j < |Layout(ground, s)| ==> Layout(ground, s)[i].cell != Layout(ground, s)[j].cell
  {
    var b := ground.cellBounds;
    GridShape(ground, s, b, b.xMax);
    forall c | b.Contains(c) && Eligible(ground, s, c)
      ensures Classify(s, c) in Layout(ground, s)
    {
      GridCovers(ground, s, b, b.xMax, c);
    }
  }

  /** A column never holds more items than ground cells. */
  lemma {:induction false} ColumnWithinGround(ground: Tilemap, s: Settings, x: int, yMin: int, y: int)
    ensures |ColumnItems(ground, s, x, yMin, y)| <= GroundInColumn(ground, x, yMin, y)
    decreases y - yMin
  {
    if y > yMin {
      ColumnWithinGround(ground, s, x, yMin, y - 1);
    }
  }

  lemma {:induction false} GridWithinGround(ground: Tilemap, s: Settings, b: Bounds, x: int)
    ensures |GridItems(ground, s, b, x)| <= GroundInGrid(ground, b, x)
    decreases x - b.xMin
  {
    if x > b.xMin {
      GridWithinGround(ground, s, b, x - 1);
      ColumnWithinGround(ground, s, x - 1, b.yMin, b.yMax);
    }
  }

  /** A spawn pass never creates more items than CountGroundTiles reports. */
  lemma LayoutWithinGroundCount(ground: Tilemap, s: Settings)
    ensures |Layout(ground, s)| <= GroundCount(ground)
  {
    GridWithinGround(ground, s, ground.cellBounds, ground.cellBounds.xMax);
  }

  /** With no power pellet prefab, or no power positions, every item is a plain pellet. */
  lemma NoPowerPelletsWithoutPrefab(ground: Tilemap, s: Settings)
    requires !s.hasPowerPelletPrefab || |s.powerPelletPositions| == 0
    ensures PowerCount(Layout(ground, s)) == 0
  {
    LayoutIsExactlyTheEligibleCells(ground, s);
    NoPowerCounted(Layout(ground, s));
  }

  lemma {:induction false} NoPowerCounted(items: seq<Item>)
    requires forall i :: 0 <= i < |items| ==> items[i].Pellet?
    ensures PowerCount(items) == 0
  {
    if |items| > 0 {
      NoPowerCounted(items[..|items| - 1]);
    }
  }

  class PelletSpawner {
    const groundTilemap: Option<Tilemap>
    const wallTilemap: Option<Tilemap>
    const hasPelletPrefab: bool
    const hasPowerPelletPrefab: bool
    const powerPelletPositions: seq<Cell>
    const exclusionCenters: seq<Cell>
    const exclusionRadius: int
    const clearExistingPellets: bool

    /** The spawner's children in sibling order. */
    var children: seq<Item>

    function Rules(): Settings
    {
      Settings(wallTilemap, powerPelletPositions, exclusionCenters, exclusionRadius, hasPowerPelletPrefab)
    }

    constructor (groundTilemap: Option<Tilemap>, wallTilemap: Option<Tilemap>,
                 hasPelletPrefab: bool, hasPowerPelletPrefab: bool,
                 powerPelletPositions: seq<Cell>, exclusionCenters: seq<Cell>, exclusionRadius: int,
                 clearExistingPellets: bool, children: seq<Item>)
      ensures this.groundTilemap == groundTilemap && this.wallTilemap == wallTilemap
      ensures this.hasPelletPrefab == hasPelletPrefab && this.hasPowerPelletPrefab == hasPowerPelletPrefab
      ensures this.powerPelletPositions == powerPelletPositions && this.exclusionCenters == exclusionCenters
      ensures this.exclusionRadius == exclusionRadius && this.clearExistingPellets == clearExistingPellets
      ensures this.children == children
    {
      this.groundTilemap := groundTilemap;
      this.wallTilemap := wallTilemap;
      this.hasPelletPrefab := hasPelletPrefab;
      this.hasPowerPelletPrefab := hasPowerPelletPrefab;
      this.powerPelletPositions := powerPelletPositions;
      this.exclusionCenters := exclusionCenters;
      this.exclusionRadius := exclusionRadius;
      this.clearExistingPellets := clearExistingPellets;
      this.children := children;
    }

    /** IsPowerPelletPosition: a linear search of the power positions. */
    method IsPowerPelletPosition(position: Cell) returns (r: bool)
      ensures r <==> position in powerPelletPositions
    {
      for i := 0 to |powerPelletPositions|
        invariant position !in powerPelletPositions[..i]
      {
        if powerPelletPositions[i] == position {
          return true;
        }
      }
      assert powerPelletPositions[..|powerPelletPositions|] == powerPelletPositions;
      return false;
    }

    /** IsInExclusionZone: a linear search for a centre within the radius. */
    method IsInExclusionZone(position: Cell) returns (r: bool)
      ensures r <==> Excluded(Rules(), position)
      ensures |exclusionCenters| == 0 ==> !r
    {
      for i := 0 to |exclusionCenters|
        invariant forall j :: 0 <= j < i ==> !WithinRadius(position, exclusionCenters[j], exclusionRadius)
      {
        var center := exclusionCenters[i];
        var dx, dy := position.x - center.x, position.y - center.y;
        if exclusionRadius >= 0 && dx * dx + dy * dy <= exclusionRadius * exclusionRadius {
          return true;
        }
      }
      return false;
    }

    /** ClearAllPellets: destroy the children from the last to the first. */
    method ClearAllPellets()
      modifies this
      ensures children == []
    {
      var count := |children|;
      var i := count - 1;
      while i >= 0
        invariant -1 <= i < count
        invariant children == old(children)[..i + 1]
        decreases i
      {
        children := children[..i] + children[i + 1..];
        i := i - 1;
      }
    }

    /** SpawnAllPellets: with a ground map and a pellet prefab, optionally clear
        the old children, then create the layout's items; otherwise do nothing. */
    method SpawnAllPellets() returns (outcome: SpawnOutcome)
      modifies this
      ensures groundTilemap.None? || !hasPelletPrefab ==> outcome == Aborted && children == old(children)
      ensures groundTilemap.Some? && hasPelletPrefab ==>
                var layout := Layout(groundTilemap.value, Rules());
                && children == (if clearExistingPellets then [] else old(children)) + layout
                && outcome == Spawned(|layout| - PowerCount(layout), PowerCount(layout))
    {
      if groundTilemap.None? {
        return Aborted;
      }
      if !hasPelletPrefab {
        return Aborted;
      }
      if clearExistingPellets {
        ClearAllPellets();
      }
      var pelletCount, powerPelletCount := SpawnLayout(groundTilemap.value);
      return Spawned(pelletCount, powerPelletCount);
    }

    /** The two nested loops of SpawnAllPellets: every cell of the ground map's
        bounds, column by column, gets what the layout says. */
    method SpawnLayout(ground: Tilemap) returns (pelletCount: nat, powerPelletCount: nat)
      modifies this
      ensures children == old(children) + Layout(ground, Rules())
      ensures powerPelletCount == PowerCount(Layout(ground, Rules()))
      ensures pelletCount + powerPelletCount == |Layout(ground, Rules())|
    {
      ghost var rules := Rules();
      ghost var base := children;
      pelletCount, powerPelletCount := 0, 0;
      var bounds := ground.cellBounds;
      var x := bounds.xMin;
      while x < bounds.xMax
        invariant bounds.xMin <= x && (x <= bounds.xMax || x == bounds.xMin)
        invariant children == base + GridItems(ground, rules, bounds, x)
        invariant powerPelletCount == PowerCount(GridItems(ground, rules, bounds, x))
        invariant pelletCount + powerPelletCount == |GridItems(ground, rules, bounds, x)|
        decreases bounds.xMax - x
      {
        GridStep(ground, rules, bounds, x, base);
        pelletCount, powerPelletCount := SpawnColumn(ground, x, pelletCount, powerPelletCount);
        x := x + 1;
      }
    }

    /** The inner loop of SpawnAllPellets: the cells of column x, row by row,
        each skipped or given its item, with the running counts. */
    method SpawnColumn(ground: Tilemap, x: int, pellets: nat, powerPellets: nat)
      returns (pelletCount: nat, powerPelletCount: nat)
      modifies this
      ensures children == old(children) + ColumnItems(ground, Rules(), x, ground.cellBounds.yMin, ground.cellBounds.yMax)
      ensures powerPelletCount == powerPellets + PowerCount(ColumnItems(ground, Rules(), x, ground.cellBounds.yMin, ground.cellBounds.yMax))
      ensures pelletCount + powerPelletCount
           == pellets + powerPellets + |ColumnItems(ground, Rules(), x, ground.cellBounds.yMin, ground.cellBounds.yMax)|
    {
      ghost var rules := Rules();
      ghost var base := children;
      pelletCount, powerPelletCount := pellets, powerPellets;
      var bounds := ground.cellBounds;
      var y := bounds.yMin;
      while y < bounds.yMax
        invariant bounds.yMin <= y && (y <= bounds.yMax || y == bounds.yMin)
        invariant children == base + ColumnItems(ground, rules, x, bounds.yMin, y)
        invariant powerPelletCount == powerPellets + PowerCount(ColumnItems(ground, rules, x, bounds.yMin, y))
        invariant pelletCount + powerPelletCount == pellets + powerPellets + |ColumnItems(ground, rules, x, bounds.yMin, y)|
        decreases bounds.yMax - y
      {
        ColumnStep(ground, rules, x, bounds.yMin, y, base);
        pelletCount, powerPelletCount := SpawnCell(ground, Cell(x, y), pelletCount, powerPelletCount);
        y := y + 1;
      }
    }

    /** The body of the inner loop: a cell without ground, under a wall or in
        an exclusion zone is skipped; any other cell gets its item. */
    method SpawnCell(ground: Tilemap, cellPosition: Cell, pellets: nat, powerPellets: nat)
      returns (pelletCount: nat, powerPelletCount: nat)
      modifies this
      ensures children == old(children) + ItemsAt(ground, Rules(), cellPosition)
      ensures powerPelletCount == powerPellets +
                (if Eligible(ground, Rules(), cellPosition) && Classify(Rules(), cellPosition).PowerPellet? then 1 else 0)
      ensures pelletCount + powerPelletCount == pellets + powerPellets + |ItemsAt(ground, Rules(), cellPosition)|
    {
      pelletCount, powerPelletCount := pellets, powerPellets;
      if !ground.HasTile(cellPosition) {
        assert children + [] == children;
        return;
      }
      if wallTilemap.Some? && wallTilemap.value.HasTile(cellPosition) {
        assert children + [] == children;
        return;
      }
      var excluded := IsInExclusionZone(cellPosition);
      if excluded {
        assert children + [] == children;
        return;
      }
      var isPowerPelletPosition := IsPowerPelletPosition(cellPosition);
      if isPowerPelletPosition && hasPowerPelletPrefab {
        children := children + [PowerPellet(cellPosition)];
        powerPelletCount := powerPelletCount + 1;
      } else {
        children := children + [Pellet(cellPosition)];
        pelletCount := pelletCount + 1;
      }
    }

    /** CountGroundTiles: with a ground map, the number of ground cells in its bounds. */
    method CountGroundTiles() returns (count: Option<nat>)
      ensures groundTilemap.None? ==> count == None
      ensures groundTilemap.Some? ==> count == Some(GroundCount(groundTilemap.value))
    {
      if groundTilemap.None? {
        return None;
      }
      var ground := groundTilemap.value;
      var n := 0;
      var bounds := ground.cellBounds;
      var x := bounds.xMin;
      while x < bounds.xMax
        invariant bounds.xMin <= x && (x <= bounds.xMax || x == bounds.xMin)
        invariant n == GroundInGrid(ground, bounds, x)
        decreases bounds.xMax - x
      {
        var y := bounds.yMin;
        ghost var before := n;
        while y < bounds.yMax
          invariant bounds.yMin <= y && (y <= bounds.yMax || y == bounds.yMin)
          invariant n == before + GroundInColumn(ground, x, bounds.yMin, y)
          decreases bounds.yMax - y
        {
          if ground.HasTile(Cell(x, y)) {
            n := n + 1;
          }
          y := y + 1;
        }
        x := x + 1;
      }
      return Some(n);
    }
  }
}
