/**
 * The level grid: cell coordinates, the cached wall grid and its rebuild from
 * level events, blocks with their in-flight marker, and the level selection.
 */
module TileMap {
  import opened Wrappers

  /** A cell of the level grid (the `GridCoords` component), with unbounded coordinates. */
  datatype GridCoords = GridCoords(x: int, y: int)

  function Plus(a: GridCoords, b: GridCoords): GridCoords
  {
    GridCoords(a.x + b.x, a.y + b.y)
  }

  function Minus(a: GridCoords, b: GridCoords): GridCoords
  {
    GridCoords(a.x - b.x, a.y - b.y)
  }

  /** Side of one grid cell, in pixels. */
  const GridSize: int := 16

  /** The `LevelWalls` resource: wall cells plus the level's size in cells. */
  datatype LevelWalls = LevelWalls(wallLocations: set<GridCoords>, levelWidth: int, levelHeight: int)

  /** The resource as the app initialises it, before any level has spawned. */
  const DefaultLevelWalls: LevelWalls := LevelWalls({}, 0, 0)

  /** A cell is blocked when it lies outside the level rectangle or holds a wall. */
  predicate InWall(w: LevelWalls, c: GridCoords)
  {
    c.x < 0 || c.y < 0 || c.x >= w.levelWidth || c.y >= w.levelHeight || c in w.wallLocations
  }

  /** The walkable cells, described independently of `InWall`: inside the rectangle, no wall. */
  function FreeCells(w: LevelWalls): set<GridCoords>
  {
    set x: int, y: int | 0 <= x < w.levelWidth && 0 <= y < w.levelHeight && GridCoords(x, y) !in w.wallLocations
      :: GridCoords(x, y)
  }

  lemma InWallIffNotFree(w: LevelWalls, c: GridCoords)
    ensures InWall(w, c) <==> c !in FreeCells(w)
  {
    if !InWall(w, c) {
      assert c == GridCoords(c.x, c.y);
    }
  }

  /** With no level spawned yet, every cell is blocked. */
  lemma DefaultLevelWallsBlockEverything(c: GridCoords)
    ensures InWall(DefaultLevelWalls, c)
    ensures FreeCells(DefaultLevelWalls) == {}
  {
    InWallIffNotFree(DefaultLevelWalls, c);
  }

  /** Adding walls never frees a blocked cell. */
  lemma InWallMonotone(w: LevelWalls, more: set<GridCoords>, c: GridCoords)
    ensures InWall(w, c) ==> InWall(w.(wallLocations := w.wallLocations + more), c)
    ensures FreeCells(w.(wallLocations := w.wallLocations + more)) <= FreeCells(w)
  {
  }

  /**
   * The level size in cells from its size in pixels: `i32` division by
   * `GridSize`, which truncates toward zero (Dafny's `/` is Euclidean).
   */
  function CellsFromPixels(px: int): (cells: int)
    ensures 0 <= px ==> 0 <= cells && cells * GridSize <= px < cells * GridSize + GridSize
    ensures px < 0 ==> cells <= 0 && cells * GridSize - GridSize < px <= cells * GridSize
  {
    if px >= 0 then px / GridSize else -((-px) / GridSize)
  }

  /** The level events the wall cache listens to; only `Spawned` matters. */
  datatype LevelEvent =
    | SpawnTriggered(iid: string)
    | Spawned(iid: string)
    | Transformed(iid: string)
    | Despawned(iid: string)

  /** Size in pixels of a level as the loaded project stores it. */
  datatype LevelSize = LevelSize(pxWid: int, pxHei: int)

  /** The resource built for a spawned level from its size and the wall cells present. */
  function WallsOfLevel(size: LevelSize, wallCoords: seq<GridCoords>): LevelWalls
  {
    LevelWalls((set c | c in wallCoords), CellsFromPixels(size.pxWid), CellsFromPixels(size.pxHei))
  }

  /**
   * The wall resource after handling `events` in order, starting from `walls`;
   * `None` when a `Spawned` event names a level the project does not hold,
   * where the system panics.
   */
  function CachedWalls(walls: LevelWalls, events: seq<LevelEvent>, levels: map<string, LevelSize>,
                       wallCoords: seq<GridCoords>): Option<LevelWalls>
    decreases |events|
  {
    if events == [] then Some(walls)
    else
      match CachedWalls(walls, events[..|events| - 1], levels, wallCoords)
      case None => None
      case Some(w) =>
        var e := events[|events| - 1];
        if !e.Spawned? then Some(w)
        else if e.iid in levels then Some(WallsOfLevel(levels[e.iid], wallCoords))
        else None
  }

  predicate AllSpawnedKnown(events: seq<LevelEvent>, levels: map<string, LevelSize>)
  {
    forall k :: 0 <= k < |events| && events[k].Spawned? ==> events[k].iid in levels
  }

  /**
   * The cache fails exactly when some spawned level is unknown; otherwise it is
   * the old resource when nothing spawned, and the last spawned level's walls
   * when something did.
   */
  lemma {:induction false} CachedWallsFromLastSpawn(walls: LevelWalls, events: seq<LevelEvent>,
                                                    levels: map<string, LevelSize>, wallCoords: seq<GridCoords>)
    ensures CachedWalls(walls, events, levels, wallCoords).Some? <==> AllSpawnedKnown(events, levels)
    ensures AllSpawnedKnown(events, levels) && (forall k :: 0 <= k < |events| ==> !events[k].Spawned?)
            ==> CachedWalls(walls, events, levels, wallCoords) == Some(walls)
    ensures forall k :: 0 <= k < |events| && events[k].Spawned? && AllSpawnedKnown(events, levels)
                        && (forall j :: k < j < |events| ==> !events[j].Spawned?)
                        ==> CachedWalls(walls, events, levels, wallCoords) == Some(WallsOfLevel(levels[events[k].iid], wallCoords))
    decreases |events|
  {
    if events != [] {
      var front := events[..|events| - 1];
      CachedWallsFromLastSpawn(walls, front, levels, wallCoords);
      assert forall k :: 0 <= k < |front| ==> front[k] == events[k];
      if AllSpawnedKnown(events, levels) {
        assert AllSpawnedKnown(front, levels);
      }
    }
  }

  /** Once a prefix of the events has failed, so have all the events: the panic is final. */
  lemma {:induction false} CachedWallsStaysFailed(walls: LevelWalls, events: seq<LevelEvent>, levels: map<string, LevelSize>,
                                                  wallCoords: seq<GridCoords>, n: int)
    requires 0 <= n <= |events|
    requires CachedWalls(walls, events[..n], levels, wallCoords).None?
    ensures CachedWalls(walls, events, levels, wallCoords).None?
    decreases |events| - n
  {
    if n < |events| {
      assert events[..n + 1][..n] == events[..n];
      CachedWallsStaysFailed(walls, events, levels, wallCoords, n + 1);
    } else {
      assert events[..n] == events;
    }
  }

  /** A block with its grid cell and whether it carries the `IsMoving` marker. */
  datatype BlockBody = BlockBody(pos: GridCoords, moving: bool)

  /** The `LevelSelection` resource; only `Indices` is used by this game. */
  datatype LevelSelection =
    | Identifier(identifier: string)
    | Indices(world: Option<nat>, level: nat)
    | Iid(iid: string)
    | Uid(uid: int)

  /** The selection the app starts with: level 0 of the root world. */
  const InitialLevelSelection: LevelSelection := Indices(None, 0)
}
