/**
 * The ECS world the systems run on: the player and block entities in query
 * order, the goal cells, and the `LevelWalls` and `LevelSelection` resources.
 * Each system is a method that updates the world in place, proved to produce
 * the state its specification function in `Player` or `TileMap` describes.
 */
module Game {
  import opened Wrappers
  import opened TileMap
  import opened Player

  /** Every entity without the in-flight marker; cells and everything else unchanged. */
  function Settled(s: Scene): Scene
  {
    Scene(seq(|s.players|, k requires 0 <= k < |s.players| => s.players[k].(moving := false)),
          seq(|s.blocks|, k requires 0 <= k < |s.blocks| => s.blocks[k].(moving := false)))
  }

  /** Clearing the marker leaves no entity in flight, moves nothing, and is idempotent. */
  lemma SettledClearsEveryMarker(s: Scene)
    ensures var r := Settled(s);
            && |r.players| == |s.players| && |r.blocks| == |s.blocks|
            && (forall k :: 0 <= k < |s.players| ==> !r.players[k].moving && r.players[k].pos == s.players[k].pos)
            && (forall k :: 0 <= k < |s.blocks| ==> !r.blocks[k].moving && r.blocks[k].pos == s.blocks[k].pos)
            && Settled(r) == r
  {
  }

  /** The goal check consumes the change marks it has seen. */
  function ConsumeChangeMarks(players: seq<PlayerBody>): seq<PlayerBody>
  {
    seq(|players|, k requires 0 <= k < |players| => players[k].(changed := false))
  }

  class World {
    var players: seq<PlayerBody>
    var blocks: seq<BlockBody>
    var goals: seq<GridCoords>
    var walls: LevelWalls
    var selection: LevelSelection

    function Bodies(): Scene
      reads this
    {
      Scene(players, blocks)
    }

    /** The world as the app starts it: default walls and level index 0. */
    constructor (players0: seq<PlayerBody>, blocks0: seq<BlockBody>, goals0: seq<GridCoords>)
      ensures players == players0 && blocks == blocks0 && goals == goals0
      ensures walls == DefaultLevelWalls
      ensures selection == InitialLevelSelection && selection.level == 0
    {
      players, blocks, goals := players0, blocks0, goals0;
      walls := DefaultLevelWalls;
      selection := InitialLevelSelection;
    }

    /** The move system: push, pull and step for every player without `IsMoving`. */
    method MovePlayerFromInput(keys: set<Key>)
      modifies this
      ensures Bodies() == MoveTick(keys, walls, old(Bodies()))
      ensures goals == old(goals) && walls == old(walls) && selection == old(selection)
    {
      var movement := MovementDirection(keys);
      if movement.None? {
        return;
      }
      var d := movement.value;

      var snapshot := CollectSnapshot(blocks);
      var entry := blocks;
      ghost var t := Tick(d, Space in keys, walls, snapshot, entry);
      ghost var start := Bodies();
      for i := 0 to |players|
        invariant |players| == |start.players| && |blocks| == |entry|
        invariant Bodies() == Turns(t, start, i)
        invariant goals == old(goals) && walls == old(walls) && selection == old(selection)
      {
        if !players[i].moving {
          var p := players[i].pos;
          var destination := Plus(p, d);
          var pushDestination := Plus(Plus(p, d), d);
          var hitBlock, hitSecondBlock;
          blocks, hitBlock, hitSecondBlock := PushAndPull(Tick(d, Space in keys, walls, snapshot, entry), blocks, p);
          // move
          if (!hitBlock || (hitBlock && !hitSecondBlock && !InWall(walls, pushDestination)))
             && !InWall(walls, destination)
          {
            players := players[i := players[i].(pos := destination, moving := true, changed := true)];
          }
        }
      }
    }

    /** The turn system: every player without `IsMoving` faces the pressed key. */
    method TurnPlayerFromInput(keys: set<Key>)
      modifies this
      ensures players == TurnPlayers(keys, old(players))
      ensures blocks == old(blocks) && goals == old(goals) && walls == old(walls) && selection == old(selection)
    {
      for i := 0 to |players|
        invariant |players| == |old(players)|
        invariant forall k :: 0 <= k < i ==> players[k] == TurnPlayers(keys, old(players))[k]
        invariant forall k :: i <= k < |players| ==> players[k] == old(players)[k]
        invariant blocks == old(blocks) && goals == old(goals) && walls == old(walls) && selection == old(selection)
      {
        if !players[i].moving {
          if W in keys {
            players := players[i := players[i].(facing := North)];
          } else if A in keys {
            players := players[i := players[i].(facing := West)];
          } else if S in keys {
            players := players[i := players[i].(facing := South)];
          } else if D in keys {
            players := players[i := players[i].(facing := East)];
          }
        }
      }
    }

    /**
     * The goal check: `ok` is false where the system panics (a goal reached
     * while the selection is not `Indices`).
     */
    method CheckGoal() returns (ok: bool)
      modifies this
      ensures ok == GoalCheck(old(selection), old(players), goals).Some?
      ensures ok ==> selection == GoalCheck(old(selection), old(players), goals).value
                     && players == ConsumeChangeMarks(old(players))
      ensures !ok ==> selection == old(selection) && players == old(players)
      ensures blocks == old(blocks) && goals == old(goals) && walls == old(walls)
    {
      if ZipAny(ChangedPositions(players), goals) {
        match selection
        case Indices(world, level) =>
          selection := Indices(world, level + 1);
        case _ =>
          return false;
      }
      players := ConsumeChangeMarks(players);
      ok := true;
    }

    /**
     * The wall cache: each `Spawned` event replaces the resource with the
     * spawned level's size in cells and the cells of the wall entities.
     * `ok` is false where the system panics on a level missing from the
     * project; the resource is then left as the events before it made it.
     */
    method CacheWallLocations(events: seq<LevelEvent>, levels: map<string, LevelSize>, wallCoords: seq<GridCoords>)
      returns (ok: bool)
      modifies this
      ensures ok == CachedWalls(old(walls), events, levels, wallCoords).Some?
      ensures ok ==> walls == CachedWalls(old(walls), events, levels, wallCoords).value
      ensures players == old(players) && blocks == old(blocks) && goals == old(goals) && selection == old(selection)
    {
      for i := 0 to |events|
        invariant CachedWalls(old(walls), events[..i], levels, wallCoords) == Some(walls)
        invariant players == old(players) && blocks == old(blocks) && goals == old(goals) && selection == old(selection)
      {
        assert events[..i + 1][..i] == events[..i];
        var event := events[i];
        if event.Spawned? {
          if event.iid !in levels {
            CachedWallsStaysFailed(old(walls), events, levels, wallCoords, i + 1);
            return false;
          }
          var level := levels[event.iid];
          var wallLocations := set c | c in wallCoords;
          walls := LevelWalls(wallLocations, CellsFromPixels(level.pxWid), CellsFromPixels(level.pxHei));
        }
      }
      assert events[..|events|] == events;
      ok := true;
    }

    /** The completion listener: each completed event clears `IsMoving` from every entity carrying it. */
    method MoveCompleteListener(completed: nat)
      modifies this
      ensures completed > 0 ==> Bodies() == Settled(old(Bodies()))
      ensures completed == 0 ==> Bodies() == old(Bodies())
      ensures goals == old(goals) && walls == old(walls) && selection == old(selection)
    {
      for e := 0 to completed
        invariant e > 0 ==> Bodies() == Settled(old(Bodies()))
        invariant e == 0 ==> Bodies() == old(Bodies())
        invariant goals == old(goals) && walls == old(walls) && selection == old(selection)
      {
        ghost var before := Bodies();
        for k := 0 to |players|
          invariant |players| == |before.players| && blocks == before.blocks
          invariant forall j :: 0 <= j < k ==> players[j] == before.players[j].(moving := false)
          invariant forall j :: k <= j < |players| ==> players[j] == before.players[j]
          invariant goals == old(goals) && walls == old(walls) && selection == old(selection)
        {
          if players[k].moving {
            players := players[k := players[k].(moving := false)];
          }
        }
        for k := 0 to |blocks|
          invariant |blocks| == |before.blocks| && players == Settled(before).players
          invariant forall j :: 0 <= j < k ==> blocks[j] == before.blocks[j].(moving := false)
          invariant forall j :: k <= j < |blocks| ==> blocks[j] == before.blocks[j]
          invariant goals == old(goals) && walls == old(walls) && selection == old(selection)
        {
          if blocks[k].moving {
            blocks := blocks[k := blocks[k].(moving := false)];
          }
        }
        assert Bodies() == Settled(before);
        SettledClearsEveryMarker(old(Bodies()));
      }
    }
  }
}
