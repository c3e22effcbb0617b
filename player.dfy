/**
 * The player systems: key priority, facing, the push/pull/move resolution of
 * one call of the move system, and the goal check.
 *
 * The move system is specified here as pure functions over a `Scene` (the
 * players and blocks in query order); `Game.World.MovePlayerFromInput` runs
 * the system's loops and is proved to produce `MoveTick`.
 */
module Player {
  import opened Wrappers
  import opened TileMap

  datatype Direction = North | East | South | West

  /** The facing a player spawns with. */
  const DefaultDirection: Direction := East

  /** The keys the systems read. */
  datatype Key = W | A | S | D | Space

  /**
   * A player entity: its cell, its facing, whether it carries `IsMoving`, and
   * whether its cell was written since the goal check last ran (the
   * `Changed<GridCoords>` filter).
   */
  datatype PlayerBody = PlayerBody(pos: GridCoords, facing: Direction, moving: bool, changed: bool)

  /**
   * A player as the level spawns it on `pos`: the default facing, no marker,
   * and a cell that counts as changed (an added component is a change).
   */
  function SpawnedPlayer(pos: GridCoords): PlayerBody
  {
    PlayerBody(pos, DefaultDirection, false, true)
  }

  /** One cell north, west, south or east. */
  predicate IsUnitStep(d: GridCoords)
  {
    || (d.x == 0 && (d.y == 1 || d.y == -1))
    || (d.y == 0 && (d.x == 1 || d.x == -1))
  }

  /** The offset a move takes: the first pressed key of W, A, S, D wins. */
  function MovementDirection(keys: set<Key>): (d: Option<GridCoords>)
    ensures d.None? <==> keys !! {W, A, S, D}
    ensures d.Some? ==> IsUnitStep(d.value)
  {
    if W in keys then Some(GridCoords(0, 1))
    else if A in keys then Some(GridCoords(-1, 0))
    else if S in keys then Some(GridCoords(0, -1))
    else if D in keys then Some(GridCoords(1, 0))
    else None
  }

  /**
   * The key priority: W overrides every other key, A overrides S and D, and
   * S overrides D; Space never changes the offset; the four keys alone give
   * the offsets of North, West, South and East.
   */
  lemma MovementKeyPriority(keys: set<Key>)
    ensures W in keys ==> MovementDirection(keys) == MovementDirection({W})
    ensures W !in keys && A in keys ==> MovementDirection(keys) == MovementDirection({A})
    ensures W !in keys && A !in keys && S in keys ==> MovementDirection(keys) == MovementDirection({S})
    ensures keys !! {W, A, S} && D in keys ==> MovementDirection(keys) == MovementDirection({D})
    ensures MovementDirection(keys + {Space}) == MovementDirection(keys - {Space})
    ensures MovementDirection({W}) == Some(Offset(North)) && MovementDirection({A}) == Some(Offset(West))
    ensures MovementDirection({S}) == Some(Offset(South)) && MovementDirection({D}) == Some(Offset(East))
  {
  }

  /** The facing after the turn system sees `keys`, with the same key priority. */
  function TurnedFacing(keys: set<Key>, facing: Direction): Direction
  {
    if W in keys then North
    else if A in keys then West
    else if S in keys then South
    else if D in keys then East
    else facing
  }

  /** The unit offset a facing points along. */
  function Offset(f: Direction): GridCoords
  {
    match f
    case North => GridCoords(0, 1)
    case East => GridCoords(1, 0)
    case South => GridCoords(0, -1)
    case West => GridCoords(-1, 0)
  }

  /** Turning and moving agree: the new facing points where the move goes; no key, no turn. */
  lemma FacingFollowsMovement(keys: set<Key>, facing: Direction)
    ensures MovementDirection(keys).None? ==> TurnedFacing(keys, facing) == facing
    ensures MovementDirection(keys).Some? ==> Offset(TurnedFacing(keys, facing)) == MovementDirection(keys).value
  {
  }

  /** Every player without `IsMoving` turns; the others keep their facing. */
  function TurnPlayers(keys: set<Key>, players: seq<PlayerBody>): seq<PlayerBody>
  {
    seq(|players|, k requires 0 <= k < |players| =>
      if players[k].moving then players[k] else players[k].(facing := TurnedFacing(keys, players[k].facing)))
  }

  /** Turning changes nothing but facings, skips moving players, and follows the key priority. */
  lemma TurnPlayersOnlyTurns(keys: set<Key>, players: seq<PlayerBody>)
    ensures |TurnPlayers(keys, players)| == |players|
    ensures forall k :: 0 <= k < |players| ==>
      var r := TurnPlayers(keys, players)[k];
      && r.pos == players[k].pos && r.moving == players[k].moving && r.changed == players[k].changed
      && (players[k].moving || MovementDirection(keys).None? ==> r.facing == players[k].facing)
      && (!players[k].moving && MovementDirection(keys).Some? ==> Offset(r.facing) == MovementDirection(keys).value)
  {
  }

  // ---------------------------------------------------------------------------
  // Move resolution

  /** Players and blocks, each in the order the queries visit them. */
  datatype Scene = Scene(players: seq<PlayerBody>, blocks: seq<BlockBody>)

  /**
   * What stays fixed during one call of the move system: the offset, whether
   * Space is held, the walls, the snapshot of non-moving block cells, and the
   * blocks as they were on entry (whose markers decide which blocks the block
   * query visits; markers added during the call are deferred commands).
   */
  datatype Tick = Tick(d: GridCoords, pull: bool, walls: LevelWalls, snapshot: seq<GridCoords>, entry: seq<BlockBody>)

  /** Cells of the blocks without `IsMoving`, in query order. */
  function Snapshot(blocks: seq<BlockBody>): (s: seq<GridCoords>)
    ensures |s| <= |blocks|
    ensures forall c :: c in s <==> exists k :: 0 <= k < |blocks| && !blocks[k].moving && blocks[k].pos == c
    decreases |blocks|
  {
    if blocks == [] then []
    else
      var last := blocks[|blocks| - 1];
      Snapshot(blocks[..|blocks| - 1]) + (if last.moving then [] else [last.pos])
  }

  /** Some block the query visits, among the first `n`, sits on `target` at the start of the turn. */
  predicate HitBefore(t: Tick, blocks: seq<BlockBody>, n: int, target: GridCoords)
    requires |t.entry| == |blocks| && 0 <= n <= |blocks|
  {
    exists k :: 0 <= k < n && !t.entry[k].moving && blocks[k].pos == target
  }

  /** A push from `p` may go ahead: two cells on is neither a snapshot block nor blocked. */
  predicate PushClear(t: Tick, p: GridCoords)
  {
    var beyond := Plus(Plus(p, t.d), t.d);
    beyond !in t.snapshot && !InWall(t.walls, beyond)
  }

  /**
   * Block `k` after the turn of a player standing on `p`: pushed on when it is
   * the block ahead and the push is clear; pulled onto `p` when it is the block
   * behind, Space is held, the cell ahead is free, and no block ahead was
   * visited before it.
   */
  function BlockAfterTurn(t: Tick, blocks: seq<BlockBody>, p: GridCoords, k: int): BlockBody
    requires |t.entry| == |blocks| && 0 <= k < |blocks|
  {
    var b := blocks[k];
    if t.entry[k].moving then b
    else if b.pos == Plus(p, t.d) then
      if PushClear(t, p) then BlockBody(Plus(Plus(p, t.d), t.d), true) else b
    else if b.pos == Minus(p, t.d) && t.pull && !InWall(t.walls, Plus(p, t.d)) && !HitBefore(t, blocks, k, Plus(p, t.d)) then
      BlockBody(p, true)
    else b
  }

  function BlocksAfterTurn(t: Tick, blocks: seq<BlockBody>, p: GridCoords): (r: seq<BlockBody>)
    requires |t.entry| == |blocks|
  {
    seq(|blocks|, k requires 0 <= k < |blocks| => BlockAfterTurn(t, blocks, p, k))
  }

  /** The player on `p` steps ahead: the cell ahead is free, and no block sits there or the push is clear. */
  predicate PlayerAdvances(t: Tick, blocks: seq<BlockBody>, p: GridCoords)
    requires |t.entry| == |blocks|
  {
    (!HitBefore(t, blocks, |blocks|, Plus(p, t.d)) || PushClear(t, p)) && !InWall(t.walls, Plus(p, t.d))
  }

  /** The turn of player `i`; a player carrying `IsMoving` is skipped by the query. */
  function PlayerTurn(t: Tick, s: Scene, i: int): (r: Scene)
    requires 0 <= i < |s.players| && |t.entry| == |s.blocks|
    ensures |r.players| == |s.players| && |r.blocks| == |s.blocks|
  {
    var pl := s.players[i];
    if pl.moving then s
    else
      Scene(if PlayerAdvances(t, s.blocks, pl.pos)
            then s.players[i := pl.(pos := Plus(pl.pos, t.d), moving := true, changed := true)]
            else s.players,
            BlocksAfterTurn(t, s.blocks, pl.pos))
  }

  /** The turns of the first `n` players, in query order. */
  function Turns(t: Tick, s: Scene, n: int): (r: Scene)
    requires 0 <= n <= |s.players| && |t.entry| == |s.blocks|
    ensures |r.players| == |s.players| && |r.blocks| == |s.blocks|
    decreases n
  {
    if n == 0 then s else PlayerTurn(t, Turns(t, s, n - 1), n - 1)
  }

  /** The move system on `s` with `keys` held: nothing happens without W, A, S or D. */
  function MoveTick(keys: set<Key>, walls: LevelWalls, s: Scene): Scene
  {
    match MovementDirection(keys)
    case None => s
    case Some(d) => Turns(Tick(d, Space in keys, walls, Snapshot(s.blocks), s.blocks), s, |s.players|)
  }

  // ---------------------------------------------------------------------------
  // The loops of the move system

  /** Collects the cells of the blocks the query visits (those without `IsMoving`). */
  method CollectSnapshot(blocks: seq<BlockBody>) returns (snapshot: seq<GridCoords>)
    ensures snapshot == Snapshot(blocks)
  {
    snapshot := [];
    for j := 0 to |blocks|
      invariant snapshot == Snapshot(blocks[..j])
    {
      assert blocks[..j + 1][..j] == blocks[..j];
      if !blocks[j].moving {
        snapshot := snapshot + [blocks[j].pos];
      }
    }
    assert blocks[..|blocks|] == blocks;
  }

  /**
   * The block loop of one player's turn, for a player on `p` moving by `d`:
   * visits the blocks that carried no `IsMoving` on entry, in order, pushing
   * the block ahead and pulling the block behind, and reports whether a block
   * ahead was met and whether the push was blocked by a snapshot block.
   */
  method PushAndPull(t: Tick, blocks: seq<BlockBody>, p: GridCoords)
    returns (after: seq<BlockBody>, hitBlock: bool, hitSecondBlock: bool)
    requires |t.entry| == |blocks| && IsUnitStep(t.d)
    ensures after == BlocksAfterTurn(t, blocks, p)
    ensures hitBlock == HitBefore(t, blocks, |blocks|, Plus(p, t.d))
    ensures hitSecondBlock == (hitBlock && Plus(Plus(p, t.d), t.d) in t.snapshot)
  {
    var d := t.d;
    var destination := Plus(p, d);
    var pushDestination := Plus(Plus(p, d), d);
    var pullOrigin := Minus(p, d);
    var pullDestination := p;
    assert destination != pullOrigin && pushDestination != pullOrigin;
    hitBlock, hitSecondBlock := false, false;
    after := blocks;
    for j := 0 to |after|
      invariant |after| == |blocks|
      invariant forall k :: 0 <= k < j ==> after[k] == BlockAfterTurn(t, blocks, p, k)
      invariant forall k :: j <= k < |after| ==> after[k] == blocks[k]
      invariant hitBlock == HitBefore(t, blocks, j, destination)
      invariant hitSecondBlock == (hitBlock && pushDestination in t.snapshot)
    {
      if !t.entry[j].moving {
        var cords := after[j].pos;
        // push
        if cords == destination {
          hitBlock := true;
          ghost var seenBefore := hitSecondBlock;
          for k := 0 to |t.snapshot|
            invariant hitSecondBlock == (seenBefore || pushDestination in t.snapshot[..k])
          {
            assert t.snapshot[..k + 1] == t.snapshot[..k] + [t.snapshot[k]];
            if pushDestination == t.snapshot[k] {
              hitSecondBlock := true;
            }
          }
          assert t.snapshot[..|t.snapshot|] == t.snapshot;
          if !hitSecondBlock && !InWall(t.walls, pushDestination) {
            after := after[j := BlockBody(pushDestination, true)];
            cords := pushDestination;
          }
        }
        // pull
        if cords == pullOrigin && !InWall(t.walls, destination) && t.pull {
          if !hitBlock && !InWall(t.walls, destination) {
            after := after[j := BlockBody(pullDestination, true)];
          }
        }
      }
      assert after[j] == BlockAfterTurn(t, blocks, p, j);
    }
  }

  // ---------------------------------------------------------------------------
  // Properties of one player's turn

  /**
   * Single push: the block ahead moves two cells on from the player exactly
   * when the push is clear, and the player then steps ahead exactly when that
   * cell is free.
   */
  lemma PushResolution(t: Tick, s: Scene, i: int, k: int)
    requires 0 <= i < |s.players| && |t.entry| == |s.blocks| && 0 <= k < |s.blocks|
    requires !s.players[i].moving && !t.entry[k].moving
    requires s.blocks[k].pos == Plus(s.players[i].pos, t.d)
    ensures var p := s.players[i].pos;
            var r := PlayerTurn(t, s, i);
            && r.blocks[k] == (if PushClear(t, p) then BlockBody(Plus(Plus(p, t.d), t.d), true) else s.blocks[k])
            && (r.players[i] != s.players[i] <==> PushClear(t, p) && !InWall(t.walls, Plus(p, t.d)))
  {
    assert HitBefore(t, s.blocks, |s.blocks|, Plus(s.players[i].pos, t.d));
  }

  /**
   * No chain push: when another non-moving block or a blocked cell lies beyond
   * the block ahead, neither the player nor any block ahead of it moves.
   */
  lemma NoChainPush(t: Tick, s: Scene, i: int, k: int)
    requires 0 <= i < |s.players| && |t.entry| == |s.blocks| && 0 <= k < |s.blocks|
    requires !s.players[i].moving && !t.entry[k].moving
    requires s.blocks[k].pos == Plus(s.players[i].pos, t.d)
    requires Plus(Plus(s.players[i].pos, t.d), t.d) in t.snapshot || InWall(t.walls, Plus(Plus(s.players[i].pos, t.d), t.d))
    ensures var r := PlayerTurn(t, s, i);
            && r.players == s.players
            && forall j :: 0 <= j < |s.blocks| && s.blocks[j].pos == Plus(s.players[i].pos, t.d) ==> r.blocks[j] == s.blocks[j]
  {
    assert HitBefore(t, s.blocks, |s.blocks|, Plus(s.players[i].pos, t.d));
  }

  /**
   * Pull: the non-moving block behind the player lands on the player's cell
   * exactly when Space is held, the cell ahead is free, and no block ahead was
   * visited before it.
   */
  lemma PullResolution(t: Tick, s: Scene, i: int, k: int)
    requires 0 <= i < |s.players| && |t.entry| == |s.blocks| && 0 <= k < |s.blocks|
    requires IsUnitStep(t.d)
    requires !s.players[i].moving && !t.entry[k].moving
    requires s.blocks[k].pos == Minus(s.players[i].pos, t.d)
    ensures var p := s.players[i].pos;
            PlayerTurn(t, s, i).blocks[k]
              == (if t.pull && !InWall(t.walls, Plus(p, t.d)) && !HitBefore(t, s.blocks, k, Plus(p, t.d))
                  then BlockBody(p, true) else s.blocks[k])
  {
  }

  /**
   * A turn moves only the blocks directly ahead of and behind the player, each
   * by exactly one cell along the move, tagging each; the player either stays
   * or steps one cell ahead onto a free cell and is tagged.
   */
  lemma TurnMovesOneCell(t: Tick, s: Scene, i: int)
    requires 0 <= i < |s.players| && |t.entry| == |s.blocks|
    requires IsUnitStep(t.d)
    ensures var p := s.players[i].pos;
            var r := PlayerTurn(t, s, i);
            && (forall j :: 0 <= j < |s.players| && j != i ==> r.players[j] == s.players[j])
            && (r.players[i] == s.players[i]
                || (!s.players[i].moving && !InWall(t.walls, Plus(p, t.d))
                    && r.players[i] == s.players[i].(pos := Plus(p, t.d), moving := true, changed := true)))
            && (forall j :: 0 <= j < |s.blocks| ==>
                  || r.blocks[j] == s.blocks[j]
                  || (!s.players[i].moving && !t.entry[j].moving
                      && (s.blocks[j].pos == Plus(p, t.d) || s.blocks[j].pos == Minus(p, t.d))
                      && r.blocks[j] == BlockBody(Plus(s.blocks[j].pos, t.d), true)))
  {
  }

  /**
   * Plain step: when no block the query visits stands on the cell ahead (a
   * block already in flight does not count), a player without `IsMoving`
   * steps ahead exactly when that cell is free.
   */
  lemma StepResolution(t: Tick, s: Scene, i: int)
    requires 0 <= i < |s.players| && |t.entry| == |s.blocks| && IsUnitStep(t.d)
    requires !s.players[i].moving
    requires forall k :: 0 <= k < |s.blocks| && s.blocks[k].pos == Plus(s.players[i].pos, t.d) ==> t.entry[k].moving
    ensures var p := s.players[i].pos;
            PlayerTurn(t, s, i).players[i]
              == (if InWall(t.walls, Plus(p, t.d)) then s.players[i]
                  else s.players[i].(pos := Plus(p, t.d), moving := true, changed := true))
  {
  }

  // ---------------------------------------------------------------------------
  // Properties of a whole call of the move system

  /** Every player and every block stands on a free cell. */
  predicate OutOfWalls(walls: LevelWalls, s: Scene)
  {
    && (forall k :: 0 <= k < |s.players| ==> !InWall(walls, s.players[k].pos))
    && (forall k :: 0 <= k < |s.blocks| ==> !InWall(walls, s.blocks[k].pos))
  }

  lemma TurnStaysOutOfWalls(t: Tick, s: Scene, i: int)
    requires 0 <= i < |s.players| && |t.entry| == |s.blocks|
    requires OutOfWalls(t.walls, s)
    ensures OutOfWalls(t.walls, PlayerTurn(t, s, i))
  {
    var r := PlayerTurn(t, s, i);
    forall k | 0 <= k < |r.blocks|
      ensures !InWall(t.walls, r.blocks[k].pos)
    {
      assert !InWall(t.walls, s.players[i].pos);
    }
  }

  lemma {:induction false} TurnsStayOutOfWalls(t: Tick, s: Scene, n: int)
    requires 0 <= n <= |s.players| && |t.entry| == |s.blocks|
    requires OutOfWalls(t.walls, s)
    ensures OutOfWalls(t.walls, Turns(t, s, n))
    decreases n
  {
    if n > 0 {
      TurnsStayOutOfWalls(t, s, n - 1);
      TurnStaysOutOfWalls(t, Turns(t, s, n - 1), n - 1);
    }
  }

  /**
   * Bounds safety: when every body starts on a free cell, every body ends on
   * one; in particular a player never enters a wall or leaves the level.
   */
  lemma MoveTickStaysOutOfWalls(keys: set<Key>, walls: LevelWalls, s: Scene)
    requires OutOfWalls(walls, s)
    ensures OutOfWalls(walls, MoveTick(keys, walls, s))
  {
    match MovementDirection(keys)
    case None =>
    case Some(d) =>
      TurnsStayOutOfWalls(Tick(d, Space in keys, walls, Snapshot(s.blocks), s.blocks), s, |s.players|);
  }

  /** Player `j` after the turns of the first `n` players. */
  lemma {:induction false} TurnsMovePlayersOnce(t: Tick, s: Scene, n: int)
    requires 0 <= n <= |s.players| && |t.entry| == |s.blocks|
    requires IsUnitStep(t.d)
    ensures var r := Turns(t, s, n);
            && (forall j :: n <= j < |s.players| ==> r.players[j] == s.players[j])
            && (forall j :: 0 <= j < n ==>
                  || r.players[j] == s.players[j]
                  || (!s.players[j].moving && !InWall(t.walls, Plus(s.players[j].pos, t.d))
                      && r.players[j] == s.players[j].(pos := Plus(s.players[j].pos, t.d), moving := true, changed := true)))
    decreases n
  {
    if n > 0 {
      TurnsMovePlayersOnce(t, s, n - 1);
      TurnMovesOneCell(t, Turns(t, s, n - 1), n - 1);
    }
  }

  /** `c` moved `m` cells along `d`. */
  function Along(c: GridCoords, d: GridCoords, m: int): GridCoords
  {
    GridCoords(c.x + m * d.x, c.y + m * d.y)
  }

  /**
   * A block whose state changed during the first `n` turns was visited by the
   * block query, is tagged, and moved along the offset by between one and `n`
   * cells: each turn moves it at most one cell, but a later player's turn can
   * move a block an earlier one already moved.
   */
  lemma {:induction false} TurnsTagMovedBlocks(t: Tick, s: Scene, n: int)
    requires 0 <= n <= |s.players| && |t.entry| == |s.blocks|
    requires IsUnitStep(t.d)
    ensures var r := Turns(t, s, n);
            forall j :: 0 <= j < |s.blocks| ==>
              || r.blocks[j] == s.blocks[j]
              || (!t.entry[j].moving && r.blocks[j].moving
                  && exists m :: 1 <= m <= n && r.blocks[j].pos == Along(s.blocks[j].pos, t.d, m))
    decreases n
  {
    if n > 0 {
      var prev := Turns(t, s, n - 1);
      var r := Turns(t, s, n);
      TurnsTagMovedBlocks(t, s, n - 1);
      TurnMovesOneCell(t, prev, n - 1);
      forall j | 0 <= j < |s.blocks| && r.blocks[j] != s.blocks[j]
        ensures !t.entry[j].moving && r.blocks[j].moving
        ensures exists m :: 1 <= m <= n && r.blocks[j].pos == Along(s.blocks[j].pos, t.d, m)
      {
        var c := s.blocks[j].pos;
        if r.blocks[j] == prev.blocks[j] {
          var m :| 1 <= m <= n - 1 && prev.blocks[j].pos == Along(c, t.d, m);
          assert r.blocks[j].pos == Along(c, t.d, m);
        } else if prev.blocks[j] == s.blocks[j] {
          assert r.blocks[j].pos == Along(c, t.d, 1);
        } else {
          var m :| 1 <= m <= n - 1 && prev.blocks[j].pos == Along(c, t.d, m);
          assert r.blocks[j].pos == Along(c, t.d, m + 1);
        }
      }
    }
  }

  /**
   * One call can move a block two cells: a player on `p` pushes the block from
   * `p+d` to `p+2d`, and a second player on `p+3d`, holding Space, then pulls
   * the same block onto `p+3d`. The block query still visits it, because its
   * `IsMoving` marker is a deferred command.
   */
  lemma PushThenPullMovesTwoCells(t: Tick, s: Scene)
    requires IsUnitStep(t.d) && t.pull
    requires |s.players| == 2 && |s.blocks| == 1 && t.entry == s.blocks && t.snapshot == Snapshot(s.blocks)
    requires !s.players[0].moving && !s.players[1].moving && !s.blocks[0].moving
    requires var p := s.players[0].pos;
             && s.blocks[0].pos == Plus(p, t.d)
             && s.players[1].pos == Plus(Plus(Plus(p, t.d), t.d), t.d)
             && !InWall(t.walls, Plus(Plus(p, t.d), t.d))
             && !InWall(t.walls, Plus(s.players[1].pos, t.d))
    ensures Turns(t, s, 2).blocks[0] == BlockBody(Along(s.blocks[0].pos, t.d, 2), true)
  {
    var p := s.players[0].pos;
    var d := t.d;
    var s1 := Turns(t, s, 1);
    assert Turns(t, s, 2) == PlayerTurn(t, s1, 1);
    assert s1 == PlayerTurn(t, s, 0);
    assert PushClear(t, p) by {
      assert Plus(Plus(p, d), d) != s.blocks[0].pos;
    }
    assert s1.blocks[0] == BlockBody(Plus(Plus(p, d), d), true);
    assert s1.players[1] == s.players[1];
    var q := s.players[1].pos;
    assert s1.blocks[0].pos == Minus(q, d) && s1.blocks[0].pos != Plus(q, d);
    assert !HitBefore(t, s1.blocks, 0, Plus(q, d));
    assert BlockAfterTurn(t, s1.blocks, q, 0) == BlockBody(q, true);
  }

  /**
   * One call of the move system: without W, A, S or D nothing changes; a
   * player either stays or steps exactly one cell along the chosen offset onto
   * a free cell and is tagged; a player or block already carrying `IsMoving`
   * is left alone; every block that changed is tagged and moved along the
   * offset by at least one cell and at most one cell per player.
   */
  lemma MoveTickChanges(keys: set<Key>, walls: LevelWalls, s: Scene)
    ensures var r := MoveTick(keys, walls, s);
            && |r.players| == |s.players| && |r.blocks| == |s.blocks|
            && (MovementDirection(keys).None? ==> r == s)
            && (forall j :: 0 <= j < |s.players| ==>
                  || r.players[j] == s.players[j]
                  || (!s.players[j].moving && MovementDirection(keys).Some?
                      && !InWall(walls, Plus(s.players[j].pos, MovementDirection(keys).value))
                      && r.players[j] == s.players[j].(pos := Plus(s.players[j].pos, MovementDirection(keys).value),
                                                       moving := true, changed := true)))
            && (forall j :: 0 <= j < |s.blocks| ==>
                  || r.blocks[j] == s.blocks[j]
                  || (!s.blocks[j].moving && r.blocks[j].moving && MovementDirection(keys).Some?
                      && exists m :: 1 <= m <= |s.players|
                                     && r.blocks[j].pos == Along(s.blocks[j].pos, MovementDirection(keys).value, m)))
  {
    match MovementDirection(keys)
    case None =>
    case Some(d) =>
      var t := Tick(d, Space in keys, walls, Snapshot(s.blocks), s.blocks);
      TurnsMovePlayersOnce(t, s, |s.players|);
      TurnsTagMovedBlocks(t, s, |s.players|);
  }

  // ---------------------------------------------------------------------------
  // Worked scenarios

  /** With one player, a call of the move system is that player's turn. */
  lemma OnePlayerMoveTick(keys: set<Key>, walls: LevelWalls, player: PlayerBody, blocks: seq<BlockBody>, t: Tick)
    requires MovementDirection(keys).Some?
    requires t == Tick(MovementDirection(keys).value, Space in keys, walls, Snapshot(blocks), blocks)
    ensures MoveTick(keys, walls, Scene([player], blocks)) == PlayerTurn(t, Scene([player], blocks), 0)
  {
  }

  /**
   * Visiting order matters, for any offset, walls and player cell: the block
   * behind the player is visited first, the block ahead second and the block
   * beyond third. The push is blocked by the third block, yet with Space held
   * the first block is still pulled, onto the cell the player keeps.
   */
  lemma PullFirstTurn(t: Tick, players: seq<PlayerBody>, blocks: seq<BlockBody>, i: int)
    requires 0 <= i < |players| && !players[i].moving
    requires IsUnitStep(t.d) && t.pull && !InWall(t.walls, Plus(players[i].pos, t.d))
    requires |blocks| == 3 && t.entry == blocks && t.snapshot == Snapshot(blocks)
    requires !blocks[0].moving && !blocks[1].moving && !blocks[2].moving
    requires var p := players[i].pos;
             blocks[0].pos == Minus(p, t.d) && blocks[1].pos == Plus(p, t.d) && blocks[2].pos == Plus(Plus(p, t.d), t.d)
    ensures PlayerTurn(t, Scene(players, blocks), i) == Scene(players, blocks[0 := BlockBody(players[i].pos, true)])
  {
    var p := players[i].pos;
    assert HitBefore(t, blocks, 3, Plus(p, t.d)) by { assert blocks[1].pos == Plus(p, t.d); }
    assert !PushClear(t, p) by { assert !blocks[2].moving && blocks[2].pos == Plus(Plus(p, t.d), t.d); }
    assert BlockAfterTurn(t, blocks, p, 0) == BlockBody(p, true);
    assert BlockAfterTurn(t, blocks, p, 1) == blocks[1];
    assert BlockAfterTurn(t, blocks, p, 2) == blocks[2];
  }

  /** The same three blocks with the one behind visited last: no block moves and the player stays. */
  lemma PullLastTurn(t: Tick, players: seq<PlayerBody>, blocks: seq<BlockBody>, i: int)
    requires 0 <= i < |players| && !players[i].moving
    requires IsUnitStep(t.d) && t.pull && !InWall(t.walls, Plus(players[i].pos, t.d))
    requires |blocks| == 3 && t.entry == blocks && t.snapshot == Snapshot(blocks)
    requires !blocks[0].moving && !blocks[1].moving && !blocks[2].moving
    requires var p := players[i].pos;
             blocks[0].pos == Plus(p, t.d) && blocks[1].pos == Plus(Plus(p, t.d), t.d) && blocks[2].pos == Minus(p, t.d)
    ensures PlayerTurn(t, Scene(players, blocks), i) == Scene(players, blocks)
  {
    var p := players[i].pos;
    assert HitBefore(t, blocks, 2, Plus(p, t.d)) by { assert blocks[0].pos == Plus(p, t.d); }
    assert HitBefore(t, blocks, 3, Plus(p, t.d)) by { assert blocks[0].pos == Plus(p, t.d); }
    assert !PushClear(t, p) by { assert !blocks[1].moving && blocks[1].pos == Plus(Plus(p, t.d), t.d); }
    assert BlockAfterTurn(t, blocks, p, 0) == blocks[0];
    assert BlockAfterTurn(t, blocks, p, 1) == blocks[1];
    assert BlockAfterTurn(t, blocks, p, 2) == blocks[2];
  }

  /**
   * `PullFirstTurn` on a 5×5 level: the player on (2,2) holds W and Space; the
   * pulled block ends on (2,2), the cell the player keeps.
   */
  lemma PullBeforeBlockedPush()
    ensures var player := SpawnedPlayer(GridCoords(2, 2));
            var blocks := [BlockBody(GridCoords(2, 1), false), BlockBody(GridCoords(2, 3), false), BlockBody(GridCoords(2, 4), false)];
            MoveTick({W, Space}, LevelWalls({}, 5, 5), Scene([player], blocks))
              == Scene([player], blocks[0 := BlockBody(GridCoords(2, 2), true)])
  {
    var player := SpawnedPlayer(GridCoords(2, 2));
    var blocks := [BlockBody(GridCoords(2, 1), false), BlockBody(GridCoords(2, 3), false), BlockBody(GridCoords(2, 4), false)];
    var walls := LevelWalls({}, 5, 5);
    var t := Tick(GridCoords(0, 1), true, walls, Snapshot(blocks), blocks);
    OnePlayerMoveTick({W, Space}, walls, player, blocks, t);
    PullFirstTurn(t, [player], blocks, 0);
  }

  /** `PullLastTurn` on the same level: the one behind visited last, nothing moves. */
  lemma NoPullAfterBlockedPush()
    ensures var player := SpawnedPlayer(GridCoords(2, 2));
            var blocks := [BlockBody(GridCoords(2, 3), false), BlockBody(GridCoords(2, 4), false), BlockBody(GridCoords(2, 1), false)];
            MoveTick({W, Space}, LevelWalls({}, 5, 5), Scene([player], blocks)) == Scene([player], blocks)
  {
    var player := SpawnedPlayer(GridCoords(2, 2));
    var blocks := [BlockBody(GridCoords(2, 3), false), BlockBody(GridCoords(2, 4), false), BlockBody(GridCoords(2, 1), false)];
    var walls := LevelWalls({}, 5, 5);
    var t := Tick(GridCoords(0, 1), true, walls, Snapshot(blocks), blocks);
    OnePlayerMoveTick({W, Space}, walls, player, blocks, t);
    PullLastTurn(t, [player], blocks, 0);
  }

  /**
   * A 5×5 level whose bottom row is wall, a player on (2,2) and a block on
   * (2,1): pressing S pushes the block toward the wall, so nothing moves.
   * Without the wall row the block moves to (2,0) and the player to (2,1).
   */
  lemma PushAgainstWallAndIntoOpen()
    ensures var player := SpawnedPlayer(GridCoords(2, 2));
            var block := BlockBody(GridCoords(2, 1), false);
            var bottom := {GridCoords(0, 0), GridCoords(1, 0), GridCoords(2, 0), GridCoords(3, 0), GridCoords(4, 0)};
            && MoveTick({S}, LevelWalls(bottom, 5, 5), Scene([player], [block]))
                 == Scene([player], [block])
            && MoveTick({S}, LevelWalls({}, 5, 5), Scene([player], [block]))
                 == Scene([player.(pos := GridCoords(2, 1), moving := true, changed := true)],
                          [BlockBody(GridCoords(2, 0), true)])
  {
    var player := SpawnedPlayer(GridCoords(2, 2));
    var block := BlockBody(GridCoords(2, 1), false);
    var bottom := {GridCoords(0, 0), GridCoords(1, 0), GridCoords(2, 0), GridCoords(3, 0), GridCoords(4, 0)};
    var t1 := Tick(GridCoords(0, -1), false, LevelWalls(bottom, 5, 5), Snapshot([block]), [block]);
    assert HitBefore(t1, [block], 1, GridCoords(2, 1)) by { assert [block][0].pos == GridCoords(2, 1); }
    assert BlocksAfterTurn(t1, [block], GridCoords(2, 2)) == [block];
    var t2 := Tick(GridCoords(0, -1), false, LevelWalls({}, 5, 5), Snapshot([block]), [block]);
    assert HitBefore(t2, [block], 1, GridCoords(2, 1)) by { assert [block][0].pos == GridCoords(2, 1); }
    assert BlocksAfterTurn(t2, [block], GridCoords(2, 2)) == [BlockBody(GridCoords(2, 0), true)];
  }

  // ---------------------------------------------------------------------------
  // Goal check

  /** Cells of the players whose cell changed since the goal check last ran, in query order. */
  function ChangedPositions(players: seq<PlayerBody>): (r: seq<GridCoords>)
    ensures |r| <= |players|
    ensures forall c :: c in r <==> exists k :: 0 <= k < |players| && players[k].changed && players[k].pos == c
    decreases |players|
  {
    if players == [] then []
    else
      var rest := ChangedPositions(players[1..]);
      assert forall k :: 1 <= k < |players| ==> players[1..][k - 1] == players[k];
      (if players[0].changed then [players[0].pos] else []) + rest
  }

  /** `a.iter().zip(b.iter()).any(|(x, y)| x == y)`: pairs are formed by position, not all against all. */
  function ZipAny(a: seq<GridCoords>, b: seq<GridCoords>): bool
    decreases |a|
  {
    if a == [] || b == [] then false
    else a[0] == b[0] || ZipAny(a[1..], b[1..])
  }

  lemma {:induction false} ZipAnyIff(a: seq<GridCoords>, b: seq<GridCoords>)
    ensures ZipAny(a, b) <==> exists i :: 0 <= i < |a| && i < |b| && a[i] == b[i]
    decreases |a|
  {
    if a != [] && b != [] {
      ZipAnyIff(a[1..], b[1..]);
      if exists i :: 0 <= i < |a| && i < |b| && a[i] == b[i] {
        var i :| 0 <= i < |a| && i < |b| && a[i] == b[i];
        if i > 0 {
          assert a[1..][i - 1] == a[i] && b[1..][i - 1] == b[i];
        }
      }
      if exists i :: 0 <= i < |a[1..]| && i < |b[1..]| && a[1..][i] == b[1..][i] {
        var i :| 0 <= i < |a[1..]| && i < |b[1..]| && a[1..][i] == b[1..][i];
        assert a[i + 1] == b[i + 1];
      }
    }
  }

  /** A player standing on a goal that is not its positional partner does not count. */
  lemma GoalPairsArePositional()
    ensures !ZipAny([GridCoords(1, 1), GridCoords(2, 2)], [GridCoords(2, 2), GridCoords(1, 1)])
    ensures ZipAny([GridCoords(1, 1), GridCoords(2, 2)], [GridCoords(0, 0), GridCoords(2, 2)])
  {
  }

  /**
   * The goal check: the new selection, or `None` where the system panics
   * because the selection is not `Indices`.
   */
  function GoalCheck(selection: LevelSelection, players: seq<PlayerBody>, goals: seq<GridCoords>): Option<LevelSelection>
  {
    if ZipAny(ChangedPositions(players), goals) then
      match selection
      case Indices(world, level) => Some(Indices(world, level + 1))
      case _ => None
    else Some(selection)
  }

  /**
   * When some changed player stands on its positional goal partner, the level
   * index rises by exactly one (failing when the selection is not `Indices`);
   * otherwise the selection is untouched.
   */
  lemma GoalCheckAdvancesOnce(selection: LevelSelection, players: seq<PlayerBody>, goals: seq<GridCoords>)
    ensures var moved := ChangedPositions(players);
            var reached := exists i :: 0 <= i < |moved| && i < |goals| && moved[i] == goals[i];
            && (GoalCheck(selection, players, goals).None? <==> reached && !selection.Indices?)
            && (!reached ==> GoalCheck(selection, players, goals) == Some(selection))
            && (reached && selection.Indices? ==>
                  GoalCheck(selection, players, goals) == Some(selection.(level := selection.level + 1)))
  {
    ZipAnyIff(ChangedPositions(players), goals);
  }
}
