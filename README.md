# Movement rules of a grid puzzle game (sbpg), in Dafny

This project models the movement core of sbpg. sbpg is a small Sokoban-style game built on Bevy and bevy_ecs_ldtk. The model covers:

- the key-priority choice of a move offset and of a player's facing;
- the push / pull / step resolution that the move system runs for every player not in flight;
- the `IsMoving` in-flight marker and the listener that clears it;
- the `LevelWalls` grid and its rebuild when a level spawns;
- the goal check that advances the level index.

Modules:

- `Wrappers` (`wrappers.dfy`): an `Option` type.
- `TileMap` (`tile_map.dfy`): grid cells, `LevelWalls` and `InWall`, the rebuild from level events (`CachedWalls`), blocks, and `LevelSelection` with its initial value.
- `Player` (`player.dfy`): directions and keys, the specification of one call of the move system (`MoveTick`, built from one `PlayerTurn` per player), the two loops of that system as methods proved against it, the turn and goal specifications, and the lemmas.
- `Game` (`game.dfy`): the ECS world as a class `World`. Its fields are the players, blocks and goals in query order and the two resources. Each Bevy system is a method that updates the world in place. Each method's `ensures` equates the new state with the specification function of the old state.

What the code does, as modelled:

- The block query visits only the blocks that had no `IsMoving` marker on entry to the call. The snapshot is taken once per call, from the same blocks.
- There is no chain push. When a block without `IsMoving` stands ahead and a snapshot block or a blocked cell lies behind it, neither that block nor the player moves (`Player.NoChainPush`).
- A block already in flight on the cell ahead is not visited, so it does not stop the player: with the cell ahead free, the player steps onto it (`Player.StepResolution`).
- With Space held and the cell ahead free, a block behind the player that had no `IsMoving` on entry is pulled onto the player's cell, unless a block ahead was visited earlier in query order (`Player.PullResolution`). With a wall or the level edge ahead, nothing is pulled.
- So the result depends on visiting order. If the block behind is visited before a block ahead whose push is blocked, the pull still happens while the player stays. The pulled block then lands on the player's cell (`Player.PullBeforeBlockedPush`).
- Within one player's turn a block moves at most one cell. Within one call it can move further: the `IsMoving` marker is a deferred command, so a block pushed by one player is still visited, and can be pulled, in a later player's turn (`Player.PushThenPullMovesTwoCells`).
- The code has no chain push, no grab relation between a player and a block, and no turn lock across players. Bodies may overlap (see `Player.PullBeforeBlockedPush`).

`IsMoving` markers are added through deferred commands. So within one call the block query still visits every block that had no marker on entry. The model keeps those entry markers in `Tick.entry` and writes the new markers into the state at once. Bevy's `Changed<GridCoords>` filter becomes a per-player `changed` flag. The move system sets it when it writes a player's cell, and the goal check consumes it.

## Model

| member | source | states |
|---|---|---|
| `Player.MovementDirection` | src/player.rs:94-104 | no offset exactly when none of W, A, S, D is held; otherwise a unit step |
| `Player.MovementKeyPriority` | src/player.rs:94-104 | W overrides every other key, A overrides S and D, S overrides D, and Space never changes the offset; W, A, S and D alone give the offsets of North, West, South and East |
| `Player.TurnedFacing` | src/player.rs:54-62 | definition (no contract): the facing after one turn, with the same key priority as the move |
| `Player.TurnPlayers` | src/player.rs:49-63 | definition (no contract): every player without `IsMoving` gets `TurnedFacing`, the others are kept |
| `Player.FacingFollowsMovement` | src/player.rs:54-62 | the turn uses the same key priority as the move: with no key the facing is kept, otherwise the new facing points along the move's offset |
| `Player.TurnPlayersOnlyTurns` | src/player.rs:49-63 | turning skips players carrying `IsMoving`, changes nothing but the facing, and makes every other player face the move's offset |
| `Game.World.TurnPlayerFromInput` | src/player.rs:49-64 | the loop over the player query sets exactly the facings `TurnPlayers` describes, and nothing else changes |
| `Player.BlockAfterTurn` | src/player.rs:116-141 | definition (no contract): one block after one player's turn, with the push branch before the pull branch, and `hit_block` as `HitBefore` over the blocks visited earlier |
| `Player.PlayerAdvances` | src/player.rs:144-146 | definition (no contract): the move condition of one player |
| `Player.PlayerTurn` | src/player.rs:111-150 | definition (a player carrying `IsMoving` is skipped); contract: one player's turn keeps the number of players and blocks |
| `Player.Turns` | src/player.rs:111-151 | definition (the turns of the first `n` players, in query order); contract: the number of players and blocks is kept |
| `Player.MoveTick` | src/player.rs:81-152 | definition (no contract): without W, A, S or D nothing changes; otherwise the turns of all players in query order, against one snapshot and the entry markers |
| `Player.Snapshot` | src/player.rs:106-109 | a cell is in the snapshot exactly when some block without `IsMoving` stands on it, so blocks in flight are not obstacles |
| `Player.CollectSnapshot` | src/player.rs:106-109 | the collecting loop yields the snapshot |
| `Player.PushAndPull` | src/player.rs:112-142 | the block loop of one turn leaves every block as the turn specification says; `hit_block` records whether a visited block stood ahead; `hit_second_block` records whether, in that case, the cell beyond was in the snapshot |
| `Game.World.MovePlayerFromInput` | src/player.rs:81-152 | the whole system produces `MoveTick` of the old players and blocks, and leaves goals, walls and selection unchanged |
| `Player.PushResolution` | src/player.rs:118-131 | the block ahead moves two cells on from the player exactly when that cell is neither a snapshot block nor blocked, and the player moves exactly when, in addition, the cell ahead is free |
| `Player.NoChainPush` | src/player.rs:122-127 | when a snapshot block or a blocked cell lies beyond the block ahead, no player moves and no block ahead of the player moves |
| `Player.PullResolution` | src/player.rs:133-141 | the block behind lands on the player's cell exactly when Space is held, the cell ahead is free and no block ahead was visited earlier; otherwise it stays |
| `Player.StepResolution` | src/player.rs:144-149 | when no block the query visits stands on the cell ahead (a block in flight does not count), a player without `IsMoving` steps ahead and gets `IsMoving` exactly when that cell is free, and otherwise stays |
| `Player.TurnMovesOneCell` | src/player.rs:111-150 | one player's turn moves only the blocks directly ahead of or behind the player; each moves by exactly one cell along the offset and gets `IsMoving`; the player stays or steps one cell onto a free cell and gets `IsMoving` |
| `Player.MoveTickChanges` | src/player.rs:81-152 | a whole call: with no direction key nothing changes; each player stays or steps exactly one cell onto a free cell and gets `IsMoving`; bodies already in flight are left alone; every block whose state changed gets `IsMoving` and moved along the offset by at least one cell and at most one cell per player |
| `Player.TurnsTagMovedBlocks` | src/player.rs:111-150 | after the first `n` turns, every changed block was visited by the block query, carries `IsMoving`, and moved along the offset by between one and `n` cells |
| `Player.PushThenPullMovesTwoCells` | src/player.rs:111-150 | for any offset and walls: a push by one player followed by a pull by a second player on the far side moves the same block two cells in one call |
| `Player.MoveTickStaysOutOfWalls` | src/player.rs:127-150 | if every player and block starts on a free cell, every one ends on a free cell (pushes are checked against walls, pulls land on a player's cell, steps are checked) |
| `Player.OnePlayerMoveTick` | src/player.rs:81-152 | with a direction key held and a single player, one call of the move system is that player's turn |
| `Player.PullFirstTurn` | src/player.rs:116-150 | for any offset, walls and player cell: with the block behind visited before the block ahead, and the push blocked by a third block, the pull still happens; the player stays and the pulled block lands on its cell |
| `Player.PullLastTurn` | src/player.rs:116-150 | for any offset, walls and player cell: with the same blocks but the one behind visited last, no block moves and the player stays |
| `Player.PullBeforeBlockedPush` | src/player.rs:116-150 | `PullFirstTurn` on a 5×5 level: the player on (2,2) holds W and Space, and the block from (2,1) ends on (2,2), the player's cell |
| `Player.NoPullAfterBlockedPush` | src/player.rs:116-150 | `PullLastTurn` on the same level: nothing moves |
| `Player.PushAgainstWallAndIntoOpen` | src/player.rs:118-150 | a push toward a wall row moves nothing; into open floor the block moves to (2,0) and the player to (2,1) |
| `Player.ChangedPositions` | src/player.rs:156 | a cell is in the result exactly when some player whose cell changed stands on it, and there is at most one cell per player |
| `Player.ZipAny` | src/player.rs:159-163 | definition (no contract): `zip` followed by `any` with equality |
| `Player.ZipAnyIff` | src/player.rs:159-163 | the zipped test holds exactly when some index within both sequences pairs equal cells |
| `Player.GoalPairsArePositional` | src/player.rs:159-163 | players and goals are paired by position: two players on each other's goals do not count |
| `Player.GoalCheck` | src/player.rs:154-171 | definition (no contract): the new selection, or a failure where the system panics |
| `Player.GoalCheckAdvancesOnce` | src/player.rs:154-171 | if some changed player shares its cell with its positional goal partner, the level index rises by exactly one, or the check fails when the selection is not `Indices`; otherwise the selection is unchanged |
| `Game.World.CheckGoal` | src/player.rs:154-171 | the system's outcome and new selection are those of `GoalCheck`; on success the change marks are consumed; on failure nothing changes |
| `TileMap.InWall` | src/tile_map.rs:91-97 | definition (no contract): a cell is blocked when it is outside the level rectangle or a wall cell |
| `TileMap.InWallIffNotFree` | src/tile_map.rs:90-98 | a cell is blocked exactly when it is not one of the in-bounds, non-wall cells |
| `TileMap.DefaultLevelWallsBlockEverything` | src/tile_map.rs:83-97 | the default resource (0×0, no walls) blocks every cell and has no free cell |
| `TileMap.InWallMonotone` | src/tile_map.rs:96 | adding wall cells never frees a blocked cell |
| `TileMap.CellsFromPixels` | src/tile_map.rs:166-167 | pixel size to cell count is `i32` division by 16, truncating toward zero, bounded on both sides |
| `TileMap.WallsOfLevel` | src/tile_map.rs:162-168 | definition (no contract): the new resource from the level's pixel size and the cells of the wall entities |
| `TileMap.CachedWalls` | src/tile_map.rs:153-172 | definition (no contract): the resource after the events in order, or a failure at the first spawned level missing from the project |
| `TileMap.CachedWallsFromLastSpawn` | src/tile_map.rs:153-172 | the rebuild fails exactly when a spawned level is missing from the project; otherwise the resource is the old one when nothing spawned, and the last spawned level's size in cells with exactly the wall cells when something did |
| `TileMap.CachedWallsStaysFailed` | src/tile_map.rs:158-160 | a missing level ends the rebuild: once a prefix of the events fails, the whole sequence fails |
| `Game.World.CacheWallLocations` | src/tile_map.rs:146-173 | the event loop reports success exactly when the specification does, and on success leaves the resource it describes |
| `Game.Settled` | src/tile_map.rs:139-143 | definition (no contract): every player and block without `IsMoving` |
| `Game.SettledClearsEveryMarker` | src/tile_map.rs:139-143 | clearing leaves no entity with `IsMoving`, moves nothing, and is idempotent |
| `Game.World.MoveCompleteListener` | src/tile_map.rs:134-144 | after at least one completion event every entity is settled; with no event nothing changes |
| `Game.World.constructor` | src/tile_map.rs:15 | the world starts with the default wall resource and level selection index 0 |

## Left out

- `translate_grid_coords_entities`: floating-point tweening of transforms. Only its completion events matter here, and they enter `MoveCompleteListener` as a count.
- `update_player_facing_direction`: sprite index and flip selection, which is presentation.
- `setup`, the plugin wiring in `build` and all of src/lib.rs: asset loading, state registration and scheduling.
- The `LdtkProject` lookup in `cache_wall_locations`: the project is assumed loaded, and its levels are a map from level iid to pixel size. The wall entities' cells are an input.
- Game.World.CacheWallLocations: when a spawned level is missing from the project, the system panics. The contract then says only that the call failed, not what the resource holds.
- Integer widths: `GridCoords` (`i32`), pixel sizes (`i32`) and the level index (`usize`) are unbounded here. Overflow at the extremes of `i32` or `usize` is not modelled.
- Query iteration order: Bevy promises none. The model fixes it as the order of the sequences, and the order-dependent pull is stated for that order.
- Order and concurrency of systems within a frame: each system is a separate method. Any interleaving of calls is left to the caller.
- Change detection: `Changed<GridCoords>` is a flag per player, set by the move system and consumed by the goal check. Bevy's change ticks are not modelled.
- Completion events enter the listener only as a count. Which entity's tween completed is ignored, as in the game.
