# Root-growing puzzle: gameplay core in Dafny

A functional model of the puzzle core of a small Unity game in which roots
grow from seed tiles across a tile map, one cell per arrow key, towards Water
while avoiding Poison. The model covers:

- `GameTile`: tile types, the occupancy flag and the derived predicates
  (`IsDestination`, `IsRootTile`, `IsBlockedTile`);
- `GameMap`: construction, per-slot updates, the text codec
  (`ExportMapData` / `ImportMapData`, one character per tile, top row first)
  and the blocking maintenance (`ClearBlocks`, `SetupBlocks`);
- `Root`: the step a root takes (`Grow`), how it is redirected by the four
  reflectors, when it counts as stuck, its `Start` and its per-frame `Update`;
- `HistoryStack<T>`: the bounded stack that forgets its oldest entry;
- `GameplayManager`: placing roots, a move (`MakeRootsGrow`), backup and undo,
  `ResetMap`, the win and game-over checks and transitions, and the key
  handling of its `Update`;
- `LevelSelector`: the digits of a level, the two digit sprites, and the
  left/right presses bounded by `HighestLevel`.

Every operation is a pure function over immutable data. The Unity singletons
become explicit state: a `Grid` for `activeMap.mapTiles` (a slot is `Null`
until written, as in a fresh C# array), a `Root` record per root object, and
a `Status` for the scalar fields of `GameplayManager`. A `Game` bundles these
with the map's history stack and the roots saved at the last backup. Keyboard
reads become an `Input` parameter; a frame of a root and a frame of the
manager are separate functions so that any interleaving can be written down
(`RunRoots`, `Play`). The coroutine delay inside `Root.Grow` is collapsed: a
step is `Advance` (move the tip, occupy the cell) followed by `Settle`
(Poison, stuck, Water or release the latch).

Root neighbour lookups in the code are unchecked. The model therefore works on
framed maps (`Roots.Framed`: every border slot is Dirt and no slot is null) and
keeps every tip off the border (`Roots.Interior`); `Gameplay.Consistent`
collects these facts and every gameplay operation preserves it.

Several members that the code calls are never defined in the code.
Each is modelled by a stated assumption, written in the doc comment of the
member that stands for it:

- `GameTile.Enter` and `GameTile.Exit` record the side and mark the tile
  occupied (`Tiles.Enter`, `Tiles.Exit`);
- `IsDeathTile` is "the type is Poison", and `IsRedirectTile` is "the type is
  one of the four reflectors";
- `SetGameWon` acts as `SetLevelWon`;
- `Root.CanRootGrow(d)` is "`d` is not blocked for this root";
- `Root.TryGrow(d)` is the idle branch of `Root.Update`; in particular it
  has no guard on the game state, so in one pass of `MakeRootsGrow` a later
  root can set GameOver after an earlier root has set WonGame;
- `GameMap.BackupTiles` pushes the tiles on `previousMapTiles`, and
  `GameMap.RestoreTiles` pops them back (and does nothing on an empty stack);
- `Root.ResetPosition` puts back the record the root saved at the last
  backup, and leaves a root with no such record where it is; the records live
  in the root objects, so `ClearRoots` destroys them with the roots.

Behaviours of the code that the model keeps as written:

- import reads at most `sizeX` symbols per line and drops the rest of a long
  line; lines beyond `sizeY` are not read; slots no line reaches keep their
  tile, and their flag is rebuilt by `SetupBlocks` like every other slot's;
  nothing is staged, so a bad symbol leaves the slots before it
  already overwritten (`MapText.ImportLines`);
- `UpdateMapTile` copies a lookup tile whose flag is clear;
- a reflector entered by a side it does not join gives direction `None`,
  which stops the root on the spot (`Roots.UnlistedEntryStops`);
- a root that becomes stuck while another root is still free stays
  `growing` and latched forever, so `RootsGrowing` stays true and the
  manager ignores all input from then on (`Roots.StuckRootStaysGrowing`,
  `Gameplay.GrowingIgnoresInput`);
- `UpdateLevel` on a level of three or more digits shows the first two
  digits (`LevelSelect.ThreeDigitLevels`), and a level below one indexes an
  empty array.

## Model

| member | source | states |
|---|---|---|
| Directions.Opposite | Assets/Scripts/GameData/Root.cs:162-176 | the opposite of a cardinal direction is a different cardinal direction; `None` stays non-cardinal |
| Directions.OppositeInvolution | Assets/Scripts/GameData/Root.cs:162-176 | taking the opposite twice gives back the direction |
| Directions.Destination | Assets/Scripts/GameData/Root.cs:49-69 | North adds one to y, South takes one from y, East adds one to x, West takes one from x, `None` stays put |
| Directions.DestinationIsUnitStep | Assets/Scripts/GameData/Root.cs:49-69 | a cardinal step moves exactly one cell, and stepping the opposite way comes back |
| Tiles.NewTile | Assets/Scripts/GameData/GameTile.cs:40-43 | a new tile has the given type, a clear flag and no recorded sides |
| Tiles.CopyTile | Assets/Scripts/GameData/GameTile.cs:45-50 | the copy has the source's type and flag |
| Tiles.CopyOfNewTile | Assets/Scripts/GameData/GameTile.cs:40-50 | copying a fresh tile gives the same fresh tile |
| Tiles.BlockedTileByType | Assets/Scripts/GameData/GameTile.cs:60-77 | a tile is blocked iff its flag is set or it is Dirt or a seed; for any other type, iff its flag is set |
| Tiles.RootTilesExactly | Assets/Scripts/GameData/GameTile.cs:52-77 | the root tiles are exactly the four seed types, and none of them is Water |
| Tiles.Enter | Assets/Scripts/GameData/Root.cs:212-213 | entering keeps the type, records the side entered by, keeps the exit side and leaves the tile occupied |
| Tiles.Exit | Assets/Scripts/GameData/Root.cs:212-213 | leaving keeps the type, the flag and the entry side, and records the side left by |
| Maps.NewGrid | Assets/Scripts/GameData/GameMap.cs:52-57 | a new map has the given size and every slot null |
| Maps.UpdateMapTile | Assets/Scripts/GameData/GameMap.cs:59-62 | slot (x, y) gets a tile of the given type with a clear flag; every other slot is unchanged |
| Maps.SetBlocked | Assets/Scripts/GameData/GameMap.cs:64-68 | only the flag of slot (x, y) changes, to set |
| Maps.SetUnblocked | Assets/Scripts/GameData/GameMap.cs:70-74 | only the flag of slot (x, y) changes, to clear |
| Maps.ClearBlocks | Assets/Scripts/GameData/GameMap.cs:131-140 | every flag is cleared and every type is kept |
| Maps.SetupBlocks | Assets/Scripts/GameData/GameMap.cs:142-172 | every slot's flag becomes set iff the slot was blocked (flag, Dirt or seed); types are kept |
| Maps.ClearThenSetup | Assets/Scripts/GameData/GameMap.cs:131-172 | after clearing and setting up, exactly the Dirt and seed slots are occupied |
| MapText.TablesAreInverse | Assets/Scripts/GameData/GameMap.cs:20-50 | the two symbol tables are inverse bijections between the twelve types and the symbols `0`-`9`, `A`, `B` |
| MapText.ExportRow | Assets/Scripts/GameData/GameMap.cs:82-85 | the row text has one symbol per slot from x on, each the reverse-table symbol of that slot's type |
| MapText.ExportRows | Assets/Scripts/GameData/GameMap.cs:79-87 | line k is the row y - k, so the top row comes first |
| MapText.ExportLines | Assets/Scripts/GameData/GameMap.cs:76-89 | one line per row, each `sizeX` symbols with no line break, and line k, column x is the symbol of slot (x, sizeY - 1 - k) |
| MapText.LineEnd | Assets/Scripts/GameData/GameMap.cs:102 | the end of a line is the first break at or after its start, or the end of the text |
| MapText.ReadLines | Assets/Scripts/GameData/GameMap.cs:95-102 | no line read contains a break character |
| MapText.ReadLinesOfJoin | Assets/Scripts/GameData/GameMap.cs:86-102 | reading back lines joined with LF or CRLF endings gives the same lines |
| MapText.WriteRow | Assets/Scripts/GameData/GameMap.cs:105-111 | one line is written from column x until the line or the row ends; it succeeds iff every symbol read is known, and a failure names the first unknown symbol; slots not read are unchanged |
| MapText.WriteLines | Assets/Scripts/GameData/GameMap.cs:100-117 | the lines are written from the top row down; success iff every symbol reached is known; a failure names the first unknown symbol in reading order; every slot holds what the lines put there or its old value |
| MapText.ImportLines | Assets/Scripts/GameData/GameMap.cs:91-129 | on success every slot reached holds the type of its symbol and every other slot keeps its tile, and flags are rebuilt by `SetupBlocks`; an unknown symbol fails at the first one in reading order; a null slot left unread fails after the write loop |
| MapText.ExportedSymbolsReadBack | Assets/Scripts/GameData/GameMap.cs:76-111 | every slot is reached by the exported lines, and its symbol reads back as its own type |
| MapText.ExportImportRoundTrip | Assets/Scripts/GameData/GameMap.cs:76-129 | importing exported text, with either line ending, into any map of the same size succeeds, reproduces every slot's type and occupies exactly the Dirt and seed slots |
| History.NewHistoryStack | Assets/Scripts/Utility/HistoryStack.cs:12-15 | a new stack is empty and has the given capacity |
| History.Push | Assets/Scripts/Utility/HistoryStack.cs:17-31 | a push appends the item; on a full stack it first drops the oldest; on a full stack of capacity zero it fails, as `RemoveFirst` on an empty list throws |
| History.Pop | Assets/Scripts/Utility/HistoryStack.cs:33-42 | an empty stack returns no item and stays empty; otherwise the newest item is removed and returned |
| History.PushKeepsBound | Assets/Scripts/Utility/HistoryStack.cs:17-31 | a push on a stack within its bound succeeds, stays within the bound and grows by one unless full |
| History.PushThenPop | Assets/Scripts/Utility/HistoryStack.cs:17-42 | a pop undoes a push that did not overflow |
| History.PopAfterPush | Assets/Scripts/Utility/HistoryStack.cs:17-42 | the next pop returns the item just pushed, full or not |
| History.PushAll | Assets/Scripts/Utility/HistoryStack.cs:17-31 | pushes keep the stack within its bound and keep its capacity |
| History.PushAllKeepsNewest | Assets/Scripts/Utility/HistoryStack.cs:17-31 | after any pushes the stack holds exactly the newest `capacity` items seen, oldest first |
| GameStatus.SetGameOver | Assets/Scripts/Managers/GameplayManager.cs:509-520 | the state becomes GameOver and nothing else changes; when already GameOver the call changes nothing |
| GameStatus.SetLevelWon | Assets/Scripts/Managers/GameplayManager.cs:532-544 | the state becomes WonGame and nothing else changes; when already WonGame the call changes nothing |
| GameStatus.SetGameWon | Assets/Scripts/GameData/Root.cs:301-302 | the state becomes WonGame |
| GameStatus.EndTransitionsIdempotent | Assets/Scripts/Managers/GameplayManager.cs:509-544 | each end transition applied twice is the same as once |
| Roots.IsStuckMeaning | Assets/Scripts/GameData/Root.cs:98-127 | a root is stuck iff its direction is cardinal and the way ahead and both sideways directions are blocked |
| Roots.RedirectTable | Assets/Scripts/GameData/Root.cs:129-160 | a reflector redirects iff it is entered by one of the two sides it joins, and then sends the root out by the other; each reflector joins two sides, other tiles none |
| Roots.Redirected | Assets/Scripts/GameData/Root.cs:366-373 | off a reflector the root is unchanged; on one only its current direction changes |
| Roots.RedirectByTravel | Assets/Scripts/GameData/Root.cs:366-373 | on a reflector the new direction is the reflector's redirect of the side the root came in by |
| Roots.Occupy | Assets/Scripts/GameData/Root.cs:207-213 | the destination slot ends occupied; the slot left keeps its flag; no other slot changes and no type changes |
| Roots.Advance | Assets/Scripts/GameData/Root.cs:201-213 | the tip moves one cell in the current direction, which becomes the growth direction; the new slot is occupied; all other slots keep their tile |
| Roots.Settle | Assets/Scripts/GameData/Root.cs:273-307 | on Poison the game is over and the root stops; stuck off Water counts the root stuck and ends the game when every root is stuck; Water with the way ahead blocked counts an arrival and wins; otherwise only the latch is released |
| Roots.SettleAlive | Assets/Scripts/GameData/Root.cs:284-307 | the three non-Poison outcomes of a step, with the counters each one moves |
| Roots.Grow | Assets/Scripts/GameData/Root.cs:199-314 | a blocked direction only stops the root; otherwise the tip moves one cell, the new slot is occupied, only the two slots involved change, and the outcome is settled |
| Roots.GrowNeverReverses | Assets/Scripts/GameData/Root.cs:71-75 | a step that moves never goes straight back the way the root last grew |
| Roots.Update | Assets/Scripts/GameData/Root.cs:333-377 | nothing happens unless the game is played and no step is in flight; an idle root grows in the key's direction; a growing root is redirected and grows on |
| Roots.UpdateKeepsFramed | Assets/Scripts/GameData/Root.cs:333-377 | a frame keeps the map framed with the same layout and the tip off the border |
| Roots.FramedGrow | Assets/Scripts/GameData/Root.cs:199-213 | on a framed map a step from an interior tip stays in range and lands on an interior tip |
| Roots.Start | Assets/Scripts/GameData/Root.cs:316-326 | the root takes its base direction and stands on its seed, whose slot becomes occupied; no other slot changes |
| Roots.GrowKeepsBlocked | Assets/Scripts/GameData/Root.cs:199-314 | a step never frees an occupied slot |
| Roots.GrowKeepsRootOk | Assets/Scripts/GameData/Root.cs:199-314 | a step keeps the stepping root and every other well-placed root well placed |
| Roots.UnlistedEntryStops | Assets/Scripts/GameData/Root.cs:366-374 | a growing root entering a reflector by a side it does not join loses its direction and stops where it is |
| Roots.StuckRootStaysGrowing | Assets/Scripts/GameData/Root.cs:284-295 | a root that gets stuck while another root is free stays growing and latched, and every later frame leaves it unchanged |
| Roots.GrowCounts | Assets/Scripts/GameData/Root.cs:284-305 | a step raises at most one of the stuck and arrived counters, by at most one, and lowers neither |
| Roots.UpdateCounts | Assets/Scripts/GameData/Root.cs:333-377 | a frame changes only the game state and the two counters, and lowers neither counter |
| Gameplay.InitialDirection | Assets/Scripts/Managers/GameplayManager.cs:249-264 | RootUp starts North, RootDown South, RootLeft West and RootRight East; any other type gets South |
| Gameplay.SeedsPointApart | Assets/Scripts/Managers/GameplayManager.cs:250-264 | different seeds start in different directions |
| Gameplay.AddRoot | Assets/Scripts/Managers/GameplayManager.cs:245-274 | the new root stands at the given position on the given seed with that seed's direction, idle |
| Gameplay.ColumnSeeds | Assets/Scripts/Managers/GameplayManager.cs:227-239 | the scan of one column from row y up adds at most one root per row |
| Gameplay.ColumnSeedsExactly | Assets/Scripts/Managers/GameplayManager.cs:227-239 | one column adds exactly its seeds from row y up, in increasing row order |
| Gameplay.SeedRoots | Assets/Scripts/Managers/GameplayManager.cs:225-240 | the scan of the columns from x on adds at most one root per slot |
| Gameplay.SeedRootsExactly | Assets/Scripts/Managers/GameplayManager.cs:225-240 | the scan adds one root per seed, each standing on it, column by column and row by row, and misses none |
| Gameplay.StartAll | Assets/Scripts/GameData/Root.cs:316-326 | each new root starts on its seed, in list order; only the seed slots become occupied |
| Gameplay.PlaceRoots | Assets/Scripts/Managers/GameplayManager.cs:220-243 | the new roots are appended in scan order, one per seed, each ready on its seed; `totalRoots` is the root count; the seeds are occupied |
| Gameplay.ClearRoots | Assets/Scripts/Managers/GameplayManager.cs:195-218 | the root list and the records its roots would reset to become empty; nothing else changes |
| Gameplay.LoadActiveMap | Assets/Scripts/GameData/GameMap.cs:91-129 | the active map becomes what the import leaves; a successful import destroys every root (the `ClearRoots` call); a failed one keeps the roots and their saved records and reports the import's error; nothing else changes |
| Gameplay.LoadExportedLevel | Assets/Scripts/GameData/GameMap.cs:76-129 | loading the text exported from any map of the same size succeeds, destroys every root and reproduces the map's types with exactly the Dirt and seed slots occupied |
| Gameplay.RebuildBlocks | Assets/Scripts/Managers/GameplayManager.cs:381-382 | after `ClearBlocks` and `SetupBlocks` exactly the Dirt and seed slots are occupied, on a framed map of the same layout |
| Gameplay.ResetMap | Assets/Scripts/Managers/GameplayManager.cs:372-385 | counters and undo flags are cleared; occupancy is rebuilt from the types; one fresh root per seed in scan order; the history is untouched and the old roots' saved records are gone |
| Gameplay.ResetKeepsConsistent | Assets/Scripts/Managers/GameplayManager.cs:372-385 | a reset leaves a consistent game with the undo flags apart |
| Gameplay.TryGrow | Assets/Scripts/Managers/GameplayManager.cs:332-335 | a root already in a step is left alone; an idle root with a free way moves one cell that way; counters never fall |
| Gameplay.GrowAll | Assets/Scripts/Managers/GameplayManager.cs:332-335 | the first root tries to grow on the map and counters it is given, and the rest of the list then runs on what it left; the map stays framed, every tip interior and no counter falls |
| Gameplay.BackupLastRootHistory | Assets/Scripts/Managers/GameplayManager.cs:135-141 | the history is recorded, the stuck count saved, the map pushed so that the next pop returns it, and the roots saved |
| Gameplay.MakeRootsGrow | Assets/Scripts/Managers/GameplayManager.cs:310-337 | nothing happens unless some root can grow; otherwise the roots, the map and the counters are what the `TryGrow` pass leaves, run after the backup; before undo is used the move is backed up and undo offered; after undo is used the history is left alone; counters never fall; the game stays consistent |
| Gameplay.RestoreRootHistory | Assets/Scripts/Managers/GameplayManager.cs:143-148 | the stuck count returns to the saved one and the map to the popped snapshot, or stays when there is none |
| Gameplay.PerformUndo | Assets/Scripts/Managers/GameplayManager.cs:143-157 | undo becomes used and withdrawn; the stuck count is restored; the history is popped and the popped tiles become the map, which is left alone when the history is empty; no root is added or removed, each root with a saved record returns to it and any other root stays |
| Gameplay.ResetPositions | Assets/Scripts/Managers/GameplayManager.cs:297-308 | every active root, and only those, is reset: the k-th root becomes the k-th saved record when there is one and is otherwise kept |
| Gameplay.UndoInvertsBackup | Assets/Scripts/Managers/GameplayManager.cs:135-157 | an undo straight after a backup gives back the map, the roots and the stuck count, and the history when the stack had room |
| Gameplay.UndoAfterLoadBringsNoRoots | Assets/Scripts/Managers/GameplayManager.cs:297-308 | after a load has destroyed the roots, an undo brings none back |
| Gameplay.UndoPress | Assets/Scripts/Managers/GameplayManager.cs:159-163 | an undo happens iff undo is on offer and no root grows; otherwise nothing changes |
| Gameplay.UndoPressTwice | Assets/Scripts/Managers/GameplayManager.cs:159-163 | a second press straight after the first changes nothing |
| Gameplay.UndoKeepsConsistent | Assets/Scripts/Managers/GameplayManager.cs:150-163 | an undo press keeps the game consistent and the undo flags apart |
| Gameplay.Command | Assets/Scripts/Managers/GameplayManager.cs:624-647 | no key changes nothing; Escape pauses; the undo key is an `UndoPress` when undo is on offer and nothing otherwise; a cardinal arrow is `MakeRootsGrow` in that direction; the game stays consistent and the count of arrived roots never falls |
| Gameplay.Frame | Assets/Scripts/Managers/GameplayManager.cs:619-663 | while a root grows and the game is not paused the frame only records that; while playing with no root growing the key is handled by `Command`; while paused Escape resumes and nothing else happens; in any other state the frame only refreshes `rootsGrowing`, which always ends equal to whether some root grows; used undo stays used with its history |
| Gameplay.RootFrame | Assets/Scripts/GameData/Root.cs:333-377 | one root's frame changes only that root, the map and the counters, keeps the game consistent and lowers no counter |
| Gameplay.RunRoots | Assets/Scripts/GameData/Root.cs:333-377 | any run of root frames keeps the game consistent and the number of roots |
| Gameplay.RunRootsKeepsHistory | Assets/Scripts/GameData/Root.cs:333-377 | root frames never touch the history, the saved roots or the undo flags |
| Gameplay.UndoRevertsMove | Assets/Scripts/Managers/GameplayManager.cs:135-163 | after a move made before undo was used, and any root frames after it, the undo key in a manager frame that finds the game being played and no root growing restores the map, the roots and the stuck count of just before the move |
| Gameplay.MoveIsBackedUp | Assets/Scripts/Managers/GameplayManager.cs:321-331 | after a move made before undo was used, and any root frames, undo is on offer, the saved roots and stuck count are those of before the move and the next pop returns the map of before the move |
| Gameplay.UndoKeyFrame | Assets/Scripts/Managers/GameplayManager.cs:619-630 | the undo key, in a frame that finds the game being played, no root growing and undo on offer, uses up undo, restores the stuck count, puts back the popped map and returns each root to its saved record, so that the roots become the saved ones whenever every root has one |
| Gameplay.UsedUndoSticks | Assets/Scripts/Managers/GameplayManager.cs:321-331 | once undo is used no run of frames backs up again or offers undo again |
| Gameplay.Play | Assets/Scripts/Managers/GameplayManager.cs:619-663 | any run of manager frames keeps the game consistent and the undo flags apart |
| Gameplay.WinIsKept | Assets/Scripts/Managers/GameplayManager.cs:557-560 | a won level stays won through any run of manager frames |
| Gameplay.GrowingIgnoresInput | Assets/Scripts/Managers/GameplayManager.cs:621-624 | while some root grows and the game is not paused, every run of frames ignores all input |
| LevelSelect.Digits | Assets/Scripts/UI/LevelSelector.cs:31-41 | the digits of n, most significant first, no leading zero; none iff n is at most zero |
| LevelSelect.GetIntArray | Assets/Scripts/UI/LevelSelector.cs:31-41 | the loop returns the decimal digits of the number, which spell the number back; none iff it is at most zero |
| LevelSelect.DigitsValue | Assets/Scripts/UI/LevelSelector.cs:31-41 | the digits of a positive number spell that number |
| LevelSelect.ValueDigits | Assets/Scripts/UI/LevelSelector.cs:31-41 | every digit sequence with no leading zero is the digits of the number it spells |
| LevelSelect.TwoDigitLevels | Assets/Scripts/UI/LevelSelector.cs:31-41 | a level from 10 to 99 has its tens and units as digits |
| LevelSelect.UpdateLevel | Assets/Scripts/UI/LevelSelector.cs:43-57 | a level below one fails the digit lookup; levels 1 to 99 show tens and units; the level is saved |
| LevelSelect.ThreeDigitLevels | Assets/Scripts/UI/LevelSelector.cs:43-57 | levels 100 to 999 show their hundreds and tens |
| LevelSelect.HighestLevel | Assets/Scripts/UI/LevelSelector.cs:59-65 | the highest selectable level is the smaller of the unlocked and the last level |
| LevelSelect.RightPress | Assets/Scripts/UI/LevelSelector.cs:67-75 | the selection goes up by one, but never above the highest level, and is redrawn |
| LevelSelect.LeftPress | Assets/Scripts/UI/LevelSelector.cs:77-85 | the selection goes down by one, but never below level 1, and is redrawn |
| LevelSelect.Start | Assets/Scripts/UI/LevelSelector.cs:96-104 | a session level above 1 wins over the saved level; the unlocked count is loaded; the last level is 16 |
| LevelSelect.PressesKeepBounds | Assets/Scripts/UI/LevelSelector.cs:59-85 | presses keep the selection between 1 and the highest level, and every redraw succeeds |
| LevelSelect.PressesInverse | Assets/Scripts/UI/LevelSelector.cs:67-85 | away from the ends, left undoes right and right undoes left |
| LevelSelect.PressesStopAtEnds | Assets/Scripts/UI/LevelSelector.cs:67-85 | at the ends a press leaves the selection where it is |

## Left out

- Rendering: tilemap layers, sprites, the random choice of alternate Dirt,
  vertical and horizontal root sprites, animated tiles and the debug layer.
  None of them affects the game state.
- Audio, the pause view, tutorial images, the undo button animation and scene
  changes (`AdvanceLevel`, credits, menus): presentation only.
- The coroutine delays (`WaitForSeconds`): a `Grow` is one atomic step, and
  the five-second end-of-level reset is left to the caller (`ResetMap`).
  While a step is in flight no other step of the same root can start (the
  latch), which is the one effect of the delay the model keeps.
- Frame scheduling: Unity's order of `Update` calls is not modelled; any
  interleaving of root frames and manager frames can be written with
  `RunRoots` and `Play`.
- `LoadMapFile`, `SaveManager` and file I/O: the model starts from the text
  or the grid.
- `LevelDisplay`: it repeats the digit logic of `LevelSelector`.
- Maps with a zero size, and gameplay on maps whose border is not all Dirt:
  the code indexes a tip's neighbours without a bounds check, so the model
  asks for a framed map.
- `MaxHistory` is 1 and `previousMapTiles` is never given a value in the
  code; the model takes it as a stack of some capacity of at least
  one.
- C# `int` overflow: no counter or coordinate comes near 2^31, so integers are
  unbounded.
- `GameTile.config` and `occupied`: the predicates read `config.Type`, which
  is taken to equal `tileType`; `occupied` is never read.
- The `TileRedirectDirection` sprite choice in `Grow` and `Start`: it only
  picks a sprite.
- Gameplay.Command: its clause on used undo asks that the undo flags be apart
  (`UndoFlagsOk`), which every reachable state satisfies; with both flags set
  the undo key would pop the history.
- Gameplay.Frame: its clause on used undo asks for `UndoFlagsOk`, for the same
  reason as `Command`.
- Gameplay.UndoKeepsConsistent: it shows the undo flags stay apart only when
  they were apart before.
- GameStatus.SetGameWon: only the new state is stated, since the member
  stands for one the code calls but does not define.
- MapText.ExportMapData: requires a map with no null slot. The code throws a
  null dereference at the first null slot it reads, and that exception is not
  modelled. Its properties are stated on `ExportLines`, `ReadLinesOfJoin` and
  `ExportImportRoundTrip`.
- MapText.ImportMapData: carries no contract of its own; its properties are
  stated on `ImportLines`, `LoadActiveMap` and `ExportImportRoundTrip`.
- Maps.UpdateMapTile: requires a slot inside the map. The code throws an index
  exception for a cell outside it, which the level editor's mouse handling
  can pass; the editor is not part of this model.
