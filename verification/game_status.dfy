/** The scalar state of `GameplayManager` and its win/lose bookkeeping
    (Assets/Scripts/Managers/GameplayManager.cs). */
module GameStatus {

  /** `GameState`. */
  datatype GameState = MainMenu | LevelEditing | Playing | Paused | GameOver | WonGame | Leaving

  /** The fields of `GameplayManager` the gameplay reads and writes (C# ints,
      taken as unbounded: no counter comes near 2^31). */
  datatype Status = Status(
    state: GameState,
    totalRoots: int,
    totalRootsStuck: int,
    prevTotalRootsStuck: int,
    totalRootsAtDestination: int,
    movesCounter: int,
    usedUndo: bool,
    undoAvailable: bool,
    historyRecorded: bool,
    rootsGrowing: bool)

  /** `CheckIfWon`. */
  predicate CheckIfWon(s: Status) {
    s.totalRootsAtDestination > 0
  }

  /** `CheckIfGameOver`. */
  predicate CheckIfGameOver(s: Status) {
    s.totalRootsStuck == s.totalRoots
  }

  /** `SetGameOver` without its text, sound and the five-second reset: the
      state becomes GameOver; a repeat call returns at once. */
  function SetGameOver(s: Status): (r: Status)
    ensures r.state == GameOver
    ensures r.(state := s.state) == s
    ensures s.state == GameOver ==> r == s
  {
    if s.state == GameOver then s else s.(state := GameOver)
  }

  /** `SetLevelWon` without its text, sound and the level advance: the state
      becomes WonGame; a repeat call returns at once. */
  function SetLevelWon(s: Status): (r: Status)
    ensures r.state == WonGame
    ensures r.(state := s.state) == s
    ensures s.state == WonGame ==> r == s
  {
    if s.state == WonGame then s else s.(state := WonGame)
  }

  /** Assumption: `SetGameWon`, which Root.cs calls but GameplayManager.cs does
      not declare, acts as `SetLevelWon`. */
  function SetGameWon(s: Status): (r: Status)
    ensures r.state == WonGame
  {
    SetLevelWon(s)
  }

  /** Both transitions are idempotent. */
  lemma EndTransitionsIdempotent(s: Status)
    ensures SetGameOver(SetGameOver(s)) == SetGameOver(s)
    ensures SetLevelWon(SetLevelWon(s)) == SetLevelWon(s)
  {
  }
}
