/** The player's run-time state (`env0.adventure.Runtime.GameState`): the current
    scene id and the set of flags that are true. */
module Runtime {

  /** The value of a game state at one moment. A flag is true exactly when it is in `flags`. */
  datatype PlayerState = PlayerState(currentSceneId: string, flags: set<string>)

  /** The mutable game state object the game loop and the effect executor share. */
  class GameState {
    var currentSceneId: string
    var flags: set<string>

    /** A new playthrough: at `startSceneId`, with no flag set. */
    constructor (startSceneId: string)
      ensures currentSceneId == startSceneId && flags == {}
    {
      currentSceneId := startSceneId;
      flags := {};
    }

    /** The state's current value. */
    function Snapshot(): PlayerState
      reads this
    {
      PlayerState(currentSceneId, flags)
    }

    predicate HasFlag(name: string)
      reads this
    {
      name in flags
    }

    /** Makes `name` true; nothing else changes. */
    method SetFlag(name: string)
      modifies this
      ensures HasFlag(name)
      ensures flags == old(flags) + {name} && currentSceneId == old(currentSceneId)
    {
      flags := flags + {name};
    }

    /** Makes `name` false (a no-op when it is already false); nothing else changes. */
    method ClearFlag(name: string)
      modifies this
      ensures !HasFlag(name)
      ensures flags == old(flags) - {name} && currentSceneId == old(currentSceneId)
    {
      flags := flags - {name};
    }

    /** Moves the player to `sceneId`; the flags do not change. */
    method SetCurrentScene(sceneId: string)
      modifies this
      ensures currentSceneId == sceneId && flags == old(flags)
    {
      currentSceneId := sceneId;
    }
  }
}
