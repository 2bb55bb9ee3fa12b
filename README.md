# env0.adventure story engine, in Dafny

A model of the story engine of env0.adventure, a text-adventure interpreter. A story
is a list of scenes. Each scene has numbered choices, and each choice has flag
requirements and a list of effects (`SetFlag`, `ClearFlag`, `GotoScene`). The engine
has four parts:

- **Scene repository** (`Repository.dfy`). The scenes are indexed by id once, at
  construction. `BuildIndex` is `ToDictionary`: a loop that fails on a repeated id.
  `SceneRepository` is a class whose fields are `const`, so nothing changes it after
  construction. `Get` returns the stored scene or fails with "Scene not found".
  Construction has two forms. `FromScenes` is the constructor in
  `Engine/SceneRespository.cs`. `FromStory` is the story form that `Program.cs` and
  the tests use. It also rejects goto targets that are not scenes of the story and
  repeated choice numbers within a scene, and it exposes `StartSceneId`.
- **Choice evaluation** (`Evaluator.dfy`). `IsEnabled` is a pure function of a
  choice and the player's flags. It returns the verdict and the optional reason.
- **Effect execution and game state** (`Runtime.dfy`, `Executor.dfy`). `GameState`
  is a class with the current scene id and the flag set. `Execute` is a loop over the
  effects that updates the object in place. It is proved against `ApplyEffects`, the
  left-to-right fold over state values, and the lemmas about that fold are proved
  against reference definitions that read the effect list from its end.
- **The game loop's turn** (`Game.dfy`). `Step` is one pass of the loop in
  `Program.cs` after the scene lookup. `Menu` is the ordered choice list shown before
  the prompt. `Play` runs a bounded number of turns.

`Scenarios.dfy` states what the unit tests assert, as lemmas and small client methods.

Every error the engine raises is a `Failure`/`Fail` value carrying an `Error`
variant. In C#, `Get`, the story checks and the effect executor throw
`InvalidOperationException`, and `ToDictionary` throws `ArgumentException` on a
repeated scene id.

Two modelling decisions:

- Neither `SceneRepository` nor its tests check that the start scene exists, so
  `FromStory` does not check it. `Game.PlayNeverLosesScene` takes it as a hypothesis.
- `EffectType` is a C# enum, which can hold any integer, and a test casts
  `(EffectType)999`. So the model has `EffectType.Undefined(code)`, and executing such
  an effect is an error.

## Model

| member | source | states |
|---|---|---|
| `Repository.BuildIndex` | Engine/SceneRespository.cs:11-14 | succeeds exactly when the scene ids are distinct, and then yields `IndexOf(scenes)`; on a repeated id it fails with `DuplicateSceneId` naming an id that two scenes share (no last-wins) |
| `Repository.IndexKeys` | Engine/SceneRespository.cs:11-14 | the index's key set is exactly the set of input scene ids |
| `Repository.IndexStoresOwnId` | Engine/SceneRespository.cs:12-13 | every scene in the index is stored under its own `Id` |
| `Repository.IndexRetrievesEach` | Engine/SceneRespository.cs:11-14 | with distinct ids, every input scene is retrieved by its own id |
| `Repository.SceneRepository.FromScenes` | Engine/SceneRespository.cs:9-15 | the repository holds `IndexOf(scenes)` and is valid (each scene under its own id) exactly when the ids are distinct; otherwise it fails with a real duplicate id |
| `Repository.SceneRepository.Get` | Engine/SceneRespository.cs:17-23 | succeeds exactly when the id is a key, returning the stored scene, whose `Id` is the requested id in a valid repository; otherwise fails with `SceneNotFound(id)`; it only reads `const` fields |
| `Repository.SceneRepository.FromStory` | env0.adventure.Tests/SceneRepositoryTests.cs:21-35 | succeeds exactly when the story is `WellFormed` (distinct ids, every goto target a scene, distinct choice numbers per scene), with the index of the scenes and `StartSceneId` equal to the story's; a failure names a defect the story really has |
| `Repository.MissingTarget` | env0.adventure.Tests/SceneRepositoryTests.cs:27-36 | finds nothing exactly when every `GotoScene` of every choice of every scene targets a known id; otherwise returns a scene and a target that is unknown and occurs in a goto of that scene |
| `Repository.DuplicateNumber` | env0.adventure.Tests/SceneRepositoryTests.cs:38-65 | finds nothing exactly when the choice numbers are pairwise distinct; otherwise returns a number carried by two choices |
| `Repository.SceneWithDuplicateNumber` | env0.adventure.Tests/SceneRepositoryTests.cs:38-65 | finds nothing exactly when every scene's choice numbers are distinct; otherwise names a scene with a repeated number |
| `Repository.CheckGraph` | env0.adventure.Tests/SceneRepositoryTests.cs:27-65 | passes exactly when all goto targets resolve and choice numbers are distinct per scene; a failure is a real defect |
| `Scenarios.CreateScene` | env0.adventure.Tests/SceneRepositoryTests.cs:74-105 | the tests' scene builder: an end scene has no choices, any other has choice 1 going to the given scene or to itself |
| `Scenarios.ValidStoryClient` | env0.adventure.Tests/SceneRepositoryTests.cs:21-24 | through the repository object: `FromStory` succeeds, `StartSceneId` is "start", and `Get("end")` returns a scene with `Id` "end" |
| `Scenarios.ValidStoryIsAccepted` | env0.adventure.Tests/SceneRepositoryTests.cs:13-25 | the start/end story is accepted, including an end scene with no choices, and `"end"` is found with `Id == "end"` |
| `Scenarios.MissingGotoTargetIsRejected` | env0.adventure.Tests/SceneRepositoryTests.cs:27-36 | a goto to a missing scene makes the story ill-formed |
| `Scenarios.DuplicateChoiceNumbersAreRejected` | env0.adventure.Tests/SceneRepositoryTests.cs:38-65 | two choices numbered 1 in one scene make the story ill-formed |
| `Scenarios.DuplicateNumberStoryAlsoMissesTarget` | env0.adventure.Tests/SceneRepositoryTests.cs:51-57 | the duplicate-number test's story also has gotos to "end", which is not a scene, so it is rejected for that reason too |
| `Scenarios.DuplicateChoiceNumbersAloneAreRejected` | env0.adventure.Tests/SceneRepositoryTests.cs:38-65 | with all gotos resolved, two choices numbered 1 are still rejected, and the check names scene "start" and number 1 |
| `Scenarios.SelfGotoIsAccepted` | env0.adventure.Tests/SceneRepositoryTests.cs:83-96 | a scene whose goto targets its own id is accepted |
| `Evaluator.IsEnabled` | Program.cs:58 | enabled exactly when every `RequiresAll` flag is set and no `RequiresNone` flag is set (both directions); enabled implies no reason; disabled gives the configured reason or none, never a composed message |
| `Evaluator.AllSet` | env0.adventure.Tests/ChoiceAndEffectTests.cs:15-32 | true exactly when every listed flag is set |
| `Evaluator.NoneSet` | env0.adventure.Tests/ChoiceAndEffectTests.cs:54-73 | true exactly when no listed flag is set |
| `Evaluator.NoRequirementsAlwaysEnabled` | env0.adventure.Tests/ChoiceAndEffectTests.cs:34-52 | a choice without requirements is enabled with no reason |
| `Evaluator.MissingRequiredFlagDisables` | env0.adventure.Tests/ChoiceAndEffectTests.cs:15-32 | one missing required flag disables the choice, with the configured reason |
| `Evaluator.ForbiddenFlagDisables` | env0.adventure.Tests/ChoiceAndEffectTests.cs:54-73 | one set forbidden flag disables the choice, with the configured reason |
| `Scenarios.RequiredFlagMissing` | env0.adventure.Tests/ChoiceAndEffectTests.cs:15-32 | the test's choice is disabled with "You need the key first." |
| `Scenarios.RequirementsMet` | env0.adventure.Tests/ChoiceAndEffectTests.cs:34-52 | the test's choice is enabled with a null reason |
| `Scenarios.ForbiddenFlagPresent` | env0.adventure.Tests/ChoiceAndEffectTests.cs:54-73 | the test's choice is disabled with "The alarm is still on." |
| `Scenarios.BothRequirementsFail` | env0.adventure.Tests/ChoiceAndEffectTests.cs:75-94 | both requirements failing with no reason configured: disabled, reason null |
| `Runtime.GameState.constructor` | Program.cs:37 | a new state is at the given start scene with no flag set |
| `Runtime.GameState.HasFlag` | env0.adventure.Tests/ChoiceAndEffectTests.cs:108 | a flag is true exactly when it is in the flag set |
| `Runtime.GameState.SetFlag` | env0.adventure.Tests/ChoiceAndEffectTests.cs:38 | the flag becomes true, other flags and the scene are unchanged |
| `Runtime.GameState.ClearFlag` | env0.adventure.Tests/ChoiceAndEffectTests.cs:148-162 | the flag becomes false, other flags and the scene are unchanged |
| `Runtime.GameState.SetCurrentScene` | env0.adventure.Tests/ChoiceAndEffectTests.cs:109 | the current scene becomes the given id and the flags are unchanged |
| `Executor.ApplyEffect` | env0.adventure.Tests/ChoiceAndEffectTests.cs:112-146 | one effect fails exactly when it is malformed (unknown type, blank `SetFlag` or `GotoScene` value), with that effect's error |
| `Executor.ApplyEffects` | env0.adventure.Tests/ChoiceAndEffectTests.cs:96-110 | the specification of `Execute`: effects applied left to right, each to the state the previous one left, stopping at the first error |
| `Executor.Execute` | Program.cs:97 | runs the effects on the object in place; succeeds exactly when `ApplyEffects` does, and then the new state is what `ApplyEffects` gives from the old one; a failure carries its error |
| `Executor.ApplyEffectsAppend` | env0.adventure.Tests/ChoiceAndEffectTests.cs:96-110 | running `a + b` is running `a` and then `b` on the state `a` left: effects apply in list order |
| `Executor.FailsAtFirstMalformed` | env0.adventure.Tests/ChoiceAndEffectTests.cs:112-146 | a run fails exactly when some effect is malformed, and then with the error of the first malformed one |
| `Executor.FinalSceneIsLastGoto` | env0.adventure.Tests/ChoiceAndEffectTests.cs:96-110 | after a successful run the scene is the target of the last `GotoScene`, or unchanged when there is none |
| `Executor.FinalFlagsAreLastWrite` | env0.adventure.Tests/ChoiceAndEffectTests.cs:148-162 | after a successful run a flag is true exactly when the last `SetFlag`/`ClearFlag` naming it is a `SetFlag`, or, when none names it, when it was true before |
| `Executor.LastGotoIsStartOrTarget` | Program.cs:97 | the scene after a run is the start scene or a `GotoScene` target of the list |
| `Scenarios.SetFlagThenGoto` | env0.adventure.Tests/ChoiceAndEffectTests.cs:96-110 | `[SetFlag foundKey, GotoScene hallway]` yields scene "hallway" with flag "foundKey" |
| `Scenarios.SetFlagThenGotoClient` | env0.adventure.Tests/ChoiceAndEffectTests.cs:96-110 | through `Execute` on a `GameState` object: the run passes, `HasFlag("foundKey")` holds and the scene is "hallway" |
| `Scenarios.ClearFlagClient` | env0.adventure.Tests/ChoiceAndEffectTests.cs:148-162 | through `Execute` on a `GameState` object: clearing a set flag passes and `HasFlag("doorOpen")` is false afterwards |
| `Scenarios.UnknownTypeFails` | env0.adventure.Tests/ChoiceAndEffectTests.cs:112-122 | effect type 999 fails with `UnknownEffectType(999)` |
| `Scenarios.BlankValuesFail` | env0.adventure.Tests/ChoiceAndEffectTests.cs:124-146 | a `" "` scene id or flag name fails |
| `Game.SortByNumber` | Program.cs:56 | the result is in ascending `Number` order, is a permutation of the choices, and keeps the choices of each number in their original order (the stability of `OrderBy`) |
| `Game.Insert` | Program.cs:56 | inserting into a sorted list keeps it sorted, adds exactly the one choice, and puts it before the choices already there with the same number |
| `Game.Menu` | Program.cs:56-65 | one line per element of the choice list (the lines are a permutation of the annotated choices), in ascending number order, lines of equal number in the order of their choices; every line is a choice annotated with its `IsEnabled` verdict and reason |
| `Game.Annotate` | Program.cs:58-64 | a menu line: the choice's number and text with the `IsEnabled` verdict and reason |
| `Game.AnnotatePermutation` | Program.cs:56-65 | choice lists that are permutations of each other give menu lines that are permutations of each other |
| `Game.AnnotateThenFilter` | Program.cs:56-65 | the lines of one number are the annotations of the choices of that number, in order |
| `Game.FindChoice` | Program.cs:80 | nothing exactly when no choice carries the number; otherwise the position of the FIRST choice carrying it |
| `Game.Step` | Program.cs:52-97 | end scene ends the turn (and only then) before input; non-numeric input keeps the state with "Invalid input"; an unknown number keeps it with "No such option."; a disabled first match keeps it with its reason or "That option is not available."; an enabled one gives exactly `ApplyEffects(choice.Effects, state)` or its error; any state change comes from an enabled choice with that number |
| `Game.RejectedTurnKeepsState` | Program.cs:88-94 | choosing a number whose choices are all disabled leaves the state unchanged |
| `Game.StepStaysInGraph` | Program.cs:97 | in a story whose goto targets resolve, a turn from a known scene continues only into a known scene |
| `Game.Play` | Program.cs:44-101 | turns played one per input, each a lookup and a `Step`; when the inputs run out, the state reached is at a scene that was found and is not an end scene |
| `Game.PlayNeverLosesScene` | Program.cs:44-46 | in a well-formed story, starting from a known scene, no sequence of turns fails with "Scene not found" |
| `Scenarios.HallwayPlaythrough` | Program.cs:44-97 | the hallway story: choice 1 is refused at first; after choice 2 sets `doorUnlocked`, choice 1 leads to the end scene and the game ends |

## Left out

- Loading the story from JSON and the deserializer options (`Program.cs`): file I/O and a foreign library. The model takes an already-parsed `Story`.
- Console output and prompting: the turn returns a `Message` value instead of printed text. The text of a scene and of the choices is carried but not formatted.
- `int.TryParse`: the parsed input is an `Option<int>`, and the parser itself is not modelled.
- The unbounded `while (true)` loop: `Play` runs one turn per input of a finite input list.
- The source of `ChoiceEvaluator`, `EffectExecutor`, `GameState` and the story form of `SceneRepository` is not part of this model. Their behaviour is taken only from the unit tests and from how `Program.cs` uses them.
- Executor.Execute: on failure its contract says nothing about the state. The tests do not show whether effects applied before the failing one are rolled back.
- Executor.ApplyEffect: a blank `ClearFlag` value is accepted, and the flag is simply removed. No test shows whether `EffectExecutor` rejects it. This choice is part of two contracts: `ApplyEffect`'s "fails exactly when malformed" and `Executor.FailsAtFirstMalformed`'s "fails exactly when some effect is malformed" both count a blank `ClearFlag` as well formed. For effect lists without a blank `ClearFlag`, neither contract depends on the choice.
- Repository.SceneRepository.FromStory: the order in which it reports defects (duplicate ids, then goto targets, then choice numbers) is a modelling choice. The contract only promises that the reported defect is real. The existence of the start scene is not checked (see above).
- A non-end scene without choices is accepted; the repository does not reject it.
- `String.IsNullOrWhiteSpace`: `IsBlank` recognises the ASCII white-space characters, NEL and NO-BREAK SPACE. It does not recognise the other Unicode space separators.
- C# `null`: a null effect value or scene id is not representable. An absent `RequiresAll`/`RequiresNone` list is an empty sequence.
- Choice numbers and input numbers are unbounded integers. The 32-bit range of C# `int` only matters to the parser, which is not modelled.
- Concurrent playthroughs sharing one repository: the repository's fields are `const`, but threads are not modelled.
