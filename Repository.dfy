/** The scene repository (`SceneRepository`): the scenes indexed by id once, at
    construction, and the load-time validation of the story graph. */
module Repository {
  import opened Wrappers
  import opened Model

  // ---------------------------------------------------------------------------
  // The index

  /** No two scenes share an id. */
  predicate DistinctIds(scenes: seq<Scene>) {
    forall i, j :: 0 <= i < j < |scenes| ==> scenes[i].id != scenes[j].id
  }

  /** The ids of the scenes. */
  function Ids(scenes: seq<Scene>): set<string> {
    set s | s in scenes :: s.id
  }

  /** Every scene stored under its own id, added in list order. */
  function IndexOf(scenes: seq<Scene>): map<string, Scene> {
    if scenes == [] then map[]
    else IndexOf(scenes[..|scenes| - 1])[scenes[|scenes| - 1].id := scenes[|scenes| - 1]]
  }

  /** The index's key set is exactly the set of scene ids. */
  lemma {:induction false} IndexKeys(scenes: seq<Scene>)
    ensures IndexOf(scenes).Keys == Ids(scenes)
  {
    if scenes != [] {
      var init, last := scenes[..|scenes| - 1], scenes[|scenes| - 1];
      IndexKeys(init);
      assert scenes == init + [last];
      assert Ids(scenes) == Ids(init) + {last.id};
    }
  }

  /** Every entry of the index is stored under its own id. */
  lemma {:induction false} IndexStoresOwnId(scenes: seq<Scene>)
    ensures forall id :: id in IndexOf(scenes) ==> IndexOf(scenes)[id].id == id
  {
    if scenes != [] {
      IndexStoresOwnId(scenes[..|scenes| - 1]);
    }
  }

  /** With distinct ids, every scene of the list is retrieved by its own id. */
  lemma {:induction false} IndexRetrievesEach(scenes: seq<Scene>)
    requires DistinctIds(scenes)
    ensures forall i :: 0 <= i < |scenes| ==> scenes[i].id in IndexOf(scenes) && IndexOf(scenes)[scenes[i].id] == scenes[i]
  {
    if scenes != [] {
      var init := scenes[..|scenes| - 1];
      assert DistinctIds(init);
      IndexRetrievesEach(init);
    }
  }

  /** `ToDictionary`: the scenes added one by one; a repeated id is an error
      (there is no last-wins). */
  method BuildIndex(scenes: seq<Scene>) returns (r: Result<map<string, Scene>, Error>)
    ensures r.Success? <==> DistinctIds(scenes)
    ensures r.Success? ==> r.value == IndexOf(scenes)
    ensures r.Failure? ==> IsDefect(scenes, r.error) && r.error.DuplicateSceneId?
  {
    var index := map[];
    var i := 0;
    while i < |scenes|
      invariant 0 <= i <= |scenes|
      invariant DistinctIds(scenes[..i])
      invariant index == IndexOf(scenes[..i])
    {
      IndexKeys(scenes[..i]);
      assert scenes[..i + 1][..i] == scenes[..i];
      if scenes[i].id in index {
        var j :| 0 <= j < i && scenes[j].id == scenes[i].id;
        return Failure(DuplicateSceneId(scenes[i].id));
      }
      index := index[scenes[i].id := scenes[i]];
      i := i + 1;
    }
    assert scenes[..i] == scenes;
    return Success(index);
  }

  // ---------------------------------------------------------------------------
  // The validated story graph

  /** Every `GotoScene` effect of every choice of every scene targets a scene in `ids`. */
  predicate GotosResolve(scenes: seq<Scene>, ids: set<string>) {
    forall s, c, e :: s in scenes && c in s.choices && e in c.effects && e.kind == GotoScene ==> e.value in ids
  }

  /** No two choices of the list share a number. */
  predicate NumbersDistinct(choices: seq<Choice>) {
    forall i, j :: 0 <= i < j < |choices| ==> choices[i].number != choices[j].number
  }

  /** Within every scene, no two choices share a number. */
  predicate AllNumbersDistinct(scenes: seq<Scene>) {
    forall s :: s in scenes ==> NumbersDistinct(s.choices)
  }

  /** A story graph the repository accepts: ids unique, every goto target a scene
      of the story (a scene may target itself), choice numbers unique per scene. */
  predicate WellFormed(scenes: seq<Scene>) {
    DistinctIds(scenes) && GotosResolve(scenes, Ids(scenes)) && AllNumbersDistinct(scenes)
  }

  /** `err` names a defect the scene list really has. */
  ghost predicate IsDefect(scenes: seq<Scene>, err: Error) {
    match err
    case DuplicateSceneId(id) =>
      exists i, j :: 0 <= i < j < |scenes| && scenes[i].id == id && scenes[j].id == id
    case MissingGotoTarget(sceneId, target) =>
      target !in Ids(scenes) &&
      exists s, c :: s in scenes && s.id == sceneId && c in s.choices && Effect(GotoScene, target) in c.effects
    case DuplicateChoiceNumber(sceneId, n) =>
      exists s :: s in scenes && s.id == sceneId && HasDuplicate(s.choices, n)
    case _ => false
  }

  /** Two choices of the list carry number `n`. */
  ghost predicate HasDuplicate(choices: seq<Choice>, n: int) {
    exists i, j :: 0 <= i < j < |choices| && choices[i].number == n && choices[j].number == n
  }

  /** The first `GotoScene` target of the list that is not in `ids`. */
  function MissingInEffects(effects: seq<Effect>, ids: set<string>): (r: Option<string>)
    ensures r.None? <==> forall e :: e in effects && e.kind == GotoScene ==> e.value in ids
    ensures r.Some? ==> r.value !in ids && Effect(GotoScene, r.value) in effects
  {
    if effects == [] then None
    else if effects[0].kind == GotoScene && effects[0].value !in ids then Some(effects[0].value)
    else MissingInEffects(effects[1..], ids)
  }

  /** The first unresolved `GotoScene` target among the choices' effects. */
  function MissingInChoices(choices: seq<Choice>, ids: set<string>): (r: Option<string>)
    ensures r.None? <==> forall c, e :: c in choices && e in c.effects && e.kind == GotoScene ==> e.value in ids
    ensures r.Some? ==> r.value !in ids && exists c :: c in choices && Effect(GotoScene, r.value) in c.effects
  {
    if choices == [] then None
    else
      match MissingInEffects(choices[0].effects, ids)
      case Some(t) => Some(t)
      case None => MissingInChoices(choices[1..], ids)
  }

  /** The first scene (by id) with an unresolved `GotoScene` target, and that target. */
  function MissingTarget(scenes: seq<Scene>, ids: set<string>): (r: Option<(string, string)>)
    ensures r.None? <==> GotosResolve(scenes, ids)
    ensures r.Some? ==> r.value.1 !in ids
    ensures r.Some? ==>
      exists s, c :: s in scenes && s.id == r.value.0 && c in s.choices && Effect(GotoScene, r.value.1) in c.effects
  {
    if scenes == [] then None
    else
      match MissingInChoices(scenes[0].choices, ids)
      case Some(t) => Some((scenes[0].id, t))
      case None => MissingTarget(scenes[1..], ids)
  }

  /** A choice number that occurs twice in the list, the first such from the front. */
  function DuplicateNumber(choices: seq<Choice>): (r: Option<int>)
    ensures r.None? <==> NumbersDistinct(choices)
    ensures r.Some? ==> HasDuplicate(choices, r.value)
  {
    if choices == [] then None
    else if exists j :: 1 <= j < |choices| && choices[j].number == choices[0].number then Some(choices[0].number)
    else
      var r := DuplicateNumber(choices[1..]);
      if r.Some? then DuplicateInTail(choices, r.value); r else r
  }

  lemma DuplicateInTail(choices: seq<Choice>, n: int)
    requires choices != [] && HasDuplicate(choices[1..], n)
    ensures HasDuplicate(choices, n)
  {
  }

  /** The first scene (by id) in which two choices share a number, and that number. */
  function SceneWithDuplicateNumber(scenes: seq<Scene>): (r: Option<(string, int)>)
    ensures r.None? <==> AllNumbersDistinct(scenes)
    ensures r.Some? ==> exists s :: s in scenes && s.id == r.value.0 && HasDuplicate(s.choices, r.value.1)
  {
    if scenes == [] then None
    else
      match DuplicateNumber(scenes[0].choices)
      case Some(n) => Some((scenes[0].id, n))
      case None => SceneWithDuplicateNumber(scenes[1..])
  }

  /** The graph checks run after indexing: goto targets first, then choice numbers.
      It passes exactly when both hold, and otherwise names a real defect. */
  function CheckGraph(scenes: seq<Scene>): (r: Outcome<Error>)
    ensures r.Pass? <==> GotosResolve(scenes, Ids(scenes)) && AllNumbersDistinct(scenes)
    ensures r.Fail? ==> IsDefect(scenes, r.error)
  {
    match MissingTarget(scenes, Ids(scenes))
    case Some((sceneId, target)) => Fail(MissingGotoTarget(sceneId, target))
    case None =>
      match SceneWithDuplicateNumber(scenes)
      case Some((sceneId, n)) => Fail(DuplicateChoiceNumber(sceneId, n))
      case None => Pass
  }

  // ---------------------------------------------------------------------------
  // The repository object

  /** The scene index, fixed once built (`_scenes` is `readonly`, so both fields
      are `const`): no operation changes a repository after construction. */
  class SceneRepository {
    const scenes: map<string, Scene>
    /** `StartSceneId`, which only the story form of construction has. */
    const startSceneId: Option<string>

    /** Every scene is stored under its own id. */
    ghost predicate Valid() {
      forall id :: id in scenes ==> scenes[id].id == id
    }

    constructor FromIndex(index: map<string, Scene>, start: Option<string>)
      requires forall id :: id in index ==> index[id].id == id
      ensures Valid() && scenes == index && startSceneId == start
    {
      scenes := index;
      startSceneId := start;
    }

    /** `new SceneRepository(scenes)`: the index of the scenes, or an error for a repeated id. */
    static method FromScenes(defs: seq<Scene>) returns (r: Result<SceneRepository, Error>)
      ensures r.Success? <==> DistinctIds(defs)
      ensures r.Success? ==> fresh(r.value) && r.value.Valid() && r.value.scenes == IndexOf(defs)
      ensures r.Success? ==> r.value.startSceneId == None
      ensures r.Failure? ==> r.error.DuplicateSceneId? && IsDefect(defs, r.error)
    {
      var index := BuildIndex(defs);
      if index.Failure? {
        return Failure(index.error);
      }
      IndexStoresOwnId(defs);
      var repo := new SceneRepository.FromIndex(index.value, None);
      return Success(repo);
    }

    /** `new SceneRepository(story)`: the index, then the graph checks; a story
        accepted here is well formed, a story rejected here names a real defect. */
    static method FromStory(story: Story) returns (r: Result<SceneRepository, Error>)
      ensures r.Success? <==> WellFormed(story.scenes)
      ensures r.Success? ==> fresh(r.value) && r.value.Valid() && r.value.scenes == IndexOf(story.scenes)
      ensures r.Success? ==> r.value.startSceneId == Some(story.startSceneId)
      ensures r.Failure? ==> IsDefect(story.scenes, r.error)
    {
      var index := BuildIndex(story.scenes);
      if index.Failure? {
        return Failure(index.error);
      }
      var check := CheckGraph(story.scenes);
      if check.Fail? {
        return Failure(check.error);
      }
      IndexStoresOwnId(story.scenes);
      var repo := new SceneRepository.FromIndex(index.value, Some(story.startSceneId));
      return Success(repo);
    }

    /** The scene stored under `sceneId`, or "Scene not found". In a valid
        repository the scene returned has `sceneId` as its id. */
    function Get(sceneId: string): (r: Result<Scene, Error>)
      ensures r.Success? <==> sceneId in scenes
      ensures r.Success? ==> r.value == scenes[sceneId]
      ensures r.Failure? ==> r.error == SceneNotFound(sceneId)
      ensures Valid() && r.Success? ==> r.value.id == sceneId
    {
      if sceneId in scenes then Success(scenes[sceneId]) else Failure(SceneNotFound(sceneId))
    }
  }
}
