/** The unit tests' scenarios, stated over the model: each lemma or client method
    proves what the corresponding unit test asserts. */
module Scenarios {
  import opened Wrappers
  import opened Model
  import opened Runtime
  import opened Evaluator
  import opened Executor
  import opened Repository
  import opened Game

  // ---------------------------------------------------------------------------
  // Repository construction

  /** The tests' scene builder: an end scene has no choices; any other scene has a
      single choice 1 whose one effect goes to `gotoScene`, or back to the scene itself. */
  function CreateScene(id: string, isEnd: bool, choiceText: Option<string>, gotoScene: Option<string>): Scene {
    Scene(id, id, isEnd,
      if isEnd then []
      else [Choice(1, choiceText.GetOr("Continue"), [], [], None, [Effect(GotoScene, gotoScene.GetOr(id))])])
  }

  function ValidStory(): Story {
    Story("start", [CreateScene("start", false, Some("Go"), Some("end")), CreateScene("end", true, None, None)])
  }

  /** A start scene going to an end scene without choices is accepted, and the end
      scene is found under its id. */
  lemma ValidStoryIsAccepted()
    ensures WellFormed(ValidStory().scenes)
    ensures "end" in IndexOf(ValidStory().scenes) && IndexOf(ValidStory().scenes)["end"].id == "end"
  {
  }

  /** The same, through the repository object: construction succeeds, `StartSceneId`
      is the story's, and `Get("end")` returns the scene with id "end". */
  method ValidStoryClient() {
    ValidStoryIsAccepted();
    var r := SceneRepository.FromStory(ValidStory());
    assert r.Success?;
    var repo := r.value;
    assert repo.startSceneId == Some("start");
    var found := repo.Get("end");
    assert found.Success? && found.value.id == "end";
  }

  /** A goto to a scene the story does not have is rejected. */
  lemma MissingGotoTargetIsRejected()
    ensures !WellFormed([CreateScene("start", false, Some("Go"), Some("missing"))])
  {
  }

  /** Two choices numbered 1 in one scene are rejected. */
  lemma DuplicateChoiceNumbersAreRejected()
    ensures !WellFormed([Scene("start", "start", false, [
        Choice(1, "One", [], [], None, [Effect(GotoScene, "end")]),
        Choice(1, "Duplicate", [], [], None, [Effect(GotoScene, "end")])])])
  {
  }

  /** The story of the duplicate-number test is also rejected for a second reason:
      its gotos target "end", which is not one of its scenes. */
  lemma DuplicateNumberStoryAlsoMissesTarget()
    ensures !GotosResolve([Scene("start", "start", false, [
        Choice(1, "One", [], [], None, [Effect(GotoScene, "end")]),
        Choice(1, "Duplicate", [], [], None, [Effect(GotoScene, "end")])])],
      Ids([Scene("start", "start", false, [
        Choice(1, "One", [], [], None, [Effect(GotoScene, "end")]),
        Choice(1, "Duplicate", [], [], None, [Effect(GotoScene, "end")])])]))
  {
    var scenes := [Scene("start", "start", false, [
        Choice(1, "One", [], [], None, [Effect(GotoScene, "end")]),
        Choice(1, "Duplicate", [], [], None, [Effect(GotoScene, "end")])])];
    assert Ids(scenes) == {"start"} by {
      assert scenes[0].id == "start";
    }
    var s := scenes[0];
    var c := s.choices[0];
    assert s in scenes && c in s.choices && c.effects[0] in c.effects;
  }

  /** With every goto resolved, two choices numbered 1 are still rejected, and the
      check names that scene and that number. */
  lemma DuplicateChoiceNumbersAloneAreRejected()
    ensures SceneWithDuplicateNumber([Scene("start", "start", false, [
        Choice(1, "One", [], [], None, [Effect(GotoScene, "start")]),
        Choice(1, "Duplicate", [], [], None, [Effect(GotoScene, "start")])])]) == Some(("start", 1))
    ensures GotosResolve([Scene("start", "start", false, [
        Choice(1, "One", [], [], None, [Effect(GotoScene, "start")]),
        Choice(1, "Duplicate", [], [], None, [Effect(GotoScene, "start")])])], {"start"})
    ensures !WellFormed([Scene("start", "start", false, [
        Choice(1, "One", [], [], None, [Effect(GotoScene, "start")]),
        Choice(1, "Duplicate", [], [], None, [Effect(GotoScene, "start")])])])
  {
    var choices := [
        Choice(1, "One", [], [], None, [Effect(GotoScene, "start")]),
        Choice(1, "Duplicate", [], [], None, [Effect(GotoScene, "start")])];
    assert choices[1].number == choices[0].number;
    assert DuplicateNumber(choices) == Some(1);
  }

  /** A scene whose goto targets itself is accepted. */
  lemma SelfGotoIsAccepted()
    ensures WellFormed([CreateScene("loop", false, None, None)])
  {
  }

  // ---------------------------------------------------------------------------
  // Choice evaluation

  /** A missing required flag disables the choice, with its configured reason. */
  lemma RequiredFlagMissing()
    ensures IsEnabled(Choice(1, "Open door", ["hasKey"], [], Some("You need the key first."),
                             [Effect(GotoScene, "next")]),
                      PlayerState("start", {}))
         == Availability(false, Some("You need the key first."))
  {
  }

  /** With the required flag set, the choice is enabled and there is no reason. */
  lemma RequirementsMet()
    ensures IsEnabled(Choice(1, "Open door", ["hasKey"], [], None, [Effect(GotoScene, "next")]),
                      PlayerState("start", {"hasKey"}))
         == Availability(true, None)
  {
  }

  /** A present forbidden flag disables the choice, with its configured reason. */
  lemma ForbiddenFlagPresent()
    ensures IsEnabled(Choice(1, "Enter", [], ["alarmTripped"], Some("The alarm is still on."),
                             [Effect(GotoScene, "next")]),
                      PlayerState("start", {"alarmTripped"}))
         == Availability(false, Some("The alarm is still on."))
  {
  }

  /** Both requirements failing without a configured reason: disabled, and no reason. */
  lemma BothRequirementsFail()
    ensures IsEnabled(Choice(1, "Proceed", ["hasKey"], ["blocked"], None, [Effect(GotoScene, "next")]),
                      PlayerState("start", {"blocked"}))
         == Availability(false, None)
  {
  }

  // ---------------------------------------------------------------------------
  // Effect execution

  /** `[SetFlag foundKey, GotoScene hallway]` sets the flag and moves to the hallway. */
  lemma SetFlagThenGoto()
    ensures ApplyEffects([Effect(SetFlag, "foundKey"), Effect(GotoScene, "hallway")], PlayerState("start", {}))
         == Success(PlayerState("hallway", {"foundKey"}))
  {
    var e0, e1 := Effect(SetFlag, "foundKey"), Effect(GotoScene, "hallway");
    assert !IsBlank("foundKey") by { assert !IsWhiteSpace("foundKey"[0]); }
    assert !IsBlank("hallway") by { assert !IsWhiteSpace("hallway"[0]); }
    var mid := PlayerState("start", {"foundKey"});
    assert {} + {"foundKey"} == {"foundKey"};
    assert ApplyEffect(e0, PlayerState("start", {})) == Success(mid);
    assert ApplyEffect(e1, mid) == Success(PlayerState("hallway", {"foundKey"}));
    assert [e0, e1][1..] == [e1];
    assert ApplyEffects([e1], mid) == Success(PlayerState("hallway", {"foundKey"}));
  }

  /** The same on a game state object, through the executor. */
  method SetFlagThenGotoClient() {
    SetFlagThenGoto();
    var state := new GameState("start");
    var r := Execute([Effect(SetFlag, "foundKey"), Effect(GotoScene, "hallway")], state);
    assert r.Pass?;
    assert state.HasFlag("foundKey");
    assert state.currentSceneId == "hallway";
  }

  /** An effect type outside the vocabulary fails. */
  lemma UnknownTypeFails(st: PlayerState)
    ensures ApplyEffects([Effect(Undefined(999), "ignored")], st) == Failure(UnknownEffectType(999))
  {
  }

  /** A white-space scene id or flag name fails. */
  lemma BlankValuesFail(st: PlayerState)
    ensures ApplyEffects([Effect(GotoScene, " ")], st) == Failure(BlankEffectValue(GotoScene))
    ensures ApplyEffects([Effect(SetFlag, " ")], st) == Failure(BlankEffectValue(SetFlag))
  {
  }

  /** Clearing a set flag makes it false. */
  method ClearFlagClient() {
    var state := new GameState("start");
    state.SetFlag("doorOpen");
    var r := Execute([Effect(ClearFlag, "doorOpen")], state);
    assert r.Pass?;
    assert !state.HasFlag("doorOpen");
  }

  // ---------------------------------------------------------------------------
  // A whole playthrough

  function Hallway(): Scene {
    Scene("hallway", "A locked door.", false, [
      Choice(1, "Try door", ["doorUnlocked"], [], None, [Effect(GotoScene, "kitchen")]),
      Choice(2, "Check pocket", [], ["doorUnlocked"], None, [Effect(SetFlag, "doorUnlocked")])])
  }

  function Kitchen(): Scene {
    Scene("kitchen", "The end.", true, [])
  }

  lemma HallwayIndex()
    ensures IndexOf([Hallway(), Kitchen()]) == map["hallway" := Hallway(), "kitchen" := Kitchen()]
  {
  }

  lemma HallwaySteps()
    ensures Step(Hallway(), PlayerState("hallway", {}), Some(1))
         == Next(PlayerState("hallway", {}), Some(Unavailable(DefaultUnavailable)))
    ensures Step(Hallway(), PlayerState("hallway", {}), Some(2))
         == Next(PlayerState("hallway", {"doorUnlocked"}), None)
    ensures Step(Hallway(), PlayerState("hallway", {"doorUnlocked"}), Some(1))
         == Next(PlayerState("kitchen", {"doorUnlocked"}), None)
  {
    var h := Hallway();
    assert "doorUnlocked" in h.choices[0].requiresAll;
    assert "doorUnlocked" in h.choices[1].requiresNone;
    assert !IsBlank("doorUnlocked") by { assert !IsWhiteSpace("doorUnlocked"[0]); }
    assert !IsBlank("kitchen") by { assert !IsWhiteSpace("kitchen"[0]); }
    assert FindChoice(h.choices, 1) == Some(0);
    assert FindChoice(h.choices, 2) == Some(1) by {
      assert FindChoice(h.choices[1..], 2) == Some(0);
    }
    assert {} + {"doorUnlocked"} == {"doorUnlocked"};
    assert ApplyEffects(h.choices[1].effects, PlayerState("hallway", {}))
        == Success(PlayerState("hallway", {"doorUnlocked"}));
    assert ApplyEffects(h.choices[0].effects, PlayerState("hallway", {"doorUnlocked"}))
        == Success(PlayerState("kitchen", {"doorUnlocked"}));
  }

  /** From the hallway, choice 1 is disabled until choice 2 has set the flag; then
      choice 1 leads to the kitchen, an end scene. */
  lemma HallwayPlaythrough()
    ensures Play(IndexOf([Hallway(), Kitchen()]), PlayerState("hallway", {}), [Some(1)])
         == Next(PlayerState("hallway", {}), None)
    ensures Play(IndexOf([Hallway(), Kitchen()]), PlayerState("hallway", {}), [Some(2), Some(1)]) == Ended
  {
    HallwayIndex();
    HallwaySteps();
    var index := IndexOf([Hallway(), Kitchen()]);
    var unlocked := PlayerState("hallway", {"doorUnlocked"});
    var done := PlayerState("kitchen", {"doorUnlocked"});
    assert [Some(1)][1..] == [];
    assert [Some(2), Some(1)][1..] == [Some(1)];
    assert Play(index, done, []) == Ended;
    assert Play(index, unlocked, [Some(1)]) == Play(index, done, []);
  }
}
