/** The story definitions handed to the engine by the story loader
    (the `env0.adventure.Model` records), and the engine's error kinds. */
module Model {
  import opened Wrappers

  /** The effect-type enumeration. The three named members are the fixed
      vocabulary; `Undefined` stands for any other value a C# enum can hold
      (for instance a cast such as `(EffectType)999`). */
  datatype EffectType = SetFlag | ClearFlag | GotoScene | Undefined(code: int)

  /** One effect: its type and its string payload (a flag name or a scene id). */
  datatype Effect = Effect(kind: EffectType, value: string)

  /** A numbered choice of a scene. An absent requirement list is an empty sequence;
      an absent disabled reason is `None`. */
  datatype Choice = Choice(
    number: int,
    text: string,
    requiresAll: seq<string>,
    requiresNone: seq<string>,
    disabledReason: Option<string>,
    effects: seq<Effect>)

  /** A scene: its id, its text, whether it ends the game, and its choices. */
  datatype Scene = Scene(id: string, text: string, isEnd: bool, choices: seq<Choice>)

  /** A parsed story: a start scene id and the scene list. */
  datatype Story = Story(startSceneId: string, scenes: seq<Scene>)

  /** Every error the engine raises. In C# a repeated scene id is the
      `ArgumentException` of `ToDictionary`, and the others are an
      `InvalidOperationException`; the variants keep apart what each one is about. */
  datatype Error =
    | DuplicateSceneId(id: string)
    | MissingGotoTarget(sceneId: string, target: string)
    | DuplicateChoiceNumber(sceneId: string, number: int)
    | SceneNotFound(sceneId: string)
    | BlankEffectValue(kind: EffectType)
    | UnknownEffectType(code: int)

  /** The white-space characters recognised: the ASCII ones, NEL and NO-BREAK SPACE. */
  predicate IsWhiteSpace(c: char) {
    c == ' ' || c == '\t' || c == '\n' || c == '\U{0B}' || c == '\U{0C}' || c == '\r'
    || c == '\U{85}' || c == '\U{A0}'
  }

  /** `String.IsNullOrWhiteSpace` on a non-null string: empty, or white space only. */
  predicate IsBlank(s: string) {
    forall i :: 0 <= i < |s| ==> IsWhiteSpace(s[i])
  }
}
