/** Choice availability (`ChoiceEvaluator.IsEnabled`): a pure check of a choice's
    flag requirements against the player's flags. */
module Evaluator {
  import opened Wrappers
  import opened Model
  import opened Runtime

  /** Whether a choice can be taken, and the reason shown when it cannot
      (the `out reason` parameter; `None` is C#'s null). */
  datatype Availability = Availability(enabled: bool, reason: Option<string>)

  /** Every name in `names` is a set flag. */
  function AllSet(names: seq<string>, flags: set<string>): (r: bool)
    ensures r <==> forall f :: f in names ==> f in flags
  {
    if names == [] then true
    else names[0] in flags && AllSet(names[1..], flags)
  }

  /** No name in `names` is a set flag. */
  function NoneSet(names: seq<string>, flags: set<string>): (r: bool)
    ensures r <==> forall f :: f in names ==> f !in flags
  {
    if names == [] then true
    else names[0] !in flags && NoneSet(names[1..], flags)
  }

  /** A choice is enabled exactly when every `requiresAll` flag is set and no
      `requiresNone` flag is set. An enabled choice has no reason; a disabled one
      has its configured `disabledReason`, which may be absent: the evaluator never
      composes a message of its own, whichever requirement failed. */
  function IsEnabled(choice: Choice, state: PlayerState): (r: Availability)
    ensures r.enabled <==>
      (forall f :: f in choice.requiresAll ==> f in state.flags) &&
      (forall f :: f in choice.requiresNone ==> f !in state.flags)
    ensures r.enabled ==> r.reason == None
    ensures !r.enabled ==> r.reason == choice.disabledReason
  {
    if AllSet(choice.requiresAll, state.flags) && NoneSet(choice.requiresNone, state.flags)
    then Availability(true, None)
    else Availability(false, choice.disabledReason)
  }

  /** A choice without requirements is always enabled, with no reason. */
  lemma NoRequirementsAlwaysEnabled(choice: Choice, state: PlayerState)
    requires choice.requiresAll == [] && choice.requiresNone == []
    ensures IsEnabled(choice, state) == Availability(true, None)
  {
  }

  /** One missing `requiresAll` flag disables the choice, with the configured reason. */
  lemma MissingRequiredFlagDisables(choice: Choice, state: PlayerState, f: string)
    requires f in choice.requiresAll && f !in state.flags
    ensures IsEnabled(choice, state) == Availability(false, choice.disabledReason)
  {
  }

  /** One present `requiresNone` flag disables the choice, with the configured reason. */
  lemma ForbiddenFlagDisables(choice: Choice, state: PlayerState, f: string)
    requires f in choice.requiresNone && f in state.flags
    ensures IsEnabled(choice, state) == Availability(false, choice.disabledReason)
  {
  }
}
