/** Effect execution (`EffectExecutor.Execute`): the effects of a choice applied to
    the game state one after the other, in list order. */
module Executor {
  import opened Wrappers
  import opened Model
  import opened Runtime

  /** An effect the executor rejects: a type outside the vocabulary, or a blank
      flag name or scene id for `SetFlag` or `GotoScene`. */
  predicate Malformed(e: Effect) {
    match e.kind
    case SetFlag => IsBlank(e.value)
    case GotoScene => IsBlank(e.value)
    case ClearFlag => false
    case Undefined(_) => true
  }

  /** The error a malformed effect raises. */
  function ErrorOf(e: Effect): Error
    requires Malformed(e)
  {
    if e.kind.Undefined? then UnknownEffectType(e.kind.code) else BlankEffectValue(e.kind)
  }

  /** One effect applied to a state value. */
  function ApplyEffect(e: Effect, st: PlayerState): (r: Result<PlayerState, Error>)
    ensures r.Failure? <==> Malformed(e)
    ensures r.Failure? ==> r.error == ErrorOf(e)
  {
    match e.kind
    case SetFlag =>
      if IsBlank(e.value) then Failure(BlankEffectValue(SetFlag))
      else Success(st.(flags := st.flags + {e.value}))
    case ClearFlag =>
      Success(st.(flags := st.flags - {e.value}))
    case GotoScene =>
      if IsBlank(e.value) then Failure(BlankEffectValue(GotoScene))
      else Success(st.(currentSceneId := e.value))
    case Undefined(code) =>
      Failure(UnknownEffectType(code))
  }

  /** The effects applied left to right, each to the state the previous one left;
      the first malformed effect stops the run with its error. */
  function ApplyEffects(effects: seq<Effect>, st: PlayerState): Result<PlayerState, Error>
  {
    if effects == [] then Success(st)
    else
      match ApplyEffect(effects[0], st)
      case Failure(err) => Failure(err)
      case Success(next) => ApplyEffects(effects[1..], next)
  }

  /** Runs `effects` on `state` in place (C# throws where this returns `Fail`).
      On success the state is exactly what `ApplyEffects` computes from the old one. */
  method Execute(effects: seq<Effect>, state: GameState) returns (r: Outcome<Error>)
    modifies state
    ensures r.Pass? <==> ApplyEffects(effects, old(state.Snapshot())).Success?
    ensures r.Pass? ==> state.Snapshot() == ApplyEffects(effects, old(state.Snapshot())).value
    ensures r.Fail? ==> r.error == ApplyEffects(effects, old(state.Snapshot())).error
  {
    ghost var start := state.Snapshot();
    var i := 0;
    while i < |effects|
      invariant 0 <= i <= |effects|
      invariant ApplyEffects(effects, start) == ApplyEffects(effects[i..], state.Snapshot())
    {
      var e := effects[i];
      assert effects[i..][1..] == effects[i + 1..];
      match e.kind {
        case SetFlag =>
          if IsBlank(e.value) {
            return Fail(BlankEffectValue(SetFlag));
          }
          state.SetFlag(e.value);
        case ClearFlag =>
          state.ClearFlag(e.value);
        case GotoScene =>
          if IsBlank(e.value) {
            return Fail(BlankEffectValue(GotoScene));
          }
          state.SetCurrentScene(e.value);
        case Undefined(code) =>
          return Fail(UnknownEffectType(code));
      }
      i := i + 1;
    }
    r := Pass;
  }

  // ---------------------------------------------------------------------------
  // Reference definitions, read from the END of the effect list

  /** The scene a run ends in: the target of the last `GotoScene`, or `current` when there is none. */
  function LastGoto(effects: seq<Effect>, current: string): string
  {
    if effects == [] then current
    else if effects[|effects| - 1].kind == GotoScene then effects[|effects| - 1].value
    else LastGoto(effects[..|effects| - 1], current)
  }

  /** Whether flag `name` is true after a run: decided by the last `SetFlag` or
      `ClearFlag` naming it, or `initial` when no effect names it. */
  function FinalFlag(effects: seq<Effect>, name: string, initial: bool): bool
  {
    if effects == [] then initial
    else
      var e := effects[|effects| - 1];
      if e.kind == SetFlag && e.value == name then true
      else if e.kind == ClearFlag && e.value == name then false
      else FinalFlag(effects[..|effects| - 1], name, initial)
  }

  // ---------------------------------------------------------------------------
  // Properties of a run

  /** Running `a + b` is running `a`, then running `b` on what `a` left. */
  lemma {:induction false} ApplyEffectsAppend(a: seq<Effect>, b: seq<Effect>, st: PlayerState)
    ensures ApplyEffects(a + b, st) ==
      match ApplyEffects(a, st)
      case Failure(err) => Failure(err)
      case Success(mid) => ApplyEffects(b, mid)
  {
    if a == [] {
      assert a + b == b;
    } else {
      assert (a + b)[1..] == a[1..] + b;
      match ApplyEffect(a[0], st)
      case Failure(_) =>
      case Success(next) => ApplyEffectsAppend(a[1..], b, next);
    }
  }

  /** A run fails exactly when some effect is malformed, and then with the error
      of the FIRST malformed effect: effects are checked one at a time, in order. */
  lemma {:induction false} FailsAtFirstMalformed(effects: seq<Effect>, st: PlayerState)
    ensures ApplyEffects(effects, st).Failure? <==> exists i :: 0 <= i < |effects| && Malformed(effects[i])
    ensures ApplyEffects(effects, st).Failure? ==>
      exists k :: 0 <= k < |effects| && Malformed(effects[k]) &&
        (forall j :: 0 <= j < k ==> !Malformed(effects[j])) &&
        ApplyEffects(effects, st).error == ErrorOf(effects[k])
  {
    if effects != [] {
      match ApplyEffect(effects[0], st)
      case Failure(_) =>
        assert Malformed(effects[0]);
      case Success(next) =>
        FailsAtFirstMalformed(effects[1..], next);
        assert !Malformed(effects[0]);
        if ApplyEffects(effects, st).Failure? {
          var k :| 0 <= k < |effects[1..]| && Malformed(effects[1..][k]) &&
            (forall j :: 0 <= j < k ==> !Malformed(effects[1..][j])) &&
            ApplyEffects(effects[1..], next).error == ErrorOf(effects[1..][k]);
          assert Malformed(effects[k + 1]);
          assert forall j :: 0 <= j < k + 1 ==> !Malformed(effects[j]) by {
            forall j | 0 <= j < k + 1 ensures !Malformed(effects[j]) {
              if j > 0 { assert effects[j] == effects[1..][j - 1]; }
            }
          }
        } else {
          forall i | 0 <= i < |effects| ensures !Malformed(effects[i]) {
            if i > 0 { assert effects[i] == effects[1..][i - 1]; }
          }
        }
    }
  }

  /** After a successful run the player is in the scene of the last `GotoScene`,
      or still where they were when there is none. */
  lemma {:induction false} FinalSceneIsLastGoto(effects: seq<Effect>, st: PlayerState)
    requires ApplyEffects(effects, st).Success?
    ensures ApplyEffects(effects, st).value.currentSceneId == LastGoto(effects, st.currentSceneId)
  {
    if effects != [] {
      var init, last := effects[..|effects| - 1], effects[|effects| - 1];
      assert effects == init + [last];
      ApplyEffectsAppend(init, [last], st);
      var mid := ApplyEffects(init, st).value;
      FinalSceneIsLastGoto(init, st);
      assert ApplyEffects([last], mid) == ApplyEffect(last, mid);
    }
  }

  /** After a successful run a flag is true exactly when the last `SetFlag` or
      `ClearFlag` naming it was a `SetFlag`, or, when none names it, when it was
      true before: later effects see and override earlier ones. */
  lemma {:induction false} FinalFlagsAreLastWrite(effects: seq<Effect>, st: PlayerState, name: string)
    requires ApplyEffects(effects, st).Success?
    ensures name in ApplyEffects(effects, st).value.flags <==> FinalFlag(effects, name, name in st.flags)
  {
    if effects != [] {
      var init, last := effects[..|effects| - 1], effects[|effects| - 1];
      assert effects == init + [last];
      ApplyEffectsAppend(init, [last], st);
      var mid := ApplyEffects(init, st).value;
      FinalFlagsAreLastWrite(init, st, name);
      assert ApplyEffects([last], mid) == ApplyEffect(last, mid);
    }
  }

  /** The scene a run ends in is the scene it started in or the target of one of its `GotoScene` effects. */
  lemma {:induction false} LastGotoIsStartOrTarget(effects: seq<Effect>, current: string)
    ensures LastGoto(effects, current) == current ||
      exists e :: e in effects && e.kind == GotoScene && e.value == LastGoto(effects, current)
  {
    if effects != [] {
      var init := effects[..|effects| - 1];
      LastGotoIsStartOrTarget(init, current);
      if LastGoto(effects, current) != current && effects[|effects| - 1].kind != GotoScene {
        var e :| e in init && e.kind == GotoScene && e.value == LastGoto(init, current);
        assert e in effects;
      }
    }
  }
}
