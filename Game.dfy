/** One turn of the game loop (the main loop of `Program.cs`), without the console:
    the scene to show, the player's state and the parsed input number give the next
    state and the message printed. Also the choice menu shown before the prompt,
    and a bounded run of several turns. */
module Game {
  import opened Wrappers
  import opened Model
  import opened Runtime
  import opened Evaluator
  import opened Executor
  import opened Repository

  /** The fallback shown for a disabled choice that has no reason of its own. */
  const DefaultUnavailable := "That option is not available."

  /** What a turn prints besides the scene: the three rejections of the loop. */
  datatype Message = InvalidInput | NoSuchOption | Unavailable(text: string)

  /** How a turn ends: the loop breaks at an end scene; it continues with a state
      (unchanged after a rejection, which carries its message); or an exception
      escapes it. */
  datatype TurnResult =
    | Ended
    | Next(state: PlayerState, message: Option<Message>)
    | Failed(error: Error)

  /** One line of the menu: a choice's number and text, and its availability. */
  datatype MenuEntry = MenuEntry(number: int, text: string, enabled: bool, reason: Option<string>)

  // ---------------------------------------------------------------------------
  // The menu: choices in ascending number order, each with its availability

  predicate SortedByNumber(choices: seq<Choice>) {
    forall i, j :: 0 <= i < j < |choices| ==> choices[i].number <= choices[j].number
  }

  /** The choices of the list that carry number `n`, in list order. */
  function WithNumber(choices: seq<Choice>, n: int): seq<Choice> {
    if choices == [] then []
    else (if choices[0].number == n then [choices[0]] else []) + WithNumber(choices[1..], n)
  }

  /** `c` placed before the first choice whose number is not smaller, so that
      choices with equal numbers keep their order, as in `OrderBy`. */
  function Insert(c: Choice, sorted: seq<Choice>): (r: seq<Choice>)
    requires SortedByNumber(sorted)
    ensures SortedByNumber(r)
    ensures multiset(r) == multiset(sorted) + multiset{c}
    ensures forall n :: WithNumber(r, n) == (if c.number == n then [c] else []) + WithNumber(sorted, n)
  {
    if sorted == [] || c.number <= sorted[0].number then
      var r := [c] + sorted;
      assert r[1..] == sorted;
      r
    else
      var rest := Insert(c, sorted[1..]);
      InsertAfterHead(c, sorted, rest);
      var r := [sorted[0]] + rest;
      assert r[1..] == rest;
      r
  }

  lemma InsertAfterHead(c: Choice, sorted: seq<Choice>, rest: seq<Choice>)
    requires sorted != [] && SortedByNumber(sorted) && sorted[0].number < c.number
    requires SortedByNumber(rest) && multiset(rest) == multiset(sorted[1..]) + multiset{c}
    ensures SortedByNumber([sorted[0]] + rest)
    ensures multiset([sorted[0]] + rest) == multiset(sorted) + multiset{c}
  {
    assert sorted == [sorted[0]] + sorted[1..];
    forall x | x in rest ensures sorted[0].number <= x.number {
      assert x in multiset(rest);
      if x != c {
        assert x in multiset(sorted[1..]);
      }
    }
  }

  /** `OrderBy(c => c.Number)`: the same choices, in ascending number order, and,
      among the choices with any one number, in their original order (a stable sort). */
  function SortByNumber(choices: seq<Choice>): (r: seq<Choice>)
    ensures SortedByNumber(r)
    ensures multiset(r) == multiset(choices)
    ensures forall n :: WithNumber(r, n) == WithNumber(choices, n)
  {
    if choices == [] then []
    else
      assert choices == [choices[0]] + choices[1..];
      Insert(choices[0], SortByNumber(choices[1..]))
  }

  function Annotate(c: Choice, st: PlayerState): MenuEntry {
    var a := IsEnabled(c, st);
    MenuEntry(c.number, c.text, a.enabled, a.reason)
  }

  /** Each choice of the list annotated, in list order. */
  function AnnotateAll(choices: seq<Choice>, st: PlayerState): (r: seq<MenuEntry>)
    ensures |r| == |choices|
    ensures forall i :: 0 <= i < |choices| ==> r[i] == Annotate(choices[i], st)
  {
    if choices == [] then [] else [Annotate(choices[0], st)] + AnnotateAll(choices[1..], st)
  }

  /** The menu lines that carry number `n`, in menu order. */
  function EntriesNumbered(entries: seq<MenuEntry>, n: int): seq<MenuEntry> {
    if entries == [] then []
    else (if entries[0].number == n then [entries[0]] else []) + EntriesNumbered(entries[1..], n)
  }

  /** `e` is the menu line of one of `choices`. */
  ghost predicate EntryOf(e: MenuEntry, choices: seq<Choice>, st: PlayerState) {
    exists c :: c in choices && e == Annotate(c, st)
  }

  /** The menu shown before the prompt: one line per choice (a choice listed twice
      gets two lines), in ascending number order, lines with equal numbers in the
      order of their choices, each with the evaluator's verdict and reason. */
  function Menu(scene: Scene, st: PlayerState): (r: seq<MenuEntry>)
    ensures |r| == |scene.choices|
    ensures forall i, j :: 0 <= i < j < |r| ==> r[i].number <= r[j].number
    ensures multiset(r) == multiset(AnnotateAll(scene.choices, st))
    ensures forall n :: EntriesNumbered(r, n) == AnnotateAll(WithNumber(scene.choices, n), st)
    ensures forall i :: 0 <= i < |r| ==> EntryOf(r[i], scene.choices, st)
    ensures forall c :: c in scene.choices ==> exists i :: 0 <= i < |r| && r[i] == Annotate(c, st)
  {
    var sorted := SortByNumber(scene.choices);
    SameElements(sorted, scene.choices);
    var r := AnnotateAll(sorted, st);
    AnnotatedCovers(sorted, scene.choices, st, r);
    AnnotatePermutation(sorted, scene.choices, st);
    forall n ensures EntriesNumbered(r, n) == AnnotateAll(WithNumber(scene.choices, n), st) {
      AnnotateThenFilter(sorted, n, st);
    }
    r
  }

  /** Filtering the lines by number is annotating the choices with that number. */
  lemma {:induction false} AnnotateThenFilter(choices: seq<Choice>, n: int, st: PlayerState)
    ensures EntriesNumbered(AnnotateAll(choices, st), n) == AnnotateAll(WithNumber(choices, n), st)
  {
    if choices != [] {
      AnnotateThenFilter(choices[1..], n, st);
      var r := AnnotateAll(choices, st);
      assert r[1..] == AnnotateAll(choices[1..], st);
      if choices[0].number == n {
        var w := WithNumber(choices, n);
        assert w[0] == choices[0] && w[1..] == WithNumber(choices[1..], n);
      }
    }
  }

  /** Annotating a concatenation is concatenating the annotations. */
  lemma AnnotateAllAppend(a: seq<Choice>, b: seq<Choice>, st: PlayerState)
    ensures AnnotateAll(a + b, st) == AnnotateAll(a, st) + AnnotateAll(b, st)
  {
    var l, r := AnnotateAll(a + b, st), AnnotateAll(a, st) + AnnotateAll(b, st);
    assert |l| == |r|;
    forall i | 0 <= i < |l| ensures l[i] == r[i] {
      if i < |a| { assert (a + b)[i] == a[i]; } else { assert (a + b)[i] == b[i - |a|]; }
    }
  }

  /** Choices that are a permutation of each other give menu lines that are a
      permutation of each other: how many lines of each kind depends only on the
      multiset of choices. */
  lemma {:induction false} AnnotatePermutation(a: seq<Choice>, b: seq<Choice>, st: PlayerState)
    requires multiset(a) == multiset(b)
    ensures multiset(AnnotateAll(a, st)) == multiset(AnnotateAll(b, st))
    decreases |a|
  {
    if a != [] {
      assert a[0] in multiset(b);
      var k :| 0 <= k < |b| && b[k] == a[0];
      var rest := b[..k] + b[k + 1..];
      RemoveAt(b, k);
      assert a == [a[0]] + a[1..];
      assert multiset(a[1..]) == multiset(rest);
      AnnotatePermutation(a[1..], rest, st);
      AnnotateRemoveAt(b, k, st);
      assert AnnotateAll(a, st) == [Annotate(a[0], st)] + AnnotateAll(a[1..], st);
    }
  }

  /** Removing the element at `k` takes one copy of it out of the multiset. */
  lemma RemoveAt<T>(b: seq<T>, k: int)
    requires 0 <= k < |b|
    ensures multiset(b[..k] + b[k + 1..]) == multiset(b) - multiset{b[k]}
  {
    assert b == b[..k] + [b[k]] + b[k + 1..];
  }

  /** The menu lines of `b` are those of `b` without its `k`-th choice, plus that choice's line. */
  lemma AnnotateRemoveAt(b: seq<Choice>, k: int, st: PlayerState)
    requires 0 <= k < |b|
    ensures multiset(AnnotateAll(b, st))
         == multiset(AnnotateAll(b[..k] + b[k + 1..], st)) + multiset{Annotate(b[k], st)}
  {
    assert b == b[..k] + [b[k]] + b[k + 1..];
    AnnotateAllAppend(b[..k], [b[k]], st);
    AnnotateAllAppend(b[..k] + [b[k]], b[k + 1..], st);
    AnnotateAllAppend(b[..k], b[k + 1..], st);
  }

  /** Two sequences with the same multiset have the same length and the same members. */
  lemma SameElements<T>(a: seq<T>, b: seq<T>)
    requires multiset(a) == multiset(b)
    ensures |a| == |b|
    ensures forall x :: x in a <==> x in b
  {
    assert |multiset(a)| == |multiset(b)|;
    forall x ensures x in a <==> x in b {
      assert x in a <==> x in multiset(a);
      assert x in b <==> x in multiset(b);
    }
  }

  /** An annotated copy of `sorted` lists each choice of `choices`, and nothing else. */
  lemma AnnotatedCovers(sorted: seq<Choice>, choices: seq<Choice>, st: PlayerState, r: seq<MenuEntry>)
    requires forall x :: x in sorted <==> x in choices
    requires |r| == |sorted| && forall i :: 0 <= i < |r| ==> r[i] == Annotate(sorted[i], st)
    ensures forall i :: 0 <= i < |r| ==> EntryOf(r[i], choices, st)
    ensures forall c :: c in choices ==> exists i :: 0 <= i < |r| && r[i] == Annotate(c, st)
  {
  }

  // ---------------------------------------------------------------------------
  // One turn

  /** `FirstOrDefault(c => c.Number == n)`: the position of the first choice numbered `n`. */
  function FindChoice(choices: seq<Choice>, n: int): (r: Option<nat>)
    ensures r.None? <==> forall c :: c in choices ==> c.number != n
    ensures r.Some? ==> r.value < |choices| && choices[r.value].number == n
    ensures r.Some? ==> forall j :: 0 <= j < r.value ==> choices[j].number != n
  {
    if choices == [] then None
    else if choices[0].number == n then Some(0)
    else
      match FindChoice(choices[1..], n)
      case None => None
      case Some(k) => Some(k + 1)
  }

  /** One pass of the loop body after the scene was looked up. An end scene ends the
      game before any input is read. Otherwise: input that is not a number, a number
      no choice carries, or a disabled choice leave the state as it was and say why;
      the first choice carrying the number, when enabled, has its effects executed. */
  function Step(scene: Scene, st: PlayerState, input: Option<int>): (r: TurnResult)
    ensures r.Ended? <==> scene.isEnd
    ensures !scene.isEnd && input.None? ==> r == Next(st, Some(InvalidInput))
    ensures !scene.isEnd && input.Some? && (forall c :: c in scene.choices ==> c.number != input.value) ==>
      r == Next(st, Some(NoSuchOption))
    ensures r.Next? && r.state != st ==>
      exists k :: 0 <= k < |scene.choices| && scene.choices[k].number == input.value &&
        IsEnabled(scene.choices[k], st).enabled &&
        ApplyEffects(scene.choices[k].effects, st) == Success(r.state)
    ensures r.Failed? ==>
      exists k :: 0 <= k < |scene.choices| && scene.choices[k].number == input.value &&
        IsEnabled(scene.choices[k], st).enabled &&
        ApplyEffects(scene.choices[k].effects, st) == Failure(r.error)
    ensures !scene.isEnd && input.Some? ==>
      match FindChoice(scene.choices, input.value)
      case None => true
      case Some(k) =>
        var a := IsEnabled(scene.choices[k], st);
        (!a.enabled ==> r == Next(st, Some(Unavailable(a.reason.GetOr(DefaultUnavailable))))) &&
        (a.enabled ==> r == match ApplyEffects(scene.choices[k].effects, st)
                            case Success(next) => Next(next, None)
                            case Failure(err) => Failed(err))
  {
    if scene.isEnd then Ended
    else if input.None? then Next(st, Some(InvalidInput))
    else
      match FindChoice(scene.choices, input.value)
      case None => Next(st, Some(NoSuchOption))
      case Some(k) =>
        var choice := scene.choices[k];
        var a := IsEnabled(choice, st);
        if !a.enabled then Next(st, Some(Unavailable(a.reason.GetOr(DefaultUnavailable))))
        else
          match ApplyEffects(choice.effects, st)
          case Success(next) => Next(next, None)
          case Failure(err) => Failed(err)
  }

  /** Turns played one per input from `st`: each looks the current scene up in
      `index` (`repo.Get`) and runs `Step`. The result is the first turn that does
      not continue, or, when the inputs run out, the state reached: a state whose
      scene was found and is not an end scene, waiting for the next input. */
  function Play(index: map<string, Scene>, st: PlayerState, inputs: seq<Option<int>>): (r: TurnResult)
    ensures r.Next? ==> r.state.currentSceneId in index && !index[r.state.currentSceneId].isEnd && r.message == None
    decreases |inputs|
  {
    if st.currentSceneId !in index then Failed(SceneNotFound(st.currentSceneId))
    else if inputs == [] then
      if index[st.currentSceneId].isEnd then Ended else Next(st, None)
    else
      match Step(index[st.currentSceneId], st, inputs[0])
      case Next(next, _) => Play(index, next, inputs[1..])
      case other => other
  }

  // ---------------------------------------------------------------------------
  // Properties of turns

  /** Every value of the index is one of the listed scenes. */
  lemma {:induction false} IndexValuesAreListed(scenes: seq<Scene>)
    ensures forall id :: id in IndexOf(scenes) ==> IndexOf(scenes)[id] in scenes
  {
    if scenes != [] {
      var init := scenes[..|scenes| - 1];
      IndexValuesAreListed(init);
      assert forall s :: s in init ==> s in scenes;
    }
  }

  /** In a validated story a turn never leaves the graph: when it continues, the
      current scene is still a scene of the story, because every goto target was
      checked at load time and the executor moves only to goto targets. */
  lemma StepStaysInGraph(scenes: seq<Scene>, scene: Scene, st: PlayerState, input: Option<int>)
    requires GotosResolve(scenes, Ids(scenes))
    requires scene in scenes && st.currentSceneId in Ids(scenes)
    ensures Step(scene, st, input).Next? ==> Step(scene, st, input).state.currentSceneId in Ids(scenes)
  {
    var r := Step(scene, st, input);
    if r.Next? && r.state != st {
      var k :| 0 <= k < |scene.choices| && scene.choices[k].number == input.value &&
        IsEnabled(scene.choices[k], st).enabled &&
        ApplyEffects(scene.choices[k].effects, st) == Success(r.state);
      var effects := scene.choices[k].effects;
      FinalSceneIsLastGoto(effects, st);
      LastGotoIsStartOrTarget(effects, st.currentSceneId);
      assert scene.choices[k] in scene.choices;
    }
  }

  /** In a validated story, from any state whose scene exists, no sequence of turns
      ever fails with "Scene not found": the lookup at the top of the loop always
      succeeds. (The start scene's existence is this lemma's hypothesis.) */
  lemma {:induction false} PlayNeverLosesScene(scenes: seq<Scene>, st: PlayerState, inputs: seq<Option<int>>)
    requires WellFormed(scenes) && st.currentSceneId in Ids(scenes)
    ensures !(Play(IndexOf(scenes), st, inputs).Failed? && Play(IndexOf(scenes), st, inputs).error.SceneNotFound?)
    decreases |inputs|
  {
    var index := IndexOf(scenes);
    IndexKeys(scenes);
    IndexValuesAreListed(scenes);
    if inputs != [] {
      var scene := index[st.currentSceneId];
      StepStaysInGraph(scenes, scene, st, inputs[0]);
      match Step(scene, st, inputs[0])
      case Next(next, _) => PlayNeverLosesScene(scenes, next, inputs[1..]);
      case Ended =>
      case Failed(err) =>
        var k :| 0 <= k < |scene.choices| && ApplyEffects(scene.choices[k].effects, st) == Failure(err);
        FailsAtFirstMalformed(scene.choices[k].effects, st);
    }
  }

  /** A turn that does not execute an enabled choice leaves the state as it was. */
  lemma RejectedTurnKeepsState(scene: Scene, st: PlayerState, n: int)
    requires !scene.isEnd
    requires forall c :: c in scene.choices && c.number == n ==> !IsEnabled(c, st).enabled
    ensures Step(scene, st, Some(n)).Next? && Step(scene, st, Some(n)).state == st
  {
  }
}
