/** The interpreter: view computation and the three player moves
    (backend/app/modules/runtime/engine.py). Each method works on the mutable document in place and
    is proved against a function on document values. */
module Engine {
  import opened Wrappers
  import opened Conditions
  import opened Effects
  import opened Definition
  import Challenges

  datatype Passive =
    | PassiveDialogue(npc: Option<(string, NPC)>, text: string)
    | PassiveMedia(kind: string, assetId: string, caption: string)

  datatype Interactive =
    | PendingChoice(id: string, prompt: string, options: seq<(string, string)>)
    | PendingChallenge(id: string, config: Challenges.PublicConfig, attemptsRemaining: int)

  datatype EndingView = FullEnding(ending: Ending) | BareEnding(id: Option<string>)

  datatype View = View(
    passives: seq<Passive>, interactive: Option<Interactive>, canAdvance: bool, ending: Option<EndingView>)

  datatype Viewed = Seen(view: View) | Unseen(error: Failure)

  // ---- Looking at the scene ----

  /** The first interactive element at or after index `i`. */
  function Pending(elements: seq<Element>, i: nat): (p: Option<nat>)
    ensures p.Some? ==> i <= p.value < |elements| && elements[p.value].Interactive()
    ensures forall j :: i <= j < |elements| && (p.Some? ==> j < p.value) ==> !elements[j].Interactive()
    decreases |elements| - i
  {
    if i >= |elements| then None
    else if elements[i].Interactive() then Some(i)
    else Pending(elements, i + 1)
  }

  /** What one passive element shows. */
  function Shown(d: GameDefinition, facts: PlayerFacts, el: Element): seq<Passive> {
    match el
    case Dialogue(npc, text, condition) =>
      if !Holds(condition, facts) then []
      else if npc.Some? && npc.value != "" && npc.value in d.npcs
      then [PassiveDialogue(Some((npc.value, d.npcs[npc.value])), text)]
      else [PassiveDialogue(None, text)]
    case Media(kind, assetId, caption, condition) =>
      if Holds(condition, facts) then [PassiveMedia(kind, assetId, caption)] else []
    case _ => []
  }

  /** The passive lines from index `i` up to the next interactive element. */
  function Passives(d: GameDefinition, facts: PlayerFacts, elements: seq<Element>, i: nat): seq<Passive>
    decreases |elements| - i
  {
    if i >= |elements| || elements[i].Interactive() then []
    else Shown(d, facts, elements[i]) + Passives(d, facts, elements, i + 1)
  }

  /** The options whose condition holds, in order. */
  function VisibleOptions(options: seq<ChoiceOption>, facts: PlayerFacts): seq<(string, string)> {
    if options == [] then []
    else (if Holds(options[0].condition, facts) then [(options[0].id, options[0].text)] else [])
         + VisibleOptions(options[1..], facts)
  }

  /** The interactive part of the view; None is the validation error of a malformed challenge config. */
  function Present(el: Element, s: GameState): Option<Interactive>
    requires el.Interactive()
  {
    match el
    case Choice(id, prompt, options) => Some(PendingChoice(id, prompt, VisibleOptions(options, s.Facts())))
    case Challenge(id, config, maxAttempts, _, _, _) =>
      match Challenges.Project(config)
      case None => None
      case Some(public) => Some(PendingChallenge(id, public, maxAttempts - s.Attempts(id)))
  }

  /** The view of a player blocked on an interactive element. */
  function Blocked(passives: seq<Passive>, el: Element, s: GameState): Viewed
    requires el.Interactive()
  {
    match Present(el, s)
    case None => Unseen(InvalidConfig)
    case Some(interactive) => Seen(View(passives, Some(interactive), false, None))
  }

  function ActiveView(d: GameDefinition, elements: seq<Element>, s: GameState): Viewed {
    var passives := Passives(d, s.Facts(), elements, s.elementIndex);
    match Pending(elements, s.elementIndex)
    case None => Seen(View(passives, None, true, None))
    case Some(p) => Blocked(passives, elements[p], s)
  }

  function ViewOf(d: GameDefinition, s: GameState): Viewed {
    if s.sceneId !in d.scenes then Unseen(KeyError)
    else
      var scene := d.scenes[s.sceneId];
      if s.status.Completed? then
        Seen(View([], None, false,
                  Some(if scene.ending.Some? then FullEnding(scene.ending.value) else BareEnding(s.endingId))))
      else ActiveView(d, scene.elements, s)
  }

  // ---- Moves as functions on document values ----

  function EnterScene(d: GameDefinition, s: GameState, id: string): Step {
    var moved := s.(sceneId := id, elementIndex := 0);
    if id !in d.scenes then Raised(KeyError, moved)
    else After([SceneEntered(id)], ApplyEffects(moved, d.scenes[id].onEnter))
  }

  /** Follow an optional goto out of the current scene. */
  function Leave(d: GameDefinition, s: GameState, goto: Option<string>): Step {
    if goto.None? then Done(s, [])
    else After([SceneCompleted(s.sceneId)], EnterScene(d, s, goto.value))
  }

  /** Apply an outcome's effects, step past the element, then follow its goto. */
  function Resolve(d: GameDefinition, s: GameState, outcome: Outcome, index: nat): Step {
    match ApplyEffects(s, outcome.effects)
    case Raised(_, _) => ApplyEffects(s, outcome.effects)
    case Done(s1, events) => After(events, Leave(d, s1.(elementIndex := index + 1), outcome.goto))
  }

  function BlankState(d: GameDefinition): GameState {
    GameState("", 0, d.variables, [], map[], map[], map[], [], 0, Active, None)
  }

  function NewState(d: GameDefinition): Step { EnterScene(d, BlankState(d), d.startScene) }

  function Finish(s: GameState, ending: string): Step {
    Done(s.(status := Completed, endingId := Some(ending)), [MissionFinished(ending, s.xpEarned, s.results)])
  }

  function Advance(d: GameDefinition, s: GameState): Step {
    if s.status != Active then Raised(NotActive, s)
    else match ViewOf(d, s)
      case Unseen(error) => Raised(error, s)
      case Seen(view) =>
        if view.interactive.Some? then Raised(InteractionPending, s)
        else
          var scene := d.scenes[s.sceneId];
          if scene.ending.Some? then After([SceneCompleted(s.sceneId)], Finish(s, scene.ending.value.id))
          else if scene.next.Some? then After([SceneCompleted(s.sceneId)], EnterScene(d, s, scene.next.value))
          else Raised(NoTransition, s)
  }

  /** The element a choose or answer request is matched against. */
  datatype Target = Found(element: Element, index: nat) | Missing(error: Failure)

  function FindPending(d: GameDefinition, s: GameState): (t: Target)
    ensures t.Found? ==> t.element.Interactive()
  {
    if s.status != Active then Missing(NotActive)
    else if s.sceneId !in d.scenes then Missing(KeyError)
    else
      var elements := d.scenes[s.sceneId].elements;
      match Pending(elements, s.elementIndex)
      case None => Missing(NothingPending)
      case Some(p) => Found(elements[p], p)
  }

  /** `next(o for o in options if o.id == id, None)`. */
  function FindOption(options: seq<ChoiceOption>, id: string): Option<ChoiceOption> {
    if options == [] then None
    else if options[0].id == id then Some(options[0])
    else FindOption(options[1..], id)
  }

  function Choose(d: GameDefinition, s: GameState, elementId: string, optionId: string): Step {
    match FindPending(d, s)
    case Missing(error) => Raised(error, s)
    case Found(el, index) =>
      if !el.Choice? || el.id != elementId then Raised(WrongElement, s)
      else match FindOption(el.options, optionId)
        case None => Raised(InvalidOption, s)
        case Some(option) =>
          if !Holds(option.condition, s.Facts()) then Raised(InvalidOption, s)
          else Resolve(d, s, Outcome(option.effects, option.goto), index)
  }

  /** The challenge an answer would be graded against, once every guard has passed. */
  function FindChallenge(d: GameDefinition, s: GameState, elementId: string): (t: Target)
    ensures t.Found? ==> t.element.Challenge?
  {
    match FindPending(d, s)
    case Missing(error) => Missing(error)
    case Found(el, index) =>
      if !el.Challenge? || el.id != elementId then Missing(WrongElement)
      else if s.Attempts(el.id) >= el.maxAttempts then Missing(NoAttempts)
      else Found(el, index)
  }

  /** The attempt counter is bumped before anything else. */
  function Counted(s: GameState, id: string): GameState {
    s.(attempts := s.attempts[id := s.Attempts(id) + 1])
  }

  function Recorded(s: GameState, id: string, correct: bool, score: real): GameState {
    s.(results := s.results[id := ResultRecord(correct, score, s.Attempts(id))])
  }

  /** A wrong answer: its own effects, then exhaustion or an optional detour. */
  function Wrong(d: GameDefinition, s: GameState, el: Element, index: nat, score: real): Step
    requires el.Challenge?
  {
    match ApplyEffects(s, el.onIncorrect.effects)
    case Raised(error, left) => Raised(error, left)
    case Done(s1, events) =>
      After(events,
            if s1.Attempts(el.id) >= el.maxAttempts
            then Resolve(d, Recorded(s1, el.id, false, score), el.onExhausted.GetOr(Outcome([], None)), index)
            else Leave(d, s1, el.onIncorrect.goto))
  }

  /** Everything `answer` does after grading. */
  function Graded(d: GameDefinition, s: GameState, el: Element, index: nat, v: Challenges.Verdict): Step
    requires el.Challenge?
  {
    var counted := Counted(s, el.id);
    After([QuestionAnswered(el.id, v.correct, v.score, counted.Attempts(el.id))],
          if v.correct then Resolve(d, Recorded(counted, el.id, true, v.score), el.onCorrect, index)
          else Wrong(d, counted, el, index, v.score))
  }

  function Answer(d: GameDefinition, s: GameState, elementId: string, response: Challenges.Response): Step {
    match FindChallenge(d, s, elementId)
    case Missing(error) => Raised(error, s)
    case Found(el, index) =>
      match Challenges.Evaluate(el.config, response)
      case None => Raised(InvalidConfig, s)
      case Some(verdict) => Graded(d, s, el, index, verdict)
  }

  datatype Move = MoveAdvance | MoveChoose(element: string, option: string)
                | MoveAnswer(element: string, response: Challenges.Response)

  function Play(d: GameDefinition, s: GameState, m: Move): Step {
    match m
    case MoveAdvance => Advance(d, s)
    case MoveChoose(element, option) => Choose(d, s, element, option)
    case MoveAnswer(element, response) => Answer(d, s, element, response)
  }

  // ---- The interpreter itself ----

  lemma ScanPasses(d: GameDefinition, facts: PlayerFacts, elements: seq<Element>, i: nat)
    requires i < |elements| && !elements[i].Interactive()
    ensures Pending(elements, i) == Pending(elements, i + 1)
    ensures Passives(d, facts, elements, i) == Shown(d, facts, elements[i]) + Passives(d, facts, elements, i + 1)
  {
  }

  lemma ScanStops(d: GameDefinition, facts: PlayerFacts, elements: seq<Element>, i: nat)
    requires i < |elements| ==> elements[i].Interactive()
    ensures Pending(elements, i) == (if i < |elements| then Some(i) else None)
    ensures Passives(d, facts, elements, i) == []
  {
  }

  /** What a scan that stopped at `i` has collected is what the view shows. */
  lemma ScanFinds(d: GameDefinition, elements: seq<Element>, s: GameState, i: nat, passives: seq<Passive>)
    requires i < |elements| ==> elements[i].Interactive()
    requires Pending(elements, i) == Pending(elements, s.elementIndex)
    requires passives + Passives(d, s.Facts(), elements, i) == Passives(d, s.Facts(), elements, s.elementIndex)
    ensures ActiveView(d, elements, s) ==
            if i < |elements| then Blocked(passives, elements[i], s) else Seen(View(passives, None, true, None))
  {
    ScanStops(d, s.Facts(), elements, i);
  }

  /** The rendering loop of an active document. */
  method ScanScene(d: GameDefinition, elements: seq<Element>, s: GameState) returns (viewed: Viewed)
    ensures viewed == ActiveView(d, elements, s)
  {
    var facts := s.Facts();
    var passives := [];
    var index := s.elementIndex;
    while index < |elements|
      invariant passives + Passives(d, facts, elements, index) == Passives(d, facts, elements, s.elementIndex)
      invariant Pending(elements, index) == Pending(elements, s.elementIndex)
    {
      var element := elements[index];
      if element.Interactive() {
        ScanFinds(d, elements, s, index, passives);
        return Blocked(passives, element, s);
      }
      ScanPasses(d, facts, elements, index);
      passives := passives + Shown(d, facts, element);
      index := index + 1;
    }
    ScanFinds(d, elements, s, index, passives);
    return Seen(View(passives, None, true, None));
  }

  method ComputeView(d: GameDefinition, state: StateDocument) returns (viewed: Viewed)
    ensures viewed == ViewOf(d, state.Value())
  {
    if state.sceneId !in d.scenes {
      return Unseen(KeyError);
    }
    var scene := d.scenes[state.sceneId];
    if state.status == Completed {
      return Seen(View([], None, false,
                       Some(if scene.ending.Some? then FullEnding(scene.ending.value)
                            else BareEnding(state.endingId))));
    }
    viewed := ScanScene(d, scene.elements, state.Value());
  }

  method PendingInteractive(d: GameDefinition, state: StateDocument) returns (target: Target)
    requires state.status == Active
    ensures target == FindPending(d, state.Value())
  {
    if state.sceneId !in d.scenes {
      return Missing(KeyError);
    }
    var elements := d.scenes[state.sceneId].elements;
    var index := state.elementIndex;
    while index < |elements|
      invariant Pending(elements, index) == Pending(elements, state.elementIndex)
    {
      if elements[index].Interactive() {
        return Found(elements[index], index);
      }
      index := index + 1;
    }
    return Missing(NothingPending);
  }

  method EnterSceneInPlace(d: GameDefinition, state: StateDocument, id: string)
    returns (events: seq<Event>, failure: Option<Failure>)
    modifies state
    ensures Yields(EnterScene(d, old(state.Value()), id), state.Value(), events, failure)
  {
    state.sceneId := id;
    state.elementIndex := 0;
    if id !in d.scenes {
      return [], Some(KeyError);
    }
    events, failure := ApplyInPlace(state, d.scenes[id].onEnter);
    events := [SceneEntered(id)] + events;
  }

  method LeaveInPlace(d: GameDefinition, state: StateDocument, goto: Option<string>)
    returns (events: seq<Event>, failure: Option<Failure>)
    modifies state
    ensures Yields(Leave(d, old(state.Value()), goto), state.Value(), events, failure)
  {
    events, failure := [], None;
    if goto.Some? {
      var left := state.sceneId;
      events, failure := EnterSceneInPlace(d, state, goto.value);
      events := [SceneCompleted(left)] + events;
    }
  }

  method ResolveInPlace(d: GameDefinition, state: StateDocument, outcome: Outcome, index: nat)
    returns (events: seq<Event>, failure: Option<Failure>)
    modifies state
    ensures Yields(Resolve(d, old(state.Value()), outcome, index), state.Value(), events, failure)
  {
    events, failure := ApplyInPlace(state, outcome.effects);
    if failure.None? {
      state.elementIndex := index + 1;
      var more;
      more, failure := LeaveInPlace(d, state, outcome.goto);
      events := events + more;
    }
  }

  method CreateState(d: GameDefinition)
    returns (state: StateDocument, events: seq<Event>, failure: Option<Failure>)
    ensures fresh(state)
    ensures Yields(NewState(d), state.Value(), events, failure)
  {
    state := new StateDocument(BlankState(d));
    events, failure := EnterSceneInPlace(d, state, d.startScene);
  }

  method AdvanceInPlace(d: GameDefinition, state: StateDocument)
    returns (events: seq<Event>, failure: Option<Failure>)
    modifies state
    ensures Yields(Advance(d, old(state.Value())), state.Value(), events, failure)
  {
    if state.status != Active {
      return [], Some(NotActive);
    }
    var viewed := ComputeView(d, state);
    if viewed.Unseen? {
      return [], Some(viewed.error);
    }
    if viewed.view.interactive.Some? {
      return [], Some(InteractionPending);
    }
    var scene := d.scenes[state.sceneId];
    var completed := [SceneCompleted(state.sceneId)];
    if scene.ending.Some? {
      state.status := Completed;
      state.endingId := Some(scene.ending.value.id);
      return completed + [MissionFinished(scene.ending.value.id, state.xpEarned, state.results)], None;
    } else if scene.next.Some? {
      events, failure := EnterSceneInPlace(d, state, scene.next.value);
      events := completed + events;
    } else {
      return [], Some(NoTransition);
    }
  }

  method ChooseInPlace(d: GameDefinition, state: StateDocument, elementId: string, optionId: string)
    returns (events: seq<Event>, failure: Option<Failure>)
    modifies state
    ensures Yields(Choose(d, old(state.Value()), elementId, optionId), state.Value(), events, failure)
  {
    if state.status != Active {
      return [], Some(NotActive);
    }
    var target := PendingInteractive(d, state);
    if target.Missing? {
      return [], Some(target.error);
    }
    if !target.element.Choice? || target.element.id != elementId {
      return [], Some(WrongElement);
    }
    var option := FindOption(target.element.options, optionId);
    if option.None? || !Holds(option.value.condition, state.Value().Facts()) {
      return [], Some(InvalidOption);
    }
    events, failure := ResolveInPlace(d, state, Outcome(option.value.effects, option.value.goto), target.index);
  }

  method AnswerInPlace(d: GameDefinition, state: StateDocument, elementId: string, response: Challenges.Response)
    returns (events: seq<Event>, failure: Option<Failure>)
    modifies state
    ensures Yields(Answer(d, old(state.Value()), elementId, response), state.Value(), events, failure)
  {
    if state.status != Active {
      return [], Some(NotActive);
    }
    var target := PendingInteractive(d, state);
    if target.Missing? {
      return [], Some(target.error);
    }
    var element := target.element;
    if !element.Challenge? || element.id != elementId {
      return [], Some(WrongElement);
    }
    var attempts := CountOf(state.attempts, element.id);
    if attempts >= element.maxAttempts {
      return [], Some(NoAttempts);
    }
    var result := Challenges.Evaluate(element.config, response);
    if result.None? {
      return [], Some(InvalidConfig);
    }
    events, failure := GradedInPlace(d, state, element, target.index, result.value);
  }

  method GradedInPlace(d: GameDefinition, state: StateDocument, el: Element, index: nat, v: Challenges.Verdict)
    returns (events: seq<Event>, failure: Option<Failure>)
    requires el.Challenge?
    modifies state
    ensures Yields(Graded(d, old(state.Value()), el, index, v), state.Value(), events, failure)
  {
    var attempt := CountOf(state.attempts, el.id) + 1;
    state.attempts := state.attempts[el.id := attempt];
    if v.correct {
      state.results := state.results[el.id := ResultRecord(true, v.score, attempt)];
      events, failure := ResolveInPlace(d, state, el.onCorrect, index);
    } else {
      events, failure := WrongInPlace(d, state, el, index, v.score);
    }
    events := [QuestionAnswered(el.id, v.correct, v.score, attempt)] + events;
  }

  method WrongInPlace(d: GameDefinition, state: StateDocument, el: Element, index: nat, score: real)
    returns (events: seq<Event>, failure: Option<Failure>)
    requires el.Challenge?
    modifies state
    ensures Yields(Wrong(d, old(state.Value()), el, index, score), state.Value(), events, failure)
  {
    events, failure := ApplyInPlace(state, el.onIncorrect.effects);
    if failure.Some? { return; }
    var more;
    var attempts := CountOf(state.attempts, el.id);
    if attempts >= el.maxAttempts {
      state.results := state.results[el.id := ResultRecord(false, score, attempts)];
      more, failure := ResolveInPlace(d, state, el.onExhausted.GetOr(Outcome([], None)), index);
    } else {
      more, failure := LeaveInPlace(d, state, el.onIncorrect.goto);
    }
    events := events + more;
  }
}
