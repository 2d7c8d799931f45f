/** Exactly when an offered move breaks the interpreter: told from the document and the definition, before
    the move is made (backend/app/modules/runtime/engine.py, effects.py). */
module CrashExactness {
  import opened Wrappers
  import Conditions
  import opened Effects
  import opened Definition
  import opened Engine
  import opened EngineSafety
  import opened ViewExactness
  import Challenges

  // ---- The effects a move runs, in order ----

  function EntryEffects(d: GameDefinition, goto: Option<string>): seq<Effect> {
    if goto.Some? && goto.value in d.scenes then d.scenes[goto.value].onEnter else []
  }

  function OutcomeEffects(d: GameDefinition, outcome: Outcome): seq<Effect> {
    outcome.effects + EntryEffects(d, outcome.goto)
  }

  /** The branch a verdict selects; a wrong answer runs its own effects first. */
  function BranchEffects(d: GameDefinition, s: GameState, el: Element, correct: bool): seq<Effect>
    requires el.Challenge?
  {
    if correct then OutcomeEffects(d, el.onCorrect)
    else el.onIncorrect.effects +
         if s.Attempts(el.id) + 1 >= el.maxAttempts then OutcomeEffects(d, el.onExhausted.GetOr(Outcome([], None)))
         else EntryEffects(d, el.onIncorrect.goto)
  }

  /** All effects of a move that gets past the guards. */
  function MoveEffects(d: GameDefinition, s: GameState, m: Move): seq<Effect>
    requires s.sceneId in d.scenes
  {
    match m
    case MoveAdvance =>
      var scene := d.scenes[s.sceneId];
      if scene.ending.Some? then [] else EntryEffects(d, scene.next)
    case MoveChoose(_, optionId) =>
      (match FindPending(d, s)
       case Missing(_) => []
       case Found(el, _) =>
         var option := if el.Choice? then FindOption(el.options, optionId) else None;
         if option.None? then [] else OutcomeEffects(d, Outcome(option.value.effects, option.value.goto)))
    case MoveAnswer(_, response) =>
      match FindPending(d, s)
      case Missing(_) => []
      case Found(el, _) =>
        var verdict := if el.Challenge? then Challenges.Evaluate(el.config, response) else None;
        if verdict.None? then [] else BranchEffects(d, s, el, verdict.value.correct)
  }

  // ---- When they break ----

  lemma NothingBreaks(variables: map<string, Conditions.Value>)
    ensures !MeetsString(variables, [])
  {
  }

  lemma EnterBreaks(d: GameDefinition, s: GameState, id: string)
    requires id in d.scenes
    ensures EnterScene(d, s, id).Raised? <==> MeetsString(s.variables, d.scenes[id].onEnter)
  {
    CrashesOnlyOnStrings(s.(sceneId := id, elementIndex := 0), d.scenes[id].onEnter);
  }

  lemma LeaveBreaks(d: GameDefinition, s: GameState, goto: Option<string>)
    requires TargetOk(d, goto)
    ensures Leave(d, s, goto).Raised? <==> MeetsString(s.variables, EntryEffects(d, goto))
  {
    if goto.Some? { EnterBreaks(d, s, goto.value); }
  }

  lemma ResolveBreaks(d: GameDefinition, s: GameState, outcome: Outcome, index: nat)
    requires TargetOk(d, outcome.goto)
    ensures Resolve(d, s, outcome, index).Raised? <==> MeetsString(s.variables, OutcomeEffects(d, outcome))
  {
    BreaksInParts(s, outcome.effects, EntryEffects(d, outcome.goto));
    var applied := ApplyEffects(s, outcome.effects);
    if applied.Done? {
      LeaveBreaks(d, applied.state.(elementIndex := index + 1), outcome.goto);
    }
  }

  lemma WrongBreaks(d: GameDefinition, s: GameState, el: Element, index: nat, score: real)
    requires el.Challenge? && ElementOk(d, el)
    ensures var rest := if s.Attempts(el.id) >= el.maxAttempts
                        then OutcomeEffects(d, el.onExhausted.GetOr(Outcome([], None)))
                        else EntryEffects(d, el.onIncorrect.goto);
            Wrong(d, s, el, index, score).Raised? <==> MeetsString(s.variables, el.onIncorrect.effects + rest)
  {
    var exhausted := el.onExhausted.GetOr(Outcome([], None));
    var applied := ApplyEffects(s, el.onIncorrect.effects);
    BreaksInParts(s, el.onIncorrect.effects, OutcomeEffects(d, exhausted));
    BreaksInParts(s, el.onIncorrect.effects, EntryEffects(d, el.onIncorrect.goto));
    EffectsKeepPosition(s, el.onIncorrect.effects);
    if applied.Done? {
      LeaveBreaks(d, applied.state, el.onIncorrect.goto);
      ResolveBreaks(d, Recorded(applied.state, el.id, false, score), exhausted, index);
    }
  }

  lemma GradedBreaks(d: GameDefinition, s: GameState, el: Element, index: nat, v: Challenges.Verdict)
    requires el.Challenge? && ElementOk(d, el)
    ensures Graded(d, s, el, index, v).Raised? <==> MeetsString(s.variables, BranchEffects(d, s, el, v.correct))
  {
    var counted := Counted(s, el.id);
    if v.correct {
      ResolveBreaks(d, Recorded(counted, el.id, true, v.score), el.onCorrect, index);
    } else {
      WrongBreaks(d, counted, el, index, v.score);
    }
  }

  lemma AdvanceBreaks(d: GameDefinition, s: GameState)
    requires Accepted(d) && StateInv(d, s) && Offers(d, s, MoveAdvance)
    ensures Advance(d, s).Raised? <==> MeetsString(s.variables, MoveEffects(d, s, MoveAdvance))
  {
    ViewAlwaysSeen(d, s);
    AdvanceIsExact(d, s);
    var scene := d.scenes[s.sceneId];
    assert SceneOk(d, scene);
    NothingBreaks(s.variables);
    if scene.next.Some? { EnterBreaks(d, s, scene.next.value); }
  }

  lemma ChooseBreaks(d: GameDefinition, s: GameState, element: string, optionId: string)
    requires Accepted(d) && StateInv(d, s) && Offers(d, s, MoveChoose(element, optionId))
    ensures Choose(d, s, element, optionId).Raised? <==>
            MeetsString(s.variables, MoveEffects(d, s, MoveChoose(element, optionId)))
  {
    ChooseIsExact(d, s, element, optionId);
    var t := FindPending(d, s);
    assert SceneOk(d, d.scenes[s.sceneId]) && ElementOk(d, t.element);
    FindOptionProps(t.element.options, optionId);
    var option := FindOption(t.element.options, optionId).value;
    ResolveBreaks(d, s, Outcome(option.effects, option.goto), t.index);
  }

  lemma AnswerBreaks(d: GameDefinition, s: GameState, element: string, response: Challenges.Response)
    requires Accepted(d) && StateInv(d, s) && Offers(d, s, MoveAnswer(element, response))
    ensures Answer(d, s, element, response).Raised? <==>
            MeetsString(s.variables, MoveEffects(d, s, MoveAnswer(element, response)))
  {
    AnswerIsExact(d, s, element, response);
    var t := FindPending(d, s);
    assert SceneOk(d, d.scenes[s.sceneId]) && ElementOk(d, t.element);
    Challenges.GradingExact(Challenges.ASCII, t.element.config, response);
    GradedBreaks(d, s, t.element, t.index, Challenges.Evaluate(t.element.config, response).value);
  }

  /** In every state of the document invariant a move succeeds if and only if the view offers it and no
      increment among its effects meets a string; and an offered move that fails raises a TypeError. */
  lemma MoveSucceedsExactly(d: GameDefinition, s: GameState, m: Move)
    requires Accepted(d) && StateInv(d, s)
    ensures Play(d, s, m).Done? <==> Offers(d, s, m) && !MeetsString(s.variables, MoveEffects(d, s, m))
    ensures Offers(d, s, m) && Play(d, s, m).Raised? ==> Play(d, s, m).error.TypeError?
  {
    ViewIsExact(d, s, m);
    if Offers(d, s, m) {
      match m {
        case MoveAdvance => AdvanceBreaks(d, s);
        case MoveChoose(element, optionId) => ChooseBreaks(d, s, element, optionId);
        case MoveAnswer(element, response) => AnswerBreaks(d, s, element, response);
      }
    }
  }

  /** A game starts if and only if no increment of its first scene's entry effects meets a string among the
      declared variables or the effects before it. */
  lemma GameStartsExactly(d: GameDefinition)
    requires Accepted(d)
    ensures NewState(d).Done? <==> !MeetsString(d.variables, d.scenes[d.startScene].onEnter)
  {
    EnterBreaks(d, BlankState(d), d.startScene);
  }
}
