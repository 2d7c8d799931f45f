/** What every engine call keeps, and why no lookup or arithmetic of the interpreter can fail on an
    accepted definition. */
module EngineSafety {
  import opened Wrappers
  import opened Conditions
  import opened Effects
  import opened Definition
  import opened Engine
  import Challenges

  /** The player's own data is well formed. */
  ghost predicate PlayerOk(s: GameState) {
    && (forall item :: item in s.inventory ==> s.inventory[item] >= 1)
    && Distinct(s.flags) && Distinct(s.achievements)
    && s.xpEarned >= 0
    && forall id :: id in s.attempts ==> s.attempts[id] >= 1
  }

  /** The document invariant. */
  ghost predicate StateInv(d: GameDefinition, s: GameState) {
    && PlayerOk(s)
    && s.sceneId in d.scenes
    && var scene := d.scenes[s.sceneId];
    && s.elementIndex <= |scene.elements|
    && (s.status.Active? ==> s.endingId.None?)
    && (s.status.Completed? ==> scene.ending.Some? && s.endingId == Some(scene.ending.value.id))
  }

  // ---- Static typing of variables ----

  /** Increments hit only `numeric` variables, and no assignment makes one of those a string. */
  predicate EffectTyped(numeric: set<string>, e: Effect) {
    match e
    case IncVar(key, _) => key in numeric
    case SetVar(key, value) => key in numeric ==> value.Numeric()
    case _ => true
  }

  predicate EffectsTyped(numeric: set<string>, es: seq<Effect>) {
    forall i :: 0 <= i < |es| ==> EffectTyped(numeric, es[i])
  }

  predicate ElementTyped(numeric: set<string>, el: Element) {
    match el
    case Choice(_, _, options) => forall i :: 0 <= i < |options| ==> EffectsTyped(numeric, options[i].effects)
    case Challenge(_, _, _, onCorrect, onIncorrect, onExhausted) =>
      EffectsTyped(numeric, onCorrect.effects) && EffectsTyped(numeric, onIncorrect.effects) &&
      (onExhausted.Some? ==> EffectsTyped(numeric, onExhausted.value.effects))
    case _ => true
  }

  predicate SceneTyped(numeric: set<string>, scene: Scene) {
    EffectsTyped(numeric, scene.onEnter) &&
    forall i :: 0 <= i < |scene.elements| ==> ElementTyped(numeric, scene.elements[i])
  }

  predicate VarsOk(numeric: set<string>, variables: map<string, Value>) {
    forall key :: key in numeric && key in variables ==> variables[key].Numeric()
  }

  /** No variable that some effect increments ever starts as, or is set to, a string. */
  predicate WellTyped(d: GameDefinition, numeric: set<string>) {
    VarsOk(numeric, d.variables) && forall id :: id in d.scenes ==> SceneTyped(numeric, d.scenes[id])
  }

  // ---- Effects ----

  /** Effects never touch the position, the challenge bookkeeping or the completion fields. */
  ghost predicate SamePosition(s: GameState, t: GameState) {
    t.sceneId == s.sceneId && t.elementIndex == s.elementIndex && t.attempts == s.attempts &&
    t.results == s.results && t.status == s.status && t.endingId == s.endingId
  }

  function StateAfter(step: Step): GameState {
    match step
    case Done(s, _) => s
    case Raised(_, left) => left
  }

  lemma EffectKeepsPosition(s: GameState, e: Effect)
    ensures SamePosition(s, StateAfter(ApplyEffect(s, e)))
  {
  }

  lemma {:induction false} EffectsKeepPosition(s: GameState, es: seq<Effect>)
    ensures SamePosition(s, StateAfter(ApplyEffects(s, es)))
  {
    if es != [] {
      EffectsKeepPosition(s, es[..|es| - 1]);
      EffectKeepsPosition(StateAfter(ApplyEffects(s, es[..|es| - 1])), es[|es| - 1]);
    }
  }

  lemma EffectKeepsPlayer(s: GameState, e: Effect)
    requires PlayerOk(s) && EffectFieldsOk(e)
    ensures ApplyEffect(s, e).Done? ==> PlayerOk(ApplyEffect(s, e).state)
  {
    RemoveFirstKeepsDistinct(s.flags, if e.SetFlag? then e.key else "");
  }

  /** Effects are what conditions see. After an effect, a condition on its own key holds exactly when it
      should: equality with the value written, the flag as set, and a minimum quantity up to what is now
      held; and no other variable, flag or item has changed. */
  lemma ConditionsSeeEffects(s: GameState, e: Effect)
    requires PlayerOk(s) && EffectFieldsOk(e) && ApplyEffect(s, e).Done?
    ensures var facts := ApplyEffect(s, e).state.Facts();
            match e
            case SetVar(key, value) => Evaluate(VarCondition(key, Eq, value), facts)
            case IncVar(key, amount) =>
              var numeric := key in s.variables && s.variables[key].Numeric();
              var before := if numeric then s.variables[key].AsNumber() else 0.0;
              Evaluate(VarCondition(key, Eq, Num(before + amount)), facts)
            case SetFlag(key, present) => Evaluate(FlagCondition(key, present), facts)
            case GrantItem(item, qty) =>
              forall n :: Evaluate(ItemCondition(item, n), facts) <==> n <= CountOf(s.inventory, item) + qty
            case RemoveItem(item, qty) =>
              forall n :: n >= 1 ==>
                (Evaluate(ItemCondition(item, n), facts) <==> n <= CountOf(s.inventory, item) - qty)
            case _ => facts == s.Facts()
    ensures var t := ApplyEffect(s, e).state;
            (forall key :: !((e.SetVar? || e.IncVar?) && key == e.key) ==>
               (key in t.variables <==> key in s.variables) &&
               (key in s.variables ==> t.variables[key] == s.variables[key])) &&
            (forall flag :: !(e.SetFlag? && flag == e.key) ==> (flag in t.flags <==> flag in s.flags)) &&
            (forall item :: !((e.GrantItem? || e.RemoveItem?) && item == e.item) ==>
               CountOf(t.inventory, item) == CountOf(s.inventory, item))
  {
    RemoveFirstKeepsDistinct(s.flags, if e.SetFlag? then e.key else "");
    if e.SetVar? && e.value.Str? {
      StringLessTotal(e.value.s, e.value.s);
    }
  }

  lemma {:induction false} EffectsKeepPlayer(s: GameState, es: seq<Effect>)
    requires PlayerOk(s) && EffectsFieldsOk(es)
    ensures ApplyEffects(s, es).Done? ==> PlayerOk(ApplyEffects(s, es).state)
  {
    if es != [] {
      EffectsKeepPlayer(s, es[..|es| - 1]);
      var front := ApplyEffects(s, es[..|es| - 1]);
      if front.Done? {
        EffectKeepsPlayer(front.state, es[|es| - 1]);
      }
    }
  }

  lemma {:induction false} TypedEffectsSucceed(s: GameState, es: seq<Effect>, numeric: set<string>)
    requires VarsOk(numeric, s.variables) && EffectsTyped(numeric, es)
    ensures ApplyEffects(s, es).Done? && VarsOk(numeric, ApplyEffects(s, es).state.variables)
  {
    if es != [] {
      TypedEffectsSucceed(s, es[..|es| - 1], numeric);
      assert EffectTyped(numeric, es[|es| - 1]);
    }
  }

  // ---- Scene changes ----

  /** An active document whose player data is fine; its position may be in flux. */
  ghost predicate Playing(s: GameState) { PlayerOk(s) && s.status.Active? && s.endingId.None? }

  /** A call succeeded and left the invariant and the typing intact; without typing it may also crash. */
  ghost predicate Safe(d: GameDefinition, numeric: set<string>, typed: bool, step: Step) {
    && (typed ==> step.Done? && VarsOk(numeric, step.state.variables))
    && (step.Done? ==> StateInv(d, step.state))
    && (step.Raised? ==> step.error == TypeError)
  }

  lemma EnterSceneSafe(d: GameDefinition, s: GameState, id: string, numeric: set<string>, typed: bool)
    requires Accepted(d) && Playing(s) && id in d.scenes
    requires typed ==> WellTyped(d, numeric) && VarsOk(numeric, s.variables)
    ensures Safe(d, numeric, typed, EnterScene(d, s, id))
  {
    var moved := s.(sceneId := id, elementIndex := 0);
    var onEnter := d.scenes[id].onEnter;
    EffectsKeepPosition(moved, onEnter);
    EffectsKeepPlayer(moved, onEnter);
    CrashesOnlyOnStrings(moved, onEnter);
    if typed { TypedEffectsSucceed(moved, onEnter, numeric); }
  }

  lemma LeaveSafe(d: GameDefinition, s: GameState, goto: Option<string>, numeric: set<string>, typed: bool)
    requires Accepted(d) && StateInv(d, s) && s.status.Active? && TargetOk(d, goto)
    requires typed ==> WellTyped(d, numeric) && VarsOk(numeric, s.variables)
    ensures Safe(d, numeric, typed, Leave(d, s, goto))
  {
    if goto.Some? {
      EnterSceneSafe(d, s, goto.value, numeric, typed);
    }
  }

  lemma ResolveSafe(d: GameDefinition, s: GameState, outcome: Outcome, index: nat, numeric: set<string>, typed: bool)
    requires Accepted(d) && StateInv(d, s) && s.status.Active? && index < |d.scenes[s.sceneId].elements|
    requires EffectsFieldsOk(outcome.effects) && TargetOk(d, outcome.goto)
    requires typed ==> WellTyped(d, numeric) && VarsOk(numeric, s.variables) && EffectsTyped(numeric, outcome.effects)
    ensures Safe(d, numeric, typed, Resolve(d, s, outcome, index))
  {
    EffectsKeepPosition(s, outcome.effects);
    EffectsKeepPlayer(s, outcome.effects);
    CrashesOnlyOnStrings(s, outcome.effects);
    if typed { TypedEffectsSucceed(s, outcome.effects, numeric); }
    var applied := ApplyEffects(s, outcome.effects);
    if applied.Done? {
      LeaveSafe(d, applied.state.(elementIndex := index + 1), outcome.goto, numeric, typed);
    }
  }

  // ---- The moves ----

  lemma FindOptionProps(options: seq<ChoiceOption>, id: string)
    ensures var f := FindOption(options, id);
            if f.Some? then exists i :: 0 <= i < |options| && options[i] == f.value && f.value.id == id
            else forall i :: 0 <= i < |options| ==> options[i].id != id
  {
    if options != [] && options[0].id != id {
      FindOptionProps(options[1..], id);
      assert options == [options[0]] + options[1..];
    }
  }

  lemma ChooseSafe(
      d: GameDefinition, s: GameState, elementId: string, optionId: string, numeric: set<string>, typed: bool)
    requires Accepted(d) && StateInv(d, s)
    requires typed ==> WellTyped(d, numeric) && VarsOk(numeric, s.variables)
    ensures MoveSafe(d, s, numeric, typed, Choose(d, s, elementId, optionId))
  {
    var t := FindPending(d, s);
    if t.Found? && t.element.Choice? {
      FindOptionProps(t.element.options, optionId);
      var f := FindOption(t.element.options, optionId);
      if f.Some? {
        var scene := d.scenes[s.sceneId];
        assert SceneOk(d, scene) && SceneFieldsOk(scene) && ElementOk(d, t.element) && ElementFieldsOk(t.element);
        assert typed ==> SceneTyped(numeric, scene) && ElementTyped(numeric, t.element);
        ResolveSafe(d, s, Outcome(f.value.effects, f.value.goto), t.index, numeric, typed);
      }
    }
  }

  /** After a move: the invariant holds again, or the move was refused and the document is untouched;
      only an increment of a string variable can break the interpreter, never a lookup. */
  ghost predicate MoveSafe(d: GameDefinition, s: GameState, numeric: set<string>, typed: bool, step: Step) {
    match step
    case Done(t, _) => StateInv(d, t) && (typed ==> VarsOk(numeric, t.variables))
    case Raised(error, left) =>
      !error.KeyError? && !error.InvalidConfig? && (typed ==> !error.TypeError?) && (!error.Crash() ==> left == s)
  }

  /** `el` is the challenge at `index` of the current scene of an active document. */
  ghost predicate At(d: GameDefinition, s: GameState, el: Element, index: nat) {
    StateInv(d, s) && s.status.Active? && index < |d.scenes[s.sceneId].elements| &&
    d.scenes[s.sceneId].elements[index] == el && el.Challenge?
  }

  lemma WrongSafe(
      d: GameDefinition, s: GameState, el: Element, index: nat, score: real, numeric: set<string>, typed: bool)
    requires Accepted(d) && At(d, s, el, index)
    requires typed ==> WellTyped(d, numeric) && VarsOk(numeric, s.variables)
    ensures Safe(d, numeric, typed, Wrong(d, s, el, index, score))
  {
    var scene := d.scenes[s.sceneId];
    assert SceneOk(d, scene) && SceneFieldsOk(scene) && ElementOk(d, el) && ElementFieldsOk(el);
    assert typed ==> SceneTyped(numeric, scene) && ElementTyped(numeric, el);
    var es := el.onIncorrect.effects;
    EffectsKeepPosition(s, es);
    EffectsKeepPlayer(s, es);
    CrashesOnlyOnStrings(s, es);
    if typed { TypedEffectsSucceed(s, es, numeric); }
    var applied := ApplyEffects(s, es);
    if applied.Done? {
      if applied.state.Attempts(el.id) >= el.maxAttempts {
        ResolveSafe(d, Recorded(applied.state, el.id, false, score), el.onExhausted.GetOr(Outcome([], None)), index,
                    numeric, typed);
      } else {
        LeaveSafe(d, applied.state, el.onIncorrect.goto, numeric, typed);
      }
    }
  }

  lemma GradedSafe(d: GameDefinition, s: GameState, el: Element, index: nat, v: Challenges.Verdict,
                   numeric: set<string>, typed: bool)
    requires Accepted(d) && At(d, s, el, index)
    requires typed ==> WellTyped(d, numeric) && VarsOk(numeric, s.variables)
    ensures Safe(d, numeric, typed, Graded(d, s, el, index, v))
  {
    var scene := d.scenes[s.sceneId];
    assert SceneOk(d, scene) && SceneFieldsOk(scene) && ElementOk(d, el) && ElementFieldsOk(el);
    assert typed ==> SceneTyped(numeric, scene) && ElementTyped(numeric, el);
    var counted := Counted(s, el.id);
    if v.correct {
      ResolveSafe(d, Recorded(counted, el.id, true, v.score), el.onCorrect, index, numeric, typed);
    } else {
      WrongSafe(d, counted, el, index, v.score, numeric, typed);
    }
  }

  lemma AnswerSafe(d: GameDefinition, s: GameState, elementId: string, response: Challenges.Response,
                   numeric: set<string>, typed: bool)
    requires Accepted(d) && StateInv(d, s)
    requires typed ==> WellTyped(d, numeric) && VarsOk(numeric, s.variables)
    ensures MoveSafe(d, s, numeric, typed, Answer(d, s, elementId, response))
  {
    var t := FindChallenge(d, s, elementId);
    if t.Found? {
      assert SceneOk(d, d.scenes[s.sceneId]) && ElementOk(d, t.element);
      Challenges.GradingExact(Challenges.ASCII, t.element.config, response);
      GradedSafe(d, s, t.element, t.index, Challenges.Evaluate(t.element.config, response).value, numeric, typed);
    }
  }

  /** On an accepted definition a view can always be shown. */
  lemma ViewAlwaysSeen(d: GameDefinition, s: GameState)
    requires Accepted(d) && StateInv(d, s)
    ensures ViewOf(d, s).Seen?
  {
    var scene := d.scenes[s.sceneId];
    var p := Pending(scene.elements, s.elementIndex);
    if p.Some? {
      assert SceneOk(d, scene) && ElementOk(d, scene.elements[p.value]);
    }
  }

  lemma FinishSafe(d: GameDefinition, s: GameState)
    requires StateInv(d, s) && s.status.Active? && d.scenes[s.sceneId].ending.Some?
    ensures var t := Finish(s, d.scenes[s.sceneId].ending.value.id).state; StateInv(d, t) && t.variables == s.variables
  {
  }

  lemma AdvanceSafe(d: GameDefinition, s: GameState, numeric: set<string>, typed: bool)
    requires Accepted(d) && StateInv(d, s)
    requires typed ==> WellTyped(d, numeric) && VarsOk(numeric, s.variables)
    ensures MoveSafe(d, s, numeric, typed, Advance(d, s))
  {
    if s.status.Active? {
      ViewAlwaysSeen(d, s);
      var scene := d.scenes[s.sceneId];
      assert SceneOk(d, scene);
      if ViewOf(d, s).view.interactive.None? {
        if scene.ending.Some? {
          FinishSafe(d, s);
        } else if scene.next.Some? {
          EnterSceneSafe(d, s, scene.next.value, numeric, typed);
        }
      }
    }
  }

  /** Every move keeps the document invariant; a refusal changes nothing; and with no incremented
      string variable the interpreter never breaks. */
  lemma PlaySafe(d: GameDefinition, s: GameState, m: Move, numeric: set<string>, typed: bool)
    requires Accepted(d) && StateInv(d, s)
    requires typed ==> WellTyped(d, numeric) && VarsOk(numeric, s.variables)
    ensures MoveSafe(d, s, numeric, typed, Play(d, s, m))
  {
    match m
    case MoveAdvance => AdvanceSafe(d, s, numeric, typed);
    case MoveChoose(element, option) => ChooseSafe(d, s, element, option, numeric, typed);
    case MoveAnswer(element, response) => AnswerSafe(d, s, element, response, numeric, typed);
  }

  /** A new game on an accepted definition starts in the invariant. */
  lemma NewStateSafe(d: GameDefinition, numeric: set<string>, typed: bool)
    requires Accepted(d)
    requires typed ==> WellTyped(d, numeric)
    ensures Safe(d, numeric, typed, NewState(d))
  {
    EnterSceneSafe(d, BlankState(d), d.startScene, numeric, typed);
  }
}
