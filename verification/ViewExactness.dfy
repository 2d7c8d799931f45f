/** The view and the moves agree: what the player is shown is exactly what the engine accepts. */
module ViewExactness {
  import opened Wrappers
  import opened Conditions
  import opened Effects
  import opened Definition
  import opened Engine
  import opened EngineSafety
  import Challenges

  /** The view invites this move. */
  ghost predicate Offers(d: GameDefinition, s: GameState, m: Move) {
    var viewed := ViewOf(d, s);
    viewed.Seen? &&
    match m
    case MoveAdvance =>
      viewed.view.canAdvance && (d.scenes[s.sceneId].ending.Some? || d.scenes[s.sceneId].next.Some?)
    case MoveChoose(element, option) =>
      var shown := viewed.view.interactive;
      shown.Some? && shown.value.PendingChoice? && shown.value.id == element && Lists(shown.value.options, option)
    case MoveAnswer(element, _) =>
      var shown := viewed.view.interactive;
      shown.Some? && shown.value.PendingChallenge? && shown.value.id == element && shown.value.attemptsRemaining > 0
  }

  ghost predicate Lists(options: seq<(string, string)>, id: string) {
    exists i :: 0 <= i < |options| && options[i].0 == id
  }

  /** The option with this id, when it exists and its condition holds, is what the view lists. */
  lemma {:induction false} VisibleIffFound(options: seq<ChoiceOption>, facts: PlayerFacts, id: string)
    requires Distinct(OptionIds(options))
    ensures Lists(VisibleOptions(options, facts), id) <==>
            FindOption(options, id).Some? && Holds(FindOption(options, id).value.condition, facts)
  {
    if options != [] {
      var rest := options[1..];
      var ids, restIds := OptionIds(options), OptionIds(rest);
      assert Distinct(restIds) by {
        forall i, j | 0 <= i < j < |restIds| ensures restIds[i] != restIds[j] { assert ids[i + 1] != ids[j + 1]; }
      }
      VisibleIffFound(rest, facts, id);
      var head := if Holds(options[0].condition, facts) then [(options[0].id, options[0].text)] else [];
      ListsConcat(head, VisibleOptions(rest, facts), id);
      assert Holds(options[0].condition, facts) ==> head[0].0 == options[0].id;
      if options[0].id == id {
        FindOptionProps(rest, id);
        forall i | 0 <= i < |rest| ensures rest[i].id != id {
          assert ids[i + 1] != ids[0];
        }
      }
    }
  }

  lemma ListsConcat(a: seq<(string, string)>, b: seq<(string, string)>, id: string)
    ensures Lists(a + b, id) <==> Lists(a, id) || Lists(b, id)
  {
    if Lists(b, id) {
      var i :| 0 <= i < |b| && b[i].0 == id;
      assert (a + b)[|a| + i].0 == id;
    }
    if Lists(a, id) {
      var i :| 0 <= i < |a| && a[i].0 == id;
      assert (a + b)[i].0 == id;
    }
  }

  /** The engine let the move through; an increment of a string may still have broken it afterwards. */
  predicate Admitted(step: Step) { step.Done? || step.error.TypeError? }

  lemma EffectsAdmitted(s: GameState, es: seq<Effect>)
    ensures Admitted(ApplyEffects(s, es))
  {
    CrashesOnlyOnStrings(s, es);
  }

  lemma ResolveAdmitted(d: GameDefinition, s: GameState, outcome: Outcome, index: nat)
    requires TargetOk(d, outcome.goto)
    ensures Admitted(Resolve(d, s, outcome, index))
  {
    EffectsAdmitted(s, outcome.effects);
    var applied := ApplyEffects(s, outcome.effects);
    if applied.Done? {
      LeaveAdmitted(d, applied.state.(elementIndex := index + 1), outcome.goto);
    }
  }

  lemma LeaveAdmitted(d: GameDefinition, s: GameState, goto: Option<string>)
    requires TargetOk(d, goto)
    ensures Admitted(Leave(d, s, goto))
  {
    if goto.Some? {
      EffectsAdmitted(s.(sceneId := goto.value, elementIndex := 0), d.scenes[goto.value].onEnter);
    }
  }

  lemma GradedAdmitted(d: GameDefinition, s: GameState, el: Element, index: nat, v: Challenges.Verdict)
    requires el.Challenge? && ElementOk(d, el)
    ensures Admitted(Graded(d, s, el, index, v))
  {
    var counted := Counted(s, el.id);
    if v.correct {
      ResolveAdmitted(d, Recorded(counted, el.id, true, v.score), el.onCorrect, index);
    } else {
      EffectsAdmitted(counted, el.onIncorrect.effects);
      var applied := ApplyEffects(counted, el.onIncorrect.effects);
      if applied.Done? {
        LeaveAdmitted(d, applied.state, el.onIncorrect.goto);
        var recorded := Recorded(applied.state, el.id, false, v.score);
        ResolveAdmitted(d, recorded, el.onExhausted.GetOr(Outcome([], None)), index);
      }
    }
  }

  lemma AdvanceIsExact(d: GameDefinition, s: GameState)
    requires Accepted(d) && StateInv(d, s)
    ensures Admitted(Advance(d, s)) <==> Offers(d, s, MoveAdvance)
  {
    ViewAlwaysSeen(d, s);
    var scene := d.scenes[s.sceneId];
    assert SceneOk(d, scene);
    if scene.next.Some? {
      EffectsAdmitted(s.(sceneId := scene.next.value, elementIndex := 0), d.scenes[scene.next.value].onEnter);
    }
  }

  lemma ChooseIsExact(d: GameDefinition, s: GameState, element: string, optionId: string)
    requires Accepted(d) && StateInv(d, s)
    ensures Admitted(Choose(d, s, element, optionId)) <==> Offers(d, s, MoveChoose(element, optionId))
  {
    ViewAlwaysSeen(d, s);
    var t := FindPending(d, s);
    if t.Found? && t.element.Choice? {
      assert SceneOk(d, d.scenes[s.sceneId]) && ElementOk(d, t.element);
      VisibleIffFound(t.element.options, s.Facts(), optionId);
      FindOptionProps(t.element.options, optionId);
      var f := FindOption(t.element.options, optionId);
      if f.Some? {
        ResolveAdmitted(d, s, Outcome(f.value.effects, f.value.goto), t.index);
      }
    }
  }

  lemma AnswerIsExact(d: GameDefinition, s: GameState, element: string, response: Challenges.Response)
    requires Accepted(d) && StateInv(d, s)
    ensures Admitted(Answer(d, s, element, response)) <==> Offers(d, s, MoveAnswer(element, response))
  {
    ViewAlwaysSeen(d, s);
    var t := FindPending(d, s);
    if t.Found? && t.element.Challenge? {
      assert SceneOk(d, d.scenes[s.sceneId]) && ElementOk(d, t.element);
      Challenges.GradingExact(Challenges.ASCII, t.element.config, response);
      GradedAdmitted(d, s, t.element, t.index, Challenges.Evaluate(t.element.config, response).value);
    }
  }

  /** In every state of the document invariant, a move gets past the engine's guards if and only if
      the view offers it: the scan that renders and the scan that checks always agree. */
  lemma ViewIsExact(d: GameDefinition, s: GameState, m: Move)
    requires Accepted(d) && StateInv(d, s)
    ensures Admitted(Play(d, s, m)) <==> Offers(d, s, m)
  {
    match m
    case MoveAdvance => AdvanceIsExact(d, s);
    case MoveChoose(element, optionId) => ChooseIsExact(d, s, element, optionId);
    case MoveAnswer(element, response) => AnswerIsExact(d, s, element, response);
  }

  /** The passive lines of the view are exactly what the elements before the pending interaction show:
      nothing beyond it leaks, nothing before the position is repeated. */
  lemma {:induction false} PassivesAreWhatPrecedes(
      d: GameDefinition, facts: PlayerFacts, elements: seq<Element>, i: nat, x: Passive)
    ensures x in Passives(d, facts, elements, i) <==>
            exists j :: i <= j < |elements| && (Pending(elements, i).Some? ==> j < Pending(elements, i).value) &&
                        x in Shown(d, facts, elements[j])
    decreases |elements| - i
  {
    if i < |elements| && !elements[i].Interactive() {
      PassivesAreWhatPrecedes(d, facts, elements, i + 1, x);
    }
  }

  /** The three ways an active document can have nothing left to do. */
  ghost predicate DeadEnd(d: GameDefinition, s: GameState)
    requires s.sceneId in d.scenes
  {
    var scene := d.scenes[s.sceneId];
    match Pending(scene.elements, s.elementIndex)
    case None => scene.next.None? && scene.ending.None?
    case Some(p) =>
      match scene.elements[p]
      case Choice(_, _, options) => forall i :: 0 <= i < |options| ==> !Holds(options[i].condition, s.Facts())
      case Challenge(id, _, maxAttempts, _, _, _) => s.Attempts(id) >= maxAttempts
      case _ => false
  }

  const NO_RESPONSE := Challenges.Response(None, None, None, None)

  lemma AcceptedIffOffered(d: GameDefinition, s: GameState, m: Move, numeric: set<string>)
    requires Accepted(d) && StateInv(d, s) && WellTyped(d, numeric) && VarsOk(numeric, s.variables)
    ensures Play(d, s, m).Done? <==> Offers(d, s, m)
  {
    ViewIsExact(d, s, m);
    PlaySafe(d, s, m, numeric, true);
  }

  /** Something is offered exactly outside the dead ends. */
  lemma OffersUnlessDeadEnd(d: GameDefinition, s: GameState)
    requires Accepted(d) && StateInv(d, s) && s.status.Active?
    ensures (exists m :: Offers(d, s, m)) <==> !DeadEnd(d, s)
  {
    ViewAlwaysSeen(d, s);
    var scene := d.scenes[s.sceneId];
    assert SceneOk(d, scene);
    match Pending(scene.elements, s.elementIndex) {
      case None =>
        assert Offers(d, s, MoveAdvance) <==> !DeadEnd(d, s);
      case Some(p) =>
        var el := scene.elements[p];
        assert ElementOk(d, el);
        if el.Challenge? {
          assert Offers(d, s, MoveAnswer(el.id, NO_RESPONSE)) <==> !DeadEnd(d, s);
        } else {
          ChoiceOffers(d, s, el, p);
        }
    }
  }

  /** Exactly when play can continue: a well-typed game accepts some move in a reachable state if and
      only if the game is active and the state is not a dead end. */
  lemma StuckExactly(d: GameDefinition, s: GameState, numeric: set<string>)
    requires Accepted(d) && StateInv(d, s) && WellTyped(d, numeric) && VarsOk(numeric, s.variables)
    ensures (exists m :: Play(d, s, m).Done?) <==> s.status.Active? && !DeadEnd(d, s)
  {
    forall m ensures Play(d, s, m).Done? <==> Offers(d, s, m) {
      AcceptedIffOffered(d, s, m, numeric);
    }
    if s.status.Active? {
      OffersUnlessDeadEnd(d, s);
    }
  }

  lemma ChoiceOffers(d: GameDefinition, s: GameState, el: Element, p: nat)
    requires Accepted(d) && StateInv(d, s) && s.status.Active?
    requires Pending(d.scenes[s.sceneId].elements, s.elementIndex) == Some(p) && d.scenes[s.sceneId].elements[p] == el
    requires el.Choice? && ElementOk(d, el)
    ensures (exists m :: Offers(d, s, m)) <==> !DeadEnd(d, s)
  {
    forall id
      ensures Offers(d, s, MoveChoose(el.id, id)) <==>
              FindOption(el.options, id).Some? && Holds(FindOption(el.options, id).value.condition, s.Facts())
    {
      VisibleIffFound(el.options, s.Facts(), id);
    }
    if !DeadEnd(d, s) {
      var i :| 0 <= i < |el.options| && Holds(el.options[i].condition, s.Facts());
      DistinctFinds(el.options, i);
      assert Offers(d, s, MoveChoose(el.id, el.options[i].id));
    }
    forall m | Offers(d, s, m) ensures !DeadEnd(d, s) {
      assert m.MoveChoose?;
      FindOptionProps(el.options, m.option);
      assert Offers(d, s, MoveChoose(el.id, m.option));
    }
  }

  lemma {:induction false} DistinctFinds(options: seq<ChoiceOption>, i: nat)
    requires Distinct(OptionIds(options)) && i < |options|
    ensures FindOption(options, options[i].id) == Some(options[i])
  {
    if i > 0 {
      var rest := options[1..];
      var ids, restIds := OptionIds(options), OptionIds(rest);
      assert ids[0] != ids[i];
      assert Distinct(restIds) by {
        forall j, k | 0 <= j < k < |restIds| ensures restIds[j] != restIds[k] { assert ids[j + 1] != ids[k + 1]; }
      }
      DistinctFinds(rest, i - 1);
    }
  }
}
