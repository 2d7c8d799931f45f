/** What the author wrote takes effect: every move, in terms of the scene it is made in
    (backend/app/modules/runtime/engine.py). Nothing here refers to the engine's own scanning, choosing or
    branching; a move is described by the element the player is at. */
module MoveLaws {
  import opened Wrappers
  import opened Conditions
  import opened Effects
  import opened Definition
  import opened Engine
  import opened EngineSafety
  import opened ViewExactness
  import opened CrashExactness
  import Challenges

  // ---- Effects read and write the player's data only ----

  predicate SamePlayer(s: GameState, t: GameState) {
    && s.variables == t.variables && s.flags == t.flags && s.inventory == t.inventory
    && s.achievements == t.achievements && s.xpEarned == t.xpEarned
  }

  /** Two steps that do the same to the player's data. */
  ghost predicate Alike(a: Step, b: Step) {
    (a.Done? <==> b.Done?) && (a.Done? ==> a.events == b.events && SamePlayer(a.state, b.state))
  }

  lemma FlagAlike(s: GameState, t: GameState, e: Effect)
    requires SamePlayer(s, t) && e.SetFlag?
    ensures Alike(ApplyEffect(s, e), ApplyEffect(t, e))
  {
  }

  lemma WriteAlike(s: GameState, t: GameState, e: Effect)
    requires SamePlayer(s, t) && (e.SetVar? || e.IncVar?)
    ensures Alike(ApplyEffect(s, e), ApplyEffect(t, e))
  {
  }

  lemma GainAlike(s: GameState, t: GameState, e: Effect)
    requires SamePlayer(s, t) && !e.SetVar? && !e.IncVar? && !e.SetFlag?
    ensures Alike(ApplyEffect(s, e), ApplyEffect(t, e))
  {
  }

  lemma EffectAlike(s: GameState, t: GameState, e: Effect)
    requires SamePlayer(s, t)
    ensures Alike(ApplyEffect(s, e), ApplyEffect(t, e))
  {
    if e.SetFlag? {
      FlagAlike(s, t, e);
    } else if e.SetVar? || e.IncVar? {
      WriteAlike(s, t, e);
    } else {
      GainAlike(s, t, e);
    }
  }

  lemma {:induction false} EffectsAlike(s: GameState, t: GameState, es: seq<Effect>)
    requires SamePlayer(s, t)
    ensures Alike(ApplyEffects(s, es), ApplyEffects(t, es))
  {
    if es != [] {
      var front := es[..|es| - 1];
      EffectsAlike(s, t, front);
      if ApplyEffects(s, front).Done? {
        EffectAlike(ApplyEffects(s, front).state, ApplyEffects(t, front).state, es[|es| - 1]);
      }
    }
  }

  // ---- Carrying out an outcome ----

  /** The events of passing from one scene to the next, if there is one. */
  function Passage(from: string, goto: Option<string>): seq<Event> {
    match goto
    case None => []
    case Some(to) => [SceneCompleted(from), SceneEntered(to)]
  }

  /** `step` left the player's data as `all` does, and returned `head`, the events of `first`, the passage
      and what `all` adds to `first`. */
  ghost predicate CarriesOut(first: Step, all: Step, head: seq<Event>, passage: seq<Event>, step: Step) {
    step.Done? ==>
      first.Done? && all.Done? && first.events <= all.events && SamePlayer(step.state, all.state) &&
      step.events == head + first.events + passage + all.events[|first.events|..]
  }

  /** `step` ran the effects of the branch and then those of the scene entered on the player's data of `s`. */
  ghost predicate Carries(d: GameDefinition, s: GameState, head: seq<Event>, branch: seq<Effect>, goto: Option<string>,
                          step: Step)
  {
    CarriesOut(ApplyEffects(s, branch), ApplyEffects(s, branch + EntryEffects(d, goto)), head, Passage(s.sceneId, goto),
               step)
  }

  /** Where a step leaves the document: in the scene it went to, at its start, or at `index` of its own. */
  ghost predicate LandsAt(s: GameState, goto: Option<string>, index: nat, step: Step) {
    step.Done? ==>
      step.state.status == s.status && step.state.endingId == s.endingId &&
      (match goto
       case None => step.state.sceneId == s.sceneId && step.state.elementIndex == index
       case Some(to) => step.state.sceneId == to && step.state.elementIndex == 0)
  }

  ghost predicate KeepsBook(s: GameState, step: Step) {
    step.Done? ==> step.state.attempts == s.attempts && step.state.results == s.results
  }

  lemma EnterCarries(d: GameDefinition, s: GameState, to: string)
    requires to in d.scenes
    ensures var step := EnterScene(d, s, to);
            var entry := ApplyEffects(s, d.scenes[to].onEnter);
            KeepsBook(s, step) && LandsAt(s, Some(to), 0, step) &&
            (step.Done? ==> entry.Done? && SamePlayer(step.state, entry.state) &&
                            step.events == [SceneEntered(to)] + entry.events)
  {
    var moved := s.(sceneId := to, elementIndex := 0);
    EffectsAlike(s, moved, d.scenes[to].onEnter);
    EffectsKeepPosition(moved, d.scenes[to].onEnter);
  }

  /** Running `ab` is running `a`, then `b` on what `a` left. */
  lemma PartsAlike(s: GameState, a: seq<Effect>, t: GameState, b: seq<Effect>, ab: seq<Effect>)
    requires ab == a + b && ApplyEffects(s, a).Done? && SamePlayer(t, ApplyEffects(s, a).state)
    ensures Alike(After(ApplyEffects(s, a).events, ApplyEffects(t, b)), ApplyEffects(s, ab))
  {
    EffectsInParts(s, a, b);
    EffectsAlike(t, ApplyEffects(s, a).state, b);
  }

  /** What running `more` after `branch` adds to it. */
  lemma PartsAdd(s: GameState, branch: seq<Effect>, more: seq<Effect>)
    requires ApplyEffects(s, branch).Done?
    ensures var first, all := ApplyEffects(s, branch), ApplyEffects(s, branch + more);
            var rest := ApplyEffects(first.state, more);
            (all.Done? <==> rest.Done?) &&
            (all.Done? ==> first.events <= all.events && all.events[|first.events|..] == rest.events &&
                           all.state == rest.state)
  {
    EffectsInParts(s, branch, more);
  }

  /** `step` goes on from `first` as `all` does, by way of the passage. */
  ghost predicate GoesOnAs(first: Step, all: Step, passage: seq<Event>, step: Step) {
    step.Done? ==>
      first.Done? && all.Done? && first.events <= all.events && SamePlayer(step.state, all.state) &&
      step.events == passage + all.events[|first.events|..]
  }

  /** `step` goes on from the branch run from `s` as `goto` says. */
  ghost predicate GoesOn(d: GameDefinition, s: GameState, branch: seq<Effect>, goto: Option<string>, step: Step) {
    GoesOnAs(ApplyEffects(s, branch), ApplyEffects(s, branch + EntryEffects(d, goto)), Passage(s.sceneId, goto), step)
  }

  lemma StayGoesOn(d: GameDefinition, s: GameState, branch: seq<Effect>, t: GameState)
    requires ApplyEffects(s, branch).Done? && SamePlayer(t, ApplyEffects(s, branch).state)
    ensures GoesOn(d, s, branch, None, Done(t, []))
  {
    PartsAdd(s, branch, []);
    assert branch + [] == branch;
  }

  /** Going on from `first` with what `rest` does, by way of the passage. */
  lemma ContinueSteps(first: Step, rest: Step, all: Step, passage: seq<Event>, step: Step)
    requires first.Done? && Alike(After(first.events, rest), all)
    requires step.Done? ==> rest.Done? && SamePlayer(step.state, rest.state) && step.events == passage + rest.events
    ensures GoesOnAs(first, all, passage, step)
  {
    if step.Done? { assert all.events[|first.events|..] == rest.events; }
  }

  lemma EnterStep(d: GameDefinition, t: GameState, from: string, to: string)
    requires to in d.scenes
    ensures var step := After([SceneCompleted(from)], EnterScene(d, t, to));
            var entry := ApplyEffects(t, d.scenes[to].onEnter);
            step.Done? ==> entry.Done? && SamePlayer(step.state, entry.state) &&
                           step.events == Passage(from, Some(to)) + entry.events
  {
    EnterCarries(d, t, to);
  }

  lemma EnterGoesOn(d: GameDefinition, s: GameState, branch: seq<Effect>, t: GameState, to: string)
    requires to in d.scenes && t.sceneId == s.sceneId
    requires ApplyEffects(s, branch).Done? && SamePlayer(t, ApplyEffects(s, branch).state)
    ensures GoesOn(d, s, branch, Some(to), After([SceneCompleted(s.sceneId)], EnterScene(d, t, to)))
  {
    var onEnter := d.scenes[to].onEnter;
    PartsAlike(s, branch, t, onEnter, branch + onEnter);
    EnterStep(d, t, s.sceneId, to);
    ContinueSteps(ApplyEffects(s, branch), ApplyEffects(t, onEnter), ApplyEffects(s, branch + onEnter),
                  Passage(s.sceneId, Some(to)), After([SceneCompleted(s.sceneId)], EnterScene(d, t, to)));
  }

  /** Following a goto after the branch has been run from `s` to `t`. */
  lemma LeaveCarries(
      d: GameDefinition, s: GameState, branch: seq<Effect>, t: GameState, index: nat, goto: Option<string>)
    requires TargetOk(d, goto) && t.sceneId == s.sceneId && t.status == s.status && t.endingId == s.endingId
    requires ApplyEffects(s, branch).Done? && SamePlayer(t, ApplyEffects(s, branch).state)
    ensures var step := Leave(d, t.(elementIndex := index), goto);
            KeepsBook(t, step) && LandsAt(s, goto, index, step) && GoesOn(d, s, branch, goto, step)
  {
    var moved := t.(elementIndex := index);
    if goto.None? {
      StayGoesOn(d, s, branch, moved);
    } else {
      EnterGoesOn(d, s, branch, moved, goto.value);
      EnterCarries(d, moved, goto.value);
    }
  }

  lemma ResolveShape(d: GameDefinition, s: GameState, outcome: Outcome, index: nat)
    requires ApplyEffects(s, outcome.effects).Done?
    ensures var first := ApplyEffects(s, outcome.effects);
            Resolve(d, s, outcome, index) ==
            After(first.events, Leave(d, first.state.(elementIndex := index + 1), outcome.goto))
  {
  }

  lemma ResolveCarries(d: GameDefinition, s: GameState, outcome: Outcome, index: nat)
    requires TargetOk(d, outcome.goto)
    ensures var step := Resolve(d, s, outcome, index);
            Carries(d, s, [], outcome.effects, outcome.goto, step) && LandsAt(s, outcome.goto, index + 1, step) &&
            KeepsBook(s, step)
  {
    var first := ApplyEffects(s, outcome.effects);
    if first.Done? {
      EffectsKeepPosition(s, outcome.effects);
      ResolveShape(d, s, outcome, index);
      LeaveCarries(d, s, outcome.effects, first.state, index + 1, outcome.goto);
      GoesOnCarries(d, s, outcome.effects, outcome.goto,
                    Leave(d, first.state.(elementIndex := index + 1), outcome.goto));
    }
  }

  // ---- The element the player is at ----

  /** The player of an active document is at element `p`: the first at or after the position that asks for
      something. */
  ghost predicate FacingElement(d: GameDefinition, s: GameState, p: nat) {
    && s.status == Active && s.sceneId in d.scenes
    && var elements := d.scenes[s.sceneId].elements;
    && s.elementIndex <= p < |elements| && (elements[p].Choice? || elements[p].Challenge?)
    && forall j :: s.elementIndex <= j < p ==> !elements[j].Choice? && !elements[j].Challenge?
  }

  lemma FacingIsPending(d: GameDefinition, s: GameState, p: nat)
    requires FacingElement(d, s, p)
    ensures FindPending(d, s) == Found(d.scenes[s.sceneId].elements[p], p)
  {
    var elements := d.scenes[s.sceneId].elements;
    var q := Pending(elements, s.elementIndex);
    assert elements[p].Interactive();
    assert q.Some? && q.value <= p;
    assert elements[q.value].Interactive();
  }

  lemma {:induction false} OptionByIndex(options: seq<ChoiceOption>, k: nat)
    requires k < |options| && Distinct(OptionIds(options))
    ensures FindOption(options, options[k].id) == Some(options[k])
  {
    assert OptionIds(options)[0] == options[0].id && OptionIds(options)[k] == options[k].id;
    if k > 0 {
      assert OptionIds(options[1..]) == OptionIds(options)[1..];
      assert Distinct(OptionIds(options[1..])) by {
        forall i, j | 0 <= i < j < |options| - 1 ensures OptionIds(options)[1..][i] != OptionIds(options)[1..][j] {
          assert OptionIds(options)[i + 1] != OptionIds(options)[j + 1];
        }
      }
      OptionByIndex(options[1..], k - 1);
    }
  }

  /** Choosing an available option does what its author wrote: its effects, then the entry effects of the
      scene it goes to; without a goto play goes on after the element. Only a string met by an increment
      stops it. */
  lemma ChoiceTakesEffect(d: GameDefinition, s: GameState, p: nat, k: nat)
    requires Accepted(d) && StateInv(d, s) && FacingElement(d, s, p)
    requires var el := d.scenes[s.sceneId].elements[p];
             el.Choice? && k < |el.options| && Holds(el.options[k].condition, s.Facts())
    ensures var el := d.scenes[s.sceneId].elements[p];
            var option, step := el.options[k], Play(d, s, MoveChoose(el.id, el.options[k].id));
            && (step.Done? <==> !MeetsString(s.variables, option.effects + EntryEffects(d, option.goto)))
            && Carries(d, s, [], option.effects, option.goto, step)
            && LandsAt(s, option.goto, p + 1, step) && KeepsBook(s, step)
  {
    var el := d.scenes[s.sceneId].elements[p];
    var option := el.options[k];
    FacingIsPending(d, s, p);
    assert SceneOk(d, d.scenes[s.sceneId]) && ElementOk(d, el);
    OptionByIndex(el.options, k);
    ResolveCarries(d, s, Outcome(option.effects, option.goto), p);
    ResolveBreaks(d, s, Outcome(option.effects, option.goto), p);
  }

  /** Opening a scene in a fresh document. */
  lemma GameOpens(d: GameDefinition)
    requires Accepted(d)
    ensures var step, onEnter := NewState(d), d.scenes[d.startScene].onEnter;
            var blank := GameState("", 0, d.variables, [], map[], map[], map[], [], 0, Active, None);
            var entry := ApplyEffects(blank, onEnter);
            && (step.Done? <==> !MeetsString(d.variables, onEnter))
            && (step.Done? ==>
                  entry.Done? && SamePlayer(step.state, entry.state) &&
                  step.events == [SceneEntered(d.startScene)] + entry.events &&
                  step.state.sceneId == d.startScene && step.state.elementIndex == 0 &&
                  step.state.attempts == map[] && step.state.results == map[] &&
                  step.state.status == Active && step.state.endingId == None)
  {
    GameStartsExactly(d);
    EnterCarries(d, BlankState(d), d.startScene);
  }

  /** The answer book after a settled or an open attempt. */
  ghost predicate Books(s: GameState, id: string, verdict: Challenges.Verdict, settled: bool, step: Step) {
    step.Done? ==>
      var attempt := CountOf(s.attempts, id) + 1;
      step.state.attempts == s.attempts[id := attempt] &&
      step.state.results ==
        if settled then s.results[id := ResultRecord(verdict.correct, verdict.score, attempt)] else s.results
  }

  /** The player may answer the challenge at `p`. */
  ghost predicate MayAnswer(d: GameDefinition, s: GameState, p: nat) {
    FacingElement(d, s, p) &&
    var el := d.scenes[s.sceneId].elements[p];
    el.Challenge? && CountOf(s.attempts, el.id) < el.maxAttempts
  }

  /** The challenge at `p` judges the response right, or wrong. */
  ghost predicate Judged(d: GameDefinition, s: GameState, p: nat, response: Challenges.Response, correct: bool)
    requires MayAnswer(d, s, p)
  {
    var verdict := Challenges.Evaluate(d.scenes[s.sceneId].elements[p].config, response);
    verdict.Some? && verdict.value.correct == correct
  }

  lemma AnswerIsGraded(d: GameDefinition, s: GameState, p: nat, response: Challenges.Response)
    requires Accepted(d) && StateInv(d, s) && MayAnswer(d, s, p)
    ensures var el := d.scenes[s.sceneId].elements[p];
            ElementOk(d, el) && Challenges.Evaluate(el.config, response).Some? &&
            Play(d, s, MoveAnswer(el.id, response)) ==
            Graded(d, s, el, p, Challenges.Evaluate(el.config, response).value)
  {
    var el := d.scenes[s.sceneId].elements[p];
    FacingIsPending(d, s, p);
    assert SceneOk(d, d.scenes[s.sceneId]) && ElementOk(d, el);
    Challenges.GradingExact(Challenges.ASCII, el.config, response);
  }

  /** Prefixing events to a step. */
  lemma HeadCarriesOut(first: Step, all: Step, head: seq<Event>, passage: seq<Event>, step: Step)
    requires CarriesOut(first, all, [], passage, step)
    ensures CarriesOut(first, all, head, passage, After(head, step))
  {
    if step.Done? {
      var rest := all.events[|first.events|..];
      assert head + ([] + first.events + passage + rest) == head + first.events + passage + rest;
    }
  }

  /** Only what the runs did to the player's data matters. */
  lemma AlikeCarriesOut(
      first: Step, all: Step, first': Step, all': Step, head: seq<Event>, passage: seq<Event>, step: Step)
    requires CarriesOut(first, all, head, passage, step) && Alike(first, first') && Alike(all, all')
    ensures CarriesOut(first', all', head, passage, step)
  {
  }

  /** Going on from a list of effects that returned `events`. */
  lemma AfterCarriesOut(events: seq<Event>, first: Step, all: Step, passage: seq<Event>, step: Step)
    requires CarriesOut(first, all, [], passage, step)
    ensures CarriesOut(After(events, first), After(events, all), [], passage, After(events, step))
  {
    if step.Done? {
      var whole := events + all.events;
      assert whole[|events + first.events|..] == all.events[|first.events|..];
      assert events + ([] + first.events + passage + all.events[|first.events|..]) ==
             [] + (events + first.events) + passage + whole[|events + first.events|..];
    }
  }

  /** Carrying out an outcome on a document that differs from `s` in its answer book only. */
  lemma CarriesFrom(
      d: GameDefinition, s: GameState, t: GameState, branch: seq<Effect>, goto: Option<string>, step: Step)
    requires SamePlayer(s, t) && s.sceneId == t.sceneId && Carries(d, t, [], branch, goto, step)
    ensures Carries(d, s, [], branch, goto, step)
  {
    EffectsAlike(t, s, branch);
    EffectsAlike(t, s, branch + EntryEffects(d, goto));
    AlikeCarriesOut(ApplyEffects(t, branch), ApplyEffects(t, branch + EntryEffects(d, goto)), ApplyEffects(s, branch),
                    ApplyEffects(s, branch + EntryEffects(d, goto)), [], Passage(s.sceneId, goto), step);
  }

  lemma HeadCarries(
      d: GameDefinition, s: GameState, head: seq<Event>, branch: seq<Effect>, goto: Option<string>, step: Step)
    requires Carries(d, s, [], branch, goto, step)
    ensures Carries(d, s, head, branch, goto, After(head, step))
  {
    HeadCarriesOut(ApplyEffects(s, branch), ApplyEffects(s, branch + EntryEffects(d, goto)), head,
                   Passage(s.sceneId, goto), step);
  }

  /** A right answer with verdict `v` at element `p`: announced with its score, recorded, and followed by
      what the author set for it. */
  ghost predicate RightOutcome(d: GameDefinition, s: GameState, el: Element, p: nat, v: Challenges.Verdict, step: Step)
    requires el.Challenge?
  {
    var head := [QuestionAnswered(el.id, true, v.score, CountOf(s.attempts, el.id) + 1)];
    && Carries(d, s, head, el.onCorrect.effects, el.onCorrect.goto, step)
    && LandsAt(s, el.onCorrect.goto, p + 1, step) && Books(s, el.id, v, true, step)
  }

  lemma RightGraded(d: GameDefinition, s: GameState, el: Element, p: nat, v: Challenges.Verdict)
    requires el.Challenge? && ElementOk(d, el) && v.correct
    ensures RightOutcome(d, s, el, p, v, Graded(d, s, el, p, v))
  {
    var recorded := Recorded(Counted(s, el.id), el.id, true, v.score);
    var step := Resolve(d, recorded, el.onCorrect, p);
    ResolveCarries(d, recorded, el.onCorrect, p);
    CarriesFrom(d, s, recorded, el.onCorrect.effects, el.onCorrect.goto, step);
    RightOutcomeFrom(d, s, el, p, v, step);
  }

  /** A right answer, once its attempt is counted and recorded. */
  lemma RightOutcomeFrom(d: GameDefinition, s: GameState, el: Element, p: nat, v: Challenges.Verdict, step: Step)
    requires el.Challenge? && v.correct
    requires Carries(d, s, [], el.onCorrect.effects, el.onCorrect.goto, step)
    requires var recorded := Recorded(Counted(s, el.id), el.id, true, v.score);
             LandsAt(recorded, el.onCorrect.goto, p + 1, step) && KeepsBook(recorded, step)
    ensures var head := [QuestionAnswered(el.id, true, v.score, CountOf(s.attempts, el.id) + 1)];
            RightOutcome(d, s, el, p, v, After(head, step))
  {
    var head := [QuestionAnswered(el.id, true, v.score, CountOf(s.attempts, el.id) + 1)];
    HeadCarries(d, s, head, el.onCorrect.effects, el.onCorrect.goto, step);
  }

  /** A right answer is announced with its score, recorded, and carries out what the author set for it. */
  lemma RightAnswerTakesEffect(d: GameDefinition, s: GameState, p: nat, response: Challenges.Response)
    requires Accepted(d) && StateInv(d, s) && MayAnswer(d, s, p)
    requires Judged(d, s, p, response, true)
    ensures var el := d.scenes[s.sceneId].elements[p];
            var v := Challenges.Evaluate(el.config, response).value;
            var step := Play(d, s, MoveAnswer(el.id, response));
            && (step.Done? <==> !MeetsString(s.variables, el.onCorrect.effects + EntryEffects(d, el.onCorrect.goto)))
            && RightOutcome(d, s, el, p, v, step)
  {
    AnswerIsGraded(d, s, p, response);
    var el := d.scenes[s.sceneId].elements[p];
    var v := Challenges.Evaluate(el.config, response).value;
    GradedBreaks(d, s, el, p, v);
    RightGraded(d, s, el, p, v);
  }

  lemma PartsAlikeTwice(
      s: GameState, a: seq<Effect>, t: GameState, b: seq<Effect>, ab: seq<Effect>, entry: seq<Effect>)
    requires ab == a + b && ApplyEffects(s, a).Done? && SamePlayer(t, ApplyEffects(s, a).state)
    ensures Alike(After(ApplyEffects(s, a).events, ApplyEffects(t, b)), ApplyEffects(s, ab))
    ensures Alike(After(ApplyEffects(s, a).events, ApplyEffects(t, b + entry)), ApplyEffects(s, ab + entry))
  {
    PartsAlike(s, a, t, b, ab);
    PartsAlikeLonger(s, a, t, b, ab, entry);
  }

  lemma LongerParts(a: seq<Effect>, b: seq<Effect>, ab: seq<Effect>, entry: seq<Effect>)
    requires ab == a + b
    ensures ab + entry == a + (b + entry)
  {
  }

  lemma PartsAlikeLonger(
      s: GameState, a: seq<Effect>, t: GameState, b: seq<Effect>, ab: seq<Effect>, entry: seq<Effect>)
    requires ab == a + b && ApplyEffects(s, a).Done? && SamePlayer(t, ApplyEffects(s, a).state)
    ensures Alike(After(ApplyEffects(s, a).events, ApplyEffects(t, b + entry)), ApplyEffects(s, ab + entry))
  {
    LongerParts(a, b, ab, entry);
    PartsAlike(s, a, t, b + entry, ab + entry);
  }

  /** An outcome carried out after the effects `a` is the outcome of both lists in a row. */
  lemma CarriesAfter(
      d: GameDefinition, s: GameState, a: seq<Effect>, t: GameState, b: seq<Effect>, ab: seq<Effect>,
      goto: Option<string>, step: Step)
    requires ab == a + b && t.sceneId == s.sceneId
    requires ApplyEffects(s, a).Done? && SamePlayer(t, ApplyEffects(s, a).state)
    requires Carries(d, t, [], b, goto, step)
    ensures Carries(d, s, [], ab, goto, After(ApplyEffects(s, a).events, step))
  {
    var entry := EntryEffects(d, goto);
    PartsAlikeTwice(s, a, t, b, ab, entry);
    ShiftCarries(ApplyEffects(s, a).events, ApplyEffects(t, b), ApplyEffects(t, b + entry), ApplyEffects(s, ab),
                 ApplyEffects(s, ab + entry), Passage(s.sceneId, goto), step);
  }

  lemma ShiftCarries(
      events: seq<Event>, first: Step, all: Step, first': Step, all': Step, passage: seq<Event>, step: Step)
    requires CarriesOut(first, all, [], passage, step)
    requires Alike(After(events, first), first') && Alike(After(events, all), all')
    ensures CarriesOut(first', all', [], passage, After(events, step))
  {
    AfterCarriesOut(events, first, all, passage, step);
    AlikeCarriesOut(After(events, first), After(events, all), first', all', [], passage, After(events, step));
  }

  lemma GoesOnCarriesOut(first: Step, all: Step, passage: seq<Event>, step: Step)
    requires first.Done? && GoesOnAs(first, all, passage, step)
    ensures CarriesOut(first, all, [], passage, After(first.events, step))
  {
    if step.Done? {
      var rest := all.events[|first.events|..];
      assert first.events + (passage + rest) == [] + first.events + passage + rest;
    }
  }

  lemma GoesOnCarries(d: GameDefinition, s: GameState, branch: seq<Effect>, goto: Option<string>, step: Step)
    requires ApplyEffects(s, branch).Done? && GoesOn(d, s, branch, goto, step)
    ensures Carries(d, s, [], branch, goto, After(ApplyEffects(s, branch).events, step))
  {
    GoesOnCarriesOut(ApplyEffects(s, branch), ApplyEffects(s, branch + EntryEffects(d, goto)), Passage(s.sceneId, goto),
                     step);
  }

  /** The last wrong answer: its own effects, then what the author set for running out of attempts. */
  lemma ExhaustedCarries(d: GameDefinition, s: GameState, el: Element, p: nat, score: real)
    requires el.Challenge? && ElementOk(d, el) && CountOf(s.attempts, el.id) >= el.maxAttempts
    ensures var exhausted := el.onExhausted.GetOr(Outcome([], None));
            var step := Wrong(d, s, el, p, score);
            Carries(d, s, [], el.onIncorrect.effects + exhausted.effects, exhausted.goto, step) &&
            LandsAt(s, exhausted.goto, p + 1, step) && KeepsBook(Recorded(s, el.id, false, score), step)
  {
    var exhausted := el.onExhausted.GetOr(Outcome([], None));
    var first := ApplyEffects(s, el.onIncorrect.effects);
    EffectsKeepPosition(s, el.onIncorrect.effects);
    if first.Done? {
      var recorded := Recorded(first.state, el.id, false, score);
      ResolveCarries(d, recorded, exhausted, p);
      CarriesAfter(d, s, el.onIncorrect.effects, recorded, exhausted.effects,
                   el.onIncorrect.effects + exhausted.effects, exhausted.goto, Resolve(d, recorded, exhausted, p));
    }
  }

  /** A wrong answer with attempts left: its own effects and goto; without one the player stays. */
  lemma RetryCarries(d: GameDefinition, s: GameState, el: Element, p: nat, score: real)
    requires el.Challenge? && ElementOk(d, el) && CountOf(s.attempts, el.id) < el.maxAttempts
    ensures var step := Wrong(d, s, el, p, score);
            Carries(d, s, [], el.onIncorrect.effects, el.onIncorrect.goto, step) &&
            LandsAt(s, el.onIncorrect.goto, s.elementIndex, step) && KeepsBook(s, step)
  {
    var first := ApplyEffects(s, el.onIncorrect.effects);
    EffectsKeepPosition(s, el.onIncorrect.effects);
    if first.Done? {
      var t := first.state;
      assert t.(elementIndex := s.elementIndex) == t;
      LeaveCarries(d, s, el.onIncorrect.effects, t, s.elementIndex, el.onIncorrect.goto);
      GoesOnCarries(d, s, el.onIncorrect.effects, el.onIncorrect.goto, Leave(d, t, el.onIncorrect.goto));
    }
  }

  /** What the author set for a wrong answer: the branch, the goto, and where play goes on without one. */
  function WrongBranch(el: Element, last: bool): seq<Effect>
    requires el.Challenge?
  {
    el.onIncorrect.effects +
    if last && el.onExhausted.Some? then el.onExhausted.value.effects else []
  }

  function WrongGoto(el: Element, last: bool): Option<string>
    requires el.Challenge?
  {
    if !last then el.onIncorrect.goto
    else if el.onExhausted.Some? then el.onExhausted.value.goto else None
  }

  lemma WrongCarries(d: GameDefinition, s: GameState, el: Element, p: nat, score: real)
    requires el.Challenge? && ElementOk(d, el)
    ensures var last := CountOf(s.attempts, el.id) >= el.maxAttempts;
            var step := Wrong(d, s, el, p, score);
            Carries(d, s, [], WrongBranch(el, last), WrongGoto(el, last), step) &&
            LandsAt(s, WrongGoto(el, last), if last then p + 1 else s.elementIndex, step) &&
            KeepsBook(if last then Recorded(s, el.id, false, score) else s, step)
  {
    if CountOf(s.attempts, el.id) >= el.maxAttempts {
      ExhaustedCarries(d, s, el, p, score);
    } else {
      RetryCarries(d, s, el, p, score);
      assert el.onIncorrect.effects + [] == el.onIncorrect.effects;
    }
  }

  /** A wrong answer is announced with its score and carries out what the author set for a wrong answer; the
      last one allowed is recorded and goes on with what the author set for running out of attempts. */
  lemma WrongAnswerTakesEffect(d: GameDefinition, s: GameState, p: nat, response: Challenges.Response)
    requires Accepted(d) && StateInv(d, s) && MayAnswer(d, s, p)
    requires Judged(d, s, p, response, false)
    ensures var el := d.scenes[s.sceneId].elements[p];
            var v := Challenges.Evaluate(el.config, response).value;
            var step := Play(d, s, MoveAnswer(el.id, response));
            var last := CountOf(s.attempts, el.id) + 1 >= el.maxAttempts;
            && (step.Done? <==>
                !MeetsString(s.variables, WrongBranch(el, last) + EntryEffects(d, WrongGoto(el, last))))
            && WrongOutcome(d, s, el, p, v, step)
  {
    AnswerIsGraded(d, s, p, response);
    var el := d.scenes[s.sceneId].elements[p];
    var v := Challenges.Evaluate(el.config, response).value;
    WrongBreaksAs(d, s, el, p, v);
    WrongGraded(d, s, el, p, v);
  }

  /** A wrong answer with verdict `v` at element `p`: announced with its score and followed by what the
      author set for a wrong answer; the last one allowed is recorded and goes on with what the author set
      for running out of attempts. */
  ghost predicate WrongOutcome(d: GameDefinition, s: GameState, el: Element, p: nat, v: Challenges.Verdict, step: Step)
    requires el.Challenge?
  {
    var head := [QuestionAnswered(el.id, false, v.score, CountOf(s.attempts, el.id) + 1)];
    var last := CountOf(s.attempts, el.id) + 1 >= el.maxAttempts;
    var branch, goto := WrongBranch(el, last), WrongGoto(el, last);
    && Carries(d, s, head, branch, goto, step)
    && LandsAt(s, goto, if last then p + 1 else s.elementIndex, step) && Books(s, el.id, v, last, step)
  }

  lemma WrongGraded(d: GameDefinition, s: GameState, el: Element, p: nat, v: Challenges.Verdict)
    requires el.Challenge? && ElementOk(d, el) && !v.correct
    ensures WrongOutcome(d, s, el, p, v, Graded(d, s, el, p, v))
  {
    var counted := Counted(s, el.id);
    var last := CountOf(s.attempts, el.id) + 1 >= el.maxAttempts;
    var step := Wrong(d, counted, el, p, v.score);
    WrongCarries(d, counted, el, p, v.score);
    CarriesFrom(d, s, counted, WrongBranch(el, last), WrongGoto(el, last), step);
    WrongOutcomeFrom(d, s, el, p, v, step);
  }

  /** A wrong answer, once its attempt is counted. */
  lemma WrongOutcomeFrom(d: GameDefinition, s: GameState, el: Element, p: nat, v: Challenges.Verdict, step: Step)
    requires el.Challenge? && !v.correct
    requires var last := CountOf(s.attempts, el.id) + 1 >= el.maxAttempts;
             Carries(d, s, [], WrongBranch(el, last), WrongGoto(el, last), step) &&
             LandsAt(Counted(s, el.id), WrongGoto(el, last), if last then p + 1 else s.elementIndex, step) &&
             KeepsBook(if last then Recorded(Counted(s, el.id), el.id, false, v.score) else Counted(s, el.id), step)
    ensures var head := [QuestionAnswered(el.id, false, v.score, CountOf(s.attempts, el.id) + 1)];
            WrongOutcome(d, s, el, p, v, After(head, step))
  {
    var last := CountOf(s.attempts, el.id) + 1 >= el.maxAttempts;
    var head := [QuestionAnswered(el.id, false, v.score, CountOf(s.attempts, el.id) + 1)];
    HeadCarries(d, s, head, WrongBranch(el, last), WrongGoto(el, last), step);
    WrongBook(s, el, v, last, step);
    assert Books(s, el.id, v, last, After(head, step));
  }

  lemma WrongBook(s: GameState, el: Element, v: Challenges.Verdict, last: bool, step: Step)
    requires el.Challenge? && !v.correct
    requires KeepsBook(if last then Recorded(Counted(s, el.id), el.id, false, v.score) else Counted(s, el.id), step)
    ensures Books(s, el.id, v, last, step)
  {
  }

  lemma WrongBreaksAs(d: GameDefinition, s: GameState, el: Element, p: nat, v: Challenges.Verdict)
    requires el.Challenge? && ElementOk(d, el) && !v.correct
    ensures var last := CountOf(s.attempts, el.id) + 1 >= el.maxAttempts;
            Graded(d, s, el, p, v).Done? <==>
            !MeetsString(s.variables, WrongBranch(el, last) + EntryEffects(d, WrongGoto(el, last)))
  {
    GradedBreaks(d, s, el, p, v);
    var last := CountOf(s.attempts, el.id) + 1 >= el.maxAttempts;
    var entry := EntryEffects(d, WrongGoto(el, last));
    if last {
      var exhausted := el.onExhausted.GetOr(Outcome([], None));
      var wrong := el.onIncorrect.effects;
      assert wrong + (exhausted.effects + entry) == (wrong + exhausted.effects) + entry;
    } else {
      assert el.onIncorrect.effects + [] == el.onIncorrect.effects;
    }
  }

  /** Nothing is left to do in the scene but to leave it. */
  ghost predicate PastElements(d: GameDefinition, s: GameState) {
    && s.status == Active && s.sceneId in d.scenes
    && forall j :: s.elementIndex <= j < |d.scenes[s.sceneId].elements| ==>
         var el := d.scenes[s.sceneId].elements[j];
         !el.Choice? && !el.Challenge?
  }

  lemma PastIsDone(d: GameDefinition, s: GameState)
    requires PastElements(d, s)
    ensures Pending(d.scenes[s.sceneId].elements, s.elementIndex) == None
  {
    var elements := d.scenes[s.sceneId].elements;
    assert forall j :: s.elementIndex <= j < |elements| ==> !elements[j].Interactive();
  }

  /** Advancing from the end of a scene with an ending finishes the game with what it has earned. */
  lemma EndingTakesEffect(d: GameDefinition, s: GameState)
    requires Accepted(d) && StateInv(d, s) && PastElements(d, s) && d.scenes[s.sceneId].ending.Some?
    ensures var ending := d.scenes[s.sceneId].ending.value.id;
            Play(d, s, MoveAdvance) ==
            Done(s.(status := Completed, endingId := Some(ending)),
                 [SceneCompleted(s.sceneId), MissionFinished(ending, s.xpEarned, s.results)])
  {
    PastIsDone(d, s);
    ViewAlwaysSeen(d, s);
  }

  /** Advancing from the end of any other scene enters the next one. */
  lemma AdvanceTakesEffect(d: GameDefinition, s: GameState)
    requires Accepted(d) && StateInv(d, s) && PastElements(d, s)
    requires d.scenes[s.sceneId].ending.None? && d.scenes[s.sceneId].next.Some?
    ensures var next, step := d.scenes[s.sceneId].next, Play(d, s, MoveAdvance);
            && (step.Done? <==> !MeetsString(s.variables, EntryEffects(d, next)))
            && Carries(d, s, [], [], next, step) && LandsAt(s, next, 0, step) && KeepsBook(s, step)
  {
    var next := d.scenes[s.sceneId].next.value;
    PastIsDone(d, s);
    ViewAlwaysSeen(d, s);
    assert SceneOk(d, d.scenes[s.sceneId]);
    EnterBreaks(d, s, next);
    EnterCarries(d, s, next);
    EnterGoesOn(d, s, [], s, next);
    GoesOnCarries(d, s, [], Some(next), After([SceneCompleted(s.sceneId)], EnterScene(d, s, next)));
    assert [] + EntryEffects(d, Some(next)) == EntryEffects(d, Some(next));
  }

  // ---- Every move at once ----

  predicate Gain(e: Event) { e.InventoryChanged? || e.XpAwarded? || e.AchievementUnlocked? }

  /** The events that announce items, XP and achievements, in order. */
  function Gains(events: seq<Event>): seq<Event> {
    if events == [] then []
    else Gains(events[..|events| - 1]) + if Gain(events[|events| - 1]) then [events[|events| - 1]] else []
  }

  lemma {:induction false} GainsConcat(a: seq<Event>, b: seq<Event>)
    ensures Gains(a + b) == Gains(a) + Gains(b)
  {
    if b == [] {
      assert a + b == a;
    } else {
      GainsConcat(a, b[..|b| - 1]);
      assert (a + b)[..|a + b| - 1] == a + b[..|b| - 1];
    }
  }

  lemma {:induction false} AllGains(events: seq<Event>)
    requires forall i :: 0 <= i < |events| ==> Gain(events[i])
    ensures Gains(events) == events
  {
    if events != [] { AllGains(events[..|events| - 1]); }
  }

  lemma {:induction false} NoGains(events: seq<Event>)
    requires forall i :: 0 <= i < |events| ==> !Gain(events[i])
    ensures Gains(events) == []
  {
    if events != [] { NoGains(events[..|events| - 1]); }
  }

  ghost predicate OnlyGains(events: seq<Event>) { forall i :: 0 <= i < |events| ==> Gain(events[i]) }

  lemma OnlyGainsConcat(a: seq<Event>, b: seq<Event>)
    requires OnlyGains(a) && OnlyGains(b)
    ensures OnlyGains(a + b)
  {
  }

  lemma {:induction false} EffectsGain(s: GameState, es: seq<Effect>)
    ensures ApplyEffects(s, es).Done? ==> OnlyGains(ApplyEffects(s, es).events)
  {
    if es != [] && ApplyEffects(s, es).Done? {
      var front := ApplyEffects(s, es[..|es| - 1]);
      EffectsGain(s, es[..|es| - 1]);
      EffectGains(front.state, es[|es| - 1]);
      OnlyGainsConcat(front.events, ApplyEffect(front.state, es[|es| - 1]).events);
    }
  }

  lemma EffectGains(s: GameState, e: Effect)
    ensures ApplyEffect(s, e).Done? ==> OnlyGains(ApplyEffect(s, e).events)
  {
  }

  /** The player's data and the announced gains are those of `all`. */
  ghost predicate Realises(all: Step, step: Step) {
    step.Done? ==> all.Done? && SamePlayer(step.state, all.state) && Gains(step.events) == all.events
  }

  lemma DropNoGains(x: seq<Event>, y: seq<Event>)
    requires forall i :: 0 <= i < |y| ==> !Gain(y[i])
    ensures Gains(x + y) == Gains(x)
  {
    GainsConcat(x, y);
    NoGains(y);
  }

  lemma TakeGains(x: seq<Event>, y: seq<Event>)
    requires forall i :: 0 <= i < |y| ==> Gain(y[i])
    ensures Gains(x + y) == Gains(x) + y
  {
    GainsConcat(x, y);
    AllGains(y);
  }

  lemma GainsOfParts(head: seq<Event>, a: seq<Event>, passage: seq<Event>, b: seq<Event>)
    requires (forall i :: 0 <= i < |head| ==> !Gain(head[i])) && forall i :: 0 <= i < |passage| ==> !Gain(passage[i])
    requires (forall i :: 0 <= i < |a| ==> Gain(a[i])) && forall i :: 0 <= i < |b| ==> Gain(b[i])
    ensures Gains(head + a + passage + b) == a + b
  {
    NoGains(head);
    TakeGains(head, a);
    DropNoGains(head + a, passage);
    TakeGains(head + a + passage, b);
    assert [] + a == a;
  }

  lemma CarriedRealises(first: Step, all: Step, head: seq<Event>, passage: seq<Event>, step: Step)
    requires CarriesOut(first, all, head, passage, step)
    requires all.Done? ==> forall i :: 0 <= i < |all.events| ==> Gain(all.events[i])
    requires forall i :: 0 <= i < |head| ==> !Gain(head[i])
    requires forall i :: 0 <= i < |passage| ==> !Gain(passage[i])
    ensures Realises(all, step)
  {
    if step.Done? {
      var rest := all.events[|first.events|..];
      assert all.events == first.events + rest;
      GainsOfParts(head, first.events, passage, rest);
    }
  }

  lemma CarriesRealises(
      d: GameDefinition, s: GameState, head: seq<Event>, branch: seq<Effect>, goto: Option<string>, step: Step)
    requires Carries(d, s, head, branch, goto, step) && forall i :: 0 <= i < |head| ==> !Gain(head[i])
    ensures Realises(ApplyEffects(s, branch + EntryEffects(d, goto)), step)
  {
    EffectsGain(s, branch + EntryEffects(d, goto));
    CarriedRealises(ApplyEffects(s, branch), ApplyEffects(s, branch + EntryEffects(d, goto)), head,
                    Passage(s.sceneId, goto), step);
  }

  lemma AnswerRealises(d: GameDefinition, s: GameState, el: Element, p: nat, v: Challenges.Verdict)
    requires el.Challenge? && ElementOk(d, el)
    ensures Realises(ApplyEffects(s, BranchEffects(d, s, el, v.correct)), Graded(d, s, el, p, v))
  {
    var step := Graded(d, s, el, p, v);
    var head := [QuestionAnswered(el.id, v.correct, v.score, CountOf(s.attempts, el.id) + 1)];
    if v.correct {
      RightGraded(d, s, el, p, v);
      CarriesRealises(d, s, head, el.onCorrect.effects, el.onCorrect.goto, step);
    } else {
      var last := CountOf(s.attempts, el.id) + 1 >= el.maxAttempts;
      WrongGraded(d, s, el, p, v);
      CarriesRealises(d, s, head, WrongBranch(el, last), WrongGoto(el, last), step);
      var entry := EntryEffects(d, WrongGoto(el, last));
      var exhausted := el.onExhausted.GetOr(Outcome([], None));
      assert last ==> el.onIncorrect.effects + (exhausted.effects + entry) == WrongBranch(el, last) + entry;
      assert WrongBranch(el, last) + entry == BranchEffects(d, s, el, false);
    }
  }

  lemma AdvanceRealises(d: GameDefinition, s: GameState)
    requires Accepted(d) && StateInv(d, s) && Advance(d, s).Done?
    ensures Realises(ApplyEffects(s, MoveEffects(d, s, MoveAdvance)), Advance(d, s))
  {
    var scene := d.scenes[s.sceneId];
    var p := Pending(scene.elements, s.elementIndex);
    assert PastElements(d, s) by {
      assert p.None?;
      forall j | s.elementIndex <= j < |scene.elements| ensures !scene.elements[j].Interactive() {
      }
    }
    if scene.ending.Some? {
      EndingTakesEffect(d, s);
      NoGains(Advance(d, s).events);
    } else {
      AdvanceTakesEffect(d, s);
      CarriesRealises(d, s, [], [], scene.next, Advance(d, s));
      assert [] + EntryEffects(d, scene.next) == EntryEffects(d, scene.next);
    }
  }

  lemma ChooseRealises(d: GameDefinition, s: GameState, element: string, optionId: string)
    requires Accepted(d) && StateInv(d, s) && Choose(d, s, element, optionId).Done?
    ensures Realises(ApplyEffects(s, MoveEffects(d, s, MoveChoose(element, optionId))), Choose(d, s, element, optionId))
  {
    var t := FindPending(d, s);
    var option := FindOption(t.element.options, optionId).value;
    assert SceneOk(d, d.scenes[s.sceneId]) && ElementOk(d, t.element);
    FindOptionProps(t.element.options, optionId);
    var outcome := Outcome(option.effects, option.goto);
    ResolveCarries(d, s, outcome, t.index);
    CarriesRealises(d, s, [], option.effects, option.goto, Resolve(d, s, outcome, t.index));
  }

  /** For every successful move: variables, flags, items, achievements and XP are what the author's effects
      make of them, and the gains announced are exactly theirs, in order. */
  lemma MoveTakesEffect(d: GameDefinition, s: GameState, m: Move)
    requires Accepted(d) && StateInv(d, s)
    ensures Realises(ApplyEffects(s, MoveEffects(d, s, m)), Play(d, s, m))
  {
    if Play(d, s, m).Done? {
      match m {
        case MoveAdvance => AdvanceRealises(d, s);
        case MoveChoose(element, optionId) => ChooseRealises(d, s, element, optionId);
        case MoveAnswer(element, response) =>
          var t := FindChallenge(d, s, element);
          assert SceneOk(d, d.scenes[s.sceneId]) && ElementOk(d, t.element);
          AnswerRealises(d, s, t.element, t.index, Challenges.Evaluate(t.element.config, response).value);
      }
    }
  }

  // ---- Refusals ----

  /** An option a choice request may name. */
  ghost predicate Available(el: Element, optionId: string, facts: PlayerFacts)
    requires el.Choice?
  {
    exists k :: 0 <= k < |el.options| && el.options[k].id == optionId && Holds(el.options[k].condition, facts)
  }

  lemma FacingOrPast(d: GameDefinition, s: GameState)
    requires s.status == Active && s.sceneId in d.scenes
    ensures PastElements(d, s) || exists p: nat :: FacingElement(d, s, p)
  {
    var elements := d.scenes[s.sceneId].elements;
    var p := Pending(elements, s.elementIndex);
    if p.Some? {
      assert elements[p.value].Interactive();
      assert forall j :: s.elementIndex <= j < p.value ==> !elements[j].Interactive();
      assert FacingElement(d, s, p.value);
    } else {
      assert forall j :: s.elementIndex <= j < |elements| ==> !elements[j].Interactive();
    }
  }

  /** A completed game takes no move at all. */
  lemma CompletedRefuses(d: GameDefinition, s: GameState, m: Move)
    requires s.status == Completed
    ensures Play(d, s, m) == Raised(NotActive, s)
  {
  }

  /** Facing an element, the player cannot leave the scene, and the request must name that element, be of
      its kind, and name an available option, or have an attempt left; the first of these that fails is
      what the refusal says. */
  lemma FacingRefuses(d: GameDefinition, s: GameState, p: nat, id: string, optionId: string, r: Challenges.Response)
    requires Accepted(d) && StateInv(d, s) && FacingElement(d, s, p)
    ensures var el := d.scenes[s.sceneId].elements[p];
            && Play(d, s, MoveAdvance) == Raised(InteractionPending, s)
            && (!el.Choice? || el.id != id ==> Play(d, s, MoveChoose(id, optionId)) == Raised(WrongElement, s))
            && (el.Choice? && !Available(el, optionId, s.Facts()) ==>
                  Play(d, s, MoveChoose(el.id, optionId)) == Raised(InvalidOption, s))
            && (!el.Challenge? || el.id != id ==> Play(d, s, MoveAnswer(id, r)) == Raised(WrongElement, s))
            && (el.Challenge? && CountOf(s.attempts, el.id) >= el.maxAttempts ==>
                  Play(d, s, MoveAnswer(el.id, r)) == Raised(NoAttempts, s))
  {
    FacingIsPending(d, s, p);
    ViewAlwaysSeen(d, s);
    var el := d.scenes[s.sceneId].elements[p];
    if el.Choice? && !Available(el, optionId, s.Facts()) {
      if FindOption(el.options, optionId).Some? { FindOptionProps(el.options, optionId); }
    }
  }

  /** Past the last element nothing can be chosen or answered, and the scene can be left only by an ending or
      an onward transition. */
  lemma PastRefuses(d: GameDefinition, s: GameState, id: string, optionId: string, r: Challenges.Response)
    requires Accepted(d) && StateInv(d, s) && PastElements(d, s)
    ensures Play(d, s, MoveChoose(id, optionId)) == Raised(NothingPending, s)
    ensures Play(d, s, MoveAnswer(id, r)) == Raised(NothingPending, s)
    ensures d.scenes[s.sceneId].ending.None? && d.scenes[s.sceneId].next.None? ==>
              Play(d, s, MoveAdvance) == Raised(NoTransition, s)
  {
    PastIsDone(d, s);
    ViewAlwaysSeen(d, s);
  }
}
