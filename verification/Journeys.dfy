/** What the event stream of a session says about the route taken and the answers given. */
module Journeys {
  import opened Wrappers
  import opened Effects
  import opened Definition
  import opened Engine
  import opened EngineSafety
  import opened Progress
  import opened Accounts
  import Challenges

  /** Entering or leaving a scene. */
  datatype Stop = In(scene: string) | Out(scene: string)

  function StopOf(e: Event): seq<Stop> {
    match e
    case SceneEntered(scene) => [In(scene)]
    case SceneCompleted(scene) => [Out(scene)]
    case _ => []
  }

  function Stops(events: seq<Event>): seq<Stop> {
    if events == [] then [] else Stops(events[..|events| - 1]) + StopOf(events[|events| - 1])
  }

  /** How often a challenge was answered. */
  function Asked(events: seq<Event>, id: string): nat {
    if events == [] then 0
    else Asked(events[..|events| - 1], id) +
         if events[|events| - 1].QuestionAnswered? && events[|events| - 1].challenge == id then 1 else 0
  }

  lemma StopsAppend(events: seq<Event>, e: Event)
    ensures Stops(events + [e]) == Stops(events) + StopOf(e)
  {
    assert (events + [e])[..|events|] == events;
  }

  lemma {:induction false} OnlyStopsConcat(a: seq<Event>, b: seq<Event>)
    ensures Stops(a + b) == Stops(a) + Stops(b)
  {
    if b == [] {
      assert a + b == a;
    } else {
      var front, last := b[..|b| - 1], b[|b| - 1];
      calc {
        Stops(a + b);
        { assert a + b == (a + front) + [last]; StopsAppend(a + front, last); }
        Stops(a + front) + StopOf(last);
        { OnlyStopsConcat(a, front); }
        (Stops(a) + Stops(front)) + StopOf(last);
        Stops(a) + (Stops(front) + StopOf(last));
        { assert b == front + [last]; StopsAppend(front, last); }
        Stops(a) + Stops(b);
      }
    }
  }

  lemma {:induction false} AskedConcat(a: seq<Event>, b: seq<Event>, id: string)
    ensures Asked(a + b, id) == Asked(a, id) + Asked(b, id)
  {
    if b == [] {
      assert a + b == a;
    } else {
      AskedConcat(a, b[..|b| - 1], id);
      assert (a + b)[..|a + b| - 1] == a + b[..|b| - 1];
    }
  }

  lemma StopsConcat(a: seq<Event>, b: seq<Event>, id: string)
    ensures Stops(a + b) == Stops(a) + Stops(b)
    ensures Asked(a + b, id) == Asked(a, id) + Asked(b, id)
  {
    OnlyStopsConcat(a, b);
    AskedConcat(a, b, id);
  }

  lemma StopsOfOne(e: Event, id: string)
    ensures Stops([e]) == StopOf(e)
    ensures Asked([e], id) == if e.QuestionAnswered? && e.challenge == id then 1 else 0
  {
    assert [e][..0] == [];
    assert Stops([e]) == Stops([e][..0]) + StopOf(e);
  }

  lemma EffectStaysPut(s: GameState, e: Effect, id: string)
    requires ApplyEffect(s, e).Done?
    ensures Stops(ApplyEffect(s, e).events) == [] && Asked(ApplyEffect(s, e).events, id) == 0
  {
    var events := ApplyEffect(s, e).events;
    if events != [] {
      assert events == [events[0]] && StopOf(events[0]) == [];
      StopsOfOne(events[0], id);
    }
  }

  /** Effects announce no movement and no answer. */
  lemma {:induction false} EffectsStayPut(s: GameState, es: seq<Effect>, id: string)
    requires ApplyEffects(s, es).Done?
    ensures Stops(ApplyEffects(s, es).events) == [] && Asked(ApplyEffects(s, es).events, id) == 0
  {
    if es != [] {
      EffectsStayPut(s, es[..|es| - 1], id);
      var front := ApplyEffects(s, es[..|es| - 1]);
      EffectStaysPut(front.state, es[|es| - 1], id);
      StopsConcat(front.events, ApplyEffect(front.state, es[|es| - 1]).events, id);
    }
  }

  /** A successful step stayed in its scene or went out of it into another, answered nothing, and kept
      the answer book. */
  ghost predicate Moved(s: GameState, step: Step, id: string) {
    step.Done? ==>
      var t := step.state;
      Asked(step.events, id) == 0 && t.attempts == s.attempts && t.results == s.results && t.status == s.status &&
      ((Stops(step.events) == [] && t.sceneId == s.sceneId) || Stops(step.events) == [Out(s.sceneId), In(t.sceneId)])
  }

  lemma EnterStops(d: GameDefinition, s: GameState, scene: string, id: string)
    requires EnterScene(d, s, scene).Done?
    ensures var step := EnterScene(d, s, scene);
            Stops(step.events) == [In(scene)] && Asked(step.events, id) == 0 && step.state.sceneId == scene &&
            step.state.attempts == s.attempts && step.state.results == s.results && step.state.status == s.status
  {
    var moved := s.(sceneId := scene, elementIndex := 0);
    var applied := ApplyEffects(moved, d.scenes[scene].onEnter);
    EffectsStayPut(moved, d.scenes[scene].onEnter, id);
    EffectsKeepPosition(moved, d.scenes[scene].onEnter);
    StopsConcat([SceneEntered(scene)], applied.events, id);
    StopsOfOne(SceneEntered(scene), id);
  }

  lemma LeaveStops(d: GameDefinition, s: GameState, goto: Option<string>, id: string)
    requires Leave(d, s, goto).Done?
    ensures var step := Leave(d, s, goto);
            Moved(s, step, id) &&
            (if goto.None? then Stops(step.events) == [] && step.state.sceneId == s.sceneId
             else Stops(step.events) == [Out(s.sceneId), In(goto.value)] && step.state.sceneId == goto.value)
  {
    if goto.Some? {
      EnterStops(d, s, goto.value, id);
      StopsConcat([SceneCompleted(s.sceneId)], EnterScene(d, s, goto.value).events, id);
      StopsOfOne(SceneCompleted(s.sceneId), id);
    }
  }

  lemma ResolveStops(d: GameDefinition, s: GameState, outcome: Outcome, index: nat, id: string)
    requires Resolve(d, s, outcome, index).Done?
    ensures var step := Resolve(d, s, outcome, index);
            Moved(s, step, id) &&
            (if outcome.goto.None? then Stops(step.events) == [] && step.state.sceneId == s.sceneId
             else Stops(step.events) == [Out(s.sceneId), In(outcome.goto.value)] &&
                  step.state.sceneId == outcome.goto.value)
  {
    var applied := ApplyEffects(s, outcome.effects);
    EffectsStayPut(s, outcome.effects, id);
    EffectsKeepPosition(s, outcome.effects);
    var s1 := applied.state.(elementIndex := index + 1);
    LeaveStops(d, s1, outcome.goto, id);
    StopsConcat(applied.events, Leave(d, s1, outcome.goto).events, id);
  }

  /** The answer is over: it was right or the attempts are used up. */
  predicate Settles(s: GameState, el: Element, correct: bool)
    requires el.Challenge?
  {
    correct || s.Attempts(el.id) + 1 >= el.maxAttempts
  }

  lemma WrongStops(d: GameDefinition, s: GameState, el: Element, index: nat, score: real, id: string)
    requires el.Challenge? && Wrong(d, s, el, index, score).Done?
    ensures var step := Wrong(d, s, el, index, score);
            var exhausted := s.Attempts(el.id) >= el.maxAttempts;
            var goto := if exhausted then el.onExhausted.GetOr(Outcome([], None)).goto else el.onIncorrect.goto;
            Asked(step.events, id) == 0 && step.state.attempts == s.attempts && step.state.status == s.status &&
            step.state.results == (if exhausted then Recorded(s, el.id, false, score).results else s.results) &&
            (if goto.None? then Stops(step.events) == [] && step.state.sceneId == s.sceneId
             else Stops(step.events) == [Out(s.sceneId), In(goto.value)] && step.state.sceneId == goto.value)
  {
    var applied := ApplyEffects(s, el.onIncorrect.effects);
    EffectsStayPut(s, el.onIncorrect.effects, id);
    EffectsKeepPosition(s, el.onIncorrect.effects);
    if applied.state.Attempts(el.id) >= el.maxAttempts {
      var recorded := Recorded(applied.state, el.id, false, score);
      var outcome := el.onExhausted.GetOr(Outcome([], None));
      ResolveStops(d, recorded, outcome, index, id);
      StopsConcat(applied.events, Resolve(d, recorded, outcome, index).events, id);
    } else {
      LeaveStops(d, applied.state, el.onIncorrect.goto, id);
      StopsConcat(applied.events, Leave(d, applied.state, el.onIncorrect.goto).events, id);
    }
  }

  /** The answer book after one graded answer: exactly this challenge's counter goes up, by one; its
      result is recorded exactly when the challenge is settled; and the step goes where the branch that
      the verdict selects leads. */
  lemma GradedBooks(d: GameDefinition, s: GameState, el: Element, index: nat, v: Challenges.Verdict, id: string)
    requires el.Challenge? && Graded(d, s, el, index, v).Done?
    ensures var step := Graded(d, s, el, index, v);
            var attempt := s.Attempts(el.id) + 1;
            var goto := BranchGoto(s, el, v.correct);
            Asked(step.events, id) == (if id == el.id then 1 else 0) && step.state.status == s.status &&
            step.state.attempts == s.attempts[el.id := attempt] &&
            step.state.results ==
              (if Settles(s, el, v.correct) then s.results[el.id := ResultRecord(v.correct, v.score, attempt)]
               else s.results) &&
            (if goto.None? then Stops(step.events) == [] && step.state.sceneId == s.sceneId
             else Stops(step.events) == [Out(s.sceneId), In(goto.value)] && step.state.sceneId == goto.value)
  {
    var counted := Counted(s, el.id);
    var asked := QuestionAnswered(el.id, v.correct, v.score, counted.Attempts(el.id));
    StopsOfOne(asked, id);
    if v.correct {
      var recorded := Recorded(counted, el.id, true, v.score);
      ResolveStops(d, recorded, el.onCorrect, index, id);
      StopsConcat([asked], Resolve(d, recorded, el.onCorrect, index).events, id);
    } else {
      WrongStops(d, counted, el, index, v.score, id);
      StopsConcat([asked], Wrong(d, counted, el, index, v.score).events, id);
    }
  }

  /** One accepted move: it stays, follows an edge of the scene graph, or finishes the game. */
  ghost predicate Travelled(d: GameDefinition, s: GameState, step: Step)
    requires s.sceneId in d.scenes
  {
    step.Done? ==>
      var stops, t := Stops(step.events), step.state;
      if t.status.Completed? then stops == [Out(s.sceneId)] && t.sceneId == s.sceneId
      else (stops == [] && t.sceneId == s.sceneId) ||
           (stops == [Out(s.sceneId), In(t.sceneId)] && Edge(d, s.sceneId, t.sceneId))
  }

  /** The branch a verdict selects is an edge of the scene graph. */
  lemma BranchIsEdge(d: GameDefinition, s: GameState, el: Element, p: nat, correct: bool)
    requires PlayerOk(s) && s.sceneId in d.scenes && p < |d.scenes[s.sceneId].elements|
    requires d.scenes[s.sceneId].elements[p] == el && el.Challenge?
    ensures var goto := BranchGoto(s, el, correct); goto.Some? ==> Edge(d, s.sceneId, goto.value)
  {
    ChallengeEdges(d, s, p);
  }

  lemma GradedTravels(d: GameDefinition, s: GameState, el: Element, p: nat, v: Challenges.Verdict, id: string)
    requires At(d, s, el, p) && Graded(d, s, el, p, v).Done?
    ensures Travelled(d, s, Graded(d, s, el, p, v))
  {
    BranchIsEdge(d, s, el, p, v.correct);
    GradedBooks(d, s, el, p, v, id);
  }

  lemma AnswerTravels(d: GameDefinition, s: GameState, element: string, response: Challenges.Response, id: string)
    requires Accepted(d) && StateInv(d, s) && Answer(d, s, element, response).Done?
    ensures Travelled(d, s, Answer(d, s, element, response))
    ensures var step := Answer(d, s, element, response);
            step.state.Attempts(id) == s.Attempts(id) + Asked(step.events, id)
  {
    var t := FindChallenge(d, s, element);
    var v := Challenges.Evaluate(t.element.config, response).value;
    assert Answer(d, s, element, response) == Graded(d, s, t.element, t.index, v);
    GradedTravels(d, s, t.element, t.index, v, id);
    GradedCounts(d, s, t.element, t.index, v, id);
  }

  lemma GradedCounts(d: GameDefinition, s: GameState, el: Element, p: nat, v: Challenges.Verdict, id: string)
    requires el.Challenge? && Graded(d, s, el, p, v).Done?
    ensures var step := Graded(d, s, el, p, v); step.state.Attempts(id) == s.Attempts(id) + Asked(step.events, id)
  {
    GradedBooks(d, s, el, p, v, id);
  }

  lemma ChooseTravels(d: GameDefinition, s: GameState, element: string, option: string, id: string)
    requires Accepted(d) && StateInv(d, s) && Choose(d, s, element, option).Done?
    ensures Travelled(d, s, Choose(d, s, element, option))
    ensures Moved(s, Choose(d, s, element, option), id)
  {
    var p, outcome := ChooseResolves(d, s, element, option);
    ResolveStops(d, s, outcome, p, id);
  }

  /** A successful advance finishes the game or enters the next scene. */
  lemma AdvanceShape(d: GameDefinition, s: GameState)
    requires s.sceneId in d.scenes && Advance(d, s).Done?
    ensures var scene, out := d.scenes[s.sceneId], [SceneCompleted(s.sceneId)];
            if scene.ending.Some? then Advance(d, s) == After(out, Finish(s, scene.ending.value.id))
            else scene.next.Some? && Advance(d, s) == After(out, EnterScene(d, s, scene.next.value)) && s.status.Active?
  {
  }

  lemma FinishTravels(d: GameDefinition, s: GameState, ending: string, id: string)
    requires s.sceneId in d.scenes
    ensures var step := After([SceneCompleted(s.sceneId)], Finish(s, ending));
            Travelled(d, s, step) && Asked(step.events, id) == 0 && step.state.attempts == s.attempts
  {
    var out, finish := SceneCompleted(s.sceneId), Finish(s, ending);
    StopsOfOne(out, id);
    StopsOfOne(finish.events[0], id);
    assert finish.events == [finish.events[0]];
    StopsConcat([out], finish.events, id);
  }

  lemma EnterTravels(d: GameDefinition, s: GameState, next: string, id: string)
    requires s.sceneId in d.scenes && s.status.Active? && Edge(d, s.sceneId, next) && EnterScene(d, s, next).Done?
    ensures var step := After([SceneCompleted(s.sceneId)], EnterScene(d, s, next));
            Travelled(d, s, step) && Asked(step.events, id) == 0 && step.state.attempts == s.attempts
  {
    var out := SceneCompleted(s.sceneId);
    StopsOfOne(out, id);
    EnterStops(d, s, next, id);
    StopsConcat([out], EnterScene(d, s, next).events, id);
  }

  lemma AdvanceTravels(d: GameDefinition, s: GameState, id: string)
    requires Accepted(d) && StateInv(d, s) && Advance(d, s).Done?
    ensures Travelled(d, s, Advance(d, s))
    ensures var step := Advance(d, s); Asked(step.events, id) == 0 && step.state.attempts == s.attempts
  {
    var scene := d.scenes[s.sceneId];
    AdvanceShape(d, s);
    if scene.ending.Some? {
      FinishTravels(d, s, scene.ending.value.id, id);
    } else {
      EnterTravels(d, s, scene.next.value, id);
    }
  }

  lemma PlayTravels(d: GameDefinition, s: GameState, m: Move, id: string)
    requires Accepted(d) && StateInv(d, s) && Play(d, s, m).Done?
    ensures Travelled(d, s, Play(d, s, m))
    ensures var step := Play(d, s, m); step.state.Attempts(id) == s.Attempts(id) + Asked(step.events, id)
  {
    match m
    case MoveAdvance => AdvanceTravels(d, s, id);
    case MoveChoose(element, option) => ChooseTravels(d, s, element, option, id);
    case MoveAnswer(element, response) => AnswerTravels(d, s, element, response, id);
  }

  // ---- Whole sessions ----

  /** Scenes visited one after another, each left before the next is entered; the last one is left only
      by finishing. */
  function Itinerary(path: seq<string>, finished: bool): seq<Stop> {
    if path == [] then []
    else if |path| == 1 then [In(path[0])] + if finished then [Out(path[0])] else []
    else Itinerary(path[..|path| - 1], true) + [In(path[|path| - 1])] + if finished then [Out(path[|path| - 1])] else []
  }

  lemma ItineraryLeaves(path: seq<string>)
    requires path != []
    ensures Itinerary(path, true) == Itinerary(path, false) + [Out(path[|path| - 1])]
  {
  }

  /** A walk through the scene graph from the start scene. */
  ghost predicate Walk(d: GameDefinition, path: seq<string>) {
    path != [] && path[0] == d.startScene &&
    forall i :: 0 <= i < |path| - 1 ==> path[i] in d.scenes && Edge(d, path[i], path[i + 1])
  }

  /** `events` tell of the walk `path` that ends where `s` is, and of every attempt `s` counts. */
  ghost predicate Recounts(d: GameDefinition, events: seq<Event>, path: seq<string>, s: GameState, id: string) {
    Walk(d, path) && path[|path| - 1] == s.sceneId &&
    Stops(events) == Itinerary(path, s.status.Completed?) && Asked(events, id) == s.Attempts(id)
  }

  lemma StartRecounts(d: GameDefinition, id: string)
    requires Accepted(d) && NewState(d).Done?
    ensures StateInv(d, NewState(d).state) && Recounts(d, NewState(d).events, [d.startScene], NewState(d).state, id)
  {
    NewStateSafe(d, {}, false);
    EnterStops(d, BlankState(d), d.startScene, id);
  }

  lemma PlayRecounts(d: GameDefinition, events: seq<Event>, path: seq<string>, s: GameState, m: Move, id: string)
    returns (longer: seq<string>)
    requires Accepted(d) && StateInv(d, s) && Play(d, s, m).Done? && Recounts(d, events, path, s, id)
    ensures StateInv(d, Play(d, s, m).state)
    ensures Recounts(d, events + Play(d, s, m).events, longer, Play(d, s, m).state, id)
  {
    var step := Play(d, s, m);
    PlaySafe(d, s, m, {}, false);
    PlayTravels(d, s, m, id);
    assert s.status.Active?;
    StopsConcat(events, step.events, id);
    longer := ExtendWalk(d, path, s, step);
  }

  /** The event stream of a restore-free session describes a walk through the scene graph from the start
      scene to the scene the player is in, every scene being left before the next is entered and the last
      one left exactly when the game is completed; and it holds one answer event for every attempt the
      document counts. */
  lemma {:induction false} StreamIsAWalk(d: GameDefinition, moves: seq<Move>, id: string) returns (path: seq<string>)
    requires Accepted(d) && NewState(d).Done?
    ensures StateInv(d, Drive(d, NewState(d).state, moves))
    ensures Recounts(d, Stream(d, moves), path, Drive(d, NewState(d).state, moves), id)
  {
    if moves == [] {
      StartRecounts(d, id);
      path := [d.startScene];
    } else {
      var front, m := moves[..|moves| - 1], moves[|moves| - 1];
      path := StreamIsAWalk(d, front, id);
      var s := Drive(d, NewState(d).state, front);
      if Play(d, s, m).Done? {
        path := PlayRecounts(d, Stream(d, front), path, s, m, id);
      } else {
        assert Stream(d, moves) == Stream(d, front);
      }
    }
  }

  lemma ExtendWalk(d: GameDefinition, path: seq<string>, s: GameState, step: Step) returns (longer: seq<string>)
    requires step.Done? && s.sceneId in d.scenes && s.status.Active? && Travelled(d, s, step)
    requires Walk(d, path) && path[|path| - 1] == s.sceneId
    ensures Walk(d, longer) && longer[|longer| - 1] == step.state.sceneId
    ensures Itinerary(path, false) + Stops(step.events) == Itinerary(longer, step.state.status.Completed?)
  {
    ItineraryLeaves(path);
    if |Stops(step.events)| == 2 {
      longer := path + [step.state.sceneId];
      assert longer[..|longer| - 1] == path;
      assert Itinerary(longer, false) == Itinerary(path, true) + [In(step.state.sceneId)];
    } else {
      longer := path;
    }
  }
}
