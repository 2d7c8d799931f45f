/** Whole runs of one game: they stay safe, they end within an explicit bound on an acyclic scene
    graph, and under stated rules of authoring they never get stuck. */
module Progress {
  import opened Wrappers
  import opened Effects
  import opened Definition
  import opened Engine
  import opened EngineSafety
  import Challenges

  // ---- Runs ----

  /** The document after one request: a raised request is never stored. */
  function Next(d: GameDefinition, s: GameState, m: Move): GameState {
    if Play(d, s, m).Done? then Play(d, s, m).state else s
  }

  function Drive(d: GameDefinition, s: GameState, moves: seq<Move>): GameState {
    if moves == [] then s else Next(d, Drive(d, s, moves[..|moves| - 1]), moves[|moves| - 1])
  }

  lemma {:induction false} DriveSafe(
      d: GameDefinition, s: GameState, moves: seq<Move>, numeric: set<string>, typed: bool)
    requires Accepted(d) && StateInv(d, s)
    requires typed ==> WellTyped(d, numeric) && VarsOk(numeric, s.variables)
    ensures StateInv(d, Drive(d, s, moves))
    ensures typed ==> VarsOk(numeric, Drive(d, s, moves).variables)
  {
    if moves != [] {
      DriveSafe(d, s, moves[..|moves| - 1], numeric, typed);
      PlaySafe(d, Drive(d, s, moves[..|moves| - 1]), moves[|moves| - 1], numeric, typed);
    }
  }

  // ---- The scene graph ----

  /** `from` can lead to `to` by an onward transition or a goto that the engine can ever follow. */
  ghost predicate Edge(d: GameDefinition, from: string, to: string)
    requires from in d.scenes
  {
    var scene := d.scenes[from];
    (scene.ending.None? && scene.next == Some(to)) ||
    exists i :: 0 <= i < |scene.elements| && ElementLeadsTo(scene.elements[i], to)
  }

  ghost predicate ElementLeadsTo(el: Element, to: string) {
    match el
    case Choice(_, _, options) => exists k :: 0 <= k < |options| && options[k].goto == Some(to)
    case Challenge(_, _, maxAttempts, onCorrect, onIncorrect, onExhausted) =>
      onCorrect.goto == Some(to) || (maxAttempts > 1 && onIncorrect.goto == Some(to)) ||
      (onExhausted.Some? && onExhausted.value.goto == Some(to))
    case _ => false
  }

  /** An acyclic graph, witnessed by a rank that every edge lowers. */
  ghost predicate Acyclic(d: GameDefinition, rank: map<string, nat>) {
    d.scenes.Keys <= rank.Keys &&
    forall from, to :: from in d.scenes && to in d.scenes && Edge(d, from, to) ==> rank[to] < rank[from]
  }

  // ---- Termination ----

  /** Accepted requests an element can still absorb. */
  function Weight(el: Element, s: GameState): nat {
    match el
    case Choice(_, _, _) => 1
    case Challenge(id, _, maxAttempts, _, _, _) =>
      if s.Attempts(id) < maxAttempts then maxAttempts - s.Attempts(id) else 0
    case _ => 0
  }

  function Remaining(elements: seq<Element>, i: nat, s: GameState): nat
    decreases |elements| - i
  {
    if i >= |elements| then 0 else Weight(elements[i], s) + Remaining(elements, i + 1, s)
  }

  /** Accepted requests a fresh visit to the elements can absorb. */
  function Capacity(elements: seq<Element>, i: nat): nat
    decreases |elements| - i
  {
    if i >= |elements| then 0
    else (match elements[i]
          case Choice(_, _, _) => 1
          case Challenge(_, _, maxAttempts, _, _, _) => if maxAttempts > 0 then maxAttempts else 0
          case _ => 0)
         + Capacity(elements, i + 1)
  }

  /** `k` moves use up any single visit to a scene: its choices, all attempts, and one move to leave. */
  ghost predicate SceneBound(d: GameDefinition, k: nat) {
    forall id :: id in d.scenes ==> 1 + Capacity(d.scenes[id].elements, 0) <= k
  }

  lemma {:induction false} CapacityBounds(elements: seq<Element>, i: nat, s: GameState)
    requires PlayerOk(s)
    ensures Remaining(elements, i, s) <= Capacity(elements, i)
    decreases |elements| - i
  {
    if i < |elements| { CapacityBounds(elements, i + 1, s); }
  }

  /** `r` visits of `k` moves each. */
  function Visits(r: nat, k: nat): nat {
    if r == 0 then 0 else Visits(r - 1, k) + k
  }

  lemma {:induction false} VisitsIsProduct(r: nat, k: nat)
    ensures Visits(r, k) == r * k
  {
    if r > 0 { VisitsIsProduct(r - 1, k); assert r * k == (r - 1) * k + k; }
  }

  lemma {:induction false} RankStep(a: nat, b: nat, k: nat)
    requires a < b
    ensures Visits(a, k) + k <= Visits(b, k)
    decreases b
  {
    if a < b - 1 { RankStep(a, b - 1, k); }
  }

  /** The measure every accepted move lowers. */
  function Measure(d: GameDefinition, rank: map<string, nat>, k: nat, s: GameState): nat
    requires s.sceneId in d.scenes && s.sceneId in rank
  {
    if s.status.Completed? then 0
    else Visits(rank[s.sceneId], k) + 1 + Remaining(d.scenes[s.sceneId].elements, s.elementIndex, s)
  }

  lemma {:induction false} RemainingMono(elements: seq<Element>, i: nat, s: GameState, t: GameState)
    requires forall id :: t.Attempts(id) >= s.Attempts(id)
    ensures Remaining(elements, i, t) <= Remaining(elements, i, s)
    decreases |elements| - i
  {
    if i < |elements| { RemainingMono(elements, i + 1, s, t); }
  }

  /** Passive elements weigh nothing, so the pending element comes next. */
  lemma {:induction false} RemainingPending(elements: seq<Element>, i: nat, s: GameState)
    ensures var p := Pending(elements, i);
            Remaining(elements, i, s) ==
            if p.None? then 0 else Weight(elements[p.value], s) + Remaining(elements, p.value + 1, s)
    decreases |elements| - i
  {
    if i < |elements| { RemainingPending(elements, i + 1, s); }
  }

  lemma EnterMeasure(d: GameDefinition, rank: map<string, nat>, k: nat, s: GameState, id: string)
    requires Accepted(d) && d.scenes.Keys <= rank.Keys && SceneBound(d, k)
    requires Playing(s) && id in d.scenes
    requires EnterScene(d, s, id).Done?
    ensures var t := EnterScene(d, s, id).state;
            t.sceneId == id && t.status == s.status && t.attempts == s.attempts && t.elementIndex == 0 &&
            Measure(d, rank, k, t) <= Visits(rank[id], k) + k
  {
    EffectsKeepPosition(s.(sceneId := id, elementIndex := 0), d.scenes[id].onEnter);
    EnterSceneSafe(d, s, id, {}, false);
    CapacityBounds(d.scenes[id].elements, 0, EnterScene(d, s, id).state);
  }

  /** Following a real edge lowers the measure below the rank of the scene that was left. */
  lemma LeaveMeasure(d: GameDefinition, rank: map<string, nat>, k: nat, s: GameState, goto: Option<string>)
    requires Accepted(d) && Acyclic(d, rank) && SceneBound(d, k)
    requires StateInv(d, s) && s.status.Active? && TargetOk(d, goto)
    requires goto.Some? ==> Edge(d, s.sceneId, goto.value)
    requires Leave(d, s, goto).Done?
    ensures var t := Leave(d, s, goto).state;
            if goto.None? then t == s else
            t.sceneId == goto.value && t.attempts == s.attempts && t.status.Active? && t.elementIndex == 0 &&
            rank[t.sceneId] < rank[s.sceneId] && Measure(d, rank, k, t) <= Visits(rank[s.sceneId], k)
  {
    if goto.Some? {
      EnterMeasure(d, rank, k, s, goto.value);
      RankStep(rank[goto.value], rank[s.sceneId], k);
    }
  }

  /** Where a move on the pending element `p` takes the position: it stays (a wrong answer with
      attempts left), steps past the element, or follows an edge. */
  ghost predicate Landed(d: GameDefinition, rank: map<string, nat>, k: nat, s: GameState, p: nat, goto: Option<string>,
                         stays: bool, t: GameState)
    requires s.sceneId in d.scenes && d.scenes.Keys <= rank.Keys
  {
    t.status.Active? &&
    if goto.None? then t.sceneId == s.sceneId && t.elementIndex == (if stays then s.elementIndex else p + 1)
    else t.sceneId == goto.value && t.sceneId in d.scenes && t.elementIndex == 0 && rank[t.sceneId] < rank[s.sceneId] &&
         Measure(d, rank, k, t) <= Visits(rank[s.sceneId], k)
  }

  /** Where a resolved element takes the document. */
  lemma ResolveMeasure(d: GameDefinition, rank: map<string, nat>, k: nat, s: GameState, outcome: Outcome, p: nat)
    requires Accepted(d) && Acyclic(d, rank) && SceneBound(d, k)
    requires StateInv(d, s) && s.status.Active? && p < |d.scenes[s.sceneId].elements|
    requires EffectsFieldsOk(outcome.effects) && TargetOk(d, outcome.goto)
    requires outcome.goto.Some? ==> Edge(d, s.sceneId, outcome.goto.value)
    requires Resolve(d, s, outcome, p).Done?
    ensures var t := Resolve(d, s, outcome, p).state;
            t.attempts == s.attempts && Landed(d, rank, k, s, p, outcome.goto, false, t)
  {
    EffectsKeepPosition(s, outcome.effects);
    EffectsKeepPlayer(s, outcome.effects);
    var s1 := ApplyEffects(s, outcome.effects).state.(elementIndex := p + 1);
    LeaveMeasure(d, rank, k, s1, outcome.goto);
  }

  lemma CountedWeighsLess(el: Element, s: GameState, t: GameState)
    requires el.Challenge? && s.Attempts(el.id) < el.maxAttempts && t.attempts == Counted(s, el.id).attempts
    ensures Weight(el, t) < Weight(el, s)
    ensures forall other :: t.Attempts(other) >= s.Attempts(other)
  {
    assert forall other :: t.Attempts(other) == s.Attempts(other) + if other == el.id then 1 else 0;
  }

  /** The attempt counter of exactly one challenge goes up by one. */
  lemma CountedLowers(elements: seq<Element>, i: nat, s: GameState, t: GameState, p: nat)
    requires Pending(elements, i) == Some(p) && elements[p].Challenge?
    requires s.Attempts(elements[p].id) < elements[p].maxAttempts
    requires t.attempts == Counted(s, elements[p].id).attempts
    ensures Remaining(elements, i, t) < Remaining(elements, i, s)
    ensures Remaining(elements, p + 1, t) < Remaining(elements, i, s)
  {
    CountedWeighsLess(elements[p], s, t);
    RemainingMono(elements, p + 1, s, t);
    RemainingPending(elements, i, s);
    RemainingPending(elements, i, t);
  }

  lemma ChallengeEdges(d: GameDefinition, s: GameState, p: nat)
    requires s.sceneId in d.scenes && p < |d.scenes[s.sceneId].elements| && d.scenes[s.sceneId].elements[p].Challenge?
    ensures var el := d.scenes[s.sceneId].elements[p];
            (el.onCorrect.goto.Some? ==> Edge(d, s.sceneId, el.onCorrect.goto.value)) &&
            (el.maxAttempts > 1 && el.onIncorrect.goto.Some? ==> Edge(d, s.sceneId, el.onIncorrect.goto.value)) &&
            (el.onExhausted.Some? && el.onExhausted.value.goto.Some? ==>
                Edge(d, s.sceneId, el.onExhausted.value.goto.value))
  {
    var el := d.scenes[s.sceneId].elements[p];
    if el.onCorrect.goto.Some? { assert ElementLeadsTo(el, el.onCorrect.goto.value); }
    if el.maxAttempts > 1 && el.onIncorrect.goto.Some? { assert ElementLeadsTo(el, el.onIncorrect.goto.value); }
    if el.onExhausted.Some? && el.onExhausted.value.goto.Some? {
      assert ElementLeadsTo(el, el.onExhausted.value.goto.value);
    }
  }

  /** The document is active and blocked on challenge `el` at `p`, with attempts to spare. */
  ghost predicate Asking(d: GameDefinition, s: GameState, el: Element, p: nat) {
    && At(d, s, el, p)
    && Pending(d.scenes[s.sceneId].elements, s.elementIndex) == Some(p)
    && s.Attempts(el.id) < el.maxAttempts
  }

  /** The branch a verdict selects. */
  function BranchGoto(s: GameState, el: Element, correct: bool): Option<string>
    requires el.Challenge?
  {
    if correct then el.onCorrect.goto
    else if s.Attempts(el.id) + 1 >= el.maxAttempts then el.onExhausted.GetOr(Outcome([], None)).goto
    else el.onIncorrect.goto
  }

  lemma WrongLands(d: GameDefinition, rank: map<string, nat>, k: nat, s: GameState, el: Element, p: nat, score: real)
    requires Accepted(d) && Acyclic(d, rank) && SceneBound(d, k)
    requires At(d, s, el, p) && s.Attempts(el.id) >= 1
    requires Wrong(d, s, el, p, score).Done?
    ensures var t := Wrong(d, s, el, p, score).state;
            var exhausted := s.Attempts(el.id) >= el.maxAttempts;
            t.attempts == s.attempts &&
            Landed(d, rank, k, s, p,
                   if exhausted then el.onExhausted.GetOr(Outcome([], None)).goto else el.onIncorrect.goto,
                   !exhausted, t)
  {
    var scene := d.scenes[s.sceneId];
    assert SceneOk(d, scene) && SceneFieldsOk(scene) && ElementOk(d, el) && ElementFieldsOk(el);
    ChallengeEdges(d, s, p);
    EffectsKeepPosition(s, el.onIncorrect.effects);
    EffectsKeepPlayer(s, el.onIncorrect.effects);
    var s1 := ApplyEffects(s, el.onIncorrect.effects).state;
    if s1.Attempts(el.id) >= el.maxAttempts {
      ResolveMeasure(d, rank, k, Recorded(s1, el.id, false, score), el.onExhausted.GetOr(Outcome([], None)), p);
    } else {
      LeaveMeasure(d, rank, k, s1, el.onIncorrect.goto);
    }
  }

  lemma GradedLands(
      d: GameDefinition, rank: map<string, nat>, k: nat, s: GameState, el: Element, p: nat, v: Challenges.Verdict)
    requires Accepted(d) && Acyclic(d, rank) && SceneBound(d, k)
    requires Asking(d, s, el, p) && Graded(d, s, el, p, v).Done?
    ensures var t := Graded(d, s, el, p, v).state;
            t.attempts == Counted(s, el.id).attempts &&
            Landed(d, rank, k, s, p, BranchGoto(s, el, v.correct),
                   !v.correct && s.Attempts(el.id) + 1 < el.maxAttempts, t)
  {
    var scene := d.scenes[s.sceneId];
    assert SceneOk(d, scene) && SceneFieldsOk(scene) && ElementOk(d, el) && ElementFieldsOk(el);
    var counted := Counted(s, el.id);
    if v.correct {
      ChallengeEdges(d, s, p);
      ResolveMeasure(d, rank, k, Recorded(counted, el.id, true, v.score), el.onCorrect, p);
    } else {
      WrongLands(d, rank, k, counted, el, p, v.score);
    }
  }

  /** Grading succeeds and leaves document `t`. */
  ghost predicate GradedTo(d: GameDefinition, s: GameState, el: Element, p: nat, v: Challenges.Verdict, t: GameState)
    requires el.Challenge?
  {
    var step := Graded(d, s, el, p, v);
    step.Done? && step.state == t
  }

  lemma GradedToLands(d: GameDefinition, rank: map<string, nat>, k: nat, s: GameState, el: Element, p: nat,
                      v: Challenges.Verdict, t: GameState)
    requires Accepted(d) && Acyclic(d, rank) && SceneBound(d, k)
    requires Asking(d, s, el, p) && GradedTo(d, s, el, p, v, t)
    ensures t.attempts == Counted(s, el.id).attempts
    ensures Landed(d, rank, k, s, p, BranchGoto(s, el, v.correct),
                   !v.correct && s.Attempts(el.id) + 1 < el.maxAttempts, t)
  {
    GradedLands(d, rank, k, s, el, p, v);
  }

  lemma GradedMeasure(
      d: GameDefinition, rank: map<string, nat>, k: nat, s: GameState, el: Element, p: nat, v: Challenges.Verdict)
    requires Accepted(d) && Acyclic(d, rank) && SceneBound(d, k)
    requires Asking(d, s, el, p) && Graded(d, s, el, p, v).Done?
    ensures StateInv(d, Graded(d, s, el, p, v).state)
    ensures Measure(d, rank, k, Graded(d, s, el, p, v).state) < Measure(d, rank, k, s)
  {
    GradedSafe(d, s, el, p, v, {}, false);
    GradedLands(d, rank, k, s, el, p, v);
    CountedLowers(d.scenes[s.sceneId].elements, s.elementIndex, s, Graded(d, s, el, p, v).state, p);
  }

  /** A chosen option behaves like an outcome of the pending choice. */
  ghost predicate Chosen(d: GameDefinition, s: GameState, p: nat, outcome: Outcome)
    requires s.sceneId in d.scenes
  {
    && Pending(d.scenes[s.sceneId].elements, s.elementIndex) == Some(p)
    && d.scenes[s.sceneId].elements[p].Choice?
    && EffectsFieldsOk(outcome.effects) && TargetOk(d, outcome.goto)
    && (exists i :: 0 <= i < |d.scenes[s.sceneId].elements[p].options| &&
                    d.scenes[s.sceneId].elements[p].options[i].goto == outcome.goto)
    && (outcome.goto.Some? ==> Edge(d, s.sceneId, outcome.goto.value))
  }

  lemma ChooseResolves(d: GameDefinition, s: GameState, elementId: string, optionId: string)
    returns (p: nat, outcome: Outcome)
    requires Accepted(d) && StateInv(d, s) && Choose(d, s, elementId, optionId).Done?
    ensures s.status.Active? && Chosen(d, s, p, outcome)
    ensures Choose(d, s, elementId, optionId) == Resolve(d, s, outcome, p)
  {
    var scene := d.scenes[s.sceneId];
    var t := FindPending(d, s);
    FindOptionProps(t.element.options, optionId);
    var option := FindOption(t.element.options, optionId).value;
    var i :| 0 <= i < |t.element.options| && t.element.options[i] == option;
    assert SceneOk(d, scene) && SceneFieldsOk(scene) && ElementOk(d, t.element) && ElementFieldsOk(t.element);
    if option.goto.Some? { assert ElementLeadsTo(t.element, option.goto.value); }
    p, outcome := t.index, Outcome(option.effects, option.goto);
  }

  /** Stepping past an element of positive weight, or leaving the scene, lowers the measure. */
  lemma LandedLowers(
      d: GameDefinition, rank: map<string, nat>, k: nat, s: GameState, p: nat, goto: Option<string>, t: GameState)
    requires s.sceneId in d.scenes && d.scenes.Keys <= rank.Keys && s.status.Active?
    requires Pending(d.scenes[s.sceneId].elements, s.elementIndex) == Some(p)
    requires Weight(d.scenes[s.sceneId].elements[p], s) >= 1 && t.attempts == s.attempts
    requires Landed(d, rank, k, s, p, goto, false, t)
    ensures t.sceneId in d.scenes && Measure(d, rank, k, t) < Measure(d, rank, k, s)
  {
    var elements := d.scenes[s.sceneId].elements;
    RemainingPending(elements, s.elementIndex, s);
    RemainingMono(elements, p + 1, s, t);
  }

  lemma ChosenMeasure(d: GameDefinition, rank: map<string, nat>, k: nat, s: GameState, p: nat, outcome: Outcome)
    requires Accepted(d) && Acyclic(d, rank) && SceneBound(d, k) && StateInv(d, s) && s.status.Active?
    requires Chosen(d, s, p, outcome) && Resolve(d, s, outcome, p).Done?
    ensures Resolve(d, s, outcome, p).state.sceneId in d.scenes
    ensures Measure(d, rank, k, Resolve(d, s, outcome, p).state) < Measure(d, rank, k, s)
  {
    ResolveMeasure(d, rank, k, s, outcome, p);
    LandedLowers(d, rank, k, s, p, outcome.goto, Resolve(d, s, outcome, p).state);
  }

  lemma AdvanceMeasure(d: GameDefinition, rank: map<string, nat>, k: nat, s: GameState)
    requires Accepted(d) && Acyclic(d, rank) && SceneBound(d, k) && StateInv(d, s) && Advance(d, s).Done?
    ensures Advance(d, s).state.sceneId in d.scenes
    ensures Measure(d, rank, k, Advance(d, s).state) < Measure(d, rank, k, s)
  {
    var scene := d.scenes[s.sceneId];
    assert SceneOk(d, scene);
    if scene.ending.None? {
      assert Edge(d, s.sceneId, scene.next.value);
      EnterMeasure(d, rank, k, s, scene.next.value);
      RankStep(rank[scene.next.value], rank[s.sceneId], k);
    }
  }

  /** Every accepted move lowers the measure. */
  lemma PlayLowersMeasure(d: GameDefinition, rank: map<string, nat>, k: nat, s: GameState, m: Move)
    requires Accepted(d) && Acyclic(d, rank) && SceneBound(d, k) && StateInv(d, s) && Play(d, s, m).Done?
    ensures StateInv(d, Play(d, s, m).state)
    ensures Measure(d, rank, k, Play(d, s, m).state) < Measure(d, rank, k, s)
  {
    PlaySafe(d, s, m, {}, false);
    match m {
      case MoveAdvance => AdvanceMeasure(d, rank, k, s);
      case MoveChoose(element, option) =>
        var p, outcome := ChooseResolves(d, s, element, option);
        ChosenMeasure(d, rank, k, s, p, outcome);
      case MoveAnswer(element, response) =>
        var t := FindChallenge(d, s, element);
        GradedMeasure(d, rank, k, s, t.element, t.index, Challenges.Evaluate(t.element.config, response).value);
    }
  }

  /** Every request of the run is accepted. */
  ghost predicate AllAccepted(d: GameDefinition, s: GameState, moves: seq<Move>) {
    moves == [] ||
    (AllAccepted(d, s, moves[..|moves| - 1]) && Play(d, Drive(d, s, moves[..|moves| - 1]), moves[|moves| - 1]).Done?)
  }

  /** Termination: on an acyclic scene graph no game, however it is played, accepts more than
      (rank of the start scene + 1) * k moves, where k bounds one scene. */
  lemma {:induction false} RunsAreBounded(d: GameDefinition, rank: map<string, nat>, k: nat, moves: seq<Move>)
    requires Accepted(d) && Acyclic(d, rank) && SceneBound(d, k) && NewState(d).Done?
    requires AllAccepted(d, NewState(d).state, moves)
    ensures |moves| <= (rank[d.startScene] + 1) * k
  {
    NewStateSafe(d, {}, false);
    EnterMeasure(d, rank, k, BlankState(d), d.startScene);
    RunSpends(d, rank, k, NewState(d).state, moves);
    VisitsIsProduct(rank[d.startScene], k);
    assert (rank[d.startScene] + 1) * k == rank[d.startScene] * k + k;
  }

  lemma {:induction false} RunSpends(d: GameDefinition, rank: map<string, nat>, k: nat, s: GameState, moves: seq<Move>)
    requires Accepted(d) && Acyclic(d, rank) && SceneBound(d, k) && StateInv(d, s) && AllAccepted(d, s, moves)
    ensures StateInv(d, Drive(d, s, moves))
    ensures |moves| + Measure(d, rank, k, Drive(d, s, moves)) <= Measure(d, rank, k, s)
  {
    if moves != [] {
      var front := moves[..|moves| - 1];
      RunSpends(d, rank, k, s, front);
      PlayLowersMeasure(d, rank, k, Drive(d, s, front), moves[|moves| - 1]);
    }
  }
}
