/** What a player sees depends on the answer keys only through the verdicts given: two definitions
    that differ in nothing but answers and explanations are indistinguishable as long as the verdicts
    agree. */
module AnswerSecrecy {
  import opened Wrappers
  import opened Conditions
  import opened Effects
  import opened Definition
  import opened Engine
  import opened Progress
  import Challenges

  ghost predicate SameElement(a: Element, b: Element) {
    if a.Challenge? && b.Challenge? then
      a.id == b.id && a.maxAttempts == b.maxAttempts && a.onCorrect == b.onCorrect &&
      a.onIncorrect == b.onIncorrect && a.onExhausted == b.onExhausted && Challenges.SameQuestion(a.config, b.config)
    else a == b
  }

  ghost predicate SameScene(a: Scene, b: Scene) {
    a.onEnter == b.onEnter && a.next == b.next && a.ending == b.ending && |a.elements| == |b.elements| &&
    forall i :: 0 <= i < |a.elements| ==> SameElement(a.elements[i], b.elements[i])
  }

  /** The definitions differ only in answer keys and explanations. */
  ghost predicate SameGame(d: GameDefinition, e: GameDefinition) {
    d.startScene == e.startScene && d.variables == e.variables && d.npcs == e.npcs && d.scenes.Keys == e.scenes.Keys &&
    forall id :: id in d.scenes ==> SameScene(d.scenes[id], e.scenes[id])
  }

  lemma {:induction false} SamePending(a: seq<Element>, b: seq<Element>, i: nat)
    requires |a| == |b| && forall j :: 0 <= j < |a| ==> SameElement(a[j], b[j])
    ensures Pending(a, i) == Pending(b, i)
    decreases |a| - i
  {
    if i < |a| { SamePending(a, b, i + 1); }
  }

  lemma {:induction false} SamePassives(d: GameDefinition, e: GameDefinition, facts: PlayerFacts,
                                        a: seq<Element>, b: seq<Element>, i: nat)
    requires d.npcs == e.npcs && |a| == |b| && forall j :: 0 <= j < |a| ==> SameElement(a[j], b[j])
    ensures Passives(d, facts, a, i) == Passives(e, facts, b, i)
    decreases |a| - i
  {
    if i < |a| {
      SamePassives(d, e, facts, a, b, i + 1);
    }
  }

  lemma SamePresent(d: GameDefinition, e: GameDefinition, x: Element, y: Element, s: GameState)
    requires SameElement(x, y) && ElementOk(d, x) && ElementOk(e, y) && x.Interactive()
    ensures y.Interactive() && Present(x, s) == Present(y, s)
  {
    if x.Challenge? {
      Challenges.ProjectionHidesAnswers(x.config, y.config);
    }
  }

  lemma SameSceneAt(d: GameDefinition, e: GameDefinition, s: GameState)
    requires Accepted(d) && Accepted(e) && SameGame(d, e) && s.sceneId in d.scenes
    ensures var a, b := d.scenes[s.sceneId].elements, e.scenes[s.sceneId].elements;
            d.scenes[s.sceneId].ending == e.scenes[s.sceneId].ending &&
            Pending(a, s.elementIndex) == Pending(b, s.elementIndex) &&
            Passives(d, s.Facts(), a, s.elementIndex) == Passives(e, s.Facts(), b, s.elementIndex) &&
            var p := Pending(a, s.elementIndex);
            p.Some? ==> p.value < |b| && b[p.value].Interactive() && Present(a[p.value], s) == Present(b[p.value], s)
  {
    var a, b := d.scenes[s.sceneId], e.scenes[s.sceneId];
    assert SameScene(a, b) && SceneOk(d, a) && SceneOk(e, b);
    SamePending(a.elements, b.elements, s.elementIndex);
    SamePassives(d, e, s.Facts(), a.elements, b.elements, s.elementIndex);
    var p := Pending(a.elements, s.elementIndex);
    if p.Some? {
      SamePresent(d, e, a.elements[p.value], b.elements[p.value], s);
    }
  }

  /** Equal documents look the same under both definitions. */
  lemma SameView(d: GameDefinition, e: GameDefinition, s: GameState)
    requires Accepted(d) && Accepted(e) && SameGame(d, e)
    ensures ViewOf(d, s) == ViewOf(e, s)
  {
    if s.sceneId in d.scenes {
      SameSceneAt(d, e, s);
    }
  }

  lemma SameEnter(d: GameDefinition, e: GameDefinition, s: GameState, id: string)
    requires SameGame(d, e)
    ensures EnterScene(d, s, id) == EnterScene(e, s, id)
  {
    if id in d.scenes { assert SameScene(d.scenes[id], e.scenes[id]); }
  }

  lemma SameLeave(d: GameDefinition, e: GameDefinition, s: GameState, goto: Option<string>)
    requires SameGame(d, e)
    ensures Leave(d, s, goto) == Leave(e, s, goto)
  {
    if goto.Some? { SameEnter(d, e, s, goto.value); }
  }

  lemma SameResolve(d: GameDefinition, e: GameDefinition, s: GameState, outcome: Outcome, index: nat)
    requires SameGame(d, e)
    ensures Resolve(d, s, outcome, index) == Resolve(e, s, outcome, index)
  {
    if ApplyEffects(s, outcome.effects).Done? {
      SameLeave(d, e, ApplyEffects(s, outcome.effects).state.(elementIndex := index + 1), outcome.goto);
    }
  }

  lemma SameWrong(d: GameDefinition, e: GameDefinition, s: GameState, a: Element, b: Element, index: nat, score: real)
    requires SameGame(d, e) && a.Challenge? && b.Challenge? && SameElement(a, b)
    ensures Wrong(d, s, a, index, score) == Wrong(e, s, b, index, score)
  {
    var applied := ApplyEffects(s, a.onIncorrect.effects);
    if applied.Done? {
      SameResolve(d, e, Recorded(applied.state, a.id, false, score), a.onExhausted.GetOr(Outcome([], None)), index);
      SameLeave(d, e, applied.state, a.onIncorrect.goto);
    }
  }

  lemma SameGraded(
      d: GameDefinition, e: GameDefinition, s: GameState, a: Element, b: Element, index: nat, v: Challenges.Verdict)
    requires SameGame(d, e) && a.Challenge? && b.Challenge? && SameElement(a, b)
    ensures Graded(d, s, a, index, v) == Graded(e, s, b, index, v)
  {
    var counted := Counted(s, a.id);
    SameResolve(d, e, Recorded(counted, a.id, true, v.score), a.onCorrect, index);
    SameWrong(d, e, counted, a, b, index, v.score);
  }

  lemma SameTarget(d: GameDefinition, e: GameDefinition, s: GameState)
    requires SameGame(d, e)
    ensures var x, y := FindPending(d, s), FindPending(e, s);
            if x.Found? then y.Found? && y.index == x.index && SameElement(x.element, y.element) else y == x
  {
    if s.sceneId in d.scenes {
      var a, b := d.scenes[s.sceneId], e.scenes[s.sceneId];
      assert SameScene(a, b);
      SamePending(a.elements, b.elements, s.elementIndex);
    }
  }

  /** The verdict a request receives, when it is graded at all. */
  function VerdictOf(d: GameDefinition, s: GameState, m: Move): Option<Challenges.Verdict> {
    if !m.MoveAnswer? then None
    else match FindChallenge(d, s, m.element)
      case Missing(_) => None
      case Found(el, _) => Challenges.Evaluate(el.config, m.response)
  }

  /** The same request, up to the content of a challenge response. */
  predicate SameMove(m: Move, n: Move) {
    if m.MoveAnswer? && n.MoveAnswer? then m.element == n.element else m == n
  }

  lemma SameAdvance(d: GameDefinition, e: GameDefinition, s: GameState)
    requires Accepted(d) && Accepted(e) && SameGame(d, e)
    ensures Advance(d, s) == Advance(e, s)
  {
    SameView(d, e, s);
    if s.sceneId in d.scenes {
      var scene := d.scenes[s.sceneId];
      assert SameScene(scene, e.scenes[s.sceneId]);
      if scene.next.Some? { SameEnter(d, e, s, scene.next.value); }
    }
  }

  lemma SameChoose(d: GameDefinition, e: GameDefinition, s: GameState, element: string, optionId: string)
    requires SameGame(d, e)
    ensures Choose(d, s, element, optionId) == Choose(e, s, element, optionId)
  {
    SameTarget(d, e, s);
    var t := FindPending(d, s);
    if t.Found? && t.element.Choice? {
      var f := FindOption(t.element.options, optionId);
      if f.Some? { SameResolve(d, e, s, Outcome(f.value.effects, f.value.goto), t.index); }
    }
  }

  lemma SameAnswer(d: GameDefinition, e: GameDefinition, s: GameState, element: string,
                   q: Challenges.Response, r: Challenges.Response)
    requires SameGame(d, e) && VerdictOf(d, s, MoveAnswer(element, q)) == VerdictOf(e, s, MoveAnswer(element, r))
    ensures Answer(d, s, element, q) == Answer(e, s, element, r)
  {
    SameTarget(d, e, s);
    var x, y := FindChallenge(d, s, element), FindChallenge(e, s, element);
    if x.Found? {
      var v := Challenges.Evaluate(x.element.config, q);
      if v.Some? { SameGraded(d, e, s, x.element, y.element, x.index, v.value); }
    }
  }

  /** One request: the verdict is all that the answer key contributes, events and refusals included. */
  lemma SamePlay(d: GameDefinition, e: GameDefinition, s: GameState, m: Move, n: Move)
    requires Accepted(d) && Accepted(e) && SameGame(d, e) && SameMove(m, n)
    requires VerdictOf(d, s, m) == VerdictOf(e, s, n)
    ensures Play(d, s, m) == Play(e, s, n)
  {
    match m {
      case MoveAdvance => SameAdvance(d, e, s);
      case MoveChoose(element, optionId) => SameChoose(d, e, s, element, optionId);
      case MoveAnswer(element, response) => SameAnswer(d, e, s, element, response, n.response);
    }
  }

  /** Two plays of the same requests whose answers are judged alike at every step. */
  ghost predicate SameVerdicts(
      d: GameDefinition, e: GameDefinition, s: GameState, t: GameState, ms: seq<Move>, ns: seq<Move>)
    decreases |ms|
  {
    |ms| == |ns| &&
    (ms != [] ==>
       var i := |ms| - 1;
       SameVerdicts(d, e, s, t, ms[..i], ns[..i]) && SameMove(ms[i], ns[i]) &&
       VerdictOf(d, Drive(d, s, ms[..i]), ms[i]) == VerdictOf(e, Drive(e, t, ns[..i]), ns[i]))
  }

  lemma {:induction false} SameRun(d: GameDefinition, e: GameDefinition, s: GameState, ms: seq<Move>, ns: seq<Move>)
    requires Accepted(d) && Accepted(e) && SameGame(d, e) && SameVerdicts(d, e, s, s, ms, ns)
    ensures Drive(d, s, ms) == Drive(e, s, ns)
  {
    if ms != [] {
      var i := |ms| - 1;
      SameRun(d, e, s, ms[..i], ns[..i]);
      SamePlay(d, e, Drive(d, s, ms[..i]), ms[i], ns[i]);
    }
  }

  /** Non-interference: starting two games that differ only in their answers, and making the same
      requests with the same verdicts, the documents and the views are the same after every run. */
  lemma KeysLeakOnlyThroughVerdicts(d: GameDefinition, e: GameDefinition, ms: seq<Move>, ns: seq<Move>)
    requires Accepted(d) && Accepted(e) && SameGame(d, e)
    ensures NewState(d) == NewState(e)
    ensures NewState(d).Done? && SameVerdicts(d, e, NewState(d).state, NewState(e).state, ms, ns) ==>
              var s, t := Drive(d, NewState(d).state, ms), Drive(e, NewState(e).state, ns);
              s == t && ViewOf(d, s) == ViewOf(e, t)
  {
    SameEnter(d, e, BlankState(d), d.startScene);
    if NewState(d).Done? && SameVerdicts(d, e, NewState(d).state, NewState(e).state, ms, ns) {
      SameRun(d, e, NewState(d).state, ms, ns);
      SameView(d, e, Drive(d, NewState(d).state, ms));
    }
  }
}
