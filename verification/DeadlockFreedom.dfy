/** Authoring rules under which a game can always be played to an ending, and accepted definitions
    that show what goes wrong without them. */
module DeadlockFreedom {
  import opened Wrappers
  import opened Effects
  import opened Definition
  import opened Engine
  import opened EngineSafety
  import opened ViewExactness
  import opened Progress
  import Challenges

  ghost predicate ChallengeAt(d: GameDefinition, a: string, i: nat) {
    a in d.scenes && i < |d.scenes[a].elements| && d.scenes[a].elements[i].Challenge?
  }

  /** A challenge id names one element of the whole game: attempts are counted per id, not per scene. */
  ghost predicate UniqueChallenges(d: GameDefinition) {
    forall a, b, i: nat, j: nat {:trigger ChallengeAt(d, a, i), ChallengeAt(d, b, j)} ::
      ChallengeAt(d, a, i) && ChallengeAt(d, b, j) && d.scenes[a].elements[i].id == d.scenes[b].elements[j].id
      ==> a == b && i == j
  }

  /** Every choice keeps one option unconditional. */
  ghost predicate OpenChoices(d: GameDefinition) {
    forall a, i: nat ::
      a in d.scenes && i < |d.scenes[a].elements| && d.scenes[a].elements[i].Choice? ==>
          HasOpenOption(d.scenes[a].elements[i])
  }

  ghost predicate HasOpenOption(el: Element)
    requires el.Choice?
  {
    exists k :: 0 <= k < |el.options| && el.options[k].condition.None?
  }

  /** No way of resolving the element stays in the scene. */
  ghost predicate AlwaysLeaves(el: Element) {
    match el
    case Choice(_, _, options) => forall k :: 0 <= k < |options| ==> options[k].goto.Some?
    case Challenge(_, _, _, onCorrect, _, onExhausted) =>
      onCorrect.goto.Some? && onExhausted.Some? && onExhausted.value.goto.Some?
    case _ => false
  }

  /** Where nothing follows the last interactive element, that element always leaves. */
  ghost predicate ExitsCovered(d: GameDefinition) {
    forall a, i: nat ::
      a in d.scenes && d.scenes[a].next.None? && d.scenes[a].ending.None? && i < |d.scenes[a].elements| &&
      d.scenes[a].elements[i].Interactive() && Pending(d.scenes[a].elements, i + 1).None?
      ==> AlwaysLeaves(d.scenes[a].elements[i])
  }

  ghost predicate Playable(d: GameDefinition, rank: map<string, nat>) {
    Accepted(d) && Acyclic(d, rank) && UniqueChallenges(d) && OpenChoices(d) && ExitsCovered(d)
  }

  /** No challenge of scene `a` has been attempted. */
  ghost predicate Untouched(d: GameDefinition, a: string, attempts: map<string, int>)
    requires a in d.scenes
  {
    forall j: nat {:trigger ChallengeAt(d, a, j)} :: ChallengeAt(d, a, j) ==> d.scenes[a].elements[j].id !in attempts
  }

  /** Everything still ahead of an active player is fresh, and the current scene has a way out. */
  ghost predicate Ahead(d: GameDefinition, rank: map<string, nat>, s: GameState)
    requires s.sceneId in d.scenes && d.scenes.Keys <= rank.Keys
  {
    var scene := d.scenes[s.sceneId];
    var p := Pending(scene.elements, s.elementIndex);
    && (forall a :: a in d.scenes && rank[a] < rank[s.sceneId] ==> Untouched(d, a, s.attempts))
    && (forall j: nat {:trigger ChallengeAt(d, s.sceneId, j)} :: s.elementIndex <= j && ChallengeAt(d, s.sceneId, j) ==>
          scene.elements[j].id !in s.attempts ||
          (p == Some(j) && s.Attempts(scene.elements[j].id) < scene.elements[j].maxAttempts))
    && (scene.next.None? && scene.ending.None? ==> p.Some?)
  }

  /** On entry to a fresh scene everything is ahead. */
  lemma FreshSceneAhead(d: GameDefinition, rank: map<string, nat>, s: GameState)
    requires Accepted(d) && Acyclic(d, rank) && s.sceneId in d.scenes && s.elementIndex == 0
    requires forall a :: a in d.scenes && rank[a] <= rank[s.sceneId] ==> Untouched(d, a, s.attempts)
    ensures Ahead(d, rank, s)
  {
    var scene := d.scenes[s.sceneId];
    assert SceneOk(d, scene) && Untouched(d, s.sceneId, s.attempts);
    if scene.next.None? && scene.ending.None? {
      var i :| 0 <= i < |scene.elements| && Exits(scene.elements[i]);
      assert scene.elements[i].Interactive();
    }
  }

  lemma LandedAhead(d: GameDefinition, rank: map<string, nat>, k: nat, s: GameState, p: nat, goto: Option<string>,
                    stays: bool, t: GameState)
    requires Playable(d, rank) && s.sceneId in d.scenes && s.status.Active? && Ahead(d, rank, s)
    requires Pending(d.scenes[s.sceneId].elements, s.elementIndex) == Some(p)
    requires var el := d.scenes[s.sceneId].elements[p];
             && (t.attempts == s.attempts || (el.Challenge? && t.attempts == Counted(s, el.id).attempts))
             && (stays ==> el.Challenge? && t.Attempts(el.id) < el.maxAttempts)
             && (!stays && goto.None? ==> !AlwaysLeaves(el))
    requires Landed(d, rank, k, s, p, goto, stays, t)
    ensures Ahead(d, rank, t)
  {
    var elements := d.scenes[s.sceneId].elements;
    assert elements[p].Challenge? ==> ChallengeAt(d, s.sceneId, p);
    forall a | a in d.scenes && rank[a] < rank[s.sceneId]
      ensures Untouched(d, a, t.attempts)
    {
      assert Untouched(d, a, s.attempts);
    }
    if goto.Some? {
      FreshSceneAhead(d, rank, t);
    } else {
      forall j: nat | p < j && ChallengeAt(d, s.sceneId, j)
        ensures elements[j].id !in t.attempts
      {
        assert elements[j].id !in s.attempts;
      }
      if !stays && d.scenes[s.sceneId].next.None? && d.scenes[s.sceneId].ending.None? {
        assert Pending(elements, p + 1).Some?;
      }
    }
  }

  lemma {:induction false} SceneBoundExists(d: GameDefinition, ids: set<string>) returns (k: nat)
    requires ids <= d.scenes.Keys
    ensures forall id :: id in ids ==> 1 + Capacity(d.scenes[id].elements, 0) <= k
    decreases ids
  {
    if ids == {} {
      k := 0;
    } else {
      var id :| id in ids;
      var rest := SceneBoundExists(d, ids - {id});
      k := rest + 1 + Capacity(d.scenes[id].elements, 0);
    }
  }

  lemma ChooseKeepsAhead(
      d: GameDefinition, rank: map<string, nat>, k: nat, s: GameState, element: string, option: string)
    requires Playable(d, rank) && SceneBound(d, k) && StateInv(d, s) && s.status.Active? && Ahead(d, rank, s)
    requires Choose(d, s, element, option).Done?
    ensures var t := Choose(d, s, element, option).state; t.sceneId in d.scenes && Ahead(d, rank, t)
  {
    var p, outcome := ChooseResolves(d, s, element, option);
    ResolveMeasure(d, rank, k, s, outcome, p);
    LandedAhead(d, rank, k, s, p, outcome.goto, false, Resolve(d, s, outcome, p).state);
  }

  /** What `GradedLands` says of the document after an answer is all that `Ahead` needs. */
  lemma AnsweredAhead(
      d: GameDefinition, rank: map<string, nat>, k: nat, s: GameState, el: Element, p: nat, correct: bool,
      t: GameState)
    requires Playable(d, rank) && Asking(d, s, el, p) && Ahead(d, rank, s)
    requires t.attempts == Counted(s, el.id).attempts
    requires Landed(d, rank, k, s, p, BranchGoto(s, el, correct), !correct && s.Attempts(el.id) + 1 < el.maxAttempts, t)
    ensures Ahead(d, rank, t)
  {
    var stays := !correct && s.Attempts(el.id) + 1 < el.maxAttempts;
    assert t.Attempts(el.id) == s.Attempts(el.id) + 1;
    assert !stays && BranchGoto(s, el, correct).None? ==> !AlwaysLeaves(el);
    LandedAhead(d, rank, k, s, p, BranchGoto(s, el, correct), stays, t);
  }

  lemma AnswerKeepsAhead(d: GameDefinition, rank: map<string, nat>, k: nat, s: GameState, el: Element, p: nat,
                         v: Challenges.Verdict, t: GameState)
    requires Playable(d, rank) && SceneBound(d, k) && Asking(d, s, el, p) && Ahead(d, rank, s)
    requires GradedTo(d, s, el, p, v, t)
    ensures t.sceneId in d.scenes && Ahead(d, rank, t)
  {
    GradedToLands(d, rank, k, s, el, p, v, t);
    AnsweredAhead(d, rank, k, s, el, p, v.correct, t);
  }

  lemma AdvanceKeepsAhead(d: GameDefinition, rank: map<string, nat>, k: nat, s: GameState)
    requires Playable(d, rank) && SceneBound(d, k) && StateInv(d, s) && Ahead(d, rank, s)
    requires Advance(d, s).Done? && Advance(d, s).state.status.Active?
    ensures var t := Advance(d, s).state; t.sceneId in d.scenes && Ahead(d, rank, t)
  {
    var scene := d.scenes[s.sceneId];
    assert SceneOk(d, scene);
    assert Edge(d, s.sceneId, scene.next.value);
    EnterMeasure(d, rank, k, s, scene.next.value);
    var t := Advance(d, s).state;
    forall a | a in d.scenes && rank[a] <= rank[t.sceneId] ensures Untouched(d, a, t.attempts) {
      assert Untouched(d, a, s.attempts);
    }
    FreshSceneAhead(d, rank, t);
  }

  lemma PlayKeepsAhead(d: GameDefinition, rank: map<string, nat>, s: GameState, m: Move)
    requires Playable(d, rank) && StateInv(d, s) && (s.status.Active? ==> Ahead(d, rank, s))
    requires Play(d, s, m).Done?
    ensures var t := Play(d, s, m).state; StateInv(d, t) && (t.status.Active? ==> Ahead(d, rank, t))
  {
    PlaySafe(d, s, m, {}, false);
    var k := SceneBoundExists(d, d.scenes.Keys);
    match m {
      case MoveAdvance =>
        if Advance(d, s).state.status.Active? { AdvanceKeepsAhead(d, rank, k, s); }
      case MoveChoose(element, option) => ChooseKeepsAhead(d, rank, k, s, element, option);
      case MoveAnswer(element, response) =>
        var t := FindChallenge(d, s, element);
        AnswerKeepsAhead(d, rank, k, s, t.element, t.index, Challenges.Evaluate(t.element.config, response).value,
                         Play(d, s, m).state);
    }
  }

  lemma NewGameAhead(d: GameDefinition, rank: map<string, nat>)
    requires Playable(d, rank) && NewState(d).Done?
    ensures StateInv(d, NewState(d).state) && Ahead(d, rank, NewState(d).state)
  {
    NewStateSafe(d, {}, false);
    EffectsKeepPosition(BlankState(d).(sceneId := d.startScene, elementIndex := 0), d.scenes[d.startScene].onEnter);
    FreshSceneAhead(d, rank, NewState(d).state);
  }

  lemma {:induction false} RunsKeepAhead(d: GameDefinition, rank: map<string, nat>, moves: seq<Move>)
    requires Playable(d, rank) && NewState(d).Done?
    ensures var s := Drive(d, NewState(d).state, moves);
            StateInv(d, s) && (s.status.Active? ==> Ahead(d, rank, s))
  {
    if moves == [] {
      NewGameAhead(d, rank);
    } else {
      var front := moves[..|moves| - 1];
      RunsKeepAhead(d, rank, front);
      var s := Drive(d, NewState(d).state, front);
      if Play(d, s, moves[|moves| - 1]).Done? {
        PlayKeepsAhead(d, rank, s, moves[|moves| - 1]);
      }
    }
  }

  /** With fresh elements ahead, an active state of a playable game is no dead end. */
  lemma AheadIsAlive(d: GameDefinition, rank: map<string, nat>, s: GameState)
    requires Playable(d, rank) && StateInv(d, s) && Ahead(d, rank, s)
    ensures !DeadEnd(d, s)
  {
    var scene := d.scenes[s.sceneId];
    var p := Pending(scene.elements, s.elementIndex);
    if p.Some? {
      var el := scene.elements[p.value];
      assert SceneFieldsOk(scene) && ElementFieldsOk(el);
      if el.Choice? {
        assert HasOpenOption(el);
      } else {
        assert ChallengeAt(d, s.sceneId, p.value);
      }
    }
  }

  /** Deadlock freedom: after any run of a well-typed playable game, refused requests included, an
      active game accepts some move. */
  lemma NeverStuck(d: GameDefinition, rank: map<string, nat>, numeric: set<string>, moves: seq<Move>)
    requires Playable(d, rank) && WellTyped(d, numeric)
    ensures NewState(d).Done?
    ensures var s := Drive(d, NewState(d).state, moves);
            s.status.Active? ==> exists m :: Play(d, s, m).Done?
  {
    NewStateSafe(d, numeric, true);
    var s := Drive(d, NewState(d).state, moves);
    DriveSafe(d, NewState(d).state, moves, numeric, true);
    RunsKeepAhead(d, rank, moves);
    if s.status.Active? {
      AheadIsAlive(d, rank, s);
      StuckExactly(d, s, numeric);
    }
  }

  lemma {:induction false} DriveCons(d: GameDefinition, s: GameState, m: Move, moves: seq<Move>)
    requires Play(d, s, m).Done? && AllAccepted(d, Play(d, s, m).state, moves)
    ensures AllAccepted(d, s, [m] + moves)
    ensures Drive(d, s, [m] + moves) == Drive(d, Play(d, s, m).state, moves)
  {
    var all := [m] + moves;
    if moves == [] {
      assert all[..0] == [];
      assert Drive(d, s, all[..|all| - 1]) == s;
    } else {
      var front := moves[..|moves| - 1];
      DriveCons(d, s, m, front);
      assert all[..|all| - 1] == [m] + front;
    }
  }

  /** From every state a run can reach, some further accepted moves complete the game. */
  lemma {:induction false} CanFinish(
      d: GameDefinition, rank: map<string, nat>, k: nat, numeric: set<string>, s: GameState)
    returns (moves: seq<Move>)
    requires Playable(d, rank) && SceneBound(d, k) && WellTyped(d, numeric)
    requires StateInv(d, s) && VarsOk(numeric, s.variables) && (s.status.Active? ==> Ahead(d, rank, s))
    ensures AllAccepted(d, s, moves) && Drive(d, s, moves).status.Completed?
    decreases Measure(d, rank, k, s)
  {
    if s.status.Completed? {
      moves := [];
    } else {
      AheadIsAlive(d, rank, s);
      StuckExactly(d, s, numeric);
      var m :| Play(d, s, m).Done?;
      PlayLowersMeasure(d, rank, k, s, m);
      PlaySafe(d, s, m, numeric, true);
      PlayKeepsAhead(d, rank, s, m);
      var rest := CanFinish(d, rank, k, numeric, Play(d, s, m).state);
      DriveCons(d, s, m, rest);
      moves := [m] + rest;
    }
  }

  /** After any run of a well-typed playable game an ending is still within reach. */
  lemma EndingAlwaysReachable(d: GameDefinition, rank: map<string, nat>, numeric: set<string>, moves: seq<Move>)
    requires Playable(d, rank) && WellTyped(d, numeric)
    ensures NewState(d).Done?
    ensures exists more ::
              AllAccepted(d, Drive(d, NewState(d).state, moves), more) &&
              Drive(d, Drive(d, NewState(d).state, moves), more).status.Completed?
  {
    NewStateSafe(d, numeric, true);
    DriveSafe(d, NewState(d).state, moves, numeric, true);
    RunsKeepAhead(d, rank, moves);
    var k := SceneBoundExists(d, d.scenes.Keys);
    var more := CanFinish(d, rank, k, numeric, Drive(d, NewState(d).state, moves));
  }

  // ---- What the publish-time gate alone does not give ----

  function HalfwayChoice(): Element {
    Choice("c", "", [ChoiceOption("go", "", None, [], Some("end")), ChoiceOption("stay", "", None, [], None)])
  }

  function EndScene(): Scene { Scene("", [], [], None, Some(Ending("e", "", ""))) }

  /** One of the two options has a goto, which is all the exit rule asks for. */
  function HalfExit(): GameDefinition {
    GameDefinition("start", map[], map[],
                   map["start" := Scene("", [HalfwayChoice()], [], None, None), "end" := EndScene()])
  }

  lemma HalfExitScenes()
    ensures var d := HalfExit();
            d.scenes.Keys == {"start", "end"} &&
            d.scenes["start"] == Scene("", [HalfwayChoice()], [], None, None) && d.scenes["end"] == EndScene()
  {
    assert "start" != "end" by { assert "start"[0] != "end"[0]; }
  }

  lemma HalfExitAccepted()
    ensures Accepted(HalfExit()) && WellTyped(HalfExit(), {})
  {
    HalfExitScenes();
    var d := HalfExit();
    var start := d.scenes["start"];
    assert OptionIds(HalfwayChoice().options) == ["go", "stay"] && "go"[0] != "stay"[0];
    assert Truthy(start.elements[0].options[0].goto);
    assert Exits(start.elements[0]);
    assert SceneOk(d, start) && SceneOk(d, d.scenes["end"]);
  }

  lemma HalfExitGraph()
    ensures var d := HalfExit();
            UniqueChallenges(d) && OpenChoices(d) && !ExitsCovered(d) && Acyclic(d, map["start" := 1, "end" := 0])
  {
    HalfExitScenes();
    var d := HalfExit();
    var c := d.scenes["start"].elements[0];
    assert c.options[0].condition.None?;
    assert c.options[1].goto.None?;
    assert c.Interactive() && !AlwaysLeaves(c);
    forall from, to | from in d.scenes && to in d.scenes && Edge(d, from, to)
      ensures from == "start" && to == "end"
    {
    }
  }

  /** The state reached by taking the option that stays. */
  function StuckState(): GameState { BlankState(HalfExit()).(sceneId := "start", elementIndex := 1) }

  lemma StayGetsStuck()
    ensures NewState(HalfExit()).Done?
    ensures Play(HalfExit(), NewState(HalfExit()).state, MoveChoose("c", "stay")) == Done(StuckState(), [])
  {
    FindStay();
    assert HalfExit().scenes["start"].elements == [HalfwayChoice()];
    assert NewState(HalfExit()).state == BlankState(HalfExit()).(sceneId := "start", elementIndex := 0);
  }

  /** An accepted definition, acyclic, with unique challenges and open choices, in which one accepted
      move leads to an active state that accepts nothing: the exit rule does not give progress. */
  lemma ExitRuleIsNotEnough()
    ensures var d := HalfExit();
            Accepted(d) && UniqueChallenges(d) && OpenChoices(d) && WellTyped(d, {}) && !ExitsCovered(d) &&
            Acyclic(d, map["start" := 1, "end" := 0])
    ensures NewState(HalfExit()).Done?
    ensures var s := Drive(HalfExit(), NewState(HalfExit()).state, [MoveChoose("c", "stay")]);
            s.status.Active? && forall m :: !Play(HalfExit(), s, m).Done?
  {
    HalfExitAccepted();
    HalfExitGraph();
    HalfExitRun();
    StuckStateIsDead();
    StuckExactly(HalfExit(), StuckState(), {});
  }

  lemma HalfExitRun()
    ensures NewState(HalfExit()).Done?
    ensures Drive(HalfExit(), NewState(HalfExit()).state, [MoveChoose("c", "stay")]) == StuckState()
  {
    StayGetsStuck();
    var d, m := HalfExit(), MoveChoose("c", "stay");
    assert [m][..0] == [];
    assert Drive(d, NewState(d).state, [m]) == Next(d, NewState(d).state, m);
  }

  lemma StuckStateIsDead()
    ensures StateInv(HalfExit(), StuckState()) && DeadEnd(HalfExit(), StuckState())
  {
    HalfExitScenes();
  }

  lemma FindStay()
    ensures FindOption(HalfwayChoice().options, "stay") == Some(HalfwayChoice().options[1])
  {
    var options := HalfwayChoice().options;
    assert options[1..][0] == options[1];
    assert FindOption(options, "stay") == FindOption(options[1..], "stay");
  }

  function OneShot(): Element {
    Challenge("c", Challenges.TextInput("", ["x"], true), 1,
              Outcome([], Some("end")), Outcome([], None), Some(Outcome([], Some("hint"))))
  }

  /** A failed challenge leads to a hint scene, which leads back to the challenge. */
  function Looping(): GameDefinition {
    GameDefinition("quiz", map[], map[],
                   map["quiz" := Scene("", [OneShot()], [], None, None),
                       "hint" := Scene("", [], [], Some("quiz"), None),
                       "end" := EndScene()])
  }

  lemma LoopingScenes()
    ensures var d := Looping();
            d.scenes.Keys == {"quiz", "hint", "end"} &&
            d.scenes["quiz"] == Scene("", [OneShot()], [], None, None) &&
            d.scenes["hint"] == Scene("", [], [], Some("quiz"), None) && d.scenes["end"] == EndScene()
  {
    assert "quiz"[0] != "hint"[0] && "quiz"[0] != "end"[0] && "hint"[0] != "end"[0];
  }

  lemma LoopingAccepted()
    ensures Accepted(Looping()) && WellTyped(Looping(), {})
  {
    LoopingScenes();
    var d := Looping();
    var quiz := d.scenes["quiz"];
    assert ElementOk(d, OneShot()) && ElementFieldsOk(OneShot()) && ElementTyped({}, OneShot());
    assert Exits(quiz.elements[0]);
    assert SceneOk(d, quiz) && SceneFieldsOk(quiz) && SceneTyped({}, quiz);
    assert SceneOk(d, d.scenes["hint"]) && SceneOk(d, d.scenes["end"]);
  }

  lemma LoopingGraph()
    ensures var d := Looping(); UniqueChallenges(d) && OpenChoices(d) && ExitsCovered(d)
  {
    LoopingScenes();
    var d := Looping();
    assert forall a, i: nat :: ChallengeAt(d, a, i) ==> a == "quiz" && i == 0;
    assert AlwaysLeaves(OneShot());
  }

  /** Back at the challenge with its only attempt spent. */
  function SpentState(): GameState {
    BlankState(Looping()).(sceneId := "quiz", attempts := map["c" := 1],
                           results := map["c" := ResultRecord(false, 0.0, 1)])
  }

  function HintState(): GameState { SpentState().(sceneId := "hint") }

  lemma LoopingRun()
    ensures NewState(Looping()).Done?
    ensures var d := Looping();
            var s0 := NewState(d).state;
            Next(d, s0, MoveAnswer("c", NO_RESPONSE)) == HintState() &&
            Next(d, HintState(), MoveAdvance) == SpentState()
  {
    LoopingScenes();
    var d := Looping();
    var s0 := BlankState(d).(sceneId := "quiz");
    assert NewState(d).state == s0;
    var el := OneShot();
    assert Challenges.Evaluate(el.config, NO_RESPONSE) == Some(Challenges.Verdict(false, 0.0)) by {
      assert Challenges.Strip("") == "" && "" !in ["x"];
    }
    assert FindChallenge(d, s0, "c") == Found(el, 0);
    var counted := Counted(s0, "c");
    assert counted.attempts == map["c" := 1];
    assert Wrong(d, counted, el, 0, 0.0).Done? && Wrong(d, counted, el, 0, 0.0).state == HintState();
  }

  /** Attempts outlive a visit to a scene: this accepted definition satisfies every rule but
      acyclicity, and a failed answer followed by the way back leaves the player stuck for good. */
  lemma ReentryIsStuck()
    ensures var d := Looping();
            Accepted(d) && WellTyped(d, {}) && UniqueChallenges(d) && OpenChoices(d) && ExitsCovered(d)
    ensures NewState(Looping()).Done?
    ensures var s := Drive(Looping(), NewState(Looping()).state, [MoveAnswer("c", NO_RESPONSE), MoveAdvance]);
            s.status.Active? && forall m :: !Play(Looping(), s, m).Done?
  {
    LoopingAccepted();
    LoopingGraph();
    LoopingDrive();
    SpentStateIsDead();
    StuckExactly(Looping(), SpentState(), {});
  }

  lemma LoopingDrive()
    ensures NewState(Looping()).Done?
    ensures Drive(Looping(), NewState(Looping()).state, [MoveAnswer("c", NO_RESPONSE), MoveAdvance]) == SpentState()
  {
    LoopingRun();
    var d, a, b := Looping(), MoveAnswer("c", NO_RESPONSE), MoveAdvance;
    var s0 := NewState(d).state;
    assert [a, b][..1] == [a] && [a][..0] == [];
    assert Drive(d, s0, [a]) == Next(d, s0, a);
    assert Drive(d, s0, [a, b]) == Next(d, Drive(d, s0, [a]), b);
  }

  lemma SpentStateIsDead()
    ensures StateInv(Looping(), SpentState()) && DeadEnd(Looping(), SpentState())
  {
    LoopingScenes();
    var elements := Looping().scenes["quiz"].elements;
    assert Pending(elements, 0) == Some(0);
  }
}
