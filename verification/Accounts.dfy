/** The events of a session account exactly for what changed in its document. */
module Accounts {
  import opened Wrappers
  import opened Conditions
  import opened Effects
  import opened Definition
  import opened Engine
  import opened EngineSafety
  import opened Progress
  import Challenges

  function Delta(e: Event, item: string): int {
    if e.InventoryChanged? && e.item == item then e.delta else 0
  }

  /** Net change of an item over a stream of events. */
  function Net(events: seq<Event>, item: string): int {
    if events == [] then 0 else Net(events[..|events| - 1], item) + Delta(events[|events| - 1], item)
  }

  function XpOf(e: Event): int {
    if e.XpAwarded? then e.amount else 0
  }

  function XpSum(events: seq<Event>): int {
    if events == [] then 0 else XpSum(events[..|events| - 1]) + XpOf(events[|events| - 1])
  }

  /** The achievement codes a stream announces, in order. */
  function Unlocks(events: seq<Event>): seq<string> {
    if events == [] then []
    else Unlocks(events[..|events| - 1]) +
         if events[|events| - 1].AchievementUnlocked? then [events[|events| - 1].code] else []
  }

  lemma {:induction false} SumsConcat(a: seq<Event>, b: seq<Event>, item: string)
    ensures Net(a + b, item) == Net(a, item) + Net(b, item)
    ensures XpSum(a + b) == XpSum(a) + XpSum(b)
    ensures Unlocks(a + b) == Unlocks(a) + Unlocks(b)
  {
    if b == [] {
      assert a + b == a;
    } else {
      var front := b[..|b| - 1];
      SumsConcat(a, front, item);
      assert (a + b)[..|a + b| - 1] == a + front;
    }
  }

  /** Running totals, started from what `s` holds of each item, never go negative. */
  ghost predicate NeverNegative(s: GameState, events: seq<Event>) {
    forall item, k :: 0 <= k <= |events| ==> CountOf(s.inventory, item) + Net(events[..k], item) >= 0
  }

  /** `events` is the full account of the step from `s` to `t`. */
  ghost predicate Tracks(s: GameState, events: seq<Event>, t: GameState) {
    && (forall item :: CountOf(t.inventory, item) == CountOf(s.inventory, item) + Net(events, item))
    && NeverNegative(s, events)
    && t.xpEarned == s.xpEarned + XpSum(events)
    && t.achievements == s.achievements + Unlocks(events)
  }

  /** The two documents hold the same items, XP and achievements. */
  predicate SameHoldings(s: GameState, t: GameState) {
    s.inventory == t.inventory && s.xpEarned == t.xpEarned && s.achievements == t.achievements
  }

  /** An event that announces nothing of value. */
  predicate Silent(e: Event) { !e.InventoryChanged? && !e.XpAwarded? && !e.AchievementUnlocked? }

  lemma TracksCompose(s: GameState, a: seq<Event>, t: GameState, b: seq<Event>, u: GameState)
    requires Tracks(s, a, t) && Tracks(t, b, u)
    ensures Tracks(s, a + b, u)
  {
    forall item ensures CountOf(u.inventory, item) == CountOf(s.inventory, item) + Net(a + b, item) {
      SumsConcat(a, b, item);
    }
    forall item, k | 0 <= k <= |a + b| ensures CountOf(s.inventory, item) + Net((a + b)[..k], item) >= 0 {
      if k <= |a| {
        assert (a + b)[..k] == a[..k];
      } else {
        assert (a + b)[..k] == a + b[..k - |a|];
        SumsConcat(a, b[..k - |a|], item);
      }
    }
    SumsConcat(a, b, "");
  }

  /** Items are held in positive numbers only. */
  ghost predicate Stocked(s: GameState) { forall item :: item in s.inventory ==> s.inventory[item] >= 1 }

  lemma NothingTracks(s: GameState, t: GameState)
    requires Stocked(s) && SameHoldings(s, t)
    ensures Tracks(s, [], t)
  {
  }

  lemma SilentTracks(s: GameState, e: Event)
    requires Stocked(s) && Silent(e)
    ensures Tracks(s, [e], s)
  {
    assert [e][..0] == [] && [e][..1] == [e];
    assert XpSum([e]) == XpSum([e][..0]) + XpOf(e);
    assert Unlocks([e]) == Unlocks([e][..0]) + [];
  }

  /** One inventory event whose delta is what happened to its item. */
  lemma ItemEventTracks(s: GameState, item: string, delta: int, qty: int, t: GameState)
    requires Stocked(s) && Stocked(t) && t.xpEarned == s.xpEarned && t.achievements == s.achievements
    requires forall other ::
               CountOf(t.inventory, other) == CountOf(s.inventory, other) + if other == item then delta else 0
    ensures Tracks(s, [InventoryChanged(item, delta, qty)], t)
  {
    var events := [InventoryChanged(item, delta, qty)];
    assert events[..0] == [] && events[..1] == events;
    forall other ensures Net(events, other) == if other == item then delta else 0 {
      assert Net(events, other) == Net(events[..0], other) + Delta(events[0], other);
    }
    forall other, k | 0 <= k <= 1 ensures CountOf(s.inventory, other) + Net(events[..k], other) >= 0 {
      assert CountOf(t.inventory, other) >= 0 && CountOf(s.inventory, other) >= 0;
    }
    assert XpSum(events) == XpSum(events[..0]) + XpOf(events[0]);
    assert Unlocks(events) == Unlocks(events[..0]) + [];
  }

  /** One event that moves no item. */
  lemma OtherEventTracks(s: GameState, e: Event, t: GameState)
    requires Stocked(s) && t.inventory == s.inventory && !e.InventoryChanged?
    requires t.xpEarned == s.xpEarned + XpOf(e)
    requires t.achievements == s.achievements + if e.AchievementUnlocked? then [e.code] else []
    ensures Tracks(s, [e], t)
  {
    assert [e][..0] == [] && [e][..1] == [e];
    assert XpSum([e]) == XpSum([e][..0]) + XpOf(e);
    assert Unlocks([e]) == Unlocks([e][..0]) + if e.AchievementUnlocked? then [e.code] else [];
  }

  lemma EffectTracks(s: GameState, e: Effect)
    requires Stocked(s) && EffectFieldsOk(e) && ApplyEffect(s, e).Done?
    ensures Tracks(s, ApplyEffect(s, e).events, ApplyEffect(s, e).state) && Stocked(ApplyEffect(s, e).state)
  {
    var events, t := ApplyEffect(s, e).events, ApplyEffect(s, e).state;
    if events == [] {
      NothingTracks(s, t);
    } else {
      assert events == [events[0]];
      match e {
        case GrantItem(item, qty) => ItemEventTracks(s, item, events[0].delta, events[0].qty, t);
        case RemoveItem(item, qty) => ItemEventTracks(s, item, events[0].delta, events[0].qty, t);
        case AwardXp(xp, reason) => OtherEventTracks(s, XpAwarded(xp, reason), t);
        case UnlockAchievement(code) => OtherEventTracks(s, AchievementUnlocked(code), t);
        case _ => assert false;
      }
    }
  }

  /** A call that succeeds returns the account of what it did. */
  ghost predicate Accounted(s: GameState, step: Step) {
    step.Done? ==> Tracks(s, step.events, step.state) && Stocked(step.state)
  }

  lemma {:induction false} EffectsTrack(s: GameState, es: seq<Effect>)
    requires Stocked(s) && EffectsFieldsOk(es)
    ensures Accounted(s, ApplyEffects(s, es))
  {
    if es == [] {
      NothingTracks(s, s);
    } else {
      EffectsTrack(s, es[..|es| - 1]);
      var front := ApplyEffects(s, es[..|es| - 1]);
      if front.Done? && ApplyEffect(front.state, es[|es| - 1]).Done? {
        var last := ApplyEffect(front.state, es[|es| - 1]);
        EffectTracks(front.state, es[|es| - 1]);
        TracksCompose(s, front.events, front.state, last.events, last.state);
      }
    }
  }

  /** Prefixing an accounted step with the account of getting to it. */
  lemma AfterTracks(s: GameState, before: seq<Event>, t: GameState, step: Step)
    requires Tracks(s, before, t) && Accounted(t, step)
    ensures Accounted(s, After(before, step))
  {
    if step.Done? { TracksCompose(s, before, t, step.events, step.state); }
  }

  /** Bookkeeping fields do not matter to the account. */
  lemma MovedTracks(s: GameState, t: GameState, step: Step)
    requires SameHoldings(s, t) && Accounted(t, step)
    ensures Accounted(s, step)
  {
    if step.Done? {
      forall item, k | 0 <= k <= |step.events| ensures CountOf(s.inventory, item) + Net(step.events[..k], item) >= 0 {
        assert CountOf(t.inventory, item) + Net(step.events[..k], item) >= 0;
      }
    }
  }

  lemma EnterTracks(d: GameDefinition, s: GameState, id: string)
    requires FieldsOk(d) && Stocked(s)
    ensures Accounted(s, EnterScene(d, s, id))
  {
    if id in d.scenes {
      var moved := s.(sceneId := id, elementIndex := 0);
      assert SceneFieldsOk(d.scenes[id]);
      EffectsTrack(moved, d.scenes[id].onEnter);
      SilentTracks(moved, SceneEntered(id));
      AfterTracks(moved, [SceneEntered(id)], moved, ApplyEffects(moved, d.scenes[id].onEnter));
      MovedTracks(s, moved, EnterScene(d, s, id));
    }
  }

  lemma LeaveTracks(d: GameDefinition, s: GameState, goto: Option<string>)
    requires FieldsOk(d) && Stocked(s)
    ensures Accounted(s, Leave(d, s, goto))
  {
    if goto.None? {
      NothingTracks(s, s);
    } else {
      EnterTracks(d, s, goto.value);
      SilentTracks(s, SceneCompleted(s.sceneId));
      AfterTracks(s, [SceneCompleted(s.sceneId)], s, EnterScene(d, s, goto.value));
    }
  }

  lemma ResolveTracks(d: GameDefinition, s: GameState, outcome: Outcome, index: nat)
    requires FieldsOk(d) && Stocked(s) && EffectsFieldsOk(outcome.effects)
    ensures Accounted(s, Resolve(d, s, outcome, index))
  {
    EffectsTrack(s, outcome.effects);
    var applied := ApplyEffects(s, outcome.effects);
    if applied.Done? {
      var s1 := applied.state.(elementIndex := index + 1);
      LeaveTracks(d, s1, outcome.goto);
      MovedTracks(applied.state, s1, Leave(d, s1, outcome.goto));
      AfterTracks(s, applied.events, applied.state, Leave(d, s1, outcome.goto));
    }
  }

  lemma WrongTracks(d: GameDefinition, s: GameState, el: Element, index: nat, score: real)
    requires FieldsOk(d) && Stocked(s) && el.Challenge? && ElementFieldsOk(el)
    ensures Accounted(s, Wrong(d, s, el, index, score))
  {
    EffectsTrack(s, el.onIncorrect.effects);
    var applied := ApplyEffects(s, el.onIncorrect.effects);
    if applied.Done? {
      var s1 := applied.state;
      var exhausted := el.onExhausted.GetOr(Outcome([], None));
      var recorded := Recorded(s1, el.id, false, score);
      ResolveTracks(d, recorded, exhausted, index);
      MovedTracks(s1, recorded, Resolve(d, recorded, exhausted, index));
      LeaveTracks(d, s1, el.onIncorrect.goto);
      AfterTracks(s, applied.events, s1,
                  if s1.Attempts(el.id) >= el.maxAttempts then Resolve(d, recorded, exhausted, index)
                  else Leave(d, s1, el.onIncorrect.goto));
    }
  }

  lemma GradedTracks(d: GameDefinition, s: GameState, el: Element, index: nat, v: Challenges.Verdict)
    requires FieldsOk(d) && Stocked(s) && el.Challenge? && ElementFieldsOk(el)
    ensures Accounted(s, Graded(d, s, el, index, v))
  {
    var counted := Counted(s, el.id);
    var recorded := Recorded(counted, el.id, true, v.score);
    var asked := QuestionAnswered(el.id, v.correct, v.score, counted.Attempts(el.id));
    ResolveTracks(d, recorded, el.onCorrect, index);
    WrongTracks(d, counted, el, index, v.score);
    var rest := if v.correct then Resolve(d, recorded, el.onCorrect, index) else Wrong(d, counted, el, index, v.score);
    MovedTracks(s, recorded, Resolve(d, recorded, el.onCorrect, index));
    MovedTracks(s, counted, Wrong(d, counted, el, index, v.score));
    SilentTracks(s, asked);
    AfterTracks(s, [asked], s, rest);
  }

  lemma ChooseTracks(d: GameDefinition, s: GameState, elementId: string, optionId: string)
    requires Accepted(d) && StateInv(d, s)
    ensures Accounted(s, Choose(d, s, elementId, optionId))
  {
    var t := FindPending(d, s);
    if t.Found? && t.element.Choice? {
      FindOptionProps(t.element.options, optionId);
      var f := FindOption(t.element.options, optionId);
      if f.Some? {
        assert SceneFieldsOk(d.scenes[s.sceneId]) && ElementFieldsOk(t.element);
        ResolveTracks(d, s, Outcome(f.value.effects, f.value.goto), t.index);
      }
    }
  }

  lemma AnswerTracks(d: GameDefinition, s: GameState, elementId: string, response: Challenges.Response)
    requires Accepted(d) && StateInv(d, s)
    ensures Accounted(s, Answer(d, s, elementId, response))
  {
    var t := FindChallenge(d, s, elementId);
    if t.Found? {
      assert SceneFieldsOk(d.scenes[s.sceneId]) && ElementFieldsOk(t.element);
      var v := Challenges.Evaluate(t.element.config, response);
      if v.Some? { GradedTracks(d, s, t.element, t.index, v.value); }
    }
  }

  lemma AdvanceTracks(d: GameDefinition, s: GameState)
    requires Accepted(d) && StateInv(d, s)
    ensures Accounted(s, Advance(d, s))
  {
    var scene := d.scenes[s.sceneId];
    SilentTracks(s, SceneCompleted(s.sceneId));
    if scene.ending.Some? {
      var finished := Finish(s, scene.ending.value.id);
      SilentTracks(s, finished.events[0]);
      MovedTracks(finished.state, s, Done(s, finished.events));
      AfterTracks(s, [SceneCompleted(s.sceneId)], s, finished);
    } else if scene.next.Some? {
      EnterTracks(d, s, scene.next.value);
      AfterTracks(s, [SceneCompleted(s.sceneId)], s, EnterScene(d, s, scene.next.value));
    }
  }

  lemma PlayTracks(d: GameDefinition, s: GameState, m: Move)
    requires Accepted(d) && StateInv(d, s)
    ensures Accounted(s, Play(d, s, m))
  {
    match m
    case MoveAdvance => AdvanceTracks(d, s);
    case MoveChoose(element, option) => ChooseTracks(d, s, element, option);
    case MoveAnswer(element, response) => AnswerTracks(d, s, element, response);
  }

  /** Everything a session without restores has emitted. */
  function Stream(d: GameDefinition, moves: seq<Move>): seq<Event>
    requires NewState(d).Done?
  {
    if moves == [] then NewState(d).events
    else
      var front := moves[..|moves| - 1];
      var step := Play(d, Drive(d, NewState(d).state, front), moves[|moves| - 1]);
      Stream(d, front) + if step.Done? then step.events else []
  }

  /** Session conservation: what a session holds is exactly what its event stream announced, and no
      prefix of the stream ever owes an item. */
  lemma {:induction false} StreamAccountsForHoldings(d: GameDefinition, moves: seq<Move>)
    requires Accepted(d) && NewState(d).Done?
    ensures var s := Drive(d, NewState(d).state, moves);
            StateInv(d, s) &&
            (forall item :: CountOf(s.inventory, item) == Net(Stream(d, moves), item)) &&
            (forall item, k :: 0 <= k <= |Stream(d, moves)| ==> Net(Stream(d, moves)[..k], item) >= 0) &&
            s.xpEarned == XpSum(Stream(d, moves)) &&
            s.achievements == Unlocks(Stream(d, moves))
  {
    NewStateSafe(d, {}, false);
    DriveSafe(d, NewState(d).state, moves, {}, false);
    StreamTracks(d, moves);
    var blank := BlankState(d);
    forall item, k | 0 <= k <= |Stream(d, moves)| ensures Net(Stream(d, moves)[..k], item) >= 0 {
      assert CountOf(blank.inventory, item) + Net(Stream(d, moves)[..k], item) >= 0;
    }
  }

  lemma {:induction false} StreamTracks(d: GameDefinition, moves: seq<Move>)
    requires Accepted(d) && NewState(d).Done?
    ensures Tracks(BlankState(d), Stream(d, moves), Drive(d, NewState(d).state, moves))
  {
    NewStateSafe(d, {}, false);
    if moves == [] {
      EnterTracks(d, BlankState(d), d.startScene);
    } else {
      var front := moves[..|moves| - 1];
      StreamTracks(d, front);
      var s := Drive(d, NewState(d).state, front);
      DriveSafe(d, NewState(d).state, front, {}, false);
      var step := Play(d, s, moves[|moves| - 1]);
      PlayTracks(d, s, moves[|moves| - 1]);
      if step.Done? {
        TracksCompose(BlankState(d), Stream(d, front), s, step.events, step.state);
      } else {
        assert Stream(d, moves) == Stream(d, front);
      }
    }
  }
}
