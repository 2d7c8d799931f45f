/** The state document and the seven effects, the only way content changes player state
    (backend/app/modules/runtime/effects.py). */
module Effects {
  import opened Wrappers
  import opened Conditions

  datatype Effect =
    | SetVar(key: string, value: Value)
    | IncVar(key: string, amount: real)
    | SetFlag(key: string, present: bool)
    | GrantItem(item: string, qty: int)
    | RemoveItem(item: string, qty: int)
    | AwardXp(xp: int, reason: string)
    | UnlockAchievement(code: string)

  datatype ResultRecord = ResultRecord(correct: bool, score: real, attempts: int)

  datatype Event =
    | SceneEntered(scene: string)
    | SceneCompleted(scene: string)
    | QuestionAnswered(challenge: string, correct: bool, score: real, attempt: int)
    | InventoryChanged(item: string, delta: int, qty: int)
    | XpAwarded(amount: int, reason: string)
    | AchievementUnlocked(code: string)
    | MissionFinished(ending: string, xpEarned: int, results: map<string, ResultRecord>)

  datatype Status = Active | Completed

  datatype GameState = GameState(
    sceneId: string,
    elementIndex: nat,
    variables: map<string, Value>,
    flags: seq<string>,
    inventory: map<string, int>,
    attempts: map<string, int>,
    results: map<string, ResultRecord>,
    achievements: seq<string>,
    xpEarned: int,
    status: Status,
    endingId: Option<string>)
  {
    function Facts(): PlayerFacts { PlayerFacts(variables, flags, inventory) }
    function Attempts(id: string): int { CountOf(attempts, id) }
  }

  /** Refusals the engine raises on purpose, then the two ways the interpreter itself could break. */
  datatype Failure =
    | NotActive | InteractionPending | NoTransition | NothingPending | WrongElement
    | InvalidOption | NoAttempts | InvalidConfig
    | KeyError | TypeError
  {
    predicate Crash() { KeyError? || TypeError? }
  }

  /** One engine call: the events it returns, or what it raised and the document it left behind. */
  datatype Step = Done(state: GameState, events: seq<Event>) | Raised(error: Failure, left: GameState)

  /** `list.remove`: drop the first occurrence. */
  function RemoveFirst(s: seq<string>, x: string): seq<string> {
    if s == [] then [] else if s[0] == x then s[1..] else [s[0]] + RemoveFirst(s[1..], x)
  }

  function ApplyEffect(s: GameState, e: Effect): Step {
    match e
    case SetVar(key, value) => Done(s.(variables := s.variables[key := value]), [])
    case IncVar(key, amount) =>
      var current := if key in s.variables then s.variables[key] else Num(0.0);
      if current.Numeric()
      then Done(s.(variables := s.variables[key := Num(current.AsNumber() + amount)]), [])
      else Raised(TypeError, s)
    case SetFlag(key, present) =>
      if present && key !in s.flags then Done(s.(flags := s.flags + [key]), [])
      else if !present && key in s.flags then Done(s.(flags := RemoveFirst(s.flags, key)), [])
      else Done(s, [])
    case GrantItem(item, qty) =>
      var total := CountOf(s.inventory, item) + qty;
      Done(s.(inventory := s.inventory[item := total]), [InventoryChanged(item, qty, total)])
    case RemoveItem(item, qty) =>
      var held := CountOf(s.inventory, item);
      var left := if held - qty > 0 then held - qty else 0;
      Done(s.(inventory := if left == 0 then s.inventory - {item} else s.inventory[item := left]),
           [InventoryChanged(item, left - held, left)])
    case AwardXp(xp, reason) => Done(s.(xpEarned := s.xpEarned + xp), [XpAwarded(xp, reason)])
    case UnlockAchievement(code) =>
      if code in s.achievements then Done(s, [])
      else Done(s.(achievements := s.achievements + [code]), [AchievementUnlocked(code)])
  }

  /** Effects in order; a crash stops the list and keeps what was already applied. */
  function ApplyEffects(s: GameState, effects: seq<Effect>): Step {
    if effects == [] then Done(s, [])
    else match ApplyEffects(s, effects[..|effects| - 1])
      case Raised(error, left) => Raised(error, left)
      case Done(s1, events) => After(events, ApplyEffect(s1, effects[|effects| - 1]))
  }

  /** The events of a call that already returned `before`. */
  function After(before: seq<Event>, step: Step): Step {
    match step
    case Done(s, events) => Done(s, before + events)
    case Raised(_, _) => step
  }

  /** The mutable document the interpreter is handed. */
  class StateDocument {
    var sceneId: string
    var elementIndex: nat
    var variables: map<string, Value>
    var flags: seq<string>
    var inventory: map<string, int>
    var attempts: map<string, int>
    var results: map<string, ResultRecord>
    var achievements: seq<string>
    var xpEarned: int
    var status: Status
    var endingId: Option<string>

    function Value(): GameState
      reads this
    {
      GameState(sceneId, elementIndex, variables, flags, inventory, attempts, results, achievements, xpEarned,
                status, endingId)
    }

    /** `copy.deepcopy` of a stored document. */
    constructor (s: GameState)
      ensures Value() == s
    {
      sceneId, elementIndex, variables := s.sceneId, s.elementIndex, s.variables;
      flags, inventory := s.flags, s.inventory;
      attempts, results, achievements, xpEarned := s.attempts, s.results, s.achievements, s.xpEarned;
      status, endingId := s.status, s.endingId;
    }
  }

  /** What a call on the mutable document did, against the step that specifies it. */
  ghost predicate Yields(step: Step, value: GameState, events: seq<Event>, failure: Option<Failure>) {
    match step
    case Done(s, ev) => failure == None && value == s && events == ev
    case Raised(error, left) => failure == Some(error) && value == left
  }

  /** One pass of the loop body. */
  method ApplyOne(state: StateDocument, effect: Effect)
    returns (events: seq<Event>, failure: Option<Failure>)
    modifies state
    ensures Yields(ApplyEffect(old(state.Value()), effect), state.Value(), events, failure)
  {
    events, failure := [], None;
    match effect {
      case SetVar(key, value) =>
        state.variables := state.variables[key := value];
      case IncVar(key, amount) =>
        var current := if key in state.variables then state.variables[key] else Num(0.0);
        if !current.Numeric() {
          return [], Some(TypeError);
        }
        state.variables := state.variables[key := Num(current.AsNumber() + amount)];
      case SetFlag(key, present) =>
        if present && key !in state.flags {
          state.flags := state.flags + [key];
        } else if !present && key in state.flags {
          state.flags := RemoveFirst(state.flags, key);
        }
      case GrantItem(item, qty) =>
        state.inventory := state.inventory[item := CountOf(state.inventory, item) + qty];
        events := [InventoryChanged(item, qty, state.inventory[item])];
      case RemoveItem(item, qty) =>
        var newQty := CountOf(state.inventory, item) - qty;
        if newQty < 0 { newQty := 0; }
        var delta := newQty - CountOf(state.inventory, item);
        if newQty == 0 {
          state.inventory := state.inventory - {item};
        } else {
          state.inventory := state.inventory[item := newQty];
        }
        events := [InventoryChanged(item, delta, newQty)];
      case AwardXp(xp, reason) =>
        state.xpEarned := state.xpEarned + xp;
        events := [XpAwarded(xp, reason)];
      case UnlockAchievement(code) =>
        if code !in state.achievements {
          state.achievements := state.achievements + [code];
          events := [AchievementUnlocked(code)];
        }
    }
  }

  method ApplyInPlace(state: StateDocument, effects: seq<Effect>)
    returns (events: seq<Event>, failure: Option<Failure>)
    modifies state
    ensures Yields(ApplyEffects(old(state.Value()), effects), state.Value(), events, failure)
  {
    events, failure := [], None;
    ghost var start := state.Value();
    for i := 0 to |effects|
      invariant failure == None
      invariant ApplyEffects(start, effects[..i]) == Done(state.Value(), events)
    {
      assert effects[..i + 1][..i] == effects[..i];
      var emitted;
      emitted, failure := ApplyOne(state, effects[i]);
      if failure != None {
        RaisedStops(start, effects, i + 1);
        return;
      }
      events := events + emitted;
    }
    assert effects[..|effects|] == effects;
  }

  lemma {:induction false} RaisedStops(s: GameState, effects: seq<Effect>, n: nat)
    requires n <= |effects| && ApplyEffects(s, effects[..n]).Raised?
    ensures ApplyEffects(s, effects) == ApplyEffects(s, effects[..n])
    decreases |effects|
  {
    if n == |effects| {
      assert effects[..n] == effects;
    } else {
      assert effects[..|effects| - 1][..n] == effects[..n];
      RaisedStops(s, effects[..|effects| - 1], n);
    }
  }

  /** The value the last assignment to `key` writes, if there is one. */
  function LastAssigned(effects: seq<Effect>, key: string): Option<Value> {
    if effects == [] then None
    else
      var last := effects[|effects| - 1];
      if last.SetVar? && last.key == key then Some(last.value) else LastAssigned(effects[..|effects| - 1], key)
  }

  predicate HoldsString(variables: map<string, Value>, key: string) { key in variables && variables[key].Str? }

  /** An increment of `key` after these effects would find a string, read off the stored variables and the
      effect list alone. */
  predicate FindsString(variables: map<string, Value>, before: seq<Effect>, key: string) {
    match LastAssigned(before, key)
    case Some(value) => value.Str?
    case None => HoldsString(variables, key)
  }

  predicate BreaksAt(variables: map<string, Value>, effects: seq<Effect>, i: nat)
    requires i < |effects|
  {
    effects[i].IncVar? && FindsString(variables, effects[..i], effects[i].key)
  }

  /** Some increment follows an assignment of a string to its variable, or, with no assignment before it,
      finds a string stored there. */
  predicate MeetsString(variables: map<string, Value>, effects: seq<Effect>) {
    exists i: nat :: i < |effects| && BreaksAt(variables, effects, i)
  }

  /** Increments never make or unmake a string. */
  lemma OnlyAssignmentMakesStrings(s: GameState, e: Effect, key: string)
    requires ApplyEffect(s, e).Done?
    ensures HoldsString(ApplyEffect(s, e).state.variables, key) <==>
            if e.SetVar? && e.key == key then e.value.Str? else HoldsString(s.variables, key)
  {
  }

  /** So what a variable holds is a string exactly when its last assignment, or its initial value, is one. */
  lemma {:induction false} StringsAreAssigned(s: GameState, effects: seq<Effect>, key: string)
    requires ApplyEffects(s, effects).Done?
    ensures HoldsString(ApplyEffects(s, effects).state.variables, key) <==> FindsString(s.variables, effects, key)
  {
    if effects != [] {
      var front, last := effects[..|effects| - 1], effects[|effects| - 1];
      StringsAreAssigned(s, front, key);
      OnlyAssignmentMakesStrings(ApplyEffects(s, front).state, last, key);
      assert LastAssigned(effects, key) ==
             if last.SetVar? && last.key == key then Some(last.value) else LastAssigned(front, key);
    }
  }

  /** Exactly when an effect list breaks the interpreter, told from its inputs; and then it is with a
      TypeError. */
  lemma {:induction false} CrashesOnlyOnStrings(s: GameState, effects: seq<Effect>)
    ensures ApplyEffects(s, effects).Raised? <==> MeetsString(s.variables, effects)
    ensures ApplyEffects(s, effects).Raised? ==> ApplyEffects(s, effects).error == TypeError
  {
    if effects != [] {
      var n := |effects| - 1;
      var front := effects[..n];
      CrashesOnlyOnStrings(s, front);
      forall i: nat | i < n ensures BreaksAt(s.variables, front, i) <==> BreaksAt(s.variables, effects, i) {
        assert front[..i] == effects[..i];
      }
      assert MeetsString(s.variables, effects) <==>
             MeetsString(s.variables, front) || BreaksAt(s.variables, effects, n);
      if ApplyEffects(s, front).Done? && effects[n].IncVar? {
        StringsAreAssigned(s, front, effects[n].key);
      }
    }
  }

  /** Going on after a step with one effect, or with a list of them. */
  function ThenOne(step: Step, e: Effect): Step {
    match step
    case Raised(_, _) => step
    case Done(t, events) => After(events, ApplyEffect(t, e))
  }

  function ThenAll(step: Step, effects: seq<Effect>): Step {
    match step
    case Raised(_, _) => step
    case Done(t, events) => After(events, ApplyEffects(t, effects))
  }

  lemma AfterTwice(a: seq<Event>, b: seq<Event>, step: Step)
    ensures After(a, After(b, step)) == After(a + b, step)
  {
    if step.Done? { assert a + (b + step.events) == (a + b) + step.events; }
  }

  lemma EffectsSnoc(s: GameState, effects: seq<Effect>, e: Effect)
    ensures ApplyEffects(s, effects + [e]) == ThenOne(ApplyEffects(s, effects), e)
  {
    assert (effects + [e])[..|effects|] == effects;
  }

  lemma ThenAllSnoc(step: Step, effects: seq<Effect>, e: Effect)
    ensures ThenAll(step, effects + [e]) == ThenOne(ThenAll(step, effects), e)
  {
    if step.Done? {
      EffectsSnoc(step.state, effects, e);
      var middle := ApplyEffects(step.state, effects);
      if middle.Done? { AfterTwice(step.events, middle.events, ApplyEffect(middle.state, e)); }
    }
  }

  /** Two effect lists in a row. */
  lemma {:induction false} EffectsInParts(s: GameState, a: seq<Effect>, b: seq<Effect>)
    ensures ApplyEffects(s, a + b) == ThenAll(ApplyEffects(s, a), b)
  {
    if b == [] {
      assert a + b == a;
    } else {
      EffectsInParts(s, a, b[..|b| - 1]);
      PartsSnoc(s, a, b[..|b| - 1], b[|b| - 1], b);
    }
  }

  lemma PartsSnoc(s: GameState, a: seq<Effect>, front: seq<Effect>, e: Effect, b: seq<Effect>)
    requires b == front + [e] && ApplyEffects(s, a + front) == ThenAll(ApplyEffects(s, a), front)
    ensures ApplyEffects(s, a + b) == ThenAll(ApplyEffects(s, a), b)
  {
    assert a + b == (a + front) + [e];
    EffectsSnoc(s, a + front, e);
    ThenAllSnoc(ApplyEffects(s, a), front, e);
  }

  /** A list in two parts breaks in its first part, or in its second on what the first part left. */
  lemma BreaksInParts(s: GameState, a: seq<Effect>, b: seq<Effect>)
    ensures MeetsString(s.variables, a + b) <==>
            ApplyEffects(s, a).Raised? || MeetsString(ApplyEffects(s, a).state.variables, b)
  {
    EffectsInParts(s, a, b);
    CrashesOnlyOnStrings(s, a + b);
    CrashesOnlyOnStrings(s, a);
    if ApplyEffects(s, a).Done? { CrashesOnlyOnStrings(ApplyEffects(s, a).state, b); }
  }

  // ---- What a list of effects comes to ----

  /** XP the list awards. */
  function XpIn(effects: seq<Effect>): int {
    if effects == [] then 0
    else
      var last := effects[|effects| - 1];
      XpIn(effects[..|effects| - 1]) + if last.AwardXp? then last.xp else 0
  }

  /** The last word of the list on a flag, if it has one. */
  function LastFlag(effects: seq<Effect>, flag: string): Option<bool> {
    if effects == [] then None
    else
      var last := effects[|effects| - 1];
      if last.SetFlag? && last.key == flag then Some(last.present) else LastFlag(effects[..|effects| - 1], flag)
  }

  /** What the list adds to a variable since it last assigned it. */
  function AddedSince(effects: seq<Effect>, key: string): real {
    if effects == [] then 0.0
    else
      var front, last := effects[..|effects| - 1], effects[|effects| - 1];
      if last.SetVar? && last.key == key then 0.0
      else AddedSince(front, key) + if last.IncVar? && last.key == key then last.amount else 0.0
  }

  predicate Increments(effects: seq<Effect>, key: string) {
    effects != [] &&
    var front, last := effects[..|effects| - 1], effects[|effects| - 1];
    !(last.SetVar? && last.key == key) && ((last.IncVar? && last.key == key) || Increments(front, key))
  }

  /** How many of an item are held after grants and removals, a removal taking at most what is there. */
  function Stock(effects: seq<Effect>, item: string, before: int): int {
    if effects == [] then before
    else
      var held, last := Stock(effects[..|effects| - 1], item, before), effects[|effects| - 1];
      match last
      case GrantItem(granted, qty) => if granted == item then held + qty else held
      case RemoveItem(removed, qty) => if removed != item then held else if qty < held then held - qty else 0
      case _ => held
  }

  /** The value a variable has after the list. */
  predicate VariableIs(effects: seq<Effect>, before: map<string, Value>, after: map<string, Value>, key: string) {
    var base: Option<Value> := match LastAssigned(effects, key)
      case Some(value) => Some(value)
      case None => if key in before then Some(before[key]) else None;
    if !Increments(effects, key) then
      (key in after <==> base.Some?) && (base.Some? ==> after[key] == base.value)
    else
      var start := if base.Some? && base.value.Num? then base.value.n
                   else if base == Some(Bool(true)) then 1.0 else 0.0;
      key in after && after[key] == Num(start + AddedSince(effects, key))
  }

  /** One effect: the events it returns, and how XP and achievements follow. */
  lemma EffectAnnounces(s: GameState, e: Effect)
    requires ApplyEffect(s, e).Done?
    ensures var t, events := ApplyEffect(s, e).state, ApplyEffect(s, e).events;
            match e
            case GrantItem(item, qty) =>
              events == [InventoryChanged(item, qty, CountOf(t.inventory, item))] &&
              CountOf(t.inventory, item) == CountOf(s.inventory, item) + qty
            case RemoveItem(item, qty) =>
              var before, after := CountOf(s.inventory, item), CountOf(t.inventory, item);
              events == [InventoryChanged(item, after - before, after)] &&
              after == (if qty < before then before - qty else 0) && (after == 0 ==> item !in t.inventory)
            case AwardXp(xp, reason) => events == [XpAwarded(xp, reason)] && t.xpEarned == s.xpEarned + xp
            case UnlockAchievement(code) =>
              events == (if code in s.achievements then [] else [AchievementUnlocked(code)]) &&
              t.achievements == s.achievements + if code in s.achievements then [] else [code]
            case _ => events == []
  {
  }

  lemma {:induction false} RemoveFirstKeepsDistinct(s: seq<string>, x: string)
    requires Distinct(s)
    ensures Distinct(RemoveFirst(s, x))
    ensures forall y :: y in RemoveFirst(s, x) <==> y in s && y != x
  {
    if s != [] {
      var rest := s[1..];
      assert s == [s[0]] + rest;
      assert Distinct(rest) by {
        forall i, j | 0 <= i < j < |rest| ensures rest[i] != rest[j] { assert s[i + 1] != s[j + 1]; }
      }
      assert s[0] !in rest;
      if s[0] != x {
        RemoveFirstKeepsDistinct(rest, x);
      }
    }
  }

  /** What one list of effects has come to, read off the list itself. */
  ghost predicate ComesTo(s: GameState, effects: seq<Effect>, t: GameState) {
    && t.xpEarned == s.xpEarned + XpIn(effects)
    && (forall code :: code in t.achievements <==> code in s.achievements || UnlockAchievement(code) in effects)
    && (forall flag :: flag in t.flags <==> LastFlag(effects, flag).GetOr(flag in s.flags))
    && (forall item :: CountOf(t.inventory, item) == Stock(effects, item, CountOf(s.inventory, item)))
    && (forall key :: VariableIs(effects, s.variables, t.variables, key))
    && Distinct(t.flags)
  }

  lemma NoEffects(s: GameState)
    requires Distinct(s.flags)
    ensures ComesTo(s, [], s)
  {
  }

  lemma XpAndCodesStep(s: GameState, front: seq<Effect>, m: GameState, e: Effect, t: GameState, code: string)
    requires ApplyEffect(m, e).Done? && t == ApplyEffect(m, e).state
    requires m.xpEarned == s.xpEarned + XpIn(front)
    requires code in m.achievements <==> code in s.achievements || UnlockAchievement(code) in front
    ensures t.xpEarned == s.xpEarned + XpIn(front + [e])
    ensures code in t.achievements <==> code in s.achievements || UnlockAchievement(code) in front + [e]
  {
    assert (front + [e])[..|front|] == front;
  }

  lemma FlagStep(s: GameState, front: seq<Effect>, m: GameState, e: Effect, t: GameState, flag: string)
    requires ApplyEffect(m, e).Done? && t == ApplyEffect(m, e).state && Distinct(m.flags)
    requires flag in m.flags <==> LastFlag(front, flag).GetOr(flag in s.flags)
    ensures flag in t.flags <==> LastFlag(front + [e], flag).GetOr(flag in s.flags)
    ensures Distinct(t.flags)
  {
    assert (front + [e])[..|front|] == front;
    if e.SetFlag? { RemoveFirstKeepsDistinct(m.flags, e.key); }
  }

  lemma StockStep(front: seq<Effect>, m: GameState, e: Effect, t: GameState, item: string, before: int)
    requires ApplyEffect(m, e).Done? && t == ApplyEffect(m, e).state
    requires CountOf(m.inventory, item) == Stock(front, item, before)
    ensures CountOf(t.inventory, item) == Stock(front + [e], item, before)
  {
    assert (front + [e])[..|front|] == front;
  }

  lemma VariableStep(s: GameState, front: seq<Effect>, m: GameState, e: Effect, t: GameState, key: string)
    requires ApplyEffect(m, e).Done? && t == ApplyEffect(m, e).state
    requires VariableIs(front, s.variables, m.variables, key)
    ensures VariableIs(front + [e], s.variables, t.variables, key)
  {
    assert (front + [e])[..|front|] == front;
    if e.IncVar? && e.key == key {
      IncrementStep(s, front, m, e, t, key);
    }
  }

  lemma IncrementStep(s: GameState, front: seq<Effect>, m: GameState, e: Effect, t: GameState, key: string)
    requires ApplyEffect(m, e).Done? && t == ApplyEffect(m, e).state && e.IncVar? && e.key == key
    requires VariableIs(front, s.variables, m.variables, key)
    ensures VariableIs(front + [e], s.variables, t.variables, key)
  {
    assert (front + [e])[..|front|] == front;
    if !Increments(front, key) { NothingAdded(front, key); }
  }

  lemma {:induction false} NothingAdded(effects: seq<Effect>, key: string)
    requires !Increments(effects, key)
    ensures AddedSince(effects, key) == 0.0
  {
    if effects != [] {
      var last := effects[|effects| - 1];
      if !(last.SetVar? && last.key == key) { NothingAdded(effects[..|effects| - 1], key); }
    }
  }

  lemma EffectComesTo(s: GameState, front: seq<Effect>, m: GameState, e: Effect)
    requires ComesTo(s, front, m) && ApplyEffect(m, e).Done?
    ensures ComesTo(s, front + [e], ApplyEffect(m, e).state)
  {
    var t := ApplyEffect(m, e).state;
    FlagStep(s, front, m, e, t, "");
    XpAndCodesStep(s, front, m, e, t, "");
    forall code ensures code in t.achievements <==> code in s.achievements || UnlockAchievement(code) in front + [e] {
      XpAndCodesStep(s, front, m, e, t, code);
    }
    forall flag ensures flag in t.flags <==> LastFlag(front + [e], flag).GetOr(flag in s.flags) {
      FlagStep(s, front, m, e, t, flag);
    }
    forall item ensures CountOf(t.inventory, item) == Stock(front + [e], item, CountOf(s.inventory, item)) {
      StockStep(front, m, e, t, item, CountOf(s.inventory, item));
    }
    forall key ensures VariableIs(front + [e], s.variables, t.variables, key) {
      VariableStep(s, front, m, e, t, key);
    }
  }

  /** A list of effects comes to what the author wrote: the XP it awards is added up; exactly the codes it
      unlocks are gained; the last word on a flag stands; items are granted, and removed down to nothing;
      a variable has its last assigned value plus what was added since. */
  lemma {:induction false} EffectsComeTo(s: GameState, effects: seq<Effect>)
    requires Distinct(s.flags) && ApplyEffects(s, effects).Done?
    ensures ComesTo(s, effects, ApplyEffects(s, effects).state)
  {
    if effects == [] {
      NoEffects(s);
    } else {
      var front, e := effects[..|effects| - 1], effects[|effects| - 1];
      EffectsComeTo(s, front);
      EffectComesTo(s, front, ApplyEffects(s, front).state, e);
      assert effects == front + [e];
    }
  }
}
