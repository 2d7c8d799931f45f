/** Game definitions and the publish-time gate (backend/app/modules/runtime/definition.py). */
module Definition {
  import opened Wrappers
  import opened Conditions
  import opened Effects
  import Challenges

  datatype NPC = NPC(name: string, role: string)

  datatype ChoiceOption = ChoiceOption(
    id: string, text: string, condition: Option<Condition>, effects: seq<Effect>, goto: Option<string>)

  datatype Outcome = Outcome(effects: seq<Effect>, goto: Option<string>)

  datatype Element =
    | Dialogue(npc: Option<string>, text: string, condition: Option<Condition>)
    | Media(kind: string, assetId: string, caption: string, condition: Option<Condition>)
    | Choice(id: string, prompt: string, options: seq<ChoiceOption>)
    | Challenge(id: string, config: Challenges.Config, maxAttempts: int,
                onCorrect: Outcome, onIncorrect: Outcome, onExhausted: Option<Outcome>)
  {
    predicate Interactive() { Choice? || Challenge? }
  }

  datatype Ending = Ending(id: string, title: string, description: string)

  datatype Scene = Scene(
    title: string, elements: seq<Element>, onEnter: seq<Effect>, next: Option<string>, ending: Option<Ending>)

  datatype GameDefinition = GameDefinition(
    startScene: string, variables: map<string, Value>, npcs: map<string, NPC>, scenes: map<string, Scene>)

  // ---- Field constraints the schema declares ----

  predicate EffectFieldsOk(e: Effect) {
    match e
    case GrantItem(_, qty) => qty >= 1
    case RemoveItem(_, qty) => qty >= 1
    case AwardXp(xp, _) => xp >= 0
    case _ => true
  }

  predicate EffectsFieldsOk(es: seq<Effect>) {
    forall i :: 0 <= i < |es| ==> EffectFieldsOk(es[i])
  }

  predicate ConditionFieldsOk(c: Condition) {
    match c
    case ItemCondition(_, minQty) => minQty >= 1
    case AllCondition(all) => forall i :: 0 <= i < |all| ==> ConditionFieldsOk(all[i])
    case AnyCondition(any) => forall i :: 0 <= i < |any| ==> ConditionFieldsOk(any[i])
    case NotCondition(negated) => ConditionFieldsOk(negated)
    case _ => true
  }

  predicate OptionalConditionOk(c: Option<Condition>) { c.None? || ConditionFieldsOk(c.value) }

  predicate ElementFieldsOk(el: Element) {
    match el
    case Dialogue(_, _, condition) => OptionalConditionOk(condition)
    case Media(_, _, _, condition) => OptionalConditionOk(condition)
    case Choice(_, _, options) =>
      |options| >= 1 &&
      forall i :: 0 <= i < |options| ==>
        EffectsFieldsOk(options[i].effects) && OptionalConditionOk(options[i].condition)
    case Challenge(_, _, maxAttempts, onCorrect, onIncorrect, onExhausted) =>
      maxAttempts >= 1 && EffectsFieldsOk(onCorrect.effects) && EffectsFieldsOk(onIncorrect.effects) &&
      (onExhausted.Some? ==> EffectsFieldsOk(onExhausted.value.effects))
  }

  predicate SceneFieldsOk(scene: Scene) {
    EffectsFieldsOk(scene.onEnter) && forall i :: 0 <= i < |scene.elements| ==> ElementFieldsOk(scene.elements[i])
  }

  predicate FieldsOk(d: GameDefinition) {
    forall id :: id in d.scenes ==> SceneFieldsOk(d.scenes[id])
  }

  // ---- The graph rules ----

  predicate TargetOk(d: GameDefinition, target: Option<string>) {
    target.None? || target.value in d.scenes
  }

  function OptionIds(options: seq<ChoiceOption>): seq<string> {
    seq(|options|, i requires 0 <= i < |options| => options[i].id)
  }

  /** Python truthiness of an optional scene id. */
  predicate Truthy(target: Option<string>) { target.Some? && target.value != "" }

  predicate Exits(el: Element) {
    match el
    case Choice(_, _, options) => exists i :: 0 <= i < |options| && Truthy(options[i].goto)
    case Challenge(_, _, _, onCorrect, _, onExhausted) =>
      Truthy(onCorrect.goto) || (onExhausted.Some? && Truthy(onExhausted.value.goto))
    case _ => false
  }

  predicate HasExit(scene: Scene) {
    exists i :: 0 <= i < |scene.elements| && Exits(scene.elements[i])
  }

  predicate ElementOk(d: GameDefinition, el: Element) {
    match el
    case Choice(_, _, options) =>
      Distinct(OptionIds(options)) && forall i :: 0 <= i < |options| ==> TargetOk(d, options[i].goto)
    case Challenge(_, config, _, onCorrect, onIncorrect, onExhausted) =>
      Challenges.ValidConfig(config) && TargetOk(d, onCorrect.goto) && TargetOk(d, onIncorrect.goto) &&
      (onExhausted.Some? ==> TargetOk(d, onExhausted.value.goto))
    case _ => true
  }

  /** An earlier interactive element of the same scene already uses this id. */
  predicate Repeated(elements: seq<Element>, i: nat)
    requires i < |elements|
  {
    elements[i].Interactive() && exists j :: 0 <= j < i && elements[j].Interactive() && elements[j].id == elements[i].id
  }

  predicate SceneOk(d: GameDefinition, scene: Scene) {
    && TargetOk(d, scene.next)
    && (scene.next.None? && scene.ending.None? ==> HasExit(scene))
    && forall i :: 0 <= i < |scene.elements| ==> ElementOk(d, scene.elements[i]) && !Repeated(scene.elements, i)
  }

  predicate GraphOk(d: GameDefinition) {
    d.startScene in d.scenes && forall id :: id in d.scenes ==> SceneOk(d, d.scenes[id])
  }

  /** What `parse_definition` lets through. */
  predicate Accepted(d: GameDefinition) { FieldsOk(d) && GraphOk(d) }

  // ---- The validator ----

  datatype Site =
    | SceneNext | OptionGoto(choice: string, option: string) | OutcomeGoto(challenge: string, branch: string)

  datatype Problem =
    | MissingStart
    | UnknownTarget(scene: string, site: Site, target: string)
    | NoExit(scene: string)
    | DuplicateOptions(scene: string, choice: string)
    | BadConfig(scene: string, challenge: string)
    | DuplicateElement(scene: string, id: string)

  /** Where an element points from a given site. */
  ghost predicate Points(el: Element, site: Site, target: string) {
    match site
    case SceneNext => false
    case OptionGoto(choice, option) =>
      el.Choice? && el.id == choice &&
      exists i :: 0 <= i < |el.options| && el.options[i].id == option && el.options[i].goto == Some(target)
    case OutcomeGoto(challenge, branch) =>
      el.Challenge? && el.id == challenge &&
      ((branch == "on_correct" && el.onCorrect.goto == Some(target)) ||
       (branch == "on_incorrect" && el.onIncorrect.goto == Some(target)) ||
       (branch == "on_exhausted" && el.onExhausted.Some? && el.onExhausted.value.goto == Some(target)))
  }

  /** Problem `p` is due to the `i`-th element of scene `id`. */
  ghost predicate ElementProblem(d: GameDefinition, id: string, elements: seq<Element>, i: nat, p: Problem)
    requires i < |elements|
  {
    var el := elements[i];
    match p
    case UnknownTarget(scene, site, target) => scene == id && target !in d.scenes && Points(el, site, target)
    case DuplicateOptions(scene, choice) =>
      scene == id && el.Choice? && el.id == choice && !Distinct(OptionIds(el.options))
    case BadConfig(scene, challenge) =>
      scene == id && el.Challenge? && el.id == challenge && !Challenges.ValidConfig(el.config)
    case DuplicateElement(scene, elementId) => scene == id && Repeated(elements, i) && el.id == elementId
    case _ => false
  }

  /** Problem `p` is due to the scene's own fields. */
  ghost predicate SceneProblem(d: GameDefinition, id: string, scene: Scene, p: Problem) {
    match p
    case UnknownTarget(s, site, target) =>
      s == id && site == SceneNext && scene.next == Some(target) && target !in d.scenes
    case NoExit(s) => s == id && scene.next.None? && scene.ending.None? && !HasExit(scene)
    case _ => false
  }

  ghost predicate ProblemIn(d: GameDefinition, id: string, p: Problem)
    requires id in d.scenes
  {
    SceneProblem(d, id, d.scenes[id], p) ||
    exists i :: 0 <= i < |d.scenes[id].elements| && ElementProblem(d, id, d.scenes[id].elements, i, p)
  }

  ghost predicate IsProblem(d: GameDefinition, p: Problem) {
    (p.MissingStart? && d.startScene !in d.scenes) ||
    exists id :: id in d.scenes && ProblemIn(d, id, p)
  }

  function CheckTarget(d: GameDefinition, target: Option<string>, scene: string, site: Site): seq<Problem> {
    if target.Some? && target.value !in d.scenes then [UnknownTarget(scene, site, target.value)] else []
  }

  method CheckOptions(d: GameDefinition, id: string, el: Element) returns (problems: seq<Problem>)
    requires el.Choice?
    ensures forall p :: p in problems <==>
              p.UnknownTarget? && p.scene == id && p.target !in d.scenes && Points(el, p.site, p.target)
  {
    problems := [];
    for k := 0 to |el.options|
      invariant forall p :: p in problems <==>
                  p.UnknownTarget? && p.scene == id && p.target !in d.scenes && p.site.OptionGoto? &&
                  p.site.choice == el.id &&
                  exists i :: 0 <= i < k && el.options[i].id == p.site.option && el.options[i].goto == Some(p.target)
    {
      var option := el.options[k];
      problems := problems + CheckTarget(d, option.goto, id, OptionGoto(el.id, option.id));
    }
  }

  method CheckOutcomes(d: GameDefinition, id: string, el: Element) returns (problems: seq<Problem>)
    requires el.Challenge?
    ensures forall p :: p in problems <==>
              p.UnknownTarget? && p.scene == id && p.target !in d.scenes && Points(el, p.site, p.target)
  {
    problems := CheckTarget(d, el.onCorrect.goto, id, OutcomeGoto(el.id, "on_correct"));
    problems := problems + CheckTarget(d, el.onIncorrect.goto, id, OutcomeGoto(el.id, "on_incorrect"));
    if el.onExhausted.Some? {
      problems := problems + CheckTarget(d, el.onExhausted.value.goto, id, OutcomeGoto(el.id, "on_exhausted"));
    }
  }

  method CheckElement(d: GameDefinition, id: string, elements: seq<Element>, i: nat, elementIds: set<string>)
    returns (problems: seq<Problem>)
    requires i < |elements|
    requires forall x :: x in elementIds <==> exists j :: 0 <= j < i && elements[j].Interactive() && elements[j].id == x
    ensures forall p :: p in problems <==> ElementProblem(d, id, elements, i, p)
  {
    var el := elements[i];
    problems := [];
    if el.Choice? {
      problems := CheckOptions(d, id, el);
      CardinalityDecidesDistinct(OptionIds(el.options));
      if |ToSet(OptionIds(el.options))| != |el.options| {
        problems := problems + [DuplicateOptions(id, el.id)];
      }
    }
    if el.Challenge? {
      problems := CheckOutcomes(d, id, el);
      if !Challenges.ValidConfig(el.config) {
        problems := problems + [BadConfig(id, el.id)];
      }
    }
    if el.Interactive() && el.id in elementIds {
      problems := problems + [DuplicateElement(id, el.id)];
    }
  }

  method CheckScene(d: GameDefinition, id: string) returns (problems: seq<Problem>)
    requires id in d.scenes
    ensures forall p :: p in problems <==> ProblemIn(d, id, p)
  {
    var scene := d.scenes[id];
    problems := CheckTarget(d, scene.next, id, SceneNext);
    if scene.next.None? && scene.ending.None? {
      if !HasExit(scene) {
        problems := problems + [NoExit(id)];
      }
    }
    var elementIds: set<string> := {};
    for i := 0 to |scene.elements|
      invariant forall x :: x in elementIds <==>
                  exists j :: 0 <= j < i && scene.elements[j].Interactive() && scene.elements[j].id == x
      invariant forall p :: p in problems <==>
                  SceneProblem(d, id, scene, p) || exists j :: 0 <= j < i && ElementProblem(d, id, scene.elements, j, p)
    {
      var found := CheckElement(d, id, scene.elements, i, elementIds);
      problems := problems + found;
      if scene.elements[i].Interactive() {
        elementIds := elementIds + {scene.elements[i].id};
      }
    }
  }

  /** The validator reports every problem and nothing else. */
  method ValidateGraph(d: GameDefinition) returns (problems: seq<Problem>)
    ensures forall p :: p in problems <==> IsProblem(d, p)
  {
    problems := if d.startScene in d.scenes then [] else [MissingStart];
    var todo := d.scenes.Keys;
    while todo != {}
      invariant todo <= d.scenes.Keys
      invariant forall p :: p in problems <==>
                  (p.MissingStart? && d.startScene !in d.scenes) ||
                  exists id :: id in d.scenes && id !in todo && ProblemIn(d, id, p)
      decreases todo
    {
      var id :| id in todo;
      var found := CheckScene(d, id);
      todo := todo - {id};
      problems := problems + found;
    }
  }

  lemma SceneProblemFree(d: GameDefinition, id: string)
    requires id in d.scenes
    ensures SceneOk(d, d.scenes[id]) <==> forall p :: !ProblemIn(d, id, p)
  {
    var scene := d.scenes[id];
    if SceneOk(d, scene) {
      forall p ensures !ProblemIn(d, id, p) {
        forall i | 0 <= i < |scene.elements| ensures !ElementProblem(d, id, scene.elements, i, p) {
          ElementProblemFree(d, id, scene.elements, i);
        }
      }
    } else if !TargetOk(d, scene.next) {
      assert ProblemIn(d, id, UnknownTarget(id, SceneNext, scene.next.value));
    } else if scene.next.None? && scene.ending.None? && !HasExit(scene) {
      assert ProblemIn(d, id, NoExit(id));
    } else {
      var i :| 0 <= i < |scene.elements| && !(ElementOk(d, scene.elements[i]) && !Repeated(scene.elements, i));
      ElementProblemFree(d, id, scene.elements, i);
      var p :| ElementProblem(d, id, scene.elements, i, p);
      assert ProblemIn(d, id, p);
    }
  }

  lemma ElementProblemFree(d: GameDefinition, id: string, elements: seq<Element>, i: nat)
    requires i < |elements|
    ensures ElementOk(d, elements[i]) && !Repeated(elements, i) <==>
            forall p :: !ElementProblem(d, id, elements, i, p)
  {
    var el := elements[i];
    if Repeated(elements, i) {
      assert ElementProblem(d, id, elements, i, DuplicateElement(id, el.id));
    } else if !ElementOk(d, el) {
      if el.Choice? {
        if !Distinct(OptionIds(el.options)) {
          assert ElementProblem(d, id, elements, i, DuplicateOptions(id, el.id));
        } else {
          var k :| 0 <= k < |el.options| && !TargetOk(d, el.options[k].goto);
          assert Points(el, OptionGoto(el.id, el.options[k].id), el.options[k].goto.value);
          assert ElementProblem(d, id, elements, i,
                                UnknownTarget(id, OptionGoto(el.id, el.options[k].id), el.options[k].goto.value));
        }
      } else if !Challenges.ValidConfig(el.config) {
        assert ElementProblem(d, id, elements, i, BadConfig(id, el.id));
      } else {
        var (branch, goto) :=
          if !TargetOk(d, el.onCorrect.goto) then ("on_correct", el.onCorrect.goto)
          else if !TargetOk(d, el.onIncorrect.goto) then ("on_incorrect", el.onIncorrect.goto)
          else ("on_exhausted", el.onExhausted.value.goto);
        assert Points(el, OutcomeGoto(el.id, branch), goto.value);
        assert ElementProblem(d, id, elements, i, UnknownTarget(id, OutcomeGoto(el.id, branch), goto.value));
      }
    }
  }

  /** The gate: a definition parses exactly when its fields are in range and no graph problem exists. */
  lemma GraphOkIffProblemFree(d: GameDefinition)
    ensures GraphOk(d) <==> forall p :: !IsProblem(d, p)
  {
    forall id | id in d.scenes
      ensures SceneOk(d, d.scenes[id]) <==> forall p :: !ProblemIn(d, id, p)
    {
      SceneProblemFree(d, id);
    }
    if forall p :: !IsProblem(d, p) {
      assert !IsProblem(d, MissingStart);
      forall id | id in d.scenes ensures SceneOk(d, d.scenes[id]) {
        forall p ensures !ProblemIn(d, id, p) {
          assert !IsProblem(d, p);
        }
      }
    }
  }

  method ParseDefinition(d: GameDefinition) returns (ok: bool)
    ensures ok <==> Accepted(d)
  {
    var problems := ValidateGraph(d);
    GraphOkIffProblemFree(d);
    if problems != [] {
      assert problems[0] in problems;
    }
    ok := FieldsOk(d) && problems == [];
  }

  // ---- What the fields may hold ----

  /** The effects an author can attach to an element. */
  ghost predicate Attached(el: Element, e: Effect) {
    (el.Choice? && exists i :: 0 <= i < |el.options| && e in el.options[i].effects) ||
    (el.Challenge? && (e in el.onCorrect.effects || e in el.onIncorrect.effects ||
                       (el.onExhausted.Some? && e in el.onExhausted.value.effects)))
  }

  /** The conditions an author can attach to an element. */
  ghost predicate Gates(el: Element, c: Condition) {
    ((el.Dialogue? || el.Media?) && el.condition == Some(c)) ||
    (el.Choice? && exists i :: 0 <= i < |el.options| && el.options[i].condition == Some(c))
  }

  /** A quantity below one, or XP taken away. */
  predicate OutOfRange(e: Effect) {
    (e.GrantItem? && e.qty < 1) || (e.RemoveItem? && e.qty < 1) || (e.AwardXp? && e.xp < 0)
  }

  /** `part` is the condition or occurs in it. */
  ghost predicate OccursIn(part: Condition, c: Condition) {
    part == c ||
    match c
    case AllCondition(all) => exists i :: 0 <= i < |all| && OccursIn(part, all[i])
    case AnyCondition(any) => exists i :: 0 <= i < |any| && OccursIn(part, any[i])
    case NotCondition(negated) => OccursIn(part, negated)
    case _ => false
  }

  predicate Vacuous(c: Condition) { c.ItemCondition? && c.minQty < 1 }

  lemma {:induction false} ConditionFieldsExactly(c: Condition)
    ensures ConditionFieldsOk(c) <==> forall part :: OccursIn(part, c) ==> !Vacuous(part)
    decreases c
  {
    match c
    case AllCondition(all) => PartsFieldsExactly(all, c);
    case AnyCondition(any) => PartsFieldsExactly(any, c);
    case NotCondition(negated) => ConditionFieldsExactly(negated);
    case _ => assert OccursIn(c, c);
  }

  lemma {:induction false} PartsFieldsExactly(parts: seq<Condition>, c: Condition)
    requires c == AllCondition(parts) || c == AnyCondition(parts)
    ensures (forall i :: 0 <= i < |parts| ==> ConditionFieldsOk(parts[i])) <==>
            forall part :: OccursIn(part, c) ==> !Vacuous(part)
    decreases c, 0
  {
    forall i | 0 <= i < |parts|
      ensures ConditionFieldsOk(parts[i]) <==> forall part :: OccursIn(part, parts[i]) ==> !Vacuous(part)
    {
      ConditionFieldsExactly(parts[i]);
    }
  }

  /** Every effect, condition, option list and attempt limit of an element is in range. */
  ghost predicate InRange(el: Element) {
    && (forall e :: Attached(el, e) ==> !OutOfRange(e))
    && (forall c, part :: Gates(el, c) && OccursIn(part, c) ==> !Vacuous(part))
    && (el.Choice? ==> |el.options| >= 1)
    && (el.Challenge? ==> el.maxAttempts >= 1)
  }

  lemma EffectsFieldsExactly(es: seq<Effect>)
    ensures EffectsFieldsOk(es) <==> forall e :: e in es ==> !OutOfRange(e)
  {
    if EffectsFieldsOk(es) {
      forall e | e in es ensures !OutOfRange(e) {
        var i :| 0 <= i < |es| && es[i] == e;
        assert EffectFieldsOk(es[i]);
      }
    } else {
      var i :| 0 <= i < |es| && !EffectFieldsOk(es[i]);
      assert es[i] in es && OutOfRange(es[i]);
    }
  }

  lemma LineFieldsExactly(el: Element)
    requires el.Dialogue? || el.Media?
    ensures ElementFieldsOk(el) <==> InRange(el)
  {
    if el.condition.Some? {
      ConditionFieldsExactly(el.condition.value);
      assert Gates(el, el.condition.value);
    }
  }

  lemma ChoiceFieldsExactly(el: Element)
    requires el.Choice?
    ensures ElementFieldsOk(el) <==> InRange(el)
  {
    forall i | 0 <= i < |el.options|
      ensures EffectsFieldsOk(el.options[i].effects) <==> forall e :: e in el.options[i].effects ==> !OutOfRange(e)
      ensures OptionalConditionOk(el.options[i].condition) <==>
              forall c, part :: el.options[i].condition == Some(c) && OccursIn(part, c) ==> !Vacuous(part)
    {
      EffectsFieldsExactly(el.options[i].effects);
      if el.options[i].condition.Some? { ConditionFieldsExactly(el.options[i].condition.value); }
    }
    if ElementFieldsOk(el) {
      forall e | Attached(el, e) ensures !OutOfRange(e) {
        var i :| 0 <= i < |el.options| && e in el.options[i].effects;
      }
      forall c, part | Gates(el, c) && OccursIn(part, c) ensures !Vacuous(part) {
        var i :| 0 <= i < |el.options| && el.options[i].condition == Some(c);
      }
    }
    if InRange(el) {
      forall i | 0 <= i < |el.options|
        ensures EffectsFieldsOk(el.options[i].effects) && OptionalConditionOk(el.options[i].condition)
      {
        assert forall e :: e in el.options[i].effects ==> Attached(el, e);
        assert forall c :: el.options[i].condition == Some(c) ==> Gates(el, c);
      }
    }
  }

  lemma ChallengeFieldsExactly(el: Element)
    requires el.Challenge?
    ensures ElementFieldsOk(el) <==> InRange(el)
  {
    EffectsFieldsExactly(el.onCorrect.effects);
    EffectsFieldsExactly(el.onIncorrect.effects);
    if el.onExhausted.Some? { EffectsFieldsExactly(el.onExhausted.value.effects); }
    assert forall e :: e in el.onCorrect.effects || e in el.onIncorrect.effects ==> Attached(el, e);
    assert forall e :: el.onExhausted.Some? && e in el.onExhausted.value.effects ==> Attached(el, e);
  }

  /** The fields of a definition are in range exactly when every entry effect and every element is. */
  lemma FieldsExactly(d: GameDefinition)
    ensures FieldsOk(d) <==>
            forall id :: id in d.scenes ==>
              (forall e :: e in d.scenes[id].onEnter ==> !OutOfRange(e)) &&
              forall i :: 0 <= i < |d.scenes[id].elements| ==> InRange(d.scenes[id].elements[i])
  {
    forall id | id in d.scenes
      ensures SceneFieldsOk(d.scenes[id]) <==>
              (forall e :: e in d.scenes[id].onEnter ==> !OutOfRange(e)) &&
              forall i :: 0 <= i < |d.scenes[id].elements| ==> InRange(d.scenes[id].elements[i])
    {
      EffectsFieldsExactly(d.scenes[id].onEnter);
      forall i | 0 <= i < |d.scenes[id].elements|
        ensures ElementFieldsOk(d.scenes[id].elements[i]) <==> InRange(d.scenes[id].elements[i])
      {
        var el := d.scenes[id].elements[i];
        match el {
          case Choice(_, _, _) => ChoiceFieldsExactly(el);
          case Challenge(_, _, _, _, _, _) => ChallengeFieldsExactly(el);
          case _ => LineFieldsExactly(el);
        }
      }
    }
  }

  /** A scene has a way out exactly when some element points, other than by a wrong answer, at a non-empty
      target; an element is repeated exactly when an earlier interactive one bears its id. */
  lemma RulesSpelledOut(scene: Scene, j: nat)
    requires j < |scene.elements|
    ensures HasExit(scene) <==>
            exists i, site, target ::
              0 <= i < |scene.elements| && Points(scene.elements[i], site, target) && target != "" &&
              (site.OutcomeGoto? ==> site.branch != "on_incorrect")
    ensures Repeated(scene.elements, j) <==>
            (scene.elements[j].Choice? || scene.elements[j].Challenge?) &&
            exists i :: 0 <= i < j && (scene.elements[i].Choice? || scene.elements[i].Challenge?) &&
                        scene.elements[i].id == scene.elements[j].id
  {
    forall i | 0 <= i < |scene.elements|
      ensures Exits(scene.elements[i]) <==>
              exists site, target ::
                Points(scene.elements[i], site, target) && target != "" &&
                (site.OutcomeGoto? ==> site.branch != "on_incorrect")
    {
      ExitPoints(scene.elements[i]);
    }
  }

  lemma ExitPoints(el: Element)
    ensures Exits(el) <==>
            exists site, target ::
              Points(el, site, target) && target != "" && (site.OutcomeGoto? ==> site.branch != "on_incorrect")
  {
    if Exits(el) {
      if el.Choice? {
        var k :| 0 <= k < |el.options| && Truthy(el.options[k].goto);
        assert Points(el, OptionGoto(el.id, el.options[k].id), el.options[k].goto.value);
      } else if Truthy(el.onCorrect.goto) {
        assert Points(el, OutcomeGoto(el.id, "on_correct"), el.onCorrect.goto.value);
      } else {
        assert Points(el, OutcomeGoto(el.id, "on_exhausted"), el.onExhausted.value.goto.value);
      }
    }
  }
}
