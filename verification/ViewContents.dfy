/** What the player sees, in terms of the scene and nothing else
    (backend/app/modules/runtime/engine.py). */
module ViewContents {
  import opened Wrappers
  import opened Conditions
  import opened Effects
  import opened Definition
  import opened Engine
  import opened EngineSafety
  import opened MoveLaws
  import Challenges

  /** A line or an image whose condition, if it has one, holds. */
  predicate Visible(el: Element, facts: PlayerFacts) {
    (el.Dialogue? && (el.condition.None? || Evaluate(el.condition.value, facts))) ||
    (el.Media? && (el.condition.None? || Evaluate(el.condition.value, facts)))
  }

  /** `x` presents element `el`: its text and the speaker the definition knows, or its image. */
  predicate Presents(d: GameDefinition, el: Element, x: Passive) {
    match x
    case PassiveDialogue(npc, text) =>
      el.Dialogue? && text == el.text &&
      (match npc
       case Some((id, speaker)) => el.npc == Some(id) && id != "" && id in d.npcs && speaker == d.npcs[id]
       case None => el.npc.None? || el.npc.value == "" || el.npc.value !in d.npcs)
    case PassiveMedia(kind, assetId, caption) =>
      el.Media? && kind == el.kind && assetId == el.assetId && caption == el.caption
  }

  predicate Increasing(js: seq<nat>) { forall i, j :: 0 <= i < j < |js| ==> js[i] < js[j] }

  /** `passives` presents exactly the visible elements from `i` up to `stop`, one each, in order; `js` are
      their positions. */
  ghost predicate PresentsAll(
      d: GameDefinition, facts: PlayerFacts, elements: seq<Element>, i: nat, stop: nat, passives: seq<Passive>,
      js: seq<nat>)
    requires stop <= |elements|
  {
    && Increasing(js) && |js| == |passives|
    && (forall j: nat :: j in js <==> i <= j < stop && Visible(elements[j], facts))
    && forall k :: 0 <= k < |js| ==> js[k] < stop && Presents(d, elements[js[k]], passives[k])
  }

  /** The positions from `i` on that are kept. */
  function Kept(keep: seq<bool>, i: nat): seq<nat>
    decreases |keep| - i
  {
    if i >= |keep| then [] else (if keep[i] then [i] else []) + Kept(keep, i + 1)
  }

  lemma {:induction false} KeptMembers(keep: seq<bool>, i: nat, j: nat)
    ensures j in Kept(keep, i) <==> i <= j < |keep| && keep[j]
    decreases |keep| - i
  {
    if i < |keep| { KeptMembers(keep, i + 1, j); }
  }

  lemma {:induction false} KeptIncreases(keep: seq<bool>, i: nat)
    ensures Increasing(Kept(keep, i))
    ensures forall k :: 0 <= k < |Kept(keep, i)| ==> i <= Kept(keep, i)[k] < |keep|
    decreases |keep| - i
  {
    if i < |keep| { KeptIncreases(keep, i + 1); }
  }

  lemma ShownPresents(d: GameDefinition, facts: PlayerFacts, el: Element)
    ensures !Visible(el, facts) ==> Shown(d, facts, el) == []
    ensures Visible(el, facts) ==> |Shown(d, facts, el)| == 1 && Presents(d, el, Shown(d, facts, el)[0])
  {
  }

  function VisibleAt(elements: seq<Element>, facts: PlayerFacts, stop: nat): seq<bool>
    requires stop <= |elements|
  {
    seq(stop, j requires 0 <= j < stop => Visible(elements[j], facts))
  }

  /** Line by line, `passives` presents the elements at `js`. */
  ghost predicate Aligned(d: GameDefinition, elements: seq<Element>, passives: seq<Passive>, js: seq<nat>) {
    |js| == |passives| && forall k :: 0 <= k < |js| ==> js[k] < |elements| && Presents(d, elements[js[k]], passives[k])
  }

  lemma AlignedFront(d: GameDefinition, elements: seq<Element>, head: seq<Passive>, hs: seq<nat>, tail: seq<Passive>,
                     ts: seq<nat>)
    requires Aligned(d, elements, head, hs) && Aligned(d, elements, tail, ts)
    ensures Aligned(d, elements, head + tail, hs + ts)
  {
  }

  lemma {:induction false} PassivesAlign(
      d: GameDefinition, facts: PlayerFacts, elements: seq<Element>, i: nat, stop: nat)
    requires i <= stop <= |elements| && (forall j :: i <= j < stop ==> !elements[j].Interactive())
    requires stop < |elements| ==> elements[stop].Interactive()
    ensures Aligned(d, elements, Passives(d, facts, elements, i), Kept(VisibleAt(elements, facts, stop), i))
    decreases stop - i
  {
    if i < stop {
      PassivesAlign(d, facts, elements, i + 1, stop);
      ShownPresents(d, facts, elements[i]);
      var keep := VisibleAt(elements, facts, stop);
      AlignedFront(d, elements, Shown(d, facts, elements[i]), if keep[i] then [i] else [],
                   Passives(d, facts, elements, i + 1), Kept(keep, i + 1));
    }
  }

  lemma PassivesPresent(d: GameDefinition, facts: PlayerFacts, elements: seq<Element>, i: nat, stop: nat)
    returns (js: seq<nat>)
    requires i <= stop <= |elements| && (forall j :: i <= j < stop ==> !elements[j].Interactive())
    requires stop < |elements| ==> elements[stop].Interactive()
    ensures PresentsAll(d, facts, elements, i, stop, Passives(d, facts, elements, i), js)
  {
    var keep := VisibleAt(elements, facts, stop);
    js := Kept(keep, i);
    PassivesAlign(d, facts, elements, i, stop);
    KeptIncreases(keep, i);
    forall j: nat ensures j in js <==> i <= j < stop && Visible(elements[j], facts) {
      KeptMembers(keep, i, j);
    }
  }

  /** `listed` names exactly the options whose condition holds, one each, in order; `ks` are their positions. */
  ghost predicate ListsAll(
      options: seq<ChoiceOption>, facts: PlayerFacts, listed: seq<(string, string)>, ks: seq<nat>)
  {
    && Increasing(ks) && |ks| == |listed|
    && (forall k: nat :: k in ks <==>
          k < |options| && (options[k].condition.None? || Evaluate(options[k].condition.value, facts)))
    && forall n :: 0 <= n < |ks| ==>
         ks[n] < |options| && listed[n].0 == options[ks[n]].id && listed[n].1 == options[ks[n]].text
  }

  function OpenAt(options: seq<ChoiceOption>, facts: PlayerFacts): seq<bool> {
    seq(|options|, k requires 0 <= k < |options| => Holds(options[k].condition, facts))
  }

  ghost predicate Named(options: seq<ChoiceOption>, listed: seq<(string, string)>, ks: seq<nat>) {
    |ks| == |listed| &&
    forall n :: 0 <= n < |ks| ==>
      ks[n] < |options| && listed[n].0 == options[ks[n]].id && listed[n].1 == options[ks[n]].text
  }

  lemma NamedFront(options: seq<ChoiceOption>, head: seq<(string, string)>, hs: seq<nat>, tail: seq<(string, string)>,
                   ts: seq<nat>)
    requires Named(options, head, hs) && Named(options, tail, ts)
    ensures Named(options, head + tail, hs + ts)
  {
  }

  lemma {:induction false} OptionsNamed(options: seq<ChoiceOption>, facts: PlayerFacts, i: nat)
    requires i <= |options|
    ensures Named(options, VisibleOptions(options[i..], facts), Kept(OpenAt(options, facts), i))
    decreases |options| - i
  {
    if i < |options| {
      OptionsNamed(options, facts, i + 1);
      assert options[i..][1..] == options[i + 1..];
      var keep, option := OpenAt(options, facts), options[i];
      NamedFront(options, if keep[i] then [(option.id, option.text)] else [], if keep[i] then [i] else [],
                 VisibleOptions(options[i + 1..], facts), Kept(keep, i + 1));
    }
  }

  lemma OptionsListed(options: seq<ChoiceOption>, facts: PlayerFacts) returns (ks: seq<nat>)
    ensures ListsAll(options, facts, VisibleOptions(options, facts), ks)
  {
    var keep := OpenAt(options, facts);
    ks := Kept(keep, 0);
    OptionsNamed(options, facts, 0);
    assert options[0..] == options;
    KeptIncreases(keep, 0);
    forall k: nat
      ensures k in ks <==>
              k < |options| && (options[k].condition.None? || Evaluate(options[k].condition.value, facts))
    {
      KeptMembers(keep, 0, k);
    }
  }

  /** Facing element `p`, the player sees every visible line and image from the position up to it, one each
      and in order, and the element itself: a choice with its prompt and its open options, or a challenge
      with its public config and the attempts left. The scene cannot be left. */
  lemma FacingView(d: GameDefinition, s: GameState, p: nat) returns (js: seq<nat>, ks: seq<nat>)
    requires Accepted(d) && StateInv(d, s) && FacingElement(d, s, p)
    ensures var elements := d.scenes[s.sceneId].elements;
            var el := elements[p];
            ViewOf(d, s).Seen? &&
            var view := ViewOf(d, s).view;
            && PresentsAll(d, s.Facts(), elements, s.elementIndex, p, view.passives, js)
            && !view.canAdvance && view.ending.None?
            && (match view.interactive
                case None => false
                case Some(PendingChoice(id, prompt, options)) =>
                  el.Choice? && id == el.id && prompt == el.prompt && ListsAll(el.options, s.Facts(), options, ks)
                case Some(PendingChallenge(id, config, left)) =>
                  el.Challenge? && id == el.id && Challenges.Project(el.config) == Some(config) &&
                  left == el.maxAttempts - CountOf(s.attempts, el.id))
  {
    var elements := d.scenes[s.sceneId].elements;
    FacingIsPending(d, s, p);
    ViewAlwaysSeen(d, s);
    js := PassivesPresent(d, s.Facts(), elements, s.elementIndex, p);
    ks := [];
    if elements[p].Choice? { ks := OptionsListed(elements[p].options, s.Facts()); }
  }

  /** Past the last element the player sees the visible rest of the scene and may advance. */
  lemma PastView(d: GameDefinition, s: GameState) returns (js: seq<nat>)
    requires StateInv(d, s) && PastElements(d, s)
    ensures var elements := d.scenes[s.sceneId].elements;
            ViewOf(d, s).Seen? &&
            var view := ViewOf(d, s).view;
            && PresentsAll(d, s.Facts(), elements, s.elementIndex, |elements|, view.passives, js)
            && view.canAdvance && view.interactive.None? && view.ending.None?
  {
    PastIsDone(d, s);
    js := PassivesPresent(d, s.Facts(), d.scenes[s.sceneId].elements, s.elementIndex, |d.scenes[s.sceneId].elements|);
  }

  /** A completed game shows its ending and nothing else. */
  lemma CompletedView(d: GameDefinition, s: GameState)
    requires StateInv(d, s) && s.status == Completed
    ensures d.scenes[s.sceneId].ending.Some?
    ensures ViewOf(d, s) == Seen(View([], None, false, Some(FullEnding(d.scenes[s.sceneId].ending.value))))
  {
  }
}
