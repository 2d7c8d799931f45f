/** The built-in challenge types: config checks, public projection and evaluation
    (backend/app/modules/runtime/challenges/builtin.py). */
module Challenges {
  import opened Wrappers

  /** An option, item or category the player sees: an identifier and its text. */
  datatype Label = Label(id: string, text: string)

  /** `category` is the answer key of a matching item. */
  datatype MatchingItem = MatchingItem(id: string, text: string, category: string)

  datatype Config =
    | Quiz(question: string, options: seq<Label>, correct: seq<string>, explanation: string)
    | Ordering(prompt: string, items: seq<Label>, correctOrder: seq<string>)
    | TextInput(prompt: string, answers: seq<string>, caseSensitive: bool)
    | Matching(prompt: string, categories: seq<Label>, entries: seq<MatchingItem>)
    | Unregistered(typeName: string)

  datatype PublicConfig =
    | PublicQuiz(question: string, options: seq<Label>, multiSelect: bool)
    | PublicOrdering(prompt: string, items: seq<Label>)
    | PublicTextInput(prompt: string)
    | PublicMatching(prompt: string, categories: seq<Label>, items: seq<Label>)

  /** The keys a response may carry; an absent key reads as its default. */
  datatype Response = Response(
    selected: Option<seq<string>>,
    order: Option<seq<string>>,
    text: Option<string>,
    placements: Option<map<string, string>>)

  datatype Verdict = Verdict(correct: bool, score: real)

  function Ids(labels: seq<Label>): seq<string> {
    seq(|labels|, i requires 0 <= i < |labels| => labels[i].id)
  }

  function ItemIds(entries: seq<MatchingItem>): seq<string> {
    seq(|entries|, i requires 0 <= i < |entries| => entries[i].id)
  }

  /** The checks of `validate_config`; an unregistered type is refused by the registry. */
  predicate ValidConfig(c: Config) {
    match c
    case Quiz(_, options, correct, _) =>
      |options| >= 2 && |correct| >= 1 && (forall x :: x in correct ==> x in Ids(options)) && Distinct(Ids(options))
    case Ordering(_, items, correctOrder) =>
      |items| >= 2 && multiset(correctOrder) == multiset(Ids(items))
    case TextInput(_, answers, _) => |answers| >= 1
    case Matching(_, categories, entries) =>
      |categories| >= 2 && |entries| >= 2 && Distinct(Ids(categories)) && Distinct(ItemIds(entries)) &&
      forall i :: 0 <= i < |entries| ==> entries[i].category in Ids(categories)
    case Unregistered(_) => false
  }

  /** What the client may see; None is the validation error on a malformed config. */
  function Project(c: Config): Option<PublicConfig> {
    if !ValidConfig(c) then None
    else match c
      case Quiz(question, options, correct, _) => Some(PublicQuiz(question, options, |correct| > 1))
      case Ordering(prompt, items, _) => Some(PublicOrdering(prompt, items))
      case TextInput(prompt, _, _) => Some(PublicTextInput(prompt))
      case Matching(prompt, categories, entries) =>
        Some(PublicMatching(prompt, categories,
                            seq(|entries|, i requires 0 <= i < |entries| => Label(entries[i].id, entries[i].text))))
  }

  /** How the runtime strips and lowers text, character tables included. */
  datatype TextRules = TextRules(strip: string -> string, lower: string -> string)

  // ASCII stand-ins for Python's str.strip and str.lower.

  predicate IsSpace(c: char) { c == ' ' || ('\t' <= c <= '\r') || ('\U{1c}' <= c <= '\U{1f}') }

  function StripLeft(s: string): string {
    if s != [] && IsSpace(s[0]) then StripLeft(s[1..]) else s
  }

  function StripRight(s: string): string {
    if s != [] && IsSpace(s[|s| - 1]) then StripRight(s[..|s| - 1]) else s
  }

  function Strip(s: string): string { StripRight(StripLeft(s)) }

  function LowerChar(c: char): char {
    if 'A' <= c <= 'Z' then (c as int + 32) as char else c
  }

  function Lower(s: string): string {
    seq(|s|, i requires 0 <= i < |s| => LowerChar(s[i]))
  }

  const ASCII := TextRules(Strip, Lower)

  /** Positions at which the two orders agree. */
  function InPlace(got: seq<string>, want: seq<string>): nat
    requires |got| == |want|
  {
    if got == [] then 0
    else (if got[0] == want[0] then 1 else 0) + InPlace(got[1..], want[1..])
  }

  /** Items put in the category their answer key names. */
  function WellPlaced(entries: seq<MatchingItem>, placements: map<string, string>): nat {
    if entries == [] then 0
    else (if entries[0].id in placements && placements[entries[0].id] == entries[0].category then 1 else 0)
         + WellPlaced(entries[1..], placements)
  }

  /** `evaluate` of each type; None is the validation error on a malformed config. */
  function Grade(rules: TextRules, c: Config, r: Response): Option<Verdict> {
    if !ValidConfig(c) then None
    else match c
      case Quiz(_, _, correct, _) =>
        var ok := ToSet(r.selected.GetOr([])) == ToSet(correct);
        Some(Verdict(ok, if ok then 1.0 else 0.0))
      case Ordering(_, items, correctOrder) =>
        var order := r.order.GetOr([]);
        assert |correctOrder| == |multiset(correctOrder)| == |multiset(Ids(items))| == |Ids(items)|;
        if |order| != |correctOrder| then Some(Verdict(false, 0.0))
        else
          var score := InPlace(order, correctOrder) as real / |correctOrder| as real;
          Some(Verdict(score == 1.0, score))
      case TextInput(_, answers, caseSensitive) =>
        var text := rules.strip(r.text.GetOr(""));
        var ok := if caseSensitive then text in answers
                  else exists i :: 0 <= i < |answers| && rules.lower(answers[i]) == rules.lower(text);
        Some(Verdict(ok, if ok then 1.0 else 0.0))
      case Matching(_, _, entries) =>
        var score := WellPlaced(entries, r.placements.GetOr(map[])) as real / |entries| as real;
        Some(Verdict(score == 1.0, score))
  }

  /** The grading the interpreter of this model calls. */
  function Evaluate(c: Config, r: Response): Option<Verdict> { Grade(ASCII, c, r) }

  lemma {:induction false} InPlaceBound(got: seq<string>, want: seq<string>)
    requires |got| == |want|
    ensures InPlace(got, want) <= |want|
    ensures InPlace(got, want) == |want| <==> got == want
  {
    if got != [] {
      InPlaceBound(got[1..], want[1..]);
      assert got == [got[0]] + got[1..] && want == [want[0]] + want[1..];
    }
  }

  /** Every item stands where the answer key says. */
  predicate AllPlaced(entries: seq<MatchingItem>, placements: map<string, string>) {
    forall i :: 0 <= i < |entries| ==> entries[i].id in placements && placements[entries[i].id] == entries[i].category
  }

  lemma {:induction false} WellPlacedBound(entries: seq<MatchingItem>, placements: map<string, string>)
    ensures WellPlaced(entries, placements) <= |entries|
    ensures WellPlaced(entries, placements) == |entries| <==> AllPlaced(entries, placements)
  {
    if entries != [] {
      var rest := entries[1..];
      WellPlacedBound(rest, placements);
      assert forall i :: 0 <= i < |rest| ==> rest[i] == entries[i + 1];
      assert AllPlaced(entries, placements) ==> AllPlaced(rest, placements);
      if AllPlaced(rest, placements) && entries[0].id in placements &&
          placements[entries[0].id] == entries[0].category {
        forall i | 0 <= i < |entries|
          ensures entries[i].id in placements && placements[entries[i].id] == entries[i].category
        {
          if i > 0 { assert rest[i - 1] == entries[i]; }
        }
      }
    }
  }

  lemma ScalingKeepsOrder(a: real, b: real, m: real)
    requires m > 0.0
    ensures a < b <==> a * m < b * m
  {
    assert b * m - a * m == (b - a) * m;
  }

  lemma RatioIsOne(k: nat, n: nat)
    requires 0 < n && k <= n
    ensures 0.0 <= k as real / n as real <= 1.0
    ensures k as real / n as real == 1.0 <==> k == n
  {
    var q, m := k as real / n as real, n as real;
    assert q * m == k as real;
    ScalingKeepsOrder(q, 0.0, m);
    ScalingKeepsOrder(1.0, q, m);
    ScalingKeepsOrder(q, 1.0, m);
  }

  /** The response gives exactly the answer key. */
  ghost predicate Solves(rules: TextRules, c: Config, r: Response) {
    match c
    case Quiz(_, _, correct, _) => forall x :: x in r.selected.GetOr([]) <==> x in correct
    case Ordering(_, _, correctOrder) => r.order.GetOr([]) == correctOrder
    case TextInput(_, answers, caseSensitive) =>
      exists a :: a in answers &&
        (if caseSensitive then a == rules.strip(r.text.GetOr(""))
         else rules.lower(a) == rules.lower(rules.strip(r.text.GetOr(""))))
    case Matching(_, _, entries) => AllPlaced(entries, r.placements.GetOr(map[]))
    case Unregistered(_) => false
  }

  /** Grading is sound and complete: a verdict is produced exactly for a valid config, the score lies
      between 0 and 1, is 1 exactly when the answer is judged correct, and that is exactly when the
      response gives the answer key (partial credit never passes). This holds whatever stripping and
      lower-casing of text the runtime's character tables define. */
  lemma GradingExact(rules: TextRules, c: Config, r: Response)
    ensures Grade(rules, c, r).Some? <==> ValidConfig(c)
    ensures ValidConfig(c) ==>
              var v := Grade(rules, c, r).value;
              0.0 <= v.score <= 1.0 && (v.correct <==> v.score == 1.0) && (v.correct <==> Solves(rules, c, r))
  {
    if ValidConfig(c) {
      match c {
        case Quiz(_, _, correct, _) =>
          var selected := r.selected.GetOr([]);
          assert forall x :: x in ToSet(selected) <==> x in selected;
          assert forall x :: x in ToSet(correct) <==> x in correct;
        case Ordering(_, items, correctOrder) =>
          var order := r.order.GetOr([]);
          assert |correctOrder| == |multiset(correctOrder)| == |multiset(Ids(items))| == |Ids(items)|;
          if |order| == |correctOrder| {
            InPlaceBound(order, correctOrder);
            RatioIsOne(InPlace(order, correctOrder), |correctOrder|);
          }
        case TextInput(_, answers, caseSensitive) =>
          var text := rules.strip(r.text.GetOr(""));
          if !caseSensitive && exists a :: a in answers && rules.lower(a) == rules.lower(text) {
            var a :| a in answers && rules.lower(a) == rules.lower(text);
            var i :| 0 <= i < |answers| && answers[i] == a;
            assert rules.lower(answers[i]) == rules.lower(text);
          }
        case Matching(_, _, entries) =>
          var placements := r.placements.GetOr(map[]);
          WellPlacedBound(entries, placements);
          RatioIsOne(WellPlaced(entries, placements), |entries|);
      }
    }
  }

  /** The two configs agree on everything but answer keys, answer options, case handling and
      explanation, and ask for one or for several selections alike. */
  ghost predicate SameQuestion(a: Config, b: Config) {
    match (a, b)
    case (Quiz(q, o, c, _), Quiz(q', o', c', _)) => q == q' && o == o' && (|c| > 1 <==> |c'| > 1)
    case (Ordering(p, i, _), Ordering(p', i', _)) => p == p' && i == i'
    case (TextInput(p, _, _), TextInput(p', _, _)) => p == p'
    case (Matching(p, c, e), Matching(p', c', e')) =>
      p == p' && c == c' && |e| == |e'| && forall i :: 0 <= i < |e| ==> e[i].id == e'[i].id && e[i].text == e'[i].text
    case _ => false
  }

  /** The public projection carries exactly the question: two valid configs project alike if and only
      if they differ in nothing but their answers. */
  lemma ProjectionHidesAnswers(a: Config, b: Config)
    requires ValidConfig(a) && ValidConfig(b)
    ensures Project(a) == Project(b) <==> SameQuestion(a, b)
  {
    if a.Matching? && b.Matching? {
      var x := seq(|a.entries|, i requires 0 <= i < |a.entries| => Label(a.entries[i].id, a.entries[i].text));
      var y := seq(|b.entries|, i requires 0 <= i < |b.entries| => Label(b.entries[i].id, b.entries[i].text));
      if Project(a) == Project(b) {
        assert x == y;
        forall i | 0 <= i < |a.entries|
          ensures a.entries[i].id == b.entries[i].id && a.entries[i].text == b.entries[i].text
        {
          assert x[i] == y[i];
        }
      }
      if SameQuestion(a, b) {
        assert x == y;
      }
    }
  }

  /** The positions at which a proposed order agrees with the key, and the items put where they belong. */
  function Agreeing(got: seq<string>, want: seq<string>): set<int> {
    set i | 0 <= i < |got| && i < |want| && got[i] == want[i]
  }

  function Placed(entries: seq<MatchingItem>, placements: map<string, string>): set<int> {
    set i | 0 <= i < |entries| && entries[i].id in placements && placements[entries[i].id] == entries[i].category
  }

  lemma {:induction false} InPlaceSnoc(got: seq<string>, want: seq<string>, x: string, y: string)
    requires |got| == |want|
    ensures InPlace(got + [x], want + [y]) == InPlace(got, want) + if x == y then 1 else 0
  {
    if got != [] {
      InPlaceSnoc(got[1..], want[1..], x, y);
      assert (got + [x])[1..] == got[1..] + [x] && (want + [y])[1..] == want[1..] + [y];
    }
  }

  lemma {:induction false} InPlaceCounts(got: seq<string>, want: seq<string>)
    requires |got| == |want|
    ensures InPlace(got, want) == |Agreeing(got, want)|
  {
    if got == [] {
      assert Agreeing(got, want) == {};
    } else {
      var n := |got| - 1;
      assert got == got[..n] + [got[n]] && want == want[..n] + [want[n]];
      InPlaceSnoc(got[..n], want[..n], got[n], want[n]);
      InPlaceCounts(got[..n], want[..n]);
      AgreeingSnoc(got, want, n);
    }
  }

  lemma AgreeingSnoc(got: seq<string>, want: seq<string>, n: nat)
    requires |got| == |want| == n + 1
    ensures |Agreeing(got, want)| == |Agreeing(got[..n], want[..n])| + if got[n] == want[n] then 1 else 0
  {
    var before := Agreeing(got[..n], want[..n]);
    assert n !in before;
    assert Agreeing(got, want) == before + if got[n] == want[n] then {n} else {};
  }

  /** The item is put where it belongs. */
  predicate PutRight(entry: MatchingItem, placements: map<string, string>) {
    entry.id in placements && placements[entry.id] == entry.category
  }

  lemma {:induction false} WellPlacedSnoc(entries: seq<MatchingItem>, e: MatchingItem, placements: map<string, string>)
    ensures WellPlaced(entries + [e], placements) ==
            WellPlaced(entries, placements) + if PutRight(e, placements) then 1 else 0
  {
    if entries != [] {
      WellPlacedSnoc(entries[1..], e, placements);
      assert (entries + [e])[1..] == entries[1..] + [e];
    }
  }

  lemma {:induction false} WellPlacedCounts(entries: seq<MatchingItem>, placements: map<string, string>)
    ensures WellPlaced(entries, placements) == |Placed(entries, placements)|
  {
    if entries == [] {
      assert Placed(entries, placements) == {};
    } else {
      var n := |entries| - 1;
      assert entries == entries[..n] + [entries[n]];
      WellPlacedSnoc(entries[..n], entries[n], placements);
      WellPlacedCounts(entries[..n], placements);
      PlacedSnoc(entries, placements, n);
    }
  }

  lemma PlacedSnoc(entries: seq<MatchingItem>, placements: map<string, string>, n: nat)
    requires |entries| == n + 1
    ensures |Placed(entries, placements)| ==
            |Placed(entries[..n], placements)| + if PutRight(entries[n], placements) then 1 else 0
  {
    var before := Placed(entries[..n], placements);
    assert n !in before;
    assert Placed(entries, placements) == before + if PutRight(entries[n], placements) then {n} else {};
  }

  /** Scores are the share of the answer that is right: all or nothing for a quiz and a text, the share of
      positions for an ordering (nothing for a list of the wrong length), the share of items for a
      matching. An absent answer counts as an empty one. */
  lemma ScoresAreShares(rules: TextRules, c: Config, r: Response)
    requires ValidConfig(c)
    ensures var v := Grade(rules, c, r).value;
            match c
            case Ordering(_, _, key) =>
              var order := match r.order case None => [] case Some(given) => given;
              v.score == (if |order| != |key| then 0.0 else |Agreeing(order, key)| as real / |key| as real)
            case Matching(_, _, entries) =>
              var placements := match r.placements case None => map[] case Some(given) => given;
              v.score == |Placed(entries, placements)| as real / |entries| as real
            case _ => v.score == if v.correct then 1.0 else 0.0
  {
    if c.Ordering? && |r.order.GetOr([])| == |c.correctOrder| {
      InPlaceCounts(r.order.GetOr([]), c.correctOrder);
    } else if c.Matching? {
      WellPlacedCounts(c.entries, r.placements.GetOr(map[]));
    }
  }

  /** What the client is sent: the question or prompt, every option, item and category as authored and in
      the authored order, and whether more than one selection is right. */
  lemma ProjectionShowsTheQuestion(c: Config)
    ensures match Project(c)
            case None => !ValidConfig(c)
            case Some(PublicQuiz(question, options, multiSelect)) =>
              c.Quiz? && question == c.question && options == c.options && (multiSelect <==> |c.correct| >= 2)
            case Some(PublicOrdering(prompt, items)) => c.Ordering? && prompt == c.prompt && items == c.items
            case Some(PublicTextInput(prompt)) => c.TextInput? && prompt == c.prompt
            case Some(PublicMatching(prompt, categories, items)) =>
              c.Matching? && prompt == c.prompt && categories == c.categories && |items| == |c.entries| &&
              forall i :: 0 <= i < |items| ==> items[i].id == c.entries[i].id && items[i].text == c.entries[i].text
  {
  }

  // ---- Which challenges can be passed ----

  lemma {:induction false} StripLeftStrips(s: string)
    ensures var t := StripLeft(s); t == [] || !IsSpace(t[0])
    ensures s == [] || !IsSpace(s[0]) ==> StripLeft(s) == s
  {
    if s != [] && IsSpace(s[0]) { StripLeftStrips(s[1..]); }
  }

  lemma {:induction false} StripRightStrips(s: string)
    ensures var t := StripRight(s);
            (t == [] || !IsSpace(t[|t| - 1])) && (t == [] || t[0] == s[0]) && |t| <= |s|
    ensures s == [] || !IsSpace(s[|s| - 1]) ==> StripRight(s) == s
  {
    if s != [] && IsSpace(s[|s| - 1]) { StripRightStrips(s[..|s| - 1]); }
  }

  /** No space at either end. */
  predicate Trimmed(s: string) { s == [] || (!IsSpace(s[0]) && !IsSpace(s[|s| - 1])) }

  lemma StripTrims(s: string)
    ensures Trimmed(Strip(s))
    ensures Trimmed(s) ==> Strip(s) == s
  {
    StripLeftStrips(s);
    StripRightStrips(StripLeft(s));
  }

  lemma LowerKeepsTrimmed(a: string, b: string)
    requires Lower(a) == Lower(b)
    ensures Trimmed(a) <==> Trimmed(b)
  {
    assert |a| == |Lower(a)| == |Lower(b)| == |b|;
    if a != [] {
      var n := |a| - 1;
      assert Lower(a)[0] == LowerChar(a[0]) && Lower(b)[0] == LowerChar(b[0]);
      assert Lower(a)[n] == LowerChar(a[n]) && Lower(b)[n] == LowerChar(b[n]);
    }
  }

  function CategoryOf(entries: seq<MatchingItem>, id: string): string
    requires id in ItemIds(entries)
  {
    if entries[0].id == id then entries[0].category
    else
      assert ItemIds(entries)[1..] == ItemIds(entries[1..]);
      CategoryOf(entries[1..], id)
  }

  lemma {:induction false} CategoryOfItem(entries: seq<MatchingItem>, i: nat)
    requires i < |entries| && Distinct(ItemIds(entries))
    ensures entries[i].id in ItemIds(entries) && CategoryOf(entries, entries[i].id) == entries[i].category
  {
    assert ItemIds(entries)[i] == entries[i].id && ItemIds(entries)[0] == entries[0].id;
    if i > 0 {
      var rest := entries[1..];
      assert ItemIds(rest) == ItemIds(entries)[1..];
      CategoryOfItem(rest, i - 1);
    }
  }

  /** The answer key as a response. */
  function KeyResponse(c: Config, text: string): Response {
    match c
    case Quiz(_, _, correct, _) => Response(Some(correct), None, None, None)
    case Ordering(_, _, key) => Response(None, Some(key), None, None)
    case TextInput(_, _, _) => Response(None, None, Some(text), None)
    case Matching(_, _, entries) =>
      Response(None, None, None, Some(map id | id in ItemIds(entries) :: CategoryOf(entries, id)))
    case Unregistered(_) => Response(None, None, None, None)
  }

  lemma KeySolves(c: Config, text: string)
    requires ValidConfig(c) && (c.TextInput? ==> text in c.answers && Trimmed(text))
    ensures Solves(ASCII, c, KeyResponse(c, text))
  {
    if c.TextInput? {
      StripTrims(text);
    } else if c.Matching? {
      var placements := KeyResponse(c, text).placements.value;
      forall i | 0 <= i < |c.entries|
        ensures c.entries[i].id in placements && placements[c.entries[i].id] == c.entries[i].category
      {
        CategoryOfItem(c.entries, i);
      }
    }
  }

  /** Every challenge that passes validation can be passed by some response, except a text challenge all of
      whose accepted answers begin or end with a space: the response is stripped, the answers are not. */
  lemma SolvableExactly(c: Config)
    requires ValidConfig(c)
    ensures (exists r :: Evaluate(c, r).value.correct) <==>
            (c.TextInput? ==> exists a :: a in c.answers && Trimmed(a))
  {
    if c.TextInput? {
      if exists a :: a in c.answers && Trimmed(a) {
        var a :| a in c.answers && Trimmed(a);
        KeySolves(c, a);
        GradingExact(ASCII, c, KeyResponse(c, a));
        assert Evaluate(c, KeyResponse(c, a)).value.correct;
      }
      forall r | Evaluate(c, r).value.correct ensures exists a :: a in c.answers && Trimmed(a) {
        PassedByTrimmed(c, r);
      }
    } else {
      KeySolves(c, "");
      GradingExact(ASCII, c, KeyResponse(c, ""));
      assert Evaluate(c, KeyResponse(c, "")).value.correct;
    }
  }

  lemma PassedByTrimmed(c: Config, r: Response)
    requires ValidConfig(c) && c.TextInput? && Evaluate(c, r).value.correct
    ensures exists a :: a in c.answers && Trimmed(a)
  {
    GradingExact(ASCII, c, r);
    var text := Strip(r.text.GetOr(""));
    StripTrims(r.text.GetOr(""));
    var a :| a in c.answers && (if c.caseSensitive then a == text else Lower(a) == Lower(text));
    if !c.caseSensitive { LowerKeepsTrimmed(a, text); }
    assert Trimmed(a);
  }

  // ---- What validation refuses ----

  datatype ConfigProblem =
    | TooFew                            // options, items, categories or answers
    | NoCorrectOption
    | UnknownId(id: string)             // a correct option or an item's category that is not listed
    | DuplicateId(first: nat, second: nat)
    | DuplicateItem(first: nat, second: nat)
    | Miscounted(id: string)            // an id that the order does not list as often as the items do
    | UnknownType

  predicate LabelOf(labels: seq<Label>, id: string) { exists i :: 0 <= i < |labels| && labels[i].id == id }

  ghost predicate ConfigHas(c: Config, p: ConfigProblem) {
    match (c, p)
    case (Quiz(_, options, _, _), TooFew) => |options| < 2
    case (Quiz(_, _, correct, _), NoCorrectOption) => correct == []
    case (Quiz(_, options, correct, _), UnknownId(id)) => id in correct && !LabelOf(options, id)
    case (Quiz(_, options, _, _), DuplicateId(i, j)) => i < j < |options| && options[i].id == options[j].id
    case (Ordering(_, items, _), TooFew) => |items| < 2
    case (Ordering(_, items, key), Miscounted(id)) => multiset(key)[id] != multiset(Ids(items))[id]
    case (TextInput(_, answers, _), TooFew) => answers == []
    case (Matching(_, categories, entries), TooFew) => |categories| < 2 || |entries| < 2
    case (Matching(_, categories, _), DuplicateId(i, j)) => i < j < |categories| && categories[i].id == categories[j].id
    case (Matching(_, _, entries), DuplicateItem(i, j)) => i < j < |entries| && entries[i].id == entries[j].id
    case (Matching(_, categories, entries), UnknownId(id)) =>
      !LabelOf(categories, id) && exists i :: 0 <= i < |entries| && entries[i].category == id
    case (Unregistered(_), UnknownType) => true
    case _ => false
  }

  lemma IdsAreLabels(labels: seq<Label>, id: string)
    ensures id in Ids(labels) <==> LabelOf(labels, id)
  {
    if LabelOf(labels, id) {
      var i :| 0 <= i < |labels| && labels[i].id == id;
      assert Ids(labels)[i] == id;
    }
  }

  lemma DistinctLabels(labels: seq<Label>)
    ensures Distinct(Ids(labels)) <==> forall i: nat, j: nat :: i < j < |labels| ==> labels[i].id != labels[j].id
  {
    assert forall i :: 0 <= i < |labels| ==> Ids(labels)[i] == labels[i].id;
  }

  lemma QuizValid(c: Config)
    requires c.Quiz?
    ensures ValidConfig(c) <==> forall p :: !ConfigHas(c, p)
  {
    DistinctLabels(c.options);
    forall id ensures id in Ids(c.options) <==> LabelOf(c.options, id) { IdsAreLabels(c.options, id); }
    if !ValidConfig(c) {
      if |c.options| < 2 {
        assert ConfigHas(c, TooFew);
      } else if c.correct == [] {
        assert ConfigHas(c, NoCorrectOption);
      } else if x :| x in c.correct && x !in Ids(c.options) {
        assert ConfigHas(c, UnknownId(x));
      } else {
        var i: nat, j: nat :| i < j < |c.options| && c.options[i].id == c.options[j].id;
        assert ConfigHas(c, DuplicateId(i, j));
      }
    }
  }

  lemma OrderingValid(c: Config)
    requires c.Ordering?
    ensures ValidConfig(c) <==> forall p :: !ConfigHas(c, p)
  {
    var key, ids := multiset(c.correctOrder), multiset(Ids(c.items));
    if forall id :: key[id] == ids[id] { assert key == ids; }
    if !ValidConfig(c) {
      if |c.items| < 2 {
        assert ConfigHas(c, TooFew);
      } else {
        var id :| key[id] != ids[id];
        assert ConfigHas(c, Miscounted(id));
      }
    }
  }

  lemma MatchingValid(c: Config)
    requires c.Matching?
    ensures ValidConfig(c) <==> forall p :: !ConfigHas(c, p)
  {
    DistinctLabels(c.categories);
    assert forall i :: 0 <= i < |c.entries| ==> ItemIds(c.entries)[i] == c.entries[i].id;
    forall id ensures id in Ids(c.categories) <==> LabelOf(c.categories, id) { IdsAreLabels(c.categories, id); }
    if !ValidConfig(c) {
      if |c.categories| < 2 || |c.entries| < 2 {
        assert ConfigHas(c, TooFew);
      } else if i: nat, j: nat :| i < j < |c.categories| && c.categories[i].id == c.categories[j].id {
        assert ConfigHas(c, DuplicateId(i, j));
      } else if i: nat, j: nat :| i < j < |c.entries| && c.entries[i].id == c.entries[j].id {
        assert ConfigHas(c, DuplicateItem(i, j));
      } else {
        var i :| 0 <= i < |c.entries| && c.entries[i].category !in Ids(c.categories);
        assert ConfigHas(c, UnknownId(c.entries[i].category));
      }
    }
  }

  /** Validation refuses a config for a reason, and only for one. */
  lemma ValidIffProblemFree(c: Config)
    ensures ValidConfig(c) <==> forall p :: !ConfigHas(c, p)
  {
    match c
    case Quiz(_, _, _, _) => QuizValid(c);
    case Ordering(_, _, _) => OrderingValid(c);
    case TextInput(_, _, _) => if !ValidConfig(c) { assert ConfigHas(c, TooFew); }
    case Matching(_, _, _) => MatchingValid(c);
    case Unregistered(_) => assert ConfigHas(c, UnknownType);
  }

  predicate AllSpaces(s: string) { forall i :: 0 <= i < |s| ==> IsSpace(s[i]) }

  lemma {:induction false} StripLeftCuts(s: string) returns (before: string)
    ensures s == before + StripLeft(s) && AllSpaces(before)
  {
    before := [];
    if s != [] && IsSpace(s[0]) {
      var rest := StripLeftCuts(s[1..]);
      before := [s[0]] + rest;
      assert s == [s[0]] + s[1..];
      assert [s[0]] + (rest + StripLeft(s[1..])) == before + StripLeft(s[1..]);
    }
  }

  lemma {:induction false} StripRightCuts(s: string) returns (after: string)
    ensures s == StripRight(s) + after && AllSpaces(after)
  {
    after := [];
    if s != [] && IsSpace(s[|s| - 1]) {
      var front, last := s[..|s| - 1], s[|s| - 1];
      var rest := StripRightCuts(front);
      after := rest + [last];
      assert s == front + [last];
      assert (StripRight(front) + rest) + [last] == StripRight(front) + after;
    }
  }

  lemma Regroup(a: string, b: string, c: string)
    ensures a + (b + c) == a + b + c
  {
  }

  /** Stripping cuts exactly the spaces at both ends. */
  lemma StripCutsSpaces(s: string) returns (before: string, after: string)
    ensures s == before + Strip(s) + after && Trimmed(Strip(s)) && AllSpaces(before) && AllSpaces(after)
  {
    before := StripLeftCuts(s);
    after := StripRightCuts(StripLeft(s));
    StripTrims(s);
    Regroup(before, Strip(s), after);
  }
}
