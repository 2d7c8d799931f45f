/** Player-state values and the condition tree that gates dialogue, media and options
    (backend/app/modules/runtime/conditions.py). */
module Conditions {
  import opened Wrappers

  /** A stored variable. Integers and floats are one numeric kind: Python compares and adds them alike. */
  datatype Value = Num(n: real) | Str(s: string) | Bool(b: bool) {
    /** Booleans take part in arithmetic and comparison as 0 and 1. */
    predicate Numeric() { !Str? }

    function AsNumber(): real
      requires Numeric()
    {
      match this
      case Num(n) => n
      case Bool(b) => if b then 1.0 else 0.0
    }
  }

  datatype CmpOp = Eq | Ne | Gt | Gte | Lt | Lte

  datatype Condition =
    | VarCondition(variable: string, op: CmpOp, value: Value)
    | FlagCondition(flag: string, present: bool)
    | ItemCondition(item: string, minQty: int)
    | AllCondition(all: seq<Condition>)
    | AnyCondition(any: seq<Condition>)
    | NotCondition(negated: Condition)

  /** The part of the state document that conditions may read. */
  datatype PlayerFacts = PlayerFacts(variables: map<string, Value>, flags: seq<string>, inventory: map<string, int>)

  function CountOf(m: map<string, int>, key: string): int {
    if key in m then m[key] else 0
  }

  /** Code-point order on strings. */
  predicate StringLess(a: string, b: string) {
    if b == [] then false
    else if a == [] then true
    else a[0] < b[0] || (a[0] == b[0] && StringLess(a[1..], b[1..]))
  }

  /** `_OPS[op](current, value)`; None stands for the TypeError on unordered types. */
  function Compare(op: CmpOp, x: Value, y: Value): Option<bool> {
    if x.Numeric() && y.Numeric() then
      var a, b := x.AsNumber(), y.AsNumber();
      Some(match op
           case Eq => a == b
           case Ne => a != b
           case Gt => a > b
           case Gte => a >= b
           case Lt => a < b
           case Lte => a <= b)
    else if x.Str? && y.Str? then
      Some(match op
           case Eq => x.s == y.s
           case Ne => x.s != y.s
           case Gt => StringLess(y.s, x.s)
           case Gte => !StringLess(x.s, y.s)
           case Lt => StringLess(x.s, y.s)
           case Lte => !StringLess(y.s, x.s))
    else
      match op
      case Eq => Some(false)
      case Ne => Some(true)
      case _ => None
  }

  predicate Evaluate(c: Condition, facts: PlayerFacts) {
    match c
    case VarCondition(v, op, value) =>
      v in facts.variables && Compare(op, facts.variables[v], value).GetOr(false)
    case FlagCondition(flag, present) => (flag in facts.flags) == present
    case ItemCondition(item, minQty) => CountOf(facts.inventory, item) >= minQty
    case AllCondition(all) => forall i :: 0 <= i < |all| ==> Evaluate(all[i], facts)
    case AnyCondition(any) => exists i :: 0 <= i < |any| && Evaluate(any[i], facts)
    case NotCondition(negated) => !Evaluate(negated, facts)
  }

  /** A missing condition is unconditionally true. */
  predicate Holds(c: Option<Condition>, facts: PlayerFacts) {
    c.None? || Evaluate(c.value, facts)
  }

  lemma {:induction false} StringLessTotal(a: string, b: string)
    ensures a != b ==> StringLess(a, b) != StringLess(b, a)
    ensures a == b ==> !StringLess(a, b)
  {
    if a != [] && b != [] {
      StringLessTotal(a[1..], b[1..]);
      assert a == [a[0]] + a[1..] && b == [b[0]] + b[1..];
    }
  }

  /** Comparisons fail closed: on a stored variable exactly one of lt, eq, gt holds when the two
      values are comparable, and none of them when they are not; an absent variable fails every
      comparison, `ne` included. */
  lemma ComparisonsFailClosed(v: string, value: Value, facts: PlayerFacts)
    ensures var lt, eq, gt :=
              Evaluate(VarCondition(v, Lt, value), facts),
              Evaluate(VarCondition(v, Eq, value), facts),
              Evaluate(VarCondition(v, Gt, value), facts);
            if v in facts.variables && (facts.variables[v].Str? <==> value.Str?)
            then (lt || eq || gt) && !(lt && eq) && !(eq && gt) && !(lt && gt)
            else !lt && !eq && !gt
    ensures v !in facts.variables ==> forall op :: !Evaluate(VarCondition(v, op, value), facts)
  {
    if v in facts.variables && facts.variables[v].Str? && value.Str? {
      StringLessTotal(facts.variables[v].s, value.s);
    }
  }

  /** `a` comes before `b` at their first difference, an end of string coming before any character. */
  ghost predicate PrecedesAt(a: string, b: string, k: nat) {
    k <= |a| && k < |b| && a[..k] == b[..k] && (k == |a| || a[k] < b[k])
  }

  lemma {:induction false} StringLessIsLexicographic(a: string, b: string)
    ensures StringLess(a, b) <==> exists k: nat :: PrecedesAt(a, b, k)
  {
    if a == [] || b == [] || a[0] != b[0] {
      assert StringLess(a, b) ==> PrecedesAt(a, b, 0);
      forall k: nat | PrecedesAt(a, b, k) ensures StringLess(a, b) {
        if k > 0 { assert a[..k][0] == b[..k][0]; }
      }
    } else {
      StringLessIsLexicographic(a[1..], b[1..]);
      if StringLess(a, b) {
        var k: nat :| PrecedesAt(a[1..], b[1..], k);
        assert a[..k + 1] == [a[0]] + a[1..][..k] && b[..k + 1] == [b[0]] + b[1..][..k];
        assert PrecedesAt(a, b, k + 1);
      }
      forall k: nat | PrecedesAt(a, b, k) ensures StringLess(a, b) {
        assert k > 0;
        assert a[1..][..k - 1] == a[..k][1..] && b[1..][..k - 1] == b[..k][1..];
        assert PrecedesAt(a[1..], b[1..], k - 1);
      }
    }
  }

  /** What a comparison operator means, given how the stored value stands to the constant. */
  predicate Meets(op: CmpOp, less: bool, equal: bool) {
    match op
    case Lt => less && !equal
    case Lte => less || equal
    case Eq => equal
    case Ne => !equal
    case Gte => !less || equal
    case Gt => !less && !equal
  }

  /** A comparison reads the order of numbers, booleans counting as 0 and 1, or the lexicographic order of
      strings; between a string and a number only `ne` holds. */
  lemma ComparisonsReadTheOrder(v: string, op: CmpOp, value: Value, facts: PlayerFacts)
    requires v in facts.variables
    ensures var held, x := Evaluate(VarCondition(v, op, value), facts), facts.variables[v];
            match (x, value)
            case (Num(a), Num(b)) => held <==> Meets(op, a < b, a == b)
            case (Num(a), Bool(b)) => held <==> Meets(op, a < (if b then 1.0 else 0.0), a == if b then 1.0 else 0.0)
            case (Bool(a), Num(b)) => held <==> Meets(op, (if a then 1.0 else 0.0) < b, b == if a then 1.0 else 0.0)
            case (Bool(a), Bool(b)) => held <==> Meets(op, !a && b, a == b)
            case (Str(a), Str(b)) => held <==> Meets(op, exists k: nat :: PrecedesAt(a, b, k), a == b)
            case _ => held <==> op == Ne
  {
    if facts.variables[v].Str? && value.Str? {
      StringLessIsLexicographic(facts.variables[v].s, value.s);
      StringLessIsLexicographic(value.s, facts.variables[v].s);
      StringLessTotal(facts.variables[v].s, value.s);
    }
  }

  lemma AllFailsByOne(cs: seq<Condition>, facts: PlayerFacts)
    ensures Evaluate(AllCondition(cs), facts) <==> !exists x :: x in cs && !Evaluate(x, facts)
  {
    if x :| x in cs && !Evaluate(x, facts) {
      var i :| 0 <= i < |cs| && cs[i] == x;
    } else {
      assert forall i :: 0 <= i < |cs| ==> cs[i] in cs;
    }
  }

  lemma AnyHoldsByOne(cs: seq<Condition>, facts: PlayerFacts)
    ensures Evaluate(AnyCondition(cs), facts) <==> exists x :: x in cs && Evaluate(x, facts)
  {
    if x :| x in cs && Evaluate(x, facts) {
      var i :| 0 <= i < |cs| && cs[i] == x;
    } else {
      assert forall i :: 0 <= i < |cs| ==> cs[i] in cs;
    }
  }

  /** A tree of conditions fails exactly where logic says: a conjunction by one of its parts, a disjunction
      by all of them, a negation by its part; its leaves read the flag list and the item counts. */
  lemma ConditionsCompose(cs: seq<Condition>, c: Condition, flag: string, item: string, n: int, facts: PlayerFacts)
    ensures Evaluate(AllCondition(cs), facts) <==> !exists x :: x in cs && !Evaluate(x, facts)
    ensures Evaluate(AnyCondition(cs), facts) <==> exists x :: x in cs && Evaluate(x, facts)
    ensures Evaluate(NotCondition(c), facts) != Evaluate(c, facts)
    ensures Evaluate(FlagCondition(flag, true), facts) <==> flag in facts.flags
    ensures Evaluate(FlagCondition(flag, false), facts) <==> flag !in facts.flags
    ensures Evaluate(ItemCondition(item, n), facts) <==>
            if item in facts.inventory then facts.inventory[item] >= n else 0 >= n
    ensures Holds(None, facts) && (Holds(Some(c), facts) <==> Evaluate(c, facts))
  {
    AllFailsByOne(cs, facts);
    AnyHoldsByOne(cs, facts);
  }
}
