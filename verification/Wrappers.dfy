/** Small shared vocabulary: optional values and duplicate-free sequences. */
module Wrappers {

  datatype Option<+T> = None | Some(value: T) {
    function GetOr(default: T): T {
      match this
      case Some(v) => v
      case None => default
    }
  }

  function Max(a: int, b: int): int { if a > b then a else b }

  /** No value occurs at two positions. */
  predicate Distinct<T(==)>(s: seq<T>) {
    forall i, j :: 0 <= i < j < |s| ==> s[i] != s[j]
  }

  /** The set of members of a sequence, as Python's `set(...)` builds it. */
  function ToSet<T(==)>(s: seq<T>): set<T> {
    set x | x in s
  }

  /** The idiom `len(set(xs)) == len(xs)` decides distinctness. */
  lemma {:induction false} CardinalityDecidesDistinct<T>(s: seq<T>)
    ensures |ToSet(s)| <= |s|
    ensures |ToSet(s)| == |s| <==> Distinct(s)
  {
    if s == [] {
      assert ToSet(s) == {};
    } else {
      var rest := s[1..];
      CardinalityDecidesDistinct(rest);
      assert ToSet(s) == ToSet(rest) + {s[0]};
      if s[0] in rest {
        assert ToSet(s) == ToSet(rest);
        var j :| 0 <= j < |rest| && rest[j] == s[0];
        assert s[j + 1] == s[0];
      } else {
        assert s == [s[0]] + rest;
        assert forall j :: 0 < j < |s| ==> s[j] in rest;
        if Distinct(rest) {
          forall i, j | 0 <= i < j < |s| ensures s[i] != s[j] {
            if i > 0 { assert rest[i - 1] != rest[j - 1]; }
          }
        } else {
          var i, j :| 0 <= i < j < |rest| && rest[i] == rest[j];
          assert s[i + 1] == s[j + 1];
        }
      }
    }
  }
}
