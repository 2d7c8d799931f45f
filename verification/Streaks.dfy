/** Daily activity streaks (backend/app/modules/progress/service.py). Days are integers. */
module Streaks {
  import opened Wrappers

  datatype Streak = Streak(current: int, longest: int, last: int)

  function Bump(streak: Option<Streak>, today: int): Streak {
    match streak
    case None => Streak(1, 1, today)
    case Some(s) =>
      if s.last == today then s
      else if s.last == today - 1 then Streak(s.current + 1, Max(s.longest, s.current + 1), today)
      else Streak(1, Max(s.longest, 1), today)
  }

  function Fold(days: seq<int>): Option<Streak> {
    if days == [] then None else Some(Bump(Fold(days[..|days| - 1]), days[|days| - 1]))
  }

  class PlayerStreak {
    var record: Option<Streak>

    constructor ()
      ensures record == None
    {
      record := None;
    }

    method BumpStreak(today: int)
      modifies this
      ensures record == Some(Bump(old(record), today))
    {
      match record {
        case None =>
          record := Some(Streak(1, 1, today));
        case Some(s) =>
          if s.last == today {
          } else if s.last == today - 1 {
            record := Some(Streak(s.current + 1, Max(s.longest, s.current + 1), today));
          } else {
            record := Some(Streak(1, Max(s.longest, 1), today));
          }
      }
    }
  }

  /** Length of the run of consecutive active days that ends on `day`. */
  function RunEnding(days: set<int>, day: int): nat
    decreases days
  {
    if day !in days then 0 else 1 + RunEnding(days - {day}, day - 1)
  }

  /** Days after `day` do not matter to the run that ends on it. */
  lemma {:induction false} RunIgnoresLater(small: set<int>, big: set<int>, day: int)
    requires forall x :: x <= day ==> (x in small <==> x in big)
    ensures RunEnding(small, day) == RunEnding(big, day)
    decreases small
  {
    if day in small { RunIgnoresLater(small - {day}, big - {day}, day - 1); }
  }

  predicate Nondecreasing(days: seq<int>) {
    forall i, j :: 0 <= i < j < |days| ==> days[i] <= days[j]
  }

  ghost predicate IsLongestRun(days: set<int>, n: int) {
    (forall day :: day in days ==> RunEnding(days, day) <= n) && exists day :: day in days && RunEnding(days, day) == n
  }

  lemma FirstDay(today: int)
    ensures RunEnding({today}, today) == 1 && IsLongestRun({today}, 1)
  {
    assert {today} - {today} == {};
    assert RunEnding({today}, today) == 1 + RunEnding({}, today - 1);
  }

  lemma SetOfFront(days: seq<int>)
    requires days != []
    ensures ToSet(days) == ToSet(days[..|days| - 1]) + {days[|days| - 1]}
  {
    assert days == days[..|days| - 1] + [days[|days| - 1]];
  }

  /** The last day of a nondecreasing history is its greatest. */
  lemma LastIsGreatest(days: seq<int>)
    requires days != [] && Nondecreasing(days)
    ensures days[|days| - 1] in ToSet(days) && forall day :: day in ToSet(days) ==> day <= days[|days| - 1]
  {
  }

  /** The record describes the set of active days. */
  ghost predicate Describes(s: Streak, days: set<int>) {
    s.last in days && s.current == RunEnding(days, s.last) && IsLongestRun(days, s.longest)
  }

  /** For every nondecreasing history, however many events a day has, the current streak is the run of
      consecutive days ending on the last active day and the longest streak is the longest run among
      all active days. */
  lemma {:induction false} StreakCountsRuns(days: seq<int>)
    requires days != [] && Nondecreasing(days)
    ensures Fold(days).Some? && Fold(days).value.last == days[|days| - 1] && Describes(Fold(days).value, ToSet(days))
  {
    var front, today := days[..|days| - 1], days[|days| - 1];
    SetOfFront(days);
    if front == [] {
      assert ToSet(days) == {today};
      FirstDay(today);
    } else {
      StreakCountsRuns(front);
      LastIsGreatest(front);
      BumpDescribes(ToSet(front), Fold(front).value, today);
    }
  }

  lemma BumpDescribes(before: set<int>, s: Streak, today: int)
    requires Describes(s, before) && s.last <= today && forall day :: day in before ==> day <= s.last
    ensures Bump(Some(s), today).last == today && Describes(Bump(Some(s), today), before + {today})
  {
    if s.last == today {
      assert before + {today} == before;
    } else {
      NewDay(before, before + {today}, s, today);
    }
  }

  /** A first event on a later day. */
  lemma NewDay(before: set<int>, all: set<int>, s: Streak, today: int)
    requires all == before + {today} && s.last in before && s.last < today
    requires forall day :: day in before ==> day <= s.last
    requires s.current == RunEnding(before, s.last) && IsLongestRun(before, s.longest)
    ensures var t := Bump(Some(s), today);
            t.last == today && t.current == RunEnding(all, today) && IsLongestRun(all, t.longest)
  {
    var t := Bump(Some(s), today);
    assert all - {today} == before;
    assert RunEnding(all, today) == 1 + RunEnding(before, today - 1);
    assert t.current == RunEnding(all, today);
    forall day | day in before ensures RunEnding(all, day) == RunEnding(before, day) {
      RunIgnoresLater(before, all, day);
    }
    var best :| best in before && RunEnding(before, best) == s.longest;
    if t.longest == s.longest {
      assert best in all && RunEnding(all, best) == t.longest;
    } else {
      assert today in all && RunEnding(all, today) == t.longest;
    }
  }
}
