/** The XP level curve (backend/app/modules/xp/service.py). */
module Levels {
  import opened Wrappers

  /** The greatest natural number at or above `n` whose square is at most `x`. */
  function RootFloor(x: real, n: nat): nat
    requires (n * n) as real <= x
    decreases x.Floor - n
  {
    Squares(n);
    if ((n + 1) * (n + 1)) as real <= x then Squares(n + 1); RootFloor(x, n + 1) else n
  }

  lemma Squares(n: nat)
    ensures n <= n * n
  {
    if n > 0 { assert n * n - n == n * (n - 1); }
  }

  /** `int((max(total, 0) / 100) ** 0.5) + 1` with an exact square root. */
  function LevelForTotal(total: int): int {
    var hundreds := Max(total, 0) as real / 100.0;
    assert hundreds >= 0.0;
    RootFloor(hundreds, 0) + 1
  }

  function TotalForLevel(level: int): int {
    var steps := Max(level, 1) - 1;
    100 * (steps * steps)
  }

  lemma SquareMono(a: nat, b: nat)
    requires a <= b
    ensures a * a <= b * b
  {
    assert b * b - a * a == (b - a) * (b + a);
  }

  lemma {:induction false} RootFloorIsExact(x: real, n: nat, m: nat)
    requires (n * n) as real <= x && n <= m
    ensures m <= RootFloor(x, n) <==> (m * m) as real <= x
    decreases x.Floor - n
  {
    Squares(n);
    if ((n + 1) * (n + 1)) as real <= x {
      Squares(n + 1);
      if m == n {
        RootFloorIsExact(x, n + 1, n + 1);
      } else {
        RootFloorIsExact(x, n + 1, m);
      }
    } else if m > n {
      SquareMono(n + 1, m);
    }
  }

  /** The two functions form a Galois pair: a total reaches a level exactly when it is at least the
      level's floor. */
  lemma LevelsGalois(total: nat, level: int)
    requires level >= 1
    ensures level <= LevelForTotal(total) <==> TotalForLevel(level) <= total
  {
    var steps := level - 1;
    var x := total as real / 100.0;
    RootFloorIsExact(x, 0, steps);
    assert (steps * steps) as real <= x <==> (100 * (steps * steps)) as real <= total as real;
  }

  /** So the computed level is the one and only level whose XP band contains the total. */
  lemma LevelIsTheBand(total: nat, level: int)
    requires level >= 1
    ensures LevelForTotal(total) >= 1
    ensures level == LevelForTotal(total) <==> TotalForLevel(level) <= total < TotalForLevel(level + 1)
  {
    LevelsGalois(total, level);
    LevelsGalois(total, level + 1);
  }

  /** What `(total / 100) ** 0.5` yields in floating point for totals of 31 bits: a quotient `q` and a root
      `r` that are off by far less than one part in 10^12 and exact where the result is a whole number.
      IEEE double precision keeps well within this. */
  ghost predicate FloatRoot(total: nat, q: real, r: real) {
    var exact := total as real / 100.0;
    && exact - exact / 1000000000000.0 <= q <= exact + exact / 1000000000000.0
    && (total % 100 == 0 ==> q == exact)
    && 0.0 <= r && q - q / 1000000000000.0 <= r * r <= q + q / 1000000000000.0
    && (forall k: nat :: q == (k * k) as real ==> r == k as real)
  }

  /** The rounded root squares to within a ten-thousandth of the exact quotient. */
  lemma RoundingIsSmall(total: nat, q: real, r: real)
    requires total < 0x8000_0000 && FloatRoot(total, q, r)
    ensures total as real / 100.0 - 0.0001 <= r * r <= total as real / 100.0 + 0.0001
  {
    var exact := total as real / 100.0;
    assert 0.0 <= exact < 21474837.0;
    assert exact - 0.00003 <= q <= exact + 0.00003;
    assert q - 0.00003 <= r * r <= q + 0.00003;
  }

  lemma RootBelow(total: nat, r: real, k: nat)
    requires 0.0 <= r && r * r <= total as real / 100.0 + 0.0001 && total < 100 * (k * k)
    ensures r < k as real
  {
    assert total + 1 <= 100 * (k * k);
    assert total as real / 100.0 + 0.01 <= (k * k) as real;
    if r >= k as real { SquareGrows(k as real, r); }
  }

  lemma RootAbove(total: nat, r: real, k: nat)
    requires 0.0 <= r && total as real / 100.0 - 0.0001 <= r * r && 100 * (k * k) < total
    ensures k as real <= r
  {
    assert 100 * (k * k) + 1 <= total;
    assert (k * k) as real + 0.01 <= total as real / 100.0;
    if r < k as real { SquareGrows(r, k as real); }
  }

  /** Rounding never moves a total across a level: with the floating-point root of the source the computed
      level is that of the exact square root, for every total from 0 to 2^31 - 1. */
  lemma RoundingKeepsTheLevel(total: nat, q: real, r: real)
    requires total < 0x8000_0000 && FloatRoot(total, q, r)
    ensures r.Floor + 1 == LevelForTotal(total)
  {
    var k: nat := LevelForTotal(total) - 1;
    LevelIsTheBand(total, k + 1);
    RoundingIsSmall(total, q, r);
    RootBelow(total, r, k + 1);
    if total == 100 * (k * k) {
      ExactTotals(total, q, k);
    } else {
      RootAbove(total, r, k);
    }
    assert k as real <= r < (k + 1) as real;
  }

  lemma ExactTotals(total: nat, q: real, k: nat)
    requires total == 100 * (k * k) && (total % 100 == 0 ==> q == total as real / 100.0)
    ensures q == (k * k) as real
  {
    var square := k * k;
    assert total == 100 * square && total % 100 == 0;
  }

  lemma SquareGrows(a: real, b: real)
    requires 0.0 <= a <= b
    ensures a * a <= b * b
  {
    assert b * b - a * a == (b - a) * (b + a);
  }

  lemma LevelMonotone(a: int, b: int)
    requires a <= b
    ensures LevelForTotal(a) <= LevelForTotal(b)
  {
    if a >= 0 {
      LevelsGalois(a, LevelForTotal(a));
      LevelsGalois(b, LevelForTotal(a));
    } else {
      LevelsGalois(0, LevelForTotal(a));
      LevelsGalois(Max(b, 0), LevelForTotal(a));
      assert LevelForTotal(a) == LevelForTotal(0);
      assert LevelForTotal(b) == LevelForTotal(Max(b, 0));
      LevelsGalois(Max(b, 0), LevelForTotal(0));
      LevelsGalois(0, LevelForTotal(0));
    }
  }
}
