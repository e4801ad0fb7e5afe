/** The repeat-alert back-off (internal/cli/terminal_subs_alert.go,
    repeatCooldown), computed in 64-bit durations. */
module AlertLadder {
  import opened Common
  import opened Ints

  function Pow2(n: nat): (p: nat)
    ensures p >= 1
  {
    if n == 0 then 1 else 2 * Pow2(n - 1)
  }

  /** A ceiling below the base gap is raised to meet it. */
  function Ceiling(base: int, max: int): int { if max < base then base else max }

  /** The documented gap after the n-th consecutive unacknowledged alert. */
  function Ladder(base: int, max: int, unacked: nat): int {
    if base <= 0 || unacked <= 1 then base
    else Min(base * Pow2(unacked - 1), Ceiling(base, max))
  }

  /** The remaining iterations of the doubling loop, on 64-bit values. */
  function Climb(gap: int, ceiling: int, left: nat): int
    decreases left
  {
    if left == 0 then Min(gap, ceiling)
    else if gap >= ceiling then ceiling
    else Climb(Wrap64(gap * 2), ceiling, left - 1)
  }

  function Cooldown(base: int, max: int, unacked: nat): int {
    if base <= 0 || unacked <= 1 then base else Climb(base, Ceiling(base, max), unacked - 1)
  }

  /** The loop, which also reports (for the proof) every value its gap takes. */
  method RepeatCooldown(base: int, max: int, unacked: nat) returns (gap: int, ghost taken: seq<int>)
    requires Int64(base) && Int64(max)
    ensures gap == Cooldown(base, max, unacked) && Int64(gap)
    ensures |taken| >= 1 && taken[0] == base
    ensures forall i :: 0 < i < |taken| ==> taken[i] == Wrap64(2 * taken[i - 1])
    ensures base > 0 && TopRung(base, Ceiling(base, max)) <= MAX64 ==>
              forall i :: 0 <= i < |taken| ==> 0 < taken[i] < 2 * Ceiling(base, max)
  {
    taken := [base];
    if base <= 0 || unacked <= 1 {
      return base, taken;
    }
    var ceiling := max;
    if ceiling < base {
      ceiling := base;
    }
    ghost var fits := TopRung(base, ceiling) <= MAX64;
    gap := base;
    var i := 1;
    while i < unacked
      invariant 1 <= i <= unacked && Int64(gap)
      invariant Climb(base, ceiling, unacked - 1) == Climb(gap, ceiling, unacked - i)
      invariant |taken| >= 1 && taken[0] == base && taken[|taken| - 1] == gap
      invariant forall j :: 0 < j < |taken| ==> taken[j] == Wrap64(2 * taken[j - 1])
      invariant fits ==> 0 < gap < 2 * ceiling && TopRung(gap, ceiling) == TopRung(base, ceiling)
      invariant fits ==> forall j :: 0 <= j < |taken| ==> 0 < taken[j] < 2 * ceiling
    {
      if gap >= ceiling {
        return ceiling, taken;
      }
      if fits { DoublingFits(gap, ceiling); }
      gap := Wrap64(gap * 2);
      taken := taken + [gap];
      i := i + 1;
    }
    if gap > ceiling {
      gap := ceiling;
    }
  }

  // ----- the loop against the closed form -----

  /** The first doubling of `gap` that reaches the ceiling. */
  function TopRung(gap: int, ceiling: int): (top: int)
    requires gap > 0
    ensures top >= ceiling && top >= gap
    ensures gap >= ceiling ==> top == gap
    ensures gap < ceiling ==> top < 2 * ceiling
    decreases ceiling - gap
  {
    if gap >= ceiling then gap else TopRung(2 * gap, ceiling)
  }

  lemma DoublingFits(gap: int, ceiling: int)
    requires 0 < gap < ceiling && TopRung(gap, ceiling) <= MAX64
    ensures Wrap64(gap * 2) == 2 * gap < 2 * ceiling && TopRung(2 * gap, ceiling) == TopRung(gap, ceiling)
  {
  }

  lemma Doubled(gap: int, n: nat)
    requires gap > 0
    ensures gap * Pow2(n) >= gap
    ensures n > 0 ==> (2 * gap) * Pow2(n - 1) == gap * Pow2(n)
  {
    var p := Pow2(n);
    assert gap * p >= gap * 1;
    if n > 0 {
      var q := Pow2(n - 1);
      assert (2 * gap) * q == gap * (2 * q);
    }
  }

  lemma {:induction false} ClimbExact(gap: int, ceiling: int, n: nat)
    requires gap > 0 && TopRung(gap, ceiling) <= MAX64
    ensures Climb(gap, ceiling, n) == Min(gap * Pow2(n), ceiling)
    decreases n
  {
    Doubled(gap, n);
    if n > 0 && gap < ceiling {
      var next := 2 * gap;
      assert Wrap64(gap * 2) == next;
      ClimbExact(next, ceiling, n - 1);
    }
  }

  /** A top rung that does not fit in 64 bits is reached as a negative gap. */
  lemma {:induction false} ClimbOverflows(gap: int, ceiling: int) returns (n: nat)
    requires 0 < gap < ceiling <= MAX64 && TopRung(gap, ceiling) > MAX64
    ensures n >= 1 && Climb(gap, ceiling, n) < 0
    decreases ceiling - gap
  {
    if 2 * gap < ceiling {
      n := ClimbOverflows(2 * gap, ceiling);
      n := n + 1;
    } else {
      assert TopRung(gap, ceiling) == 2 * gap;
      n := 1;
      assert Wrap64(gap * 2) < 0;
    }
  }

  lemma LadderPositive(base: int, max: int, n: nat)
    requires base > 0
    ensures Ladder(base, max, n) >= base
  {
    if n > 1 {
      Doubled(base, n - 1);
    }
  }

  /** The doubling loop computes the documented ladder at every rung exactly when
      the first rung at or above the ceiling fits in 64 bits. */
  lemma LoopIsLadderIff(base: int, max: int)
    requires Int64(base) && Int64(max) && base > 0
    ensures (forall n: nat :: Cooldown(base, max, n) == Ladder(base, max, n)) <==>
            TopRung(base, Ceiling(base, max)) <= MAX64
  {
    var ceiling := Ceiling(base, max);
    if TopRung(base, ceiling) <= MAX64 {
      forall n: nat ensures Cooldown(base, max, n) == Ladder(base, max, n) {
        if n > 1 { ClimbExact(base, ceiling, n - 1); }
      }
    } else {
      var n := ClimbOverflows(base, ceiling);
      LadderPositive(base, max, n + 1);
      assert Cooldown(base, max, n + 1) != Ladder(base, max, n + 1);
    }
  }

  /** A witness, in whole milliseconds: the second rung is negative. */
  lemma HugeCeilingOverflows()
    ensures var base, max := 5_000_000_000_000 * 1_000_000, 9_000_000_000_000 * 1_000_000;
            Int64(base) && Int64(max) && Cooldown(base, max, 2) < 0 && Ladder(base, max, 2) == max
  {
    var base, max := 5_000_000_000_000 * 1_000_000, 9_000_000_000_000 * 1_000_000;
    assert Pow2(1) == 2;
    assert Climb(base, max, 1) == Climb(Wrap64(base * 2), max, 0);
  }

  /** The first rung at or above the ceiling stays below twice the ceiling, so every
      ceiling up to 2^62 is safe (the shipped one is thirty minutes). */
  lemma ModestCeilingIsSafe(base: int, max: int)
    requires 0 < base && Ceiling(base, max) <= 0x4000_0000_0000_0000
    ensures TopRung(base, Ceiling(base, max)) <= MAX64
    ensures TopRung(base, Ceiling(base, max)) < 2 * Ceiling(base, max)
  {
  }

  lemma {:induction false} Pow2Monotone(m: nat, n: nat)
    requires m <= n
    ensures Pow2(m) <= Pow2(n)
    decreases n
  {
    if m < n { Pow2Monotone(m, n - 1); }
  }

  /** Gaps only ever lengthen as unacknowledged alerts pile up. */
  lemma LadderMonotone(base: int, max: int, m: nat, n: nat)
    requires base > 0 && m <= n
    ensures Ladder(base, max, m) <= Ladder(base, max, n)
  {
    if m <= 1 {
      LadderPositive(base, max, n);
    } else {
      Pow2Monotone(m - 1, n - 1);
      assert base * Pow2(m - 1) <= base * Pow2(n - 1);
    }
  }

  /** The total silence n consecutive repeats must be separated by. */
  function LadderSum(base: int, max: int, n: nat): int {
    if n == 0 then 0 else LadderSum(base, max, n - 1) + Ladder(base, max, n)
  }

  /** The documented ladder, rung by rung: the base gap, then twice the last gap, up to
      the larger of base and maximum. */
  lemma LadderSpelledOut(base: int, max: int, n: nat)
    requires base > 0
    ensures Ladder(base, max, 0) == Ladder(base, max, 1) == base
    ensures n >= 1 ==>
              var next, top := 2 * Ladder(base, max, n), if base <= max then max else base;
              Ladder(base, max, n + 1) == if next <= top then next else top
  {
    if n >= 1 {
      Doubled(base, n);
      var p := Pow2(n - 1);
      assert Pow2(n) == 2 * p;
      assert base * Pow2(n) == 2 * (base * p);
      if n == 1 { assert base * Pow2(0) == base; }
    }
  }

  /** With the shipped settings: five minutes, ten, twenty, and thirty from then on. */
  lemma ShippedGaps(n: nat)
    ensures Ladder(300_000_000_000, 1_800_000_000_000, n) ==
            if n <= 1 then 300_000_000_000 else if n == 2 then 600_000_000_000
            else if n == 3 then 1_200_000_000_000 else 1_800_000_000_000
  {
    LadderSpelledOut(300_000_000_000, 1_800_000_000_000, 1);
    LadderSpelledOut(300_000_000_000, 1_800_000_000_000, 2);
    if n >= 4 {
      ShippedGapsFrom(n);
    }
  }

  lemma {:induction false} ShippedGapsFrom(n: nat)
    requires n >= 4
    ensures Ladder(300_000_000_000, 1_800_000_000_000, n) == 1_800_000_000_000
  {
    LadderSpelledOut(300_000_000_000, 1_800_000_000_000, 1);
    LadderSpelledOut(300_000_000_000, 1_800_000_000_000, 2);
    LadderSpelledOut(300_000_000_000, 1_800_000_000_000, n - 1);
    if n == 4 {
      LadderSpelledOut(300_000_000_000, 1_800_000_000_000, 3);
    } else {
      ShippedGapsFrom(n - 1);
    }
  }
}
