/**
 * The experience and level arithmetic of the forum's gamification: the cost
 * of each level step, the experience a level needs in total, the level an
 * experience total earns, the experience still missing for the next level,
 * the colour band of a level and the reward of each daily task.
 */
module LevelSystem {
  import opened Common

  /** The highest level; it has no next level. */
  const MaxLevel := 70

  /** Experience needed to go from `level` to `level + 1`: 30 for the first
      step and 5 more for each step after it. The level-0 special case of the
      source agrees with the general formula. */
  function ExpForNextLevel(level: int): (r: int)
    ensures r == 30 + 5 * level
    ensures level >= 0 ==> r >= 30
  {
    if level == 0 then 30 else 30 + level * 5
  }

  /** Experience needed in total to reach `target` from level 1: the sum the
      loop of getTotalExpForLevel accumulates, one step cost per level below
      `target`. */
  function TotalExp(target: int): int
    decreases target
  {
    if target <= 1 then 0 else TotalExp(target - 1) + ExpForNextLevel(target - 2)
  }

  /** getTotalExpForLevel: the accumulating loop computes TotalExp. */
  method TotalExpForLevel(target: int) returns (total: int)
    ensures total == TotalExp(target)
    ensures target >= 1 ==> 2 * total == 60 * (target - 1) + 5 * (target - 1) * (target - 2)
  {
    total := 0;
    var level := 1;
    while level < target
      invariant 1 <= level <= if target >= 1 then target else 1
      invariant total == TotalExp(level)
    {
      total := total + ExpForNextLevel(level - 1);
      level := level + 1;
    }
    if target >= 1 {
      TotalExpClosedForm(target);
    }
  }

  /** Level 1 costs nothing, each further level adds the cost of the step
      below it, and the total has the closed form 30(n-1) + 5(n-1)(n-2)/2. */
  lemma {:induction false} TotalExpClosedForm(n: int)
    requires n >= 1
    ensures TotalExp(1) == 0
    ensures TotalExp(n + 1) == TotalExp(n) + ExpForNextLevel(n - 1)
    ensures 2 * TotalExp(n) == 60 * (n - 1) + 5 * (n - 1) * (n - 2)
    decreases n
  {
    if n > 1 {
      TotalExpClosedForm(n - 1);
      calc {
        2 * TotalExp(n);
        2 * TotalExp(n - 1) + 2 * ExpForNextLevel(n - 2);
        60 * (n - 2) + 5 * (n - 2) * (n - 3) + 2 * (30 + 5 * (n - 2));
        { assert 5 * (n - 2) * (n - 3) + 10 * (n - 2) == 5 * (n - 2) * (n - 1); }
        60 * (n - 1) + 5 * (n - 1) * (n - 2);
      }
    }
  }

  /** TotalExp strictly increases from level 1 on. */
  lemma {:induction false} TotalExpStrictlyIncreasing(m: int, n: int)
    requires 1 <= m < n
    ensures TotalExp(m) < TotalExp(n)
    decreases n - m
  {
    if m + 1 < n {
      TotalExpStrictlyIncreasing(m, n - 1);
    }
  }

  lemma TotalExpMonotone(m: int, n: int)
    requires 1 <= m <= n
    ensures TotalExp(m) <= TotalExp(n)
  {
    if m < n {
      TotalExpStrictlyIncreasing(m, n);
    }
  }

  /** The level reached by climbing from `level` while the next level's total
      is within `exp`, stopping at MaxLevel. */
  function LevelSearch(exp: int, level: int): int
    requires 1 <= level <= MaxLevel
    decreases MaxLevel - level
  {
    if level < MaxLevel && exp >= TotalExp(level + 1) then LevelSearch(exp, level + 1) else level
  }

  /** The level that `exp` experience earns (getLevelFromExp). */
  function LevelOf(exp: int): int
  {
    if exp < 30 then 1 else LevelSearch(exp, 1)
  }

  /** getLevelFromExp: the while loop subtracts each step cost from the
      remaining experience; it returns a level in 1..70 that brackets `exp`. */
  method LevelFromExp(exp: int) returns (level: int)
    ensures level == LevelOf(exp)
    ensures 1 <= level <= MaxLevel
    ensures exp < 30 ==> level == 1
    ensures exp >= 0 ==> TotalExp(level) <= exp
    ensures level < MaxLevel ==> exp < TotalExp(level + 1)
  {
    if exp < 30 {
      return 1;
    }
    level := 1;
    var currentExp := exp;
    var requiredExp := ExpForNextLevel(0);
    while currentExp >= requiredExp && level < MaxLevel
      invariant 1 <= level <= MaxLevel
      invariant currentExp == exp - TotalExp(level)
      invariant requiredExp == ExpForNextLevel(level - 1)
      invariant LevelSearch(exp, level) == LevelOf(exp)
      decreases MaxLevel - level
    {
      currentExp := currentExp - requiredExp;
      level := level + 1;
      requiredExp := ExpForNextLevel(level - 1);
    }
    level := if level < MaxLevel then level else MaxLevel;
    LevelBracket(exp);
  }

  lemma {:induction false} LevelSearchBracket(exp: int, level: int)
    requires 1 <= level <= MaxLevel
    requires TotalExp(level) <= exp
    ensures var r := LevelSearch(exp, level);
      level <= r <= MaxLevel && TotalExp(r) <= exp && (r < MaxLevel ==> exp < TotalExp(r + 1))
    decreases MaxLevel - level
  {
    if level < MaxLevel && exp >= TotalExp(level + 1) {
      LevelSearchBracket(exp, level + 1);
    }
  }

  /** The level of `exp` lies in 1..70, is 1 below 30 experience, and
      brackets `exp` between its own total and the next level's total. */
  lemma LevelBracket(exp: int)
    ensures 1 <= LevelOf(exp) <= MaxLevel
    ensures exp < 30 ==> LevelOf(exp) == 1
    ensures exp >= 0 ==> TotalExp(LevelOf(exp)) <= exp
    ensures LevelOf(exp) < MaxLevel ==> exp < TotalExp(LevelOf(exp) + 1)
  {
    if exp >= 30 {
      LevelSearchBracket(exp, 1);
    } else {
      assert TotalExp(2) == 30;
    }
  }

  /** The bracketing determines the level: a level in 1..70 whose total is
      within `exp` and whose successor's total is not is LevelOf(exp). */
  lemma LevelUnique(exp: int, level: int)
    requires exp >= 0
    requires 1 <= level <= MaxLevel
    requires TotalExp(level) <= exp
    requires level < MaxLevel ==> exp < TotalExp(level + 1)
    ensures LevelOf(exp) == level
  {
    LevelBracket(exp);
    var l := LevelOf(exp);
    NoTwoBrackets(exp, l, level);
  }

  lemma NoTwoBrackets(exp: int, l: int, level: int)
    requires 1 <= l <= MaxLevel && 1 <= level <= MaxLevel
    requires TotalExp(l) <= exp && (l < MaxLevel ==> exp < TotalExp(l + 1))
    requires TotalExp(level) <= exp && (level < MaxLevel ==> exp < TotalExp(level + 1))
    ensures l == level
  {
    BracketsOrdered(exp, exp, l, level);
    BracketsOrdered(exp, exp, level, l);
  }

  /** More experience never means a lower level. */
  lemma LevelMonotone(exp1: int, exp2: int)
    requires exp1 <= exp2
    ensures LevelOf(exp1) <= LevelOf(exp2)
  {
    LevelBracket(exp2);
    if exp1 >= 30 {
      LevelBracket(exp1);
      BracketsOrdered(exp1, exp2, LevelOf(exp1), LevelOf(exp2));
    }
  }

  /** A level whose total is within the smaller experience is at most a
      level that brackets the larger one. */
  lemma BracketsOrdered(exp1: int, exp2: int, l1: int, l2: int)
    requires exp1 <= exp2
    requires 1 <= l1 <= MaxLevel && 1 <= l2 <= MaxLevel
    requires TotalExp(l1) <= exp1
    requires l2 < MaxLevel ==> exp2 < TotalExp(l2 + 1)
    ensures l1 <= l2
  {
    if l2 < l1 {
      TotalExpMonotone(l2 + 1, l1);
    }
  }

  /** getExpToNextLevel: 0 at the top level, otherwise the experience still
      missing to the next level's total, which is always at least 1. */
  function ExpToNextLevel(exp: int): (r: int)
    ensures LevelOf(exp) >= MaxLevel ==> r == 0
    ensures LevelOf(exp) < MaxLevel ==> r == TotalExp(LevelOf(exp) + 1) - exp && r >= 1
  {
    var level := LevelOf(exp);
    if level >= MaxLevel then 0
    else
      var expForCurrentLevel := TotalExp(level);
      var expForNextLevel := TotalExp(level + 1);
      var currentLevelExp := exp - expForCurrentLevel;
      LevelBracket(exp);
      expForNextLevel - expForCurrentLevel - currentLevelExp
  }

  datatype RainbowColor = Red | Orange | Yellow | Green | Blue | Indigo | Violet

  /** getColorRange: each band of ten levels has its colour; everything above
      60 is violet. */
  function ColorRange(level: int): RainbowColor
  {
    if level <= 10 then Red
    else if level <= 20 then Orange
    else if level <= 30 then Yellow
    else if level <= 40 then Green
    else if level <= 50 then Blue
    else if level <= 60 then Indigo
    else Violet
  }

  const Bands: seq<RainbowColor> := [Red, Orange, Yellow, Green, Blue, Indigo, Violet]

  /** The colour of a level from 1 on is the band of its decade: levels
      10k+1..10k+10 share the k-th colour of the rainbow, capped at violet. */
  lemma ColorRangeByDecade(level: int)
    requires level >= 1
    ensures var k := (level - 1) / 10; ColorRange(level) == Bands[if k < 6 then k else 6]
  {
    var k := (level - 1) / 10;
    assert 10 * k <= level - 1 < 10 * k + 10;
    if k >= 6 {
      assert level > 60;
    }
  }

  /** The colour band getLevelColor starts from, or None at level 70 and
      above, where the source switches to a dynamic rainbow gradient. */
  function LevelColorRange(level: int): (r: Option<RainbowColor>)
    ensures r.None? <==> level >= MaxLevel
    ensures r.Some? ==> r.value == ColorRange(level)
  {
    if level >= MaxLevel then None else Some(ColorRange(level))
  }

  datatype TaskKind = PostTask | LikeTask | CommentTask | CheckinTask

  /** TASK_EXP: the experience each daily task rewards. */
  function TaskExp(task: TaskKind): nat
  {
    match task
    case PostTask => 30
    case LikeTask => 30
    case CommentTask => 30
    case CheckinTask => 30
  }

  /** Every daily task rewards exactly the cost of the first level step, so
      one task takes a new user from level 1 to level 2 and no further. */
  lemma OneTaskIsFirstLevel(task: TaskKind)
    ensures TaskExp(task) == ExpForNextLevel(0)
    ensures LevelOf(0) == 1 && LevelOf(TaskExp(task)) == 2
  {
    TotalExpClosedForm(2);
    TotalExpClosedForm(3);
    LevelUnique(TaskExp(task), 2);
  }
}
