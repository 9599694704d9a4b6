/** Goal arithmetic of the wolf kill counter: the rounding of a legacy kill
    count up to a multiple of the base goal. */
module Goals {

  /** The first personal goal of a new player, and the rounding unit. */
  const DefaultGoal: int := 50

  /** C#'s integer division, which truncates toward zero (Dafny's `/` is
      Euclidean and differs for a negative dividend). */
  function TruncDiv(a: int, b: int): (q: int)
    requires b > 0
    ensures a >= 0 ==> q * b <= a < q * b + b
    ensures a < 0 ==> q * b - b < a <= q * b
  {
    if a >= 0 then a / b else -((-a) / b)
  }

  /** `CalculateGoal`: rounds a kill count up to a multiple of 50 by
      `((kills + 49) / 50) * 50` with truncating division. The result is the
      smallest multiple of 50 that is at least `kills`, so 0 maps to 0 and an
      exact multiple of 50 maps to itself. */
  function CalculateGoal(kills: int): (goal: int)
    ensures goal % DefaultGoal == 0
    ensures kills >= 0 ==> kills <= goal < kills + DefaultGoal
    ensures kills >= 0 ==> (goal == kills <==> kills % DefaultGoal == 0)
    ensures kills < 0 ==> goal <= 0
  {
    TruncDiv(kills + DefaultGoal - 1, DefaultGoal) * DefaultGoal
  }

  /** No multiple of 50 that is at least `kills` lies below `CalculateGoal(kills)`. */
  lemma CalculateGoalIsLeast(kills: int, m: int)
    requires kills >= 0
    requires m % DefaultGoal == 0 && kills <= m
    ensures CalculateGoal(kills) <= m
  {
  }

  /** The boundary cases: nothing killed rounds to no goal at all, one kill to
      the first goal, and a count already on a multiple of 50 stays put. */
  lemma CalculateGoalBoundaries()
    ensures CalculateGoal(0) == 0
    ensures CalculateGoal(1) == 50
    ensures CalculateGoal(50) == 50
    ensures CalculateGoal(51) == 100
  {
  }
}
