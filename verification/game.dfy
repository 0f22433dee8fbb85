/** The round resolver: two dice against a bet on "below seven" or "above
    seven", paying 1:1. The dice are parameters; where they come from (a PRNG)
    is not part of this model. */
module Game {
  import opened GoInt
  import Constants

  /** One face of a six-sided die. */
  type Die = d: int | 1 <= d <= 6 witness 1

  datatype Verdict = Win | Lose

  /** The outcome as it appears on the wire. */
  function VerdictName(v: Verdict): string {
    match v
    case Win => Constants.OutcomeWin
    case Lose => Constants.OutcomeLose
  }

  datatype GameResult = GameResult(die1: Die, die2: Die, sum: int, outcome: Verdict, winnings: Int64)

  datatype Error = InvalidBetType(betType: string)

  datatype Result = Ok(round: GameResult) | Err(error: Error)

  /** The bet types the resolver accepts. */
  predicate KnownBetType(betType: string) {
    betType == Constants.BetTypeLt7 || betType == Constants.BetTypeGt7
  }

  /** The reference rule: the bet's prediction about the sum holds. Seven
      satisfies neither prediction. */
  predicate Predicts(betType: string, sum: int) {
    || (betType == Constants.BetTypeLt7 && sum < 7)
    || (betType == Constants.BetTypeGt7 && sum > 7)
  }

  /** Resolve one round with the given dice. */
  function PlayRound(betType: string, betAmount: Int64, die1: Die, die2: Die): (r: Result)
    ensures r.Err? <==> !KnownBetType(betType)
    ensures r.Err? ==> r.error == InvalidBetType(betType)
    ensures r.Ok? ==> r.round.die1 == die1 && r.round.die2 == die2
    ensures r.Ok? ==> r.round.sum == die1 + die2 && 2 <= r.round.sum <= 12
    ensures r.Ok? && die1 + die2 == 7 ==> r.round.outcome == Lose && r.round.winnings == 0
    ensures r.Ok? && die1 + die2 < 7 ==> (r.round.outcome == Win <==> betType == Constants.BetTypeLt7)
    ensures r.Ok? && die1 + die2 > 7 ==> (r.round.outcome == Win <==> betType == Constants.BetTypeGt7)
    ensures r.Ok? ==> (r.round.outcome == Win ==> r.round.winnings == betAmount)
    ensures r.Ok? ==> (r.round.outcome == Lose ==> r.round.winnings == 0)
  {
    if !KnownBetType(betType) then Err(InvalidBetType(betType))
    else
      var sum := die1 + die2;
      if sum == 7 then Ok(GameResult(die1, die2, sum, Lose, 0))
      else if sum < 7 then
        if betType == Constants.BetTypeLt7 then Ok(GameResult(die1, die2, sum, Win, betAmount))
        else Ok(GameResult(die1, die2, sum, Lose, 0))
      else
        if betType == Constants.BetTypeGt7 then Ok(GameResult(die1, die2, sum, Win, betAmount))
        else Ok(GameResult(die1, die2, sum, Lose, 0))
  }

  /** The resolver agrees with the reference rule: a known bet wins exactly
      when its prediction about the sum holds, and a win pays the stake. */
  lemma PlayRoundFollowsRule(betType: string, betAmount: Int64, die1: Die, die2: Die)
    requires KnownBetType(betType)
    ensures PlayRound(betType, betAmount, die1, die2).Ok?
    ensures var g := PlayRound(betType, betAmount, die1, die2).round;
            (g.outcome == Win <==> Predicts(betType, die1 + die2))
            && g.winnings == (if Predicts(betType, die1 + die2) then betAmount else 0)
  {
  }

  /** The two bets are mirror images: turning both dice over (d becomes 7 - d)
      turns every winning roll for one bet into a winning roll for the other. */
  lemma MirrorDice(betAmount: Int64, die1: Die, die2: Die)
    ensures PlayRound(Constants.BetTypeLt7, betAmount, die1, die2).round.outcome
         == PlayRound(Constants.BetTypeGt7, betAmount, 7 - die1, 7 - die2).round.outcome
  {
  }

  /** Net winnings never exceed the stake and are never negative for a
      non-negative stake. */
  lemma WinningsBounded(betType: string, betAmount: Int64, die1: Die, die2: Die)
    requires betAmount >= 0 && PlayRound(betType, betAmount, die1, die2).Ok?
    ensures 0 <= PlayRound(betType, betAmount, die1, die2).round.winnings <= betAmount
  {
  }
}
