/** A game and the consensus values computed from its bookmakers (`GameOdds` in
    nfl_confidence/odds.py): the home team's probability, the predicted winner and its
    probability, the spread of the bookmakers' opinions and how often they agree. */
module Games {
  import opened Wrappers
  import opened Bookmakers
  import opened Stats

  /** A validated game; team names are already converted, the commence time is an
      instant in seconds. Nothing checks that the bookmakers' outcome names are the
      game's two teams, nor that the bookmaker list is non-empty. */
  datatype GameOdds = GameOdds(
    id: string,
    homeTeam: string,
    awayTeam: string,
    commenceTime: int,
    bookmakers: seq<BookMakerOdds>)

  /** The market lists exactly the game's two (different) teams, in either order. */
  predicate MatchesTeams(b: BookMakerOdds, home: string, away: string)
  {
    && home != away
    && ((b.market.first.name == home && b.market.second.name == away)
        || (b.market.first.name == away && b.market.second.name == home))
  }

  /** The bookmaker's devigged probability for the home team, for a market that lists
      the game's two teams. */
  function DevigHomeProbability(b: BookMakerOdds, home: string, away: string): real
    requires MatchesTeams(b, home, away)
  {
    if b.market.first.name == home then NormalizedProbabilities(b).0
    else NormalizedProbabilities(b).1
  }

  /** One bookmaker's contribution to the home team's probability: its
      `win_probability` if it picked home, one minus it if it picked away, and one half
      if it has no winner or picked a name that is neither team. */
  function HomeOpinion(b: BookMakerOdds, home: string, away: string): (p: real)
    ensures 0.0 < p < 1.0
    ensures PredictedWinner(b) == Some(home) ==> p > 0.5
    ensures PredictedWinner(b) == Some(away) && away != home ==> p < 0.5
  {
    WinnerCarriesWinProbability(b);
    var w := PredictedWinner(b);
    if w == Some(home) then WinProbability(b)
    else if w == Some(away) then 1.0 - WinProbability(b)
    else 0.5
  }

  /** When the market lists the game's two teams, a bookmaker's opinion is exactly its
      devigged home probability, ties included; the one-half fallback only matters for
      markets whose names do not match. */
  lemma HomeOpinionIsDevigged(b: BookMakerOdds, home: string, away: string)
    requires MatchesTeams(b, home, away)
    ensures HomeOpinion(b, home, away) == DevigHomeProbability(b, home, away)
  {
    WinnerCarriesWinProbability(b);
    NoWinnerIffEvenMoney(b);
    var n := NormalizedProbabilities(b);
    if RawFirst(b) == RawSecond(b) {
      assert n.0 == 0.5 && n.1 == 0.5;
    }
  }

  function Opinions(g: GameOdds): (ps: seq<real>)
    ensures |ps| == |g.bookmakers|
    ensures forall i :: 0 <= i < |ps| ==> ps[i] == HomeOpinion(g.bookmakers[i], g.homeTeam, g.awayTeam)
  {
    seq(|g.bookmakers|, i requires 0 <= i < |g.bookmakers| =>
      HomeOpinion(g.bookmakers[i], g.homeTeam, g.awayTeam))
  }

  /** `home_team_win_prob`: the unweighted mean of the bookmakers' home opinions. It lies
      strictly between 0 and 1. An empty bookmaker list divides by zero in `odds.py`. */
  function HomeTeamWinProb(g: GameOdds): (p: real)
    requires |g.bookmakers| > 0
    ensures 0.0 < p < 1.0
  {
    MeanStrictBounds(Opinions(g), 0.0, 1.0);
    Mean(Opinions(g))
  }

  /** The home probability lies between the least and the most confident opinion. */
  lemma HomeTeamWinProbBetweenOpinions(g: GameOdds)
    requires |g.bookmakers| > 0
    ensures Min(Opinions(g)) <= HomeTeamWinProb(g) <= Max(Opinions(g))
  {
    MeanBounds(Opinions(g), Min(Opinions(g)), Max(Opinions(g)));
  }

  /** When every market lists the game's two teams, the home probability is the mean of
      the bookmakers' devigged home probabilities. */
  lemma HomeTeamWinProbIsDeviggedMean(g: GameOdds)
    requires |g.bookmakers| > 0
    requires forall i :: 0 <= i < |g.bookmakers| ==> MatchesTeams(g.bookmakers[i], g.homeTeam, g.awayTeam)
    ensures HomeTeamWinProb(g) == Mean(seq(|g.bookmakers|, i requires 0 <= i < |g.bookmakers| =>
      DevigHomeProbability(g.bookmakers[i], g.homeTeam, g.awayTeam)))
  {
    var devigged := seq(|g.bookmakers|, i requires 0 <= i < |g.bookmakers| =>
      DevigHomeProbability(g.bookmakers[i], g.homeTeam, g.awayTeam));
    forall i | 0 <= i < |g.bookmakers|
      ensures Opinions(g)[i] == devigged[i]
    {
      HomeOpinionIsDevigged(g.bookmakers[i], g.homeTeam, g.awayTeam);
    }
    assert Opinions(g) == devigged;
  }

  /** `away_team_win_prob`: the complement of the home probability. */
  function AwayTeamWinProb(g: GameOdds): (q: real)
    requires |g.bookmakers| > 0
    ensures 0.0 < q < 1.0
    ensures q + HomeTeamWinProb(g) == 1.0
  {
    1.0 - HomeTeamWinProb(g)
  }

  /** `predicted_winner` of a game: the home team exactly when its probability is at
      least one half (a tie goes to the home team), otherwise the away team. */
  function GamePredictedWinner(g: GameOdds): (w: string)
    requires |g.bookmakers| > 0
    ensures w == g.homeTeam || w == g.awayTeam
    ensures HomeTeamWinProb(g) >= 0.5 ==> w == g.homeTeam
    ensures HomeTeamWinProb(g) < 0.5 ==> w == g.awayTeam
  {
    if HomeTeamWinProb(g) >= AwayTeamWinProb(g) then g.homeTeam else g.awayTeam
  }

  /** `win_probability` of a game: the larger of the two team probabilities, which is the
      predicted winner's; it lies in [0.5, 1). */
  function GameWinProbability(g: GameOdds): (w: real)
    requires |g.bookmakers| > 0
    ensures 0.5 <= w < 1.0
    ensures w >= HomeTeamWinProb(g) && w >= AwayTeamWinProb(g)
    ensures w == HomeTeamWinProb(g) || w == AwayTeamWinProb(g)
    ensures g.homeTeam != g.awayTeam ==>
      w == (if GamePredictedWinner(g) == g.homeTeam then HomeTeamWinProb(g) else AwayTeamWinProb(g))
  {
    var home, away := HomeTeamWinProb(g), AwayTeamWinProb(g);
    if home >= away then home else away
  }

  /** The contribution of one bookmaker to `win_probability_variance`, as `odds.py`
      computes it: its `win_probability` if it picked the game's winner, one minus it if
      it picked the away team, and one half otherwise. A bookmaker that picked the home
      team while the game's winner is the away team lands in the one-half case. */
  function VarianceContribution(b: BookMakerOdds, winner: string, away: string): (c: real)
    ensures 0.0 < c < 1.0
    ensures PredictedWinner(b) == Some(winner) ==> c >= 0.5
  {
    var w := PredictedWinner(b);
    if w == Some(winner) then WinProbability(b)
    else if w == Some(away) then 1.0 - WinProbability(b)
    else 0.5
  }

  function Contributions(g: GameOdds): (cs: seq<real>)
    requires |g.bookmakers| > 0
    ensures |cs| == |g.bookmakers|
    ensures forall i :: 0 <= i < |cs| ==>
      cs[i] == VarianceContribution(g.bookmakers[i], GamePredictedWinner(g), g.awayTeam)
  {
    seq(|g.bookmakers|, i requires 0 <= i < |g.bookmakers| =>
      VarianceContribution(g.bookmakers[i], GamePredictedWinner(g), g.awayTeam))
  }

  /** `win_probability_variance`: the population variance of the contributions; never
      negative. */
  function WinProbabilityVariance(g: GameOdds): (v: real)
    requires |g.bookmakers| > 0
    ensures v >= 0.0
  {
    Variance(Contributions(g))
  }

  /** The variance is zero exactly when all bookmakers contribute the same value. */
  lemma WinProbabilityVarianceZeroIff(g: GameOdds)
    requires |g.bookmakers| > 0
    ensures WinProbabilityVariance(g) == 0.0 <==>
      forall i, j :: 0 <= i < |g.bookmakers| && 0 <= j < |g.bookmakers| ==>
        Contributions(g)[i] == Contributions(g)[j]
  {
    VarianceZeroIff(Contributions(g));
  }

  /** Whether each bookmaker picked the game's predicted winner. */
  function Agreements(g: GameOdds): (bs: seq<bool>)
    requires |g.bookmakers| > 0
    ensures |bs| == |g.bookmakers|
    ensures forall i :: 0 <= i < |bs| ==>
      (bs[i] <==> PredictedWinner(g.bookmakers[i]) == Some(GamePredictedWinner(g)))
  {
    seq(|g.bookmakers|, i requires 0 <= i < |g.bookmakers| =>
      PredictedWinner(g.bookmakers[i]) == Some(GamePredictedWinner(g)))
  }

  /** `oddsmaker_agreement`: the fraction of bookmakers that picked the game's winner. */
  function OddsmakerAgreement(g: GameOdds): (a: real)
    requires |g.bookmakers| > 0
    ensures 0.0 <= a <= 1.0
  {
    FractionBounds(Agreements(g));
    Fraction(Agreements(g))
  }

  /** The agreement is 1 exactly when every bookmaker picked the game's winner, and 0
      exactly when none did. */
  lemma OddsmakerAgreementExtremes(g: GameOdds)
    requires |g.bookmakers| > 0
    ensures OddsmakerAgreement(g) == 1.0 <==>
      forall i :: 0 <= i < |g.bookmakers| ==> PredictedWinner(g.bookmakers[i]) == Some(GamePredictedWinner(g))
    ensures OddsmakerAgreement(g) == 0.0 <==>
      forall i :: 0 <= i < |g.bookmakers| ==> PredictedWinner(g.bookmakers[i]) != Some(GamePredictedWinner(g))
  {
    FractionBounds(Agreements(g));
  }

  /** If every bookmaker picks the same team of the game, the game picks that team with
      a probability above one half, and the agreement is 1. */
  lemma UnanimousBookmakers(g: GameOdds, team: string)
    requires |g.bookmakers| > 0
    requires team == g.homeTeam || (team == g.awayTeam && g.awayTeam != g.homeTeam)
    requires forall i :: 0 <= i < |g.bookmakers| ==> PredictedWinner(g.bookmakers[i]) == Some(team)
    ensures GamePredictedWinner(g) == team
    ensures GameWinProbability(g) > 0.5
    ensures OddsmakerAgreement(g) == 1.0
  {
    var ps := Opinions(g);
    if team == g.homeTeam {
      MeanStrictBounds(ps, 0.5, 1.0);
    } else {
      MeanStrictBounds(ps, 0.0, 0.5);
    }
    OddsmakerAgreementExtremes(g);
  }

  /** The contribution the variance is meant to use: the bookmaker's probability for the
      game's winner, that is its `win_probability` if it picked the winner, one minus it
      if it picked the other team, and one half otherwise. */
  function WinnerContribution(b: BookMakerOdds, winner: string, home: string, away: string): (c: real)
    ensures 0.0 < c < 1.0
    ensures PredictedWinner(b) == Some(winner) ==> c >= 0.5
  {
    var loser := if winner == home then away else home;
    var w := PredictedWinner(b);
    if w == Some(winner) then WinProbability(b)
    else if w == Some(loser) then 1.0 - WinProbability(b)
    else 0.5
  }

  /** For a winner that is one of two different teams, the intended contribution is the
      bookmaker's home opinion read for the winner: the opinion itself for a home winner,
      its complement for an away winner. */
  lemma WinnerContributionIsOpinionForWinner(b: BookMakerOdds, winner: string, home: string, away: string)
    requires home != away
    requires winner == home || winner == away
    ensures WinnerContribution(b, winner, home, away) ==
      (if winner == home then HomeOpinion(b, home, away) else 1.0 - HomeOpinion(b, home, away))
  {
  }

  function WinnerContributions(g: GameOdds): (cs: seq<real>)
    requires |g.bookmakers| > 0
    ensures |cs| == |g.bookmakers|
    ensures forall i :: 0 <= i < |cs| ==>
      cs[i] == WinnerContribution(g.bookmakers[i], GamePredictedWinner(g), g.homeTeam, g.awayTeam)
  {
    seq(|g.bookmakers|, i requires 0 <= i < |g.bookmakers| =>
      WinnerContribution(g.bookmakers[i], GamePredictedWinner(g), g.homeTeam, g.awayTeam))
  }

  /** The variance as intended: over the bookmakers' probabilities for the game's winner.
      It is never negative. */
  function CorrectedWinProbabilityVariance(g: GameOdds): (v: real)
    requires |g.bookmakers| > 0
    ensures v >= 0.0
  {
    Variance(WinnerContributions(g))
  }

  /** For two different teams the intended variance does not depend on which team won:
      it is the variance of the home opinions that the home probability averages. */
  lemma CorrectedVarianceIsOpinionVariance(g: GameOdds)
    requires |g.bookmakers| > 0
    requires g.homeTeam != g.awayTeam
    ensures CorrectedWinProbabilityVariance(g) == Variance(Opinions(g))
  {
    var cs, ps := WinnerContributions(g), Opinions(g);
    var winner := GamePredictedWinner(g);
    forall i | 0 <= i < |cs|
      ensures cs[i] == (if winner == g.homeTeam then ps[i] else Complement(ps)[i])
    {
      WinnerContributionIsOpinionForWinner(g.bookmakers[i], winner, g.homeTeam, g.awayTeam);
    }
    if winner == g.homeTeam {
      assert cs == ps;
    } else {
      assert cs == Complement(ps);
      VarianceOfComplement(ps);
    }
  }

  /** The variance `odds.py` computes and the intended one part ways exactly in the case its
      branch order misses: the game's winner is the away team and the bookmaker picked
      the home team. `odds.py` then counts one half instead of the bookmaker's
      probability for the away team, which is below one half. */
  lemma VarianceContributionMissesAwayWinner(b: BookMakerOdds, home: string, away: string)
    requires home != away
    requires PredictedWinner(b) == Some(home)
    ensures VarianceContribution(b, away, away) == 0.5
    ensures WinnerContribution(b, away, home, away) < 0.5
  {
    WinnerCarriesWinProbability(b);
  }

  /** Outside that case the two contributions agree. */
  lemma VarianceContributionOtherwiseAgrees(b: BookMakerOdds, winner: string, home: string, away: string)
    requires home != away
    requires winner == home || winner == away
    requires !(winner == away && PredictedWinner(b) == Some(home))
    ensures VarianceContribution(b, winner, away) == WinnerContribution(b, winner, home, away)
  {
  }

  /** A game that reaches the missed case: one bookmaker prices home -120 and away +100
      and so picks home (devigged 12/23); another prices home +300 and away -400 and picks
      away (devigged 16/21). The home probability is 367/966, so the away team wins, and
      the first bookmaker contributes 1/2 where its probability for the away team is 11/23. */
  lemma VarianceQuirkExample(home: string, away: string, g: GameOdds)
    requires home != away
    requires g == GameOdds("game", home, away, 0, [
      BookMakerOdds("first", 0, HeadToHeadOdds(0, Outcome(home, -120), Outcome(away, 100))),
      BookMakerOdds("second", 0, HeadToHeadOdds(0, Outcome(home, 300), Outcome(away, -400)))])
    ensures PredictedWinner(g.bookmakers[0]) == Some(home)
    ensures GamePredictedWinner(g) == away
    ensures Contributions(g)[0] == 0.5
    ensures WinnerContributions(g)[0] == 11.0 / 23.0
  {
    var b0, b1 := g.bookmakers[0], g.bookmakers[1];
    assert RawFirst(b0) == 6.0 / 11.0 && RawSecond(b0) == 0.5;
    assert RawFirst(b1) == 0.25 && RawSecond(b1) == 0.8;
    assert NormalizedProbabilities(b0) == (12.0 / 23.0, 11.0 / 23.0);
    assert NormalizedProbabilities(b1) == (5.0 / 21.0, 16.0 / 21.0);
    assert PredictedWinner(b1) == Some(away);
    var ps := Opinions(g);
    assert ps[0] == 12.0 / 23.0 && ps[1] == 5.0 / 21.0;
    assert Sum(ps) == 12.0 / 23.0 + 5.0 / 21.0 by {
      assert |ps| == 2;
      assert Sum(ps[1..][1..]) == 0.0;
      assert Sum(ps[1..]) == ps[1];
    }
    assert HomeTeamWinProb(g) == 367.0 / 966.0;
  }
}
