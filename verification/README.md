# nfl_confidence in Dafny

A model of the odds-to-confidence pipeline of `nfl_confidence`, a helper for NFL
confidence pools. Bookmakers quote American moneyline prices for the two teams of each
game. Each price is turned into an implied probability, and each bookmaker's pair is
devigged (normalised to sum to one). The bookmakers' opinions are averaged into a home
probability, a predicted winner and its probability, and two diagnostics: an agreement
rate and a variance. This week's games are then selected by commence time. Finally the
win probabilities are turned into confidence ranks, shifted so that the most confident
pick gets the pool's maximum score. The older `rank_games.py` script is modelled too. It
has its own pick rule for spreads or probabilities and a stable sort for handing out
confidences.

Probabilities, means and variances are exact `real`s. Prices are `int`s. Instants are
whole seconds. The current instant and its US/Eastern weekday are inputs.

Modules, one per file:

- `Wrappers` (wrappers.dfy): `Option` and `Result`.
- `Moneyline` (moneyline.dfy): `convert_odds_to_probs`.
- `TeamNames` (team_names.dfy): `convert_team_name`, `add_timezone` and the team-name
  validators.
- `Bookmakers` (bookmakers.dfy): `Outcome`, `HeadToHeadOdds`, `BookMakerOdds` and their
  computed fields.
- `Stats` (stats.dfy): sum, mean, population variance and the fraction of true entries
  (`np.mean`/`np.var`).
- `Games` (games.dfy): `GameOdds` and its computed fields.
- `WeekWindow` (week_window.dfy): `filter_games_by_date` and `get_this_weeks_games`.
- `Ranks` (ranks.dfy): `get_ranks` and the maximum-confidence shift the scripts apply.
- `RankGames` (rank_games.dfy): the pick and ranking loop of `rank_games.py`.

## Model

| member | source | states |
|---|---|---|
| Moneyline.ConvertOddsToProbs | nfl_confidence/odds.py:276-279 | The implied probability lies in (0, 1] and is 1 exactly for price 0, which is not rejected. |
| Moneyline.FairBet | nfl_confidence/odds.py:276-279 | The implied probability is the break-even one: p times the payout equals (1 - p) times the stake, for both favourites and underdogs. |
| Moneyline.ProbabilityDecreasingInPrice | nfl_confidence/odds.py:276-279 | Within one branch (both prices negative, or both non-negative) a larger price gives a strictly smaller probability. |
| Moneyline.NotMonotoneAcrossZero | nfl_confidence/odds.py:276-279 | Across the branch boundary the order breaks: -1 gives less than 0 does. |
| Moneyline.FavouriteAtLeastHalf | nfl_confidence/odds.py:276-277 | A price of -100 or below gives at least one half. |
| Moneyline.UnderdogAtMostHalf | nfl_confidence/odds.py:278-279 | A price of +100 or above gives at most one half. |
| Moneyline.SameProbabilityIff | nfl_confidence/odds.py:276-279 | Two prices give the same probability exactly when they are equal or their product is -10000. |
| Moneyline.SameProbabilityOrdered | nfl_confidence/odds.py:276-279 | For two different prices a < b, the probabilities tie exactly when a * b == -10000. |
| Moneyline.OppositeSignsTie | nfl_confidence/odds.py:276-279 | A negative price and a non-negative one give the same probability exactly when their product is -10000. |
| TeamNames.ReplaceChar | nfl_confidence/odds.py:37 | `str.replace` with a one-character pattern: the pattern is gone when the replacement lacks it, and a string without the pattern is unchanged. |
| TeamNames.ReplaceCharSingle | nfl_confidence/odds.py:37 | On a single character, the pattern becomes the replacement and any other character is kept. |
| TeamNames.ReplaceCharConcat | nfl_confidence/odds.py:37 | Replacement distributes over concatenation; with the single-character case, each occurrence becomes the replacement and every other character is kept, in order. |
| TeamNames.ReplaceCharLength | nfl_confidence/odds.py:37 | Each occurrence of the pattern changes the length by the replacement's length minus one. |
| TeamNames.ReplaceCharPointwise | nfl_confidence/odds.py:37 | Replacing one character by one character keeps the length and rewrites exactly the matching positions. |
| TeamNames.ConvertTeamName | nfl_confidence/odds.py:28-37 | The result has the input's length and no space or upper-case letter; each position is the input's character lower-cased, with a space turned into a hyphen. |
| TeamNames.ConvertTeamNameFixedPoints | nfl_confidence/odds.py:28-37 | Conversion leaves a name unchanged exactly when the name is already canonical. |
| TeamNames.ConvertTeamNameIdempotent | nfl_confidence/odds.py:28-37 | Converting twice equals converting once. |
| TeamNames.ConvertTeamNameConcat | nfl_confidence/odds.py:28-37 | Conversion distributes over concatenation. |
| TeamNames.ConvertTeamNameExample | nfl_confidence/odds.py:28-37 | "New Orleans Saints" becomes "new-orleans-saints", the key the home team of the first test game is checked against. |
| TeamNames.AddTimezone | nfl_confidence/odds.py:40-49 | The result has no `Z`, grows by five characters per `Z`, and equals the input when it has no `Z`. |
| TeamNames.AddTimezoneSingle | nfl_confidence/odds.py:40-49 | A lone `Z` becomes `+00:00`; any other character is kept. |
| TeamNames.AddTimezoneConcat | nfl_confidence/odds.py:40-49 | The parts of a timestamp are rewritten independently and joined in order, so each `Z` becomes `+00:00` in place. |
| TeamNames.AddTimezoneFixedPoints | nfl_confidence/odds.py:40-49 | A timestamp is left unchanged exactly when it has no `Z`. |
| TeamNames.AddTimezoneIdempotent | nfl_confidence/odds.py:40-49 | Adding the time zone twice equals adding it once. |
| TeamNames.ParseTeamName | nfl_confidence/odds.py:57-73 | A raw name is accepted exactly when its converted form is in the registry; the accepted value is the converted name `convert_team_name(raw)`, which is registered and canonical. |
| TeamNames.ParseTeamNameStable | nfl_confidence/odds.py:57-73 | Validating the converted form of a name gives the same answer as validating the name, and validating an accepted name accepts it unchanged. |
| Bookmakers.RawWinProbability | nfl_confidence/odds.py:65-68 | An outcome's raw probability lies in (0, 1]. |
| Bookmakers.NormalizedProbabilities | nfl_confidence/odds.py:90-91 | The normalised pair sums to one, both parts lie strictly between 0 and 1, and their ratio is the raw probabilities' ratio. |
| Bookmakers.NormalizationUnique | nfl_confidence/odds.py:90-91 | Any pair that sums to one and keeps the raw ratio is the normalised pair. |
| Bookmakers.WinProbability | nfl_confidence/odds.py:87-92 | A bookmaker's win probability is one of the normalised pair, at least both of them, and lies in [0.5, 1). |
| Bookmakers.PredictedWinner | nfl_confidence/odds.py:94-104 | No winner exactly on a raw tie; otherwise the outcome with the larger raw probability. |
| Bookmakers.WinnerCarriesWinProbability | nfl_confidence/odds.py:87-104 | The outcome with the larger raw probability also has the larger normalised probability, so the predicted winner's share is the win probability. |
| Bookmakers.NoWinnerIffEvenMoney | nfl_confidence/odds.py:87-104 | A bookmaker has no winner exactly when its win probability is one half. |
| Bookmakers.NoWinnerIffTiedPrices | nfl_confidence/odds.py:97-101 | A bookmaker has no winner exactly when its prices are equal or multiply to -10000. |
| Stats.MeanBounds | nfl_confidence/odds.py:126 | A mean of terms in [lo, hi] lies in [lo, hi] and reaches an end only when every term equals it. |
| Stats.MeanStrictBounds | nfl_confidence/odds.py:126 | A mean of terms strictly inside (lo, hi) lies strictly inside. |
| Stats.Variance | nfl_confidence/odds.py:158 | `np.var` is never negative. |
| Stats.VarianceZeroIff | nfl_confidence/odds.py:158 | The population variance is zero exactly when all terms are equal. |
| Stats.FractionBounds | nfl_confidence/odds.py:163-166 | `np.mean` of booleans lies in [0, 1]; it is 1 exactly when all are true and 0 exactly when none is. |
| Stats.VarianceOfComplement | nfl_confidence/odds.py:148-158 | Reading every term as one minus it leaves the variance unchanged. |
| Games.HomeOpinion | nfl_confidence/odds.py:119-125 | One bookmaker's home opinion lies in (0, 1); it is above one half when the bookmaker picked home and below when it picked away. |
| Games.HomeOpinionIsDevigged | nfl_confidence/odds.py:119-125 | When the market names the game's two teams, the opinion is the bookmaker's devigged home probability, raw ties included. |
| Games.HomeTeamWinProb | nfl_confidence/odds.py:115-126 | The home probability lies strictly between 0 and 1. |
| Games.HomeTeamWinProbBetweenOpinions | nfl_confidence/odds.py:115-126 | The home probability lies between the smallest and the largest bookmaker opinion. |
| Games.HomeTeamWinProbIsDeviggedMean | nfl_confidence/odds.py:115-126 | When every market names the game's teams, the home probability is the unweighted mean of the devigged home probabilities. |
| Games.AwayTeamWinProb | nfl_confidence/odds.py:128-131 | The away probability lies in (0, 1) and the two probabilities sum to one. |
| Games.GamePredictedWinner | nfl_confidence/odds.py:133-139 | The game's winner is one of its teams: home exactly when the home probability is at least one half. |
| Games.GameWinProbability | nfl_confidence/odds.py:141-144 | The win probability lies in [0.5, 1), is the larger team probability, and is the predicted winner's probability. |
| Games.VarianceContribution | nfl_confidence/odds.py:149-157 | A contribution lies in (0, 1), and is at least one half for a bookmaker that picked the game's winner. |
| Games.WinProbabilityVariance | nfl_confidence/odds.py:146-158 | The variance is never negative. |
| Games.WinProbabilityVarianceZeroIff | nfl_confidence/odds.py:146-158 | The variance is zero exactly when all contributions are equal. |
| Games.OddsmakerAgreement | nfl_confidence/odds.py:160-166 | The agreement lies in [0, 1]. |
| Games.OddsmakerAgreementExtremes | nfl_confidence/odds.py:160-166 | The agreement is 1 exactly when every bookmaker picked the game's winner, and 0 exactly when none did. |
| Games.UnanimousBookmakers | nfl_confidence/odds.py:115-166 | If every bookmaker picks the same team, the game picks it with probability above one half and the agreement is 1. |
| Games.WinnerContribution | nfl_confidence/odds.py:149-157 | The intended contribution lies in (0, 1) and is at least one half for a bookmaker that picked the winner. |
| Games.WinnerContributionIsOpinionForWinner | nfl_confidence/odds.py:149-157 | The intended contribution is the bookmaker's home opinion read for the winner: itself for a home winner, its complement for an away winner. |
| Games.CorrectedWinProbabilityVariance | nfl_confidence/odds.py:146-158 | The intended variance is never negative. |
| Games.CorrectedVarianceIsOpinionVariance | nfl_confidence/odds.py:146-158 | The intended variance equals the variance of the home opinions, whichever team won. |
| Games.VarianceContributionMissesAwayWinner | nfl_confidence/odds.py:151-156 | With an away winner, a bookmaker that picked home contributes one half as written but less than one half as intended. |
| Games.VarianceContributionOtherwiseAgrees | nfl_confidence/odds.py:151-156 | In every other case the written and intended contributions agree. |
| Games.VarianceQuirkExample | nfl_confidence/odds.py:151-156 | A concrete two-bookmaker game in which the written contribution is 1/2 and the intended one is 11/23. |
| WeekWindow.FilterGamesByDate | nfl_confidence/odds.py:219-234 | The result holds exactly the input games with after < start < before, both bounds strict, once per matching entry, in input order. |
| WeekWindow.FilterTwice | nfl_confidence/odds.py:219-234 | Filtering twice equals filtering once by the intersection of the two windows. |
| WeekWindow.DaysTilTuesday | nfl_confidence/odds.py:247-255 | The offset lies in 1..7, lands on a Tuesday, and is the least positive offset that does. |
| WeekWindow.GetThisWeeksGames | nfl_confidence/odds.py:237-263 | Only games after now and before now plus the offset are kept; all of those are kept, including every game in the next 24 hours; nothing a week or more ahead is kept. |
| WeekWindow.DaysTilTuesdayExamples | nfl_confidence/odds.py:247-255 | The offset is 7 on a Tuesday, 6 on a Wednesday, 4 on a Friday and 1 on a Monday. |
| Ranks.PositionsArePermutation | nfl_confidence/utils.py:19 | The double-argsort positions are a permutation of 0..n-1, and a smaller value has a smaller position. |
| Ranks.GetRanks | nfl_confidence/utils.py:6-19 | The ranks are a permutation of offset..offset+n-1, with offset 0 when zero-indexed and 1 otherwise; a smaller value gets a smaller rank. |
| Ranks.GetRanksOfDistinct | nfl_confidence/utils.py:19 | For distinct values, a rank is the offset plus the number of smaller values. |
| Ranks.GetRanksExample | nfl_confidence/utils.py:7 | [3, 7, 9, 1] ranks as [2, 3, 4, 1]. |
| Ranks.ShiftRanks | scripts/print_confidence.py:59-60 | Every rank moves by the same amount; afterwards the largest equals the maximum confidence and none exceeds it. |
| Ranks.ConfidenceScores | scripts/print_confidence.py:57-60 | The scores are exactly max-n+1..max, each used once, and a larger win probability never scores lower. |
| Ranks.ShiftForgetsOffset | scripts/print_confidence.py:58-60 | After the shift, zero-indexed and one-indexed ranks give the same scores. |
| Ranks.ConfidenceScoresExample | scripts/print_confidence.py:57-60 | [3, 7, 9, 1] scores [2, 3, 4, 1] with a ceiling of 4 and [14, 15, 16, 13] with a ceiling of 16. |
| RankGames.ParseSortField | rank_games.py:17-26 | "spread" and "prob" are accepted and name the field read back; anything else fails with "Unsupported sort field: " and the input. |
| RankGames.ParseFieldName | rank_games.py:17-26 | Reading back a field's name gives the field. |
| RankGames.PickGame | rank_games.py:17-34 | The second team's value is inv_val minus the first's. Spread picks the first team exactly when its value is lower, prob exactly when higher, so ties go to the second team. The recorded value is the picked side's: at most both values and at most 0 for spread, at least both and at least 0.5 for prob. |
| RankGames.PickThreshold | rank_games.py:17-34 | Spread picks the first team exactly when its value is below 0; prob exactly when above 0.5. |
| RankGames.PickSymmetric | rank_games.py:17-34 | Listing the teams the other way round picks the same team with the same value, unless the two values tie. |
| RankGames.Confidences | rank_games.py:35-39 | Confidences are exactly 1..n, each used once; a larger sort key gets a larger confidence, and of equal keys the later one gets the larger. |
| RankGames.Rank | rank_games.py:27-39 | Every game keeps its record and gets its pick; the confidences are those of the stable sort on the picked values, descending for spread. |
| RankGames.RankConfidences | rank_games.py:35-39 | Confidences are exactly 1..n, each once; a higher prob, or a lower spread, gets a higher confidence; of two equal values the later game gets the higher confidence. |
| RankGames.RankGames | rank_games.py:14-39 | An unsupported sort field is an error whatever the games; otherwise every game is picked and ranked. |
| RankGames.ProbConfidenceIsGetRanks | rank_games.py:35-39 | In prob mode the confidences are the one-based `get_ranks` of the picked probabilities, with equal probabilities ordered by position as the model's `get_ranks` orders them. |
| RankGames.ProbConfidenceOfDistinct | rank_games.py:35-39 | In prob mode, with pairwise distinct picked probabilities, a game's confidence is one plus the number of games with a smaller picked probability, whatever the tie order. |

## Left out

- HTTP and JSON: `get_the_odds_json` and `parse_the_odds_json` are I/O. Games, bookmakers and outcomes are given as validated records.
- The team registry: `get_valid_team_names` reads a file. `TeamNames.ParseTeamName` takes the registry as a set of names.
- The `h2h` market key and the validators' length checks (exactly two outcomes, exactly one market) are built into the datatypes.
- `TeamNames.ConvertTeamName`: `str.lower` is modelled for ASCII letters only. Python's Unicode case mapping is not modelled.
- The clock and pytz: `datetime.now` in US/Eastern becomes the inputs `now` (seconds) and `today` (its weekday). Aware datetimes compare as instants, and `timedelta(days=d)` adds exactly `d * 86400` seconds, so the window is measured in seconds.
- `filter_games_by_date`'s defaults `datetime.min` and `datetime.max` are not modelled. Callers pass both bounds.
- Floating point: probabilities, means and variances are exact reals. The tests' float tolerances and exact variance constant are not reproduced.
- `Games.HomeTeamWinProb`: it requires a non-empty bookmaker list. `home_team_win_prob` divides by zero on an empty list (odds.py:126), and nothing validates the list's length. The same precondition carries over to `AwayTeamWinProb`, `GamePredictedWinner` and `GameWinProbability`, which read it.
- `Games.WinProbabilityVariance`, `Games.OddsmakerAgreement` and `Games.CorrectedWinProbabilityVariance` also require a non-empty bookmaker list, though on an empty list odds.py:149-158 and 163-166 never read `predicted_winner` and raise nothing: `np.var([])` and `np.mean([])` return NaN. The model has no NaN, so that result is not modelled.
- `Ranks.ShiftRanks` and `Ranks.ConfidenceScores` require a non-empty list. On a week with no games, `max(confidence_ranks)` at scripts/print_confidence.py:59 raises `ValueError`; that error is not modelled.
- `Ranks.GetRanks`: NumPy's default argsort does not promise an order for equal values. The model sorts equal values by position. The contracts of `Ranks.GetRanks`, `Ranks.ShiftRanks` and `Ranks.ConfidenceScores` state only facts that hold for every tie order. Two members do depend on the position order: `Ranks.ShiftForgetsOffset` compares two calls on the same values, and `RankGames.ProbConfidenceIsGetRanks` equates `get_ranks` with `rank_games.py`'s stable sort on tied probabilities; `RankGames.ProbConfidenceOfDistinct` states the tie-independent part.
- Bookmakers are averaged without weights (odds.py:126).
- A raw tie gives no bookmaker winner, `None` (odds.py:99-101).
- A price of 0 is accepted and gives probability 1 (odds.py:278-279).
- A market whose outcome names match neither team counts as one half (odds.py:124-125).
- `rank_games.py`: reading the input file, the `.json` extension check, printing and writing the output are I/O. Command-line parsing is reduced to the sort-field string.
- Scraping (`nfl_confidence/html_parsers.py` and its package), `update_odds.py`, settings loading and the other scripts are I/O. Only the scripts' confidence shift is modelled.

## Findings

| source | as written | input that shows it | evidently intended | confidence | as-written member | corrected member |
|---|---|---|---|---|---|---|
| nfl_confidence/odds.py:151-156 | The first branch tests the game's winner, but the second tests the away team. When the away team wins, a bookmaker that picked home matches neither branch and contributes 0.5. | Home/away prices -120/+100 and +300/-400: the home probability is 367/966, so away wins. The first bookmaker contributes 1/2, where its probability for the away team is 11/23. | Each bookmaker contributes its probability for the game's winner. Then the variance is that of the home opinions. | not executed | Games.VarianceContribution, Games.VarianceQuirkExample, Games.VarianceContributionMissesAwayWinner | Games.WinnerContribution, Games.CorrectedVarianceIsOpinionVariance |
