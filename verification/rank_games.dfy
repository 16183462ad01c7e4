/** The older ranking script (`rank_games.py`): every game carries one number for its
    first team, a point spread or a win probability; the second team gets the inverse,
    the game is picked for the better side, and confidences 1..n are handed out in the
    order of a stable sort on the picked side's number. */
module RankGames {
  import opened Wrappers
  import Ranks

  /** The two supported values of `--sort_field`. */
  datatype SortField = Spread | Prob

  /** The name the command line uses for a sort field. */
  function FieldName(f: SortField): string
  {
    match f
    case Spread => "spread"
    case Prob => "prob"
  }

  /** Reading `--sort_field`: "spread" and "prob" are accepted and anything else is the
      `ValueError` "Unsupported sort field: ...". */
  function ParseSortField(s: string): (r: Result<SortField>)
    ensures r.Success? <==> s == "spread" || s == "prob"
    ensures r.Success? ==> FieldName(r.value) == s
    ensures r.Failure? ==> r.error == "Unsupported sort field: " + s
  {
    if s == "spread" then Success(Spread)
    else if s == "prob" then Success(Prob)
    else Failure("Unsupported sort field: " + s)
  }

  /** Naming a field and reading the name back gives the field. */
  lemma ParseFieldName(f: SortField)
    ensures ParseSortField(FieldName(f)) == Success(f)
  {
  }

  /** `inv_val`: the second team's value is this minus the first team's. */
  function InverseValue(f: SortField): real
  {
    match f
    case Spread => 0.0
    case Prob => 1.0
  }

  /** One input record: the two team names and the first team's value. */
  datatype RawGame = RawGame(teamA: string, teamB: string, teamAValue: real)

  /** What the loop adds to a record: the second team's value, which side was picked,
      and the picked side's value under the sort field's name. */
  datatype Pick = Pick(teamBValue: real, pickedA: bool, team: string, value: real)

  /** The pick for one game. A spread is better when lower and a probability when higher;
      on equal values the second team is picked. The picked value is the better of the
      two, so a spread pick is never positive and a probability pick is at least a half. */
  function PickGame(g: RawGame, f: SortField): (p: Pick)
    ensures p.teamBValue == InverseValue(f) - g.teamAValue
    ensures p.team == (if p.pickedA then g.teamA else g.teamB)
    ensures p.value == (if p.pickedA then g.teamAValue else p.teamBValue)
    ensures f == Spread ==> (p.pickedA <==> g.teamAValue < p.teamBValue)
    ensures f == Prob ==> (p.pickedA <==> g.teamAValue > p.teamBValue)
    ensures f == Spread ==> p.value <= g.teamAValue && p.value <= p.teamBValue && p.value <= 0.0
    ensures f == Prob ==> p.value >= g.teamAValue && p.value >= p.teamBValue && p.value >= 0.5
  {
    var a := g.teamAValue;
    var b := InverseValue(f) - a;
    var pickA := match f case Spread => a < b case Prob => a > b;
    Pick(b, pickA, if pickA then g.teamA else g.teamB, if pickA then a else b)
  }

  /** The pick depends only on which side of the break-even point the first team's value
      lies: below zero for a spread, above a half for a probability. */
  lemma PickThreshold(g: RawGame)
    ensures PickGame(g, Spread).pickedA <==> g.teamAValue < 0.0
    ensures PickGame(g, Prob).pickedA <==> g.teamAValue > 0.5
  {
  }

  /** Swapping the teams and inverting the value picks the same team with the same value,
      unless the two values are equal, when the second-listed team wins either way. */
  lemma PickSymmetric(g: RawGame, f: SortField)
    requires g.teamAValue != InverseValue(f) - g.teamAValue
    ensures PickGame(RawGame(g.teamB, g.teamA, InverseValue(f) - g.teamAValue), f).team == PickGame(g, f).team
    ensures PickGame(RawGame(g.teamB, g.teamA, InverseValue(f) - g.teamAValue), f).value == PickGame(g, f).value
  {
  }

  /** The picks of every game, in input order. */
  function Picks(games: seq<RawGame>, f: SortField): (ps: seq<Pick>)
    ensures |ps| == |games|
    ensures forall i :: 0 <= i < |games| ==> ps[i] == PickGame(games[i], f)
  {
    seq(|games|, i requires 0 <= i < |games| => PickGame(games[i], f))
  }

  /** The key of the ascending stable sort equivalent to the script's: `sorted(...,
      reverse=True)` keeps equal values in input order, so the spread sort is the
      ascending sort of the negated spreads. */
  function SortKeys(ps: seq<Pick>, f: SortField): (keys: seq<real>)
    ensures |keys| == |ps|
    ensures forall i :: 0 <= i < |ps| ==> keys[i] == (if f == Spread then -ps[i].value else ps[i].value)
  {
    seq(|ps|, i requires 0 <= i < |ps| => if f == Spread then -ps[i].value else ps[i].value)
  }

  /** A ranked record: the pick and its confidence. */
  datatype RankedGame = RankedGame(game: RawGame, pick: Pick, confidence: int)

  /** `enumerate(sorted_ids)` read backwards: each entry's confidence is one more than its
      place in the stable ascending order of `keys`. The confidences are exactly 1..n, each
      used once; a larger key gets a larger confidence, and of two equal keys the later one
      in the input gets the larger. */
  function Confidences(keys: seq<real>): (cs: seq<int>)
    ensures |cs| == |keys|
    ensures forall i :: 0 <= i < |cs| ==> 1 <= cs[i] <= |keys|
    ensures forall i, j :: 0 <= i < |cs| && 0 <= j < |cs| && i != j ==> cs[i] != cs[j]
    ensures forall k :: 1 <= k <= |keys| ==> k in cs
    ensures forall i, j :: 0 <= i < |cs| && 0 <= j < |cs| && keys[i] < keys[j] ==> cs[i] < cs[j]
    ensures forall i, j :: 0 <= i < j < |cs| && keys[i] == keys[j] ==> cs[i] < cs[j]
  {
    var ps := Ranks.Positions(keys);
    Ranks.PositionsArePermutation(keys);
    var cs := seq(|keys|, i requires 0 <= i < |keys| => ps[i] + 1);
    Ranks.ShiftedRange(ps, cs, 0, |keys|, 1);
    assert forall i, j :: 0 <= i < j < |cs| && keys[i] == keys[j] ==> cs[i] < cs[j] by {
      forall i, j | 0 <= i < j < |cs| && keys[i] == keys[j] ensures cs[i] < cs[j] {
        Ranks.PositionOrder(keys, i, j);
      }
    }
    cs
  }

  /** The confidences of ranked games, in input order. */
  function PickedConfidences(r: seq<RankedGame>): (cs: seq<int>)
    ensures |cs| == |r|
    ensures forall i :: 0 <= i < |r| ==> cs[i] == r[i].confidence
  {
    seq(|r|, i requires 0 <= i < |r| => r[i].confidence)
  }

  /** Every game picked and given its confidence, in input order. */
  function Rank(games: seq<RawGame>, f: SortField): (r: seq<RankedGame>)
    ensures |r| == |games|
    ensures forall i :: 0 <= i < |r| ==> r[i].game == games[i] && r[i].pick == PickGame(games[i], f)
    ensures PickedConfidences(r) == Confidences(SortKeys(Picks(games, f), f))
  {
    var ps := Picks(games, f);
    var cs := Confidences(SortKeys(ps, f));
    var r := seq(|games|, i requires 0 <= i < |games| => RankedGame(games[i], ps[i], cs[i]));
    assert PickedConfidences(r) == cs;
    r
  }

  /** What the script promises of its confidences: they are exactly 1..n, each used once;
      a more confident pick (a higher probability, or a lower spread) gets a higher
      confidence; and of two picks with equal values the later one in the input gets the
      higher confidence. */
  lemma RankConfidences(games: seq<RawGame>, f: SortField, r: seq<RankedGame>)
    requires r == Rank(games, f)
    ensures forall i :: 0 <= i < |r| ==> 1 <= r[i].confidence <= |r|
    ensures forall i, j :: 0 <= i < |r| && 0 <= j < |r| && i != j ==> r[i].confidence != r[j].confidence
    ensures forall k :: 1 <= k <= |r| ==> k in PickedConfidences(r)
    ensures f == Prob ==> forall i, j :: 0 <= i < |r| && 0 <= j < |r| && r[i].pick.value < r[j].pick.value ==>
      r[i].confidence < r[j].confidence
    ensures f == Spread ==> forall i, j :: 0 <= i < |r| && 0 <= j < |r| && r[i].pick.value > r[j].pick.value ==>
      r[i].confidence < r[j].confidence
    ensures forall i, j :: 0 <= i < j < |r| && r[i].pick.value == r[j].pick.value ==>
      r[i].confidence < r[j].confidence
  {
    var keys := SortKeys(Picks(games, f), f);
    var cs := Confidences(keys);
    assert PickedConfidences(r) == cs;
    forall i | 0 <= i < |r|
      ensures r[i].confidence == cs[i]
      ensures keys[i] == (if f == Spread then -r[i].pick.value else r[i].pick.value)
    {
    }
  }

  /** `main` minus the file handling and printing: an unsupported sort field is an error
      whatever the games, and otherwise every game is picked and ranked. */
  function RankGames(games: seq<RawGame>, field: string): (r: Result<seq<RankedGame>>)
    ensures r.Failure? <==> ParseSortField(field).Failure?
    ensures r.Failure? ==> r.error == "Unsupported sort field: " + field
    ensures r.Success? ==> r.value == Rank(games, ParseSortField(field).value)
  {
    match ParseSortField(field)
    case Failure(e) => Failure(e)
    case Success(f) => Success(Rank(games, f))
  }

  /** The picked side's values, in input order. */
  function PickedValues(ps: seq<Pick>): (vs: seq<real>)
    ensures |vs| == |ps|
    ensures forall i :: 0 <= i < |ps| ==> vs[i] == ps[i].value
  {
    seq(|ps|, i requires 0 <= i < |ps| => ps[i].value)
  }

  /** In probability mode the confidences are the one-based `get_ranks` of the picked
      probabilities, as the newer scripts compute them. On tied probabilities this
      relies on `GetRanks` ordering equal values by position; see the next lemma for
      the statement that holds whatever the tie order. */
  lemma ProbConfidenceIsGetRanks(games: seq<RawGame>)
    ensures Ranks.GetRanks(PickedValues(Picks(games, Prob)), false) ==
      PickedConfidences(Rank(games, Prob))
  {
    var ps := Picks(games, Prob);
    assert SortKeys(ps, Prob) == PickedValues(ps);
  }

  /** With pairwise distinct picked probabilities the confidence of a game is one plus
      the number of games with a smaller picked probability, the one-based `get_ranks`
      whatever order an argsort gives equal values. */
  lemma ProbConfidenceOfDistinct(games: seq<RawGame>, i: int)
    requires 0 <= i < |games|
    requires forall a, b :: 0 <= a < |games| && 0 <= b < |games| && a != b ==>
      PickGame(games[a], Prob).value != PickGame(games[b], Prob).value
    ensures Rank(games, Prob)[i].confidence == 1 + Ranks.CountLess(PickedValues(Picks(games, Prob)), PickGame(games[i], Prob).value)
  {
    var vs := PickedValues(Picks(games, Prob));
    ProbConfidenceIsGetRanks(games);
    Ranks.GetRanksOfDistinct(vs, false, i);
  }
}
