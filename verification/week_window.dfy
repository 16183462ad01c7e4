/** Selecting games by commence time (`filter_games_by_date` and `get_this_weeks_games`
    in nfl_confidence/odds.py). Instants are whole seconds; the current instant and its
    weekday in US/Eastern are inputs rather than read from the clock. */
module WeekWindow {
  import opened Games

  /** `datetime.weekday()` numbers Monday 0 through Sunday 6. */
  type Weekday = d: int | 0 <= d < 7

  const Tuesday: Weekday := 1
  const SecondsPerDay: int := 86400

  predicate InWindow(g: GameOdds, after: int, before: int)
  {
    after < g.commenceTime < before
  }

  /** `a` is `b` with some elements dropped and the rest kept in order. */
  ghost predicate IsSubsequence<T>(a: seq<T>, b: seq<T>)
    decreases |b|
  {
    if |a| == 0 then true
    else if |b| == 0 then false
    else (a[0] == b[0] && IsSubsequence(a[1..], b[1..])) || IsSubsequence(a, b[1..])
  }

  /** How many entries of `games` lie in the window. */
  function CountInWindow(games: seq<GameOdds>, after: int, before: int): nat
  {
    if |games| == 0 then 0
    else (if InWindow(games[0], after, before) then 1 else 0) + CountInWindow(games[1..], after, before)
  }

  /** `filter_games_by_date`: the games that start strictly after `after` and strictly
      before `before`, in their original order. The result is a subsequence of the input
      whose members are exactly the input's games in the window, one entry for each
      input entry in the window. */
  function FilterGamesByDate(games: seq<GameOdds>, after: int, before: int): (r: seq<GameOdds>)
    ensures forall g :: g in r <==> g in games && InWindow(g, after, before)
    ensures |r| == CountInWindow(games, after, before)
    ensures IsSubsequence(r, games)
  {
    if |games| == 0 then []
    else
      var rest := FilterGamesByDate(games[1..], after, before);
      assert forall g :: g in games <==> g == games[0] || g in games[1..];
      if InWindow(games[0], after, before) then [games[0]] + rest else rest
  }

  /** Filtering twice is filtering once by the intersection of the two windows. */
  lemma {:induction false} FilterTwice(games: seq<GameOdds>, a1: int, b1: int, a2: int, b2: int)
    ensures FilterGamesByDate(FilterGamesByDate(games, a1, b1), a2, b2)
      == FilterGamesByDate(games, if a1 >= a2 then a1 else a2, if b1 <= b2 then b1 else b2)
  {
    if |games| > 0 {
      FilterTwice(games[1..], a1, b1, a2, b2);
    }
  }

  /** The weekday `k` days after `today`. */
  function DayAfter(today: Weekday, k: int): Weekday
  {
    (today + k) % 7
  }

  /** `days_til_tuesday`: how many days ahead the next Tuesday is, a full week when
      today is Tuesday. It is the least positive number of days that lands on a Tuesday. */
  function DaysTilTuesday(today: Weekday): (d: int)
    ensures 1 <= d <= 7
    ensures DayAfter(today, d) == Tuesday
    ensures forall k :: 1 <= k < d ==> DayAfter(today, k) != Tuesday
  {
    // Python's % with a positive modulus is never negative, like Dafny's.
    var d := (Tuesday - today) % 7;
    if d == 0 then 7 else d
  }

  /** `get_this_weeks_games`: the games strictly between now and `DaysTilTuesday` whole
      days of 86400 seconds later. The window always holds the rest of today and never
      reaches past a week. */
  function GetThisWeeksGames(games: seq<GameOdds>, now: int, today: Weekday): (r: seq<GameOdds>)
    ensures forall g :: g in r ==> g in games && now < g.commenceTime < now + 7 * SecondsPerDay
    ensures forall g :: g in games && now < g.commenceTime < now + SecondsPerDay ==> g in r
    ensures forall g :: g in games && now < g.commenceTime < now + DaysTilTuesday(today) * SecondsPerDay ==> g in r
    ensures forall g :: g in games && g.commenceTime <= now ==> g !in r
    ensures forall g :: g in games && g.commenceTime >= now + DaysTilTuesday(today) * SecondsPerDay ==> g !in r
  {
    var before := now + DaysTilTuesday(today) * SecondsPerDay;
    FilterGamesByDate(games, now, before)
  }

  /** The window's length for the weekdays `tests/test_odds.py` uses: a full week on a
      Tuesday, six days on a Wednesday, four on a Friday, one on a Monday. */
  lemma DaysTilTuesdayExamples()
    ensures DaysTilTuesday(1) == 7
    ensures DaysTilTuesday(2) == 6
    ensures DaysTilTuesday(4) == 4
    ensures DaysTilTuesday(0) == 1
  {
  }
}
