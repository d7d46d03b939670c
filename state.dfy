/** The shared scoreboard record of bindings/python/app/state.py (also
    declared in scoreboard_server.py): one field per key of the `state`
    dictionary. Colours are kept as the strings clients send; the display
    parses them. */
module ScoreState {
  import opened Wrappers
  import opened Text
  import opened Colors

  datatype Board = Board(
    homeName: string,
    awayName: string,
    homeScore: int,
    awayScore: int,
    homeBgColor: string,
    awayBgColor: string,
    bgColor: string,
    clockRunning: bool,
    clockSeconds: int)

  /** The keys of the `state` dictionary, one per field of `Board`. */
  const Keys: seq<string> := ["home_name", "away_name", "home_score", "away_score",
    "home_bg_color", "away_bg_color", "bg_color", "clock_running", "clock_seconds"]

  /** The record at process start: HOME against AWAY, 0-0, a stopped clock
      at 12:00. */
  const Initial := Board("HOME", "AWAY", 0, 0, "0,80,30", "80,0,30", "0,0,0", false, 720)

  /** What every reachable record satisfies: no negative score and names of
      at most eight characters. The clock is not part of it, because
      `clock set` stores any integer. */
  predicate Invariant(b: Board) {
    b.homeScore >= 0 && b.awayScore >= 0 && |b.homeName| <= 8 && |b.awayName| <= 8
  }

  lemma InitialSatisfiesInvariant()
    ensures Invariant(Initial)
    ensures Initial.homeScore == 0 && Initial.awayScore == 0
    ensures !Initial.clockRunning && Initial.clockSeconds == 720
  {
  }

  lemma RenderSmall(n: nat)
    requires 0 < n < 10
    ensures IntToString(0) == "0"
    ensures IntToString(10 * n) == [DigitChar(n), '0']
  {
    assert NatToString(10 * n) == NatToString(n) + [DigitChar(0)];
    assert DigitChar(0) == '0';
  }

  lemma Renderings()
    ensures IntToString(0) == "0" && IntToString(30) == "30" && IntToString(80) == "80"
  {
    RenderSmall(3);
    RenderSmall(8);
    assert DigitChar(3) == '3' && DigitChar(8) == '8';
  }

  /** Each initial colour is three comma-separated integers in 0..255, and
      parses to the triple it spells. */
  lemma InitialColorsWellFormed()
    ensures ParseColor(Initial.homeBgColor) == Some(Rgb(0, 80, 30))
    ensures ParseColor(Initial.awayBgColor) == Some(Rgb(80, 0, 30))
    ensures ParseColor(Initial.bgColor) == Some(Rgb(0, 0, 0))
    ensures InByteRange(Rgb(0, 80, 30)) && InByteRange(Rgb(80, 0, 30)) && InByteRange(Rgb(0, 0, 0))
  {
    HomeColor();
    AwayColor();
    BackgroundColor();
  }

  lemma BackgroundColor()
    ensures ParseColor(Initial.bgColor) == Some(Rgb(0, 0, 0))
  {
    Renderings();
    SpelledColor(Initial.bgColor, 0, 0, 0);
  }

  lemma HomeColor()
    ensures ParseColor(Initial.homeBgColor) == Some(Rgb(0, 80, 30))
  {
    Renderings();
    SpelledColor(Initial.homeBgColor, 0, 80, 30);
  }

  lemma AwayColor()
    ensures ParseColor(Initial.awayBgColor) == Some(Rgb(80, 0, 30))
  {
    Renderings();
    SpelledColor(Initial.awayBgColor, 80, 0, 30);
  }
}
