/** The pure meaning of `handle_message` and of one step of
    `clock_tick_task` (bindings/python/app/web.py, copied in
    scoreboard_server.py), as functions from the old record to the new one,
    and what they guarantee over any sequence of steps. */
module Transition {
  import opened Wrappers
  import opened Text
  import opened ScoreState
  import opened Messages
  import Colors

  /** The exception `int()` raises for a `delta` or `seconds` it cannot
      convert; it escapes `handle_message` before any key is assigned. */
  datatype HandleError = NotAnInteger(key: string)

  function Max0(n: int): int { if n < 0 then 0 else n }

  /** The record after one message, or the exception it raises. */
  function Apply(b: Board, m: Message): Result<Board, HandleError> {
    match m
    case ScoreDelta(team, delta) =>
      (match ToInt(delta)
       case None => Failure(NotAnInteger("delta"))
       case Some(d) =>
         match TeamNamed(team)
         case Some(Home) => Success(b.(homeScore := Max0(b.homeScore + d)))
         case Some(Away) => Success(b.(awayScore := Max0(b.awayScore + d)))
         case None => Success(b))
    case SetNames(home, away) =>
      var b1 := if Truthy(home) then b.(homeName := Prefix(home.value, 8)) else b;
      Success(if Truthy(away) then b1.(awayName := Prefix(away.value, 8)) else b1)
    case SetColor(team, color) =>
      (match TeamNamed(team)
       case Some(Home) => Success(if color.Some? then b.(homeBgColor := color.value) else b)
       case Some(Away) => Success(if color.Some? then b.(awayBgColor := color.value) else b)
       case None => Success(b))
    case Clock(action, seconds) =>
      if action == Some("start") then Success(b.(clockRunning := true))
      else if action == Some("stop") then Success(b.(clockRunning := false))
      else if action == Some("set") then
        (match ToInt(seconds)
         case None => Failure(NotAnInteger("seconds"))
         case Some(s) => Success(b.(clockSeconds := s)))
      else Success(b)
    case Unrecognized => Success(b)
  }

  /** One pass of the tick loop after its one-second sleep. */
  function TickStep(b: Board): Board {
    if b.clockRunning && b.clockSeconds > 0 then b.(clockSeconds := b.clockSeconds - 1) else b
  }

  /** A message is refused only when `int()` refuses its number; every other
      message, an unrecognised one included, is handled. */
  lemma OnlyConversionFails(b: Board, m: Message)
    ensures Apply(b, m).Failure? <==>
      (m.ScoreDelta? && m.delta.Rejects?) ||
      (m.Clock? && m.action == Some("set") && m.seconds.Rejects?)
  {
  }

  /** `score_delta` for home or away sets that score to max(0, old + delta)
      and changes nothing else. */
  lemma ScoreDeltaClamps(b: Board, team: string, delta: NumberField)
    requires team == "home" || team == "away"
    requires !delta.Rejects?
    ensures var d := ToInt(delta).value;
      Apply(b, ScoreDelta(Some(team), delta)) ==
        Success(if team == "home" then b.(homeScore := if b.homeScore + d < 0 then 0 else b.homeScore + d)
                else b.(awayScore := if b.awayScore + d < 0 then 0 else b.awayScore + d))
  {
  }

  /** `score_delta` for any other team leaves the record as it was. */
  lemma ScoreDeltaOtherTeam(b: Board, team: Option<string>, delta: NumberField)
    requires team != Some("home") && team != Some("away")
    requires !delta.Rejects?
    ensures Apply(b, ScoreDelta(team, delta)) == Success(b)
  {
  }

  /** `set_names`: a non-empty name becomes its first eight characters, an
      absent or empty one keeps the old name, and nothing else changes. */
  lemma SetNamesRule(b: Board, home: Option<string>, away: Option<string>)
    ensures Apply(b, SetNames(home, away)).Success?
    ensures var r := Apply(b, SetNames(home, away)).value;
      && (if home.Some? && home.value != "" then r.homeName == home.value[..if |home.value| < 8 then |home.value| else 8]
          else r.homeName == b.homeName)
      && (if away.Some? && away.value != "" then r.awayName == away.value[..if |away.value| < 8 then |away.value| else 8]
          else r.awayName == b.awayName)
      && r.(homeName := b.homeName, awayName := b.awayName) == b
  {
  }

  /** A twelve-character home name is stored as its first eight characters. */
  lemma LongNameTruncated(b: Board)
    ensures Apply(b, SetNames(Some("ABCDEFGHIJKL"), None)) == Success(b.(homeName := "ABCDEFGH"))
  {
    assert Prefix("ABCDEFGHIJKL", 8) == "ABCDEFGH";
  }

  /** `set_color` stores the string as sent, without parsing it, and only for
      home or away with a string value; otherwise nothing changes. */
  lemma SetColorVerbatim(b: Board, team: Option<string>, color: Option<string>)
    ensures Apply(b, SetColor(team, color)) ==
      Success(if team == Some("home") && color.Some? then b.(homeBgColor := color.value)
              else if team == Some("away") && color.Some? then b.(awayBgColor := color.value)
              else b)
  {
  }

  /** The two tests `handle_message` makes of a `team` string pick the same
      teams as `TeamNamed`: `f"{team}_score" in state` for a score delta and
      `team in ["home", "away"]` for a colour. */
  lemma ScoreKeyIsKey(t: string)
    ensures t + "_score" in Keys <==> TeamNamed(Some(t)).Some?
    ensures t in ["home", "away"] <==> TeamNamed(Some(t)).Some?
  {
    var k := t + "_score";
    if k in Keys {
      assert k[|t|..] == "_score" && k[..|t|] == t;
      assert k == "home_score" || k == "away_score";
      assert "home_score"[..4] == "home" && "away_score"[..4] == "away";
    }
    assert "home" + "_score" == Keys[2] && "away" + "_score" == Keys[3];
  }

  /** `clock start` and `stop` only set the running flag, whatever `seconds`
      the message carries (it is converted only by `set`); `stop` twice is
      `stop` once. */
  lemma StartStop(b: Board, s: NumberField)
    ensures Apply(b, Clock(Some("start"), s)) == Success(b.(clockRunning := true))
    ensures Apply(b, Clock(Some("stop"), s)) == Success(b.(clockRunning := false))
    ensures Apply(Apply(b, Clock(Some("stop"), s)).value, Clock(Some("stop"), s)) ==
            Apply(b, Clock(Some("stop"), s))
  {
  }

  /** `clock set` stores the converted seconds as they are, a negative value
      included, and leaves the running flag and every other key alone. */
  lemma ClockSet(b: Board, seconds: NumberField)
    requires !seconds.Rejects?
    ensures Apply(b, Clock(Some("set"), seconds)) == Success(b.(clockSeconds := ToInt(seconds).value))
    ensures Apply(b, Clock(Some("set"), Absent)) == Success(b.(clockSeconds := 0))
  {
  }

  /** Any clock action other than start, stop and set changes nothing, whatever
      `seconds` holds: only `set` converts it, so not even an unconvertible
      value is an error here. */
  lemma OtherClockAction(b: Board, action: Option<string>, seconds: NumberField)
    ensures action != Some("start") && action != Some("stop") && action != Some("set") ==>
      Apply(b, Clock(action, seconds)) == Success(b)
  {
  }

  /** A tick takes one second off a running clock above zero and otherwise
      changes nothing; it never touches the running flag, and never takes a
      non-negative clock below zero. */
  lemma TickRule(b: Board)
    ensures TickStep(b).clockRunning == b.clockRunning
    ensures TickStep(b).clockSeconds == b.clockSeconds - 1 <==> b.clockRunning && b.clockSeconds > 0
    ensures TickStep(b) == b.(clockSeconds := TickStep(b).clockSeconds)
    ensures b.clockSeconds >= 0 ==> TickStep(b).clockSeconds >= 0
    ensures b.clockRunning && b.clockSeconds == 0 ==> TickStep(b) == b
  {
  }

  /** `n` ticks. */
  function Ticks(b: Board, n: nat): Board
    decreases n
  {
    if n == 0 then b else Ticks(TickStep(b), n - 1)
  }

  /** After `n` ticks a running clock above zero shows max(0, s - n), still
      running; a stopped clock, or one at or below zero, is unchanged. */
  lemma {:induction false} TicksFreezeAtZero(b: Board, n: nat)
    ensures Ticks(b, n) ==
      if b.clockRunning && b.clockSeconds > 0
      then b.(clockSeconds := if b.clockSeconds - n < 0 then 0 else b.clockSeconds - n)
      else b
    decreases n
  {
    if n > 0 {
      TicksFreezeAtZero(TickStep(b), n - 1);
    }
  }

  /** A running clock at 1 second is at 0 and still running after two ticks. */
  lemma ClockFloorExample(b: Board)
    requires b.clockRunning && b.clockSeconds == 1
    ensures Ticks(b, 2) == b.(clockSeconds := 0)
  {
    TicksFreezeAtZero(b, 2);
  }

  /** What can happen to the record: a message or a tick. */
  datatype Step = Handle(m: Message) | Tick

  /** The record after one step; a message whose number `int()` refuses
      leaves it as it was. */
  function StepBoard(b: Board, s: Step): Board {
    match s
    case Tick => TickStep(b)
    case Handle(m) =>
      match Apply(b, m)
      case Success(b') => b'
      case Failure(_) => b
  }

  /** The record after the steps, in order. */
  function Run(b: Board, steps: seq<Step>): Board
    decreases |steps|
  {
    if steps == [] then b else Run(StepBoard(b, steps[0]), steps[1..])
  }

  lemma StepKeepsInvariant(b: Board, s: Step)
    requires Invariant(b)
    ensures Invariant(StepBoard(b, s))
  {
  }

  /** From any record with no negative score and short names, no sequence of
      messages and ticks, whatever the deltas, produces a negative score or a
      name longer than eight characters. */
  lemma {:induction false} RunKeepsInvariant(b: Board, steps: seq<Step>)
    requires Invariant(b)
    ensures Invariant(Run(b, steps))
    decreases |steps|
  {
    if steps != [] {
      StepKeepsInvariant(b, steps[0]);
      RunKeepsInvariant(StepBoard(b, steps[0]), steps[1..]);
    }
  }

  /** In particular from the initial record. */
  lemma ReachableInvariant(steps: seq<Step>)
    ensures Invariant(Run(Initial, steps))
  {
    InitialSatisfiesInvariant();
    RunKeepsInvariant(Initial, steps);
  }

  function HomePlusOne(): Step { Handle(ScoreDelta(Some("home"), Converts(1))) }

  /** `k` messages of +1 for home raise a non-negative home score by exactly `k`: no increment is lost
      once each is applied as one step. */
  lemma {:induction false} IncrementsAccumulate(b: Board, k: nat)
    requires b.homeScore >= 0
    ensures Run(b, seq(k, _ => HomePlusOne())).homeScore == b.homeScore + k
    ensures Run(b, seq(k, _ => HomePlusOne())) == b.(homeScore := b.homeScore + k)
    decreases k
  {
    if k > 0 {
      var steps := seq(k, _ => HomePlusOne());
      assert steps[0] == HomePlusOne();
      assert steps[1..] == seq(k - 1, _ => HomePlusOne());
      var b1 := StepBoard(b, steps[0]);
      assert b1 == b.(homeScore := b.homeScore + 1);
      IncrementsAccumulate(b1, k - 1);
    }
  }

  /** +5 then -20 on a fresh board shows 5 and then 0. */
  lemma ClampScenario()
    ensures Apply(Initial, ScoreDelta(Some("home"), Converts(5))) == Success(Initial.(homeScore := 5))
    ensures Apply(Initial.(homeScore := 5), ScoreDelta(Some("home"), Converts(-20))) == Success(Initial)
  {
  }

  /** An unparsable colour for away is stored as it is: the record does not
      keep its default, and the display falls back to white for that half. */
  lemma BogusColorStored()
    ensures Apply(Initial, SetColor(Some("away"), Some("bogus"))) == Success(Initial.(awayBgColor := "bogus"))
    ensures Colors.Color(Apply(Initial, SetColor(Some("away"), Some("bogus"))).value.awayBgColor) == Colors.White
  {
    var r := Apply(Initial, SetColor(Some("away"), Some("bogus")));
    SetColorVerbatim(Initial, Some("away"), Some("bogus"));
    assert r.value.awayBgColor == "bogus";
    Colors.WordIsWhite();
  }
}
