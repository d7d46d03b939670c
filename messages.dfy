/** Control messages as `handle_message` sees them once `json.loads` has
    decoded a frame: the `type` key selects the case, and each case keeps the
    keys that branch reads with `msg.get`. */
module Messages {
  import opened Wrappers

  /** A numeric key as `int(msg.get(key, 0))` sees it: missing, a value
      `int()` converts to `n`, or a value that makes `int()` raise. */
  datatype NumberField = Absent | Converts(n: int) | Rejects

  /** A string-valued key is `Some(s)` when the value is a string and `None`
      when the key is missing or holds anything else. */
  datatype Message =
    | ScoreDelta(team: Option<string>, delta: NumberField)
    | SetNames(home: Option<string>, away: Option<string>)
    | SetColor(team: Option<string>, color: Option<string>)
    | Clock(action: Option<string>, seconds: NumberField)
    | Unrecognized

  datatype Team = Home | Away

  /** The team a `team` value names; `Transition.ScoreKeyIsKey` shows it
      picks the teams the handler's own tests pick. */
  function TeamNamed(team: Option<string>): Option<Team> {
    if team == Some("home") then Some(Home)
    else if team == Some("away") then Some(Away)
    else None
  }

  /** `int(msg.get(key, 0))`: a missing key counts as 0. */
  function ToInt(f: NumberField): Option<int> {
    match f
    case Absent => Some(0)
    case Converts(n) => Some(n)
    case Rejects => None
  }

  /** The truth value of `msg.get(key)` for a name: a non-empty string. */
  predicate Truthy(v: Option<string>) {
    v.Some? && v.value != ""
  }
}
