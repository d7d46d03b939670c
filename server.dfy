/** The module-level state of bindings/python/app/web.py (and of its copy
    scoreboard_server.py): the shared `state` record and the
    `ConnectionManager`, with `handle_message` and one pass of
    `clock_tick_task` applied to them in place. */
module Server {
  import opened Wrappers
  import opened Text
  import opened ScoreState
  import opened Messages
  import opened Transition
  import opened Registry

  class Scoreboard {
    /** The shared `state` dictionary. */
    var state: Board
    /** `manager`. */
    const manager: ConnectionManager

    constructor ()
      ensures state == Initial
      ensures fresh(manager) && manager.active == [] && manager.sent == []
    {
      state := Initial;
      manager := new ConnectionManager();
    }

    /** `handle_message(msg)`: update the record key by key, then broadcast
        the whole record once. A `delta` or `seconds` that `int()` refuses
        raises before anything is assigned or sent; that exception is the
        returned error. */
    method HandleMessage(msg: Message, delivered: ConnId -> bool) returns (raised: Option<HandleError>)
      modifies this, manager
      ensures raised.None? <==> Apply(old(state), msg).Success?
      ensures raised.None? ==> state == Apply(old(state), msg).value
      ensures raised.None? ==> manager.active == Surviving(old(manager.active), delivered)
      ensures raised.None? ==> manager.sent == old(manager.sent) + Attempts(old(manager.active), StateMessage(state), delivered)
      ensures raised.Some? ==> raised.value == Apply(old(state), msg).error
      ensures raised.Some? ==> state == old(state) && manager.active == old(manager.active) && manager.sent == old(manager.sent)
    {
      match msg {
        case ScoreDelta(team, deltaField) =>
          var delta := ToInt(deltaField);
          if delta.None? {
            return Some(NotAnInteger("delta"));
          }
          if team == Some("home") {
            state := state.(homeScore := Max0(state.homeScore + delta.value));
          } else if team == Some("away") {
            state := state.(awayScore := Max0(state.awayScore + delta.value));
          }
        case SetNames(home, away) =>
          if Truthy(home) {
            state := state.(homeName := Prefix(home.value, 8));
          }
          if Truthy(away) {
            state := state.(awayName := Prefix(away.value, 8));
          }
        case SetColor(team, color) =>
          if (team == Some("home") || team == Some("away")) && color.Some? {
            if team == Some("home") {
              state := state.(homeBgColor := color.value);
            } else {
              state := state.(awayBgColor := color.value);
            }
          }
        case Clock(action, secondsField) =>
          if action == Some("start") {
            state := state.(clockRunning := true);
          } else if action == Some("stop") {
            state := state.(clockRunning := false);
          } else if action == Some("set") {
            var seconds := ToInt(secondsField);
            if seconds.None? {
              return Some(NotAnInteger("seconds"));
            }
            state := state.(clockSeconds := seconds.value);
          }
        case Unrecognized =>
      }
      manager.Broadcast(StateMessage(state), delivered);
      raised := None;
    }

    /** The body of `clock_tick_task` after its sleep: decrement a running
        clock above zero. It broadcasts nothing. */
    method ClockTick()
      modifies this`state
      ensures state == TickStep(old(state))
    {
      if state.clockRunning && state.clockSeconds > 0 {
        state := state.(clockSeconds := state.clockSeconds - 1);
      }
    }
  }
}
