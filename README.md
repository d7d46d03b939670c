# LED scoreboard: command interpreter, clock, connection registry and frame layout

A Dafny model of the Python scoreboard that drives a 64 x 32 RGB LED panel.
The panel is controlled over a websocket.
It covers five parts:

- the shared scoreboard record and its defaults;
- `handle_message`, which applies one decoded control message (`score_delta`, `set_names`, `set_color`, `clock`, or anything else) and then broadcasts the whole record;
- the one-second clock tick;
- the `ConnectionManager` list of open connections and its broadcast;
- `draw_frame`, which turns the record into texts and painted regions, and the `color` parsers it and the demo countdown use.

`scoreboard_server.py` is a single-file copy of `web.py`, `display.py`, `utils.py` and `state.py`.
One model serves both, and the table cites whichever copy is more direct.

Modules (one file each):

- `Wrappers` (`wrappers.dfy`): `Option` and `Result`.
- `Text` (`text.dfy`): the Python string operations the core uses, each with its inverse.
  - `str(int)` has `int(str)` as its inverse. `int()` skips the white space around the number and accepts a sign and `_` between digits.
  - `split(",")` has join as its inverse.
  - Also covered: `s[:n]`, and `{n:02d}` padding.
- `Colors` (`colors.dfy`): the lenient `color` of `utils.py`, which falls back to white, and the raising `color` of `scoreboard.py`.
- `ScoreState` (`state.dfy`): the record, its initial value, and the invariant "no negative score, no name over eight characters".
- `Messages` (`messages.dfy`): a message as `handle_message` reads it after JSON decoding.
- `Transition` (`transition.dfy`): `handle_message` and the tick as pure functions on the record, and what they guarantee over any sequence of steps.
- `Registry` (`registry.dfy`): `ConnectionManager` as a class whose list the methods update in place. Send success is an input oracle, and a ghost log records every send.
- `Server` (`server.dfy`): a class holding the record and the manager. `HandleMessage` updates the record key by key, exactly as the source branches, and is proved to equal `Transition.Apply` followed by one broadcast.
- `Display` (`display.dfy`): `draw_frame` on a two-dimensional `array2<Rgb>` canvas.
  - The nested `SetPixel` loops are nested `while` loops.
  - Every drawing call of a frame, the fills included, is returned in order as a `DrawOp` value. The model paints the fills on the canvas; the glyphs and lines are drawn by the graphics library and are not painted.
- `Demo` (`demo.dfy`): the countdown loop of `scoreboard.py`.

Where the code and the design intent differ, the model follows the code:

- `set_color` stores the string without checking that it is a colour.
- `clock set` stores a negative number as it is.
- A message of unknown type changes nothing but is still broadcast.
- A message whose `delta` or `seconds` cannot be converted by `int()` raises before anything is assigned. It is therefore neither applied nor broadcast.

## Model

| member | source | states |
|---|---|---|
| ScoreState.Initial | bindings/python/app/state.py:2-12 | the record at start, one field per key; its properties are stated by InitialSatisfiesInvariant and InitialColorsWellFormed |
| ScoreState.Invariant | bindings/python/app/state.py:2-12 | no negative score and no name over eight characters; Transition.StepKeepsInvariant, RunKeepsInvariant and ReachableInvariant prove it is kept |
| ScoreState.InitialSatisfiesInvariant | bindings/python/app/state.py:2-12 | the initial record has both scores 0, the clock stopped at 720 seconds, and satisfies the invariant (scores non-negative, names at most 8 characters) |
| ScoreState.InitialColorsWellFormed | bindings/python/app/state.py:7-9 | the three default colour strings parse as (0,80,30), (80,0,30) and (0,0,0), each component in 0..255 |
| Transition.ScoreKeyIsKey | bindings/python/app/web.py:127-128 | for any team string, `f"{team}_score"` is a key of the record exactly when the team is "home" or "away", and so is `team in ["home", "away"]` (web.py:141); both tests pick the teams the model's team selection picks |
| Transition.Apply | bindings/python/app/web.py:121-150 | the record after one message, or the `int()` error; characterised by OnlyConversionFails, ScoreDeltaClamps, ScoreDeltaOtherTeam, SetNamesRule, SetColorVerbatim, StartStop, ClockSet, OtherClockAction and StepKeepsInvariant |
| Transition.TickStep | bindings/python/app/web.py:37-38 | one tick; characterised by TickRule, TicksFreezeAtZero and ClockFloorExample |
| Transition.OnlyConversionFails | bindings/python/app/web.py:121-152 | a message is refused if and only if it is a `score_delta` whose delta `int()` rejects, or a `clock set` whose seconds `int()` rejects; unknown types are handled |
| Transition.ScoreDeltaClamps | bindings/python/app/web.py:124-129 | `score_delta` for home or away sets that score to max(0, old + delta) and leaves every other key alone |
| Transition.ScoreDeltaOtherTeam | bindings/python/app/scoreboard_server.py:288-293 | `score_delta` for any other team leaves the record unchanged |
| Transition.SetNamesRule | bindings/python/app/web.py:131-133 | a non-empty home or away name becomes its first 8 characters, an absent or empty one keeps the old name, nothing else changes, and the message never fails |
| Transition.LongNameTruncated | bindings/python/app/scoreboard_server.py:296 | a twelve-character home name is stored as its first eight characters |
| Transition.SetColorVerbatim | bindings/python/app/web.py:136-142 | `set_color` stores the string unparsed in the home or away colour, only for those teams and only for a string value; otherwise nothing changes |
| Transition.BogusColorStored | bindings/python/app/scoreboard_server.py:300-306 | on the initial record, the away colour "bogus" is stored as sent, and `Color` makes it white; Display.UnparsableTeamColor states this for every record, team and unparsable value |
| Transition.StartStop | bindings/python/app/web.py:146-148 | `clock start` and `stop` set only the running flag whatever the message's `seconds` (even one `int()` rejects), and `stop` applied twice equals `stop` once |
| Transition.ClockSet | bindings/python/app/scoreboard_server.py:309-313 | `clock set` stores the converted seconds unclamped (0 when missing) and touches nothing else |
| Transition.OtherClockAction | bindings/python/app/web.py:145-149 | a clock message whose action is not start, stop or set changes nothing, whatever its `seconds` holds, even a value `int()` rejects |
| Transition.TickRule | bindings/python/app/web.py:37-38 | a tick takes one off the clock if and only if it is running and above 0, never changes the running flag or any other key, never goes below 0 from a non-negative start, and leaves a running clock at 0 as it is |
| Transition.TicksFreezeAtZero | bindings/python/app/scoreboard_server.py:320-323 | after n ticks a running clock above 0 shows max(0, s - n) and is still running; any other record is unchanged |
| Transition.ClockFloorExample | bindings/python/app/web.py:37-38 | a running clock at 1 second stays at 0, still running, after two ticks |
| Transition.StepKeepsInvariant | bindings/python/app/web.py:121-152 | one message or tick preserves the invariant |
| Transition.RunKeepsInvariant | bindings/python/app/scoreboard_server.py:285-316 | any sequence of messages and ticks, with any deltas, keeps both scores non-negative and names at most 8 characters |
| Transition.ReachableInvariant | bindings/python/app/state.py:2-12 | every record reachable from the initial one satisfies the invariant |
| Transition.IncrementsAccumulate | bindings/python/app/web.py:129 | k home +1 messages raise a non-negative home score by exactly k and change nothing else |
| Transition.ClampScenario | bindings/python/app/web.py:129 | +5 then -20 on the initial record gives 5 and then 0 |
| Registry.RemoveFirst | bindings/python/app/web.py:16-18 | `disconnect`: the first occurrence removed; characterised by RemoveFirstAbsent, RemoveFirstPresent and RemoveFirstMultiset |
| Registry.Surviving | bindings/python/app/web.py:20-25 | the list a broadcast leaves; characterised by SurvivingKeepsExactly, SurvivingConcat and SurvivingExtremes |
| Registry.Attempts | bindings/python/app/web.py:21-23 | the sends a broadcast makes; characterised by AttemptsCoverAll |
| Registry.IndexOf | bindings/python/app/web.py:18 | the position of the first occurrence of a present connection |
| Registry.RemoveFirstAbsent | bindings/python/app/web.py:16-18 | disconnecting a connection that is not in the list changes nothing |
| Registry.RemoveFirstPresent | bindings/python/app/scoreboard_server.py:189-191 | disconnecting a present connection removes its first occurrence and keeps the rest in order |
| Registry.RemoveFirstMultiset | bindings/python/app/web.py:16-18 | disconnecting takes away exactly one copy of the connection from the multiset of connections when it is there, and none otherwise |
| Registry.SurvivingKeepsExactly | bindings/python/app/web.py:20-25 | after a broadcast a connection is still registered if and only if it was registered and its send succeeded, with its count unchanged |
| Registry.SurvivingConcat | bindings/python/app/web.py:21 | surviving connections of a concatenation are the survivors of each part in order |
| Registry.SurvivingExtremes | bindings/python/app/scoreboard_server.py:193-198 | if every send succeeds the list is unchanged; if every send fails it is emptied |
| Registry.RemoveFirstSkips | bindings/python/app/web.py:25 | removing a connection that is absent from the processed prefix acts only on the rest of the list |
| Registry.AttemptsCoverAll | bindings/python/app/web.py:21-23 | a broadcast makes one send attempt per connection registered at its start, the i-th to the i-th connection, each carrying the broadcast message |
| Registry.ConnectionManager.constructor | bindings/python/app/web.py:9-10 | a new manager has no connections and has sent nothing |
| Registry.ConnectionManager.Connect | bindings/python/app/web.py:12-14 | the new connection is appended to the list |
| Registry.ConnectionManager.Disconnect | bindings/python/app/web.py:16-18 | the list becomes the old one with the first occurrence of the connection removed, or unchanged if it was absent |
| Registry.ConnectionManager.Broadcast | bindings/python/app/web.py:20-25 | the list becomes exactly the connections whose send succeeded, in their order, and the send log grows by one attempt per connection registered at the start |
| Server.Scoreboard.constructor | bindings/python/app/state.py:2-12 | the shared record starts as the initial record, served by a fresh manager (`manager = ConnectionManager()`, web.py line 27) with no connections and no sends |
| Server.Scoreboard.HandleMessage | bindings/python/app/web.py:121-152 | the record becomes the pure transition of the message and exactly one broadcast of the new record follows; an unconvertible number raises with record, connection list and send log unchanged |
| Server.Scoreboard.ClockTick | bindings/python/app/scoreboard_server.py:322-323 | one pass of the tick loop applies the tick rule to the record and sends nothing |
| Text.NatToString | bindings/python/app/display.py:83-86 | the decimal rendering is a non-empty string of digits with no leading zero, one digit exactly below 10 |
| Text.IntToString | bindings/python/app/display.py:83-86 | `str(n)` is non-empty and starts with '-' exactly for negative n |
| Text.DecimalValueOfNatToString | bindings/python/app/display.py:83-86 | the digits of `str(n)` have value n |
| Text.ParseInt | bindings/python/app/utils.py:30 | `int(s)` on a string; characterised by ParseIntToString, ParseIntPadded, ParseNonNumeric, SeparatorNotSkipped and Colors.EmptyPieceRejected |
| Text.ParseNonNumeric | bindings/python/app/utils.py:30 | `int()` refuses text that starts with neither white space, a sign nor a digit, whatever follows |
| Text.SeparatorNotSkipped | bindings/python/app/utils.py:30 | U+001C before a number is not skipped: `int()` refuses it, although `str.isspace()` holds for it |
| Text.ParseIntToString | bindings/python/app/utils.py:30 | `int(str(n)) == n` for every integer |
| Text.ParseIntPadded | bindings/python/app/utils.py:30 | `int()` ignores any run of the white space it skips (space, tab, line feed, vertical tab, form feed, carriage return, U+0085, U+00A0) around a number |
| Text.Split | bindings/python/app/utils.py:30 | `split(",")` gives at least one piece and no piece contains a comma |
| Text.SplitPieceCount | bindings/python/app/utils.py:30 | the number of pieces is the number of commas plus one, empty pieces included |
| Text.JoinSplit | bindings/python/app/utils.py:30 | joining the pieces with the separator gives the string back |
| Text.SplitJoin | bindings/python/app/scoreboard_server.py:46 | splitting a join of comma-free pieces gives the pieces back |
| Text.Prefix | bindings/python/app/web.py:132-133 | `s[:n]` has length min(len(s), n) and is a prefix of s |
| Text.Pad2 | bindings/python/app/display.py:98 | `{n:02d}`; characterised by Pad2TwoDigits and Pad2Wide |
| Text.Pad2TwoDigits | bindings/python/app/display.py:98 | `{n:02d}` of 0..99 is two digits that `int()` reads back as n |
| Text.Pad2Wide | bindings/python/app/display.py:98 | `{n:02d}` of a negative number or one of two or more digits is just `str(n)` |
| Colors.ParseAll | bindings/python/app/utils.py:30 | `[int(v) for v in pieces]`; characterised by ParseAllMeaning |
| Colors.ParseAllMeaning | bindings/python/app/utils.py:30 | the list comprehension of `int` succeeds if and only if `int()` accepts every piece, and then holds each piece's value at its position |
| Colors.AllConvertedMeaning | bindings/python/app/utils.py:30 | the comprehension builds its list if and only if every conversion succeeds, and the list then holds one value per piece, in order |
| Colors.MakeColor | bindings/python/app/utils.py:31 | `graphics.Color(*parts)` with three parameters defaulting to 0; characterised through ParseColorIff |
| Colors.ParseColor | bindings/python/app/utils.py:30-31 | the colour the `try` body builds, or the exception; characterised by ParseColorIff |
| Colors.ParseColorIff | bindings/python/app/utils.py:30-31 | a string gives a colour if and only if it has at most three pieces and `int()` accepts each; red, green, blue are the pieces in order, a missing one 0 |
| Colors.Color | bindings/python/app/utils.py:28-33 | `color(value)`; characterised by ColorFallsBackToWhite, ColorOfTriple, OnePiece and StrictAndLenientAgree |
| Colors.ColorOrError | bindings/python/app/scoreboard.py:8-12 | the raising `color`; characterised by StrictAndLenientAgree |
| Colors.ColorOfTriple | bindings/python/app/scoreboard_server.py:44-47 | "r,g,b" written in decimal gives (r, g, b) |
| Colors.SpelledColor | bindings/python/app/utils.py:30-31 | any string spelling "r,g,b" in decimal parses to (r, g, b) |
| Colors.TwoNumbers | bindings/python/app/utils.py:30-31 | "r,g" gives (r, g, 0) |
| Colors.OneNumberIsRed | bindings/python/app/utils.py:30-31 | a single number n gives (n, 0, 0) |
| Colors.ColorFallsBackToWhite | bindings/python/app/utils.py:32-33 | with more than three pieces, or any piece `int()` rejects, the lenient result is white and the raising parser fails naming the value |
| Colors.OnePiece | bindings/python/app/utils.py:30-33 | a string without a comma is white (and an error for the raising parser) if `int()` rejects it, and otherwise (n, 0, 0) for its value n |
| Colors.OnePieceIsWhite | bindings/python/app/utils.py:30-33 | a comma-free string that `int()` rejects gives white from the lenient parser and an error naming it from the raising one |
| Colors.EmptyPieceRejected | bindings/python/app/utils.py:30 | `int("")` raises, so an empty piece never converts |
| Colors.LeadingCommaIsWhite | bindings/python/app/utils.py:30-33 | a string starting with a comma has an empty first piece and is white, an error for the raising parser |
| Colors.EmptyFirstPieceIsWhite | bindings/python/app/utils.py:30-33 | ",80,30" splits into "", "80" and "30"; the last two read as 80 and 30 and only the empty first one fails, so the string is white |
| Colors.SeparatorLedIsWhite | bindings/python/app/utils.py:30-33 | a colour string whose first piece starts with U+001C is white and a failure for `ColorOrError`, whether that piece is alone or followed by a comma and anything |
| Colors.EmptyIsWhite | bindings/python/app/scoreboard_server.py:48-49 | the empty string gives white |
| Colors.BogusRejected | bindings/python/app/utils.py:30 | "bogus" has no comma and `int()` rejects it |
| Colors.WordIsWhite | bindings/python/app/utils.py:30-33 | "bogus" gives white from the lenient parser and an invalid-colour error from the raising one |
| Colors.StrictAndLenientAgree | bindings/python/app/scoreboard.py:8-12 | the raising parser fails exactly where the lenient one falls back to white, with an error naming the value, and otherwise both give the same colour |
| Display.ClockText | bindings/python/app/display.py:97-98 | the clock text; characterised by ClockTextReadsBack and NegativeClockText |
| Display.NameLabel | bindings/python/app/display.py:77-80 | `name[:5]`; characterised by NameLabelIsPrefix |
| Display.ScoreLabel | bindings/python/app/display.py:83-86 | `str(score)`; characterised by ScoreLabelReadsBack |
| Display.FrameOps | bindings/python/app/display.py:58-102 | the drawing calls of one frame in order; characterised by FrameOpsPaint and BandAfterNames |
| Display.UnparsableTeamColor | bindings/python/app/display.py:64-73 | a `set_color` for home or away whose value does not parse stores the value as sent, and that record's frame paints the team's half white |
| Display.FramePixel | bindings/python/app/display.py:58-95 | each pixel's colour after a frame; FrameOpsPaint proves the frame's fills, made in order, produce it |
| Display.FrameOpsPaint | bindings/python/app/display.py:58-95 | replaying the fills of a frame in order (background, the two halves, the clock band) leaves every pixel in its region's colour, whatever it was before |
| Display.LayoutOps | bindings/python/app/display.py:58-95 | any call sequence shaped like a frame (background fill, two halves, calls that paint nothing, band, one more call) paints the frame layout; the demo pass uses it too |
| Display.BandAfterNames | bindings/python/app/display.py:77-95 | both name labels are drawn on baseline row 11, inside the clock band, and the band's grey fill comes after them; only the clock text follows it |
| Display.DivMod60 | bindings/python/app/display.py:97 | 0 <= secs < 60 and mins * 60 + secs == seconds (floor division) |
| Display.ClockTextReadsBack | bindings/python/app/display.py:97-98 | for 0 <= s < 6000 the clock text has five characters, a colon at index 2, and its fields read back as minutes and seconds (under 60) that give s |
| Display.NegativeClockText | bindings/python/app/scoreboard_server.py:157-158 | a clock of -1 second shows "-1:59" |
| Display.NameLabelIsPrefix | bindings/python/app/display.py:77-80 | a name label is the first min(5, length) characters of the stored name |
| Display.ScoreLabelReadsBack | bindings/python/app/display.py:83-86 | `int()` reads a score label back as the score |
| Display.LayoutRegions | bindings/python/app/display.py:65-73 | on the panel the two halves are disjoint and cover all 64 columns of rows 13..31, the clock band is rows 0..11 and meets neither half, and row 12 belongs to no region |
| Display.FillRegion | bindings/python/app/display.py:65-67 | every in-bounds pixel of the rectangle takes the colour and every other pixel keeps its value |
| Display.PaintTeams | bindings/python/app/display.py:58-73 | after the background fill and both team loops, each pixel is its half's colour, or the background outside both halves; the three fills are reported in that order |
| Display.DrawFrame | bindings/python/app/display.py:54-102 | with no canvas nothing is drawn; otherwise the colours are parsed from the record, the drawing calls are the frame's, in order, and every pixel has its layout colour with the clock band grey (20,20,20) |
| Display.DrawOn | bindings/python/app/scoreboard_server.py:118-162 | the calls of a frame, fills included, are in source order, and the final colour of every pixel is given by its region |
| Demo.CountdownLabel | bindings/python/app/scoreboard.py:85-89 | the clock label of a pass; characterised by CountdownLabelPadded, CountdownEnds and CountdownLabels |
| Demo.CountdownLabelPadded | bindings/python/app/scoreboard.py:85-89 | for 0..99 the label is "05:" followed by the value padded to two digits, five characters in all |
| Demo.CountdownEnds | bindings/python/app/scoreboard.py:85-89 | the first label is "05:58" and the last "05:00" |
| Demo.CountdownLabels | bindings/python/app/scoreboard.py:64-89 | the label of every pass has five characters and its seconds field reads back as 58 - k on pass k |
| Demo.UpdateClock | bindings/python/app/scoreboard.py:25-33 | rows 0..11 become (10,10,10), every other pixel is unchanged, and the calls are that fill and then the time drawn at (15, 10) |
| Demo.DemoPass | bindings/python/app/scoreboard.py:68-89 | one pass paints home (0,80,30) and away (80,0,30) on rows 13..31, the band grey on rows 0..11, and makes the fill, score, divider and clock calls in order |
| Demo.DemoOpsPaint | bindings/python/app/scoreboard.py:63-89 | the background fill followed by one pass's calls leaves every pixel in the demo's layout colour |
| Demo.Countdown | bindings/python/app/scoreboard.py:63-89 | exactly 59 passes, pass k with the label of 58 - k, leaving every pixel in its layout colour over the background |
| Demo.TextColorDefault | bindings/python/app/scoreboard.py:22 | the text colour default "255,255,255" parses as white |
| Demo.BackgroundDefault | bindings/python/app/scoreboard.py:23 | the background default "0,0,0" parses as black |

## Left out

- Networking is not modelled. This covers FastAPI and uvicorn, the HTML page, websocket accept, send and receive, and JSON encoding and decoding. A message arrives already decoded as a `Message`, and whether a send succeeds is the `delivered` oracle.
- The first state sent by `websocket_endpoint` on connect is not modelled. Neither is its loop.
  - An `int()` error escapes that loop without disconnecting. The failing connection stays in the list until a later broadcast to it fails.
  - The model returns the exception as the error of `HandleMessage`.
- Concurrency is not modelled. The render thread, the asyncio tick task, the sleeps and their interleaving are replaced by one message or one tick applied atomically as a step.
- The JSON values of message keys are abstracted. A string key is `Some(s)` when its value is a string and `None` otherwise. A numeric key is `Absent`, `Converts(n)` or `Rejects`.
  - How `int()` treats floats (truncation), booleans and `None` is left to that decoding.
  - A non-string but truthy name value is not modelled: slicing it would raise or behave differently.
- Text.ParseInt: follows `int()` on strings for ASCII digits and for the white space below U+0100 that `int()` skips: space, tab, line feed, vertical tab, form feed, carriage return, U+0085 and U+00A0. Other Unicode digits and white space are not modelled.
- Colors.MakeColor: the graphics library is not part of this model. The model assumes `graphics.Color` takes three integer parameters red, green and blue, each defaulting to 0, so more than three arguments raise. The conversion of each value to an unsigned byte is not modelled: a component outside 0..255 is kept as it is. If the library refuses such a value, those strings would also be white.
- Glyph rendering is not modelled. `DrawText` and `DrawLine` are returned as call records, and fonts and their loading and path search are left out. Row 12 holds the divider line drawn by the library; the model's pixels there stay the background.
- Double buffering is not modelled. `CreateFrameCanvas` and `SwapOnVSync` are left out, and `draw_frame` and the demo paint one canvas.
  - In `scoreboard.py` the background `Fill` is applied only to the first buffer. The unused `bg_canvas` is left out.
- The import and `sys.path` fallback of `utils.py` and `scoreboard_server.py`, argparse option registration, `time.sleep`, the endless render loop of `display.py`, and `main.py` are process set-up and are left out.
