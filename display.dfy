/** `draw_frame` of bindings/python/app/display.py (copied in
    scoreboard_server.py): the texts it derives from the record and the
    regions it paints. The canvas is a two-dimensional array indexed
    `[x, y]`; `SetPixel` ignores coordinates outside it. Each frame also
    returns its drawing calls, in order, as `DrawOp` values: the fills, whose
    pixels the model paints, and the glyphs and lines, which the graphics
    library draws and the model does not paint. */
module Display {
  import opened Wrappers
  import opened Text
  import opened Colors
  import opened ScoreState
  import Messages
  import Transition

  const Width := 64
  const Height := 32

  const ClockBandGrey := Rgb(20, 20, 20)
  const TextColor := Rgb(255, 255, 255)
  const DividerGrey := Rgb(100, 100, 100)

  /** A drawing call: `canvas.Fill`, a `SetPixel` loop over the rows
      `range(y0, y1)` and columns `range(x0, x1)`, `graphics.DrawText` or
      `graphics.DrawLine`. */
  datatype DrawOp =
    | Fill(color: Rgb)
    | Paint(x0: int, x1: int, y0: int, y1: int, color: Rgb)
    | Text(x: int, y: int, color: Rgb, text: string)
    | Line(x0: int, y0: int, x1: int, y1: int, color: Rgb)

  /** `divmod(seconds, 60)`: Python's floor division, which is Dafny's
      division for a positive divisor. */
  function DivMod60(seconds: int): (r: (int, int))
    ensures 0 <= r.1 < 60 && r.0 * 60 + r.1 == seconds
  {
    (seconds / 60, seconds % 60)
  }

  /** `f"{mins:02d}:{secs:02d}"`. */
  function ClockText(seconds: int): string {
    var (mins, secs) := DivMod60(seconds);
    Pad2(mins) + ":" + Pad2(secs)
  }

  /** `name[:5]`. */
  function NameLabel(name: string): string {
    Prefix(name, 5)
  }

  /** `str(score)`. */
  function ScoreLabel(score: int): string {
    IntToString(score)
  }

  lemma FieldsOfClockText(p: string, q: string)
    requires |p| == 2 && |q| == 2
    ensures var t := p + ":" + q; |t| == 5 && t[2] == ':' && t[..2] == p && t[3..] == q
  {
  }

  /** From 00:00 to 99:59 the clock text is five characters, a colon in the
      middle, and the two fields read back as minutes and seconds that give
      the seconds again. */
  lemma ClockTextReadsBack(seconds: int)
    requires 0 <= seconds < 6000
    ensures var t := ClockText(seconds);
      && |t| == 5 && t[2] == ':'
      && ParseInt(t[..2]).Some? && ParseInt(t[3..]).Some?
      && ParseInt(t[..2]).value * 60 + ParseInt(t[3..]).value == seconds
      && 0 <= ParseInt(t[3..]).value < 60
  {
    var mins := seconds / 60;
    var secs := seconds % 60;
    assert DivMod60(seconds) == (mins, secs);
    assert mins < 100;
    Pad2TwoDigits(mins);
    Pad2TwoDigits(secs);
    assert ClockText(seconds) == Pad2(mins) + ":" + Pad2(secs);
    FieldsOfClockText(Pad2(mins), Pad2(secs));
  }

  /** A clock set below zero shows Python's floor division: -1 second is
      "-1:59". */
  lemma NegativeClockText()
    ensures ClockText(-1) == "-1:59"
  {
    assert DivMod60(-1) == (-1, 59);
    assert NatToString(59) == NatToString(5) + [DigitChar(9)];
  }

  /** The name label is the first five characters of the stored name. */
  lemma NameLabelIsPrefix(name: string)
    ensures |NameLabel(name)| == (if |name| < 5 then |name| else 5)
    ensures NameLabel(name) == name[..|NameLabel(name)|]
  {
  }

  /** The score label is the decimal rendering: `int()` reads it back. */
  lemma ScoreLabelReadsBack(score: int)
    ensures ParseInt(ScoreLabel(score)) == Some(score)
  {
    ParseIntToString(score);
  }

  /** The three colours a frame parses from the record: background, home
      half and away half. */
  datatype Palette = Palette(bg: Rgb, home: Rgb, away: Rgb)

  function BoardPalette(b: Board): Palette {
    Palette(Color(b.bgColor), Color(b.homeBgColor), Color(b.awayBgColor))
  }

  /** The drawing calls of one frame, in the order they are made, with the
      colours `p` parsed from the record. */
  function FrameOps(b: Board, p: Palette): seq<DrawOp> {
    [ Fill(p.bg),
      Paint(0, 32, 13, 32, p.home),
      Paint(32, 64, 13, 32, p.away),
      Text(2, 11, TextColor, NameLabel(b.homeName)),
      Text(34, 11, TextColor, NameLabel(b.awayName)),
      Text(6, 29, TextColor, ScoreLabel(b.homeScore)),
      Text(38, 29, TextColor, ScoreLabel(b.awayScore)),
      Line(0, 12, 63, 12, DividerGrey),
      Paint(0, 64, 0, 12, ClockBandGrey),
      Text(15, 10, TextColor, ClockText(b.clockSeconds)) ]
  }

  /** The colour `op` leaves at `(x, y)` on a pixel that was `under`. */
  function Paints(op: DrawOp, under: Rgb, x: int, y: int): Rgb {
    match op
    case Fill(c) => c
    case Paint(x0, x1, y0, y1, c) => if x0 <= x < x1 && y0 <= y < y1 then c else under
    case _ => under
  }

  /** The colour the fills among `ops`, made in order, leave at `(x, y)` on a
      pixel that was `before`; glyphs and lines are not painted. */
  function PixelAfter(ops: seq<DrawOp>, before: Rgb, x: int, y: int): Rgb
    decreases |ops|
  {
    if ops == [] then before
    else Paints(ops[|ops| - 1], PixelAfter(ops[..|ops| - 1], before, x, y), x, y)
  }

  predicate InHomeHalf(x: int, y: int) { 13 <= y < 32 && 0 <= x < 32 }
  predicate InAwayHalf(x: int, y: int) { 13 <= y < 32 && 32 <= x < 64 }
  predicate InClockBand(x: int, y: int) { 0 <= y < 12 && 0 <= x < 64 }

  /** The colour of a pixel once the regions are painted in the order of a
      frame: whole-canvas background, the two team halves, then the clock
      band. */
  function LayoutPixel(bg: Rgb, home: Rgb, away: Rgb, band: Rgb, x: int, y: int): Rgb {
    if InClockBand(x, y) then band else TeamPixel(bg, home, away, x, y)
  }

  /** The colour of a pixel after the background fill and the two team
      halves. */
  function TeamPixel(bg: Rgb, home: Rgb, away: Rgb, x: int, y: int): Rgb {
    if InHomeHalf(x, y) then home
    else if InAwayHalf(x, y) then away
    else bg
  }

  /** The pixels of `draw_frame`: each region in the colour its string in
      the record parses to, and the clock band grey. */
  function FramePixel(b: Board, x: int, y: int): Rgb {
    var p := BoardPalette(b);
    LayoutPixel(p.bg, p.home, p.away, ClockBandGrey, x, y)
  }

  /** A colour update for a team whose value does not parse is stored as
      sent, and every later frame of that record paints the team's half
      white: the string is kept, and only drawing falls back. */
  lemma UnparsableTeamColor(b: Board, team: string, v: string, x: int, y: int)
    requires team == "home" || team == "away"
    requires ParseColor(v).None?
    ensures var r := Transition.Apply(b, Messages.SetColor(Some(team), Some(v)));
      && r.Success?
      && r.value == (if team == "home" then b.(homeBgColor := v) else b.(awayBgColor := v))
      && (team == "home" && InHomeHalf(x, y) ==> FramePixel(r.value, x, y) == White)
      && (team == "away" && InAwayHalf(x, y) ==> FramePixel(r.value, x, y) == White)
  {
    Transition.SetColorVerbatim(b, Some(team), Some(v));
    assert Color(v) == White;
  }

  /** On the 64 x 32 panel the two halves are disjoint and cover all 64
      columns of rows 13..31, and neither reaches the clock band in rows
      0..11; row 12 keeps the background. */
  lemma LayoutRegions(x: int, y: int)
    requires 0 <= x < Width && 0 <= y < Height
    ensures !(InHomeHalf(x, y) && InAwayHalf(x, y))
    ensures 13 <= y ==> InHomeHalf(x, y) || InAwayHalf(x, y)
    ensures InClockBand(x, y) <==> y < 12
    ensures InClockBand(x, y) ==> !InHomeHalf(x, y) && !InAwayHalf(x, y)
    ensures y == 12 ==> !InClockBand(x, y) && !InHomeHalf(x, y) && !InAwayHalf(x, y)
  {
  }

  lemma PixelAfterPrefix(ops: seq<DrawOp>, k: int, before: Rgb, x: int, y: int)
    requires 0 < k <= |ops|
    ensures PixelAfter(ops[..k], before, x, y) == Paints(ops[k - 1], PixelAfter(ops[..k - 1], before, x, y), x, y)
  {
    assert ops[..k][..k - 1] == ops[..k - 1];
  }

  /** Made in order, the fills among a frame's calls leave every pixel in
      the colour of its region, whatever was there before; with the record's
      own colours that is `FramePixel`. */
  lemma FrameOpsPaint(b: Board, p: Palette, before: Rgb, x: int, y: int)
    ensures PixelAfter(FrameOps(b, p), before, x, y) == LayoutPixel(p.bg, p.home, p.away, ClockBandGrey, x, y)
  {
    LayoutOps(FrameOps(b, p), p, ClockBandGrey, before, x, y);
  }

  /** Calls in the order of a frame: the background fill, the two halves,
      any calls that paint nothing, the clock band in colour `band`, and a
      last call that paints nothing. */
  predicate FrameShaped(ops: seq<DrawOp>, p: Palette, band: Rgb) {
    && |ops| >= 5
    && ops[0] == Fill(p.bg) && ops[1] == Paint(0, 32, 13, 32, p.home) && ops[2] == Paint(32, 64, 13, 32, p.away)
    && (forall i :: 3 <= i < |ops| - 2 ==> ops[i].Text? || ops[i].Line?)
    && ops[|ops| - 2] == Paint(0, 64, 0, 12, band)
    && (ops[|ops| - 1].Text? || ops[|ops| - 1].Line?)
  }

  lemma LayoutOps(ops: seq<DrawOp>, p: Palette, band: Rgb, before: Rgb, x: int, y: int)
    requires FrameShaped(ops, p, band)
    ensures PixelAfter(ops, before, x, y) == LayoutPixel(p.bg, p.home, p.away, band, x, y)
  {
    var n := |ops|;
    assert ops[..n] == ops && ops[..0] == [];
    PixelAfterPrefix(ops, n, before, x, y);
    PixelAfterPrefix(ops, n - 1, before, x, y);
    PixelAfterPrefix(ops, 3, before, x, y);
    PixelAfterPrefix(ops, 2, before, x, y);
    PixelAfterPrefix(ops, 1, before, x, y);
    PaintNothing(ops, p, band, n - 2, before, x, y);
  }

  /** The calls between the halves and the band leave the pixels as the
      halves made them. */
  lemma {:induction false} PaintNothing(ops: seq<DrawOp>, p: Palette, band: Rgb, k: int, before: Rgb, x: int, y: int)
    requires FrameShaped(ops, p, band) && 3 <= k <= |ops| - 2
    ensures PixelAfter(ops[..k], before, x, y) == PixelAfter(ops[..3], before, x, y)
  {
    if k > 3 {
      PixelAfterPrefix(ops, k, before, x, y);
      PaintNothing(ops, p, band, k - 1, before, x, y);
    }
  }

  /** The name labels are drawn on baseline row 11, inside the clock band,
      and the band is painted grey after them; only the clock text follows. */
  lemma BandAfterNames(b: Board, p: Palette)
    ensures var ops := FrameOps(b, p);
      && |ops| == 10
      && ops[3].Text? && ops[4].Text? && InClockBand(ops[3].x, ops[3].y) && InClockBand(ops[4].x, ops[4].y)
      && ops[8] == Paint(0, 64, 0, 12, ClockBandGrey)
      && (forall x, y :: InClockBand(x, y) <==> ops[8].x0 <= x < ops[8].x1 && ops[8].y0 <= y < ops[8].y1)
      && ops[9].Text?
  {
  }

  ghost predicate InRect(x: int, y: int, x0: int, x1: int, y0: int, y1: int) {
    x0 <= x < x1 && y0 <= y < y1
  }

  /** `for y in range(y0, y1): for x in range(x0, x1): canvas.SetPixel(x, y, c)`. */
  method FillRegion(canvas: array2<Rgb>, x0: int, x1: int, y0: int, y1: int, c: Rgb)
    modifies canvas
    ensures forall x, y :: 0 <= x < canvas.Length0 && 0 <= y < canvas.Length1 ==>
      canvas[x, y] == if InRect(x, y, x0, x1, y0, y1) then c else old(canvas[x, y])
  {
    var y := y0;
    while y < y1
      invariant y == y0 || y0 < y <= y1
      invariant forall i, j :: 0 <= i < canvas.Length0 && 0 <= j < canvas.Length1 ==>
        canvas[i, j] == if InRect(i, j, x0, x1, y0, y) then c else old(canvas[i, j])
    {
      var x := x0;
      while x < x1
        invariant x == x0 || x0 < x <= x1
        invariant forall i, j :: 0 <= i < canvas.Length0 && 0 <= j < canvas.Length1 ==>
          canvas[i, j] == if InRect(i, j, x0, x1, y0, y) || InRect(i, j, x0, x, y, y + 1) then c else old(canvas[i, j])
      {
        if 0 <= x < canvas.Length0 && 0 <= y < canvas.Length1 {
          canvas[x, y] := c;
        }
        x := x + 1;
      }
      y := y + 1;
    }
  }

  /** The background fill and the two team-half loops. */
  method PaintTeams(canvas: array2<Rgb>, bg: Rgb, home: Rgb, away: Rgb) returns (ops: seq<DrawOp>)
    modifies canvas
    ensures ops == [Fill(bg), Paint(0, 32, 13, 32, home), Paint(32, 64, 13, 32, away)]
    ensures forall x, y :: 0 <= x < canvas.Length0 && 0 <= y < canvas.Length1 ==>
      canvas[x, y] == TeamPixel(bg, home, away, x, y)
  {
    FillRegion(canvas, 0, canvas.Length0, 0, canvas.Length1, bg);
    FillRegion(canvas, 0, 32, 13, 32, home);
    FillRegion(canvas, 32, 64, 13, 32, away);
    ops := [Fill(bg), Paint(0, 32, 13, 32, home), Paint(32, 64, 13, 32, away)];
  }

  /** `draw_frame(canvas)`: nothing without a canvas; otherwise the colours
      are parsed from the record, every pixel ends in its region's colour and
      the drawing calls are those of `FrameOps`. */
  method DrawFrame(canvas: array2?<Rgb>, b: Board) returns (ops: seq<DrawOp>)
    modifies canvas
    ensures canvas == null ==> ops == []
    ensures canvas != null ==> ops == FrameOps(b, BoardPalette(b))
    ensures canvas != null ==> forall x, y :: 0 <= x < canvas.Length0 && 0 <= y < canvas.Length1 ==>
      canvas[x, y] == FramePixel(b, x, y)
  {
    if canvas == null {
      return [];
    }
    var p := BoardPalette(b);
    ops := DrawOn(canvas, b, p);
  }

  /** The body of `draw_frame` once a canvas is there and the colours `p`
      are parsed, in its order: the fills, the four labels, the divider, the
      clock band, the clock. */
  method DrawOn(canvas: array2<Rgb>, b: Board, p: Palette) returns (ops: seq<DrawOp>)
    modifies canvas
    ensures ops == FrameOps(b, p)
    ensures forall x, y :: 0 <= x < canvas.Length0 && 0 <= y < canvas.Length1 ==>
      canvas[x, y] == LayoutPixel(p.bg, p.home, p.away, ClockBandGrey, x, y)
  {
    ops := PaintTeams(canvas, p.bg, p.home, p.away);
    ops := ops + [ Text(2, 11, TextColor, NameLabel(b.homeName)),
                   Text(34, 11, TextColor, NameLabel(b.awayName)),
                   Text(6, 29, TextColor, ScoreLabel(b.homeScore)),
                   Text(38, 29, TextColor, ScoreLabel(b.awayScore)),
                   Line(0, 12, 63, 12, DividerGrey) ];
    FillRegion(canvas, 0, 64, 0, 12, ClockBandGrey);
    ops := ops + [Paint(0, 64, 0, 12, ClockBandGrey), Text(15, 10, TextColor, ClockText(b.clockSeconds))];
  }
}
