/** The demonstration countdown of bindings/python/app/scoreboard.py: its
    raising colour option parser and the loop in `run` that paints both team
    halves and a clock label from "05:58" down to "05:00". */
module Demo {
  import opened Wrappers
  import opened Text
  import opened Colors
  import opened Display

  const HomeGreen := Rgb(0, 80, 30)
  const AwayRed := Rgb(80, 0, 30)
  const DemoBandGrey := Rgb(10, 10, 10)

  /** `"05:" + str(i)` when `str(i)` has two characters, else `"05:0" + str(i)`. */
  function CountdownLabel(i: int): string {
    var t := IntToString(i);
    if |t| == 2 then "05:" + t else "05:0" + t
  }

  /** For 0..99 the label is "05:" and the value padded to two digits, five
      characters in all. */
  lemma CountdownLabelPadded(i: int)
    requires 0 <= i < 100
    ensures CountdownLabel(i) == "05:" + Pad2(i)
    ensures |CountdownLabel(i)| == 5
  {
    if i < 10 {
      assert IntToString(i) == NatToString(i);
    } else {
      Pad2Wide(i);
      assert |NatToString(i)| == 2 by {
        assert NatToString(i) == NatToString(i / 10) + [DigitChar(i % 10)];
      }
    }
  }

  lemma CountdownEnds()
    ensures CountdownLabel(58) == "05:58"
    ensures CountdownLabel(0) == "05:00"
  {
    assert NatToString(58) == NatToString(5) + [DigitChar(8)];
    assert DigitChar(5) == '5' && DigitChar(8) == '8' && DigitChar(0) == '0';
  }

  /** The drawing calls of one pass, in order: the two team halves, the two
      fixed scores, the divider, then the clock band and its label. */
  function DemoFrameOps(textColor: Rgb, time: string): seq<DrawOp> {
    [ Paint(0, 32, 13, 32, HomeGreen),
      Paint(32, 64, 13, 32, AwayRed),
      Text(6, 29, White, "25"),
      Text(38, 29, White, "14"),
      Line(0, 12, 63, 12, White),
      Paint(0, 64, 0, 12, DemoBandGrey),
      Text(15, 10, textColor, time) ]
  }

  /** After the background fill, a pass leaves every pixel in its region's
      colour. */
  lemma DemoOpsPaint(textColor: Rgb, time: string, background: Rgb, before: Rgb, x: int, y: int)
    ensures PixelAfter([Fill(background)] + DemoFrameOps(textColor, time), before, x, y) ==
      LayoutPixel(background, HomeGreen, AwayRed, DemoBandGrey, x, y)
  {
    var ops := [Fill(background)] + DemoFrameOps(textColor, time);
    assert FrameShaped(ops, Palette(background, HomeGreen, AwayRed), DemoBandGrey);
    LayoutOps(ops, Palette(background, HomeGreen, AwayRed), DemoBandGrey, before, x, y);
  }

  /** `updateClock`: grey out rows 0..11 and draw the time there. */
  method UpdateClock(canvas: array2<Rgb>, time: string, textColor: Rgb) returns (ops: seq<DrawOp>)
    modifies canvas
    ensures ops == [Paint(0, 64, 0, 12, DemoBandGrey), Text(15, 10, textColor, time)]
    ensures forall x, y :: 0 <= x < canvas.Length0 && 0 <= y < canvas.Length1 ==>
      canvas[x, y] == if InClockBand(x, y) then DemoBandGrey else old(canvas[x, y])
  {
    FillRegion(canvas, 0, 64, 0, 12, DemoBandGrey);
    ops := [Paint(0, 64, 0, 12, DemoBandGrey), Text(15, 10, textColor, time)];
  }

  /** One pass of the loop with value `i`: the team halves, the fixed texts,
      and the clock. */
  method DemoPass(canvas: array2<Rgb>, i: int, textColor: Rgb) returns (ops: seq<DrawOp>)
    modifies canvas
    ensures ops == DemoFrameOps(textColor, CountdownLabel(i))
    ensures forall x, y :: 0 <= x < canvas.Length0 && 0 <= y < canvas.Length1 ==>
      canvas[x, y] == if InClockBand(x, y) then DemoBandGrey
                      else if InHomeHalf(x, y) then HomeGreen
                      else if InAwayHalf(x, y) then AwayRed
                      else old(canvas[x, y])
  {
    FillRegion(canvas, 0, 32, 13, 32, HomeGreen);
    FillRegion(canvas, 32, 64, 13, 32, AwayRed);
    ops := [ Paint(0, 32, 13, 32, HomeGreen), Paint(32, 64, 13, 32, AwayRed),
             Text(6, 29, White, "25"), Text(38, 29, White, "14"), Line(0, 12, 63, 12, White) ];
    var t := IntToString(i);
    var clock;
    if |t| == 2 {
      clock := UpdateClock(canvas, "05:" + t, textColor);
    } else {
      clock := UpdateClock(canvas, "05:0" + t, textColor);
    }
    ops := ops + clock;
  }

  /** `run`: fill the canvas with the background once, then make 59 passes
      with `i` going 58, 57, ..., 0. Pass `k` draws the label of `58 - k`,
      and the canvas ends with both halves and the clock band painted over
      the background. */
  method Countdown(canvas: array2<Rgb>, background: Rgb, textColor: Rgb) returns (frames: seq<seq<DrawOp>>)
    modifies canvas
    ensures |frames| == 59
    ensures forall k :: 0 <= k < 59 ==> frames[k] == DemoFrameOps(textColor, CountdownLabel(58 - k))
    ensures forall x, y :: 0 <= x < canvas.Length0 && 0 <= y < canvas.Length1 ==>
      canvas[x, y] == LayoutPixel(background, HomeGreen, AwayRed, DemoBandGrey, x, y)
  {
    FillRegion(canvas, 0, canvas.Length0, 0, canvas.Length1, background);
    frames := [];
    var i := 59;
    while i > 0
      invariant 0 <= i <= 59
      invariant |frames| == 59 - i
      invariant forall k :: 0 <= k < |frames| ==> frames[k] == DemoFrameOps(textColor, CountdownLabel(58 - k))
      invariant forall x, y :: 0 <= x < canvas.Length0 && 0 <= y < canvas.Length1 ==>
        canvas[x, y] == if i == 59 then background else LayoutPixel(background, HomeGreen, AwayRed, DemoBandGrey, x, y)
    {
      i := i - 1;
      var ops := DemoPass(canvas, i, textColor);
      frames := frames + [ops];
    }
  }

  /** Labels of every pass have five characters, start at "05:58", end at
      "05:00", and each pass counts down by one second. */
  lemma CountdownLabels(k: int)
    requires 0 <= k < 59
    ensures |CountdownLabel(58 - k)| == 5
    ensures CountdownLabel(58 - k) == "05:" + Pad2(58 - k)
    ensures ParseInt(CountdownLabel(58 - k)[3..]) == Some(58 - k)
  {
    CountdownLabelPadded(58 - k);
    Pad2TwoDigits(58 - k);
    assert CountdownLabel(58 - k)[3..] == Pad2(58 - k);
  }

  lemma TwoFiftyFive()
    ensures IntToString(255) == "255"
  {
    assert NatToString(255) == NatToString(25) + [DigitChar(5)];
    assert NatToString(25) == NatToString(2) + [DigitChar(5)];
    assert DigitChar(2) == '2' && DigitChar(5) == '5';
  }

  /** The text colour default of `run`, "255,255,255", is white. */
  lemma TextColorDefault()
    ensures ColorOrError("255,255,255") == Success(White)
  {
    var f := IntToString(255);
    TwoFiftyFive();
    assert "255,255,255" == f + "," + f + "," + f;
    ColorOfTriple(255, 255, 255);
  }

  /** The background default of `run`, "0,0,0", is black. */
  lemma BackgroundDefault()
    ensures ColorOrError("0,0,0") == Success(Rgb(0, 0, 0))
  {
    var z := IntToString(0);
    assert "0,0,0" == z + "," + z + "," + z;
    ColorOfTriple(0, 0, 0);
  }
}
