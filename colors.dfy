/** The colour-string parsers: `color` in bindings/python/app/utils.py (also
    copied into scoreboard_server.py), which falls back to white, and the one
    in scoreboard.py, which raises instead. `graphics.Color` belongs to the
    graphics library, which is not part of this model; it is taken to have
    three integer parameters red, green and blue, each defaulting to 0, so a
    call with more than three arguments raises. */
module Colors {
  import opened Wrappers
  import opened Text

  datatype Rgb = Rgb(red: int, green: int, blue: int)

  const White := Rgb(255, 255, 255)

  predicate InByteRange(c: Rgb) {
    0 <= c.red <= 255 && 0 <= c.green <= 255 && 0 <= c.blue <= 255
  }

  /** `int(v)` for each piece, in order. */
  function Conversions(pieces: seq<string>): (c: seq<Option<int>>)
    ensures |c| == |pieces|
  {
    seq(|pieces|, i requires 0 <= i < |pieces| => ParseInt(pieces[i]))
  }

  /** The list the comprehension builds, or `None` once a conversion raises. */
  function AllConverted(vals: seq<Option<int>>): Option<seq<int>> {
    if vals == [] then Some([])
    else
      match vals[0]
      case None => None
      case Some(n) =>
        match AllConverted(vals[1..])
        case None => None
        case Some(rest) => Some([n] + rest)
  }

  /** `[int(v) for v in pieces]`: `None` when any piece makes `int()` raise. */
  function ParseAll(pieces: seq<string>): Option<seq<int>> {
    AllConverted(Conversions(pieces))
  }

  /** The list is built exactly when every conversion succeeds, and then
      holds each converted value at its position. */
  lemma {:induction false} AllConvertedMeaning(vals: seq<Option<int>>)
    ensures AllConverted(vals).Some? <==> forall i :: 0 <= i < |vals| ==> vals[i].Some?
    ensures AllConverted(vals).Some? ==> |AllConverted(vals).value| == |vals|
    ensures AllConverted(vals).Some? ==>
      forall i :: 0 <= i < |vals| ==> vals[i] == Some(AllConverted(vals).value[i])
  {
    if vals != [] {
      var tail := vals[1..];
      AllConvertedMeaning(tail);
      assert forall i :: 1 <= i < |vals| ==> vals[i] == tail[i - 1];
    }
  }

  /** The comprehension succeeds exactly when `int()` accepts every piece,
      and then holds each piece's value at its position. */
  lemma ParseAllMeaning(pieces: seq<string>)
    ensures ParseAll(pieces).Some? <==> forall i :: 0 <= i < |pieces| ==> ParseInt(pieces[i]).Some?
    ensures ParseAll(pieces).Some? ==> |ParseAll(pieces).value| == |pieces|
    ensures ParseAll(pieces).Some? ==>
      forall i :: 0 <= i < |pieces| ==> ParseInt(pieces[i]) == Some(ParseAll(pieces).value[i])
  {
    var c := Conversions(pieces);
    AllConvertedMeaning(c);
    assert forall i :: 0 <= i < |pieces| ==> c[i] == ParseInt(pieces[i]);
  }

  /** `graphics.Color(*parts)`: up to three positional arguments, the
      missing ones 0; a fourth argument raises. */
  function MakeColor(parts: seq<int>): Option<Rgb> {
    if |parts| > 3 then None else Some(Rgb(Arg(parts, 0), Arg(parts, 1), Arg(parts, 2)))
  }

  /** The `i`-th positional argument, or the parameter's default 0. */
  function Arg(parts: seq<int>, i: nat): int {
    if i < |parts| then parts[i] else 0
  }

  /** The value `int()` gives the `i`-th piece, or 0 where there is no such
      piece. */
  function Field(pieces: seq<string>, i: nat): int {
    if i < |pieces| && ParseInt(pieces[i]).Some? then ParseInt(pieces[i]).value else 0
  }

  /** The colour a string denotes, if neither the conversion nor the
      constructor raises. */
  function ParseColor(value: string): Option<Rgb> {
    match ParseAll(Split(value, ','))
    case None => None
    case Some(parts) => MakeColor(parts)
  }

  /** `color(value)` of utils.py: every exception becomes white. */
  function Color(value: string): Rgb {
    match ParseColor(value)
    case Some(c) => c
    case None => White
  }

  datatype ColorError = InvalidColor(value: string)

  /** `color(value)` of scoreboard.py: every exception becomes an
      `ArgumentTypeError` naming the value. */
  function ColorOrError(value: string): Result<Rgb, ColorError> {
    match ParseColor(value)
    case Some(c) => Success(c)
    case None => Failure(InvalidColor(value))
  }

  /** A string parses to a colour exactly when it has at most three
      comma-separated pieces and `int()` accepts each of them; the pieces give
      red, green and blue in order, and a missing one is 0. */
  lemma ParseColorIff(value: string)
    ensures ParseColor(value).Some? <==>
      |Split(value, ',')| <= 3 && forall i :: 0 <= i < |Split(value, ',')| ==> ParseInt(Split(value, ',')[i]).Some?
    ensures ParseColor(value).Some? ==>
      var p := Split(value, ',');
      ParseColor(value).value == Rgb(Field(p, 0), Field(p, 1), Field(p, 2))
  {
    var p := Split(value, ',');
    ParseAllMeaning(p);
    match ParseAll(p)
    case None =>
    case Some(parts) =>
      if |p| <= 3 {
        assert forall i: nat :: i < |p| ==> Arg(parts, i) == Field(p, i);
      }
  }

  /** "r,g,b" written with `str` gives back (r, g, b). */
  lemma ColorOfTriple(r: int, g: int, b: int)
    ensures ParseColor(IntToString(r) + "," + IntToString(g) + "," + IntToString(b)) == Some(Rgb(r, g, b))
    ensures Color(IntToString(r) + "," + IntToString(g) + "," + IntToString(b)) == Rgb(r, g, b)
  {
    var x, y, z := IntToString(r), IntToString(g), IntToString(b);
    SplitOfTriple(r, g, b);
    ParseIntToString(r);
    ParseIntToString(g);
    ParseIntToString(b);
    ParseAllOfThree(x, y, z, r, g, b);
  }

  lemma SplitOfTriple(r: int, g: int, b: int)
    ensures var x, y, z := IntToString(r), IntToString(g), IntToString(b);
      Split(x + "," + y + "," + z, ',') == [x, y, z]
  {
    var x, y, z := IntToString(r), IntToString(g), IntToString(b);
    JoinOfThree(x, y, z);
    NoCommaInNumber(r);
    NoCommaInNumber(g);
    NoCommaInNumber(b);
    SplitJoin([x, y, z], ',');
  }

  lemma ParseAllOfThree(x: string, y: string, z: string, r: int, g: int, b: int)
    requires ParseInt(x) == Some(r) && ParseInt(y) == Some(g) && ParseInt(z) == Some(b)
    ensures ParseAll([x, y, z]) == Some([r, g, b])
  {
    var pieces := [x, y, z];
    var c := Conversions(pieces);
    assert pieces[0] == x && pieces[1] == y && pieces[2] == z;
    assert c[0] == Some(r) && c[1] == Some(g) && c[2] == Some(b);
    assert c == [Some(r), Some(g), Some(b)];
    AllConvertedOfThree(r, g, b);
  }

  lemma AllConvertedOfThree(r: int, g: int, b: int)
    ensures AllConverted([Some(r), Some(g), Some(b)]) == Some([r, g, b])
  {
    var nil: seq<Option<int>> := [];
    var one, two, three := [Some(b)], [Some(g), Some(b)], [Some(r), Some(g), Some(b)];
    assert AllConverted(nil) == Some([]);
    assert one[1..] == nil;
    assert AllConverted(one) == Some([b] + []);
    assert two[1..] == one && [g] + ([b] + []) == [g, b];
    assert AllConverted(two) == Some([g, b]);
    assert three[1..] == two && [r] + [g, b] == [r, g, b];
    assert AllConverted(three) == Some([r, g, b]);
  }

  lemma JoinOfThree(x: string, y: string, z: string)
    ensures Join([x, y, z], ',') == x + "," + y + "," + z
  {
    assert [x, y, z][1..] == [y, z] && [y, z][1..] == [z];
    assert Join([y, z], ',') == y + [','] + z;
  }

  /** Any string that spells "r,g,b" in decimal parses to (r, g, b). */
  lemma SpelledColor(value: string, r: int, g: int, b: int)
    requires value == IntToString(r) + "," + IntToString(g) + "," + IntToString(b)
    ensures ParseColor(value) == Some(Rgb(r, g, b))
  {
    ColorOfTriple(r, g, b);
  }

  lemma NoCommaInNumber(n: int)
    ensures ',' !in IntToString(n)
  {
    var s := IntToString(n);
    if n >= 0 {
      assert forall i :: 0 <= i < |s| ==> IsDigit(s[i]);
    } else {
      assert s == "-" + NatToString(-n);
      assert forall i :: 1 <= i < |s| ==> s[i] == NatToString(-n)[i - 1];
    }
  }

  /** `color` never raises: one piece that `int()` refuses, or more than
      three pieces, gives white. */
  lemma ColorFallsBackToWhite(value: string)
    requires |Split(value, ',')| > 3 || exists i :: 0 <= i < |Split(value, ',')| && ParseInt(Split(value, ',')[i]).None?
    ensures Color(value) == White
    ensures ColorOrError(value) == Failure(InvalidColor(value))
  {
    ParseColorIff(value);
  }

  /** The two parsers agree where the strict one succeeds, and the lenient
      one gives white exactly where the strict one raises. */
  lemma StrictAndLenientAgree(value: string)
    ensures ColorOrError(value).Success? ==> Color(value) == ColorOrError(value).value
    ensures ColorOrError(value).Failure? <==> ParseColor(value).None?
    ensures ColorOrError(value).Failure? ==> Color(value) == White && ColorOrError(value).error == InvalidColor(value)
  {
  }

  /** A string without a comma is one piece: `int()` must accept it, and it
      is then the red component with green and blue 0. */
  lemma OnePiece(w: string)
    requires ',' !in w
    ensures ParseInt(w).None? ==> Color(w) == White && ColorOrError(w) == Failure(InvalidColor(w))
    ensures ParseInt(w).Some? ==> Color(w) == Rgb(ParseInt(w).value, 0, 0)
  {
    assert Join([w], ',') == w;
    SplitJoin([w], ',');
    ParseColorIff(w);
  }

  /** One piece that `int()` refuses is white, and an error naming it. */
  lemma OnePieceIsWhite(w: string)
    requires ',' !in w && ParseInt(w) == None
    ensures Color(w) == White
    ensures ColorOrError(w) == Failure(InvalidColor(w))
  {
    OnePiece(w);
  }

  /** A single number `n` is the colour (n, 0, 0). */
  lemma OneNumberIsRed(n: int)
    ensures Color(IntToString(n)) == Rgb(n, 0, 0)
  {
    NoCommaInNumber(n);
    ParseIntToString(n);
    OnePiece(IntToString(n));
  }

  /** Two numbers "r,g" are the colour (r, g, 0). */
  lemma TwoNumbers(r: int, g: int)
    ensures Color(IntToString(r) + "," + IntToString(g)) == Rgb(r, g, 0)
  {
    var x, y := IntToString(r), IntToString(g);
    assert [x, y][1..] == [y];
    assert Join([x, y], ',') == x + "," + y;
    NoCommaInNumber(r);
    NoCommaInNumber(g);
    SplitJoin([x, y], ',');
    ParseIntToString(r);
    ParseIntToString(g);
    ParseAllOfTwo(x, y, r, g);
  }

  lemma ParseAllOfTwo(x: string, y: string, r: int, g: int)
    requires ParseInt(x) == Some(r) && ParseInt(y) == Some(g)
    ensures ParseAll([x, y]) == Some([r, g])
  {
    var pieces := [x, y];
    var c := Conversions(pieces);
    assert pieces[0] == x && pieces[1] == y;
    assert c == [Some(r), Some(g)];
    var nil: seq<Option<int>> := [];
    assert AllConverted(nil) == Some([]);
    assert c[1..] == [Some(g)] && [Some(g)][1..] == nil;
    assert AllConverted([Some(g)]) == Some([g] + []);
    assert [r] + ([g] + []) == [r, g];
  }

  /** `int("")` raises: an empty piece is never a number. */
  lemma EmptyPieceRejected()
    ensures ParseInt("") == None
  {
  }

  /** A string that starts with a comma has an empty first piece, so it is
      white whatever follows. */
  lemma LeadingCommaIsWhite(rest: string)
    ensures Color([','] + rest) == White
    ensures ColorOrError([','] + rest) == Failure(InvalidColor([','] + rest))
  {
    var value := [','] + rest;
    assert value[1..] == rest;
    assert Split(value, ',')[0] == [];
    EmptyPieceRejected();
    ColorFallsBackToWhite(value);
  }

  /** ",80,30" has three pieces, the last two of which are numbers: only its
      empty first one makes it white. */
  lemma EmptyFirstPieceIsWhite()
    ensures Split(",80,30", ',') == ["", "80", "30"]
    ensures ParseInt("") == None && ParseInt("80") == Some(80) && ParseInt("30") == Some(30)
    ensures Color(",80,30") == White
  {
    SplitOfEmptyFirst();
    ParseTens(8);
    ParseTens(3);
    assert [DigitChar(8), '0'] == "80" && [DigitChar(3), '0'] == "30";
    assert ",80,30" == [','] + "80,30";
    LeadingCommaIsWhite("80,30");
  }

  lemma SplitOfEmptyFirst()
    ensures Split(",80,30", ',') == ["", "80", "30"]
  {
    JoinOfThree("", "80", "30");
    assert "" + "," + "80" + "," + "30" == ",80,30";
    SplitJoin(["", "80", "30"], ',');
  }

  /** A two-digit multiple of ten reads back as its value. */
  lemma ParseTens(n: nat)
    requires 0 < n < 10
    ensures ParseInt([DigitChar(n), '0']) == Some(10 * n)
  {
    assert NatToString(10 * n) == NatToString(n) + [DigitChar(0)];
    assert IntToString(10 * n) == [DigitChar(n), '0'];
    ParseIntToString(10 * n);
  }

  /** A piece led by the information separator U+001C is not a number to
      `int()`, whatever follows the separator, so a colour string whose
      first piece starts with it is white, alone or before a comma. */
  lemma SeparatorLedIsWhite(first: string, rest: string)
    requires first != [] && first[0] == 28 as char && ',' !in first
    ensures Color(first) == White && ColorOrError(first) == Failure(InvalidColor(first))
    ensures var value := first + [','] + rest;
      Color(value) == White && ColorOrError(value) == Failure(InvalidColor(value))
  {
    ParseNonNumeric(first);
    OnePieceIsWhite(first);
    var value := first + [','] + rest;
    var tail := [','] + rest;
    assert value == first + tail;
    assert tail[1..] == rest && Split(tail, ',')[0] == [];
    SplitPrefix(first, tail, ',');
    assert Split(value, ',')[0] == first;
    ColorFallsBackToWhite(value);
  }

  /** An empty string is white: its one piece is empty and `int("")` raises. */
  lemma EmptyIsWhite()
    ensures Color("") == White
  {
    EmptyPieceRejected();
    OnePieceIsWhite("");
  }

  /** `int("bogus")` raises. */
  lemma BogusRejected()
    ensures ',' !in "bogus"
    ensures ParseInt("bogus") == None
  {
    var w := "bogus";
    assert w[0] == 'b' && w[|w| - 1] == 's';
    ParseNonNumeric(w);
  }

  /** A word is white, and the strict parser names it in its error. */
  lemma WordIsWhite()
    ensures Color("bogus") == White
    ensures ColorOrError("bogus") == Failure(InvalidColor("bogus"))
  {
    BogusRejected();
    OnePieceIsWhite("bogus");
  }
}
