/** The Python text conversions the scoreboard relies on: `str(n)` of an
    integer, `int(s)` of a string, `s.split(sep)`, the slice `s[:n]` and the
    `02d` format specification. */
module Text {
  import opened Wrappers

  predicate IsDigit(c: char) { '0' <= c <= '9' }

  predicate AllDigits(s: string) { forall i :: 0 <= i < |s| ==> IsDigit(s[i]) }

  function DigitValue(c: char): (d: nat)
    requires IsDigit(c)
    ensures d < 10
  {
    (c as int) - ('0' as int)
  }

  function DigitChar(d: nat): (c: char)
    requires d < 10
    ensures IsDigit(c) && DigitValue(c) == d
  {
    ((('0' as int) + d) as char)
  }

  /** `str(n)` for a non-negative integer: the shortest decimal rendering. */
  function NatToString(n: nat): (s: string)
    ensures |s| >= 1 && AllDigits(s)
    ensures (|s| == 1) == (n < 10)
    ensures |s| == 1 || s[0] != '0'
    decreases n
  {
    if n < 10 then [DigitChar(n)] else NatToString(n / 10) + [DigitChar(n % 10)]
  }

  /** `str(n)` for any integer: a minus sign in front of a negative one. */
  function IntToString(n: int): (s: string)
    ensures |s| >= 1
    ensures (s[0] == '-') == (n < 0)
  {
    if n < 0 then "-" + NatToString(-n) else NatToString(n)
  }

  /** The value of a string of decimal digits, most significant first. */
  function DecimalValue(s: string): nat
    requires AllDigits(s)
  {
    if s == [] then 0 else DecimalValue(s[..|s| - 1]) * 10 + DigitValue(s[|s| - 1])
  }

  lemma {:induction false} DecimalValueOfNatToString(n: nat)
    ensures DecimalValue(NatToString(n)) == n
    decreases n
  {
    if n >= 10 {
      var s := NatToString(n);
      assert s[..|s| - 1] == NatToString(n / 10);
      DecimalValueOfNatToString(n / 10);
    }
  }

  predicate AllSpace(s: string) { forall i :: 0 <= i < |s| ==> IsSpace(s[i]) }

  /** The characters below U+0100 that `int()` skips around a number: the
      ASCII space, tab, line feed, vertical tab, form feed and carriage
      return, and the two non-ASCII spaces U+0085 and U+00A0, which `int()`
      first turns into an ASCII space. The separators U+001C..U+001F, for
      which `str.isspace()` holds, are not among them. */
  predicate IsSpace(c: char) {
    var k := c as int;
    k == 32 || 9 <= k <= 13 || k == 0x85 || k == 0xA0
  }

  /** The white space `int()` skips, removed from the left. */
  function TrimLeft(s: string): (r: string)
    ensures r == [] || !IsSpace(r[0])
  {
    if s != [] && IsSpace(s[0]) then TrimLeft(s[1..]) else s
  }

  /** The white space `int()` skips, removed from the right. */
  function TrimRight(s: string): (r: string)
    ensures r == [] || !IsSpace(r[|r| - 1])
  {
    if s != [] && IsSpace(s[|s| - 1]) then TrimRight(s[..|s| - 1]) else s
  }

  /** `lstrip` removes a prefix of white space. */
  lemma {:induction false} TrimLeftPart(s: string)
    ensures |TrimLeft(s)| <= |s| && TrimLeft(s) == s[|s| - |TrimLeft(s)|..]
    ensures AllSpace(s[..|s| - |TrimLeft(s)|])
  {
    if s != [] && IsSpace(s[0]) {
      var t := s[1..];
      TrimLeftPart(t);
      var m := |TrimLeft(t)|;
      assert s[|s| - m..] == t[|t| - m..];
      assert s[..|s| - m] == [s[0]] + t[..|t| - m];
    }
  }

  /** `rstrip` removes a suffix of white space. */
  lemma {:induction false} TrimRightPart(s: string)
    ensures |TrimRight(s)| <= |s| && TrimRight(s) == s[..|TrimRight(s)|]
    ensures AllSpace(s[|TrimRight(s)|..])
  {
    if s != [] && IsSpace(s[|s| - 1]) {
      var t := s[..|s| - 1];
      TrimRightPart(t);
      var m := |TrimRight(t)|;
      assert s[..m] == t[..m];
      assert s[m..] == t[m..] + [s[|s| - 1]];
    }
  }

  /** The token `int()` reads: the surrounding white space it skips removed. */
  function Strip(s: string): string {
    TrimRight(TrimLeft(s))
  }

  lemma {:induction false} TrimLeftOfSpaces(pre: string, s: string)
    requires AllSpace(pre) && s != [] && !IsSpace(s[0])
    ensures TrimLeft(pre + s) == s
    decreases |pre|
  {
    if pre != [] {
      assert (pre + s)[1..] == pre[1..] + s;
      TrimLeftOfSpaces(pre[1..], s);
    } else {
      assert pre + s == s;
    }
  }

  lemma {:induction false} TrimRightOfSpaces(s: string, post: string)
    requires AllSpace(post) && s != [] && !IsSpace(s[|s| - 1])
    ensures TrimRight(s + post) == s
    decreases |post|
  {
    if post != [] {
      assert (s + post)[..|s + post| - 1] == s + post[..|post| - 1];
      TrimRightOfSpaces(s, post[..|post| - 1]);
    } else {
      assert s + post == s;
    }
  }

  /** White space around a token that neither starts nor ends with white
      space is exactly what `Strip` removes. */
  lemma StripSurroundingSpace(pre: string, s: string, post: string)
    requires AllSpace(pre) && AllSpace(post)
    requires s != [] && !IsSpace(s[0]) && !IsSpace(s[|s| - 1])
    ensures Strip(pre + s + post) == s
  {
    assert pre + s + post == pre + (s + post);
    TrimLeftOfSpaces(pre, s + post);
    TrimRightOfSpaces(s, post);
  }

  /** The digit part `int()` accepts: decimal digits, with single underscores
      allowed between two digits. */
  predicate DigitGroup(s: string) {
    && |s| > 0 && IsDigit(s[0]) && IsDigit(s[|s| - 1])
    && (forall i :: 0 <= i < |s| ==> IsDigit(s[i]) || s[i] == '_')
    && (forall i :: 0 <= i < |s| - 1 ==> s[i] != '_' || s[i + 1] != '_')
  }

  function DropUnderscores(s: string): (r: string)
    requires forall i :: 0 <= i < |s| ==> IsDigit(s[i]) || s[i] == '_'
    ensures AllDigits(r)
  {
    if s == [] then []
    else if s[0] == '_' then DropUnderscores(s[1..])
    else [s[0]] + DropUnderscores(s[1..])
  }

  lemma {:induction false} DropUnderscoresOfDigits(s: string)
    requires AllDigits(s)
    ensures DropUnderscores(s) == s
  {
    if s != [] {
      DropUnderscoresOfDigits(s[1..]);
    }
  }

  /** `int(s)` in base 10: surrounding white space, an optional sign, then a
      digit group; anything else makes `int()` raise, which is `None` here. */
  function ParseInt(s: string): Option<int> {
    ParseToken(Strip(s))
  }

  /** What `int()` makes of the text once the white space is stripped. */
  function ParseToken(t: string): Option<int> {
    if t != [] && (t[0] == '-' || t[0] == '+') then
      match ParseDigitGroup(t[1..])
      case Some(n) =>
        var m: int := n;
        Some(if t[0] == '-' then -m else m)
      case None => None
    else
      match ParseDigitGroup(t)
      case Some(n) => Some(n)
      case None => None
  }

  function ParseDigitGroup(d: string): Option<nat> {
    if DigitGroup(d) then Some(DecimalValue(DropUnderscores(d))) else None
  }

  lemma StripToken(s: string)
    requires s != [] && !IsSpace(s[0]) && !IsSpace(s[|s| - 1])
    ensures Strip(s) == s
  {
    assert [] + s == s;
    TrimLeftOfSpaces([], s);
    assert s + [] == s;
    TrimRightOfSpaces(s, []);
  }

  /** Text that does not start with white space keeps its first character
      through `Strip`, whatever it ends with. */
  lemma StripKeepsHead(s: string)
    requires s != [] && !IsSpace(s[0])
    ensures Strip(s) != [] && Strip(s)[0] == s[0]
  {
    assert TrimLeft(s) == s;
    TrimRightPart(s);
    assert s[0..] == s;
  }

  /** Text that starts with neither white space, a sign nor a digit is not a
      number, whatever follows. */
  lemma ParseNonNumeric(s: string)
    requires s != [] && !IsSpace(s[0])
    requires !IsDigit(s[0]) && s[0] != '-' && s[0] != '+'
    ensures ParseInt(s) == None
  {
    StripKeepsHead(s);
    assert !DigitGroup(Strip(s));
  }

  /** The information separator U+001C is not skipped: `int("\x1c5")`
      raises, although `"\x1c".isspace()` holds. */
  lemma SeparatorNotSkipped()
    ensures ParseInt([28 as char, '5']) == None
  {
    var s := [28 as char, '5'];
    ParseNonNumeric(s);
  }

  lemma ParseDigitsOfNat(n: nat)
    ensures ParseDigitGroup(NatToString(n)) == Some(n)
  {
    var s := NatToString(n);
    assert DigitGroup(s);
    DropUnderscoresOfDigits(s);
    DecimalValueOfNatToString(n);
  }

  /** A minus sign in front of a digit group negates its value. */
  lemma ParseNegativeToken(d: string, n: nat)
    requires ParseDigitGroup(d) == Some(n)
    ensures ParseToken(['-'] + d) == Some(-(n as int))
  {
    assert (['-'] + d)[1..] == d;
  }

  lemma ParseNonNegative(n: nat)
    ensures ParseInt(NatToString(n)) == Some(n)
  {
    var s := NatToString(n);
    StripToken(s);
    ParseDigitsOfNat(n);
    assert !(s[0] == '-' || s[0] == '+');
  }

  lemma ParseMinus(m: nat)
    ensures ParseInt("-" + NatToString(m)) == Some(-(m as int))
  {
    var d := NatToString(m);
    var s := ['-'] + d;
    ParseDigitsOfNat(m);
    ParseNegativeToken(d, m);
    assert s[|s| - 1] == d[|d| - 1];
    StripToken(s);
  }

  /** `int(str(n)) == n` for every integer `n`. */
  lemma ParseIntToString(n: int)
    ensures ParseInt(IntToString(n)) == Some(n)
  {
    if n < 0 {
      var m: nat := -n;
      var s := "-" + NatToString(m);
      assert IntToString(n) == s;
      ParseMinus(m);
      assert ParseInt(s) == Some(n);
    } else {
      ParseNonNegative(n);
    }
  }

  /** `int()` also accepts the rendering of a number padded with white
      space, as in the colour "0, 80, 30". */
  lemma ParseIntPadded(pre: string, n: int, post: string)
    requires AllSpace(pre) && AllSpace(post)
    ensures ParseInt(pre + IntToString(n) + post) == Some(n)
  {
    var s := IntToString(n);
    StripSurroundingSpace(pre, s, post);
    StripToken(s);
    ParseIntToString(n);
  }

  /** `s.split(sep)`: the pieces between separators, empty ones included. */
  function Split(s: string, sep: char): (pieces: seq<string>)
    ensures |pieces| >= 1
    ensures forall i :: 0 <= i < |pieces| ==> sep !in pieces[i]
  {
    if s == [] then [[]]
    else
      var rest := Split(s[1..], sep);
      if s[0] == sep then [[]] + rest
      else [[s[0]] + rest[0]] + rest[1..]
  }

  function Count(s: string, c: char): nat {
    if s == [] then 0 else (if s[0] == c then 1 else 0) + Count(s[1..], c)
  }

  /** `sep.join(pieces)`. */
  function Join(pieces: seq<string>, sep: char): string
    requires |pieces| >= 1
  {
    if |pieces| == 1 then pieces[0] else pieces[0] + [sep] + Join(pieces[1..], sep)
  }

  /** There is one more piece than there are separators. */
  lemma {:induction false} SplitPieceCount(s: string, sep: char)
    ensures |Split(s, sep)| == Count(s, sep) + 1
  {
    if s != [] {
      SplitPieceCount(s[1..], sep);
    }
  }

  /** Joining the pieces with the separator gives the string back. */
  lemma {:induction false} JoinSplit(s: string, sep: char)
    ensures Join(Split(s, sep), sep) == s
  {
    if s != [] {
      var rest := Split(s[1..], sep);
      JoinSplit(s[1..], sep);
      if s[0] == sep {
        assert ([[]] + rest)[1..] == rest;
        assert s == [sep] + s[1..];
      } else {
        var p := Split(s, sep);
        assert p[1..] == rest[1..];
        if |rest| == 1 {
          assert s == [s[0]] + rest[0];
        } else {
          assert Join(rest, sep) == rest[0] + [sep] + Join(rest[1..], sep);
          assert s == [s[0]] + rest[0] + [sep] + Join(rest[1..], sep);
        }
      }
    }
  }

  lemma {:induction false} SplitPrefix(p: string, t: string, sep: char)
    requires sep !in p
    ensures Split(p + t, sep) == [p + Split(t, sep)[0]] + Split(t, sep)[1..]
    decreases |p|
  {
    var r := Split(t, sep);
    if p == [] {
      assert p + t == t;
      assert p + r[0] == r[0];
      assert [r[0]] + r[1..] == r;
    } else {
      assert (p + t)[1..] == p[1..] + t;
      SplitPrefix(p[1..], t, sep);
      assert [p[0]] + (p[1..] + Split(t, sep)[0]) == p + Split(t, sep)[0];
    }
  }

  /** Splitting pieces that hold no separator, once joined, gives them back. */
  lemma {:induction false} SplitJoin(pieces: seq<string>, sep: char)
    requires |pieces| >= 1
    requires forall i :: 0 <= i < |pieces| ==> sep !in pieces[i]
    ensures Split(Join(pieces, sep), sep) == pieces
  {
    if |pieces| == 1 {
      SplitPrefix(pieces[0], [], sep);
      assert pieces[0] + [] == pieces[0];
    } else {
      var rest := pieces[1..];
      assert forall i :: 0 <= i < |rest| ==> rest[i] == pieces[i + 1];
      var tail := Join(rest, sep);
      SplitJoin(rest, sep);
      var u := [sep] + tail;
      assert u[1..] == tail;
      assert Split(u, sep) == [[]] + rest;
      assert Join(pieces, sep) == pieces[0] + u;
      SplitPrefix(pieces[0], u, sep);
      assert pieces[0] + [] == pieces[0];
      assert [pieces[0]] + rest == pieces;
    }
  }

  /** `s[:n]`: at most the first `n` characters. */
  function Prefix(s: string, n: nat): (r: string)
    ensures |r| == (if |s| < n then |s| else n)
    ensures r <= s
  {
    if |s| < n then s else s[..n]
  }

  /** `f"{n:02d}"`: zero-padded to two characters; a negative number keeps
      its sign in front and is already two characters long. */
  function Pad2(n: int): string {
    if 0 <= n < 10 then "0" + NatToString(n) else IntToString(n)
  }

  /** Below 100 the padded rendering is exactly two digits and reads back as
      the number. */
  lemma Pad2TwoDigits(n: int)
    requires 0 <= n < 100
    ensures |Pad2(n)| == 2 && AllDigits(Pad2(n))
    ensures ParseInt(Pad2(n)) == Some(n)
  {
    if n < 10 {
      assert NatToString(n) == [DigitChar(n)];
      assert Pad2(n) == ['0', DigitChar(n)];
      ParseZeroDigit(n);
    } else {
      ParseIntToString(n);
    }
  }

  /** "0" followed by one digit reads back as that digit. */
  lemma ParseZeroDigit(d: nat)
    requires d < 10
    ensures ParseInt(['0', DigitChar(d)]) == Some(d)
  {
    var s := ['0', DigitChar(d)];
    StripToken(s);
    assert DigitGroup(s);
    DropUnderscoresOfDigits(s);
    assert DecimalValue(s[..1]) == 0 by {
      assert s[..1][..0] == [];
    }
    assert s[..|s| - 1] == s[..1];
    assert DecimalValue(s) == d;
  }

  /** From 100 onwards, and for negative numbers, padding changes nothing. */
  lemma Pad2Wide(n: int)
    requires n < 0 || n >= 10
    ensures Pad2(n) == IntToString(n) && |Pad2(n)| >= 2
  {
    if n >= 10 {
      assert |NatToString(n)| != 1;
    }
  }
}
