/**
 The pieces of Rust's string API that the editor's parser relies on, modelled
 on `seq<char>`: `char::is_whitespace`, `str::trim_start`, `str::trim`,
 `str::lines`, `str::parse::<usize>` and `Vec::reverse`, together with the
 `Option` type they return.
 */
module RustStr {

  datatype Option<+T> = None | Some(value: T)

  /** `usize::MAX` on a 64-bit target. */
  const USIZE_MAX: nat := 0xFFFF_FFFF_FFFF_FFFF

  /* ---------------------------------------------------------------------
     Whitespace and trimming
     --------------------------------------------------------------------- */

  /** `char::is_whitespace`: the characters with the Unicode White_Space property. */
  predicate IsWhitespace(c: char) {
    var k := c as int;
    || (0x09 <= k <= 0x0D)
    || k == 0x20
    || k == 0x85
    || k == 0xA0
    || k == 0x1680
    || (0x2000 <= k <= 0x200A)
    || k == 0x2028
    || k == 0x2029
    || k == 0x202F
    || k == 0x205F
    || k == 0x3000
  }

  predicate AllWhitespace(s: string) {
    forall i :: 0 <= i < |s| ==> IsWhitespace(s[i])
  }

  /** The length of the longest all-whitespace prefix of `s`. */
  function LeadingWhitespace(s: string): (n: nat)
    ensures n <= |s|
    ensures forall i :: 0 <= i < n ==> IsWhitespace(s[i])
    ensures n < |s| ==> !IsWhitespace(s[n])
  {
    if |s| > 0 && IsWhitespace(s[0]) then 1 + LeadingWhitespace(s[1..]) else 0
  }

  /** The length of the longest all-whitespace suffix of `s`. */
  function TrailingWhitespace(s: string): (n: nat)
    ensures n <= |s|
    ensures forall i :: |s| - n <= i < |s| ==> IsWhitespace(s[i])
    ensures n < |s| ==> !IsWhitespace(s[|s| - n - 1])
  {
    if |s| > 0 && IsWhitespace(s[|s| - 1]) then 1 + TrailingWhitespace(s[..|s| - 1]) else 0
  }

  /** `str::trim_start`: drops the longest all-whitespace prefix. */
  function TrimStart(s: string): string {
    s[LeadingWhitespace(s)..]
  }

  /** The trailing counterpart of `TrimStart`. */
  function TrimEnd(s: string): string {
    s[..|s| - TrailingWhitespace(s)]
  }

  /** `str::trim`: whitespace removed from both ends. */
  function Trim(s: string): string {
    TrimEnd(TrimStart(s))
  }

  /** What `trim` leaves neither starts nor ends with whitespace, and all-whitespace text trims to nothing. */
  lemma TrimStrips(s: string)
    ensures |Trim(s)| <= |s|
    ensures Trim(s) == [] || (!IsWhitespace(Trim(s)[0]) && !IsWhitespace(Trim(s)[|Trim(s)| - 1]))
    ensures AllWhitespace(s) ==> Trim(s) == []
  {
    var t := TrimStart(s);
    var r := Trim(s);
    if r != [] {
      assert r[0] == t[0];
      assert r[|r| - 1] == t[|t| - TrailingWhitespace(t) - 1];
    }
  }

  lemma {:induction false} LeadingWhitespaceOfPadded(w: string, s: string)
    requires AllWhitespace(w)
    ensures LeadingWhitespace(w + s) == |w| + LeadingWhitespace(s)
  {
    if w == [] {
      assert w + s == s;
    } else {
      assert (w + s)[0] == w[0];
      assert (w + s)[1..] == w[1..] + s;
      LeadingWhitespaceOfPadded(w[1..], s);
    }
  }

  lemma {:induction false} TrailingWhitespaceOfPadded(s: string, w: string)
    requires AllWhitespace(w)
    ensures TrailingWhitespace(s + w) == TrailingWhitespace(s) + |w|
  {
    if w == [] {
      assert s + w == s;
    } else {
      assert (s + w)[|s + w| - 1] == w[|w| - 1];
      assert (s + w)[..|s + w| - 1] == s + w[..|w| - 1];
      TrailingWhitespaceOfPadded(s, w[..|w| - 1]);
    }
  }

  /** Leading whitespace never changes where `trim_start` ends up. */
  lemma TrimStartSkipsWhitespace(w: string, s: string)
    requires AllWhitespace(w)
    ensures TrimStart(w + s) == TrimStart(s)
  {
    LeadingWhitespaceOfPadded(w, s);
    assert (w + s)[|w| + LeadingWhitespace(s)..] == s[LeadingWhitespace(s)..];
  }

  /**
   `trim` recovers the text between any whitespace padding, provided the text
   itself neither starts nor ends with whitespace.
   */
  lemma TrimPadded(w1: string, core: string, w2: string)
    requires AllWhitespace(w1) && AllWhitespace(w2)
    requires core == [] || (!IsWhitespace(core[0]) && !IsWhitespace(core[|core| - 1]))
    ensures Trim(w1 + core + w2) == core
  {
    var inner := core + w2;
    assert w1 + core + w2 == w1 + inner;
    TrimStartSkipsWhitespace(w1, inner);
    if core == [] {
      assert inner == [] + w2;
      LeadingWhitespaceOfPadded(w2, []);
      assert w2 + [] == w2;
      assert TrimStart(inner) == [];
    } else {
      assert inner[0] == core[0];
      assert TrimStart(inner) == inner;
      TrailingWhitespaceOfPadded(core, w2);
      assert inner[..|core|] == core;
    }
  }

  /* ---------------------------------------------------------------------
     Decimal numbers
     --------------------------------------------------------------------- */

  predicate IsDigit(c: char) {
    '0' <= c <= '9'
  }

  predicate AllDigits(s: string) {
    forall i :: 0 <= i < |s| ==> IsDigit(s[i])
  }

  function DigitValue(c: char): (d: nat)
    requires IsDigit(c)
    ensures d < 10
  {
    (c as int) - ('0' as int)
  }

  function DigitChar(d: nat): (c: char)
    requires d < 10
    ensures IsDigit(c) && DigitValue(c) == d
  {
    ('0' as int + d) as char
  }

  /** The value of a string of decimal digits, most significant digit first. */
  function DecimalValue(s: string): nat
    requires AllDigits(s)
  {
    if s == [] then 0 else 10 * DecimalValue(s[..|s| - 1]) + DigitValue(s[|s| - 1])
  }

  /** The shortest decimal spelling of `n`. */
  function ToDecimal(n: nat): (s: string)
    ensures |s| > 0 && AllDigits(s)
  {
    if n < 10 then [DigitChar(n)] else ToDecimal(n / 10) + [DigitChar(n % 10)]
  }

  /** The text after an optional leading `+` sign. */
  function Unsigned(s: string): string {
    if |s| > 0 && s[0] == '+' then s[1..] else s
  }

  /**
   `str::parse::<usize>()`: an optional `+` sign followed by at least one ASCII
   digit; anything else, and any value above `usize::MAX`, is an error.
   */
  function ParseUsize(s: string): (r: Option<nat>)
    ensures r.Some? <==> Unsigned(s) != [] && AllDigits(Unsigned(s)) && DecimalValue(Unsigned(s)) <= USIZE_MAX
    ensures r.Some? ==> r.value == DecimalValue(Unsigned(s)) && r.value <= USIZE_MAX
    ensures r.Some? ==> s != [] && s != "+" && forall i :: 0 <= i < |s| ==> IsDigit(s[i]) || (i == 0 && s[i] == '+')
  {
    var digits := Unsigned(s);
    if digits == [] || !AllDigits(digits) || DecimalValue(digits) > USIZE_MAX then
      None
    else
      Some(DecimalValue(digits))
  }

  lemma {:induction false} DecimalValueOfToDecimal(n: nat)
    ensures DecimalValue(ToDecimal(n)) == n
  {
    var s := ToDecimal(n);
    if n >= 10 {
      DecimalValueOfToDecimal(n / 10);
      assert s[..|s| - 1] == ToDecimal(n / 10);
    }
  }

  /** Round trip: the decimal spelling of any `usize` parses back to it, with or without a `+`. */
  lemma ParseUsizeToDecimal(n: nat)
    requires n <= USIZE_MAX
    ensures ParseUsize(ToDecimal(n)) == Some(n)
    ensures ParseUsize(['+'] + ToDecimal(n)) == Some(n)
  {
    DecimalValueOfToDecimal(n);
    var s := ToDecimal(n);
    assert s[0] != '+' by { assert IsDigit(s[0]); }
    assert (['+'] + s)[1..] == s;
  }

  /* ---------------------------------------------------------------------
     Lines
     --------------------------------------------------------------------- */

  /** The index of the first `'\n'` in `s`, or `|s|` when there is none. */
  function NewlineIndex(s: string): (i: nat)
    ensures i <= |s|
    ensures forall k :: 0 <= k < i ==> s[k] != '\n'
    ensures i < |s| ==> s[i] == '\n'
  {
    if s == [] || s[0] == '\n' then 0 else 1 + NewlineIndex(s[1..])
  }

  predicate EndsWithCr(l: string) {
    |l| > 0 && l[|l| - 1] == '\r'
  }

  /** Removes the `'\r'` of a `"\r\n"` line terminator. */
  function StripCr(l: string): string {
    if EndsWithCr(l) then l[..|l| - 1] else l
  }

  /**
   `str::lines`: lines end at `"\n"` or `"\r\n"`; the last line's terminator is
   optional, so an empty input has no lines and a trailing terminator does not
   open an empty last line. A bare `'\r'` ending the final, unterminated line is kept.
   */
  function Lines(s: string): (ls: seq<string>)
    ensures forall k :: 0 <= k < |ls| ==> '\n' !in ls[k]
    ensures |ls| <= |s|
    decreases |s|
  {
    if s == [] then
      []
    else
      var i := NewlineIndex(s);
      if i == |s| then
        [s]
      else
        [StripCr(s[..i])] + Lines(s[i + 1..])
  }

  /** Each line followed by a `'\n'`: the usual layout of a text file. */
  function Unlines(ls: seq<string>): string {
    if ls == [] then [] else ls[0] + "\n" + Unlines(ls[1..])
  }

  /** A line `Lines` hands back unchanged once it is written with a terminator. */
  predicate PlainLine(l: string) {
    '\n' !in l && !EndsWithCr(l)
  }

  lemma LinesCons(l: string, rest: string)
    requires PlainLine(l)
    ensures Lines(l + "\n" + rest) == [l] + Lines(rest)
  {
    var s := l + "\n" + rest;
    assert forall k :: 0 <= k < |l| ==> s[k] == l[k];
    assert s[|l|] == '\n';
    assert NewlineIndex(s) == |l|;
    assert s[..|l|] == l;
    assert s[|l| + 1..] == rest;
  }

  /** Round trip: `Lines` splits terminated lines back apart, whatever follows them. */
  lemma {:induction false} LinesOfUnlines(ls: seq<string>, rest: string)
    requires forall k :: 0 <= k < |ls| ==> PlainLine(ls[k])
    ensures Lines(Unlines(ls) + rest) == ls + Lines(rest)
  {
    if ls == [] {
      assert Unlines(ls) + rest == rest;
    } else {
      calc {
        Lines(Unlines(ls) + rest);
        { UnlinesFirst(ls, rest); }
        Lines(ls[0] + "\n" + (Unlines(ls[1..]) + rest));
        { LinesCons(ls[0], Unlines(ls[1..]) + rest); }
        [ls[0]] + Lines(Unlines(ls[1..]) + rest);
        { LinesOfUnlines(ls[1..], rest); }
        [ls[0]] + (ls[1..] + Lines(rest));
        { assert [ls[0]] + ls[1..] == ls; }
        ls + Lines(rest);
      }
    }
  }

  lemma UnlinesFirst(ls: seq<string>, rest: string)
    requires ls != []
    ensures Unlines(ls) + rest == ls[0] + "\n" + (Unlines(ls[1..]) + rest)
  {
  }

  /** A `"\r\n"` terminator ends a line just as `"\n"` does; the `'\r'` is not part of the line. */
  lemma LinesConsCrlf(l: string, rest: string)
    requires PlainLine(l)
    ensures Lines(l + "\r\n" + rest) == [l] + Lines(rest)
  {
    var s := l + "\r\n" + rest;
    var lcr := l + "\r";
    assert s == lcr + "\n" + rest;
    assert forall k :: 0 <= k < |lcr| ==> s[k] == lcr[k];
    assert s[|lcr|] == '\n';
    assert NewlineIndex(s) == |lcr|;
    assert s[..|lcr|] == lcr;
    assert s[|lcr| + 1..] == rest;
    assert EndsWithCr(lcr) && lcr[..|lcr| - 1] == l;
  }

  /** A non-empty text without a newline is one (unterminated) line. */
  lemma LinesOfSingleLine(l: string)
    requires l != [] && '\n' !in l
    ensures Lines(l) == [l]
  {
    assert NewlineIndex(l) == |l|;
  }

  /* ---------------------------------------------------------------------
     Reversal
     --------------------------------------------------------------------- */

  /** `Vec::reverse`, as a function on sequences. */
  function Reverse<T>(s: seq<T>): (r: seq<T>)
    ensures |r| == |s|
    ensures forall i :: 0 <= i < |s| ==> r[i] == s[|s| - 1 - i]
  {
    if s == [] then [] else [s[|s| - 1]] + Reverse(s[..|s| - 1])
  }

  lemma ReverseReverse<T>(s: seq<T>)
    ensures Reverse(Reverse(s)) == s
  {
    var r := Reverse(Reverse(s));
    assert forall i :: 0 <= i < |s| ==> r[i] == s[i];
  }
}
