/**
 The editor's commands and their textual encoding (src/ops.rs): the
 `Operation` variant a line of input becomes, the inverse commands kept for
 undo, the per-line parser and the whole-script parser.
 */
module Ops {
  import opened RustStr

  /**
   A parsed input line. Code `1` appends text, `2` deletes a count of trailing
   characters, `3` prints the character at a 1-based index, `4` undoes; any
   other line is `Invalid`. Counts and indices are `usize` values.
   */
  datatype Operation =
    | Append(text: string)
    | Delete(count: nat)
    | Print(index: nat)
    | Undo
    | Invalid

  /**
   The inverse of an applied `Append` or `Delete`, as kept on the undo stack:
   the number of characters to remove again, or the characters to put back,
   held in the order they were popped (last character first).
   */
  datatype UndoableOperation =
    | UndoAppend(count: nat)
    | UndoDelete(popped: string)

  /** Every count or index a parsed operation carries fits in a `usize`. */
  predicate InUsizeRange(op: Operation) {
    match op
    case Delete(n) => n <= USIZE_MAX
    case Print(i) => i <= USIZE_MAX
    case _ => true
  }

  /**
   `remove_sep_space`: drops exactly one leading character, whatever it is,
   and leaves an empty text empty.
   */
  function RemoveSepSpace(val: string): (r: string)
    ensures |r| == if val == [] then 0 else |val| - 1
    ensures forall i :: 0 <= i < |r| ==> r[i] == val[i + 1]
  {
    if val == [] then val else val[1..]
  }

  /**
   `parse_delete_or_print`: the operand, with surrounding whitespace trimmed,
   must be a `usize`; code `2` then means delete and `3` print.
   */
  function ParseDeleteOrPrint(op: char, valueToParse: string): (r: Operation)
    ensures InUsizeRange(r)
    ensures r.Delete? || r.Print? || r.Invalid?
    ensures r.Delete? <==> op == '2' && ParseUsize(Trim(valueToParse)).Some?
    ensures r.Print? <==> op == '3' && ParseUsize(Trim(valueToParse)).Some?
  {
    match ParseUsize(Trim(valueToParse))
    case Some(n) =>
      if op == '2' then Delete(n)
      else if op == '3' then Print(n)
      else Invalid
    case None => Invalid
  }

  /**
   `Operation::from(&str)`: total. Leading whitespace is skipped; the first
   remaining character is the command code.
   */
  function ParseLine(line: string): (r: Operation)
    ensures InUsizeRange(r)
    ensures r.Append? ==> |r.text| < |line|
  {
    var input := TrimStart(line);
    if input == [] then
      Invalid
    else
      var code, val := input[0], input[1..];
      if code == '1' then Append(RemoveSepSpace(val))
      else if code == '2' || code == '3' then ParseDeleteOrPrint(code, RemoveSepSpace(val))
      else if code == '4' then Undo
      else Invalid
  }

  /** The first line of a script, or the empty text when there is none (`unwrap_or_default`). */
  function Header(input: string): (h: string)
    ensures '\n' !in h
    ensures Lines(input) == [] ==> h == []
    ensures Lines(input) != [] ==> h == Lines(input)[0]
  {
    var lines := Lines(input);
    if lines == [] then [] else lines[0]
  }

  /**
   `parse`: the first line, untrimmed, must be a `usize` (the declared number
   of operations); every later line becomes one operation, in order, with
   `Invalid` ones kept.
   */
  function Parse(input: string): (r: Option<(nat, seq<Operation>)>)
    ensures r.None? <==> ParseUsize(Header(input)).None?
    ensures r.Some? ==>
      && r.value.0 == ParseUsize(Header(input)).value
      && |Lines(input)| >= 1
      && |r.value.1| == |Lines(input)| - 1
      && forall k :: 0 <= k < |r.value.1| ==> r.value.1[k] == ParseLine(Lines(input)[k + 1])
  {
    var lines := Lines(input);
    match ParseUsize(Header(input))
    case None => None
    case Some(n) =>
      Some((n, seq(|lines| - 1, k requires 0 <= k < |lines| - 1 => ParseLine(lines[k + 1]))))
  }

  /** The operation lines parsed one by one, in order: the `map`/`collect` in `parse`. */
  function ParseLines(lines: seq<string>): (ops: seq<Operation>)
    ensures |ops| == |lines|
  {
    if lines == [] then [] else [ParseLine(lines[0])] + ParseLines(lines[1..])
  }

  lemma {:induction false} ParseLinesIndex(lines: seq<string>)
    ensures forall k :: 0 <= k < |lines| ==> ParseLines(lines)[k] == ParseLine(lines[k])
  {
    if lines != [] {
      ParseLinesIndex(lines[1..]);
      assert forall k :: 1 <= k < |lines| ==> ParseLines(lines)[k] == ParseLines(lines[1..])[k - 1];
    }
  }

  /** Operations that agree line by line with the parser are the parsed lines. */
  lemma ParseLinesOf(lines: seq<string>, ops: seq<Operation>)
    requires |ops| == |lines|
    requires forall k :: 0 <= k < |lines| ==> ParseLine(lines[k]) == ops[k]
    ensures ParseLines(lines) == ops
  {
    ParseLinesIndex(lines);
  }

  /** Every line prefixed with the same indentation. */
  function Indent(w: string, lines: seq<string>): seq<string> {
    seq(|lines|, k requires 0 <= k < |lines| => w + lines[k])
  }

  /** Indenting every operation line by the same whitespace changes none of the operations. */
  lemma ParseLinesIgnoresIndent(w: string, lines: seq<string>)
    requires AllWhitespace(w)
    ensures ParseLines(Indent(w, lines)) == ParseLines(lines)
  {
    var indented := Indent(w, lines);
    ParseLinesIndex(lines);
    forall k | 0 <= k < |lines|
      ensures ParseLine(indented[k]) == ParseLines(lines)[k]
    {
      ParseLineIgnoresIndent(w, lines[k]);
    }
    ParseLinesOf(indented, ParseLines(lines));
  }

  /** A parsed script's operations are its lines after the first, each parsed on its own. */
  lemma ParseIsLineMap(input: string)
    ensures Parse(input).Some? ==> Parse(input).value.1 == ParseLines(Lines(input)[1..])
  {
    var r := Parse(input);
    if r.Some? {
      var rest := Lines(input)[1..];
      ParseLinesIndex(rest);
      assert forall k :: 0 <= k < |rest| ==> rest[k] == Lines(input)[k + 1];
      assert r.value.1 == ParseLines(rest);
    }
  }

  /* ---------------------------------------------------------------------
     The input format, written out, and the parser's promises about it
     --------------------------------------------------------------------- */

  /** The canonical line for an operation: code, one space, operand. */
  function FormatLine(op: Operation): string {
    match op
    case Append(s) => "1 " + s
    case Delete(n) => "2 " + ToDecimal(n)
    case Print(i) => "3 " + ToDecimal(i)
    case Undo => "4"
    case Invalid => ""
  }

  /** An empty or all-whitespace line is `Invalid`. */
  lemma BlankLineIsInvalid(line: string)
    requires AllWhitespace(line)
    ensures ParseLine(line) == Invalid
  {
  }

  /** Indentation before the command code is ignored. */
  lemma ParseLineIgnoresIndent(w: string, line: string)
    requires AllWhitespace(w)
    ensures ParseLine(w + line) == ParseLine(line)
  {
    TrimStartSkipsWhitespace(w, line);
  }

  /**
   Code `1` appends the rest of the line after exactly one separator
   character, which need not be a space; further whitespace is kept.
   A bare `1` appends nothing.
   */
  lemma ParseAppend(sep: char, text: string)
    ensures ParseLine(['1', sep] + text) == Append(text)
    ensures ParseLine("1") == Append("")
  {
    CodeStartsLine(['1', sep] + text);
    assert (['1', sep] + text)[1..] == [sep] + text;
    assert ([sep] + text)[1..] == text;
    CodeStartsLine("1");
    assert "1"[1..] == [];
  }

  /**
   Codes `2` and `3` take the operand after one separator character; with
   surrounding whitespace trimmed it must parse as a `usize`, or the line is
   `Invalid`.
   */
  lemma ParseDeleteOrPrintLine(code: char, sep: char, operand: string)
    requires code == '2' || code == '3'
    ensures ParseLine([code, sep] + operand) == ParseDeleteOrPrint(code, operand)
    ensures ParseUsize(Trim(operand)).None? ==> ParseLine([code, sep] + operand) == Invalid
    ensures ParseUsize(Trim(operand)).Some? ==>
      var n := ParseUsize(Trim(operand)).value;
      ParseLine([code, sep] + operand) == if code == '2' then Delete(n) else Print(n)
  {
    CodeStartsLine([code, sep] + operand);
    assert ([code, sep] + operand)[1..] == [sep] + operand;
    assert ([sep] + operand)[1..] == operand;
  }

  /** A `2` or `3` followed by nothing but whitespace has no operand and is `Invalid`. */
  lemma BareDeleteOrPrintIsInvalid(code: char, blank: string)
    requires code == '2' || code == '3'
    requires AllWhitespace(blank)
    ensures ParseLine([code] + blank) == Invalid
  {
    var line := [code] + blank;
    CodeStartsLine(line);
    assert line[1..] == blank;
    BlankOperandIsInvalid(code, RemoveSepSpace(blank));
  }

  /** An operand that trims to nothing does not parse. */
  lemma BlankOperandIsInvalid(code: char, operand: string)
    requires AllWhitespace(operand)
    ensures ParseDeleteOrPrint(code, operand) == Invalid
  {
    TrimPadded(operand, [], []);
    assert operand + [] + [] == operand;
    NothingIsNotUsize();
  }

  /** An all-digit operand whose value exceeds `usize::MAX` does not parse, so the line is `Invalid`. */
  lemma OverflowOperandIsInvalid(code: char, sep: char, pad: string, digits: string, trail: string)
    requires code == '2' || code == '3'
    requires AllWhitespace(pad) && AllWhitespace(trail)
    requires digits != [] && AllDigits(digits) && DecimalValue(digits) > USIZE_MAX
    ensures ParseLine([code, sep] + (pad + digits + trail)) == Invalid
  {
    TrimOfPaddedDigits(pad, digits, trail);
    OverflowDoesNotParse(digits);
    ParseDeleteOrPrintLine(code, sep, pad + digits + trail);
  }

  lemma TrimOfPaddedDigits(pad: string, digits: string, trail: string)
    requires AllWhitespace(pad) && AllWhitespace(trail)
    requires digits != [] && AllDigits(digits)
    ensures Trim(pad + digits + trail) == digits
  {
    assert IsDigit(digits[0]) && IsDigit(digits[|digits| - 1]);
    TrimPadded(pad, digits, trail);
  }

  /** Digits worth more than `usize::MAX` are rejected, not wrapped. */
  lemma OverflowDoesNotParse(digits: string)
    requires digits != [] && AllDigits(digits) && DecimalValue(digits) > USIZE_MAX
    ensures ParseUsize(digits) == None
  {
    assert digits[0] != '+' by { assert IsDigit(digits[0]); }
    assert Unsigned(digits) == digits;
  }

  lemma NothingIsNotUsize()
    ensures ParseUsize([]) == None
  {
  }

  /** Code `4` is `Undo` whatever follows it. */
  lemma ParseUndo(rest: string)
    ensures ParseLine(['4'] + rest) == Undo
  {
    CodeStartsLine(['4'] + rest);
  }

  /** Any other code makes the line `Invalid`. */
  lemma ParseUnknownCode(code: char, rest: string)
    requires code !in "1234" && !IsWhitespace(code)
    ensures ParseLine([code] + rest) == Invalid
  {
    CodeStartsLine([code] + rest);
  }

  /** A line that starts with a non-blank character is read from that character on. */
  lemma CodeStartsLine(line: string)
    requires line != [] && !IsWhitespace(line[0])
    ensures TrimStart(line) == line
  {
    assert LeadingWhitespace(line) == 0;
  }

  /** Round trip: the parser reads every operation back from its canonical line, however indented. */
  lemma ParseFormatLine(w: string, op: Operation)
    requires AllWhitespace(w) && InUsizeRange(op)
    ensures ParseLine(w + FormatLine(op)) == op
  {
    ParseLineIgnoresIndent(w, FormatLine(op));
    match op
    case Append(s) =>
      assert FormatLine(op) == ['1', ' '] + s;
      ParseAppend(' ', s);
    case Delete(n) =>
      ParseNumericLine('2', n);
      assert FormatLine(op) == ['2', ' '] + ToDecimal(n);
    case Print(i) =>
      ParseNumericLine('3', i);
      assert FormatLine(op) == ['3', ' '] + ToDecimal(i);
    case Undo =>
      ParseUndo([]);
      assert ['4'] + [] == "4";
    case Invalid =>
  }

  lemma ParseNumericLine(code: char, n: nat)
    requires code == '2' || code == '3'
    requires n <= USIZE_MAX
    ensures ParseLine([code, ' '] + ToDecimal(n)) == if code == '2' then Delete(n) else Print(n)
  {
    ParseDeleteOrPrintLine(code, ' ', ToDecimal(n));
    TrimOfDecimal(n);
    ParseUsizeToDecimal(n);
  }

  /** Whitespace around a `2`/`3` operand is ignored. */
  lemma ParsePaddedNumber(code: char, pad: string, n: nat, trail: string)
    requires code == '2' || code == '3'
    requires AllWhitespace(pad) && AllWhitespace(trail) && n <= USIZE_MAX
    ensures ParseLine([code, ' '] + pad + ToDecimal(n) + trail) == if code == '2' then Delete(n) else Print(n)
  {
    var operand := pad + ToDecimal(n) + trail;
    assert [code, ' '] + pad + ToDecimal(n) + trail == [code, ' '] + operand;
    ParseDeleteOrPrintLine(code, ' ', operand);
    PaddedDecimal(pad, n, trail);
  }

  /** A decimal operand padded with whitespace on both sides trims and parses back to its value. */
  lemma PaddedDecimal(pad: string, n: nat, trail: string)
    requires AllWhitespace(pad) && AllWhitespace(trail) && n <= USIZE_MAX
    ensures ParseUsize(Trim(pad + ToDecimal(n) + trail)) == Some(n)
  {
    var s := ToDecimal(n);
    assert IsDigit(s[0]) && IsDigit(s[|s| - 1]);
    TrimPadded(pad, s, trail);
    ParseUsizeToDecimal(n);
  }

  lemma TrimOfDecimal(n: nat)
    ensures Trim(ToDecimal(n)) == ToDecimal(n)
  {
    var s := ToDecimal(n);
    assert IsDigit(s[0]) && IsDigit(s[|s| - 1]);
    assert LeadingWhitespace(s) == 0;
    assert TrimStart(s) == s;
    assert TrailingWhitespace(s) == 0;
    assert TrimEnd(s) == s;
  }

  /** A script can be written out so that `Lines` recovers each of its lines. */
  predicate Writable(op: Operation) {
    InUsizeRange(op) && (op.Append? ==> PlainLine(FormatLine(op)))
  }

  /** A whole script in its canonical layout: the declared count, then one line per operation. */
  function FormatScript(n: nat, ops: seq<Operation>): string {
    Unlines([ToDecimal(n)] + FormatLines(ops))
  }

  function FormatLines(ops: seq<Operation>): (ls: seq<string>)
    ensures |ls| == |ops|
  {
    seq(|ops|, k requires 0 <= k < |ops| => FormatLine(ops[k]))
  }

  /**
   Round trip for whole scripts: a header with the declared count followed by
   one canonical line per operation parses back to exactly that count and
   that list, in order.
   */
  lemma ParseFormatScript(n: nat, ops: seq<Operation>)
    requires n <= USIZE_MAX
    requires forall k :: 0 <= k < |ops| ==> Writable(ops[k])
    ensures Parse(FormatScript(n, ops)) == Some((n, ops))
  {
    var lines := [ToDecimal(n)] + FormatLines(ops);
    LinesOfFormatScript(n, ops);
    ParseUsizeToDecimal(n);
    var r := Parse(FormatScript(n, ops));
    assert r.Some? && r.value.0 == n;
    forall k | 0 <= k < |ops|
      ensures r.value.1[k] == ops[k]
    {
      assert lines[k + 1] == FormatLine(ops[k]);
      ParseFormatLine([], ops[k]);
      assert [] + FormatLine(ops[k]) == FormatLine(ops[k]);
    }
    assert |r.value.1| == |ops|;
    assert r.value.1 == ops;
  }

  lemma LinesOfFormatScript(n: nat, ops: seq<Operation>)
    requires forall k :: 0 <= k < |ops| ==> Writable(ops[k])
    ensures Lines(FormatScript(n, ops)) == [ToDecimal(n)] + FormatLines(ops)
  {
    var lines := [ToDecimal(n)] + FormatLines(ops);
    forall k | 0 <= k < |lines|
      ensures PlainLine(lines[k])
    {
      if k == 0 {
        PlainDecimal(n);
      } else {
        assert lines[k] == FormatLine(ops[k - 1]);
        PlainFormatLine(ops[k - 1]);
      }
    }
    LinesOfUnlines(lines, []);
    assert Unlines(lines) + [] == Unlines(lines);
    assert lines + [] == lines;
  }

  lemma PlainDecimal(n: nat)
    ensures PlainLine(ToDecimal(n))
  {
    var s := ToDecimal(n);
    assert IsDigit(s[|s| - 1]);
    forall j | 0 <= j < |s| ensures s[j] != '\n' {
      assert IsDigit(s[j]);
    }
  }

  lemma PlainFormatLine(op: Operation)
    requires Writable(op)
    ensures PlainLine(FormatLine(op))
  {
    match op {
      case Append(s) =>
      case Delete(c) => PlainDecimalLine('2', c);
      case Print(c) => PlainDecimalLine('3', c);
      case Undo =>
      case Invalid =>
    }
  }

  lemma PlainDecimalLine(code: char, n: nat)
    requires code != '\n'
    ensures PlainLine([code, ' '] + ToDecimal(n))
  {
    var s := ToDecimal(n);
    var l := [code, ' '] + s;
    assert IsDigit(l[|l| - 1]);
    forall j | 0 <= j < |l| ensures l[j] != '\n' {
      if j >= 2 {
        assert l[j] == s[j - 2] && IsDigit(s[j - 2]);
      }
    }
  }

  /** A header ended by `"\r\n"` is read without its `'\r'`, so a CRLF script still declares its count. */
  lemma ParseCrlfHeader(n: nat, rest: string)
    requires n <= USIZE_MAX
    ensures Parse(ToDecimal(n) + "\r\n" + rest).Some?
    ensures Parse(ToDecimal(n) + "\r\n" + rest).value.0 == n
  {
    PlainDecimal(n);
    LinesConsCrlf(ToDecimal(n), rest);
    ParseUsizeToDecimal(n);
  }

  /** Empty input has no header, so it does not parse. */
  lemma ParseEmptyInput()
    ensures Parse("") == None
  {
  }
}
