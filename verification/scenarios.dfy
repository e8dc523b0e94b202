/**
 The worked examples that accompany the editor (the doc example on `Text`
 and the unit tests), restated as facts about the model.
 */
module Scenarios {
  import opened RustStr
  import opened Ops
  import opened TextBuffer

  /** The single-line cases of the parser's unit test. */
  lemma OperationFromLineCases()
    ensures ParseLine("1 abc") == Append("abc")
    ensures ParseLine("1  abc") == Append(" abc")
    ensures ParseLine("1  ") == Append(" ")
    ensures ParseLine("1 abc def ghi") == Append("abc def ghi")
    ensures ParseLine("3 3") == Print(3)
    ensures ParseLine("3          3") == Print(3)
    ensures ParseLine("2 3") == Delete(3)
    ensures ParseLine("2      3") == Delete(3)
    ensures ParseLine("1      xy") == Append("     xy")
    ensures ParseLine("4") == Undo
    ensures ParseLine("5") == Invalid
    ensures ParseLine("") == Invalid
    ensures ParseLine(" ") == Invalid
    ensures ParseLine("    ") == Invalid
  {
    AppendLineCases();
    PrintThree();
    PrintThreeAfterBlanks();
    DeleteThree();
    DeleteThreeAfterBlanks();
    UndoAndInvalidLineCases();
  }

  /** The `Append` cases: exactly one separator is removed, later spaces are kept. */
  lemma AppendLineCases()
    ensures ParseLine("1 abc") == Append("abc")
    ensures ParseLine("1  abc") == Append(" abc")
    ensures ParseLine("1  ") == Append(" ")
    ensures ParseLine("1 abc def ghi") == Append("abc def ghi")
    ensures ParseLine("1      xy") == Append("     xy")
  {
    AppendCase("1 abc", "abc");
    AppendCase("1  abc", " abc");
    AppendCase("1  ", " ");
    AppendCase("1 abc def ghi", "abc def ghi");
    AppendCase("1      xy", "     xy");
  }

  /*
   The numeric cases get one lemma each: with two of these literals in one
   proof the solver spends its effort evaluating the parser on both.
   */

  lemma PrintThree()
    ensures ParseLine("3 3") == Print(3)
  {
    NumericCase("3 3", '3', "", 3);
  }

  /** Blanks between the separator and the number are trimmed away. */
  lemma PrintThreeAfterBlanks()
    ensures ParseLine("3          3") == Print(3)
  {
    NumericCase("3          3", '3', "         ", 3);
  }

  lemma DeleteThree()
    ensures ParseLine("2 3") == Delete(3)
  {
    NumericCase("2 3", '2', "", 3);
  }

  lemma DeleteThreeAfterBlanks()
    ensures ParseLine("2      3") == Delete(3)
  {
    NumericCase("2      3", '2', "     ", 3);
  }

  lemma UndoAndInvalidLineCases()
    ensures ParseLine("4") == Undo
    ensures ParseLine("5") == Invalid
    ensures ParseLine("") == Invalid
    ensures ParseLine(" ") == Invalid
    ensures ParseLine("    ") == Invalid
  {
    ParseUndo([]);
    assert ['4'] + [] == "4";
    ParseUnknownCode('5', []);
    assert ['5'] + [] == "5";
    BlankLineIsInvalid("");
    BlankLineIsInvalid(" ");
    BlankLineIsInvalid("    ");
  }

  /** The examples in the documentation of each `Operation` variant and of `From<&str>`. */
  lemma OperationDocCases()
    ensures ParseLine("1 append this text") == Append("append this text")
    ensures ParseLine("2 5") == Delete(5)
    ensures ParseLine("3 1") == Print(1)
    ensures ParseLine("4") == Undo
    ensures ParseLine("__BADOPERATION__") == Invalid
    ensures ParseLine("1 abc") == Append("abc")
  {
    DocAppendCases();
    DocDeleteFive();
    DocPrintOne();
    DocUndoAndInvalidCases();
  }

  /** The documented `Append` examples. */
  lemma DocAppendCases()
    ensures ParseLine("1 append this text") == Append("append this text")
    ensures ParseLine("1 abc") == Append("abc")
  {
    AppendCase("1 append this text", "append this text");
    AppendCase("1 abc", "abc");
  }

  lemma DocDeleteFive()
    ensures ParseLine("2 5") == Delete(5)
  {
    NumericCase("2 5", '2', "", 5);
  }

  lemma DocPrintOne()
    ensures ParseLine("3 1") == Print(1)
  {
    NumericCase("3 1", '3', "", 1);
  }

  /** The documented `Undo` and `Invalid` examples. */
  lemma DocUndoAndInvalidCases()
    ensures ParseLine("4") == Undo
    ensures ParseLine("__BADOPERATION__") == Invalid
  {
    ParseUndo([]);
    assert ['4'] + [] == "4";
    ParseUnknownCode('_', "_BADOPERATION__");
    assert ['_'] + "_BADOPERATION__" == "__BADOPERATION__";
  }

  lemma AppendCase(line: string, text: string)
    requires |line| >= 2 && line[0] == '1' && line[2..] == text
    ensures ParseLine(line) == Append(text)
  {
    assert line == ['1', line[1]] + text;
    ParseAppend(line[1], text);
  }

  lemma NumericCase(line: string, code: char, pad: string, n: nat)
    requires code == '2' || code == '3'
    requires AllWhitespace(pad) && n <= USIZE_MAX
    requires line == [code, ' '] + pad + ToDecimal(n)
    ensures ParseLine(line) == if code == '2' then Delete(n) else Print(n)
  {
    ParsePaddedNumber(code, pad, n, []);
    assert line + [] == line;
  }

  /* ---------------------------------------------------------------------
     The doc example on `Text`: "help me!"
     --------------------------------------------------------------------- */

  const HelpMeOps: seq<Operation> := [Append("hello"), Delete(1), Delete(1), Append("p me!")]

  /** The doc example's script: the count, then one operation per line, each line terminated. */
  const HelpMeScript: seq<string> := ["4", "1 hello", "2 1", "2 1", "1 p me!"]

  lemma HelpMeParses()
    ensures Parse(Unlines(HelpMeScript)) == Some((4, HelpMeOps))
  {
    HelpMeFormat();
    ParseFormatScript(4, HelpMeOps);
  }

  lemma HelpMeFormat()
    ensures [ToDecimal(4)] + FormatLines(HelpMeOps) == HelpMeScript
  {
    var ls := FormatLines(HelpMeOps);
    assert ToDecimal(1) == "1" && ToDecimal(4) == "4";
    assert ls[0] == "1 " + "hello" == "1 hello";
    assert ls[1] == ls[2] == "2 " + "1" == "2 1";
    assert ls[3] == "1 " + "p me!" == "1 p me!";
    assert ls == ["1 hello", "2 1", "2 1", "1 p me!"];
  }

  /** The example in the documentation of `parse`. */
  const DocScript: seq<string> := ["4", "1 abc", "2 1", "3 1", "4"]

  const DocOps: seq<Operation> := [Append("abc"), Delete(1), Print(1), Undo]

  lemma DocScriptParses()
    ensures Parse(Unlines(DocScript)) == Some((4, DocOps))
  {
    DocFormat();
    ParseFormatScript(4, DocOps);
  }

  lemma DocFormat()
    ensures [ToDecimal(4)] + FormatLines(DocOps) == DocScript
  {
    var ls := FormatLines(DocOps);
    assert ToDecimal(1) == "1" && ToDecimal(4) == "4";
    assert ls[0] == "1 " + "abc" == "1 abc";
    assert ls[1] == "2 " + "1" == "2 1";
    assert ls[2] == "3 " + "1" == "3 1";
    assert ls[3] == "4";
    assert ls == ["1 abc", "2 1", "3 1", "4"];
  }

  const H0: Text := New("", 4)
  const H1: Text := Text("hello", 4, [UndoAppend(5)])
  const H2: Text := Text("hell", 4, [UndoAppend(5), UndoDelete("o")])
  const H3: Text := Text("hel", 4, [UndoAppend(5), UndoDelete("o"), UndoDelete("l")])
  const H4: Text := Text("help me!", 4, [UndoAppend(5), UndoDelete("o"), UndoDelete("l"), UndoAppend(5)])

  /**
   Appending "hello", deleting two characters and appending "p me!" leaves
   "help me!", prints nothing, and keeps four undo entries.
   */
  lemma HelpMeRuns()
    ensures Apply(New("", 4), HelpMeOps) == Run(H4, 2, [], None)
    ensures Output(H4) == "help me!"
  {
    HelpMeRun1();
  }

  lemma HelpMeRun1()
    ensures Exec(H0, 0, HelpMeOps) == Run(H4, 2, [], None)
  {
    assert Step(H0, 0, Append("hello")) == Next(H1, 0, []);
    HelpMeRun2();
    ExecFirstStep(H0, 0, Append("hello"), HelpMeOps[1..], H1, 0, []);
    assert [Append("hello")] + HelpMeOps[1..] == HelpMeOps;
  }

  lemma HelpMeRun2()
    ensures Exec(H1, 0, HelpMeOps[1..]) == Run(H4, 2, [], None)
  {
    assert Step(H1, 0, Delete(1)) == Next(H2, 1, []) by {
      DeleteStepIs(H1, 0, 1);
      assert "hello"[..4] == "hell" && "hello"[4..] == "o" && Reverse("o") == "o";
    }
    HelpMeRun3();
    ExecFirstStep(H1, 0, Delete(1), HelpMeOps[2..], H2, 1, []);
    assert [Delete(1)] + HelpMeOps[2..] == HelpMeOps[1..];
  }

  lemma HelpMeRun3()
    ensures Exec(H2, 1, HelpMeOps[2..]) == Run(H4, 2, [], None)
  {
    assert Step(H2, 1, Delete(1)) == Next(H3, 2, []) by {
      DeleteStepIs(H2, 1, 1);
      assert "hell"[..3] == "hel" && "hell"[3..] == "l" && Reverse("l") == "l";
    }
    HelpMeRun4();
    ExecFirstStep(H2, 1, Delete(1), HelpMeOps[3..], H3, 2, []);
    assert [Delete(1)] + HelpMeOps[3..] == HelpMeOps[2..];
  }

  lemma HelpMeRun4()
    ensures Exec(H3, 2, HelpMeOps[3..]) == Run(H4, 2, [], None)
  {
    assert Step(H3, 2, Append("p me!")) == Next(H4, 2, []);
    ExecFirstStep(H3, 2, Append("p me!"), [], H4, 2, []);
    assert [Append("p me!")] + [] == HelpMeOps[3..];
  }

  /* ---------------------------------------------------------------------
     The unit tests `test_parse_input` and `test_apply_ops`
     --------------------------------------------------------------------- */

  /**
   The operation lines of `test_parse_input` without their indentation; two
   of them keep a trailing blank.
   */
  const TestBodies: seq<string> := ["1 abc", "3 3", "2 3", "1 xy", "3 2", "4 ", "4 ", "3 1"]

  /**
   The raw string of `test_parse_input`, line by line, for a given
   indentation of the operation lines: the count, then the operation lines.
   */
  function TestLines(indent: string): (ls: seq<string>)
    ensures |ls| == 9
  {
    ["8"] + Indent(indent, TestBodies)
  }

  /** The whole raw string: every line but the last followed by a newline. */
  function TestScript(indent: string): string {
    var ls := TestLines(indent);
    Unlines(ls[..8]) + ls[8]
  }

  /** The test's own input, indented by four spaces. */
  const TestInput: string := TestScript("    ")

  const TestOps: seq<Operation> :=
    [Append("abc"), Print(3), Delete(3), Append("xy"), Print(2), Undo, Undo, Print(1)]

  lemma TestScriptLines(indent: string)
    requires AllWhitespace(indent) && '\n' !in indent
    ensures Lines(TestScript(indent)) == TestLines(indent)
  {
    var ls := TestLines(indent);
    var pre, last := ls[..8], ls[8];
    TestLinesPlain(indent);
    LinesOfUnlines(pre, last);
    LinesOfSingleLine(last);
    assert pre + [last] == ls;
  }

  lemma TestLinesPlain(indent: string)
    requires '\n' !in indent
    ensures forall k :: 0 <= k < 9 ==> PlainLine(TestLines(indent)[k])
  {
    assert forall k :: 0 <= k < 8 ==> '\n' !in TestBodies[k];
  }

  /**
   `test_parse_input`: the script parses to the declared count and its eight
   operations, whatever whitespace (other than a line break) indents them.
   */
  lemma TestScriptParses(indent: string)
    requires AllWhitespace(indent) && '\n' !in indent
    ensures Parse(TestScript(indent)) == Some((8, TestOps))
  {
    TestScriptLines(indent);
    assert ToDecimal(8) == "8";
    ParseUsizeToDecimal(8);
    ParseIsLineMap(TestScript(indent));
    assert TestLines(indent)[1..] == Indent(indent, TestBodies);
    ParseLinesIgnoresIndent(indent, TestBodies);
    TestBodiesParse();
  }

  /** The instance the test runs. */
  lemma TestInputParses()
    ensures Parse(TestInput) == Some((8, TestOps))
  {
    TestScriptParses("    ");
  }

  /** Unindented, the operation lines parse to the expected operations. */
  lemma TestBodiesParse()
    ensures ParseLines(TestBodies) == TestOps
  {
    forall k | 0 <= k < 8
      ensures ParseLine(TestBodies[k]) == TestOps[k]
    {
      TestBodyAt(k);
    }
    ParseLinesOf(TestBodies, TestOps);
  }

  /**
   Operation line `k` parses to the `k`-th expected operation; each case
   lemma below states exactly this for its own `k`.
   */
  lemma TestBodyAt(k: nat)
    requires k < 8
    ensures ParseLine(TestBodies[k]) == TestOps[k]
  {
    if k == 0 {
      TestBodyAppendAbc(k);
    } else if k == 1 {
      TestBodyPrintThree(k);
    } else if k == 2 {
      TestBodyDeleteThree(k);
    } else if k == 3 {
      TestBodyAppendXy(k);
    } else if k == 4 {
      TestBodyPrintTwo(k);
    } else if k < 7 {
      TestBodyUndo(k);
    } else {
      TestBodyPrintOne(k);
    }
  }

  lemma TestBodyAppendAbc(k: nat)
    requires k == 0
    ensures ParseLine(TestBodies[k]) == TestOps[k]
  {
    assert TestBodies[k] == "1 abc";
    AppendCase("1 abc", "abc");
  }

  lemma TestBodyPrintThree(k: nat)
    requires k == 1
    ensures ParseLine(TestBodies[k]) == TestOps[k]
  {
    assert TestBodies[k] == "3 3";
    PrintThree();
  }

  lemma TestBodyDeleteThree(k: nat)
    requires k == 2
    ensures ParseLine(TestBodies[k]) == TestOps[k]
  {
    assert TestBodies[k] == "2 3";
    DeleteThree();
  }

  lemma TestBodyAppendXy(k: nat)
    requires k == 3
    ensures ParseLine(TestBodies[k]) == TestOps[k]
  {
    assert TestBodies[k] == "1 xy";
    AppendCase("1 xy", "xy");
  }

  lemma TestBodyPrintTwo(k: nat)
    requires k == 4
    ensures ParseLine(TestBodies[k]) == TestOps[k]
  {
    assert TestBodies[k] == "3 2";
    NumericCase("3 2", '3', "", 2);
  }

  /** Both `4 ` lines. */
  lemma TestBodyUndo(k: nat)
    requires 5 <= k <= 6
    ensures ParseLine(TestBodies[k]) == TestOps[k]
  {
    assert TestBodies[k] == "4 ";
    ParseUndo(" ");
    assert ['4'] + " " == "4 ";
  }

  lemma TestBodyPrintOne(k: nat)
    requires k == 7
    ensures ParseLine(TestBodies[k]) == TestOps[k]
  {
    assert TestBodies[k] == "3 1";
    DocPrintOne();
  }

  const T0: Text := New("", 8)
  /** After `1 abc`, and again after both undos. */
  const T1: Text := Text("abc", 8, [UndoAppend(3)])
  /** After `2 3`, and again after the first undo. */
  const T3: Text := Text("", 8, [UndoAppend(3), UndoDelete("cba")])
  /** After `1 xy`. */
  const T4: Text := Text("xy", 8, [UndoAppend(3), UndoDelete("cba"), UndoAppend(2)])

  /**
   `test_apply_ops`: the run ends with "abc" after the two undos, and prints
   'c', then 'y', then 'a' (the last print reads the restored buffer).
   */
  lemma TestOpsRun()
    ensures Apply(New("", 8), TestOps) == Run(T1, 3, "cya", None)
    ensures Output(T1) == "abc"
  {
    TestRun1();
  }

  lemma TestRun1()
    ensures Exec(T0, 0, TestOps) == Run(T1, 3, "cya", None)
  {
    assert Step(T0, 0, Append("abc")) == Next(T1, 0, []);
    TestRun2();
    ExecFirstStep(T0, 0, Append("abc"), TestOps[1..], T1, 0, []);
    assert [Append("abc")] + TestOps[1..] == TestOps;
  }

  lemma TestRun2()
    ensures Exec(T1, 0, TestOps[1..]) == Run(T1, 3, "cya", None)
  {
    assert Step(T1, 0, Print(3)) == Next(T1, 0, "c");
    TestRun3();
    ExecFirstStep(T1, 0, Print(3), TestOps[2..], T1, 0, "c");
    assert [Print(3)] + TestOps[2..] == TestOps[1..];
    assert "c" + "ya" == "cya";
  }

  lemma TestRun3()
    ensures Exec(T1, 0, TestOps[2..]) == Run(T1, 3, "ya", None)
  {
    assert Step(T1, 0, Delete(3)) == Next(T3, 3, []) by {
      DeleteStepIs(T1, 0, 3);
      assert "abc"[..0] == "" && "abc"[0..] == "abc" && Reverse("abc") == "cba";
    }
    TestRun4();
    ExecFirstStep(T1, 0, Delete(3), TestOps[3..], T3, 3, []);
    assert [Delete(3)] + TestOps[3..] == TestOps[2..];
  }

  lemma TestRun4()
    ensures Exec(T3, 3, TestOps[3..]) == Run(T1, 3, "ya", None)
  {
    assert Step(T3, 3, Append("xy")) == Next(T4, 3, []);
    TestRun5();
    ExecFirstStep(T3, 3, Append("xy"), TestOps[4..], T4, 3, []);
    assert [Append("xy")] + TestOps[4..] == TestOps[3..];
  }

  lemma TestRun5()
    ensures Exec(T4, 3, TestOps[4..]) == Run(T1, 3, "ya", None)
  {
    assert Step(T4, 3, Print(2)) == Next(T4, 3, "y");
    TestRun6();
    ExecFirstStep(T4, 3, Print(2), TestOps[5..], T4, 3, "y");
    assert [Print(2)] + TestOps[5..] == TestOps[4..];
    assert "y" + "a" == "ya";
  }

  lemma TestRun6()
    ensures Exec(T4, 3, TestOps[5..]) == Run(T1, 3, "a", None)
  {
    assert "xy"[..0] == "";
    assert Step(T4, 3, Undo) == Next(T3, 3, []);
    TestRun7();
    ExecFirstStep(T4, 3, Undo, TestOps[6..], T3, 3, []);
    assert [Undo] + TestOps[6..] == TestOps[5..];
  }

  lemma TestRun7()
    ensures Exec(T3, 3, TestOps[6..]) == Run(T1, 3, "a", None)
  {
    assert Reverse("cba") == "abc";
    assert Step(T3, 3, Undo) == Next(T1, 3, []);
    TestRun8();
    ExecFirstStep(T3, 3, Undo, TestOps[7..], T1, 3, []);
    assert [Undo] + TestOps[7..] == TestOps[6..];
  }

  lemma TestRun8()
    ensures Exec(T1, 3, TestOps[7..]) == Run(T1, 3, "a", None)
  {
    assert Step(T1, 3, Print(1)) == Next(T1, 3, "a");
    ExecFirstStep(T1, 3, Print(1), [], T1, 3, "a");
    assert [Print(1)] + [] == TestOps[7..];
  }
}
