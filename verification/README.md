# simple-text-editor, modelled in Dafny

A model of the core of `simple-text-editor`, a line-oriented editor driven by a
script of numbered commands:

- `1 <text>` appends text.
- `2 <n>` deletes `n` characters from the end of the buffer.
- `3 <i>` prints the `i`-th character (1-based).
- `4` undoes the last append or delete.

The model has two parts:

- **The operation parser** (`src/ops.rs`). `Ops.ParseLine` is `From<&str> for Operation`, a total function from one line to one of the five operations. `Ops.Parse` is `parse`: it reads the declared count from the first line and turns every later line into an operation.
- **The undoable buffer** (`src/text.rs`). `TextBuffer.Step` gives the effect of one operation on the buffer, the undo stack and the running deleted-character total. `TextBuffer.Exec` folds it over a list. `TextBuffer.Apply` adds the two up-front checks of `Text::apply`. The methods `ApplyLoop` and `ApplyOne`, with their helpers `PopDeleted`, `PopAppended` and `PushRestored`, repeat the source's loops, pops and pushes, and are proved to compute exactly `Apply` and `Step`.

`RustStr` models the pieces of Rust's standard library the parser relies on:

- `char::is_whitespace`, over the full Unicode White_Space set.
- `trim_start` and `trim`.
- `str::lines`.
- `str::parse::<usize>`, which accepts an optional `+` and is bounded by a 64-bit `usize::MAX`.
- `Vec::reverse`.

`Scenarios` restates the documentation examples and the unit tests as facts about the model.

When `apply` panics, the call is modelled as a run that ends with a `Failure`. This covers its two `assert!`s, the deleted-characters limit, and the `Print(0)` underflow. The run keeps the state reached before the failing operation and the characters printed up to then.

## Model

| member | source | states |
|---|---|---|
| RustStr.LeadingWhitespace | src/ops.rs:80 | the prefix `trim_start` drops is exactly the longest run of whitespace: all of it is whitespace, and the next character is not |
| RustStr.TrimStartSkipsWhitespace | src/ops.rs:80 | extra leading whitespace never changes what `trim_start` returns |
| RustStr.TrailingWhitespace | src/ops.rs:109 | the suffix `trim` drops at the end is exactly the longest run of trailing whitespace: all of it is whitespace, and the character before it is not |
| RustStr.TrimStrips | src/ops.rs:109 | `trim` never lengthens its input, returns text that neither starts nor ends with whitespace, and returns nothing for all-whitespace input |
| RustStr.TrimPadded | src/ops.rs:109 | `trim` recovers any text that neither starts nor ends with whitespace from any whitespace padding on either side |
| RustStr.ParseUsize | src/ops.rs:109 | the parse succeeds exactly when what follows an optional single `+` is a non-empty run of decimal digits worth at most `usize::MAX`, and then yields that value. Larger values are rejected, not wrapped, and nothing else (no sign `-`, no blank, no empty text) is accepted |
| RustStr.ParseUsizeToDecimal | src/ops.rs:109 | every `usize` written in decimal, with or without a leading `+`, parses back to itself |
| RustStr.LinesOfUnlines | src/ops.rs:144 | `lines` splits newline-terminated lines back into exactly those lines, whatever text follows them |
| RustStr.Lines | src/ops.rs:144 | no line `lines` yields contains a line break, and there are never more lines than characters |
| RustStr.LinesCons | src/ops.rs:144 | a first line ended by `\n` is split off whole, and the rest of the input is split on its own |
| RustStr.LinesConsCrlf | src/ops.rs:144 | a first line ended by `\r\n` is split off without the `\r`, and the rest of the input is split on its own |
| RustStr.Reverse | src/text.rs:109 | the result has the input's length and holds its elements in the opposite order |
| RustStr.ReverseReverse | src/text.rs:109 | reversing twice gives back the original, so the reversed record of a delete can be put back in order |
| Ops.RemoveSepSpace | src/ops.rs:97-105 | exactly the first character is removed, whatever it is; every other character is kept in place; an empty value stays empty |
| Ops.ParseDeleteOrPrint | src/ops.rs:107-118 | the result is `Delete` exactly when the code is `2` and the trimmed operand parses as a `usize`, `Print` exactly when the code is `3` and it parses, and `Invalid` otherwise |
| Ops.ParseLine | src/ops.rs:78-95 | every line parses to some operation whose numbers fit in a `usize`, and an appended text is strictly shorter than its line |
| Ops.BlankLineIsInvalid | src/ops.rs:80-83 | an empty or all-whitespace line is `Invalid` |
| Ops.ParseLineIgnoresIndent | src/ops.rs:80 | leading whitespace before the command code never changes the parsed operation |
| Ops.ParseAppend | src/ops.rs:87 | code `1`, then any one separator character, then `text` gives `Append(text)` with nothing else trimmed; a bare `1` gives `Append("")` |
| Ops.ParseDeleteOrPrintLine | src/ops.rs:88-89 | code `2`/`3` plus one separator yields `Delete(n)`/`Print(n)` when the trimmed operand parses as `n`, and `Invalid` when it does not |
| Ops.ParsePaddedNumber | src/ops.rs:108-114 | a decimal operand with any whitespace on both sides gives `Delete(n)` or `Print(n)` for its value |
| Ops.BareDeleteOrPrintIsInvalid | src/ops.rs:115-117 | a `2` or `3` followed by nothing but whitespace is `Invalid` |
| Ops.BlankOperandIsInvalid | src/ops.rs:109-117 | an operand that trims to nothing is `Invalid` for every code |
| Ops.ParseUndo | src/ops.rs:91 | code `4` is `Undo` whatever follows it |
| Ops.ParseUnknownCode | src/ops.rs:92 | any other first non-blank character gives `Invalid` |
| Ops.ParseFormatLine | src/ops.rs:78-95 | round trip: every operation written in its canonical line form, however indented, parses back to itself |
| Ops.OverflowDoesNotParse | src/ops.rs:109 | digits worth more than `usize::MAX` do not parse |
| Ops.OverflowOperandIsInvalid | src/ops.rs:108-117 | a `2` or `3` line whose operand overflows `usize` is `Invalid`, whatever whitespace surrounds the operand |
| Ops.Header | src/ops.rs:145 | the count text is the first line `lines` yields, untrimmed, or empty text when there is no line at all; it never holds a line break |
| Ops.ParseEmptyInput | src/ops.rs:145-148 | empty input has no first line, the empty count text does not parse, and `parse` returns `None` |
| Ops.ParseCrlfHeader | src/ops.rs:144-150 | a count line ended by `\r\n` still parses to that count |
| Ops.Parse | src/ops.rs:143-151 | `None` exactly when the untrimmed first line is not a `usize`, which includes empty input. Otherwise it returns that value and one operation per remaining line, the `k`-th being the parse of line `k + 1`, with `Invalid` ones kept |
| Ops.ParseLines | src/ops.rs:149 | the `map`/`collect` yields exactly one operation per line |
| Ops.ParseLinesIndex | src/ops.rs:149 | the recursive line map parses element `k` from line `k`, for every `k` |
| Ops.ParseLinesOf | src/ops.rs:149 | a list that agrees with the line parser at every position is the parsed list |
| Ops.ParseLinesIgnoresIndent | src/ops.rs:149 | indenting every operation line by the same whitespace changes none of the parsed operations |
| Ops.ParseIsLineMap | src/ops.rs:149-150 | the operations of a parsed script are its lines after the first, mapped through the line parser in order |
| Ops.ParseFormatScript | src/ops.rs:143-151 | round trip: a count followed by canonical operation lines parses back to that count and those operations |
| TextBuffer.New | src/text.rs:34-40 | the buffer is the initial text, the count is the declared one, the undo stack is empty, and the stack invariant holds |
| TextBuffer.Step | src/text.rs:57-116 | one operation aborts exactly when it is an in-range `Delete` that would lift the deleted total past `MAX_DELETE_OPS`, or `Print(0)`, and the failure names which. Only an in-range `Print` emits, exactly one character. `Print`, `Invalid`, an out-of-range `Delete` and an `Undo` on an empty stack change nothing. The stack grows by one for `Append` and applied `Delete`, and shrinks by one for `Undo` |
| TextBuffer.AppendExtends | src/text.rs:61-65 | `Append(s)` never fails, adds `s` at the end of the buffer, pushes one entry recording `s`'s length on top of the old stack, counts no deletion and prints nothing |
| TextBuffer.UndoPopsTop | src/text.rs:96-113 | `Undo` on a non-empty stack removes exactly the top entry and applies its inverse to the buffer, counting no deletion and printing nothing |
| TextBuffer.InvertShape | src/text.rs:97-112 | undoing an append only cuts the buffer back, by the recorded count or the whole buffer if that is shorter; undoing a delete only extends it, by exactly the recorded characters |
| TextBuffer.InvertRestores | src/text.rs:97-112 | the inverse of an append takes back exactly the appended text, and the inverse of a delete puts back exactly the removed suffix |
| TextBuffer.Undoable | src/text.rs:96-111 | the empty stack is always undoable, and under the invariant an append on top of the stack never asks for more characters than the buffer holds |
| TextBuffer.Output | src/text.rs:120-123 | `output` hands back the current buffer unchanged |
| TextBuffer.OutputAfterAppend | src/text.rs:120-123 | after an `Append(s)` the output is the old output followed by `s`, so the old output is a prefix of the new |
| TextBuffer.Exec | src/text.rs:56-117 | a run keeps the declared count, never lowers the deleted total or lifts it past the limit, prints at most one character per operation, and grows the stack by at most one entry per operation |
| TextBuffer.Apply | src/text.rs:43-54 | more than `MAX_OPS` operations, or a count other than the declared one, fails before anything changes; any run keeps the deleted total within `MAX_DELETE_OPS` |
| TextBuffer.ApplyLoop | src/text.rs:43-118 | the source's loop, with its running `delete_count`, computes exactly `Apply` |
| TextBuffer.ApplyOne | src/text.rs:58-116 | each arm of the source's `match`, with its pops and pushes, computes exactly `Step` |
| TextBuffer.PopDeleted | src/text.rs:79-82 | popping `n` characters keeps the first `len - n` and records the popped ones last-first |
| TextBuffer.PopAppended | src/text.rs:99-103 | `n` pops remove the last `n` characters, or empty the buffer when it is shorter, and keep the rest in place |
| TextBuffer.PushRestored | src/text.rs:104-111 | reversing the record and pushing it back appends the deleted characters in their original order |
| TextBuffer.AppendThenUndo | src/text.rs:99-103 | `Append(s)` then `Undo` restores the exact buffer and stack, from any state |
| TextBuffer.DeleteThenUndo | src/text.rs:104-111 | an in-range `Delete(n)` then `Undo` restores the exact buffer and stack, and the deleted total keeps `n` |
| TextBuffer.DeleteRecordsPopOrder | src/text.rs:76-85 | an applied `Delete(n)` truncates the buffer by `n` and pushes one entry recording the removed characters in reverse order on top of the old stack |
| TextBuffer.PrintEmitsIndexedChar | src/text.rs:88-89 | `Print(i)` with `1 <= i <= len` emits the character at 1-based position `i` of the current buffer and changes nothing |
| TextBuffer.UndoAppendNeverClamps | src/text.rs:99-103 | under the stack invariant, undoing an append always finds the characters it removes |
| TextBuffer.StepPreservesUndoable | src/text.rs:57-116 | every step keeps every stack entry exactly invertible against the buffer |
| TextBuffer.ExecPreservesUndoable | src/text.rs:56-117 | a whole run keeps the stack invariant, whether it completes or aborts |
| TextBuffer.ApplyPreservesUndoable | src/text.rs:43-118 | every call to `apply` keeps the stack invariant |
| TextBuffer.ExecConcat | src/text.rs:57-117 | running `a + b` is running `a`, then `b` from where `a` stopped; a failure in `a` stops everything, and `a`'s output precedes `b`'s |
| TextBuffer.PrintsInOrder | src/text.rs:87-90 | what a prefix of the operations prints is a prefix of what the whole list prints |
| TextBuffer.ExecSingle | src/text.rs:57-117 | a run of one operation ends where that operation's step ends |
| TextBuffer.ExecFirstStep | src/text.rs:57 | a run whose first step goes through prints that step's output and then continues from its state |
| Scenarios.OperationDocCases | src/ops.rs:7-77 | the documentation examples: `1 append this text`, `2 5`, `3 1`, `4`, `__BADOPERATION__` and `1 abc` parse as documented |
| Scenarios.OperationFromLineCases | src/tests.rs:1-24 | all fourteen cases of `test_op_from_str` parse to the operation the test expects |
| Scenarios.DocScriptParses | src/ops.rs:120-142 | the example script of `parse` gives count 4 and its four operations |
| Scenarios.HelpMeParses | src/text.rs:19-27 | the example script on `Text` parses to count 4 and its four operations |
| Scenarios.HelpMeRuns | src/text.rs:28-30 | applying those operations to an empty buffer leaves `help me!`, prints nothing, and succeeds |
| Scenarios.TestScriptParses | src/tests.rs:26-53 | the indented script of `test_parse_input` parses to count 8 and its eight operations, for any indentation without a line break |
| Scenarios.TestBodiesParse | src/tests.rs:29-50 | without their indentation, the eight operation lines of `test_parse_input` parse to the eight expected operations |
| Scenarios.TestInputParses | src/tests.rs:26-53 | the same for the four-space indentation the test uses |
| Scenarios.TestOpsRun | src/tests.rs:55-84 | applying those operations leaves `abc` and prints `c`, `y`, `a` in that order |

## Left out

- `src/bin/editor.rs` is not part of this model. It covers reading standard input, UTF-8 decoding, printing the final buffer, and dropping `Invalid` operations before `apply`. Printing is modelled only as the `printed` sequence of a run.
- Characters are modelled as single units: `String::len` and the buffer length agree. This is exact for ASCII text. The byte/char mismatch and the `as u8` truncation in `src/text.rs:81` are not modelled for non-ASCII text.
- The panics of `apply` are modelled as `Failure` values, and their messages are dropped. A failure ends the run with the state before the failing operation.
- `delete_count` is incremented before its check. A failing check ends the run, so the model never stores the over-limit total.
- `Text::output` consumes the `Text`. The model returns the buffer without consuming anything.
- Lifetimes: operations own their text instead of borrowing a slice of the input.
- `usize` is taken to be 64 bits wide. The deleted-character total cannot overflow, because each `Delete` that counts is at most the buffer length.
- RustStr.Lines: a line ends at `\n` or `\r\n`. A bare `\r` at the end of the final, unterminated line is kept. This follows the current documented behaviour of `str::lines`.
- `Print(0)` passes the guard `i <= self.value.len()` (src/text.rs:88) and then panics on `i - 1` (src/text.rs:89). The model ends the run with the failure `PrintIndexZero`.
- `test_apply_ops` (src/tests.rs:55-84) checks only the final buffer, `abc`. Its run prints `c`, `y` and `a`, which `Scenarios.TestOpsRun` states.
