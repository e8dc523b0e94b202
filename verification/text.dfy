/**
 The undoable text buffer (src/text.rs): a buffer of characters, the declared
 number of operations, and a stack of inverse commands. `Apply` runs a list of
 operations serially; print commands emit characters as they go.

 Rust's `assert!` failures and the panic of `Print(0)` abort the whole call:
 they are modelled as a `Run` that carries the failure, the state reached
 before the failing operation, and the characters printed up to then.
 */
module TextBuffer {
  import opened RustStr
  import opened Ops

  /** The most operations one call to `apply` accepts. */
  const MAX_OPS: nat := 1_000_000
  /** The most characters one call to `apply` may delete in total. */
  const MAX_DELETE_OPS: nat := MAX_OPS * 2

  /** The buffer, the declared operation count, and the undo stack (top last). */
  datatype Text = Text(value: string, numOps: nat, stack: seq<UndoableOperation>)

  /** Why a call to `apply` aborted. */
  datatype Failure =
    | TooManyOps       // more than MAX_OPS operations were supplied
    | CountMismatch    // the number supplied differs from the declared count
    | TooManyDeletes   // the running total of deleted characters passed MAX_DELETE_OPS
    | PrintIndexZero   // `Print(0)` passes the range guard and then panics on `0 - 1`

  /** The effect of one operation: the next state and what it printed, or an abort. */
  datatype Outcome =
    | Next(text: Text, deleted: nat, emitted: string)
    | Abort(reason: Failure)

  /**
   The end of a run: the state reached, the running deleted-character total,
   every character printed in order, and the failure that stopped it, if any.
   */
  datatype Run = Run(text: Text, deleted: nat, printed: string, failure: Option<Failure>)

  /** `Text::new`: the initial buffer, the declared count, and no history. */
  function New(init: string, numOps: nat): (t: Text)
    ensures t.value == init && t.numOps == numOps
    ensures Undoable(t.value, t.stack) && |t.stack| == 0
  {
    Text(init, numOps, [])
  }

  /** `Text::output`: the buffer as it stands. */
  function Output(t: Text): (s: string)
    ensures s == t.value
  {
    t.value
  }

  /**
   `Append(s)` never fails: the buffer gains `s` at its end, the history gains
   one entry recording `|s|` on top of the old one, and no deletion is counted.
   */
  lemma AppendExtends(t: Text, deleted: nat, s: string)
    ensures Step(t, deleted, Append(s)).Next?
    ensures Step(t, deleted, Append(s)).text.value == t.value + s
    ensures Step(t, deleted, Append(s)).text.stack == t.stack + [UndoAppend(|s|)]
    ensures Step(t, deleted, Append(s)).deleted == deleted
    ensures Step(t, deleted, Append(s)).emitted == []
  {
  }

  /** `Undo` on a non-empty history removes exactly its top entry and inverts it on the buffer. */
  lemma UndoPopsTop(t: Text, deleted: nat)
    requires t.stack != []
    ensures Step(t, deleted, Undo).Next?
    ensures Step(t, deleted, Undo).text.stack == t.stack[..|t.stack| - 1]
    ensures Step(t, deleted, Undo).text.value == Invert(t.value, t.stack[|t.stack| - 1])
    ensures Step(t, deleted, Undo).deleted == deleted && Step(t, deleted, Undo).emitted == []
  {
  }

  /** Appending shows up at the end of the output, after everything already there. */
  lemma OutputAfterAppend(t: Text, deleted: nat, s: string)
    ensures Output(Step(t, deleted, Append(s)).text) == Output(t) + s
    ensures Output(t) <= Output(Step(t, deleted, Append(s)).text)
  {
  }

  /**
   Undoing one stack entry: remove `n` characters again (a `String::pop` on
   an empty buffer does nothing), or put the popped characters back in their
   original order.
   */
  function Invert(value: string, entry: UndoableOperation): string {
    match entry
    case UndoAppend(n) => value[..|value| - Min(n, |value|)]
    case UndoDelete(popped) => value + Reverse(popped)
  }

  /**
   Undoing an append only ever cuts the buffer back, by at most its length;
   undoing a delete only ever extends it, by exactly the recorded characters.
   */
  lemma InvertShape(value: string, entry: UndoableOperation)
    ensures entry.UndoAppend? ==> Invert(value, entry) <= value
    ensures entry.UndoAppend? ==> |Invert(value, entry)| == |value| - Min(entry.count, |value|)
    ensures entry.UndoDelete? ==> value <= Invert(value, entry)
    ensures entry.UndoDelete? ==> |Invert(value, entry)| == |value| + |entry.popped|
  {
  }

  function Min(a: nat, b: nat): nat {
    if a <= b then a else b
  }

  /** `Invert` takes back exactly what an append or a delete did to the buffer. */
  lemma InvertRestores(value: string, s: string, k: nat)
    requires k <= |value|
    ensures Invert(value + s, UndoAppend(|s|)) == value
    ensures Invert(value[..k], UndoDelete(Reverse(value[k..]))) == value
  {
    assert (value + s)[..|value|] == value;
    ReverseReverse(value[k..]);
    assert value[..k] + value[k..] == value;
  }

  /**
   Every entry of the stack can be inverted exactly, from the top down: an
   `UndoAppend(n)` always finds at least `n` characters to remove.
   */
  predicate Undoable(value: string, stack: seq<UndoableOperation>): (ok: bool)
    ensures stack == [] ==> ok
    ensures ok && stack != [] && stack[|stack| - 1].UndoAppend? ==> stack[|stack| - 1].count <= |value|
    decreases |stack|
  {
    stack == [] ||
    var top, rest := stack[|stack| - 1], stack[..|stack| - 1];
    match top
    case UndoAppend(n) => n <= |value| && Undoable(value[..|value| - n], rest)
    case UndoDelete(popped) => Undoable(value + Reverse(popped), rest)
  }

  /**
   One iteration of the loop in `Text::apply`, given the running total of
   deleted characters.
   */
  function Step(t: Text, deleted: nat, op: Operation): (r: Outcome)
    ensures r.Next? ==> r.text.numOps == t.numOps && r.deleted >= deleted
    ensures r.Next? && deleted <= MAX_DELETE_OPS ==> r.deleted <= MAX_DELETE_OPS
    // Only `Delete` and `Print` can abort, and only in these two ways.
    ensures r.Abort? <==>
      || (op.Delete? && op.count <= |t.value| && deleted + op.count > MAX_DELETE_OPS)
      || op == Print(0)
    ensures r.Abort? ==> r.reason == (if op.Print? then PrintIndexZero else TooManyDeletes)
    // Only an in-range `Print` emits, and exactly one character.
    ensures r.Next? ==> |r.emitted| == (if op.Print? && 1 <= op.index <= |t.value| then 1 else 0)
    // `Print`, `Invalid` and the out-of-range operations leave the state alone.
    ensures r.Next? && (op.Print? || op.Invalid? || (op.Delete? && op.count > |t.value|)
                        || (op.Undo? && t.stack == [])) ==>
      r.text == t && r.deleted == deleted
    // One history entry per applied `Append` or `Delete`; `Undo` consumes one.
    ensures r.Next? ==>
      |r.text.stack| ==
        if op.Append? || (op.Delete? && op.count <= |t.value|) then |t.stack| + 1
        else if op.Undo? && t.stack != [] then |t.stack| - 1
        else |t.stack|
  {
    var value, stack := t.value, t.stack;
    match op
    case Append(s) =>
      Next(t.(value := value + s, stack := stack + [UndoAppend(|s|)]), deleted, [])
    case Delete(n) =>
      if n <= |value| then
        if deleted + n > MAX_DELETE_OPS then
          Abort(TooManyDeletes)
        else
          var keep := |value| - n;
          Next(t.(value := value[..keep], stack := stack + [UndoDelete(Reverse(value[keep..]))]),
               deleted + n, [])
      else
        Next(t, deleted, [])
    case Print(i) =>
      if i <= |value| then
        if i == 0 then Abort(PrintIndexZero) else Next(t, deleted, [value[i - 1]])
      else
        Next(t, deleted, [])
    case Undo =>
      if stack == [] then
        Next(t, deleted, [])
      else
        Next(t.(value := Invert(value, stack[|stack| - 1]), stack := stack[..|stack| - 1]), deleted, [])
    case Invalid =>
      Next(t, deleted, [])
  }

  /**
   The operations applied serially from `t`, stopping at the first failure.
   The printed characters are the emissions of the steps, in order.
   */
  function Exec(t: Text, deleted: nat, ops: seq<Operation>): (r: Run)
    ensures r.text.numOps == t.numOps
    ensures r.deleted >= deleted
    ensures deleted <= MAX_DELETE_OPS ==> r.deleted <= MAX_DELETE_OPS
    ensures |r.printed| <= |ops|
    ensures r.failure.None? ==> |r.text.stack| <= |t.stack| + |ops|
    decreases |ops|
  {
    if ops == [] then
      Run(t, deleted, [], None)
    else
      match Step(t, deleted, ops[0])
      case Abort(reason) => Run(t, deleted, [], Some(reason))
      case Next(t', deleted', emitted) =>
        var rest := Exec(t', deleted', ops[1..]);
        rest.(printed := emitted + rest.printed)
  }

  /**
   `Text::apply`: rejects the whole list, before touching anything, when it
   is longer than `MAX_OPS` or differs from the declared count; otherwise runs
   it with a deleted-character total starting at zero.
   */
  function Apply(t: Text, ops: seq<Operation>): (r: Run)
    ensures |ops| > MAX_OPS ==> r == Run(t, 0, [], Some(TooManyOps))
    ensures |ops| <= MAX_OPS && |ops| != t.numOps ==> r == Run(t, 0, [], Some(CountMismatch))
    ensures r.text.numOps == t.numOps
    ensures r.deleted <= MAX_DELETE_OPS
    ensures |r.printed| <= |ops|
  {
    if |ops| > MAX_OPS then
      Run(t, 0, [], Some(TooManyOps))
    else if |ops| != t.numOps then
      Run(t, 0, [], Some(CountMismatch))
    else
      Exec(t, 0, ops)
  }

  /* ---------------------------------------------------------------------
     The loops of `Text::apply`
     --------------------------------------------------------------------- */

  /**
   The `Delete` arm: pop `n` characters off the buffer one at a time,
   recording them in the order they come off.
   */
  method PopDeleted(value: string, n: nat) returns (rest: string, deleted: string)
    requires n <= |value|
    ensures |rest| == |value| - n && |deleted| == n
    ensures forall j :: 0 <= j < |rest| ==> rest[j] == value[j]
    ensures forall j :: 0 <= j < n ==> deleted[j] == value[|value| - 1 - j]
  {
    rest, deleted := value, [];
    var k := 0;
    while k < n
      invariant 0 <= k <= n
      invariant rest == value[..|value| - k]
      invariant |deleted| == k
      invariant forall j :: 0 <= j < k ==> deleted[j] == value[|value| - 1 - j]
    {
      deleted := deleted + [rest[|rest| - 1]];
      rest := rest[..|rest| - 1];
      k := k + 1;
    }
  }

  /** Undoing an append: pop `n` times, where a pop on an empty buffer does nothing. */
  method PopAppended(value: string, n: nat) returns (rest: string)
    ensures |value| >= n ==> |rest| == |value| - n
    ensures |value| < n ==> rest == []
    ensures forall j :: 0 <= j < |rest| ==> rest[j] == value[j]
  {
    rest := value;
    var k := 0;
    while k < n
      invariant 0 <= k <= n
      invariant rest == value[..|value| - Min(k, |value|)]
    {
      if rest != [] {
        rest := rest[..|rest| - 1];
      }
      k := k + 1;
    }
  }

  /**
   Undoing a delete: reverse the recorded characters back into buffer order,
   then push them one at a time.
   */
  method PushRestored(value: string, popped: string) returns (r: string)
    ensures |r| == |value| + |popped|
    ensures forall j :: 0 <= j < |value| ==> r[j] == value[j]
    ensures forall j :: |value| <= j < |r| ==> r[j] == popped[|r| - 1 - j]
  {
    var ordered := Reverse(popped);
    r := value;
    var k := 0;
    while k < |ordered|
      invariant 0 <= k <= |ordered|
      invariant r == value + ordered[..k]
    {
      r := r + [ordered[k]];
      k := k + 1;
    }
    assert ordered[..k] == ordered;
  }

  /**
   One arm of the `match` in `Text::apply`, written with the source's pops
   and pushes; it computes exactly `Step`.
   */
  method ApplyOne(t: Text, deleted: nat, op: Operation) returns (o: Outcome)
    ensures o == Step(t, deleted, op)
  {
    var value, stack := t.value, t.stack;
    match op {
      case Append(s) =>
        return Next(t.(value := value + s, stack := stack + [UndoAppend(|s|)]), deleted, []);
      case Delete(n) =>
        if n <= |value| {
          if deleted + n > MAX_DELETE_OPS {
            return Abort(TooManyDeletes);
          }
          var rest, popped := PopDeleted(value, n);
          assert rest == value[..|value| - n];
          assert popped == Reverse(value[|value| - n..]);
          return Next(t.(value := rest, stack := stack + [UndoDelete(popped)]), deleted + n, []);
        }
        return Next(t, deleted, []);
      case Print(i) =>
        if i <= |value| {
          if i == 0 {
            return Abort(PrintIndexZero);
          }
          return Next(t, deleted, [value[i - 1]]);
        }
        return Next(t, deleted, []);
      case Undo =>
        if stack == [] {
          return Next(t, deleted, []);
        }
        var top := stack[|stack| - 1];
        var restored: string;
        match top {
          case UndoAppend(n) =>
            restored := PopAppended(value, n);
            assert restored == value[..|value| - Min(n, |value|)];
          case UndoDelete(popped) =>
            restored := PushRestored(value, popped);
            assert restored == value + Reverse(popped);
        }
        return Next(t.(value := restored, stack := stack[..|stack| - 1]), deleted, []);
      case Invalid =>
        return Next(t, deleted, []);
    }
  }

  /**
   `Text::apply` as the loop the source writes: the two checks, then one
   operation at a time with a running deleted-character total, stopping at
   the first failure. It computes exactly `Apply`.
   */
  method ApplyLoop(t: Text, ops: seq<Operation>) returns (r: Run)
    ensures r == Apply(t, ops)
  {
    if |ops| > MAX_OPS {
      return Run(t, 0, [], Some(TooManyOps));
    }
    if |ops| != t.numOps {
      return Run(t, 0, [], Some(CountMismatch));
    }
    var cur, deleteCount, printed := t, 0, [];
    var i := 0;
    while i < |ops|
      invariant 0 <= i <= |ops|
      invariant Apply(t, ops) == Prefixed(printed, Exec(cur, deleteCount, ops[i..]))
    {
      assert ops[i..][1..] == ops[i + 1..];
      var o := ApplyOne(cur, deleteCount, ops[i]);
      match o {
        case Abort(reason) =>
          return Run(cur, deleteCount, printed, Some(reason));
        case Next(next, deleted, emitted) =>
          cur, deleteCount, printed := next, deleted, printed + emitted;
      }
      i := i + 1;
    }
    assert printed + [] == printed;
    r := Run(cur, deleteCount, printed, None);
  }

  /** A run with `before` printed ahead of its own output. */
  function Prefixed(before: string, r: Run): Run {
    r.(printed := before + r.printed)
  }

  /* ---------------------------------------------------------------------
     Undo round trips and the stack invariant
     --------------------------------------------------------------------- */

  /** `Append(s)` followed by `Undo` restores the exact buffer and stack, from any state. */
  lemma AppendThenUndo(t: Text, deleted: nat, s: string)
    ensures Exec(t, deleted, [Append(s), Undo]) == Run(t, deleted, [], None)
  {
    var t1 := Text(t.value + s, t.numOps, t.stack + [UndoAppend(|s|)]);
    assert Step(t, deleted, Append(s)) == Next(t1, deleted, []);
    assert t1.value[..|t1.value| - |s|] == t.value;
    assert t1.stack[..|t1.stack| - 1] == t.stack;
    assert Step(t1, deleted, Undo) == Next(t, deleted, []);
    ExecTwo(t, deleted, Append(s), Undo);
  }

  /**
   An in-range `Delete(n)` followed by `Undo` restores the exact buffer and
   stack; the deleted-character total keeps the `n`.
   */
  lemma DeleteThenUndo(t: Text, deleted: nat, n: nat)
    requires n <= |t.value| && deleted + n <= MAX_DELETE_OPS
    ensures Exec(t, deleted, [Delete(n), Undo]) == Run(t, deleted + n, [], None)
  {
    var t1 := DeleteStepText(t, n);
    DeleteStepIs(t, deleted, n);
    UndoOfDeleteStep(t, deleted + n, n);
    ExecTwo(t, deleted, Delete(n), Undo);
  }

  /** The text an in-range `Delete(n)` leaves behind. */
  function DeleteStepText(t: Text, n: nat): (t1: Text)
    requires n <= |t.value|
    ensures |t1.value| == |t.value| - n && |t1.stack| == |t.stack| + 1
  {
    var keep := |t.value| - n;
    Text(t.value[..keep], t.numOps, t.stack + [UndoDelete(Reverse(t.value[keep..]))])
  }

  lemma DeleteStepIs(t: Text, deleted: nat, n: nat)
    requires n <= |t.value| && deleted + n <= MAX_DELETE_OPS
    ensures Step(t, deleted, Delete(n)) == Next(DeleteStepText(t, n), deleted + n, [])
  {
  }

  lemma UndoOfDeleteStep(t: Text, deleted: nat, n: nat)
    requires n <= |t.value|
    ensures Step(DeleteStepText(t, n), deleted, Undo) == Next(t, deleted, [])
  {
    var keep := |t.value| - n;
    var t1 := DeleteStepText(t, n);
    ReverseReverse(t.value[keep..]);
    assert t.value[..keep] + t.value[keep..] == t.value;
    assert Invert(t1.value, t1.stack[|t1.stack| - 1]) == t.value;
    assert t1.stack[..|t1.stack| - 1] == t.stack;
  }

  /** A run of two operations that both step normally. */
  lemma ExecTwo(t: Text, deleted: nat, a: Operation, b: Operation)
    requires Step(t, deleted, a).Next?
    requires var o := Step(t, deleted, a); Step(o.text, o.deleted, b).Next?
    ensures var o1 := Step(t, deleted, a);
      var o2 := Step(o1.text, o1.deleted, b);
      Exec(t, deleted, [a, b]) == Run(o2.text, o2.deleted, o1.emitted + o2.emitted, None)
  {
    var o1 := Step(t, deleted, a);
    assert [a, b] == [a] + [b];
    ExecConcat(t, deleted, [a], [b]);
    ExecSingle(t, deleted, a);
    ExecSingle(o1.text, o1.deleted, b);
  }

  /**
   An in-range `Delete(n)` keeps the first `|value| - n` characters and records
   the removed ones last-character-first on top of the stack.
   */
  lemma DeleteRecordsPopOrder(t: Text, deleted: nat, n: nat)
    requires n <= |t.value| && deleted + n <= MAX_DELETE_OPS
    ensures Step(t, deleted, Delete(n)).Next?
    ensures var after := Step(t, deleted, Delete(n)).text;
      && after.value == t.value[..|t.value| - n]
      && after.stack[..|t.stack|] == t.stack
      && after.stack[|t.stack|].UndoDelete?
      && |after.stack[|t.stack|].popped| == n
      && forall j :: 0 <= j < n ==> after.stack[|t.stack|].popped[j] == t.value[|t.value| - 1 - j]
  {
    var after := Step(t, deleted, Delete(n)).text;
    assert after.stack[..|t.stack|] == t.stack;
  }

  /** An in-range `Print(i)` emits the `i`-th character (1-based) of the current buffer. */
  lemma PrintEmitsIndexedChar(t: Text, deleted: nat, i: nat)
    requires 1 <= i <= |t.value|
    ensures Step(t, deleted, Print(i)) == Next(t, deleted, [t.value[i - 1]])
  {
  }

  /** With the invariant in place, undoing an append never runs out of characters. */
  lemma UndoAppendNeverClamps(t: Text, deleted: nat)
    requires Undoable(t.value, t.stack)
    requires t.stack != [] && t.stack[|t.stack| - 1].UndoAppend?
    ensures var n := t.stack[|t.stack| - 1].count;
      Step(t, deleted, Undo).text.value == t.value[..|t.value| - n]
      && |Step(t, deleted, Undo).text.value| == |t.value| - n
  {
  }

  /** Every step keeps every entry of the stack exactly invertible. */
  lemma StepPreservesUndoable(t: Text, deleted: nat, op: Operation)
    requires Undoable(t.value, t.stack)
    requires Step(t, deleted, op).Next?
    ensures var next := Step(t, deleted, op).text; Undoable(next.value, next.stack)
  {
    match op {
      case Append(s) => AppendKeepsUndoable(t.value, t.stack, s);
      case Delete(n) =>
        if n <= |t.value| {
          DeleteKeepsUndoable(t.value, t.stack, n);
        }
      case Print(_) =>
      case Undo =>
      case Invalid =>
    }
  }

  lemma AppendKeepsUndoable(value: string, stack: seq<UndoableOperation>, s: string)
    requires Undoable(value, stack)
    ensures Undoable(value + s, stack + [UndoAppend(|s|)])
  {
    assert (value + s)[..|value + s| - |s|] == value;
    assert (stack + [UndoAppend(|s|)])[..|stack|] == stack;
  }

  lemma DeleteKeepsUndoable(value: string, stack: seq<UndoableOperation>, n: nat)
    requires Undoable(value, stack) && n <= |value|
    ensures var keep := |value| - n;
      Undoable(value[..keep], stack + [UndoDelete(Reverse(value[keep..]))])
  {
    var keep := |value| - n;
    ReverseReverse(value[keep..]);
    assert value[..keep] + value[keep..] == value;
    assert (stack + [UndoDelete(Reverse(value[keep..]))])[..|stack|] == stack;
  }

  /** A whole run keeps the invariant, whether it completes or aborts. */
  lemma {:induction false} ExecPreservesUndoable(t: Text, deleted: nat, ops: seq<Operation>)
    requires Undoable(t.value, t.stack)
    ensures var r := Exec(t, deleted, ops); Undoable(r.text.value, r.text.stack)
    decreases |ops|
  {
    if ops != [] {
      match Step(t, deleted, ops[0]) {
        case Abort(_) =>
        case Next(t', deleted', _) =>
          StepPreservesUndoable(t, deleted, ops[0]);
          ExecPreservesUndoable(t', deleted', ops[1..]);
      }
    }
  }

  /** Every state reachable from `New` through calls to `Apply` satisfies the invariant. */
  lemma ApplyPreservesUndoable(t: Text, ops: seq<Operation>)
    requires Undoable(t.value, t.stack)
    ensures var r := Apply(t, ops); Undoable(r.text.value, r.text.stack)
  {
    if |ops| <= MAX_OPS && |ops| == t.numOps {
      ExecPreservesUndoable(t, 0, ops);
    }
  }

  /* ---------------------------------------------------------------------
     Serial order
     --------------------------------------------------------------------- */

  /** Continue a run with more operations, unless it has already failed. */
  function Continue(r: Run, more: seq<Operation>): Run {
    if r.failure.Some? then r else Prefixed(r.printed, Exec(r.text, r.deleted, more))
  }

  /**
   Running `a + b` is running `a` and then `b` from where `a` left off: a
   failure in `a` stops everything, and the characters printed by `a` come
   before those printed by `b`.
   */
  lemma {:induction false} ExecConcat(t: Text, deleted: nat, a: seq<Operation>, b: seq<Operation>)
    ensures Exec(t, deleted, a + b) == Continue(Exec(t, deleted, a), b)
    decreases |a|
  {
    if a == [] {
      assert a + b == b;
      assert [] + Exec(t, deleted, b).printed == Exec(t, deleted, b).printed;
    } else {
      assert (a + b)[0] == a[0];
      assert (a + b)[1..] == a[1..] + b;
      match Step(t, deleted, a[0]) {
        case Abort(_) =>
        case Next(t', deleted', emitted) =>
          ExecConcat(t', deleted', a[1..], b);
          var ra := Exec(t', deleted', a[1..]);
          if ra.failure.None? {
            var rb := Exec(ra.text, ra.deleted, b);
            assert emitted + (ra.printed + rb.printed) == (emitted + ra.printed) + rb.printed;
          }
      }
    }
  }

  /**
   Output appears in operation order: what a prefix of the operations prints
   is a prefix of what the whole list prints, and the operations after it
   cannot change it.
   */
  lemma PrintsInOrder(t: Text, deleted: nat, ops: seq<Operation>, k: nat)
    requires k <= |ops|
    ensures Exec(t, deleted, ops[..k]).printed <= Exec(t, deleted, ops).printed
  {
    assert ops[..k] + ops[k..] == ops;
    ExecConcat(t, deleted, ops[..k], ops[k..]);
  }

  /** A run of one operation is that operation's step. */
  lemma ExecSingle(t: Text, deleted: nat, op: Operation)
    ensures var o := Step(t, deleted, op);
      Exec(t, deleted, [op]) ==
        if o.Abort? then Run(t, deleted, [], Some(o.reason)) else Run(o.text, o.deleted, o.emitted, None)
  {
    assert [op][1..] == [];
    match Step(t, deleted, op) {
      case Abort(_) =>
      case Next(_, _, emitted) =>
        assert emitted + [] == emitted;
    }
  }

  /** A run whose first step goes through prints that step's output, then continues from its state. */
  lemma ExecFirstStep(t: Text, deleted: nat, op: Operation, rest: seq<Operation>, next: Text, deleted': nat, emitted: string)
    requires Step(t, deleted, op) == Next(next, deleted', emitted)
    ensures Exec(t, deleted, [op] + rest) == Prefixed(emitted, Exec(next, deleted', rest))
  {
    assert ([op] + rest)[0] == op && ([op] + rest)[1..] == rest;
  }
}
