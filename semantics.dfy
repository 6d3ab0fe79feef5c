/**
 * The interpreter's behaviour as pure functions on Machine values: one
 * function per method of the Python Interpreter class (BrainfuckInterpreter.py),
 * Step for interpret_next_cmd, and bounded runs for run and run_hook.
 */
module Semantics {
  import opened Types
  import opened Brackets

  /** n zero cells; a negative n gives none (as `xrange` of a negative count). */
  function Zeros(n: int): (r: seq<Cell>)
    ensures |r| == if n < 0 then 0 else n
    ensures forall i :: 0 <= i < |r| ==> r[i] == 0
    decreases n
  {
    if n <= 0 then [] else Zeros(n - 1) + [0]
  }

  /** The state right after construction. */
  function InitialMachine(initSize: int): (m: Machine)
    ensures |m.tape| == (if initSize < 0 then 0 else initSize)
    ensures forall i :: 0 <= i < |m.tape| ==> m.tape[i] == 0
    ensures m.pointer == 0 && m.openedBrackets == [] && m.parsedCmds == 0
    ensures m.cursor == 0 && m.stdinPos == 0 && m.stdout == []
  {
    Machine(Zeros(initSize), 0, [], 0, 0, 0, [])
  }

  /** The constructor's one check on the sizes: a limit below the initial size is refused. */
  function Init(initSize: int, arrayLimit: Option<int>): (r: Result<Machine>)
    ensures r.Failure? <==> arrayLimit.Some? && arrayLimit.value < initSize
    ensures r.Failure? ==> r.error == LimitBelowInitSize
    ensures r.Ok? ==> r.value == InitialMachine(initSize)
  {
    if arrayLimit.Some? && arrayLimit.value < initSize then Failure(LimitBelowInitSize)
    else Ok(InitialMachine(initSize))
  }

  /** `__check_pointer_limit`: the tape grows only when the pointer sits exactly on its end and there is no limit. */
  function CheckPointerLimit(c: Config, m: Machine): (r: Machine)
    ensures r == m.(tape := r.tape)
    ensures |r.tape| >= |m.tape| && r.tape[..|m.tape|] == m.tape
    ensures forall i :: |m.tape| <= i < |r.tape| ==> r.tape[i] == 0
    ensures |r.tape| != |m.tape| <==> m.pointer == |m.tape| && c.arrayLimit.None? && c.extendSize > 0
    ensures |r.tape| != |m.tape| ==> |r.tape| == |m.tape| + c.extendSize
  {
    if m.pointer == |m.tape| && c.arrayLimit.None? then
      m.(tape := m.tape + Zeros(c.extendSize))
    else m
  }

  /** `change_pointer`: move the pointer, clamp it at 0, then let the tape grow. */
  function ChangePointer(c: Config, m: Machine, change: int): (r: Machine)
    ensures r.pointer == if m.pointer + change < 0 then 0 else m.pointer + change
    ensures m.pointer == 0 && change < 0 ==> r.pointer == 0
    ensures r == CheckPointerLimit(c, m.(pointer := r.pointer))
    ensures c.arrayLimit.None? && c.extendSize > 0 && m.pointer < |m.tape| && -1 <= change <= 1
      ==> r.pointer < |r.tape|
  {
    var p := m.pointer + change;
    CheckPointerLimit(c, m.(pointer := if p < 0 then 0 else p))
  }

  /** `add_to_pointer_value`: the current cell plus `change`, wrapped modulo 256. */
  function AddToPointerValue(m: Machine, change: int): (t: Transition)
    ensures t.status == Running <==> m.pointer < |m.tape|
    ensures t.status != Running ==> t == Transition(m, Raised(IndexError))
    ensures t.next == m.(tape := t.next.tape) && |t.next.tape| == |m.tape|
    ensures forall i :: 0 <= i < |m.tape| && i != m.pointer ==> t.next.tape[i] == m.tape[i]
    ensures t.status == Running ==>
      (t.next.tape[m.pointer] - m.tape[m.pointer] - change) % 256 == 0
    ensures t.status == Running && change == 1 && m.tape[m.pointer] == 255 ==> t.next.tape[m.pointer] == 0
    ensures t.status == Running && change == -1 && m.tape[m.pointer] == 0 ==> t.next.tape[m.pointer] == 255
  {
    if m.pointer < |m.tape| then
      Transition(m.(tape := m.tape[m.pointer := (m.tape[m.pointer] + change) % 256]), Running)
    else Transition(m, Raised(IndexError))
  }

  /** A store into the current cell; out of range it raises IndexError and stores nothing. */
  function StoreCell(m: Machine, v: Cell): (t: Transition)
    ensures t.status == Running <==> m.pointer < |m.tape|
    ensures t.status != Running ==> t == Transition(m, Raised(IndexError))
    ensures t.status == Running ==> t.next == m.(tape := m.tape[m.pointer := v])
  {
    if m.pointer < |m.tape| then Transition(m.(tape := m.tape[m.pointer := v]), Running)
    else Transition(m, Raised(IndexError))
  }

  /** The read of `,` counts as end of file: nothing is left, or a newline when newline_as_eof is set. */
  predicate ReadsEof(c: Config, m: Machine) {
    m.stdinPos >= |c.stdin| || (c.newlineAsEof && c.stdin[m.stdinPos] == '\n')
  }

  /** `input_char`: consume one character (if any), then apply the EOF policy or store the character modulo 256. */
  function InputChar(c: Config, m: Machine): (t: Transition)
    ensures t.next.stdinPos == if m.stdinPos < |c.stdin| then m.stdinPos + 1 else m.stdinPos
    ensures t.next == m.(tape := t.next.tape, stdinPos := t.next.stdinPos)
    ensures |t.next.tape| == |m.tape|
    ensures forall i :: 0 <= i < |m.tape| && i != m.pointer ==> t.next.tape[i] == m.tape[i]
    ensures t.status == Running || t.status == Raised(IndexError)
    ensures t.status == Raised(IndexError) <==>
      m.pointer >= |m.tape| && !(ReadsEof(c, m) && c.handleEof == EofUnchanged)
    ensures t.status == Raised(IndexError) ==> t.next.tape == m.tape
    ensures ReadsEof(c, m) && c.handleEof == EofUnchanged ==> t.next.tape == m.tape
    ensures ReadsEof(c, m) && c.handleEof == EofAsZero && m.pointer < |m.tape| ==> t.next.tape[m.pointer] == 0
    ensures ReadsEof(c, m) && c.handleEof == EofAsMinusOne && m.pointer < |m.tape| ==> t.next.tape[m.pointer] == 255
    ensures !ReadsEof(c, m) && m.pointer < |m.tape| ==>
      t.next.tape[m.pointer] == (c.stdin[m.stdinPos] as int) % 256
  {
    var eof := ReadsEof(c, m);
    var m1 := if m.stdinPos < |c.stdin| then m.(stdinPos := m.stdinPos + 1) else m;
    if eof then
      match c.handleEof
      case EofAsZero => StoreCell(m1, 0)
      case EofAsMinusOne => StoreCell(m1, 255)
      case EofUnchanged => Transition(m1, Running)
    else StoreCell(m1, (c.stdin[m.stdinPos] as int) % 256)
  }

  /** `output_char`: write the current cell as one character; the tape is not touched. */
  function OutputChar(m: Machine): (t: Transition)
    ensures t.status == Running <==> m.pointer < |m.tape|
    ensures t.status != Running ==> t == Transition(m, Raised(IndexError))
    ensures t.next == m.(stdout := t.next.stdout)
    ensures t.status == Running ==> t.next.stdout == m.stdout + [m.tape[m.pointer] as char]
  {
    if m.pointer < |m.tape| then Transition(m.(stdout := m.stdout + [m.tape[m.pointer] as char]), Running)
    else Transition(m, Raised(IndexError))
  }

  /** `[` just read, the cursor now just after it: skip the loop or enter it. */
  function OpenBracket(c: Config, m: Machine): (t: Transition)
    requires 0 < m.cursor <= |c.source|
  {
    var startpos := m.cursor;
    if m.pointer >= |m.tape| then Transition(m, Raised(IndexError))
    else if m.tape[m.pointer] == 0 then
      match MatchClose(c.source, startpos, 0)
      case Some(r) => Transition(m.(cursor := r), Running)
      case None => Transition(m.(cursor := |c.source|), Raised(UnmatchedBracket('[', startpos - 1)))
    else Transition(m.(openedBrackets := m.openedBrackets + [startpos]), Running)
  }

  /** `]` just read, the cursor now just after it: leave the loop or jump back into it. */
  function CloseBracket(m: Machine): (t: Transition)
    requires 0 < m.cursor
  {
    var startpos := m.cursor;
    var stack := m.openedBrackets;
    if |stack| == 0 then Transition(m, Raised(UnmatchedBracket(']', startpos - 1)))
    else if m.pointer >= |m.tape| then Transition(m, Raised(IndexError))
    else if m.tape[m.pointer] == 0 then Transition(m.(openedBrackets := stack[..|stack| - 1]), Running)
    else Transition(m.(cursor := stack[|stack| - 1]), Running)
  }

  /** The eight instruction characters; every other character is skipped. */
  predicate IsCommand(ch: char) {
    ch in "<>-+,.[]"
  }

  /**
   * `interpret_next_cmd`: read one character; on an empty read halt and change
   * nothing, otherwise count the command and dispatch on it.
   */
  function Step(c: Config, m: Machine): (t: Transition)
    ensures t.status == Halted <==> m.cursor >= |c.source|
    ensures t.status == Halted ==> t.next == m
    ensures t.status != Halted ==> t.next.parsedCmds == m.parsedCmds + 1
    ensures t.next.stdinPos >= m.stdinPos && m.stdout <= t.next.stdout && |t.next.tape| >= |m.tape|
  {
    if m.cursor >= |c.source| then Transition(m, Halted)
    else
      var cmd := c.source[m.cursor];
      var m1 := m.(cursor := m.cursor + 1, parsedCmds := m.parsedCmds + 1);
      if cmd == '<' then Transition(ChangePointer(c, m1, -1), Running)
      else if cmd == '>' then Transition(ChangePointer(c, m1, 1), Running)
      else if cmd == '-' then AddToPointerValue(m1, -1)
      else if cmd == '+' then AddToPointerValue(m1, 1)
      else if cmd == ',' then InputChar(c, m1)
      else if cmd == '.' then OutputChar(m1)
      else if cmd == '[' then OpenBracket(c, m1)
      else if cmd == ']' then CloseBracket(m1)
      else Transition(m1, Running)
  }

  /**
   * `run`, bounded by `fuel` steps: step until a step halts or raises. Status
   * Running means the fuel ran out first.
   */
  function Execute(c: Config, m: Machine, fuel: nat): (t: Transition)
    ensures t.status == Halted ==> t.next.cursor >= |c.source|
    ensures t.next.parsedCmds >= m.parsedCmds && t.next.stdinPos >= m.stdinPos
    ensures m.stdout <= t.next.stdout && |t.next.tape| >= |m.tape|
    decreases fuel
  {
    if fuel == 0 then Transition(m, Running)
    else
      var s := Step(c, m);
      if s.status == Running then Execute(c, s.next, fuel - 1) else s
  }

  /** The outcome of `run_hook`: final state, how it ended, and whether the end-of-file callback ran. */
  datatype HookRun = HookRun(final: Machine, status: Status, eofHookCalled: bool)

  /**
   * `run_hook`, bounded by `fuel` rounds. Each round asks `hook` whether to keep
   * running, then executes one step anyway; after a halting step the end-of-file
   * callback runs if there is one; the loop stops after a halting step or after a
   * step the hook vetoed. Status Running means it stopped without halting.
   */
  function ExecuteWithHook(c: Config, m: Machine, hook: Machine -> bool, hasEofHook: bool, fuel: nat): (r: HookRun)
    ensures r.status == Halted ==> r.final.cursor >= |c.source| && r.eofHookCalled == hasEofHook
    ensures r.status != Halted ==> !r.eofHookCalled
    ensures r.final.parsedCmds >= m.parsedCmds && m.stdout <= r.final.stdout
    decreases fuel
  {
    if fuel == 0 then HookRun(m, Running, false)
    else
      var keepRunning := hook(m);
      var s := Step(c, m);
      if s.status.Raised? then HookRun(s.next, s.status, false)
      else if s.status == Halted then HookRun(s.next, Halted, hasEofHook)
      else if !keepRunning then HookRun(s.next, Running, false)
      else ExecuteWithHook(c, s.next, hook, hasEofHook, fuel - 1)
  }

  /**
   * The invariant of a well-started interpreter: the cursor is inside the text
   * and the open-bracket stack is exactly the stack of loops open at the cursor.
   */
  ghost predicate WellFormed(c: Config, m: Machine) {
    m.cursor <= |c.source| && m.openedBrackets == Opens(c.source, m.cursor)
  }
}
