# A verified model of the streaming Brainfuck interpreter

`BrainfuckInterpreter.py` defines one class, `Interpreter`. It runs a Brainfuck
program straight from a seekable source stream, one character per step. There is
no parse pass and no jump table. Its state is:

- a growable tape of byte cells;
- a data pointer that never goes below zero;
- a stack of open-loop positions in the source;
- a counter of the commands read so far;
- the position of the source cursor.

A `[` on a zero cell scans forward and counts nesting. A `]` on a nonzero cell
seeks back to the position stored on the stack.

This project models that class in Dafny and proves what it guarantees.

- `types.dfy`, module `Types`: the values.
  - the cell, a byte in `[0, 256)`;
  - the three EOF policies;
  - the exceptions: `UnmatchedBracket(char, charPos)`, `IndexError`, and the
    constructor's array-limit error;
  - the fixed configuration `Config`;
  - the mutable state `Machine`;
  - the outcome of a step, `Transition`. Its status is `Running` (the step
    returned False), `Halted` (it returned True) or `Raised` (it raised an
    exception). A raised exception keeps the state it left behind.
- `brackets.dfy`, module `Brackets`: bracket arithmetic on the program text.
  - `Net`, the nesting change of a stretch of source;
  - `MatchClose`, the forward scan, with its characterization `IsMatch`;
  - `Opens`, the stack of loops that are open at a cursor position.
- `semantics.dfy`, module `Semantics`: one pure function for each method of
  `Interpreter`.
  - `Step` models `interpret_next_cmd`.
  - `Execute` and `ExecuteWithHook` model `run` and `run_hook`, with a fuel
    bound.
- `engine.dfy`, module `Engine`: the class `Interpreter`.
  - Its fields are the Python object's fields. The source, stdin and stdout are
    sequences with a position.
  - Each method is imperative code with loops where the source has loops.
  - Each method is proved to move the object from `State()` to the state that
    the matching `Semantics` function computes.
- `properties.dfy`, module `Properties`: what the interpreter guarantees.
  - The behaviour of each bracket case.
  - The open-bracket stack always equals the loops open at the cursor.
  - A balanced program never raises `UnmatchedBracket`.
  - With no array limit, a positive extendSize and the pointer starting on a
    cell, the tape never raises `IndexError`.
  - How `run_hook` relates to `run`.
- `scenarios.dfy`, module `Scenarios`: concrete programs.
  - A stray `[`, a stray `]`, and the three EOF policies on an empty input.
  - A full run of the program from the demonstration driver, on any input
    stream.

Input and output are modelled as data. `stdin` is the whole sequence the input
stream will deliver, read from `stdinPos` onward. `stdout` is everything written
so far. The filehandle is the program text plus `cursor`: `read(1)` is the
character at the cursor, `tell()` is the cursor, and `seek(p)` sets the cursor.

Facts about the code that the model keeps:

- A backward jump seeks to the position just after the `[` (lines 138, 169 and
  188), so the `[` is not read again and its stack entry is not pushed twice.
- In `run_hook`, a hook that returns False still lets the step it was asked
  about run; the loop stops after that step (lines 107-114).
- With `arrayLimit` set, the tape never grows (line 237). An access after the
  pointer has moved past the end raises the array's `IndexError`; there is no
  separate capacity error.
- Wrap-around is always modulo 256, and the EOF value is always 255, whatever
  `dataSize` is (lines 203, 226 and 230).

## Model

| member | source | states |
|---|---|---|
| Semantics.Zeros | BrainfuckInterpreter.py:83 | the initial array: exactly max(n, 0) cells, all zero |
| Semantics.InitialMachine | BrainfuckInterpreter.py:83-93 | after construction: a zeroed tape of initSize cells, pointer 0, empty stack, counter 0, nothing read or written |
| Semantics.Init | BrainfuckInterpreter.py:56-57 | construction fails exactly when a limit is given and is below initSize; otherwise it yields the initial state |
| Semantics.CheckPointerLimit | BrainfuckInterpreter.py:233-240 | the tape grows iff the pointer equals its length, there is no limit and extendSize is positive; it grows by exactly extendSize zero cells, keeps the old cells and changes nothing else |
| Semantics.ChangePointer | BrainfuckInterpreter.py:206-210 | the pointer becomes max(0, pointer + change), so a decrement at 0 stays at 0; then the tape-growth rule applies; with no limit and a positive extendSize a move of one from a valid cell lands on a valid cell |
| Semantics.AddToPointerValue | BrainfuckInterpreter.py:199-203 | the current cell changes by change modulo 256, so 255 + 1 = 0 and 0 - 1 = 255; no other cell and not the pointer changes; a pointer off the tape raises IndexError |
| Semantics.InputChar | BrainfuckInterpreter.py:217-230 | one input character is consumed if there is one; on EOF, or a newline with newline_as_eof, the policy writes 0, writes 255 or leaves the cell; otherwise the cell gets ord(c) % 256; only the current cell changes; IndexError exactly when a write is due off the tape |
| Semantics.OutputChar | BrainfuckInterpreter.py:213-215 | appends chr(cell) to the output and changes nothing else; IndexError off the tape |
| Semantics.Step | BrainfuckInterpreter.py:116-189 | halts iff the read is empty, and then changes nothing; any other read counts exactly one command; input is only consumed, output only appended, the tape never shrinks |
| Semantics.Execute | BrainfuckInterpreter.py:99-103 | a run stops with Halted only at the end of the text; the counter, the input position, the output and the tape only grow |
| Semantics.ExecuteWithHook | BrainfuckInterpreter.py:105-114 | it ends Halted only at the end of the text, and then the end-of-file callback runs iff one is given; in no other case does the callback run |
| Brackets.MatchClose | BrainfuckInterpreter.py:143-165 | a scan that succeeds stops just after a ']' that lies after its start |
| Brackets.MatchCloseSound | BrainfuckInterpreter.py:148-157 | the scan stops at a ']' where the nesting depth reaches 0, and at every earlier ']' the depth was still positive |
| Brackets.MatchCloseComplete | BrainfuckInterpreter.py:148-157 | every ']' that is the first at depth 0 is the one the scan finds |
| Brackets.MatchCloseExists | BrainfuckInterpreter.py:149-165 | if the rest of the text closes more loops than are open, the scan cannot run off the end |
| Brackets.OpensEntries | BrainfuckInterpreter.py:166-188 | every stack entry is the position just after a '[', and the stack at that position is the stack up to that entry |
| Brackets.OpensAfterMatch | BrainfuckInterpreter.py:140-169 | a forward skip from depth d removes exactly the top d + 1 loops from the stack of open loops |
| Brackets.OpensDepth | BrainfuckInterpreter.py:169-182 | while no prefix closes more than it opens, the stack is as deep as the nesting |
| Properties.ForwardSkip | BrainfuckInterpreter.py:137-165 | `[` on a zero cell moves the cursor just after the first ']' at depth 0 and changes only the cursor and the counter; if there is no such ']' it raises UnmatchedBracket('[', position of the '[') at the end of the text |
| Properties.EnterLoop | BrainfuckInterpreter.py:166-169 | `[` on a nonzero cell pushes the position just after it and changes nothing else |
| Properties.CloseLoop | BrainfuckInterpreter.py:171-188 | `]` on an empty stack raises UnmatchedBracket(']', its position); on a zero cell it pops exactly one entry; on a nonzero cell it keeps the stack and seeks to its top |
| Properties.MoveCommand | BrainfuckInterpreter.py:123-128 | `<` and `>` count the command, advance the cursor by one and then move the pointer by -1 or +1 through change_pointer |
| Properties.CellCommand | BrainfuckInterpreter.py:129-132 | `-` and `+` count the command, advance the cursor by one and then add -1 or +1 to the current cell through add_to_pointer_value, with its status |
| Properties.InputCommand | BrainfuckInterpreter.py:133-134 | `,` counts the command, advances the cursor by one and then is exactly input_char, with its status |
| Properties.OutputCommand | BrainfuckInterpreter.py:135-136 | `.` counts the command, advances the cursor by one and then is exactly output_char, with its status |
| Properties.IgnoredCharacter | BrainfuckInterpreter.py:123-189 | a character that is not one of the eight commands is counted and skipped, and nothing else changes |
| Properties.InitialWellFormed | BrainfuckInterpreter.py:85-93 | a new interpreter's stack is the stack of loops open at position 0 |
| Properties.StepKeepsWellFormed | BrainfuckInterpreter.py:116-189 | a step that does not raise keeps the stack equal to the loops open at the cursor |
| Properties.PlainKeepsWellFormed | BrainfuckInterpreter.py:125-136 | the stack invariant across a step that is not a bracket |
| Properties.OpenKeepsWellFormed | BrainfuckInterpreter.py:137-169 | the stack invariant across `[`: the skip and the push |
| Properties.CloseKeepsWellFormed | BrainfuckInterpreter.py:171-188 | the stack invariant across `]`: the pop and the backward seek |
| Properties.BalancedStepNoUnmatched | BrainfuckInterpreter.py:161-178 | on a balanced program, a step from a well-formed state never raises UnmatchedBracket |
| Properties.ExecuteKeepsWellFormed | BrainfuckInterpreter.py:99-103 | a run that does not raise keeps the stack invariant |
| Properties.HookRunKeepsWellFormed | BrainfuckInterpreter.py:105-114 | a run_hook that does not raise keeps the stack equal to the loops open at the cursor |
| Properties.BalancedNeverUnmatched | BrainfuckInterpreter.py:99-103 | a run of a balanced program, however long, never raises UnmatchedBracket |
| Properties.StepInBounds | BrainfuckInterpreter.py:206-240 | with no limit and a positive extendSize, a step from a valid cell never raises IndexError and ends on a valid cell |
| Properties.ExecuteInBounds | BrainfuckInterpreter.py:99-103 | under the same conditions, a whole run never raises IndexError |
| Properties.ExecuteSplit | BrainfuckInterpreter.py:99-103 | running a + b steps is running a steps and then, if still running, b more |
| Properties.ExecuteThen | BrainfuckInterpreter.py:99-103 | a run that reaches a state without stopping continues from that state |
| Properties.HookNeverVetoes | BrainfuckInterpreter.py:105-114 | with a hook that always returns True, run_hook ends in the state and status that run reaches |
| Properties.HookVetoRunsOneStep | BrainfuckInterpreter.py:107-114 | a hook that returns False still lets the step run, and no further step |
| Engine.Interpreter.constructor | BrainfuckInterpreter.py:47-97 | the fields hold the configuration and the initial state, and the stack invariant holds |
| Engine.Interpreter.Create | BrainfuckInterpreter.py:56-57 | refuses a limit below initSize; otherwise a fresh interpreter in the initial state |
| Engine.Interpreter.ReadSource | BrainfuckInterpreter.py:117 | read(1): the character at the cursor, with the cursor advanced by one, or nothing at the end |
| Engine.Interpreter.CheckPointerLimit | BrainfuckInterpreter.py:233-240 | the object's new state is Semantics.CheckPointerLimit of its old state |
| Engine.Interpreter.ChangePointer | BrainfuckInterpreter.py:206-210 | the new state is Semantics.ChangePointer of the old state |
| Engine.Interpreter.AddToPointerValue | BrainfuckInterpreter.py:199-203 | the new state and status are Semantics.AddToPointerValue of the old state |
| Engine.Interpreter.OutputChar | BrainfuckInterpreter.py:213-215 | the new state and status are Semantics.OutputChar of the old state |
| Engine.Interpreter.InputChar | BrainfuckInterpreter.py:217-230 | the new state and status are Semantics.InputChar of the old state |
| Engine.Interpreter.InterpretNextCmd | BrainfuckInterpreter.py:116-189 | the new state and status are Semantics.Step of the old state, and a step that does not raise keeps the stack invariant |
| Engine.Interpreter.OpenBracket | BrainfuckInterpreter.py:137-169 | the new state and status are Semantics.OpenBracket of the old state: the forward-scan loop stops where MatchClose does, or raises at the end of the text; on a nonzero cell it pushes the position |
| Engine.Interpreter.CloseBracket | BrainfuckInterpreter.py:171-188 | the new state and status are Semantics.CloseBracket of the old state |
| Engine.Interpreter.Run | BrainfuckInterpreter.py:99-103 | the loop ends in the state and status of Semantics.Execute, and keeps the stack invariant unless a step raised |
| Engine.Interpreter.RunHook | BrainfuckInterpreter.py:105-114 | the loop ends in the state, status and callback use of Semantics.ExecuteWithHook, and keeps the stack invariant unless a step raised |
| Scenarios.ExecuteStep | BrainfuckInterpreter.py:99-103 | a step that does not stop, followed by n more steps, is a run of n + 1 steps |
| Scenarios.StrayOpen | BrainfuckInterpreter.py:137-165 | the program "[" raises UnmatchedBracket('[', 0) |
| Scenarios.StrayClose | BrainfuckInterpreter.py:171-178 | the program "]" raises UnmatchedBracket(']', 0) |
| Scenarios.EofOnEmptyInput | BrainfuckInterpreter.py:217-228 | `,` on an exhausted input writes 0, writes 255, or leaves the cell, one outcome per policy |
| Scenarios.CountingPhase | BrainfuckInterpreter.py:264 | the twelve '+' of the demonstration program set cell 0 to 12 |
| Scenarios.DemoRound | BrainfuckInterpreter.py:264 | one pass through the loop body copies one input character to the output and counts cell 0 down by one |
| Scenarios.LoopPhase | BrainfuckInterpreter.py:264 | the twelve passes take 72 commands |
| Scenarios.DemoRun | BrainfuckInterpreter.py:264-275 | on any input stream, the demonstration program halts after 85 commands with cell 0 at zero, having printed the first twelve input characters, each missing character or newline printed as chr(255) |
| Scenarios.EchoedPlain | BrainfuckInterpreter.py:217-230 | on input without newlines or characters above 255, the echoed output is the input itself |
| Scenarios.HelloWorld | BrainfuckInterpreter.py:261-275 | with "Hello World!" as its input, the demonstration prints "Hello World!" and halts |
| Scenarios.DemoAsWritten | BrainfuckInterpreter.py:266-270 | the demonstration as written, on an empty standard input, prints twelve chr(255) characters instead of "Hello World!" |

## Findings

| source | as written | input that shows it | evidently intended | confidence | as-written member | corrected member |
|---|---|---|---|---|---|---|
| BrainfuckInterpreter.py:266-270 | the demonstration builds `stdinput = StringIO("Hello World!")` but does not pass it to `Interpreter`, so the program reads the process's own standard input | an empty standard input: the output is twelve chr(255) characters, not "Hello World!" | pass `stdin=stdinput`, as the comment at lines 261-262 says, so the program copies "Hello World!" | high; not executed | Scenarios.DemoAsWritten | Scenarios.HelloWorld |

## Left out

- `_peek` (lines 191-197): only the demonstration's debug hook uses it.
- The demonstration driver (lines 243-284): it is timing, printing and stream wiring. The model keeps only its program and its input, as scenarios.
- The `log(dataSize, 2)` check and the `calcsize`/`array(dataType)` typing (lines 61-72 and 83): a floating-point logarithm and calls into the standard library. Cells are bytes in `[0, 256)`.
- `wrapAround` (line 71): it is stored but the core never reads it.
- The `handle_eof` assertion (line 75): `EofMode` has exactly the three valid policies, so an invalid one cannot be built.
- Real streams: `read`, `tell` and `seek` on the filehandle, and `sys.stdin`/`sys.stdout`, are replaced by sequences with positions. The model does not capture blocking reads, partial writes, or a source stream that changes while the program runs.
- Semantics.Execute: `run` has no bound. The model runs for at most `fuel` steps, and status `Running` means the fuel ran out. Programs that never halt are described by every finite prefix of their run.
- Semantics.ExecuteWithHook: the hook is a pure function of a snapshot of the state. A Python hook that mutates the interpreter, or has other effects, is not captured. The end-of-file callback is reported as a flag.
- Engine.Interpreter.constructor: the tape is a sequence field, replaced on every write. The Python `array` is updated in place, and no code holds a second reference to it, so no aliasing is lost.
- Scenarios.DemoRun: proved for any initial tape of at least two cells, not only the default 300000.
- Characters other than the eight commands do not change a run's output or final tape, wherever they are inserted in the program. That is not proved. Only the one-step fact Properties.IgnoredCharacter is. A run-level proof would have to map every source position of the padded program to one of the plain program, through the forward scan, the open-loop stack and the backward seeks. Error positions and the command counter do change under padding.
- Engine.Interpreter.constructor: the default input stream is the empty sequence. In the source the default is the process's own `sys.stdin` (line 49), whose contents are not known to the model; callers pass the input they mean as `stdin`.
