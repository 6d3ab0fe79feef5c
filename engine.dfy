/**
 * The Interpreter object of BrainfuckInterpreter.py: fields that the methods
 * update in place, each method proved to move the object from State() to the
 * state the matching function of Semantics computes.
 */
module Engine {
  import opened Types
  import opened Brackets
  import Semantics
  import Properties

  class Interpreter {
    // construction parameters and the contents of the two input streams
    const source: seq<char>
    const stdin: seq<char>
    const arrayLimit: Option<int>
    const extendSize: int
    const newlineAsEof: bool
    const handleEof: EofMode

    // the state the methods change
    var tape: seq<Cell>
    var pointer: nat
    var openedBrackets: seq<nat>
    var parsedCmds: nat
    var cursor: nat       // position of the source filehandle
    var stdinPos: nat     // read position of the input stream
    var stdout: seq<char> // everything written to the output stream

    function Cfg(): Config {
      Config(source, stdin, arrayLimit, extendSize, newlineAsEof, handleEof)
    }

    function State(): Machine
      reads this
    {
      Machine(tape, pointer, openedBrackets, parsedCmds, cursor, stdinPos, stdout)
    }

    /** The cursor is inside the text and the open-bracket stack lists exactly the loops open at the cursor. */
    ghost predicate Valid()
      reads this
    {
      Semantics.WellFormed(Cfg(), State())
    }

    /** The constructor without its size check: a zeroed tape of initSize cells and everything else at its start. */
    constructor (source: seq<char>, initSize: int := 300000, arrayLimit: Option<int> := None,
                 extendSize: int := 1000, stdin: seq<char> := [],
                 newlineAsEof: bool := false, handleEof: EofMode := EofUnchanged)
      ensures Cfg() == Config(source, stdin, arrayLimit, extendSize, newlineAsEof, handleEof)
      ensures State() == Semantics.InitialMachine(initSize)
      ensures Valid()
    {
      this.source := source;
      this.stdin := stdin;
      this.arrayLimit := arrayLimit;
      this.extendSize := extendSize;
      this.newlineAsEof := newlineAsEof;
      this.handleEof := handleEof;
      tape := Semantics.Zeros(initSize);
      pointer := 0;
      openedBrackets := [];
      parsedCmds := 0;
      cursor := 0;
      stdinPos := 0;
      stdout := [];
    }

    /** Construction with the check that a limit is not below the initial size. */
    static method Create(source: seq<char>, initSize: int := 300000, arrayLimit: Option<int> := None,
                         extendSize: int := 1000, stdin: seq<char> := [],
                         newlineAsEof: bool := false, handleEof: EofMode := EofUnchanged)
      returns (r: Result<Interpreter>)
      ensures r.Failure? <==> Semantics.Init(initSize, arrayLimit).Failure?
      ensures r.Failure? ==> r.error == LimitBelowInitSize
      ensures r.Ok? ==> fresh(r.value) && r.value.Valid() && r.value.State() == Semantics.Init(initSize, arrayLimit).value
      ensures r.Ok? ==> r.value.Cfg() == Config(source, stdin, arrayLimit, extendSize, newlineAsEof, handleEof)
    {
      if arrayLimit.Some? && arrayLimit.value < initSize {
        return Failure(LimitBelowInitSize);
      }
      var interp := new Interpreter(source, initSize, arrayLimit, extendSize, stdin, newlineAsEof, handleEof);
      return Ok(interp);
    }

    /** `read(1)` on the source: the next character, or None at the end (the cursor then stays put). */
    method ReadSource() returns (ch: Option<char>)
      modifies this`cursor
      ensures ch == if old(cursor) < |source| then Some(source[old(cursor)]) else None
      ensures cursor == if old(cursor) < |source| then old(cursor) + 1 else old(cursor)
    {
      if cursor < |source| {
        ch := Some(source[cursor]);
        cursor := cursor + 1;
      } else {
        ch := None;
      }
    }

    method CheckPointerLimit()
      modifies this
      ensures State() == Semantics.CheckPointerLimit(Cfg(), old(State()))
    {
      if pointer == |tape| && arrayLimit.None? {
        tape := tape + Semantics.Zeros(extendSize);
      }
    }

    method ChangePointer(change: int)
      modifies this
      ensures State() == Semantics.ChangePointer(Cfg(), old(State()), change)
    {
      var p := pointer + change;
      if p < 0 {
        p := 0;
      }
      pointer := p;
      CheckPointerLimit();
    }

    method AddToPointerValue(change: int) returns (status: Status)
      modifies this
      ensures Transition(State(), status) == Semantics.AddToPointerValue(old(State()), change)
    {
      if pointer >= |tape| {
        return Raised(IndexError);
      }
      tape := tape[pointer := (tape[pointer] + change) % 256];
      status := Running;
    }

    method OutputChar() returns (status: Status)
      modifies this
      ensures Transition(State(), status) == Semantics.OutputChar(old(State()))
    {
      if pointer >= |tape| {
        return Raised(IndexError);
      }
      stdout := stdout + [tape[pointer] as char];
      status := Running;
    }

    method InputChar() returns (status: Status)
      modifies this
      ensures Transition(State(), status) == Semantics.InputChar(Cfg(), old(State()))
    {
      var ch: Option<char> := None;
      if stdinPos < |stdin| {
        ch := Some(stdin[stdinPos]);
        stdinPos := stdinPos + 1;
      }
      status := Running;
      if ch.None? || (newlineAsEof && ch.value == '\n') {
        match handleEof
        case EofAsZero =>
          if pointer >= |tape| {
            return Raised(IndexError);
          }
          tape := tape[pointer := 0];
        case EofAsMinusOne =>
          if pointer >= |tape| {
            return Raised(IndexError);
          }
          tape := tape[pointer := 255];
        case EofUnchanged =>
      } else {
        if pointer >= |tape| {
          return Raised(IndexError);
        }
        tape := tape[pointer := (ch.value as int) % 256];
      }
    }

    /** `interpret_next_cmd`: Running for False, Halted for True, Raised for an exception. */
    method InterpretNextCmd() returns (status: Status)
      modifies this
      ensures Transition(State(), status) == Semantics.Step(Cfg(), old(State()))
      ensures old(Valid()) && !status.Raised? ==> Valid()
    {
      ghost var before := State();
      var cmd := ReadSource();
      if cmd.None? {
        status := Halted;
      } else {
        parsedCmds := parsedCmds + 1;
        var c := cmd.value;
        if c == '<' {
          ChangePointer(-1);
          status := Running;
        } else if c == '>' {
          ChangePointer(1);
          status := Running;
        } else if c == '-' {
          status := AddToPointerValue(-1);
        } else if c == '+' {
          status := AddToPointerValue(1);
        } else if c == ',' {
          status := InputChar();
        } else if c == '.' {
          status := OutputChar();
        } else if c == '[' {
          status := OpenBracket();
        } else if c == ']' {
          status := CloseBracket();
        } else {
          status := Running;
        }
      }
      if Semantics.WellFormed(Cfg(), before) {
        Properties.StepKeepsWellFormed(Cfg(), before);
      }
    }

    /**
     * The `[` branch: with a zero cell, scan forward for the ']' at nesting
     * depth 0 and leave the cursor after it; otherwise remember the position.
     */
    method OpenBracket() returns (status: Status)
      requires 0 < cursor <= |source|
      modifies this
      ensures Transition(State(), status) == Semantics.OpenBracket(Cfg(), old(State()))
    {
      var startpos := cursor;
      if pointer >= |tape| {
        return Raised(IndexError);
      }
      if tape[pointer] == 0 {
        var ch := ReadSource();
        var nesting: nat := 0;
        while ch.Some?
          modifies this`cursor
          invariant ch.Some? ==> 0 < cursor <= |source| && ch.value == source[cursor - 1]
          invariant ch.None? ==> cursor == |source|
          invariant MatchClose(source, if ch.Some? then cursor - 1 else cursor, nesting)
                 == MatchClose(source, startpos, 0)
          decreases |source| - cursor, if ch.Some? then 1 else 0
        {
          if ch.value == ']' && nesting == 0 {
            break;
          } else if ch.value == '[' {
            nesting := nesting + 1;
          } else if ch.value == ']' {
            nesting := nesting - 1;
          }
          ch := ReadSource();
        }
        if ch.None? {
          return Raised(UnmatchedBracket('[', startpos - 1));
        }
        status := Running;
      } else {
        openedBrackets := openedBrackets + [startpos];
        status := Running;
      }
    }

    /** The `]` branch: leave the loop (pop) on a zero cell, jump back to the innermost loop otherwise. */
    method CloseBracket() returns (status: Status)
      requires 0 < cursor
      modifies this
      ensures Transition(State(), status) == Semantics.CloseBracket(old(State()))
    {
      var startpos := cursor;
      if |openedBrackets| == 0 {
        return Raised(UnmatchedBracket(']', startpos - 1));
      }
      if pointer >= |tape| {
        return Raised(IndexError);
      }
      if tape[pointer] == 0 {
        openedBrackets := openedBrackets[..|openedBrackets| - 1];
      } else {
        var lastPos := openedBrackets[|openedBrackets| - 1];
        cursor := lastPos;
      }
      status := Running;
    }

    /** `run`, for at most `fuel` steps; Running means the fuel ran out before the program halted. */
    method Run(fuel: nat) returns (status: Status)
      modifies this
      ensures Transition(State(), status) == Semantics.Execute(Cfg(), old(State()), fuel)
      ensures old(Valid()) && !status.Raised? ==> Valid()
    {
      ghost var before := State();
      if Semantics.WellFormed(Cfg(), before) {
        Properties.ExecuteKeepsWellFormed(Cfg(), before, fuel);
      }
      var n := fuel;
      while n > 0
        invariant Semantics.Execute(Cfg(), State(), n) == Semantics.Execute(Cfg(), old(State()), fuel)
        decreases n
      {
        var endOfFile := InterpretNextCmd();
        if endOfFile != Running {
          return endOfFile;
        }
        n := n - 1;
      }
      status := Running;
    }

    /**
     * `run_hook`, for at most `fuel` rounds. The hook sees the state before each
     * step; the end-of-file callback is reported by `eofHookCalled`.
     */
    method RunHook(hook: Machine -> bool, hasEofHook: bool, fuel: nat)
      returns (status: Status, eofHookCalled: bool)
      modifies this
      ensures Semantics.HookRun(State(), status, eofHookCalled)
           == Semantics.ExecuteWithHook(Cfg(), old(State()), hook, hasEofHook, fuel)
      ensures old(Valid()) && !status.Raised? ==> Valid()
    {
      ghost var before := State();
      if Semantics.WellFormed(Cfg(), before) {
        Properties.HookRunKeepsWellFormed(Cfg(), before, hook, hasEofHook, fuel);
      }
      var n := fuel;
      while n > 0
        invariant Semantics.ExecuteWithHook(Cfg(), State(), hook, hasEofHook, n)
               == Semantics.ExecuteWithHook(Cfg(), old(State()), hook, hasEofHook, fuel)
        decreases n
      {
        var keepRunning := hook(State());
        var endOfFile := InterpretNextCmd();
        if endOfFile.Raised? {
          return endOfFile, false;
        }
        if endOfFile == Halted {
          return Halted, hasEofHook;
        }
        if !keepRunning {
          return Running, false;
        }
        n := n - 1;
      }
      status, eofHookCalled := Running, false;
    }
  }
}
