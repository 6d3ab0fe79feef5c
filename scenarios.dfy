/**
 * Concrete programs: the stray brackets, the three EOF policies on an empty
 * input, and the demonstration program that copies twelve input characters.
 */
module Scenarios {
  import opened Types
  import opened Brackets
  import opened Semantics
  import Properties

  /** One step from `m` that does not stop: a run of n + 1 steps is that step and then n more. */
  lemma ExecuteStep(c: Config, m: Machine, n: nat)
    requires Step(c, m).status == Running
    ensures Execute(c, m, n + 1) == Execute(c, Step(c, m).next, n)
  {
  }

  /** Source "[": the loop is never closed, reported at offset 0. */
  lemma StrayOpen(c: Config, initSize: int)
    requires c.source == "[" && initSize > 0
    ensures Step(c, InitialMachine(initSize)).status == Raised(UnmatchedBracket('[', 0))
  {
    var m := InitialMachine(initSize);
    assert m.tape[0] == 0;
    assert MatchClose(c.source, 1, 0) == None;
  }

  /** Source "]": a ']' with no open loop, reported at offset 0, whatever the tape. */
  lemma StrayClose(c: Config, initSize: int)
    requires c.source == "]"
    ensures Step(c, InitialMachine(initSize)).status == Raised(UnmatchedBracket(']', 0))
  {
  }

  /** `,` on an exhausted input, one outcome per EOF policy. */
  lemma EofOnEmptyInput(c: Config, m: Machine)
    requires c.stdin == [] && m.cursor < |c.source| && c.source[m.cursor] == ','
    requires m.pointer < |m.tape|
    ensures Step(c, m).status == Running
    ensures Step(c, m).next.stdinPos == m.stdinPos
    ensures c.handleEof == EofAsZero ==> Step(c, m).next.tape == m.tape[m.pointer := 0]
    ensures c.handleEof == EofAsMinusOne ==> Step(c, m).next.tape == m.tape[m.pointer := 255]
    ensures c.handleEof == EofUnchanged ==> Step(c, m).next.tape == m.tape
  {
  }

  // The demonstration program: set cell 0 to 12, then twelve times move to
  // cell 1, read a character, print it, move back and count down.

  const Program: seq<char> := "++++++++++++[>,.<-]"
  const Input: seq<char> := "Hello World!"

  /** The demonstration's interpreter: newline_as_eof, EOF as -1, reading the stream `inp`. */
  function Demo(inp: seq<char>): Config {
    Config(Program, inp, None, 1000, true, EofAsMinusOne)
  }

  /** What `,` stores in round i: the i-th input character modulo 256, or 255 when it is missing or a newline. */
  function Echo(inp: seq<char>, i: nat): Cell {
    if i >= |inp| || inp[i] == '\n' then 255 else (inp[i] as int) % 256
  }

  /** The output of the first i rounds. */
  function Echoed(inp: seq<char>, i: nat): (out: seq<char>)
    ensures |out| == i
  {
    if i == 0 then [] else Echoed(inp, i - 1) + [Echo(inp, i - 1) as char]
  }

  /** How much of the input the first i rounds consume. */
  function Consumed(inp: seq<char>, i: nat): nat {
    if i < |inp| then i else |inp|
  }

  /** The state after the first k commands, all of them '+', on a tape of n cells. */
  function Counting(n: int, k: nat): Machine
    requires n >= 2 && k <= 12
  {
    Machine(InitialMachine(n).tape[0 := k], 0, [], k, k, 0, [])
  }

  /** The state at the start of loop round i: i characters copied, cell 0 holds 12 - i. */
  function Round(n: int, inp: seq<char>, i: nat): Machine
    requires n >= 2 && i <= 12
  {
    var echo: Cell := if i == 0 then 0 else Echo(inp, i - 1);
    Machine(InitialMachine(n).tape[0 := 12 - i][1 := echo], 0, if i < 12 then [13] else [],
            13 + 6 * i, if i < 12 then 13 else 19, Consumed(inp, i), Echoed(inp, i))
  }

  lemma {:induction false} CountingPhase(n: int, inp: seq<char>, k: nat)
    requires n >= 2 && k <= 12
    ensures Execute(Demo(inp), Counting(n, k), 12 - k) == Transition(Counting(n, 12), Running)
    decreases 12 - k
  {
    if k < 12 {
      CountStep(n, inp, k);
      ExecuteStep(Demo(inp), Counting(n, k), 11 - k);
      CountingPhase(n, inp, k + 1);
    }
  }

  lemma CountStep(n: int, inp: seq<char>, k: nat)
    requires n >= 2 && k < 12
    ensures Step(Demo(inp), Counting(n, k)) == Transition(Counting(n, k + 1), Running)
  {
    assert Program[k] == '+';
    var m := Counting(n, k);
    assert m.pointer == 0 && m.tape[0] == k;
    assert (m.tape[0] + 1) % 256 == k + 1;
  }

  lemma EnterDemoLoop(n: int, inp: seq<char>)
    requires n >= 2
    ensures Step(Demo(inp), Counting(n, 12)) == Transition(Round(n, inp, 0), Running)
  {
    assert Program[12] == '[';
    var z: seq<Cell> := InitialMachine(n).tape;
    assert z[0 := 12][1 := 0] == z[0 := 12];
  }

  /** The state after k of the six commands of round i. */
  function InRound(n: int, inp: seq<char>, i: nat, k: nat): Machine
    requires n >= 2 && i < 12 && k <= 5
  {
    var r := Round(n, inp, i);
    var left: Cell := 11 - i;
    r.(pointer := if 1 <= k <= 3 then 1 else 0,
       cursor := 13 + k,
       parsedCmds := r.parsedCmds + k,
       tape := if k < 2 then r.tape else if k < 5 then r.tape[1 := Echo(inp, i)] else r.tape[1 := Echo(inp, i)][0 := left],
       stdinPos := if k < 2 then Consumed(inp, i) else Consumed(inp, i + 1),
       stdout := if k < 3 then Echoed(inp, i) else Echoed(inp, i + 1))
  }

  lemma RoundMove(n: int, inp: seq<char>, i: nat)
    requires n >= 2 && i < 12
    ensures Step(Demo(inp), InRound(n, inp, i, 0)) == Transition(InRound(n, inp, i, 1), Running)
  {
    assert Program[13] == '>';
  }

  lemma RoundRead(n: int, inp: seq<char>, i: nat)
    requires n >= 2 && i < 12
    ensures Step(Demo(inp), InRound(n, inp, i, 1)) == Transition(InRound(n, inp, i, 2), Running)
  {
    assert Program[14] == ',';
    var m := InRound(n, inp, i, 1);
    assert m.pointer == 1 && m.stdinPos == Consumed(inp, i);
    if i < |inp| {
      assert m.stdinPos == i;
    } else {
      assert ReadsEof(Demo(inp), m);
    }
  }

  lemma RoundEcho(n: int, inp: seq<char>, i: nat)
    requires n >= 2 && i < 12
    ensures Step(Demo(inp), InRound(n, inp, i, 2)) == Transition(InRound(n, inp, i, 3), Running)
  {
    assert Program[15] == '.';
    var m := InRound(n, inp, i, 2);
    assert m.pointer == 1 && m.tape[1] == Echo(inp, i);
    assert Echoed(inp, i + 1) == Echoed(inp, i) + [Echo(inp, i) as char];
  }

  lemma RoundBack(n: int, inp: seq<char>, i: nat)
    requires n >= 2 && i < 12
    ensures Step(Demo(inp), InRound(n, inp, i, 3)) == Transition(InRound(n, inp, i, 4), Running)
  {
    assert Program[16] == '<';
  }

  lemma RoundCount(n: int, inp: seq<char>, i: nat)
    requires n >= 2 && i < 12
    ensures Step(Demo(inp), InRound(n, inp, i, 4)) == Transition(InRound(n, inp, i, 5), Running)
  {
    assert Program[17] == '-';
    var m := InRound(n, inp, i, 4);
    assert m.pointer == 0 && m.tape[0] == 12 - i;
    assert (m.tape[0] + -1) % 256 == 11 - i;
  }

  lemma RoundRepeat(n: int, inp: seq<char>, i: nat)
    requires n >= 2 && i < 12
    ensures Step(Demo(inp), InRound(n, inp, i, 5)) == Transition(Round(n, inp, i + 1), Running)
  {
    assert Program[18] == ']';
    var z: seq<Cell> := InitialMachine(n).tape;
    var left: Cell := 11 - i;
    assert InRound(n, inp, i, 5).tape == z[0 := left][1 := Echo(inp, i)];
  }

  /** One round of the loop body: six commands take round i to round i + 1. */
  lemma DemoRound(n: int, inp: seq<char>, i: nat)
    requires n >= 2 && i < 12
    ensures Execute(Demo(inp), Round(n, inp, i), 6) == Transition(Round(n, inp, i + 1), Running)
  {
    var c := Demo(inp);
    assert InRound(n, inp, i, 0) == Round(n, inp, i);
    RoundMove(n, inp, i);
    RoundRead(n, inp, i);
    RoundEcho(n, inp, i);
    RoundBack(n, inp, i);
    RoundCount(n, inp, i);
    RoundRepeat(n, inp, i);
    ExecuteStep(c, InRound(n, inp, i, 0), 5);
    ExecuteStep(c, InRound(n, inp, i, 1), 4);
    ExecuteStep(c, InRound(n, inp, i, 2), 3);
    ExecuteStep(c, InRound(n, inp, i, 3), 2);
    ExecuteStep(c, InRound(n, inp, i, 4), 1);
    ExecuteStep(c, InRound(n, inp, i, 5), 0);
  }

  /**
   * A chain of states each reached from the one before by a run of six steps
   * that does not stop: from state i, 6 * (|ms| - 1 - i) steps reach the last one.
   */
  lemma {:induction false} RoundChain(c: Config, ms: seq<Machine>, i: nat)
    requires i < |ms|
    requires forall j :: i <= j < |ms| - 1 ==> Execute(c, ms[j], 6) == Transition(ms[j + 1], Running)
    ensures Execute(c, ms[i], 6 * (|ms| - 1 - i)) == Transition(ms[|ms| - 1], Running)
    decreases |ms| - i
  {
    if i < |ms| - 1 {
      RoundChain(c, ms, i + 1);
      assert 6 * (|ms| - 1 - i) == 6 + 6 * (|ms| - 1 - (i + 1));
      Properties.ExecuteThen(c, ms[i], ms[i + 1], 6, 6 * (|ms| - 1 - (i + 1)));
    }
  }

  /** The states at the start of rounds 0 to 12. */
  function Rounds(n: int, inp: seq<char>): (ms: seq<Machine>)
    requires n >= 2
    ensures |ms| == 13 && forall j :: 0 <= j < 13 ==> ms[j] == Round(n, inp, j)
  {
    seq(13, j requires 0 <= j < 13 => Round(n, inp, j))
  }

  lemma EveryRound(n: int, inp: seq<char>)
    requires n >= 2
    ensures forall j :: 0 <= j < 12 ==>
      Execute(Demo(inp), Rounds(n, inp)[j], 6) == Transition(Rounds(n, inp)[j + 1], Running)
  {
    forall j | 0 <= j < 12
      ensures Execute(Demo(inp), Round(n, inp, j), 6) == Transition(Round(n, inp, j + 1), Running)
    {
      DemoRound(n, inp, j);
    }
  }

  /** The twelve rounds of the loop take 72 commands and end in round 12. */
  lemma LoopPhase(n: int, inp: seq<char>)
    requires n >= 2
    ensures Execute(Demo(inp), Round(n, inp, 0), 72) == Transition(Round(n, inp, 12), Running)
  {
    var ms := Rounds(n, inp);
    EveryRound(n, inp);
    RoundChain(Demo(inp), ms, 0);
  }

  /**
   * The demonstration program on any input stream, from any initial tape of at
   * least two cells (300000 by default): it halts after 85 commands with cell 0
   * at zero, having printed the first twelve input characters, each missing
   * character or newline printed as chr(255).
   */
  lemma DemoRun(n: int, inp: seq<char>)
    requires n >= 2
    ensures Execute(Demo(inp), InitialMachine(n), 86).status == Halted
    ensures Execute(Demo(inp), InitialMachine(n), 86).next.stdout == Echoed(inp, 12)
    ensures Execute(Demo(inp), InitialMachine(n), 86).next.tape[0] == 0
    ensures Execute(Demo(inp), InitialMachine(n), 86).next.parsedCmds == 85
  {
    var c := Demo(inp);
    var z: seq<Cell> := InitialMachine(n).tape;
    assert z[0 := 0] == z;
    assert InitialMachine(n) == Counting(n, 0);
    CountingPhase(n, inp, 0);
    EnterDemoLoop(n, inp);
    ExecuteStep(c, Counting(n, 12), 73);
    Properties.ExecuteThen(c, Counting(n, 0), Counting(n, 12), 12, 74);
    LoopPhase(n, inp);
    Properties.ExecuteThen(c, Round(n, inp, 0), Round(n, inp, 12), 72, 1);
  }

  /** On input without newlines or characters beyond 255 the output is the input itself. */
  lemma {:induction false} EchoedPlain(inp: seq<char>, i: nat)
    requires i <= |inp|
    requires forall j :: 0 <= j < i ==> inp[j] != '\n' && inp[j] as int < 256
    ensures Echoed(inp, i) == inp[..i]
  {
    if i > 0 {
      EchoedPlain(inp, i - 1);
      assert inp[..i] == inp[..i - 1] + [inp[i - 1]];
    }
  }

  lemma InputIsPlain(i: nat)
    requires i < 12
    ensures Input[i] != '\n' && Input[i] as int < 256
  {
  }

  /** The demonstration as intended, with the string "Hello World!" as input: it prints "Hello World!". */
  lemma HelloWorld(n: int)
    requires n >= 2
    ensures Execute(Demo(Input), InitialMachine(n), 86).status == Halted
    ensures Execute(Demo(Input), InitialMachine(n), 86).next.stdout == "Hello World!"
    ensures Execute(Demo(Input), InitialMachine(n), 86).next.tape[0] == 0
  {
    DemoRun(n, Input);
    forall j | 0 <= j < 12
      ensures Input[j] != '\n' && Input[j] as int < 256
    {
      InputIsPlain(j);
    }
    EchoedPlain(Input, 12);
    assert Input[..12] == Input;
  }

  /**
   * The demonstration as written leaves the interpreter on the process's own
   * standard input; when that stream is empty it prints twelve chr(255)
   * characters, not "Hello World!".
   */
  lemma DemoAsWritten(n: int)
    requires n >= 2
    ensures Execute(Demo([]), InitialMachine(n), 86).status == Halted
    ensures Execute(Demo([]), InitialMachine(n), 86).next.stdout == seq(12, _ => 255 as char)
    ensures Execute(Demo([]), InitialMachine(n), 86).next.stdout != "Hello World!"
  {
    DemoRun(n, []);
    EchoedEmpty(12);
    assert Echoed([], 12)[0] != 'H';
  }

  lemma {:induction false} EchoedEmpty(i: nat)
    ensures Echoed([], i) == seq(i, _ => 255 as char)
  {
    if i > 0 {
      EchoedEmpty(i - 1);
    }
  }
}
