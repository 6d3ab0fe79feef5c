/**
 * What the interpreter guarantees, stated over Semantics.Step and the bounded
 * runs: the behaviour of each bracket case, the open-bracket stack invariant,
 * that balanced programs never raise UnmatchedBracket, that an unlimited tape
 * never raises IndexError, and how run_hook relates to run.
 */
module Properties {
  import opened Types
  import opened Brackets
  import opened Semantics

  /** The ']' at j closes the '[' at `open`: it is the first ']' after it at nesting depth 0. */
  ghost predicate ClosesLoopAt(s: seq<char>, open: nat, j: nat) {
    open < |s| && s[open] == '[' && IsMatch(s, open + 1, 0, j)
  }

  /**
   * `[` on a zero cell: the cursor lands just after the first ']' at nesting
   * depth 0 and nothing else but the command count changes; with no such ']'
   * the step raises UnmatchedBracket('[', position of the '[') at end of text.
   */
  lemma ForwardSkip(c: Config, m: Machine)
    requires m.cursor < |c.source| && c.source[m.cursor] == '['
    requires m.pointer < |m.tape| && m.tape[m.pointer] == 0
    ensures Step(c, m).next.(cursor := m.cursor) == m.(parsedCmds := m.parsedCmds + 1)
    ensures Step(c, m).status == Running ==> ClosesLoopAt(c.source, m.cursor, Step(c, m).next.cursor - 1)
    ensures forall j: nat :: ClosesLoopAt(c.source, m.cursor, j) ==>
      Step(c, m) == Transition(m.(cursor := j + 1, parsedCmds := m.parsedCmds + 1), Running)
    ensures Step(c, m).status != Running ==>
      Step(c, m).status == Raised(UnmatchedBracket('[', m.cursor)) &&
      Step(c, m).next.cursor == |c.source| &&
      forall j: nat :: !ClosesLoopAt(c.source, m.cursor, j)
  {
    var s := c.source;
    var m1 := m.(cursor := m.cursor + 1, parsedCmds := m.parsedCmds + 1);
    assert Step(c, m) == OpenBracket(c, m1);
    if MatchClose(s, m.cursor + 1, 0).Some? {
      MatchCloseSound(s, m.cursor + 1, 0);
    }
    forall j: nat | ClosesLoopAt(s, m.cursor, j)
      ensures MatchClose(s, m.cursor + 1, 0) == Some(j + 1)
    {
      MatchCloseComplete(s, m.cursor + 1, 0, j);
    }
  }

  /** `[` on a nonzero cell pushes the position just after it and changes nothing else. */
  lemma EnterLoop(c: Config, m: Machine)
    requires m.cursor < |c.source| && c.source[m.cursor] == '['
    requires m.pointer < |m.tape| && m.tape[m.pointer] != 0
    ensures Step(c, m) == Transition(m.(cursor := m.cursor + 1, parsedCmds := m.parsedCmds + 1,
                                        openedBrackets := m.openedBrackets + [m.cursor + 1]), Running)
  {
  }

  /**
   * `]`: with no open loop it raises UnmatchedBracket(']', its position); on a
   * zero cell it pops one entry and the cursor just moves on; on a nonzero cell
   * the stack stays and the cursor seeks to its top entry.
   */
  lemma CloseLoop(c: Config, m: Machine)
    requires m.cursor < |c.source| && c.source[m.cursor] == ']'
    ensures m.openedBrackets == [] ==>
      Step(c, m) == Transition(m.(cursor := m.cursor + 1, parsedCmds := m.parsedCmds + 1),
                               Raised(UnmatchedBracket(']', m.cursor)))
    ensures m.openedBrackets != [] && m.pointer < |m.tape| && m.tape[m.pointer] == 0 ==>
      Step(c, m) == Transition(m.(cursor := m.cursor + 1, parsedCmds := m.parsedCmds + 1,
                                  openedBrackets := m.openedBrackets[..|m.openedBrackets| - 1]), Running)
    ensures m.openedBrackets != [] && m.pointer < |m.tape| && m.tape[m.pointer] != 0 ==>
      Step(c, m) == Transition(m.(cursor := m.openedBrackets[|m.openedBrackets| - 1],
                                  parsedCmds := m.parsedCmds + 1), Running)
  {
  }

  /** `<` and `>`: the command is counted, then change_pointer moves by -1 or +1. */
  lemma MoveCommand(c: Config, m: Machine)
    requires m.cursor < |c.source| && c.source[m.cursor] in "<>"
    ensures Step(c, m) == Transition(ChangePointer(c, m.(cursor := m.cursor + 1, parsedCmds := m.parsedCmds + 1),
                                                   if c.source[m.cursor] == '<' then -1 else 1), Running)
  {
  }

  /** `-` and `+`: the command is counted, then add_to_pointer_value adds -1 or +1. */
  lemma CellCommand(c: Config, m: Machine)
    requires m.cursor < |c.source| && c.source[m.cursor] in "-+"
    ensures Step(c, m) == AddToPointerValue(m.(cursor := m.cursor + 1, parsedCmds := m.parsedCmds + 1),
                                            if c.source[m.cursor] == '-' then -1 else 1)
  {
  }

  /** `,`: the command is counted, then input_char runs. */
  lemma InputCommand(c: Config, m: Machine)
    requires m.cursor < |c.source| && c.source[m.cursor] == ','
    ensures Step(c, m) == InputChar(c, m.(cursor := m.cursor + 1, parsedCmds := m.parsedCmds + 1))
  {
  }

  /** `.`: the command is counted, then output_char runs. */
  lemma OutputCommand(c: Config, m: Machine)
    requires m.cursor < |c.source| && c.source[m.cursor] == '.'
    ensures Step(c, m) == OutputChar(m.(cursor := m.cursor + 1, parsedCmds := m.parsedCmds + 1))
  {
  }

  /** A character other than the eight commands is counted and skipped. */
  lemma IgnoredCharacter(c: Config, m: Machine)
    requires m.cursor < |c.source| && !IsCommand(c.source[m.cursor])
    ensures Step(c, m) == Transition(m.(cursor := m.cursor + 1, parsedCmds := m.parsedCmds + 1), Running)
  {
  }

  /** A freshly constructed interpreter satisfies the stack invariant. */
  lemma InitialWellFormed(c: Config, initSize: int)
    ensures WellFormed(c, InitialMachine(initSize))
  {
  }

  /** A step that does not raise keeps the open-bracket stack equal to the loops open at the cursor. */
  lemma StepKeepsWellFormed(c: Config, m: Machine)
    requires WellFormed(c, m)
    ensures !Step(c, m).status.Raised? ==> WellFormed(c, Step(c, m).next)
  {
    if m.cursor < |c.source| {
      var ch := c.source[m.cursor];
      if ch == '[' {
        OpenKeepsWellFormed(c, m);
      } else if ch == ']' {
        CloseKeepsWellFormed(c, m);
      } else {
        PlainKeepsWellFormed(c, m);
      }
    }
  }

  lemma PlainKeepsWellFormed(c: Config, m: Machine)
    requires WellFormed(c, m) && m.cursor < |c.source|
    requires c.source[m.cursor] != '[' && c.source[m.cursor] != ']'
    ensures !Step(c, m).status.Raised? ==> WellFormed(c, Step(c, m).next)
  {
    assert Opens(c.source, m.cursor + 1) == m.openedBrackets;
    assert Step(c, m).next.cursor == m.cursor + 1 && Step(c, m).next.openedBrackets == m.openedBrackets;
  }

  lemma OpenKeepsWellFormed(c: Config, m: Machine)
    requires WellFormed(c, m) && m.cursor < |c.source| && c.source[m.cursor] == '['
    ensures !Step(c, m).status.Raised? ==> WellFormed(c, Step(c, m).next)
  {
    var s := c.source;
    var m1 := m.(cursor := m.cursor + 1, parsedCmds := m.parsedCmds + 1);
    assert Step(c, m) == OpenBracket(c, m1);
    assert Opens(s, m.cursor + 1) == m.openedBrackets + [m.cursor + 1];
    if m.pointer < |m.tape| && m.tape[m.pointer] == 0 && MatchClose(s, m.cursor + 1, 0).Some? {
      OpensAfterMatch(s, m.cursor + 1, 0);
    }
  }

  lemma CloseKeepsWellFormed(c: Config, m: Machine)
    requires WellFormed(c, m) && m.cursor < |c.source| && c.source[m.cursor] == ']'
    ensures !Step(c, m).status.Raised? ==> WellFormed(c, Step(c, m).next)
  {
    var s := c.source;
    var o := m.openedBrackets;
    var m1 := m.(cursor := m.cursor + 1, parsedCmds := m.parsedCmds + 1);
    assert Step(c, m) == CloseBracket(m1);
    if o != [] && m.pointer < |m.tape| {
      if m.tape[m.pointer] == 0 {
        assert Opens(s, m.cursor + 1) == o[..|o| - 1];
      } else {
        OpensEntries(s, m.cursor);
        assert o[..|o| - 1 + 1] == o;
      }
    }
  }

  /** On a balanced program a well-formed state never raises UnmatchedBracket in one step. */
  lemma BalancedStepNoUnmatched(c: Config, m: Machine)
    requires WellFormed(c, m) && Balanced(c.source)
    ensures !(Step(c, m).status.Raised? && Step(c, m).status.error.UnmatchedBracket?)
  {
    var s := c.source;
    if m.cursor < |s| {
      var k := m.cursor;
      if s[k] == '[' && m.pointer < |m.tape| && m.tape[m.pointer] == 0 {
        NetLast(s, 0, k + 1);
        NetSplit(s, 0, k + 1, |s|);
        MatchCloseExists(s, k + 1, 0);
      } else if s[k] == ']' {
        OpensDepth(s, k);
        NetLast(s, 0, k + 1);
      }
    }
  }

  /** A bounded run from a well-formed state ends well formed unless it raised. */
  lemma {:induction false} ExecuteKeepsWellFormed(c: Config, m: Machine, fuel: nat)
    requires WellFormed(c, m)
    ensures !Execute(c, m, fuel).status.Raised? ==> WellFormed(c, Execute(c, m, fuel).next)
    decreases fuel
  {
    if fuel > 0 {
      StepKeepsWellFormed(c, m);
      if Step(c, m).status == Running {
        ExecuteKeepsWellFormed(c, Step(c, m).next, fuel - 1);
      }
    }
  }

  /** A bounded run_hook from a well-formed state ends well formed unless it raised. */
  lemma {:induction false} HookRunKeepsWellFormed(c: Config, m: Machine, hook: Machine -> bool, hasEofHook: bool, fuel: nat)
    requires WellFormed(c, m)
    ensures !ExecuteWithHook(c, m, hook, hasEofHook, fuel).status.Raised? ==>
      WellFormed(c, ExecuteWithHook(c, m, hook, hasEofHook, fuel).final)
    decreases fuel
  {
    if fuel > 0 {
      StepKeepsWellFormed(c, m);
      if Step(c, m).status == Running && hook(m) {
        HookRunKeepsWellFormed(c, Step(c, m).next, hook, hasEofHook, fuel - 1);
      }
    }
  }

  /** A balanced program run from construction never raises UnmatchedBracket, however long it runs. */
  lemma {:induction false} BalancedNeverUnmatched(c: Config, m: Machine, fuel: nat)
    requires WellFormed(c, m) && Balanced(c.source)
    ensures !(Execute(c, m, fuel).status.Raised? && Execute(c, m, fuel).status.error.UnmatchedBracket?)
    decreases fuel
  {
    if fuel > 0 {
      BalancedStepNoUnmatched(c, m);
      StepKeepsWellFormed(c, m);
      if Step(c, m).status == Running {
        BalancedNeverUnmatched(c, Step(c, m).next, fuel - 1);
      }
    }
  }

  /** The tape may grow, and start with the pointer on a cell. */
  predicate Unlimited(c: Config, m: Machine) {
    c.arrayLimit.None? && c.extendSize > 0 && m.pointer < |m.tape|
  }

  /** With an unlimited tape one step keeps the pointer on a cell and never raises IndexError. */
  lemma StepInBounds(c: Config, m: Machine)
    requires Unlimited(c, m)
    ensures Step(c, m).status != Raised(IndexError)
    ensures Unlimited(c, Step(c, m).next)
  {
  }

  /** With an unlimited tape a run never raises IndexError. */
  lemma {:induction false} ExecuteInBounds(c: Config, m: Machine, fuel: nat)
    requires Unlimited(c, m)
    ensures Execute(c, m, fuel).status != Raised(IndexError)
    ensures Unlimited(c, Execute(c, m, fuel).next)
    decreases fuel
  {
    if fuel > 0 {
      StepInBounds(c, m);
      if Step(c, m).status == Running {
        ExecuteInBounds(c, Step(c, m).next, fuel - 1);
      }
    }
  }

  /** Running a + b steps is running a steps and then, if still running, b more. */
  lemma {:induction false} ExecuteSplit(c: Config, m: Machine, a: nat, b: nat)
    ensures Execute(c, m, a + b) ==
      if Execute(c, m, a).status == Running then Execute(c, Execute(c, m, a).next, b) else Execute(c, m, a)
    decreases a
  {
    if a > 0 {
      var s := Step(c, m);
      if s.status == Running {
        assert Execute(c, m, a + b) == Execute(c, s.next, (a - 1) + b);
        assert Execute(c, m, a) == Execute(c, s.next, a - 1);
        ExecuteSplit(c, s.next, a - 1, b);
      } else {
        assert Execute(c, m, a + b) == s == Execute(c, m, a);
      }
    }
  }

  /** A run of a steps that reaches m' without stopping can be continued from m' for b more. */
  lemma ExecuteThen(c: Config, m: Machine, m': Machine, a: nat, b: nat)
    requires Execute(c, m, a) == Transition(m', Running)
    ensures Execute(c, m, a + b) == Execute(c, m', b)
  {
    ExecuteSplit(c, m, a, b);
  }

  /** With a hook that never vetoes, run_hook ends where run ends. */
  lemma {:induction false} HookNeverVetoes(c: Config, m: Machine, hook: Machine -> bool, hasEofHook: bool, fuel: nat)
    requires forall x :: hook(x)
    ensures ExecuteWithHook(c, m, hook, hasEofHook, fuel).final == Execute(c, m, fuel).next
    ensures ExecuteWithHook(c, m, hook, hasEofHook, fuel).status == Execute(c, m, fuel).status
    decreases fuel
  {
    if fuel > 0 && Step(c, m).status == Running {
      HookNeverVetoes(c, Step(c, m).next, hook, hasEofHook, fuel - 1);
    }
  }

  /** A hook that vetoes still lets the step it was asked about run, and no further one. */
  lemma HookVetoRunsOneStep(c: Config, m: Machine, hook: Machine -> bool, hasEofHook: bool, fuel: nat)
    requires fuel > 0 && !hook(m)
    ensures ExecuteWithHook(c, m, hook, hasEofHook, fuel).final == Step(c, m).next
    ensures ExecuteWithHook(c, m, hook, hasEofHook, fuel).status == Step(c, m).status
  {
  }
}
