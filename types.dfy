/** Values shared by the whole model of the streaming Brainfuck interpreter. */
module Types {

  datatype Option<T> = None | Some(value: T)

  /** One tape cell. The interpreter's tape is an array of unsigned bytes. */
  type Cell = x: int | 0 <= x < 256

  /** What `,` does when the input is exhausted (or, optionally, reads a newline). */
  datatype EofMode =
    | EofAsZero       // write 0 into the current cell
    | EofAsMinusOne   // write 255 (-1 as an unsigned byte)
    | EofUnchanged    // leave the current cell as it is

  /** The exceptions the interpreter raises. */
  datatype Error =
    | UnmatchedBracket(bracket: char, charPos: int)  // the bracket and the offset it was read at
    | IndexError                                     // the data pointer is outside the tape
    | LimitBelowInitSize                             // construction: array limit below initial size

  datatype Result<T> = Ok(value: T) | Failure(error: Error)

  /** The configuration fixed at construction, plus the contents of the two input streams. */
  datatype Config = Config(
    source: seq<char>,        // the whole program text behind the seekable filehandle
    stdin: seq<char>,         // everything the input stream will deliver
    arrayLimit: Option<int>,  // None: the tape may grow
    extendSize: int,          // number of zero cells appended on growth
    newlineAsEof: bool,       // treat '\n' on input as end of file
    handleEof: EofMode)

  /** Everything one step can change. */
  datatype Machine = Machine(
    tape: seq<Cell>,
    pointer: nat,
    openedBrackets: seq<nat>,  // source positions just after the '[' of each active loop
    parsedCmds: nat,           // number of non-empty reads from the source
    cursor: nat,               // position of the source filehandle
    stdinPos: nat,             // how much of the input stream has been consumed
    stdout: seq<char>)         // everything written to the output stream

  /** How one step (or a bounded run) ended. */
  datatype Status =
    | Running        // the step returned False (for a run: it stopped without halting)
    | Halted         // the step read nothing and returned True
    | Raised(error: Error)

  /** The state after a step and how the step ended; after Raised the state is the one left behind by the exception. */
  datatype Transition = Transition(next: Machine, status: Status)
}
