/**
 * One game on a loaded board: getInput turns the player's lines into
 * commands, runCommand executes one, and runGame repeats that until the
 * player quits, restarts, runs out of memory or connects start and end.
 * The player's lines are a finite trace; its end is the EOF that getLine
 * reports, which getInput turns into QUIT.
 */
module Session {
  import opened Pipes
  import opened Boards
  import opened Commands
  import opened Connectivity

  /** What getLine delivers: a line, or NULL when it cannot allocate one. */
  datatype Input = Line(text: string) | NoMemory

  /** What getInput returns: a command and the lines not yet read, or NONE when getLine failed. */
  datatype Reading = Read(command: Command, rest: seq<Input>) | ReadFailed

  /** `(*row)--` on a uint8_t: the one-based numbers the player types become zero-based, 0 wraps to 255. */
  function Decrement(x: u8): (r: u8)
    ensures x >= 1 ==> r == x - 1
    ensures x == 0 ==> r == 255
  {
    (x + 255) % 256
  }

  /** The command getInput hands on for the one parseCommand produced. */
  function Adjusted(c: Command): Command {
    match c
    case Rotate(dir, row, col) => Rotate(dir, Decrement(row), Decrement(col))
    case _ => c
  }

  /** A line after which getInput prompts again: a blank line, a rotate usage error or an unknown command. */
  predicate Reprompts(i: Input) {
    i.Line? && (Parse(i.text) == Parsed(NoCommand) || !Parse(i.text).Parsed?)
  }

  /**
   * getInput: reads lines until one holds a command. A failed read gives
   * NONE and the end of input gives QUIT; the command read is never NONE
   * and every read consumes a line.
   */
  function GetInput(inputs: seq<Input>): (r: Reading)
    ensures inputs == [] ==> r == Read(Quit, [])
    ensures r.Read? ==> r.command != NoCommand && |r.rest| <= |inputs|
                        && r.rest == inputs[|inputs| - |r.rest|..]
    ensures r.Read? && inputs != [] ==> |r.rest| < |inputs|
    decreases |inputs|
  {
    if inputs == [] then Read(Quit, [])
    else match inputs[0]
      case NoMemory => ReadFailed
      case Line(text) =>
        match Parse(text)
        case Parsed(command) =>
          if command == NoCommand then GetInput(inputs[1..]) else Read(Adjusted(command), inputs[1..])
        case RotateUsage => GetInput(inputs[1..])
        case UnknownCommand(_) => GetInput(inputs[1..])
  }

  /** The position of the first line getInput does not skip, or the length of the trace. */
  function FirstUnskipped(inputs: seq<Input>): (k: nat)
    ensures k <= |inputs|
    ensures forall j :: 0 <= j < k ==> Reprompts(inputs[j])
    ensures k < |inputs| ==> !Reprompts(inputs[k])
  {
    if inputs == [] || !Reprompts(inputs[0]) then 0 else 1 + FirstUnskipped(inputs[1..])
  }

  /**
   * getInput skips every line in front of the first one that holds a
   * command, and then returns that command and the lines after it; it fails
   * if the first unskipped read failed, and answers QUIT if nothing is left.
   */
  lemma {:induction false} GetInputFindsFirstCommand(inputs: seq<Input>)
    ensures var k := FirstUnskipped(inputs);
      && (k == |inputs| ==> GetInput(inputs) == Read(Quit, []))
      && (k < |inputs| && inputs[k] == NoMemory ==> GetInput(inputs) == ReadFailed)
      && (k < |inputs| && inputs[k].Line? ==>
            Parse(inputs[k].text).Parsed? && Parse(inputs[k].text).command != NoCommand
            && GetInput(inputs) == Read(Adjusted(Parse(inputs[k].text).command), inputs[k + 1..]))
    decreases |inputs|
  {
    if inputs != [] && Reprompts(inputs[0]) {
      var tail := inputs[1..];
      GetInputFindsFirstCommand(tail);
      assert GetInput(inputs) == GetInput(tail);
      var k := FirstUnskipped(inputs);
      if k < |inputs| {
        assert inputs[k] == tail[k - 1];
        assert inputs[k + 1..] == tail[k..];
      }
    }
  }

  /** The values of runGame's `stop`: 0, true, and DO_RESTART. */
  datatype Stop = Go | Halt | DoRestart

  /** What runCommand does to the game: whether the round advances, the new `stop`, and the new grid. */
  datatype Step = Step(advance: bool, stop: Stop, grid: Grid)

  /**
   * runCommand on grid values: QUIT halts and RESTART asks for a restart;
   * ROTATE advances only when rotatePipe accepts the cell; HELP and NONE
   * just advance. Every command but a rejected rotation advances.
   */
  ghost function Execute(g: Grid, height: u8, width: u8, start: Coord, end: Coord, command: Command): (s: Step)
    requires WellFormed(g, height, width)
    ensures WellFormed(s.grid, height, width)
    ensures s.stop == Halt <==> command == Quit
    ensures s.stop == DoRestart <==> command == Restart
    ensures !s.advance <==> command.Rotate? && !(AreCoordinatesOnBoard(height, width, Coord(command.row, command.col))
                                              && Coord(command.row, command.col) != start && Coord(command.row, command.col) != end)
    ensures s.grid != g ==> command.Rotate? && s.advance
  {
    match command
    case Quit => Step(true, Halt, g)
    case Restart => Step(true, DoRestart, g)
    case Rotate(dir, row, col) =>
      var p := Coord(row, col);
      if AreCoordinatesOnBoard(height, width, p) && p != start && p != end then
        Step(true, Go, Rotated(g, height, width, p, dir))
      else Step(false, Go, g)
    case _ => Step(true, Go, g)
  }

  /** runCommand: executes one command on the board, as Execute describes. */
  method RunCommand(board: Board, command: Command) returns (advance: bool, stop: Stop)
    requires board.Valid()
    modifies board.cells
    ensures Step(advance, stop, board.Contents())
            == Execute(old(board.Contents()), board.height, board.width, board.start, board.end, command)
  {
    advance, stop := true, Go;
    match command {
      case Quit =>
        stop := Halt;
      case Restart =>
        stop := DoRestart;
      case Rotate(dir, row, col) =>
        advance := board.RotatePipe(Coord(row, col), dir);
      case _ =>
    }
  }

  /** The values of runGame's `char round`. */
  type SignedChar = x: int | -128 <= x < 128

  /**
   * The conversion of an int back to a signed char: the value with the same
   * low 8 bits, read in two's complement, as GCC and Clang convert
   * out-of-range values.
   */
  function ToSignedChar(v: int): (r: SignedChar)
    ensures -128 <= v < 128 ==> r == v
    ensures (r - v) % 256 == 0
  {
    var low := v % 256;
    if low < 128 then low else low - 256
  }

  /** `round++` on runGame's signed char: one more, except that 127 wraps to -128. */
  function NextRound(round: SignedChar): (r: SignedChar)
    ensures round < 127 ==> r == round + 1
    ensures round == 127 ==> r == -128
  {
    if round == 127 then -128 else round + 1
  }

  /** The increment is the conversion of `round + 1` back to a signed char, for every round. */
  lemma NextRoundConvertsBack(round: SignedChar)
    ensures NextRound(round) == ToSignedChar(round + 1)
  {
  }

  /** How runGame ends: out of memory, restart, quit, or the puzzle solved with a score. */
  datatype Outcome = OutOfMemory | RestartRequested | Quitted | Solved(score: int)

  /** The end of a game: its outcome, the final grid, and how many commands advanced the round. */
  datatype Ending = Ending(outcome: Outcome, grid: Grid, moves: nat)

  /**
   * runGame on grid values, from a given round: read a command, execute
   * it, advance the round if runCommand says so, stop on restart or quit,
   * and stop with score `round - 1` once start and end are connected.
   */
  ghost function Play(g: Grid, height: u8, width: u8, start: Coord, end: Coord, inputs: seq<Input>, round: SignedChar): (e: Ending)
    requires WellFormed(g, height, width)
    ensures WellFormed(e.grid, height, width)
    decreases |inputs|
  {
    match GetInput(inputs)
    case ReadFailed => Ending(OutOfMemory, g, 0)
    case Read(command, rest) =>
      var step := Execute(g, height, width, start, end, command);
      var round' := if step.advance then NextRound(round) else round;
      var moved := if step.advance then 1 else 0;
      if step.stop == DoRestart then Ending(RestartRequested, step.grid, moved)
      else if step.stop == Halt then Ending(Quitted, step.grid, moved)
      else if Reachable(step.grid, height, width, start, end) then Ending(Solved(round' - 1), step.grid, moved)
      else
        var e := Play(step.grid, height, width, start, end, rest, round');
        Ending(e.outcome, e.grid, moved + e.moves)
  }

  /** One turn of Play: how the game goes on after getInput read a command and runCommand executed it. */
  lemma PlayStep(g: Grid, height: u8, width: u8, start: Coord, end: Coord, inputs: seq<Input>, round: SignedChar,
                 command: Command, rest: seq<Input>, step: Step)
    requires WellFormed(g, height, width) && GetInput(inputs) == Read(command, rest)
    requires step == Execute(g, height, width, start, end, command)
    ensures var round' := if step.advance then NextRound(round) else round;
            var e := Play(g, height, width, start, end, inputs, round);
            && (step.stop != Go ==> e.grid == step.grid)
            && (step.stop == DoRestart ==> e.outcome == RestartRequested)
            && (step.stop == Halt ==> e.outcome == Quitted)
            && (step.stop == Go && Reachable(step.grid, height, width, start, end) ==>
                  e.outcome == Solved(round' - 1) && e.grid == step.grid)
            && (step.stop == Go && !Reachable(step.grid, height, width, start, end) ==>
                  var e' := Play(step.grid, height, width, start, end, rest, round');
                  e.outcome == e'.outcome && e.grid == e'.grid)
  {
    var round' := if step.advance then NextRound(round) else round;
    var moved := if step.advance then 1 else 0;
    var e := Play(g, height, width, start, end, inputs, round);
    if step.stop == DoRestart {
      assert e == Ending(RestartRequested, step.grid, moved);
    } else if step.stop == Halt {
      assert e == Ending(Quitted, step.grid, moved);
    } else if Reachable(step.grid, height, width, start, end) {
      assert e.outcome.Solved? && e.grid == step.grid;
      if step.advance {
        assert e.outcome.score == NextRound(round) - 1;
      } else {
        assert e.outcome.score == round - 1;
      }
    } else {
      var e' := Play(step.grid, height, width, start, end, rest, round');
      assert e == Ending(e'.outcome, e'.grid, moved + e'.moves);
    }
  }

  /**
   * runGame: the loop of a3.c. The outcome and the board it leaves are
   * those Play describes from round 1.
   */
  method RunGame(board: Board, inputs: seq<Input>) returns (outcome: Outcome)
    requires board.Valid() && board.width * board.height <= 127
    modifies board.cells
    ensures var e := Play(old(board.Contents()), board.height, board.width, board.start, board.end, inputs, 1);
            outcome == e.outcome && board.Contents() == e.grid
  {
    ghost var e := Play(board.Contents(), board.height, board.width, board.start, board.end, inputs, 1);
    var command := NoCommand;
    var rest := inputs;
    var round: SignedChar := 1;
    var stop := Go;
    while stop == Go
      invariant board.Valid()
      invariant stop != DoRestart
      invariant stop == Go ==>
        var now := Play(board.Contents(), board.height, board.width, board.start, board.end, rest, round);
        e.outcome == now.outcome && e.grid == now.grid
      invariant stop == Halt ==> e.grid == board.Contents()
                                 && e.outcome == (if command == Quit then Quitted else Solved(round - 1))
      decreases |rest| + (if stop == Go then 1 else 0)
    {
      ghost var g, inputs0, round0 := board.Contents(), rest, round;
      var reading := GetInput(rest);
      if reading.ReadFailed? {
        return OutOfMemory;
      }
      command, rest := reading.command, reading.rest;
      var advance;
      advance, stop := RunCommand(board, command);
      PlayStep(g, board.height, board.width, board.start, board.end, inputs0, round0,
               command, rest, Step(advance, stop, board.Contents()));
      if advance {
        round := NextRound(round);
      }
      if stop == DoRestart {
        return RestartRequested;
      }
      if stop == Go {
        var connected := ArePipesConnected(board.cells, board.width, board.height, board.start, board.end);
        if connected {
          stop := Halt;
        }
      }
    }
    if command != Quit {
      outcome := Solved(round - 1);
    } else {
      outcome := Quitted;
    }
  }

  /** A game that ends solved leaves start and end connected. */
  lemma {:induction false} SolvedMeansConnected(g: Grid, height: u8, width: u8, start: Coord, end: Coord, inputs: seq<Input>, round: SignedChar)
    requires WellFormed(g, height, width)
    ensures var e := Play(g, height, width, start, end, inputs, round);
            e.outcome.Solved? ==> Reachable(e.grid, height, width, start, end)
    decreases |inputs|
  {
    match GetInput(inputs)
    case ReadFailed =>
    case Read(command, rest) =>
      var step := Execute(g, height, width, start, end, command);
      var round' := if step.advance then NextRound(round) else round;
      if step.stop == Go && !Reachable(step.grid, height, width, start, end) {
        SolvedMeansConnected(step.grid, height, width, start, end, rest, round');
      }
  }

  /** Every line read advances the round at most once; a solved game did not end on the end of input. */
  lemma {:induction false} MovesAtMostLines(g: Grid, height: u8, width: u8, start: Coord, end: Coord, inputs: seq<Input>, round: SignedChar)
    requires WellFormed(g, height, width)
    ensures var e := Play(g, height, width, start, end, inputs, round);
            e.moves <= |inputs| + 1 && (e.outcome.Solved? ==> e.moves <= |inputs|)
    decreases |inputs|
  {
    match GetInput(inputs)
    case ReadFailed =>
    case Read(command, rest) =>
      var step := Execute(g, height, width, start, end, command);
      var round' := if step.advance then NextRound(round) else round;
      if step.stop == Go && !Reachable(step.grid, height, width, start, end) {
        MovesAtMostLines(step.grid, height, width, start, end, rest, round');
      }
  }

  /**
   * The score is the round counter minus one: the starting round plus
   * every command that advanced it, as long as the counter does not pass 127.
   */
  lemma {:induction false} ScoreCountsRounds(g: Grid, height: u8, width: u8, start: Coord, end: Coord, inputs: seq<Input>, round: SignedChar)
    requires WellFormed(g, height, width)
    ensures var e := Play(g, height, width, start, end, inputs, round);
            e.outcome.Solved? && round + e.moves <= 127 ==> e.outcome.score == round + e.moves - 1
    decreases |inputs|
  {
    match GetInput(inputs)
    case ReadFailed =>
    case Read(command, rest) =>
      var step := Execute(g, height, width, start, end, command);
      var round' := if step.advance then NextRound(round) else round;
      if step.stop == Go && !Reachable(step.grid, height, width, start, end) {
        ScoreCountsRounds(step.grid, height, width, start, end, rest, round');
      }
  }

  /**
   * A game of at most 126 lines that ends solved scores exactly the number
   * of commands that advanced the round, a number handleScore can store.
   */
  lemma {:induction false} ScoreOfAShortGame(g: Grid, height: u8, width: u8, start: Coord, end: Coord, inputs: seq<Input>)
    requires WellFormed(g, height, width) && |inputs| <= 126
    ensures var e := Play(g, height, width, start, end, inputs, 1);
            e.outcome.Solved? ==> e.outcome.score == e.moves && 0 <= e.outcome.score <= 126
  {
    ScoreCountsRounds(g, height, width, start, end, inputs, 1);
    MovesAtMostLines(g, height, width, start, end, inputs, 1);
  }

  /** Nothing a game does breaks the consistency of the connected bits. */
  lemma {:induction false} PlayKeepsConsistency(g: Grid, height: u8, width: u8, start: Coord, end: Coord, inputs: seq<Input>, round: SignedChar)
    requires Consistent(g, height, width)
    ensures Consistent(Play(g, height, width, start, end, inputs, round).grid, height, width)
    decreases |inputs|
  {
    match GetInput(inputs)
    case ReadFailed =>
    case Read(command, rest) =>
      var step := Execute(g, height, width, start, end, command);
      var round' := if step.advance then NextRound(round) else round;
      PlayStep(g, height, width, start, end, inputs, round, command, rest, step);
      if command.Rotate? && step.advance {
        RotationPreservesConsistency(g, height, width, Coord(command.row, command.col), command.dir);
      }
      assert Consistent(step.grid, height, width);
      if step.stop == Go && !Reachable(step.grid, height, width, start, end) {
        PlayKeepsConsistency(step.grid, height, width, start, end, rest, round');
      }
  }

  /** What main hands to handleScore after runGame returned: a solved game's score unless it is 0. */
  function ScoreToRecord(outcome: Outcome): (r: Option<int>)
    ensures r.Some? ==> outcome.Solved? && r.value == outcome.score && r.value != 0
    ensures outcome.Solved? && outcome.score != 0 ==> r.Some?
  {
    if outcome.Solved? && outcome.score != 0 then Some(outcome.score) else None
  }

  /**
   * After a solved game of at most 126 lines, main records a score exactly
   * when some command advanced the round, and the score it hands over is
   * one handleScore accepts.
   */
  lemma {:induction false} RecordedScoreFitsTable(g: Grid, height: u8, width: u8, start: Coord, end: Coord, inputs: seq<Input>)
    requires WellFormed(g, height, width) && |inputs| <= 126
    ensures var e := Play(g, height, width, start, end, inputs, 1);
            && (ScoreToRecord(e.outcome).Some? <==> e.outcome.Solved? && e.moves > 0)
            && (ScoreToRecord(e.outcome).Some? ==>
                  ScoreToRecord(e.outcome).value == e.moves && 1 <= ScoreToRecord(e.outcome).value <= 126)
  {
    ScoreOfAShortGame(g, height, width, start, end, inputs);
  }
}
