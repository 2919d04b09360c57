// The Apple attachment: the task that reads helper lines (crates/gascan-apple/src/attach.rs) feeding the exec pump.
module AppleExec {
  import opened Wrappers
  import opened Bytes
  import opened Resources
  import opened ExecPump

  const PROTOCOL_VERSION: nat := 2

  datatype HelperOutput =
    | HelperStdout(bytes: seq<byte>)
    | HelperStderr(bytes: seq<byte>)
    | HelperExit(code: int)
    | HelperFailure(failure: string, message: string)

  /** What reading the helper's next line can give. */
  datatype Line = Frame(version: nat, output: HelperOutput) | Malformed | EndOfOutput | Unreadable(message: string)

  /** What the pump hears is the helper's lines, one at a time. */
  type Event = ExecPump.Event<Line>

  /** `into_attach_output` and the pump's own mapping. */
  function Decode(version: nat, output: HelperOutput): Item {
    if version != PROTOCOL_VERSION then Err(InvalidOutput("gascan-apple-attach", "helper protocol version"))
    else
      match output
      case HelperStdout(bytes) => Ok(Stdout(bytes))
      case HelperStderr(bytes) => Ok(Stderr(bytes))
      case HelperExit(code) => Ok(Exit(code, 0))
      case HelperFailure(failure, message) => Err(HelperError("gascan-apple-attach", failure, message))
  }

  /** What one line says on its own: guest output, the guest's exit, or that the helper failed. */
  function Meaning(line: Line): Item {
    match line
    case Frame(version, output) => Decode(version, output)
    case Malformed => Err(InvalidOutput("gascan-apple-attach", "invalid helper frame"))
    case EndOfOutput => Err(InvalidOutput("gascan-apple-attach", "helper closed without a terminal frame"))
    case Unreadable(message) => Err(CommandIo("gascan-apple-attach", message))
  }

  function Meanings(lines: seq<Line>): (m: seq<Item>)
    ensures |m| == |lines|
  {
    seq(|lines|, k requires 0 <= k < |lines| => Meaning(lines[k]))
  }

  /** What a caller should see of a helper that says `lines`: its output in order, ended by the first terminal. */
  function View(lines: seq<Line>): seq<Item> { Cut(Meanings(lines)) }

  lemma ViewGrows(lines: seq<Line>, line: Line)
    ensures View(lines + [line]) == if NoTerminal(Meanings(lines)) then View(lines) + [Meaning(line)] else View(lines)
    ensures View(lines) <= View(lines + [line])
  {
    assert Meanings(lines + [line]) == Meanings(lines) + [Meaning(line)];
    CutIsWellFormed(Meanings(lines));
    if NoTerminal(Meanings(lines)) {
      CutOfClean(Meanings(lines), [Meaning(line)]);
    } else {
      CutOfFinished(Meanings(lines), [Meaning(line)]);
    }
  }

  /** The reader task and the pump it feeds. */
  class Attachment {
    const pump: Pump
    var terminal: bool
    var reading: bool
    ghost var lines: seq<Line>

    ghost predicate Valid()
      reads this, pump
    {
      && pump.Valid()
      && pump.closed == !reading
      && Tracks(pump.queue, lines, terminal, reading, pump.done)
      && (pump.held && pump.done && pump.report == [] ==> EndsInTerminal(pump.relayed))
    }

    constructor (tty: bool)
      ensures Valid() && fresh(pump) && lines == []
      ensures pump.held && pump.backend == Apple(tty) && pump.delivered == [] && !pump.done && pump.report == []
        && pump.queue == []
    {
      pump := new Pump(Apple(tty));
      terminal, reading := false, true;
      lines := [];
    }

    /** Passes an item on; the reader stops when it should or when nobody listens. */
    method Emit(item: Item, stop: bool)
      requires pump.Valid() && reading && !pump.closed
      modifies this`reading, pump`queue, pump`closed
      ensures pump.Valid() && pump.closed == !reading
      ensures reading == (!pump.done && !stop)
      ensures pump.queue == if pump.done then old(pump.queue) else old(pump.queue) + [item]
    {
      if pump.done {
        reading := false;
      } else {
        pump.Offer(item);
        reading := !stop;
      }
      if !reading { pump.Hangup(); }
    }

    /** One pass of the reader's loop. */
    method ReadLine(line: Line)
      requires Valid()
      modifies this, pump`queue, pump`closed
      ensures Valid() && lines == old(lines) + [line]
      ensures old(reading && !terminal && !pump.done) ==> pump.queue == old(pump.queue) + [Meaning(line)]
    {
      lines := lines + [line];
      if !reading || pump.done {
        NotListening(pump.queue, old(lines), line, terminal, reading, pump.done);
        if reading {
          reading := false;
          pump.Hangup();
        }
        return;
      }
      if terminal {
        ReadAfterTerminal(line);
      } else {
        BeforeTerminal(pump.queue, old(lines), line);
        var item := Meaning(line);
        if item.Ok? { terminal := item.value.Exit?; }
        Emit(item, item.Err?);
      }
    }

    /** One pass of the pump's loop. */
    method Select(turn: Turn)
      requires Valid() && !pump.done && pump.report == []
      modifies pump
      ensures Valid() && pump.queue == old(pump.queue)
      ensures pump.held == (old(pump.held) && Held(turn))
      ensures pump.report != [] ==> pump.done && InputFails(pump.backend, turn)
      ensures InputFails(pump.backend, turn) ==> pump.done
      ensures pump.done
        || pump.next == (if turn.Output? && old(pump.next) < |pump.queue| then old(pump.next) + 1 else old(pump.next))
    {
      ghost var stopped := !reading;
      assert stopped ==> !NoTerminal(pump.queue);
      pump.Step(turn);
      if pump.held && pump.done && pump.report == [] && stopped && pump.next == |pump.queue| {
        assert pump.queue[..pump.next] == pump.queue;
        LastIsTerminal(pump.queue);
      }
    }

    method ReadAfterTerminal(line: Line)
      requires pump.Valid() && !pump.closed && reading && terminal && !pump.done
      requires lines != [] && line == lines[|lines| - 1] && Tracks(pump.queue, lines[..|lines| - 1], true, true, false)
      modifies this`reading, pump`queue, pump`closed
      ensures Valid() && !reading
    {
      var error := if line.Unreadable? then CommandIo("gascan-apple-attach", line.message)
        else InvalidOutput("gascan-apple-attach", "frame received after terminal event");
      AfterTerminal(pump.queue, lines[..|lines| - 1], line, error);
      assert lines[..|lines| - 1] + [line] == lines;
      if line.EndOfOutput? {
        reading := false;
        pump.Hangup();
      } else {
        Emit(Err(error), true);
      }
    }
  }

  /**
   * What the reader has handed over, given the lines it has read: while it reads and is heard, exactly their meanings;
   * once it has seen a terminal or stopped, the first terminal is in the queue.
   */
  ghost predicate Tracks(queue: seq<Item>, lines: seq<Line>, terminal: bool, reading: bool, done: bool) {
    && |queue| <= |lines|
    && Cut(queue) <= View(lines)
    && (terminal || !reading ==> !NoTerminal(queue) || done)
    && (reading && !terminal && !done ==> queue == Meanings(lines) && NoTerminal(queue))
  }

  lemma NotListening(queue: seq<Item>, lines: seq<Line>, line: Line, terminal: bool, reading: bool, done: bool)
    requires Tracks(queue, lines, terminal, reading, done) && (!reading || done)
    ensures Tracks(queue, lines + [line], terminal, false, done)
  {
    ViewGrows(lines, line);
    PrefixOfLonger(Cut(queue), View(lines), View(lines + [line]));
  }

  lemma AfterTerminal(queue: seq<Item>, lines: seq<Line>, line: Line, error: RuntimeError)
    requires Tracks(queue, lines, true, true, false)
    ensures Tracks(queue, lines + [line], true, false, false)
    ensures Tracks(queue + [Err(error)], lines + [line], true, false, false)
  {
    ViewGrows(lines, line);
    PrefixOfLonger(Cut(queue), View(lines), View(lines + [line]));
    QueueGrew(queue, queue + [Err(error)]);
  }

  lemma BeforeTerminal(queue: seq<Item>, lines: seq<Line>, line: Line)
    requires Tracks(queue, lines, false, true, false)
    ensures var item := Meaning(line);
      Tracks(queue + [item], lines + [line], item.Ok? && item.value.Exit?, item.Ok?, false)
  {
    ViewGrows(lines, line);
    MeaningsGrow(lines, line);
    CutIsWellFormed(Meanings(lines));
    QueueGrew(queue, queue + [Meaning(line)]);
    assert (queue + [Meaning(line)])[|queue|] == Meaning(line);
  }

  lemma MeaningsGrow(lines: seq<Line>, line: Line)
    ensures Meanings(lines + [line]) == Meanings(lines) + [Meaning(line)]
  {
  }

  // ------------------------------------------------------------------------- whole runs

  function LinesOf(events: seq<Event>): seq<Line> {
    if events == [] then []
    else
      var last := events[|events| - 1];
      LinesOf(events[..|events| - 1]) + (if last.Hear? then [last.source] else [])
  }

  /**
   * Any interleaving of the reader, the pump, the caller and cancellation. Every caller sees helper output in order
   * with at most one terminal, last. A caller that keeps its session sees exactly what the helper said and, when the
   * pump ends, exactly one terminal; once output has been drained nothing is missing, so a helper that has ended has
   * ended the pump too. Input that fails ends it in any case, for a caller that keeps its session with an error.
   */
  method Session(tty: bool, start: Start, events: seq<Event>) returns (delivered: seq<Item>, done: bool)
    ensures Grammar(delivered, done)
    ensures RelaysInOrder(delivered, View(LinesOf(events)))
    ensures HeldRun(start, events) ==>
      Shown(delivered, done, View(LinesOf(events)), InputFailed(Apple(tty), start, events))
    ensures HeldRun(start, events) && done ==> EndsInTerminal(delivered)
    ensures InputFailed(Apple(tty), start, events) ==> done
    ensures HeldRun(start, events) && !InputFailed(Apple(tty), start, events) && Draining(events) >= |LinesOf(events)|
        ==> delivered == View(LinesOf(events))
  {
    var attachment := new Attachment(tty);
    var pump := attachment.pump;
    pump.Begin(start);
    for n := 0 to |events|
      invariant attachment.Valid() && attachment.lines == LinesOf(events[..n])
      invariant HeldRun(start, events[..n]) ==> pump.held
      invariant pump.backend == Apple(tty)
      invariant pump.report != [] ==> pump.done && InputFailed(Apple(tty), start, events[..n])
      invariant InputFailed(Apple(tty), start, events[..n]) ==> pump.done
      invariant pump.done || Draining(events[..n]) <= pump.next || pump.next == |pump.queue|
    {
      OneMoreEvent(Apple(tty), start, events, n);
      match events[n]
      case Hear(line) =>
        attachment.ReadLine(line);
      case Select(turn) =>
        if !pump.done {
          attachment.Select(turn);
        }
    }
    assert events[..|events|] == events;
    Concluded(attachment);
    if HeldRun(start, events) { HeldConcluded(attachment); }
    return pump.delivered, pump.done;
  }

  /** The end of any run, from the states of its reader and its pump. */
  lemma Concluded(a: Attachment)
    requires a.Valid()
    ensures Grammar(a.pump.delivered, a.pump.done)
    ensures a.pump.queue[..a.pump.next] <= View(a.lines)
    ensures RelaysInOrder(a.pump.delivered, View(a.lines))
  {
    var p := a.pump;
    var taken := p.queue[..p.next];
    PrefixIsCut(taken, p.queue);
    PrefixOfLonger(taken, Cut(p.queue), View(a.lines));
    SubsequenceOfLonger(p.relayed, taken, View(a.lines));
    Reported(p.relayed, p.report, p.done);
  }

  /** The end of a run whose caller kept the session. */
  lemma HeldConcluded(a: Attachment)
    requires a.Valid() && a.pump.held
    ensures Shown(a.pump.delivered, a.pump.done, View(a.lines), a.pump.report != [])
    ensures a.pump.done ==> EndsInTerminal(a.pump.delivered)
    ensures !a.pump.done && a.pump.next == |a.pump.queue| ==> a.pump.delivered == View(a.lines)
  {
    var p := a.pump;
    Concluded(a);
    Reported(p.relayed, p.report, p.done);
    CutIsWellFormed(Meanings(a.lines));
    assert p.queue[..|p.queue|] == p.queue;
    if EndsInTerminal(p.relayed) { TerminalPrefix(p.relayed, View(a.lines)); }
    if p.next == |p.queue| { WholeQueueTaken(a); }
  }

  /** A pump that has taken everything and goes on has seen no terminal. */
  lemma WholeQueueTaken(a: Attachment)
    requires a.Valid() && a.pump.held && a.pump.next == |a.pump.queue|
    ensures !a.pump.done ==> NoTerminal(a.pump.queue) && a.reading && !a.terminal
  {
    assert a.pump.queue[..a.pump.next] == a.pump.queue;
    if !a.pump.done && !NoTerminal(a.pump.queue) { LastIsTerminal(a.pump.queue); }
  }
}
