// The Arca exec stream (crates/gascan-arca/src/backend.rs): the same pump fed straight from the engine's frames.
module ArcaExec {
  import opened Wrappers
  import opened Bytes
  import opened Resources
  import opened ExecPump

  /** What receiving from the engine can give, other than the end of the stream. */
  datatype EngineItem =
    | EngineStdout(bytes: seq<byte>)
    | EngineStderr(bytes: seq<byte>)
    | EngineExit(code: int, signal: int)
    | EngineFailure(failure: RuntimeError)
    | EmptyFrame
    | TransportFailure(failure: RuntimeError)

  /** What the pump hears: the engine's frames and, as `None`, the end of its stream. */
  type Event = ExecPump.Event<Option<EngineItem>>

  function Meaning(item: EngineItem): Item {
    match item
    case EngineStdout(bytes) => Ok(Stdout(bytes))
    case EngineStderr(bytes) => Ok(Stderr(bytes))
    case EngineExit(code, signal) => Ok(Exit(code, signal))
    case EngineFailure(failure) => Err(failure)
    case EmptyFrame => Err(InvalidOutput("exec", "response carried no outcome"))
    case TransportFailure(failure) => Err(failure)
  }

  predicate Ended(events: seq<Event>) { Hear(None) in events }

  /** What the engine said before it ended the stream. */
  function Said(events: seq<Event>): seq<Item> {
    if events == [] then []
    else
      var before, last := events[..|events| - 1], events[|events| - 1];
      if last.Hear? && last.source.Some? && !Ended(before) then Said(before) + [Meaning(last.source.value)]
      else Said(before)
  }

  /**
   * Any interleaving: at most one terminal, last, after engine output in order. A caller that keeps its session sees
   * exactly what the engine said up to its first terminal. Once the engine has ended its stream and what it said has
   * been drained, the pump is over. Unlike the Apple pump, this one can then end with no terminal: exactly when the
   * engine sent none before ending the stream. Input that fails ends it in any case.
   */
  method Session(start: Start, events: seq<Event>) returns (delivered: seq<Item>, done: bool)
    ensures Grammar(delivered, done)
    ensures RelaysInOrder(delivered, Cut(Said(events)))
    ensures HeldRun(start, events) ==> Shown(delivered, done, Cut(Said(events)), InputFailed(Arca, start, events))
    ensures HeldRun(start, events) && done && !EndsInTerminal(delivered)
      ==> Ended(events) && NoTerminal(Said(events)) && delivered == Said(events)
    ensures HeldRun(start, events) && !InputFailed(Arca, start, events) && Draining(events) >= |Said(events)|
        ==> delivered == Cut(Said(events))
    ensures InputFailed(Arca, start, events) ==> done
    ensures Ended(events) && Draining(events) > |Said(events)| ==> done
    ensures HeldRun(start, events) && !InputFailed(Arca, start, events) && Draining(events) >= |Said(events)|
        ==> (EndsInTerminal(delivered) <==> !NoTerminal(Said(events)))
  {
    var pump := new Pump(Arca);
    pump.Begin(start);
    for n := 0 to |events|
      invariant pump.Valid() && pump.backend == Arca
      invariant HeldRun(start, events[..n]) ==> pump.held
      invariant pump.report != [] ==> pump.done && InputFailed(Arca, start, events[..n])
      invariant InputFailed(Arca, start, events[..n]) ==> pump.done
      invariant pump.done || Draining(events[..n]) <= pump.next || pump.next == |pump.queue|
      invariant pump.done || !pump.closed || Draining(events[..n]) <= pump.next
      invariant pump.closed ==> Ended(events[..n])
      invariant pump.queue <= Said(events[..n])
      invariant !pump.done || pump.closed ==> pump.queue == Said(events[..n]) && pump.closed == Ended(events[..n])
    {
      OneMoreEvent(Arca, start, events, n);
      OneMoreSaid(events, n);
      Advance(pump, events[n]);
    }
    assert events[..|events|] == events;
    Concluded(pump, Said(events));
    CutIsWellFormed(Said(events));
    return pump.delivered, pump.done;
  }

  /** One event; a pump that is over hears nothing more. */
  method Advance(pump: Pump, e: Event)
    requires pump.Valid() && pump.backend == Arca && (pump.report != [] ==> pump.done)
    modifies pump
    ensures pump.Valid() && (old(pump.done) ==> pump.done)
    ensures old(pump.held) && (e.Select? ==> Held(e.turn)) ==> pump.held
    ensures pump.report != [] ==> pump.done && (old(pump.report) != [] || (e.Select? && InputFails(Arca, e.turn)))
    ensures e.Select? && InputFails(Arca, e.turn) ==> pump.done
    ensures pump.closed == (old(pump.closed) || (e == Hear(None) && !old(pump.done)))
    ensures pump.queue == if e.Hear? && e.source.Some? && !old(pump.done) && !old(pump.closed)
      then old(pump.queue) + [Meaning(e.source.value)] else old(pump.queue)
    ensures e.Select? && e.turn.Output? && old(pump.closed) && old(pump.next) == |pump.queue| ==> pump.done
    ensures pump.done
      || pump.next == (if e.Select? && e.turn.Output? && old(pump.next) < |pump.queue| then old(pump.next) + 1
      else old(pump.next))
  {
    if pump.done { return; }
    match e
    case Hear(Some(item)) => if !pump.closed { pump.Offer(Meaning(item)); }
    case Hear(None) => pump.Hangup();
    case Select(turn) => pump.Step(turn);
  }

  lemma OneMoreSaid(events: seq<Event>, n: nat)
    requires n < |events|
    ensures var before, after, e := events[..n], events[..n + 1], events[n];
      && (Ended(after) <==> Ended(before) || e == Hear(None))
      && Said(after) == (if e.Hear? && e.source.Some? && !Ended(before) then Said(before) + [Meaning(e.source.value)]
                         else Said(before))
  {
    assert events[..n + 1] == events[..n] + [events[n]];
    assert events[..n + 1][..n] == events[..n];
  }

  /** An engine that ends its stream without a word: the pump is over and the caller has been told nothing at all. */
  method SilentEnd() returns (delivered: seq<Item>, done: bool)
    ensures delivered == [] && done
  {
    var start := Start([], Sent, true);
    var events: seq<Event> := [Hear(None), Select(Output(Sent))];
    assert events[..1] == [Hear(None)] && events[..2] == events;
    OneMoreEvent(Arca, start, events, 0);
    OneMoreEvent(Arca, start, events, 1);
    OneMoreSaid(events, 0);
    OneMoreSaid(events, 1);
    delivered, done := Session(start, events);
  }

  lemma Concluded(p: Pump, said: seq<Item>)
    requires p.Valid() && p.queue <= said && (p.closed ==> p.queue == said)
    ensures Grammar(p.delivered, p.done)
    ensures RelaysInOrder(p.delivered, Cut(said))
    ensures p.held ==> Shown(p.delivered, p.done, Cut(said), p.report != [])
    ensures p.held && p.done && !EndsInTerminal(p.delivered) ==> p.closed && NoTerminal(said) && p.delivered == said
    ensures p.held && !p.done && p.next == |said| ==> p.delivered == Cut(said)
  {
    var taken := p.queue[..p.next];
    PrefixIsCut(taken, said);
    SubsequenceOfLonger(p.relayed, taken, Cut(said));
    Reported(p.relayed, p.report, p.done);
    CutIsWellFormed(said);
    if p.held && !p.done && p.next == |said| { WholeIsClean(said, taken); }
    if p.held && p.done && p.report == [] && !EndsInTerminal(taken) {
      assert taken == said;
      if !NoTerminal(said) { LastIsTerminal(said); }
    }
  }

  lemma WholeIsClean(said: seq<Item>, taken: seq<Item>)
    requires taken <= said && |taken| == |said| && Grammar(taken, false)
    ensures taken == said && NoTerminal(said)
  {
    if !NoTerminal(said) { LastIsTerminal(said); }
  }
}
