// The exec pump both backends run: one task that selects between cancellation, the caller's input and the guest's
// output (crates/gascan-apple/src/backend.rs, crates/gascan-arca/src/backend.rs).
module ExecPump {
  import opened Wrappers
  import opened Bytes
  import opened Resources

  datatype ExecInput = Stdin(bytes: seq<byte>) | Resize(columns: nat, rows: nat) | Signal(signal: int) | Close

  datatype ExecOutput = Stdout(bytes: seq<byte>) | Stderr(bytes: seq<byte>) | Exit(code: int, exitSignal: int)

  type Item = Result<ExecOutput, RuntimeError>

  predicate IsTerminal(item: Item) { item.Err? || item.value.Exit? }

  datatype Backend = Apple(tty: bool) | Arca

  /** How a send that races the cancellation watch resolves. */
  datatype Race = Sent | Failed(error: RuntimeError) | Interrupted(cancelled: bool)

  /** The branch a pass through the select takes. `heard` says whether the caller still receives. */
  datatype Turn =
    | Watch(cancelled: bool)
    | Input(frame: Option<ExecInput>, sending: Race, heard: bool)
    | Output(delivery: Race)

  /** The write made before the loop, when there is initial input. */
  datatype Start = Start(initial: seq<byte>, sending: Race, heard: bool)

  predicate HeldStart(start: Start) { start.initial != [] ==> !start.sending.Interrupted? && start.heard }

  predicate StartFails(start: Start) { start.initial != [] && start.sending.Failed? }

  /** An input frame the Apple attachment refuses before anything is written. */
  function Refusal(backend: Backend, frame: ExecInput): Option<RuntimeError> {
    match backend
    case Arca => None
    case Apple(tty) =>
      match frame
      case Resize(columns, rows) =>
        if columns > 0xffff || rows > 0xffff then Some(UnsupportedCapability("attachment size"))
        else if !tty then Some(UnsupportedCapability("resize requires a TTY attachment"))
        else None
      case Signal(signal) => if signal == 2 && tty then None else Some(UnsupportedCapability("attachment signal"))
      case _ => None
  }

  /** The turns a session can take while its caller keeps it and does not cancel it. */
  predicate Held(turn: Turn) {
    match turn
    case Watch(_) => false
    case Input(frame, sending, heard) => frame.Some? && !sending.Interrupted? && heard
    case Output(delivery) => delivery == Sent
  }

  /** A send interrupted by a watch that does not ask for cancellation counts as made. */
  predicate Accepted(delivery: Race) { delivery == Sent || delivery == Interrupted(false) }

  predicate InputFails(backend: Backend, turn: Turn) {
    && turn.Input?
    && turn.frame.Some?
    && (Refusal(backend, turn.frame.value).Some? || turn.sending.Failed?)
  }

  // ------------------------------------------------------------------------- whole runs

  /** One event of a session: the pump's source gives something, or the pump makes a pass. */
  datatype Event<T> = Hear(source: T) | Select(turn: Turn)

  /** How many passes in a row, up to the end, chose the output branch. */
  ghost function Draining<T>(events: seq<Event<T>>): nat {
    if events == [] then 0
    else
      var last := events[|events| - 1];
      if last.Select? && last.turn.Output? then 1 + Draining(events[..|events| - 1]) else 0
  }

  /** The session was neither cancelled nor dropped. */
  ghost predicate HeldRun<T>(start: Start, events: seq<Event<T>>) {
    HeldStart(start) && forall e | e in events && e.Select? :: Held(e.turn)
  }

  ghost predicate InputFailed<T>(backend: Backend, start: Start, events: seq<Event<T>>) {
    StartFails(start) || exists e :: e in events && e.Select? && InputFails(backend, e.turn)
  }

  lemma OneMoreEvent<T>(backend: Backend, start: Start, events: seq<Event<T>>, n: nat)
    requires n < |events|
    ensures var before, after, e := events[..n], events[..n + 1], events[n];
      && after[..n] == before
      && Draining(after) == (if e.Select? && e.turn.Output? then 1 + Draining(before) else 0)
      && (HeldRun(start, after) <==> HeldRun(start, before) && (e.Select? ==> Held(e.turn)))
      && (InputFailed(backend, start, after)
          <==> InputFailed(backend, start, before) || (e.Select? && InputFails(backend, e.turn)))
  {
    assert events[..n + 1] == events[..n] + [events[n]];
    assert events[..n + 1][..n] == events[..n];
  }

  // ------------------------------------------------------------------ sequences of items

  predicate NoTerminal(s: seq<Item>) { forall i | 0 <= i < |s| :: !IsTerminal(s[i]) }

  /** At most one terminal, and nothing after it. */
  predicate TerminalIsLast(s: seq<Item>) { s == [] || NoTerminal(s[..|s| - 1]) }

  predicate EndsInTerminal(s: seq<Item>) { s != [] && IsTerminal(s[|s| - 1]) }

  /** The items up to and including the first terminal. */
  function Cut(s: seq<Item>): seq<Item> {
    if s == [] then [] else if IsTerminal(s[0]) then [s[0]] else [s[0]] + Cut(s[1..])
  }

  lemma {:induction false} CutOfClean(s: seq<Item>, rest: seq<Item>)
    requires NoTerminal(s)
    ensures Cut(s + rest) == s + Cut(rest)
  {
    if s == [] {
      assert s + rest == rest;
    } else {
      assert (s + rest)[1..] == s[1..] + rest;
      CutOfClean(s[1..], rest);
    }
  }

  lemma {:induction false} CutOfFinished(s: seq<Item>, rest: seq<Item>)
    requires !NoTerminal(s)
    ensures Cut(s + rest) == Cut(s)
  {
    assert (s + rest)[0] == s[0];
    if !IsTerminal(s[0]) {
      assert forall i | 1 <= i < |s| :: s[i] == s[1..][i - 1];
      assert (s + rest)[1..] == s[1..] + rest;
      CutOfFinished(s[1..], rest);
    }
  }

  lemma {:induction false} CutIsWellFormed(s: seq<Item>)
    ensures Cut(s) <= s && TerminalIsLast(Cut(s))
    ensures EndsInTerminal(Cut(s)) <==> !NoTerminal(s)
    ensures NoTerminal(s) ==> Cut(s) == s
  {
    if s != [] && !IsTerminal(s[0]) {
      CutIsWellFormed(s[1..]);
      var rest := Cut(s[1..]);
      assert forall i | 1 <= i < |s| :: s[i] == s[1..][i - 1];
      assert Cut(s) == [s[0]] + rest;
      assert rest != [] ==> Cut(s)[..|rest|] == [s[0]] + rest[..|rest| - 1];
    }
  }

  lemma OneMoreItem(s: seq<Item>, x: Item)
    requires TerminalIsLast(s) && !EndsInTerminal(s)
    ensures NoTerminal(s) && TerminalIsLast(s + [x]) && (EndsInTerminal(s + [x]) <==> IsTerminal(x))
  {
    assert (s + [x])[..|s|] == s;
    assert s != [] ==> s == s[..|s| - 1] + [s[|s| - 1]];
  }

  /** A prefix that stops at the first terminal is the cut. */
  lemma PrefixIsCut(p: seq<Item>, s: seq<Item>)
    requires p <= s && TerminalIsLast(p)
    ensures p <= Cut(s)
    ensures EndsInTerminal(p) ==> p == Cut(s)
  {
    assert s == p + s[|p|..];
    if p != [] {
      var init := p[..|p| - 1];
      var rest := [p[|p| - 1]] + s[|p|..];
      assert s == init + rest;
      CutOfClean(init, rest);
      assert p == init + [rest[0]];
    }
  }

  lemma PrefixOfLonger(a: seq<Item>, b: seq<Item>, c: seq<Item>)
    requires a <= b && b <= c
    ensures a <= c
  {
  }

  lemma QueueGrew(before: seq<Item>, after: seq<Item>)
    requires |after| == |before| + 1 && before <= after
    ensures NoTerminal(before) ==> Cut(after) == after
    ensures !NoTerminal(before) ==> Cut(after) == Cut(before) && !NoTerminal(after)
  {
    var last := [after[|before|]];
    assert after == before + last;
    if NoTerminal(before) {
      CutOfClean(before, last);
    } else {
      CutOfFinished(before, last);
      var k :| 0 <= k < |before| && IsTerminal(before[k]);
      assert after[k] == before[k];
    }
  }

  lemma LastIsTerminal(s: seq<Item>)
    requires TerminalIsLast(s) && !NoTerminal(s)
    ensures EndsInTerminal(s)
  {
    if !EndsInTerminal(s) { OneMoreItem(s, s[0]); }
  }

  lemma TerminalPrefix(p: seq<Item>, view: seq<Item>)
    requires p <= view && TerminalIsLast(view) && EndsInTerminal(p)
    ensures p == view
  {
  }

  predicate Subsequence(a: seq<Item>, b: seq<Item>)
    decreases |b|
  {
    || a == []
    || (&& b != []
        && (|| Subsequence(a, b[..|b| - 1])
            || (a[|a| - 1] == b[|b| - 1] && Subsequence(a[..|a| - 1], b[..|b| - 1]))))
  }

  lemma SubsequenceGrows(a: seq<Item>, b: seq<Item>, x: Item)
    requires Subsequence(a, b)
    ensures Subsequence(a, b + [x]) && Subsequence(a + [x], b + [x])
  {
    assert (b + [x])[..|b|] == b && (a + [x])[..|a|] == a;
  }

  lemma {:induction false} SubsequenceOfLonger(a: seq<Item>, b: seq<Item>, c: seq<Item>)
    requires Subsequence(a, b) && b <= c
    ensures Subsequence(a, c)
    decreases |c|
  {
    if b != c {
      var init := c[..|c| - 1];
      assert b <= init;
      SubsequenceOfLonger(a, b, init);
      SubsequenceGrows(a, init, c[|c| - 1]);
      assert init + [c[|c| - 1]] == c;
    }
  }

  /** What a caller was given comes from `view` in order, but for one error about its own input at the end. */
  predicate RelaysInOrder(delivered: seq<Item>, view: seq<Item>) {
    || Subsequence(delivered, view)
    || (&& delivered != []
        && delivered[|delivered| - 1].Err?
        && Subsequence(delivered[..|delivered| - 1], view))
  }

  /** The grammar every caller can rely on: at most one terminal, only as the last item, only once the pump is over. */
  predicate Grammar(delivered: seq<Item>, done: bool) {
    TerminalIsLast(delivered) && (EndsInTerminal(delivered) ==> done)
  }

  /**
   * What a caller that keeps its session is shown of `view`: a prefix while the pump runs; at the end all that precedes
   * the last item, and all of `view` unless the caller's own input failed.
   */
  predicate Shown(delivered: seq<Item>, done: bool, view: seq<Item>, inputFailed: bool) {
    && (!done ==> delivered <= view)
    && (done && !inputFailed ==> delivered == view)
    && (done && inputFailed ==>
      || delivered == view
      || (delivered != [] && delivered[|delivered| - 1].Err? && delivered[..|delivered| - 1] <= view))
  }

  lemma Reported(relayed: seq<Item>, report: seq<Item>, done: bool)
    requires Grammar(relayed, done)
    requires report != [] ==> done && |report| == 1 && report[0].Err? && NoTerminal(relayed)
    ensures Grammar(relayed + report, done)
    ensures report == [] ==> relayed + report == relayed
    ensures report != []
      ==> (relayed + report)[..|relayed + report| - 1] == relayed && (relayed + report)[|relayed|].Err?
  {
    assert relayed + [] == relayed;
  }

  /** What has been passed on out of what has been taken. */
  ghost predicate Relay(relayed: seq<Item>, taken: seq<Item>, done: bool, held: bool) {
    && Subsequence(relayed, taken)
    && Grammar(taken, done)
    && Grammar(relayed, done)
    && (held ==> relayed == taken)
  }

  /** Taking one more item keeps this, whether it is passed on or lost. */
  lemma RelayStep(relayed: seq<Item>, taken: seq<Item>, held: bool, item: Item, passed: bool, done: bool)
    requires Relay(relayed, taken, false, held) && (held ==> passed) && (IsTerminal(item) ==> done)
    ensures Relay(if passed then relayed + [item] else relayed, taken + [item], done, held)
  {
    SubsequenceGrows(relayed, taken, item);
    OneMoreItem(taken, item);
    OneMoreItem(relayed, item);
  }

  // ------------------------------------------------------------------------------- pump

  class Pump {
    const backend: Backend
    /** Everything the guest side has offered; the first `next` items have been taken. */
    var queue: seq<Item>
    var next: nat
    var closed: bool
    var delivered: seq<Item>
    var done: bool
    ghost var relayed: seq<Item>
    ghost var report: seq<Item>
    ghost var held: bool

    ghost predicate Valid()
      reads this
    {
      && next <= |queue|
      && delivered == relayed + report
      && (report != [] ==> done && |report| == 1 && report[0].Err? && NoTerminal(relayed))
      && Relay(relayed, queue[..next], done, held)
      && (held && done && report == [] ==> EndsInTerminal(relayed) || (closed && next == |queue|))
    }

    constructor (backend: Backend)
      ensures Valid() && this.backend == backend && held
      ensures queue == [] && !closed && delivered == [] && !done && report == []
    {
      this.backend := backend;
      queue, next, closed, delivered, done := [], 0, false, [], false;
      relayed, report, held := [], [], true;
    }

    /** The effect of the output branch: nothing when it is not ready, the end when the source is exhausted. */
    ghost predicate Took(from: nat, before: seq<Item>, delivery: Race)
      reads this
    {
      if from >= |queue| then next == from && delivered == before && done == closed
      else
        var item := queue[from];
        && next == from + 1
        && delivered == (if delivery == Sent then before + [item] else before)
        && done == (!Accepted(delivery) || IsTerminal(item))
    }

    /** The effect of the input branch: only a failure is answered, and only a failure or a loss ends the pump. */
    ghost predicate Answered(before: seq<Item>, turn: Turn)
      requires turn.Input?
      reads this
    {
      if InputFails(backend, turn) then
        && done
        && (if turn.heard then |delivered| == |before| + 1 && before < delivered && delivered[|before|].Err?
            else delivered == before)
      else delivered == before && done == (turn.frame.None? || turn.sending == Interrupted(true))
    }

    /** The guest side hands over one more item; a pump that is over takes nothing. */
    method Offer(item: Item)
      requires Valid() && !done && !closed
      modifies this`queue
      ensures Valid() && queue == old(queue) + [item]
    {
      queue := queue + [item];
      assert queue[..next] == old(queue)[..next];
    }

    method Hangup()
      requires Valid()
      modifies this`closed
      ensures Valid() && closed
    {
      closed := true;
    }

    /** The first write, before the loop: only a non-empty initial input is sent. */
    method Begin(start: Start)
      requires Valid() && !done && report == []
      modifies this
      ensures Valid() && queue == old(queue) && closed == old(closed) && next == old(next)
      ensures held == (old(held) && HeldStart(start))
      ensures (report != [] ==> StartFails(start)) && (report == [] ==> delivered == old(delivered))
      ensures StartFails(start) && start.heard ==> report != []
      ensures done == (StartFails(start) || (start.initial != [] && start.sending == Interrupted(true)))
    {
      if start.initial != [] {
        held := held && HeldStart(start);
        match start.sending
        case Sent => {}
        case Failed(error) => { Fail(error, start.heard); }
        case Interrupted(cancelled) => { if cancelled { done := true; } }
      }
    }

    /** Reports an input error and ends the pump. */
    method Fail(error: RuntimeError, heard: bool)
      requires Valid() && !done && report == [] && (held ==> heard)
      modifies this
      ensures Valid() && queue == old(queue) && closed == old(closed) && held == old(held)
      ensures done && next == old(next)
      ensures delivered == if heard then old(delivered) + [Err(error)] else old(delivered)
      ensures report == if heard then [Err(error)] else []
    {
      if heard {
        report := [Err(error)];
        delivered := delivered + [Err(error)];
      }
      done := true;
    }

    /** One pass through the select. A branch that is not ready is not taken. */
    method Step(turn: Turn)
      requires Valid() && !done && report == []
      modifies this
      ensures Valid() && queue == old(queue) && closed == old(closed)
      ensures held == (old(held) && Held(turn))
      ensures report != [] ==> InputFails(backend, turn)
      ensures turn.Output? ==> Took(old(next), old(delivered), turn.delivery)
      ensures turn.Input? ==> next == old(next) && Answered(old(delivered), turn)
      ensures turn.Watch? ==> next == old(next) && delivered == old(delivered) && done == turn.cancelled
    {
      match turn
      case Watch(cancelled) =>
        held := false;
        if cancelled { done := true; }
      case Input(frame, sending, heard) =>
        held := held && Held(turn);
        TakeInput(frame, sending, heard);
      case Output(delivery) =>
        held := held && Held(turn);
        TakeOutput(delivery);
    }

    method TakeInput(frame: Option<ExecInput>, sending: Race, heard: bool)
      requires Valid() && !done && report == [] && (held ==> Held(Input(frame, sending, heard)))
      modifies this
      ensures Valid() && queue == old(queue) && closed == old(closed) && held == old(held)
      ensures report != [] ==> InputFails(backend, Input(frame, sending, heard))
      ensures next == old(next) && Answered(old(delivered), Input(frame, sending, heard))
    {
      if frame.None? {
        done := true;
        return;
      }
      var refusal := Refusal(backend, frame.value);
      if refusal.Some? {
        Fail(refusal.value, heard);
        return;
      }
      match sending
      case Sent => {}
      case Failed(error) => { Fail(error, heard); }
      case Interrupted(cancelled) => { if cancelled { done := true; } }
    }

    method TakeOutput(delivery: Race)
      requires Valid() && !done && report == [] && (held ==> delivery == Sent)
      modifies this
      ensures Valid() && queue == old(queue) && closed == old(closed) && held == old(held) && report == []
      ensures Took(old(next), old(delivered), delivery)
    {
      if next == |queue| {
        if closed { done := true; }
        return;
      }
      var item := queue[next];
      var accepted := Accepted(delivery);
      assert queue[..next + 1] == queue[..next] + [item];
      RelayStep(relayed, queue[..next], held, item, delivery == Sent, !accepted || IsTerminal(item));
      next := next + 1;
      if delivery == Sent {
        delivered := delivered + [item];
        relayed := relayed + [item];
      }
      if !accepted || IsTerminal(item) { done := true; }
    }
  }
}
