/**
 One streamed answer: a worker filling a queue, and a generator draining it.
 The steps are the stretches between awaits; where the code runs several pushes
 in one stretch, the model lets other steps come between them as well.
 */
module StreamProtocol {
  import opened Wrappers
  import opened Sequences
  import opened SseEncoding

  /** The phases of answering that report something. */
  datatype Stage = Retrieve | Generate | Sql | Validate | Execute | Rows

  /** What one request will produce, phase by phase, if nothing fails. */
  datatype Plan = Plan(explainOnly: bool, payload: Stage -> string)

  function EventName(stage: Stage): string {
    match stage
    case Sql => "sql"
    case Rows => "rows"
    case _ => "stage"
  }

  function Stages(explainOnly: bool): seq<Stage> {
    [Retrieve, Generate, Sql] + if explainOnly then [Validate] else [Execute, Rows]
  }

  function Script(p: Plan): (r: seq<ServerSentEvent>)
    ensures |r| == |Stages(p.explainOnly)|
    ensures forall i :: 0 <= i < |r| ==> r[i] == ReportOf(p, Stages(p.explainOnly)[i])
  {
    Map((s: Stage) => ReportOf(p, s), Stages(p.explainOnly))
  }

  function ReportOf(p: Plan, s: Stage): ServerSentEvent {
    ServerSentEvent(EventName(s), p.payload(s))
  }

  /** What a client can count on seeing, in order. */
  lemma ScriptOf(p: Plan)
    ensures Script(p) ==
            [ServerSentEvent("stage", p.payload(Retrieve)), ServerSentEvent("stage", p.payload(Generate)),
             ServerSentEvent("sql", p.payload(Sql))]
            + (if p.explainOnly then [ServerSentEvent("stage", p.payload(Validate))]
               else [ServerSentEvent("stage", p.payload(Execute)), ServerSentEvent("rows", p.payload(Rows))])
  {
    assert |Stages(true)| == 4 && |Stages(false)| == 5;
  }

  function Done(payload: string): ServerSentEvent {
    ServerSentEvent("done", payload)
  }

  function Failure(payload: string): ServerSentEvent {
    ServerSentEvent("error", payload)
  }

  /** What the queue holds: an event, or the `None` that ends the stream. */
  datatype Queued = Put(event: ServerSentEvent) | Sentinel

  datatype Ending = Completed(done: ServerSentEvent)
                  | Failed(sent: nat, error: ServerSentEvent)
                  | Cancelled(sent: nat, entered: bool)
                  | Crashed(sent: nat)

  datatype Worker = NotStarted | Running(sent: nat) | Ended(how: Ending)

  /** Why the generator left its loop: the sentinel, the client going away, or an event it could not encode. */
  datatype Exit = Drained | HungUp | Unencodable(event: ServerSentEvent)

  /** A generator closes by awaiting its worker; if that raises, the slot is never released. */
  datatype Phase = Open | Closing(exit: Exit) | Released(exit: Exit) | Leaked(exit: Exit)

  datatype Stream = Stream(plan: Plan, phase: Phase, worker: Worker, produced: seq<Queued>, queue: seq<Queued>,
                           wire: seq<Item>)

  datatype Move =
    | Start                  // the worker task first runs
    | Emit                   // the worker pushes its next event
    | Finish(done: string)   // the worker pushes `done` and the sentinel
    | Fail(error: string)    // the worker pushes `error` and the sentinel
    | Crash                  // the worker raises in a handler or while building `done`: the sentinel alone
    | Take                   // the generator takes the head of the queue
    | Beat                   // nothing arrived in time: a heartbeat
    | Close                  // the client left: at a poll, at a yield, or by cancellation
    | Cancel                 // the worker receives the cancellation
    | Release                // the worker has ended: the slot comes back
    | Leak                   // the worker has ended with an exception of its own, which skips the release

  function Entered(p: Plan): Stream {
    Stream(p, Open, NotStarted, [], [], [])
  }

  function Push(s: Stream, items: seq<Queued>, worker: Worker): Stream {
    s.(produced := s.produced + items, queue := s.queue + items, worker := worker)
  }

  predicate Enabled(s: Stream, m: Move) {
    match m
    case Start => s.phase.Open? && s.worker.NotStarted?
    case Emit => s.phase.Open? && s.worker.Running? && s.worker.sent < |Script(s.plan)|
    case Finish(_) => s.phase.Open? && s.worker == Running(|Script(s.plan)|)
    case Fail(_) => s.phase.Open? && s.worker.Running? && s.worker.sent < |Script(s.plan)|
    case Crash => s.phase.Open? && s.worker.Running?
    case Take => s.phase.Open? && s.queue != []
    case Beat => s.phase.Open?
    case Close => s.phase.Open?
    case Cancel => s.phase.Closing? && !s.worker.Ended?
    case Release => s.phase.Closing? && s.worker.Ended? && !s.worker.how.Crashed?
    case Leak => s.phase.Closing? && s.worker.Ended? && s.worker.how.Crashed?
  }

  function Taken(s: Stream): Stream
    requires s.queue != []
  {
    var rest := s.(queue := s.queue[1..]);
    match s.queue[0]
    case Sentinel => rest.(phase := Closing(Drained))
    case Put(e) =>
      if Encode(e).Ok? then rest.(wire := s.wire + [Event(e)]) else rest.(phase := Closing(Unencodable(e)))
  }

  /** The stream after a step; a step that cannot happen changes nothing. */
  function After(s: Stream, m: Move): Stream {
    if !Enabled(s, m) then s
    else
      match m
      case Start => s.(worker := Running(0))
      case Emit => Push(s, [Put(Script(s.plan)[s.worker.sent])], Running(s.worker.sent + 1))
      case Finish(p) => Push(s, [Put(Done(p)), Sentinel], Ended(Completed(Done(p))))
      case Fail(p) => Push(s, [Put(Failure(p)), Sentinel], Ended(Failed(s.worker.sent, Failure(p))))
      case Crash => Push(s, [Sentinel], Ended(Crashed(s.worker.sent)))
      case Take => Taken(s)
      case Beat => s.(wire := s.wire + [Heartbeat])
      case Close => s.(phase := Closing(HungUp))
      case Cancel =>
        if s.worker.Running? then Push(s, [Sentinel], Ended(Cancelled(s.worker.sent, true)))
        else s.(worker := Ended(Cancelled(0, false)))
      case Release => s.(phase := Released(s.phase.exit))
      case Leak => s.(phase := Leaked(s.phase.exit))
  }

  function AfterAll(s: Stream, moves: seq<Move>): Stream
    decreases |moves|
  {
    if moves == [] then s else AfterAll(After(s, moves[0]), moves[1..])
  }

  // ----- the invariant -----

  function Puts(events: seq<ServerSentEvent>): (r: seq<Queued>)
    ensures |r| == |events| && forall i :: 0 <= i < |r| ==> r[i] == Put(events[i])
  {
    Map((e: ServerSentEvent) => Put(e), events)
  }

  /** What the client was sent, heartbeats aside. */
  function EventsOf(wire: seq<Item>): seq<ServerSentEvent> {
    if wire == [] then []
    else
      var last := wire[|wire| - 1];
      EventsOf(wire[..|wire| - 1]) + if last.Event? then [last.event] else []
  }

  function Sent(script: seq<ServerSentEvent>, n: nat): seq<ServerSentEvent> {
    if n <= |script| then script[..n] else script
  }

  /** A prefix of the script, then at most one terminal event, then the sentinel. */
  function ProducedBy(script: seq<ServerSentEvent>, w: Worker): seq<Queued> {
    match w
    case NotStarted => []
    case Running(n) => Puts(Sent(script, n))
    case Ended(Completed(done)) => Puts(script + [done]) + [Sentinel]
    case Ended(Failed(n, error)) => Puts(Sent(script, n) + [error]) + [Sentinel]
    case Ended(Cancelled(n, entered)) => Puts(Sent(script, n)) + if entered then [Sentinel] else []
    case Ended(Crashed(n)) => Puts(Sent(script, n)) + [Sentinel]
  }

  predicate SentOk(script: seq<ServerSentEvent>, w: Worker) {
    match w
    case NotStarted => true
    case Running(n) => n <= |script|
    case Ended(Completed(done)) => done.name == "done"
    case Ended(Failed(n, error)) => n < |script| && error.name == "error"
    case Ended(Cancelled(n, _)) => n <= |script|
    case Ended(Crashed(n)) => n <= |script|
  }

  /** What left the queue without being sent. */
  function Dropped(phase: Phase): seq<Queued> {
    if phase.Open? || phase.exit.HungUp? then []
    else if phase.exit.Drained? then [Sentinel]
    else [Put(phase.exit.event)]
  }

  /** The worker ended with an exception of its own. */
  predicate WorkerCrashed(s: Stream) {
    s.worker.Ended? && s.worker.how.Crashed?
  }

  predicate WellEnded(s: Stream) {
    && (s.phase.Open? ==> !(s.worker.Ended? && s.worker.how.Cancelled?))
    && (s.phase.Released? ==> s.worker.Ended? && !s.worker.how.Crashed?)
    && (s.phase.Leaked? ==> s.worker.Ended? && s.worker.how.Crashed?)
    && (!s.phase.Open? && s.phase.exit.Drained? ==>
          s.queue == [] && s.worker.Ended? && !s.worker.how.Cancelled?)
  }

  predicate Invariant(s: Stream) {
    && SentOk(Script(s.plan), s.worker)
    && s.produced == ProducedBy(Script(s.plan), s.worker)
    && s.produced == Puts(EventsOf(s.wire)) + Dropped(s.phase) + s.queue
    && WellEnded(s)
    && Sendable(s.wire)
  }

  lemma EventsSnoc(wire: seq<Item>, item: Item)
    ensures EventsOf(wire + [item]) == EventsOf(wire) + if item.Event? then [item.event] else []
  {
    assert (wire + [item])[..|wire|] == wire;
  }

  lemma PutsSnoc(events: seq<ServerSentEvent>, e: ServerSentEvent)
    ensures Puts(events + [e]) == Puts(events) + [Put(e)]
  {
  }

  lemma SentNext(script: seq<ServerSentEvent>, n: nat)
    requires n < |script|
    ensures Sent(script, n + 1) == Sent(script, n) + [script[n]]
  {
  }

  /** The sentinel is the last thing produced, by a worker that has ended. */
  lemma SentinelIsLast(script: seq<ServerSentEvent>, w: Worker, before: seq<Queued>, after: seq<Queued>)
    requires ProducedBy(script, w) == before + [Sentinel] + after
    ensures after == [] && w.Ended?
  {
    var all := ProducedBy(script, w);
    assert all[|before|] == Sentinel;
  }

  /** What a push adds to the queue is what the worker's new state has produced beyond the old. */
  lemma PushKeepsInvariant(s: Stream, items: seq<Queued>, w: Worker)
    requires Invariant(s) && SentOk(Script(s.plan), w) && WellEnded(Push(s, items, w))
    requires ProducedBy(Script(s.plan), w) == ProducedBy(Script(s.plan), s.worker) + items
    ensures Invariant(Push(s, items, w))
  {
    hide Script, EventsOf, ProducedBy, SentOk, Puts, Dropped, WellEnded, Sendable;
  }

  lemma ProducedNext(script: seq<ServerSentEvent>, n: nat, e: ServerSentEvent)
    requires n <= |script|
    ensures n < |script| ==>
              ProducedBy(script, Running(n + 1)) == ProducedBy(script, Running(n)) + [Put(script[n])]
    ensures n < |script| ==>
              ProducedBy(script, Ended(Failed(n, e))) == ProducedBy(script, Running(n)) + [Put(e), Sentinel]
    ensures ProducedBy(script, Ended(Completed(e))) == ProducedBy(script, Running(|script|)) + [Put(e), Sentinel]
    ensures ProducedBy(script, Ended(Cancelled(n, true))) == ProducedBy(script, Running(n)) + [Sentinel]
    ensures ProducedBy(script, Ended(Crashed(n))) == ProducedBy(script, Running(n)) + [Sentinel]
  {
    if n < |script| {
      SentNext(script, n);
      PutsSnoc(Sent(script, n), script[n]);
    }
    PutsSnoc(Sent(script, n), e);
    PutsSnoc(script, e);
  }

  lemma WorkerStep(s: Stream, m: Move)
    requires Invariant(s) && Enabled(s, m) && (m.Start? || m.Emit? || m.Finish? || m.Fail? || m.Crash? || m.Cancel?)
    ensures Invariant(After(s, m))
  {
    hide Script, EventsOf, ProducedBy, Puts, Invariant, Dropped;
    var script := Script(s.plan);
    assert SentOk(script, s.worker) && WellEnded(s) by { WorkerIsSound(s); }
    if s.worker.NotStarted? {
      NotStartedStep(s, m);
    } else if m.Finish? {
      ProducedNext(script, s.worker.sent, Done(m.done));
      PushKeepsInvariant(s, [Put(Done(m.done)), Sentinel], Ended(Completed(Done(m.done))));
    } else if m.Fail? {
      ProducedNext(script, s.worker.sent, Failure(m.error));
      PushKeepsInvariant(s, [Put(Failure(m.error)), Sentinel], Ended(Failed(s.worker.sent, Failure(m.error))));
    } else if m.Crash? {
      ProducedNext(script, s.worker.sent, Failure(""));
      PushKeepsInvariant(s, [Sentinel], Ended(Crashed(s.worker.sent)));
    } else if m.Cancel? {
      ProducedNext(script, s.worker.sent, Failure(""));
      PushKeepsInvariant(s, [Sentinel], Ended(Cancelled(s.worker.sent, true)));
    } else {
      ProducedNext(script, s.worker.sent, Failure(""));
      PushKeepsInvariant(s, [Put(script[s.worker.sent])], Running(s.worker.sent + 1));
    }
  }

  lemma WorkerIsSound(s: Stream)
    requires Invariant(s)
    ensures SentOk(Script(s.plan), s.worker) && WellEnded(s)
  {
  }

  lemma NotStartedStep(s: Stream, m: Move)
    requires Invariant(s) && Enabled(s, m) && s.worker.NotStarted? && (m.Start? || m.Cancel?)
    ensures Invariant(After(s, m))
  {
    hide Script, EventsOf;
  }

  lemma TakeStep(s: Stream)
    requires Invariant(s) && Enabled(s, Take)
    ensures Invariant(After(s, Take))
  {
    hide Script, EventsOf, ProducedBy;
    var head, rest := s.queue[0], s.queue[1..];
    assert s.queue == [head] + rest;
    var sent := Puts(EventsOf(s.wire));
    assert sent + [] + s.queue == sent + [head] + rest;
    if head.Sentinel? {
      SentinelIsLast(Script(s.plan), s.worker, sent, rest);
    } else if Encode(head.event).Ok? {
      EventsSnoc(s.wire, Event(head.event));
      PutsSnoc(EventsOf(s.wire), head.event);
    }
  }

  lemma PhaseStep(s: Stream, m: Move)
    requires Invariant(s) && Enabled(s, m) && (m.Beat? || m.Close? || m.Release? || m.Leak?)
    ensures Invariant(After(s, m))
  {
    hide Script, EventsOf, ProducedBy;
    if m.Beat? { EventsSnoc(s.wire, Heartbeat); }
  }

  /** Every step keeps: yielded plus queued is what was produced, in order, and that follows the script. */
  lemma StepKeepsInvariant(s: Stream, m: Move)
    requires Invariant(s)
    ensures Invariant(After(s, m))
  {
    hide Invariant, Taken;
    if Enabled(s, m) {
      if m.Take? {
        TakeStep(s);
      } else if m.Beat? || m.Close? || m.Release? || m.Leak? {
        PhaseStep(s, m);
      } else {
        WorkerStep(s, m);
      }
    }
  }

  // ----- whole runs -----

  lemma {:induction false} RunKeepsInvariant(s: Stream, moves: seq<Move>)
    requires Invariant(s)
    ensures Invariant(AfterAll(s, moves)) && AfterAll(s, moves).plan == s.plan
    decreases |moves|
  {
    hide Invariant;
    if moves != [] {
      StepKeepsInvariant(s, moves[0]);
      RunKeepsInvariant(After(s, moves[0]), moves[1..]);
    }
  }

  lemma EnteredIsInvariant(p: Plan)
    ensures Invariant(Entered(p))
  {
  }
}
