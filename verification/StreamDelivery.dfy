/** What a stream that runs to its end has sent, and what the browser makes of it. */
module StreamDelivery {
  import opened Wrappers
  import opened Sequences
  import opened SseEncoding
  import opened StreamProtocol
  import SseFraming

  /** A stream that ended by its sentinel sent the whole script and `done`, or a proper prefix and `error`. */
  ghost predicate Complete(p: Plan, sent: seq<ServerSentEvent>) {
    || (exists done: ServerSentEvent :: done.name == "done" && sent == Script(p) + [done])
    || (exists n: nat, error: ServerSentEvent ::
          n < |Script(p)| && error.name == "error" && sent == Script(p)[..n] + [error])
  }

  lemma PutsInjective(a: seq<ServerSentEvent>, b: seq<ServerSentEvent>)
    requires Puts(a) == Puts(b)
    ensures a == b
  {
    assert |Puts(a)| == |Puts(b)|;
    forall i | 0 <= i < |a|
      ensures a[i] == b[i]
    {
      assert Puts(a)[i] == Puts(b)[i];
    }
  }

  /** A drained stream sent a complete answer exactly when its worker did not crash; otherwise a bare prefix. */
  lemma DrainedStreamIsComplete(p: Plan, moves: seq<Move>)
    requires var s := AfterAll(Entered(p), moves); !s.phase.Open? && s.phase.exit.Drained?
    ensures var s := AfterAll(Entered(p), moves);
            && (Complete(p, EventsOf(s.wire)) <==> !WorkerCrashed(s))
            && (WorkerCrashed(s) ==> EventsOf(s.wire) <= Script(p))
  {
    var s := AfterAll(Entered(p), moves);
    EnteredIsInvariant(p);
    RunKeepsInvariant(Entered(p), moves);
    if WorkerCrashed(s) { CrashedIsPrefix(s); } else { DrainedIsComplete(s); }
  }

  lemma DrainedIsComplete(s: Stream)
    requires Invariant(s) && !s.phase.Open? && s.phase.exit.Drained? && !WorkerCrashed(s)
    ensures Complete(s.plan, EventsOf(s.wire))
  {
    hide Script, EventsOf;
    var sent := EventsOf(s.wire);
    assert s.produced == Puts(sent) + [Sentinel];
    match s.worker.how
    case Completed(done) =>
      SameBeforeSentinel(Puts(sent), Puts(Script(s.plan) + [done]));
      PutsInjective(sent, Script(s.plan) + [done]);
    case Failed(n, error) =>
      SameBeforeSentinel(Puts(sent), Puts(Sent(Script(s.plan), n) + [error]));
      PutsInjective(sent, Sent(Script(s.plan), n) + [error]);
  }

  lemma CrashedIsPrefix(s: Stream)
    requires Invariant(s) && !s.phase.Open? && s.phase.exit.Drained? && WorkerCrashed(s)
    ensures EventsOf(s.wire) <= Script(s.plan) && !Complete(s.plan, EventsOf(s.wire))
  {
    hide Script, EventsOf;
    var sent, script := EventsOf(s.wire), Script(s.plan);
    assert s.produced == Puts(sent) + [Sentinel];
    SameBeforeSentinel(Puts(sent), Puts(Sent(script, s.worker.how.sent)));
    PutsInjective(sent, Sent(script, s.worker.how.sent));
    PrefixIsNotComplete(s.plan, sent);
  }

  lemma PrefixIsNotComplete(p: Plan, sent: seq<ServerSentEvent>)
    requires sent <= Script(p)
    ensures !Complete(p, sent)
  {
    hide Script;
    ScriptIsNotTerminal(p);
    forall n: nat, error: ServerSentEvent | n < |Script(p)| && error.name == "error"
      ensures sent != Script(p)[..n] + [error]
    {
      assert (Script(p)[..n] + [error])[n] == error != Script(p)[n];
    }
  }

  lemma SameBeforeSentinel(a: seq<Queued>, b: seq<Queued>)
    requires a + [Sentinel] == b + [Sentinel]
    ensures a == b
  {
    assert a == (a + [Sentinel])[..|a|] && b == (b + [Sentinel])[..|b|];
  }

  /** `done` and `error` are pushed last, once, and `done` only after the whole script. */
  lemma TerminalIsLast(s: Stream, i: nat)
    requires Invariant(s) && i < |s.produced| && s.produced[i].Put? && s.produced[i].event.name in {"done", "error"}
    ensures s.worker.Ended? && i + 2 == |s.produced| && s.produced[i + 1] == Sentinel
    ensures s.produced[i].event.name == "done" <==> s.worker.how.Completed?
    ensures s.produced[i].event.name == "done" ==> s.produced[..i] == Puts(Script(s.plan))
  {
    hide EventsOf, Dropped;
    ScriptIsNotTerminal(s.plan);
  }

  lemma ScriptIsNotTerminal(p: Plan)
    ensures forall i :: 0 <= i < |Script(p)| ==> Script(p)[i].name !in {"done", "error"}
  {
    assert EventName(Sql) == "sql" && EventName(Rows) == "rows" && EventName(Retrieve) == "stage";
    assert "sql" !in {"done", "error"} && "rows" !in {"done", "error"} && "stage" !in {"done", "error"} by {
      assert |"sql"| == 3 && "rows"[0] == 'r' && "done"[0] == 'd' && "error"[0] == 'e' && "stage"[0] == 's';
    }
  }

  /** Once the worker has ended, taking what is queued ends the stream: no client waits for ever. */
  lemma {:induction false} EndedWorkerDrains(s: Stream)
    requires Invariant(s) && s.phase.Open? && s.worker.Ended?
    ensures s.queue != [] && !AfterAll(s, seq(|s.queue|, _ => Take)).phase.Open?
    decreases |s.queue|
  {
    hide Invariant, After;
    EndsInSentinel(s);
    TakeShortens(s);
    var n := |s.queue|;
    var takes, fewer := seq(n, _ => Take), seq(n - 1, _ => Take);
    assert takes[1..] == fewer && takes[0] == Take;
    var next := After(s, Take);
    StepKeepsInvariant(s, Take);
    if next.phase.Open? {
      EndedWorkerDrains(next);
    } else {
      TakesOnClosed(next, fewer);
    }
  }

  lemma TakeShortens(s: Stream)
    requires s.phase.Open? && s.queue != []
    ensures After(s, Take).worker == s.worker && |After(s, Take).queue| == |s.queue| - 1
  {
  }

  lemma EndsInSentinel(s: Stream)
    requires Invariant(s) && s.phase.Open? && s.worker.Ended?
    ensures s.queue != [] && s.queue[|s.queue| - 1] == Sentinel
  {
    hide Script, EventsOf, Puts, ProducedBy;
    EndedEndsInSentinel(Script(s.plan), s.worker);
    LastIsInQueue(Puts(EventsOf(s.wire)), s.queue, s.produced);
  }

  lemma EndedEndsInSentinel(script: seq<ServerSentEvent>, w: Worker)
    requires w.Ended? && !w.how.Cancelled?
    ensures var all := ProducedBy(script, w);
            all != [] && all[|all| - 1] == Sentinel
  {
  }

  lemma LastIsInQueue(sent: seq<Queued>, queue: seq<Queued>, all: seq<Queued>)
    requires all == sent + queue && all != [] && all[|all| - 1] == Sentinel
    requires forall i :: 0 <= i < |sent| ==> sent[i] != Sentinel
    ensures queue != [] && queue[|queue| - 1] == Sentinel
  {
  }

  lemma {:induction false} TakesOnClosed(s: Stream, moves: seq<Move>)
    requires !s.phase.Open? && forall i :: 0 <= i < |moves| ==> moves[i] == Take
    ensures AfterAll(s, moves) == s
    decreases |moves|
  {
    if moves != [] { TakesOnClosed(s, moves[1..]); }
  }

  // ----- every event of a single-line stream can be sent -----

  ghost predicate SingleLine(p: Plan, moves: seq<Move>) {
    && (forall stage :: SseFraming.Plain(p.payload(stage)))
    && forall i :: 0 <= i < |moves| ==>
         (moves[i].Finish? ==> SseFraming.Plain(moves[i].done)) && (moves[i].Fail? ==> SseFraming.Plain(moves[i].error))
  }

  /** Script events, `done` and `error` encode exactly when their payload is on one line. */
  lemma StreamEventsEncode(p: Plan, i: nat, payload: string)
    requires i < |Script(p)|
    ensures Encode(Script(p)[i]).Ok? <==> SseFraming.Plain(Script(p)[i].payload)
    ensures Encode(Done(payload)).Ok? <==> SseFraming.Plain(payload)
    ensures Encode(Failure(payload)).Ok? <==> SseFraming.Plain(payload)
  {
    hide Encode, LegalName;
    ProtocolNames();
    EncodesIff(Script(p)[i]);
    EncodesIff(Done(payload));
    EncodesIff(Failure(payload));
  }

  predicate Encodable(queue: seq<Queued>) {
    forall i :: 0 <= i < |queue| && queue[i].Put? ==> Encode(queue[i].event).Ok?
  }

  lemma MoveKeepsEncodable(s: Stream, m: Move)
    requires SingleLine(s.plan, [m]) && SentOk(Script(s.plan), s.worker) && Encodable(s.queue)
    requires !s.phase.Open? ==> !s.phase.exit.Unencodable?
    ensures Encodable(After(s, m).queue)
    ensures !After(s, m).phase.Open? ==> !After(s, m).phase.exit.Unencodable?
  {
    hide Encode;
    assert [m][0] == m;
    if m.Emit? && Enabled(s, m) {
      StreamEventsEncode(s.plan, s.worker.sent, "");
    } else if m.Finish? {
      StreamEventsEncode(s.plan, 0, m.done);
    } else if m.Fail? {
      StreamEventsEncode(s.plan, 0, m.error);
    }
  }

  lemma {:induction false} RunKeepsEncodable(s: Stream, moves: seq<Move>)
    requires SingleLine(s.plan, moves) && Invariant(s) && Encodable(s.queue)
    requires !s.phase.Open? ==> !s.phase.exit.Unencodable?
    ensures !AfterAll(s, moves).phase.Open? ==> !AfterAll(s, moves).phase.exit.Unencodable?
    decreases |moves|
  {
    hide Encodable, After;
    if moves != [] {
      var m, next := moves[0], After(s, moves[0]);
      assert SentOk(Script(s.plan), s.worker);
      assert SingleLine(s.plan, [m]);
      MoveKeepsEncodable(s, m);
      StepKeepsInvariant(s, m);
      assert next.plan == s.plan by { PlanStays(s, m); }
      assert forall i :: 0 <= i < |moves[1..]| ==> moves[1..][i] == moves[i + 1];
      RunKeepsEncodable(next, moves[1..]);
    }
  }

  lemma PlanStays(s: Stream, m: Move)
    ensures After(s, m).plan == s.plan
  {
  }

  /** A stream whose payloads are single lines is never closed by an event it could not encode. */
  lemma SingleLineStreamIsSendable(p: Plan, moves: seq<Move>)
    requires SingleLine(p, moves)
    ensures var s := AfterAll(Entered(p), moves); !s.phase.Open? ==> !s.phase.exit.Unencodable?
  {
    EnteredIsInvariant(p);
    RunKeepsEncodable(Entered(p), moves);
  }

  /** An open stream can always be sent what is queued, in order, a heartbeat, or be left. */
  lemma GeneratorIsNeverBlocked(s: Stream)
    requires s.phase.Open?
    ensures After(s, Beat) == s.(wire := s.wire + [Heartbeat])
    ensures After(s, Close).phase == Closing(HungUp)
    ensures s.queue != [] && s.queue[0].Sentinel? ==> After(s, Take) == s.(queue := s.queue[1..], phase := Closing(Drained))
    ensures s.queue != [] && s.queue[0].Put? && Encode(s.queue[0].event).Ok? ==>
              After(s, Take) == s.(queue := s.queue[1..], wire := s.wire + [Event(s.queue[0].event)])
  {
  }

  lemma {:induction false} WorkerEmits(s: Stream, n: nat)
    requires s.phase.Open? && s.worker.Running? && s.worker.sent + n <= |Script(s.plan)|
    ensures var last := AfterAll(s, seq(n, _ => Emit));
            last.phase.Open? && last.worker == Running(s.worker.sent + n) && last.plan == s.plan
    decreases n
  {
    hide Script;
    var emits := seq(n, _ => Emit);
    if n > 0 {
      assert emits[1..] == seq(n - 1, _ => Emit);
      WorkerEmits(After(s, Emit), n - 1);
    }
  }

  /** After any number of script events a worker can fail or crash, and after all of them it can complete. */
  lemma WorkerCanEndAnywhere(p: Plan, n: nat, payload: string)
    requires n <= |Script(p)|
    ensures var s := AfterAll(Entered(p), [Start] + seq(n, _ => Emit));
            && s.phase.Open? && s.worker == Running(n)
            && After(s, Crash).worker == Ended(Crashed(n))
            && (n < |Script(p)| ==> After(s, Fail(payload)).worker == Ended(Failed(n, Failure(payload))))
            && (n == |Script(p)| ==> After(s, Finish(payload)).worker == Ended(Completed(Done(payload))))
  {
    hide Script;
    var moves := [Start] + seq(n, _ => Emit);
    assert moves[1..] == seq(n, _ => Emit);
    WorkerEmits(After(Entered(p), Start), n);
  }

  // ----- through the browser -----

  function FramesOf(events: seq<ServerSentEvent>): seq<SseFraming.Frame> {
    Map((e: ServerSentEvent) => SseFraming.Frame(e.name, e.payload), events)
  }

  lemma {:induction false} DeliveredSnoc(wire: seq<Item>, item: Item)
    ensures Delivered(wire + [item]) == Delivered(wire) + FrameOf(item)
  {
    if wire == [] {
      assert [item][1..] == [];
    } else {
      assert (wire + [item])[1..] == wire[1..] + [item];
      DeliveredSnoc(wire[1..], item);
    }
  }

  lemma {:induction false} DeliveredIsEvents(wire: seq<Item>)
    ensures Delivered(wire) == FramesOf(EventsOf(wire))
    decreases |wire|
  {
    if wire != [] {
      var front, last := wire[..|wire| - 1], wire[|wire| - 1];
      assert wire == front + [last];
      DeliveredIsEvents(front);
      DeliveredSnoc(front, last);
      if last.Event? { MapConcat((e: ServerSentEvent) => SseFraming.Frame(e.name, e.payload), EventsOf(front), [last.event]); }
    }
  }

  /**
   End to end: whatever the interleaving, the heartbeats and the cuts the network made, a
   browser that reads a drained stream sees a complete answer, and nothing is left pending.
   */
  lemma DrainedStreamIsDelivered(p: Plan, moves: seq<Move>, chunks: seq<string>)
    requires var s := AfterAll(Entered(p), moves);
             !s.phase.Open? && s.phase.exit.Drained? && !WorkerCrashed(s) && WithinLineBound(s.wire)
    requires var s := AfterAll(Entered(p), moves); Sendable(s.wire) ==> SseFraming.Concat(chunks) == Wire(s.wire)
    ensures exists sent :: Complete(p, sent)
              && SseFraming.Feed(SseFraming.FRESH, chunks) == Ok(SseFraming.Stream(SseFraming.IDLE, "", FramesOf(sent)))
  {
    hide Complete, AfterAll, WorkerCrashed;
    var s := AfterAll(Entered(p), moves);
    DrainedStreamIsComplete(p, moves);
    EnteredIsInvariant(p);
    RunKeepsInvariant(Entered(p), moves);
    RoundTrip(s.wire, chunks);
    DeliveredIsEvents(s.wire);
  }
}
