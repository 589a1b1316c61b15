/** How long an entered stream can go on, and how it ends. */
module StreamLifetime {
  import opened Wrappers
  import opened StreamDelivery
  import opened StreamProtocol

  predicate Settled(s: Stream) {
    s.phase.Released? || s.phase.Leaked?
  }

  /** Nothing is left to happen but heartbeats and the client leaving. */
  ghost predicate Idle(s: Stream) {
    forall m :: Enabled(s, m) ==> m.Beat? || m.Close?
  }

  function WorkLeft(s: Stream): nat
    requires SentOk(Script(s.plan), s.worker)
  {
    match s.worker
    case NotStarted => |Script(s.plan)| + 2
    case Running(n) => |Script(s.plan)| - n + 1
    case Ended(_) => 0
  }

  function PhaseRank(p: Phase): nat {
    if p.Open? then 2 else if p.Closing? then 1 else 0
  }

  /** A bound on the moves left, heartbeats aside. */
  function MovesLeft(s: Stream): nat
    requires Invariant(s)
  {
    3 * WorkLeft(s) + |s.queue| + PhaseRank(s.phase)
  }

  lemma MoveUsesUp(s: Stream, m: Move)
    requires Invariant(s)
    ensures Invariant(After(s, m))
    ensures if Enabled(s, m) && !m.Beat? then MovesLeft(After(s, m)) < MovesLeft(s) else MovesLeft(After(s, m)) == MovesLeft(s)
  {
    hide EventsOf, Script, ProducedBy;
    StepKeepsInvariant(s, m);
  }

  /** How many moves of a run did something, heartbeats aside. */
  function Effective(s: Stream, moves: seq<Move>): nat
    decreases |moves|
  {
    if moves == [] then 0
    else (if Enabled(s, moves[0]) && !moves[0].Beat? then 1 else 0) + Effective(After(s, moves[0]), moves[1..])
  }

  /** No run can go on for ever: it has at most `MovesLeft` moves that do something. */
  lemma {:induction false} RunsAreBounded(s: Stream, moves: seq<Move>)
    requires Invariant(s)
    ensures Invariant(AfterAll(s, moves))
    ensures Effective(s, moves) + MovesLeft(AfterAll(s, moves)) <= MovesLeft(s)
    decreases |moves|
  {
    hide Invariant, MovesLeft, After, Enabled;
    if moves != [] {
      MoveUsesUp(s, moves[0]);
      RunsAreBounded(After(s, moves[0]), moves[1..]);
    }
  }

  /** The count goes up by one exactly with each further move that uses up something of what is left. */
  lemma {:induction false} EffectiveCounts(s: Stream, moves: seq<Move>, m: Move)
    requires Invariant(s)
    ensures Effective(s, []) == 0
    ensures AfterAll(s, moves + [m]) == After(AfterAll(s, moves), m)
    ensures Invariant(AfterAll(s, moves)) && Invariant(AfterAll(s, moves + [m]))
    ensures Effective(s, moves + [m]) == Effective(s, moves)
              + if MovesLeft(AfterAll(s, moves + [m])) < MovesLeft(AfterAll(s, moves)) then 1 else 0
    decreases |moves|
  {
    hide Invariant, MovesLeft, After, Enabled;
    var all := moves + [m];
    if moves == [] {
      MoveUsesUp(s, m);
      assert all == [m] && all[1..] == [];
    } else {
      MoveUsesUp(s, moves[0]);
      assert all[0] == moves[0] && all[1..] == moves[1..] + [m];
      EffectiveCounts(After(s, moves[0]), moves[1..], m);
    }
  }

  /** A fresh stream settles within 23 moves that do something: 3 * (5 + 2) + 2. */
  lemma FreshStreamIsShort(p: Plan, moves: seq<Move>)
    ensures Effective(Entered(p), moves) <= 23
  {
    hide EventsOf, ProducedBy;
    EnteredIsInvariant(p);
    ScriptOf(p);
    RunsAreBounded(Entered(p), moves);
  }

  /** An unsettled stream always has something else to do, client or no client. */
  lemma IdleIffSettled(s: Stream)
    requires Invariant(s)
    ensures Idle(s) <==> Settled(s)
  {
    if !Settled(s) {
      var m := Next(s);
      assert Enabled(s, m) && !m.Beat? && !m.Close? by { NextIsEnabled(s); }
    }
  }

  /** One thing that can happen next to an unsettled stream. */
  function Next(s: Stream): Move {
    if s.phase.Closing? then
      if !s.worker.Ended? then Cancel else if s.worker.how.Crashed? then Leak else Release
    else if s.worker.NotStarted? then Start
    else if s.worker.Running? then (if s.worker.sent < |Script(s.plan)| then Emit else Finish(""))
    else Take
  }

  lemma NextIsEnabled(s: Stream)
    requires Invariant(s) && !Settled(s)
    ensures Enabled(s, Next(s)) && !Next(s).Beat? && !Next(s).Close?
  {
    hide EventsOf, Script, ProducedBy;
    if s.phase.Open? && s.worker.Ended? { EndsInSentinel(s); }
  }

  /**
   Every run that goes as far as it can settles the stream, whether the worker succeeded, failed or was
   cancelled and whether or not the client left: the slot comes back unless the worker itself crashed.
   */
  lemma {:induction false} EveryMaximalRunSettles(s: Stream, moves: seq<Move>)
    requires Invariant(s) && Idle(AfterAll(s, moves))
    ensures var last := AfterAll(s, moves);
            Settled(last) && (last.phase.Released? <==> !WorkerCrashed(last))
  {
    hide EventsOf, ProducedBy, Script, Idle, AfterAll;
    RunKeepsInvariant(s, moves);
    IdleIffSettled(AfterAll(s, moves));
  }

  /** However far a stream got, hanging up settles it in three moves. */
  lemma {:induction false} EnteredStreamCanRelease(s: Stream)
    requires Invariant(s) && !Settled(s)
    ensures var last := AfterAll(s, [Close, Cancel, Release, Leak]);
            Settled(last) && (last.phase.Released? <==> !WorkerCrashed(s))
  {
    hide EventsOf, ProducedBy, Script;
    var a := After(s, Close);
    var b := After(a, Cancel);
    var c := After(b, Release);
    assert [Close, Cancel, Release, Leak][1..] == [Cancel, Release, Leak];
    assert [Cancel, Release, Leak][1..] == [Release, Leak] && [Release, Leak][1..] == [Leak] && [Leak][1..] == [];
    assert AfterAll(s, [Close, Cancel, Release, Leak]) == AfterAll(a, [Cancel, Release, Leak]);
    assert AfterAll(a, [Cancel, Release, Leak]) == AfterAll(b, [Release, Leak]) == AfterAll(c, [Leak]) == After(c, Leak);
  }
}
