/**
 Admission across concurrent requests, streaming or not. An action is what happens
 between two awaits of one request; a run is any interleaving of actions.
 */
module QueryService {
  import opened Wrappers
  import opened StreamProtocol
  import opened StreamLifetime

  datatype Request =
    | Refused
    | Answering                // a plain request between acquire and its `finally`
    | Answered
    | Waiting(plan: Plan)      // a stream admitted, its generator not yet entered
    | Streaming(stream: Stream)

  datatype ApiError = RateLimited

  datatype Action =
    | ArriveAnswer
    | ArriveStream(plan: Plan)
    | AnswerEnds(i: nat)              // with an answer, an error or a cancellation
    | Enter(i: nat)
    | OnStream(i: nat, move: Move)

  datatype State = State(limit: nat, held: int, requests: seq<Request>)

  /** A request holds a slot until it is given back; a leaked stream holds its slot for good. */
  predicate Holds(r: Request) {
    r.Answering? || r.Waiting? || (r.Streaming? && !r.stream.phase.Released?)
  }

  function Arrive(st: State, admitted: Request): State {
    if st.held >= st.limit then st.(requests := st.requests + [Refused])
    else st.(held := st.held + 1, requests := st.requests + [admitted])
  }

  function Step(st: State, a: Action): State {
    match a
    case ArriveAnswer => Arrive(st, Answering)
    case ArriveStream(plan) => Arrive(st, Waiting(plan))
    case AnswerEnds(i) =>
      if i < |st.requests| && st.requests[i].Answering?
      then st.(held := st.held - 1, requests := st.requests[i := Answered]) else st
    case Enter(i) =>
      if i < |st.requests| && st.requests[i].Waiting?
      then st.(requests := st.requests[i := Streaming(Entered(st.requests[i].plan))]) else st
    case OnStream(i, move) =>
      if i < |st.requests| && st.requests[i].Streaming?
      then Advance(st, i, move) else st
  }

  function Advance(st: State, i: nat, move: Move): State
    requires i < |st.requests| && st.requests[i].Streaming?
  {
    var s := st.requests[i].stream;
    State(st.limit, if move.Release? && Enabled(s, move) then st.held - 1 else st.held,
          st.requests[i := Streaming(After(s, move))])
  }

  function Run(st: State, actions: seq<Action>): State
    decreases |actions|
  {
    if actions == [] then st else Run(Step(st, actions[0]), actions[1..])
  }

  // ----- the service -----

  class Admission {
    const limit: nat
    var held: int

    constructor (limit: nat)
      ensures this.limit == limit && held == 0
    {
      this.limit, held := limit, 0;
    }

    /** Takes a slot, or refuses and changes nothing. */
    method Acquire() returns (r: Result<(), ApiError>)
      modifies this
      ensures r == if old(held) >= limit then Err(RateLimited) else Ok(())
      ensures held == old(held) + if r.Ok? then 1 else 0
    {
      if held >= limit { return Err(RateLimited); }
      held := held + 1;
      return Ok(());
    }

    method Release()
      modifies this
      ensures held == old(held) - 1
    {
      held := held - 1;
    }
  }

  class Service {
    const admission: Admission
    var requests: seq<Request>

    constructor (limit: nat)
      ensures fresh(admission) && Now() == State(limit, 0, []) && Valid()
    {
      admission := new Admission(limit);
      requests := [];
    }

    function Now(): State
      reads this, admission
    {
      State(admission.limit, admission.held, requests)
    }

    ghost predicate Valid()
      reads this, admission
    {
      Good(Now())
    }

    /** A plain request: refused at once, or answering from the moment it is admitted. */
    method Answer() returns (r: Result<nat, ApiError>)
      requires Valid()
      modifies this, admission
      ensures Valid() && Now() == Step(old(Now()), ArriveAnswer)
      ensures r.Ok? <==> old(admission.held) < admission.limit
    {
      hide Invariant;
      StepKeepsGood(Now(), ArriveAnswer);
      var slot := admission.Acquire();
      requests := requests + [if slot.Ok? then Answering else Refused];
      r := if slot.Ok? then Ok(|requests| - 1) else Err(slot.error);
    }

    /** The slot is taken before the generator exists, while a refusal can still be sent. */
    method OpenStream(plan: Plan) returns (r: Result<nat, ApiError>)
      requires Valid()
      modifies this, admission
      ensures Valid() && Now() == Step(old(Now()), ArriveStream(plan))
      ensures r.Ok? <==> old(admission.held) < admission.limit
    {
      hide Invariant;
      StepKeepsGood(Now(), ArriveStream(plan));
      var slot := admission.Acquire();
      requests := requests + [if slot.Ok? then Waiting(plan) else Refused];
      r := if slot.Ok? then Ok(|requests| - 1) else Err(slot.error);
    }

    method FinishAnswer(i: nat)
      requires Valid() && i < |requests| && requests[i].Answering?
      modifies this, admission
      ensures Valid() && Now() == Step(old(Now()), AnswerEnds(i))
    {
      hide Invariant;
      StepKeepsGood(Now(), AnswerEnds(i));
      requests := requests[i := Answered];
      admission.Release();
    }

    method FirstNext(i: nat)
      requires Valid() && i < |requests| && requests[i].Waiting?
      modifies this
      ensures Valid() && Now() == Step(old(Now()), Enter(i))
    {
      hide Invariant;
      StepKeepsGood(Now(), Enter(i));
      requests := requests[i := Streaming(Entered(requests[i].plan))];
    }

    method StepStream(i: nat, move: Move)
      requires Valid() && i < |requests| && requests[i].Streaming?
      modifies this, admission
      ensures Valid() && Now() == Step(old(Now()), OnStream(i, move))
    {
      hide Invariant, After, Enabled;
      StepKeepsGood(Now(), OnStream(i, move));
      var s := requests[i].stream;
      requests := requests[i := Streaming(After(s, move))];
      if move.Release? && Enabled(s, move) { admission.Release(); }
    }
  }

  // ----- the invariant of every interleaving -----

  function Slots(requests: seq<Request>): nat {
    if requests == [] then 0
    else
      var last := |requests| - 1;
      Slots(requests[..last]) + if Holds(requests[last]) then 1 else 0
  }

  /** `held` counts the admitted, unreleased requests and stays within the limit; every stream is in order. */
  ghost predicate Good(st: State) {
    && st.held == Slots(st.requests) <= st.limit
    && forall i :: 0 <= i < |st.requests| && st.requests[i].Streaming? ==> Invariant(st.requests[i].stream)
  }

  lemma SlotsSnoc(requests: seq<Request>, r: Request)
    ensures Slots(requests + [r]) == Slots(requests) + if Holds(r) then 1 else 0
  {
    assert (requests + [r])[..|requests|] == requests;
  }

  lemma {:induction false} SlotsUpdate(requests: seq<Request>, i: nat, r: Request)
    requires i < |requests|
    ensures Slots(requests[i := r]) + (if Holds(requests[i]) then 1 else 0) == Slots(requests) + if Holds(r) then 1 else 0
    decreases |requests|
  {
    var last := |requests| - 1;
    if i == last {
      assert requests[i := r][..last] == requests[..last];
    } else {
      assert requests[i := r][..last] == requests[..last][i := r];
      SlotsUpdate(requests[..last], i, r);
    }
  }

  lemma ReleasedIsFinal(s: Stream, m: Move)
    ensures s.phase.Released? ==> After(s, m) == s
    ensures !s.phase.Released? ==> (After(s, m).phase.Released? <==> m.Release? && Enabled(s, m))
  {
  }

  lemma HoldsPlain(r: Request)
    requires Holds(r)
    ensures Holds(r) && !Holds(Refused)
  {
  }

  lemma ArriveKeepsGood(st: State, r: Request)
    requires Good(st) && Holds(r) && !r.Streaming?
    ensures Good(Arrive(st, r))
  {
    hide Invariant, Slots, Holds;
    assert Holds(r) && !Holds(Refused) by { HoldsPlain(r); }
    SlotsSnoc(st.requests, r);
    SlotsSnoc(st.requests, Refused);
  }

  lemma AdvanceKeepsGood(st: State, i: nat, m: Move)
    requires Good(st) && i < |st.requests| && st.requests[i].Streaming?
    ensures Good(Advance(st, i, m))
  {
    hide Invariant, After, Enabled;
    var s := st.requests[i].stream;
    StepKeepsInvariant(s, m);
    ReleasedIsFinal(s, m);
    StaysReleased(s, m);
    SlotsUpdate(st.requests, i, Streaming(After(s, m)));
  }

  lemma StaysReleased(s: Stream, m: Move)
    ensures s.phase.Released? ==> !Enabled(s, m)
  {
  }

  lemma StepKeepsGood(st: State, a: Action)
    requires Good(st)
    ensures Good(Step(st, a))
  {
    hide Invariant;
    match a
    case ArriveAnswer => ArriveKeepsGood(st, Answering);
    case ArriveStream(plan) => ArriveKeepsGood(st, Waiting(plan));
    case AnswerEnds(i) =>
      if i < |st.requests| { SlotsUpdate(st.requests, i, Answered); }
    case Enter(i) =>
      if i < |st.requests| && st.requests[i].Waiting? {
        EnteredIsInvariant(st.requests[i].plan);
        SlotsUpdate(st.requests, i, Streaming(Entered(st.requests[i].plan)));
      }
    case OnStream(i, m) =>
      if i < |st.requests| && st.requests[i].Streaming? { AdvanceKeepsGood(st, i, m); }
  }

  /** In every interleaving `held` is the number of admitted, unreleased requests, within 0..limit. */
  lemma {:induction false} RunKeepsGood(st: State, actions: seq<Action>)
    requires Good(st)
    ensures Good(Run(st, actions)) && 0 <= Run(st, actions).held <= Run(st, actions).limit
    decreases |actions|
  {
    hide Step;
    if actions != [] {
      StepKeepsGood(st, actions[0]);
      RunKeepsGood(Step(st, actions[0]), actions[1..]);
    }
  }

  lemma EveryRunIsGood(limit: nat, actions: seq<Action>)
    ensures Good(Run(State(limit, 0, []), actions))
  {
    RunKeepsGood(State(limit, 0, []), actions);
  }

  // ----- release exactly once -----

  /** A request that gave its slot back, or never had one, is never touched again: no second release. */
  lemma {:induction false} SettledForGood(st: State, actions: seq<Action>, i: nat)
    requires i < |st.requests| && !Holds(st.requests[i])
    ensures i < |Run(st, actions).requests| && Run(st, actions).requests[i] == st.requests[i]
    decreases |actions|
  {
    if actions != [] {
      var next := Step(st, actions[0]);
      assert i < |next.requests| && next.requests[i] == st.requests[i];
      SettledForGood(next, actions[1..], i);
    }
  }

  /** A step changes `held` only by admitting one new request or by settling one that held a slot. */
  lemma HeldChangesByOneRequest(st: State, a: Action)
    ensures var next := Step(st, a);
            || next.held == st.held
            || (next.held == st.held + 1 && |next.requests| == |st.requests| + 1 && Holds(next.requests[|st.requests|]))
            || (next.held == st.held - 1 && |next.requests| == |st.requests|
                && exists i :: 0 <= i < |st.requests| && Holds(st.requests[i]) && !Holds(next.requests[i]))
  {
    match a
    case ArriveAnswer =>
    case ArriveStream(_) =>
    case AnswerEnds(i) =>
      if i < |st.requests| { assert st.requests[i].Answering? ==> !Holds(Step(st, a).requests[i]); }
    case Enter(i) =>
    case OnStream(i, m) =>
      if i < |st.requests| && st.requests[i].Streaming? {
        ReleasedIsFinal(st.requests[i].stream, m);
        assert Step(st, a).requests[i] == Streaming(After(st.requests[i].stream, m));
      }
  }

  /** Refusal happens exactly at the limit and leaves every other request and the count alone. */
  lemma RefusedExactlyAtLimit(st: State, plan: Plan)
    ensures Step(st, ArriveAnswer).requests[|st.requests|] == Refused <==> st.held >= st.limit
    ensures Step(st, ArriveStream(plan)).requests[|st.requests|] == Refused <==> st.held >= st.limit
    ensures st.held >= st.limit ==>
              Step(st, ArriveAnswer) == Step(st, ArriveStream(plan)) == st.(requests := st.requests + [Refused])
  {
  }

  /** Once every request is settled, every slot is back. */
  lemma {:induction false} AllSettledFreesAll(requests: seq<Request>)
    ensures Slots(requests) == 0 <==> forall i :: 0 <= i < |requests| ==> !Holds(requests[i])
    decreases |requests|
  {
    if requests != [] {
      var front, last := requests[..|requests| - 1], requests[|requests| - 1];
      AllSettledFreesAll(front);
      assert forall i :: 0 <= i < |front| ==> requests[i] == front[i];
      if Slots(front) > 0 {
        var i :| 0 <= i < |front| && Holds(front[i]);
        assert Holds(requests[i]);
      }
    }
  }

  /** The moves a run makes on one stream. */
  function MovesOf(actions: seq<Action>, i: nat): seq<Move> {
    if actions == [] then []
    else
      var rest := MovesOf(actions[1..], i);
      if actions[0].OnStream? && actions[0].i == i then [actions[0].move] + rest else rest
  }

  /** Other requests never touch a stream: in any interleaving it goes as it would alone. */
  lemma {:induction false} StreamRunsAlone(st: State, actions: seq<Action>, i: nat)
    requires i < |st.requests| && st.requests[i].Streaming?
    ensures i < |Run(st, actions).requests|
    ensures Run(st, actions).requests[i] == Streaming(AfterAll(st.requests[i].stream, MovesOf(actions, i)))
    decreases |actions|
  {
    hide After, Enabled;
    if actions != [] {
      var next := Step(st, actions[0]);
      var s := st.requests[i].stream;
      if actions[0].OnStream? && actions[0].i == i {
        assert next.requests[i] == Streaming(After(s, actions[0].move));
        assert MovesOf(actions, i)[1..] == MovesOf(actions[1..], i);
      } else {
        assert i < |next.requests| && next.requests[i] == st.requests[i];
      }
      StreamRunsAlone(next, actions[1..], i);
    }
  }

  /** This action takes the slot back from request `i`. */
  predicate Frees(st: State, a: Action, i: nat) {
    i < |st.requests| && i < |Step(st, a).requests| && Holds(st.requests[i]) && !Holds(Step(st, a).requests[i])
  }

  /** How often a run takes the slot back from request `i`. */
  function Freed(st: State, actions: seq<Action>, i: nat): nat
    decreases |actions|
  {
    if actions == [] then 0
    else (if Frees(st, actions[0], i) then 1 else 0) + Freed(Step(st, actions[0]), actions[1..], i)
  }

  /** Taking a slot back lowers `held` by one and touches no other request. */
  lemma FreeingLowersHeld(st: State, a: Action, i: nat)
    requires Frees(st, a, i)
    ensures Step(st, a).held == st.held - 1 && |Step(st, a).requests| == |st.requests|
    ensures forall k :: 0 <= k < |st.requests| && k != i ==> Step(st, a).requests[k] == st.requests[k]
  {
    hide After, Enabled;
    if a.OnStream? { ReleasedIsFinal(st.requests[i].stream, a.move); }
  }

  /** Every admitted request frees its slot exactly once if it ends without one, and otherwise never. */
  lemma {:induction false} FreedAtMostOnce(st: State, actions: seq<Action>, i: nat)
    requires i < |st.requests| && Holds(st.requests[i])
    ensures i < |Run(st, actions).requests|
    ensures Freed(st, actions, i) == if Holds(Run(st, actions).requests[i]) then 0 else 1
    decreases |actions|
  {
    hide Step;
    if actions != [] {
      var next := Step(st, actions[0]);
      RequestsStay(st, actions[0]);
      if Holds(next.requests[i]) {
        FreedAtMostOnce(next, actions[1..], i);
      } else {
        SettledForGood(next, actions[1..], i);
        NeverFreedAgain(next, actions[1..], i);
      }
    }
  }

  lemma RequestsStay(st: State, a: Action)
    ensures |st.requests| <= |Step(st, a).requests|
  {
  }

  lemma {:induction false} NeverFreedAgain(st: State, actions: seq<Action>, i: nat)
    requires i < |st.requests| && !Holds(st.requests[i])
    ensures Freed(st, actions, i) == 0
    decreases |actions|
  {
    if actions != [] {
      assert [actions[0]][1..] == [];
      SettledForGood(st, [actions[0]], i);
      assert Run(st, [actions[0]]) == Step(st, actions[0]);
      NeverFreedAgain(Step(st, actions[0]), actions[1..], i);
    }
  }

  /**
   Every entered stream gives its slot back exactly once in every run that takes it as far as it goes,
   on success, error, cancellation or disconnect and whatever other requests do meanwhile, unless its
   worker ended with an exception of its own; then it never does.
   */
  lemma EnteredReleasesOnce(st: State, actions: seq<Action>, i: nat)
    requires Good(st) && i < |st.requests| && st.requests[i].Streaming? && Holds(st.requests[i])
    requires var last := AfterAll(st.requests[i].stream, MovesOf(actions, i)); Idle(last)
    ensures var last := AfterAll(st.requests[i].stream, MovesOf(actions, i));
            && Settled(last)
            && i < |Run(st, actions).requests|
            && Run(st, actions).requests[i] == Streaming(last)
            && Freed(st, actions, i) == if WorkerCrashed(last) then 0 else 1
  {
    hide Idle, WorkerCrashed, Step, Freed, AfterAll;
    StreamRunsAlone(st, actions, i);
    EveryMaximalRunSettles(st.requests[i].stream, MovesOf(actions, i));
    FreedAtMostOnce(st, actions, i);
  }

  /** And no run can put that off: a stream makes at most 23 moves that do something. */
  lemma EnteredStreamIsShort(st: State, actions: seq<Action>, i: nat)
    requires i < |st.requests| && st.requests[i].Waiting?
    ensures var s := Entered(st.requests[i].plan);
            && Step(st, Enter(i)).requests[i] == Streaming(s)
            && Effective(s, MovesOf(actions, i)) <= 23
  {
    FreshStreamIsShort(st.requests[i].plan, MovesOf(actions, i));
  }

  // ----- the slot of a stream nobody reads -----

  /** A stream whose generator is never entered keeps its slot for ever. */
  lemma {:induction false} NeverEnteredKeepsSlot(st: State, actions: seq<Action>, i: nat)
    requires i < |st.requests| && st.requests[i].Waiting? && Enter(i) !in actions
    ensures i < |Run(st, actions).requests| && Run(st, actions).requests[i] == st.requests[i]
    decreases |actions|
  {
    if actions != [] {
      var next := Step(st, actions[0]);
      assert actions[0] in actions && Enter(i) !in actions[1..];
      assert i < |next.requests| && next.requests[i] == st.requests[i];
      NeverEnteredKeepsSlot(next, actions[1..], i);
    }
  }

  ghost predicate Starved(st: State) {
    && st.held >= st.limit
    && forall i :: 0 <= i < |st.requests| && Holds(st.requests[i]) ==> st.requests[i].Waiting? || Lost(st.requests[i])
  }

  predicate Lost(r: Request) {
    r.Streaming? && r.stream.phase.Leaked?
  }

  /** When such streams, or streams whose worker crashed, hold every slot, nothing is ever admitted again. */
  lemma {:induction false} AbandonedStreamsStarve(st: State, actions: seq<Action>)
    requires Starved(st) && forall a :: a in actions ==> !a.Enter?
    ensures Starved(Run(st, actions)) && Run(st, actions).held == st.held
    decreases |actions|
  {
    if actions != [] {
      assert actions[0] in actions;
      StarvedStep(st, actions[0]);
      AbandonedStreamsStarve(Step(st, actions[0]), actions[1..]);
    }
  }

  lemma StarvedStep(st: State, a: Action)
    requires Starved(st) && !a.Enter?
    ensures Starved(Step(st, a)) && Step(st, a).held == st.held
  {
    if a.OnStream? && a.i < |st.requests| && st.requests[a.i].Streaming? {
      ReleasedIsFinal(st.requests[a.i].stream, a.move);
      SettledIsFinal(st.requests[a.i].stream, a.move);
    }
  }

  lemma SettledIsFinal(s: Stream, m: Move)
    requires Settled(s)
    ensures After(s, m) == s && !Enabled(s, m)
  {
  }
}
