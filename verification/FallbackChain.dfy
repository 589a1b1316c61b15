/** An ordered chain of models: start at the last one that answered, move on when one is out of quota. */
module FallbackChain {
  import opened Wrappers

  /** What a client does when asked: answer, report its quota spent, or fail in a way no other model would mend. */
  datatype Reply = Answer(text: string) | OutOfQuota | OtherFailure

  datatype ChainError = AllExhausted(models: seq<nat>) | Failed(client: nat)

  /** What each client of the chain would reply during one request. */
  type Replies = seq<Reply>

  /** The first client from `at` on that is not out of quota, or the length of the chain. */
  function FirstUsable(replies: Replies, at: nat): (i: nat)
    requires at <= |replies|
    ensures at <= i <= |replies|
    ensures forall k :: at <= k < i ==> replies[k].OutOfQuota?
    ensures i < |replies| ==> !replies[i].OutOfQuota?
    decreases |replies| - at
  {
    if at == |replies| || !replies[at].OutOfQuota? then at else FirstUsable(replies, at + 1)
  }

  predicate Answered(replies: Replies, active: nat)
    requires active <= |replies|
  {
    var i := FirstUsable(replies, active);
    i < |replies| && replies[i].Answer?
  }

  /** Only an answer moves the chain. */
  function NextActive(replies: Replies, active: nat): (next: nat)
    requires active < |replies|
    ensures active <= next < |replies|
  {
    if Answered(replies, active) then FirstUsable(replies, active) else active
  }

  /** Which clients one request calls. */
  predicate Calls(replies: Replies, active: nat, client: nat)
    requires active < |replies|
  {
    active <= client <= FirstUsable(replies, active) && client < |replies|
  }

  function QuotaFailures(replies: Replies, active: nat): nat
    requires active < |replies|
  {
    FirstUsable(replies, active) - active
  }

  class FallbackLLMClient {
    const size: nat
    var active: nat

    ghost predicate Valid()
      reads this
    {
      active < size
    }

    constructor (size: nat)
      requires size > 0
      ensures Valid() && this.size == size && active == 0
    {
      this.size, active := size, 0;
    }

    /** A fallback chain needs at least one client. */
    static method Create(size: nat) returns (r: Result<FallbackLLMClient, string>)
      ensures r.Ok? <==> size > 0
      ensures r.Ok? ==> fresh(r.value) && r.value.Valid() && r.value.size == size && r.value.active == 0
    {
      if size == 0 { return Err("a fallback chain needs at least one client"); }
      var client := new FallbackLLMClient(size);
      return Ok(client);
    }

    /** Calls clients from the active one on; an answer makes its client the active one. */
    method Complete(replies: Replies) returns (r: Result<string, ChainError>, ghost called: seq<nat>)
      requires Valid() && |replies| == size
      modifies this
      ensures Valid() && active == NextActive(replies, old(active))
      ensures r.Ok? <==> Answered(replies, old(active))
      ensures r.Ok? ==> replies[active] == Answer(r.value) && called == Range(old(active), active + 1)
      ensures forall c: nat :: c in called <==> Calls(replies, old(active), c)
      ensures r.Err? && r.error.AllExhausted? ==> r.error.models == Range(old(active), size)
      ensures r.Err? && r.error.AllExhausted? <==> forall c :: old(active) <= c < size ==> replies[c].OutOfQuota?
      ensures forall c: nat :: r == Err(Failed(c)) <==>
                && old(active) <= c < size && replies[c].OtherFailure?
                && forall k :: old(active) <= k < c ==> replies[k].OutOfQuota?
    {
      var exhausted: seq<nat> := [];
      var index := active;
      called := [];
      while index < size
        invariant active <= index <= size && active == old(active)
        invariant FirstUsable(replies, active) == FirstUsable(replies, index)
        invariant exhausted == Range(active, index) && called == exhausted
      {
        called := called + [index];
        match replies[index] {
          case OutOfQuota =>
            exhausted := exhausted + [index];
          case OtherFailure =>
            return Err(Failed(index)), called;
          case Answer(text) =>
            if index != active { active := index; }
            return Ok(text), called;
        }
        index := index + 1;
      }
      return Err(AllExhausted(exhausted)), called;
    }
  }

  function Range(from: nat, to: nat): (r: seq<nat>)
    requires from <= to
    ensures |r| == to - from && forall i :: 0 <= i < |r| ==> r[i] == from + i
    ensures forall x :: x in r <==> from <= x < to
  {
    if from == to then [] else Range(from, to - 1) + [to - 1]
  }

  // ----- sequences of requests -----

  ghost predicate Chain(requests: seq<Replies>, size: nat) {
    forall i :: 0 <= i < |requests| ==> |requests[i]| == size
  }

  /** The active client before request `i`, when requests run one after another. */
  function ActiveAt(requests: seq<Replies>, size: nat, start: nat, i: nat): (active: nat)
    requires Chain(requests, size) && start < size && i <= |requests|
    ensures start <= active < size
  {
    if i == 0 then start else NextActive(requests[i - 1], ActiveAt(requests, size, start, i - 1))
  }

  ghost predicate AllAnswered(requests: seq<Replies>, size: nat, start: nat)
    requires Chain(requests, size) && start < size
  {
    forall i :: 0 <= i < |requests| ==> Answered(requests[i], ActiveAt(requests, size, start, i))
  }

  function TotalQuotaFailures(requests: seq<Replies>, size: nat, start: nat, i: nat): nat
    requires Chain(requests, size) && start < size && i <= |requests|
  {
    if i == 0 then 0
    else TotalQuotaFailures(requests, size, start, i - 1)
         + QuotaFailures(requests[i - 1], ActiveAt(requests, size, start, i - 1))
  }

  /** Quota failures spent by requests that got no answer, which the chain does not remember. */
  function WastedQuotaFailures(requests: seq<Replies>, size: nat, start: nat, i: nat): nat
    requires Chain(requests, size) && start < size && i <= |requests|
  {
    if i == 0 then 0
    else
      var active := ActiveAt(requests, size, start, i - 1);
      WastedQuotaFailures(requests, size, start, i - 1)
      + if Answered(requests[i - 1], active) then 0 else QuotaFailures(requests[i - 1], active)
  }

  lemma {:induction false} ActiveNeverDecreases(requests: seq<Replies>, size: nat, start: nat, i: nat, j: nat)
    requires Chain(requests, size) && start < size && i <= j <= |requests|
    ensures ActiveAt(requests, size, start, i) <= ActiveAt(requests, size, start, j)
    decreases j
  {
    if i < j { ActiveNeverDecreases(requests, size, start, i, j - 1); }
  }

  /** Every quota failure is either one step along the chain or wasted by an unanswered request. */
  lemma {:induction false} QuotaFailuresAreAmortised(requests: seq<Replies>, size: nat, start: nat, i: nat)
    requires Chain(requests, size) && start < size && i <= |requests|
    ensures TotalQuotaFailures(requests, size, start, i)
            == ActiveAt(requests, size, start, i) - start + WastedQuotaFailures(requests, size, start, i)
  {
    if i > 0 { QuotaFailuresAreAmortised(requests, size, start, i - 1); }
  }

  lemma {:induction false} NothingWasted(requests: seq<Replies>, size: nat, start: nat, i: nat)
    requires Chain(requests, size) && start < size && i <= |requests| && AllAnswered(requests, size, start)
    ensures WastedQuotaFailures(requests, size, start, i) == 0
  {
    hide FirstUsable, Answered, QuotaFailures, ActiveAt;
    if i > 0 { NothingWasted(requests, size, start, i - 1); }
  }

  /** When every request gets an answer, the whole run meets at most one quota failure per fallback. */
  lemma QuotaFailuresAreBounded(requests: seq<Replies>, size: nat)
    requires Chain(requests, size) && size > 0 && AllAnswered(requests, size, 0)
    ensures TotalQuotaFailures(requests, size, 0, |requests|) <= size - 1
  {
    QuotaFailuresAreAmortised(requests, size, 0, |requests|);
    NothingWasted(requests, size, 0, |requests|);
  }

  /** A client seen out of quota by an answered request is never called again. */
  lemma ExhaustedIsNeverCalledAgain(requests: seq<Replies>, size: nat, start: nat, i: nat, j: nat, client: nat)
    requires Chain(requests, size) && start < size && i < j < |requests|
    requires Answered(requests[i], ActiveAt(requests, size, start, i))
    requires Calls(requests[i], ActiveAt(requests, size, start, i), client) && requests[i][client].OutOfQuota?
    ensures !Calls(requests[j], ActiveAt(requests, size, start, j), client)
  {
    ActiveNeverDecreases(requests, size, start, i + 1, j);
  }

  /** Exactly when a request moves the chain past every client it found exhausted. */
  lemma ExhaustedIsRememberedIff(replies: Replies, active: nat)
    requires active < |replies|
    ensures (forall c: nat :: Calls(replies, active, c) && replies[c].OutOfQuota? ==> c < NextActive(replies, active)) <==>
            Answered(replies, active) || !replies[active].OutOfQuota?
  {
    if !Answered(replies, active) && replies[active].OutOfQuota? {
      assert Calls(replies, active, active);
    }
  }

  /** A request nobody answers makes the next one call a spent model again. */
  lemma UnansweredRequestForgets(text: string)
    ensures var spent: Replies := [OutOfQuota, OutOfQuota];
            var next: Replies := [OutOfQuota, Answer(text)];
            && Calls(spent, 0, 0) && spent[0].OutOfQuota?
            && Calls(next, NextActive(spent, 0), 0)
  {
    var spent: Replies := [OutOfQuota, OutOfQuota];
    assert FirstUsable(spent, 2) == 2 && FirstUsable(spent, 1) == 2;
  }

  /** `model` names the client that gave the last answer. */
  lemma ModelAnsweredLast(requests: seq<Replies>, size: nat, start: nat, i: nat, last: nat)
    requires Chain(requests, size) && start < size && last < i <= |requests|
    requires Answered(requests[last], ActiveAt(requests, size, start, last))
    requires forall k :: last < k < i ==> !Answered(requests[k], ActiveAt(requests, size, start, k))
    ensures ActiveAt(requests, size, start, i) == FirstUsable(requests[last], ActiveAt(requests, size, start, last))
    ensures requests[last][ActiveAt(requests, size, start, i)].Answer?
    decreases i
  {
    if i > last + 1 { ModelAnsweredLast(requests, size, start, i - 1, last); }
  }

  /** A request that started when `started` was active and ends when `active` is. */
  function Overlapping(replies: Replies, started: nat, active: nat): nat
    requires started < |replies|
  {
    if Answered(replies, started) then FirstUsable(replies, started) else active
  }

  /** With overlapping requests the order holds only if the late one answers no earlier in the chain. */
  lemma OverlapSetsBackIff(replies: Replies, started: nat, active: nat)
    requires started < |replies| && active < |replies|
    ensures Overlapping(replies, started, active) < active <==>
            Answered(replies, started) && FirstUsable(replies, started) < active
  {
  }

  lemma OverlapMaySetBack(text: string)
    ensures var fast: Replies := [OutOfQuota, OutOfQuota, Answer(text)];
            var slow: Replies := [OutOfQuota, Answer(text), Answer(text)];
            Overlapping(fast, 0, 0) == 2 && Overlapping(slow, 0, Overlapping(fast, 0, 0)) == 1
  {
    var fast: Replies := [OutOfQuota, OutOfQuota, Answer(text)];
    var slow: Replies := [OutOfQuota, Answer(text), Answer(text)];
    assert FirstUsable(fast, 1) == 2;
    assert FirstUsable(slow, 1) == 1;
  }
}
