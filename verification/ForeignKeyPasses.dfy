/** Which foreign keys one unification pass settles, and how many passes settle them all. */
module ForeignKeyPasses {
  import opened Sequences
  import opened PgTypes
  import opened ForeignKeyTypes

  ghost predicate Known(planned: Types, pairs: seq<Pair>) {
    forall i :: 0 <= i < |pairs| ==> pairs[i].left in planned && pairs[i].right in planned
  }

  ghost predicate AllSettled(planned: Types, fits: (Cell, PgType) -> bool, retyped: Types, pairs: seq<Pair>)
    requires Known(planned, pairs)
  {
    forall i :: 0 <= i < |pairs| ==> Settled(planned, fits, retyped, pairs[i])
  }

  predicate Shares(p: Pair, c: Cell) {
    p.left == c || p.right == c
  }

  // ----- which pairs one pass settles -----

  lemma {:induction false} UntouchedStays(planned: Types, fits: (Cell, PgType) -> bool, retyped: Types,
                                          pairs: seq<Pair>, c: Cell)
    requires c in planned && forall i :: 0 <= i < |pairs| ==> !Shares(pairs[i], c)
    ensures Current(planned, Unify(planned, fits, retyped, pairs), c) == Current(planned, retyped, c)
    decreases |pairs|
  {
    if pairs != [] {
      var last := |pairs| - 1;
      UntouchedStays(planned, fits, retyped, pairs[..last], c);
      PairMovesUp(planned, fits, Unify(planned, fits, retyped, pairs[..last]), pairs[last], c);
    }
  }

  /** A pair no later pair shares a column with ends settled: a caller can see beforehand that its key is safe. */
  lemma {:induction false} LastOfItsColumnsIsSettled(planned: Types, fits: (Cell, PgType) -> bool, retyped: Types, pairs: seq<Pair>, i: nat)
    requires i < |pairs| && pairs[i].left in planned && pairs[i].right in planned
    requires forall k :: i < k < |pairs| ==> !Shares(pairs[k], pairs[i].left) && !Shares(pairs[k], pairs[i].right)
    ensures Settled(planned, fits, Unify(planned, fits, retyped, pairs), pairs[i])
  {
    hide Unify, UnifyPair;
    var p, before, later := pairs[i], pairs[..i], pairs[i + 1..];
    var reached := Unify(planned, fits, retyped, before);
    var stepped := UnifyPair(planned, fits, reached, p);
    StepSettles(planned, fits, reached, p);
    assert pairs == before + [p] + later;
    UnifyThree(planned, fits, retyped, before, p, later);
    UntouchedStays(planned, fits, stepped, later, p.left);
    UntouchedStays(planned, fits, stepped, later, p.right);
  }

  lemma {:induction false} UnifyThree(planned: Types, fits: (Cell, PgType) -> bool, retyped: Types, before: seq<Pair>, p: Pair, later: seq<Pair>)
    ensures Unify(planned, fits, retyped, before + [p] + later)
            == Unify(planned, fits, UnifyPair(planned, fits, Unify(planned, fits, retyped, before), p), later)
  {
    UnifyConcat(planned, fits, retyped, before + [p], later);
    assert (before + [p])[..|before|] == before;
  }

  lemma StepSettles(planned: Types, fits: (Cell, PgType) -> bool, retyped: Types, p: Pair)
    requires p.left in planned && p.right in planned
    ensures Settled(planned, fits, UnifyPair(planned, fits, retyped, p), p)
  {
    PairEqualOrUnchanged(planned, fits, retyped, p);
  }

  // ----- repeated passes -----

  /** How far up a type is; bytea never moves. */
  function Height(t: PgType): nat {
    if t == Bytea then 0 else Rank(t)
  }

  function PairHeight(planned: Types, retyped: Types, p: Pair): nat
    requires p.left in planned && p.right in planned
  {
    Height(Current(planned, retyped, p.left)) + Height(Current(planned, retyped, p.right))
  }

  function TotalHeight(planned: Types, retyped: Types, pairs: seq<Pair>): nat
    requires Known(planned, pairs)
  {
    if pairs == [] then 0
    else PairHeight(planned, retyped, pairs[0]) + TotalHeight(planned, retyped, pairs[1..])
  }

  lemma {:induction false} HeightIsBounded(planned: Types, retyped: Types, pairs: seq<Pair>)
    requires Known(planned, pairs)
    ensures TotalHeight(planned, retyped, pairs) <= 4 * |pairs|
  {
    if pairs != [] { HeightIsBounded(planned, retyped, pairs[1..]); }
  }

  /** No column moves down. */
  ghost predicate AtLeast(planned: Types, now: Types, was: Types) {
    forall c :: c in planned ==> Height(Current(planned, was, c)) <= Height(Current(planned, now, c))
  }

  lemma {:induction false} PassIsUpward(planned: Types, fits: (Cell, PgType) -> bool, retyped: Types, pairs: seq<Pair>)
    ensures AtLeast(planned, Unify(planned, fits, retyped, pairs), retyped)
    decreases |pairs|
  {
    if pairs != [] {
      var last := |pairs| - 1;
      var before := Unify(planned, fits, retyped, pairs[..last]);
      PassIsUpward(planned, fits, retyped, pairs[..last]);
      forall c | c in planned
        ensures Height(Current(planned, before, c)) <= Height(Current(planned, UnifyPair(planned, fits, before, pairs[last]), c))
      {
        PairMovesUp(planned, fits, before, pairs[last], c);
      }
    }
  }

  lemma {:induction false} HigherTotals(planned: Types, now: Types, was: Types, pairs: seq<Pair>)
    requires Known(planned, pairs) && AtLeast(planned, now, was)
    ensures TotalHeight(planned, was, pairs) <= TotalHeight(planned, now, pairs)
    decreases |pairs|
  {
    if pairs != [] { HigherTotals(planned, now, was, pairs[1..]); }
  }

  lemma {:induction false} StrictlyHigherTotal(planned: Types, now: Types, was: Types, pairs: seq<Pair>, i: nat)
    requires Known(planned, pairs) && AtLeast(planned, now, was) && i < |pairs|
    requires PairHeight(planned, was, pairs[i]) < PairHeight(planned, now, pairs[i])
    ensures TotalHeight(planned, was, pairs) < TotalHeight(planned, now, pairs)
    decreases |pairs|
  {
    HigherTotals(planned, now, was, pairs[1..]);
    if i > 0 {
      assert pairs[1..][i - 1] == pairs[i];
      StrictlyHigherTotal(planned, now, was, pairs[1..], i - 1);
    }
  }

  /** Visiting an unsettled pair raises it. */
  lemma UnsettledPairRises(planned: Types, fits: (Cell, PgType) -> bool, retyped: Types, p: Pair)
    requires p.left in planned && p.right in planned && !Settled(planned, fits, retyped, p)
    ensures PairHeight(planned, retyped, p) < PairHeight(planned, UnifyPair(planned, fits, retyped, p), p)
  {
    PairStep(planned, fits, retyped, p);
  }

  /**
   From any point, a pass changes nothing exactly when every pair is settled; and otherwise some pair rises.
   So a second pass is idle exactly when the first left every key settled.
   */
  lemma {:induction false} IdleIffAllSettled(planned: Types, fits: (Cell, PgType) -> bool, retyped: Types, pairs: seq<Pair>)
    requires Known(planned, pairs)
    ensures Unify(planned, fits, retyped, pairs) == retyped <==> AllSettled(planned, fits, retyped, pairs)
    ensures !AllSettled(planned, fits, retyped, pairs) ==>
              TotalHeight(planned, retyped, pairs) < TotalHeight(planned, Unify(planned, fits, retyped, pairs), pairs)
    decreases |pairs|
  {
    if pairs != [] {
      var last := |pairs| - 1;
      var front := pairs[..last];
      IdleIffAllSettled(planned, fits, retyped, front);
      SettledSnoc(planned, fits, retyped, pairs);
      if AllSettled(planned, fits, retyped, front) {
        if Settled(planned, fits, retyped, pairs[last]) {
          PairEqualOrUnchanged(planned, fits, retyped, pairs[last]);
        } else {
          PassIsUpward(planned, fits, retyped, pairs);
          UnsettledPairRises(planned, fits, retyped, pairs[last]);
          StrictlyHigherTotal(planned, Unify(planned, fits, retyped, pairs), retyped, pairs, last);
        }
      } else {
        FrontRises(planned, fits, retyped, pairs);
      }
    }
  }

  lemma SettledSnoc(planned: Types, fits: (Cell, PgType) -> bool, retyped: Types, pairs: seq<Pair>)
    requires Known(planned, pairs) && pairs != []
    ensures AllSettled(planned, fits, retyped, pairs) <==>
            && AllSettled(planned, fits, retyped, pairs[..|pairs| - 1])
            && Settled(planned, fits, retyped, pairs[|pairs| - 1])
  {
    hide Settled;
    var front := pairs[..|pairs| - 1];
    assert forall i :: 0 <= i < |front| ==> front[i] == pairs[i];
  }

  /** What rose over the first pairs is still higher after the last. */
  lemma FrontRises(planned: Types, fits: (Cell, PgType) -> bool, retyped: Types, pairs: seq<Pair>)
    requires Known(planned, pairs) && pairs != []
    requires var front := pairs[..|pairs| - 1];
             TotalHeight(planned, retyped, front) < TotalHeight(planned, Unify(planned, fits, retyped, front), front)
    ensures TotalHeight(planned, retyped, pairs) < TotalHeight(planned, Unify(planned, fits, retyped, pairs), pairs)
  {
    hide Unify, UnifyPair, Current, AtLeast, TotalHeight;
    var last := |pairs| - 1;
    var front := pairs[..last];
    var before, now := Unify(planned, fits, retyped, front), Unify(planned, fits, retyped, pairs);
    PassIsUpward(planned, fits, before, [pairs[last]]);
    assert pairs == front + [pairs[last]];
    UnifyConcat(planned, fits, retyped, front, [pairs[last]]);
    HigherTotals(planned, now, before, front);
    PassIsUpward(planned, fits, retyped, pairs);
    TotalSnoc(planned, retyped, pairs);
    TotalSnoc(planned, now, pairs);
    PairNotLower(planned, now, retyped, pairs[last]);
  }

  lemma PairNotLower(planned: Types, now: Types, was: Types, p: Pair)
    requires p.left in planned && p.right in planned && AtLeast(planned, now, was)
    ensures PairHeight(planned, was, p) <= PairHeight(planned, now, p)
  {
  }

  lemma {:induction false} TotalSnoc(planned: Types, retyped: Types, pairs: seq<Pair>)
    requires Known(planned, pairs) && pairs != []
    ensures TotalHeight(planned, retyped, pairs)
            == TotalHeight(planned, retyped, pairs[..|pairs| - 1]) + PairHeight(planned, retyped, pairs[|pairs| - 1])
    decreases |pairs|
  {
    if |pairs| > 1 {
      assert pairs[1..][..|pairs| - 2] == pairs[..|pairs| - 1][1..];
      TotalSnoc(planned, retyped, pairs[1..]);
    }
  }

  /** The keys a single pass leaves unsettled are there exactly when a second pass would still change something. */
  lemma OnePassSettlesIffSecondIsIdle(planned: Types, fits: (Cell, PgType) -> bool, pairs: seq<Pair>)
    requires Known(planned, pairs)
    ensures AllSettled(planned, fits, Passes(planned, fits, pairs, 1), pairs) <==>
            Passes(planned, fits, pairs, 2) == Passes(planned, fits, pairs, 1)
  {
    hide AllSettled, TotalHeight, Unify;
    IdleIffAllSettled(planned, fits, Passes(planned, fits, pairs, 1), pairs);
    assert Passes(planned, fits, pairs, 2) == Unify(planned, fits, Passes(planned, fits, pairs, 1), pairs);
  }

  /** The pass, run `n` times over. */
  function Passes(planned: Types, fits: (Cell, PgType) -> bool, pairs: seq<Pair>, n: nat): Types {
    if n == 0 then map[] else Unify(planned, fits, Passes(planned, fits, pairs, n - 1), pairs)
  }

  /** As long as some pair is unsettled, each pass raises the total by at least one. */
  lemma {:induction false} PassesRise(planned: Types, fits: (Cell, PgType) -> bool, pairs: seq<Pair>, n: nat)
    requires Known(planned, pairs)
    requires forall k: nat :: k < n ==> !AllSettled(planned, fits, Passes(planned, fits, pairs, k), pairs)
    ensures TotalHeight(planned, Passes(planned, fits, pairs, n), pairs) >= n
  {
    hide AllSettled, TotalHeight, Unify;
    if n > 0 {
      PassesRise(planned, fits, pairs, n - 1);
      IdleIffAllSettled(planned, fits, Passes(planned, fits, pairs, n - 1), pairs);
    }
  }

  /** Repeating the pass settles every key within four passes per pair, and then nothing changes any more. */
  lemma PassesSettleEverything(planned: Types, fits: (Cell, PgType) -> bool, pairs: seq<Pair>) returns (n: nat)
    requires Known(planned, pairs)
    ensures n <= 4 * |pairs|
    ensures AllSettled(planned, fits, Passes(planned, fits, pairs, n), pairs)
    ensures Passes(planned, fits, pairs, n + 1) == Passes(planned, fits, pairs, n)
  {
    hide AllSettled;
    n := 0;
    while !AllSettled(planned, fits, Passes(planned, fits, pairs, n), pairs)
      invariant forall k: nat :: k < n ==> !AllSettled(planned, fits, Passes(planned, fits, pairs, k), pairs)
      invariant n <= 4 * |pairs|
      decreases 4 * |pairs| - n
    {
      PassesRise(planned, fits, pairs, n + 1);
      HeightIsBounded(planned, Passes(planned, fits, pairs, n + 1), pairs);
      n := n + 1;
    }
    IdleIffAllSettled(planned, fits, Passes(planned, fits, pairs, n), pairs);
  }
}
