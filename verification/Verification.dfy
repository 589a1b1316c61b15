/**
 Classifying one benchmark query after running it on SQLite and on the converted
 PostgreSQL copy, and the report that counts the classes.
 What the engines answered is an input; what is decided from it is the model.
 */
module Verification {
  import opened Wrappers
  import opened Sequences
  import opened LimitTie
  import Comparison
  import Permutations

  type Table<V> = seq<Row<V>>

  datatype Outcome =
    Match | GoldError | TranspileError | Mismatch | DialectError | AmbiguousOrder | UndeterminedLimit | PostgresError

  /** SQLSTATEs that blame the conversion: undefined table, undefined column, invalid schema name. */
  const CONVERSION_FAULTS: set<string> := {"42P01", "42703", "3F000"}

  /** What the two engines answered, with `None` or an error where a statement did not run. */
  datatype Evidence<V> = Evidence(
    query: Query,
    orderEnforced: bool,
    expected: Option<Table<V>>,
    transpiles: bool,
    actual: Result<Table<V>, Option<string>>,
    probe: Option<Table<V>>,
    bareExpected: Option<Table<V>>,
    bareActual: Option<Table<V>>)

  /** The probe appends the ORDER BY keys to the select list, so its rows hold at least those. */
  predicate ProbeHasKeys<V>(e: Evidence<V>) {
    e.query.Select? && e.probe.Some? ==> Wide(e.probe.value, e.query.keyCount)
  }

  function ClassifyPgError(sqlstate: Option<string>): Outcome {
    if sqlstate.Some? && sqlstate.value in CONVERSION_FAULTS then PostgresError else DialectError
  }

  predicate LimitIsUndetermined<V(==)>(e: Evidence<V>)
    requires ProbeHasKeys(e)
  {
    && LimitCutIsTied(e.query, e.probe)
    && e.bareExpected.Some?
    && e.bareActual.Some?
    && Comparison.Compare(e.bareActual.value, e.bareExpected.value, false).matched
  }

  function CheckOne<V(==)>(e: Evidence<V>): Outcome
    requires ProbeHasKeys(e)
  {
    if e.expected.None? then GoldError
    else if !e.transpiles then TranspileError
    else if e.actual.Err? then ClassifyPgError(e.actual.error)
    else if Comparison.Compare(e.actual.value, e.expected.value, e.orderEnforced).matched then Match
    else if e.orderEnforced && Comparison.Compare(e.actual.value, e.expected.value, false).matched then AmbiguousOrder
    else if LimitIsUndetermined(e) then UndeterminedLimit
    else Mismatch
  }

  // ----- what agreeing means -----

  /** An ordered match is an unordered one. */
  lemma OrderedIsUnordered<V>(a: Table<V>, b: Table<V>)
    requires Comparison.Compare(a, b, true).matched
    ensures Comparison.Compare(a, b, false).matched
  {
    Comparison.CompareDecides(a, b, true);
    Comparison.CompareDecides(a, b, false);
    if b != [] && Comparison.Width(b) <= Comparison.MAX_COLUMNS_FOR_PERMUTATION {
      var p :| Comparison.MatchesUnder(a, b, true, p);
      assert Comparison.MatchesUnder(a, b, false, p);
    }
  }

  /** What remains when the comparison fails even without order. */
  lemma MismatchIff<V>(e: Evidence<V>)
    requires ProbeHasKeys(e) && e.expected.Some? && e.transpiles && e.actual.Ok?
    ensures CheckOne(e) == Mismatch <==>
            !Comparison.Agree(e.actual.value, e.expected.value, false) && !LimitIsUndetermined(e)
    ensures CheckOne(e) in {Match, AmbiguousOrder, UndeterminedLimit, Mismatch}
  {
    hide Comparison.Compare, Comparison.Agree;
    Comparison.AgreeIsMatch(e.actual.value, e.expected.value, false);
    if Comparison.Compare(e.actual.value, e.expected.value, true).matched {
      OrderedIsUnordered(e.actual.value, e.expected.value);
    }
  }

  /** On results of one column, or too wide to permute, agreeing without order is equality of multisets. */
  lemma UnorderedAgreement<V>(a: Table<V>, b: Table<V>, visible: nat)
    requires Comparison.Rectangular(a, visible) && Comparison.Rectangular(b, visible)
    ensures multiset(a) == multiset(b) ==> Comparison.Agree(a, b, false)
    ensures visible == 1 || visible > Comparison.MAX_COLUMNS_FOR_PERMUTATION ==>
              (Comparison.Agree(a, b, false) <==> multiset(a) == multiset(b))
  {
    if multiset(a) == multiset(b) { SameMultisetSameLength(a, b); }
    if Comparison.SameShape(a, b) {
      Comparison.IdentityMatches(a, b, false);
      if visible == 1 && b != [] && Comparison.SameUpToColumns(a, b, false) {
        var p :| Comparison.MatchesUnder(a, b, false, p);
        OneColumn(p);
      }
    }
  }

  lemma OneColumn(p: seq<nat>)
    requires Permutations.IsPermutation(p, 1)
    ensures p == Permutations.Identity(1)
  {
    Permutations.PermutationRange(p, 1);
    assert p[0] in p;
  }

  function RowValues<V>(t: Table<V>): seq<multiset<V>> {
    Map((row: Row<V>) => multiset(row), t)
  }

  /** Permuting columns keeps what values each row holds. */
  lemma AgreementKeepsValues<V>(a: Table<V>, b: Table<V>)
    requires Comparison.Agree(a, b, false)
    ensures multiset(RowValues(a)) == multiset(RowValues(b))
  {
    var f := (row: Row<V>) => multiset(row);
    if Comparison.Width(b) <= Comparison.MAX_COLUMNS_FOR_PERMUTATION {
      var p :| Comparison.MatchesUnder(a, b, false, p);
      var w := Comparison.Width(b);
      Comparison.PermutedShape(a, p, w);
      forall i | 0 <= i < |a|
        ensures multiset(Comparison.Permuted(a, p)[i]) == multiset(a[i])
      {
        Permutations.RearrangeKeepsMultiset(a[i], p);
      }
      assert RowValues(Comparison.Permuted(a, p)) == RowValues(a);
      MapRespectsMultisets(f, Comparison.Permuted(a, p), b);
      assert Map(f, Comparison.Permuted(a, p)) == RowValues(Comparison.Permuted(a, p)) && Map(f, b) == RowValues(b);
    } else {
      MapRespectsMultisets(f, a, b);
      assert Map(f, a) == RowValues(a) && Map(f, b) == RowValues(b);
    }
  }

  lemma AgreementComposes<V>(a: Table<V>, b: Table<V>, c: Table<V>)
    requires Comparison.Agree(b, a, false) && Comparison.Agree(c, a, false)
    ensures Comparison.Agree(c, b, false)
  {
    hide Comparison.Agree, Comparison.Compare;
    Comparison.AgreeIsMatch(b, a, false);
    Comparison.AgreeIsMatch(c, a, false);
    Comparison.AgreeIsMatch(c, b, false);
    Comparison.MatchIsSymmetric(b, a, false);
    Comparison.MatchIsTransitive(c, a, b, false);
  }

  // ----- what each class promises -----

  /** The scoreable classes, in terms of the data rather than of the search. */
  lemma ClassesMean<V>(e: Evidence<V>)
    requires ProbeHasKeys(e) && e.expected.Some? && e.transpiles && e.actual.Ok?
    ensures CheckOne(e) == Match <==> Comparison.Agree(e.actual.value, e.expected.value, e.orderEnforced)
    ensures CheckOne(e) == AmbiguousOrder <==>
            && Comparison.Agree(e.actual.value, e.expected.value, false)
            && !Comparison.Agree(e.actual.value, e.expected.value, e.orderEnforced)
    ensures CheckOne(e) == UndeterminedLimit <==>
            && !Comparison.Agree(e.actual.value, e.expected.value, false)
            && LimitCutIsTied(e.query, e.probe) && e.bareExpected.Some? && e.bareActual.Some?
            && Comparison.Agree(e.bareActual.value, e.bareExpected.value, false)
    ensures CheckOne(e) in {Match, AmbiguousOrder, UndeterminedLimit, Mismatch}
  {
    hide Comparison.Agree, Comparison.Compare;
    Comparison.AgreeIsMatch(e.actual.value, e.expected.value, e.orderEnforced);
    Comparison.AgreeIsMatch(e.actual.value, e.expected.value, false);
    if Comparison.Compare(e.actual.value, e.expected.value, true).matched {
      OrderedIsUnordered(e.actual.value, e.expected.value);
    }
    if e.bareActual.Some? && e.bareExpected.Some? {
      Comparison.AgreeIsMatch(e.bareActual.value, e.bareExpected.value, false);
    }
  }

  /** The classes of a statement that does not run, each named by the first thing that failed. */
  lemma FailuresMean<V>(e: Evidence<V>)
    requires ProbeHasKeys(e)
    ensures CheckOne(e) == GoldError <==> e.expected.None?
    ensures CheckOne(e) == TranspileError <==> e.expected.Some? && !e.transpiles
    ensures var rejected := e.expected.Some? && e.transpiles && e.actual.Err?;
            && (CheckOne(e) == PostgresError <==>
                  rejected && (e.actual.error == Some("42P01") || e.actual.error == Some("42703")
                               || e.actual.error == Some("3F000")))
            && (CheckOne(e) == DialectError <==> rejected && CheckOne(e) != PostgresError)
  {
    hide Comparison.Compare, LimitIsUndetermined;
  }

  // ----- the report -----

  const COMPARABLE: set<Outcome> := {Match, Mismatch, AmbiguousOrder}
  const MATCHED: set<Outcome> := {Match, AmbiguousOrder}
  const UNSCOREABLE: set<Outcome> := {GoldError, DialectError, UndeterminedLimit}

  function CountIn(checks: seq<Outcome>, wanted: set<Outcome>): (n: nat)
    ensures n <= |checks|
  {
    if checks == [] then 0 else (if checks[0] in wanted then 1 else 0) + CountIn(checks[1..], wanted)
  }

  class VerificationReport {
    var checks: seq<Outcome>

    constructor ()
      ensures checks == []
    {
      checks := [];
    }

    function Comparable(): nat
      reads this
    {
      CountIn(checks, COMPARABLE)
    }

    function Matched(): nat
      reads this
    {
      CountIn(checks, MATCHED)
    }

    function Unscoreable(): nat
      reads this
    {
      CountIn(checks, UNSCOREABLE)
    }

    predicate Verified()
      reads this
    {
      Comparable() > 0 && Matched() == Comparable()
    }
  }

  /** One check per question, in order. */
  method VerifyDatabase<V(==)>(questions: seq<Evidence<V>>) returns (report: VerificationReport)
    requires forall i :: 0 <= i < |questions| ==> ProbeHasKeys(questions[i])
    ensures fresh(report) && |report.checks| == |questions|
    ensures forall i :: 0 <= i < |questions| ==> report.checks[i] == CheckOne(questions[i])
  {
    report := new VerificationReport();
    for i := 0 to |questions|
      invariant fresh(report) && |report.checks| == i
      invariant forall k :: 0 <= k < i ==> report.checks[k] == CheckOne(questions[k])
    {
      report.checks := report.checks + [CheckOne(questions[i])];
    }
  }

  lemma {:induction false} CountsAdd(checks: seq<Outcome>, a: set<Outcome>, b: set<Outcome>)
    requires a !! b
    ensures CountIn(checks, a + b) == CountIn(checks, a) + CountIn(checks, b)
  {
    if checks != [] { CountsAdd(checks[1..], a, b); }
  }

  lemma {:induction false} CountsNone(checks: seq<Outcome>, wanted: set<Outcome>)
    ensures CountIn(checks, wanted) == 0 <==> forall c :: c in checks ==> c !in wanted
  {
    if checks != [] {
      CountsNone(checks[1..], wanted);
      assert checks == [checks[0]] + checks[1..];
    }
  }

  lemma {:induction false} CountsAll(checks: seq<Outcome>, wanted: set<Outcome>)
    requires forall c: Outcome :: c in wanted
    ensures CountIn(checks, wanted) == |checks|
  {
    if checks != [] { CountsAll(checks[1..], wanted); }
  }

  lemma EveryOutcome(c: Outcome)
    ensures c in COMPARABLE + UNSCOREABLE + {TranspileError, PostgresError}
  {
    match c
    case Match => case GoldError => case TranspileError => case Mismatch =>
    case DialectError => case AmbiguousOrder => case UndeterminedLimit => case PostgresError =>
  }

  /** Every question is comparable, unscoreable, or a failure to translate or build; and what `verified` means. */
  lemma {:induction false} ReportAddsUp(checks: seq<Outcome>)
    ensures |checks| == CountIn(checks, COMPARABLE) + CountIn(checks, UNSCOREABLE)
                        + CountIn(checks, {TranspileError, PostgresError})
    ensures CountIn(checks, COMPARABLE) == CountIn(checks, MATCHED) + CountIn(checks, {Mismatch})
    ensures CountIn(checks, COMPARABLE) > 0 && CountIn(checks, MATCHED) == CountIn(checks, COMPARABLE)
            <==> (exists c :: c in checks && c in COMPARABLE) && Mismatch !in checks
  {
    var failed := {TranspileError, PostgresError};
    CountsAdd(checks, COMPARABLE, UNSCOREABLE);
    CountsAdd(checks, COMPARABLE + UNSCOREABLE, failed);
    forall c: Outcome ensures c in COMPARABLE + UNSCOREABLE + failed {
      EveryOutcome(c);
    }
    CountsAll(checks, COMPARABLE + UNSCOREABLE + failed);
    CountsAdd(checks, MATCHED, {Mismatch});
    assert MATCHED + {Mismatch} == COMPARABLE;
    CountsNone(checks, {Mismatch});
    CountsNone(checks, COMPARABLE);
  }

  /** What the report's own properties say about its checks. */
  lemma ReportMeans(report: VerificationReport)
    ensures report.Verified() <==> (exists c :: c in report.checks && c in COMPARABLE) && Mismatch !in report.checks
    ensures report.Comparable() + report.Unscoreable() + CountIn(report.checks, {TranspileError, PostgresError})
            == |report.checks|
    ensures report.Matched() + CountIn(report.checks, {Mismatch}) == report.Comparable()
  {
    ReportAddsUp(report.checks);
  }

  /** A missing table or column does not stop a database from counting as verified. */
  lemma ConversionFaultsDoNotUnverify(checks: seq<Outcome>)
    requires CountIn(checks, COMPARABLE) > 0 && CountIn(checks, MATCHED) == CountIn(checks, COMPARABLE)
    ensures CountIn([PostgresError] + checks, COMPARABLE) > 0
    ensures CountIn([PostgresError] + checks, MATCHED) == CountIn([PostgresError] + checks, COMPARABLE)
  {
    assert ([PostgresError] + checks)[1..] == checks;
  }
}
