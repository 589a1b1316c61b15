/** Why a question did not score: one category each, earliest cause first. */
module Taxonomy {
  import opened Wrappers
  import opened Sequences
  import Comparison

  datatype FailureCategory =
    | NoFailure | RetrievalMiss | UnknownIdentifier | SyntaxUnrecoverable | NotReadOnly | Timeout | RowOrder
    | WrongShape | WrongValues | GoldError | Unanswerable | ExecutionFailed | Infrastructure | Uncategorised

  /** Recall at each cut-off; `skipped` when the gold query names nothing to recall. */
  datatype Recall = Recall(skipped: bool, atK: map<nat, real>, unresolved: nat)

  const INFRASTRUCTURE: set<string> := {"llm_failed", "scope_unavailable", "retrieval_failed", "internal_error"}

  const RECALL_FLOOR: real := 1.0

  predicate IsInfrastructure(errorType: Option<string>) {
    errorType.Some? && errorType.value in INFRASTRUCTURE
  }

  function FromErrorType(e: string): FailureCategory {
    if e in {"unknown_identifier", "table_not_found"} then UnknownIdentifier
    else if e in {"syntax_error", "multiple_statements", "explain_failed"} then SyntaxUnrecoverable
    else if e in {"not_read_only", "permission_denied"} then NotReadOnly
    else if e in {"statement_timeout", "cost_exceeded"} then Timeout
    else if e == "execution_failed" then ExecutionFailed
    else if e in INFRASTRUCTURE then Infrastructure
    else Uncategorised
  }

  function FromVerdict(v: Comparison.Verdict): FailureCategory {
    match v
    case OrderMismatch => RowOrder
    case ShapeMismatch => WrongShape
    case ValueMismatch => WrongValues
    case NoColumnBijection => WrongValues
    case Match => Uncategorised
  }

  /** The best recall over all cut-offs is below the floor. */
  predicate MissedRetrieval(recall: Option<Recall>) {
    && recall.Some?
    && !recall.value.skipped
    && recall.value.atK != map[]
    && forall k :: k in recall.value.atK ==> recall.value.atK[k] < RECALL_FLOOR
  }

  /** An empty string is no error at all. */
  predicate Reported(errorType: Option<string>) {
    errorType.Some? && errorType.value != ""
  }

  function Classify(comparison: Option<Comparison.Outcome>, recall: Option<Recall>, errorType: Option<string>,
                    goldFailed: bool): FailureCategory {
    if goldFailed then GoldError
    else if IsInfrastructure(errorType) then Infrastructure
    else if errorType == Some("unanswerable") then Unanswerable
    else if MissedRetrieval(recall) then RetrievalMiss
    else if Reported(errorType) then FromErrorType(errorType.value)
    else if comparison.None? then Uncategorised
    else if comparison.value.matched then NoFailure
    else FromVerdict(comparison.value.verdict)
  }

  /** Leaving the denominator and being asked again rest on one predicate. */
  lemma InfrastructureIff(comparison: Option<Comparison.Outcome>, recall: Option<Recall>, errorType: Option<string>,
                          goldFailed: bool)
    ensures Classify(comparison, recall, errorType, goldFailed) == Infrastructure
            <==> !goldFailed && IsInfrastructure(errorType)
    ensures Classify(comparison, recall, errorType, goldFailed) == GoldError <==> goldFailed
  {
  }

  /** A clean bill needs more than a match: no reported error and no recall shortfall. */
  lemma NoFailureIff(comparison: Option<Comparison.Outcome>, recall: Option<Recall>, errorType: Option<string>,
                     goldFailed: bool)
    ensures Classify(comparison, recall, errorType, goldFailed) == NoFailure
            <==> && !goldFailed
                 && !Reported(errorType)
                 && !MissedRetrieval(recall)
                 && comparison.Some? && comparison.value.matched
  {
  }

  /** The earliest cause wins, whatever else went wrong with the question. */
  lemma EarliestCauseWins(comparison: Option<Comparison.Outcome>, recall: Option<Recall>, errorType: Option<string>,
                          goldFailed: bool)
    ensures var c, asked := Classify(comparison, recall, errorType, goldFailed), !goldFailed && !IsInfrastructure(errorType);
            && (c == Unanswerable <==> asked && errorType == Some("unanswerable"))
            && (c == RetrievalMiss <==> asked && errorType != Some("unanswerable") && MissedRetrieval(recall))
            && (c == ExecutionFailed <==> asked && !MissedRetrieval(recall) && errorType == Some("execution_failed"))
  {
  }

  /** Which reported errors are retried, spelled out. */
  lemma InfrastructureErrors(e: string)
    ensures IsInfrastructure(Some(e)) <==>
            e == "llm_failed" || e == "scope_unavailable" || e == "retrieval_failed" || e == "internal_error"
    ensures !IsInfrastructure(None)
  {
  }

  /** Recall fell short when some cut-off was measured and even the best stayed below one. */
  lemma ShortfallMeans(r: Recall, best: nat)
    requires best in r.atK && forall k :: k in r.atK ==> r.atK[k] <= r.atK[best]
    ensures MissedRetrieval(Some(r)) <==> !r.skipped && r.atK[best] < 1.0
  {
  }

  lemma NoShortfallWithoutRecall(r: Recall)
    ensures !MissedRetrieval(None)
    ensures r.atK == map[] ==> !MissedRetrieval(Some(r))
  {
  }

  /** Where each reported error is filed when nothing earlier explains the question. */
  lemma ReportedErrorIsFiled(comparison: Option<Comparison.Outcome>, recall: Option<Recall>, e: string)
    requires e != "" && !IsInfrastructure(Some(e)) && e != "unanswerable" && !MissedRetrieval(recall)
    ensures var c := Classify(comparison, recall, Some(e), false);
            && (c == UnknownIdentifier <==> e == "unknown_identifier" || e == "table_not_found")
            && (c == SyntaxUnrecoverable <==> e == "syntax_error" || e == "multiple_statements" || e == "explain_failed")
            && (c == NotReadOnly <==> e == "not_read_only" || e == "permission_denied")
            && (c == Timeout <==> e == "statement_timeout" || e == "cost_exceeded")
            && (c == ExecutionFailed <==> e == "execution_failed")
            && (c in {UnknownIdentifier, SyntaxUnrecoverable, NotReadOnly, Timeout, ExecutionFailed, Uncategorised})
  {
  }

  /** With no error to report, the comparison decides, and none at all is left unexplained. */
  lemma VerdictIsFiled(comparison: Option<Comparison.Outcome>, recall: Option<Recall>, errorType: Option<string>)
    requires !Reported(errorType) && !MissedRetrieval(recall)
    requires comparison.Some? ==> (comparison.value.matched <==> comparison.value.verdict == Comparison.Match)
    ensures var c := Classify(comparison, recall, errorType, false);
            && (c == Uncategorised <==> comparison.None?)
            && (c == NoFailure <==> comparison.Some? && comparison.value.verdict == Comparison.Match)
            && (c == RowOrder <==> comparison.Some? && comparison.value.verdict == Comparison.OrderMismatch)
            && (c == WrongShape <==> comparison.Some? && comparison.value.verdict == Comparison.ShapeMismatch)
            && (c == WrongValues <==>
                  && comparison.Some?
                  && (comparison.value.verdict == Comparison.ValueMismatch
                      || comparison.value.verdict == Comparison.NoColumnBijection))
  {
  }

  function Tally(categories: seq<FailureCategory>, c: FailureCategory): nat {
    multiset(categories)[c]
  }

  /** Counts with every category present, even at zero. */
  method Counts(categories: seq<FailureCategory>) returns (tally: map<FailureCategory, nat>)
    ensures forall c: FailureCategory :: c in tally && tally[c] == Tally(categories, c)
  {
    tally := map[NoFailure := 0, RetrievalMiss := 0, UnknownIdentifier := 0, SyntaxUnrecoverable := 0,
                 NotReadOnly := 0, Timeout := 0, RowOrder := 0, WrongShape := 0, WrongValues := 0, GoldError := 0,
                 Unanswerable := 0, ExecutionFailed := 0, Infrastructure := 0, Uncategorised := 0];
    EveryCategory(tally.Keys);
    for i := 0 to |categories|
      invariant forall c: FailureCategory :: c in tally && tally[c] == Tally(categories[..i], c)
    {
      assert categories[..i + 1] == categories[..i] + [categories[i]];
      tally := tally[categories[i] := tally[categories[i]] + 1];
    }
    assert categories[..|categories|] == categories;
  }

  lemma EveryCategory(s: set<FailureCategory>)
    requires NoFailure in s && RetrievalMiss in s && UnknownIdentifier in s && SyntaxUnrecoverable in s
    requires NotReadOnly in s && Timeout in s && RowOrder in s && WrongShape in s && WrongValues in s
    requires GoldError in s && Unanswerable in s && ExecutionFailed in s && Infrastructure in s && Uncategorised in s
    ensures forall c: FailureCategory :: c in s
  {
    forall c: FailureCategory
      ensures c in s
    {
      match c
      case NoFailure => case RetrievalMiss => case UnknownIdentifier => case SyntaxUnrecoverable =>
      case NotReadOnly => case Timeout => case RowOrder => case WrongShape => case WrongValues =>
      case GoldError => case Unanswerable => case ExecutionFailed => case Infrastructure => case Uncategorised =>
    }
  }
}
