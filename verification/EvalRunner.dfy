/**
 Evaluating a split one question at a time: skip what is answered, record every
 result, halt on a streak of infrastructure failures, summarise from disk.
 */
module EvalRunner {
  import opened Wrappers
  import opened Sequences
  import opened Taxonomy
  import opened RunStore
  import Comparison

  datatype Question = Question(id: string, dbId: string, goldSql: string)

  datatype Attempt = Attempt(sql: Option<string>, errorType: Option<string>, answeringModel: string,
                             inputTokens: nat, outputTokens: nat)

  /** The databases and the parser, which answer the same way every time. */
  datatype World<V(==)> = World(
    run: (string, string) -> Option<Comparison.Table<V>>,
    recallOf: (string, Attempt) -> Recall,
    ordered: string -> bool)

  /** What the answerer returned; an exception becomes an internal error. */
  function Settle(answer: Option<Attempt>): Attempt {
    match answer
    case Some(a) => a
    case None => Attempt(None, Some("internal_error"), "", 0, 0)
  }

  /** The comparison, when the reference and the generated query both ran. */
  function Judge<V(==)>(w: World<V>, q: Question, attempt: Attempt): Option<Comparison.Outcome> {
    var gold := w.run(q.goldSql, q.dbId);
    if gold.None? || attempt.sql.None? || attempt.sql.value == "" then None
    else
      var predicted := w.run(attempt.sql.value, q.dbId);
      if predicted.None? then None
      else Some(Comparison.Compare(predicted.value, gold.value, w.ordered(q.goldSql)))
  }

  /** A generated query that does not run is an execution failure, unless a cause is already known. */
  function ErrorType<V(==)>(w: World<V>, q: Question, attempt: Attempt): Option<string> {
    if w.run(q.goldSql, q.dbId).None? || attempt.sql.None? || attempt.sql.value == "" then attempt.errorType
    else if w.run(attempt.sql.value, q.dbId).None? && !Reported(attempt.errorType) then Some("execution_failed")
    else attempt.errorType
  }

  function Evaluate<V(==)>(w: World<V>, q: Question, answer: Option<Attempt>): (a: Artifact)
    ensures a.questionId == q.id
  {
    var attempt := Settle(answer);
    var judged := Judge(w, q, attempt);
    var errorType := ErrorType(w, q, attempt);
    var recall := w.recallOf(q.goldSql, attempt);
    Artifact(
      q.id,
      if judged.None? then None else Some(judged.value.matched),
      Classify(judged, Some(recall), errorType, w.run(q.goldSql, q.dbId).None?),
      errorType,
      recall.atK, recall.unresolved,
      attempt.answeringModel, attempt.inputTokens, attempt.outputTokens)
  }

  /** Whether a question is asked again depends on the answerer alone, never on the databases. */
  lemma RetriedIffAnswererFailed<V>(w: World<V>, q: Question, answer: Option<Attempt>)
    ensures IsInfrastructure(Evaluate(w, q, answer).errorType) <==> IsInfrastructure(Settle(answer).errorType)
  {
  }

  /** A match is filed elsewhere exactly when the answerer also reported an error or recall fell short. */
  lemma MatchedButNotClean<V>(w: World<V>, q: Question, answer: Option<Attempt>)
    requires Evaluate(w, q, answer).matched == Some(true)
    ensures var attempt := Settle(answer);
            Evaluate(w, q, answer).category == NoFailure
            <==> !Reported(attempt.errorType) && !MissedRetrieval(Some(w.recallOf(q.goldSql, attempt)))
    ensures Evaluate(w, q, answer).category == RetrievalMiss
            <==> && !IsInfrastructure(Settle(answer).errorType)
                 && Settle(answer).errorType != Some("unanswerable")
                 && MissedRetrieval(Some(w.recallOf(q.goldSql, Settle(answer))))
  {
  }

  /** Every query gives no rows, and half of what the gold query needs is retrieved. */
  function HalfRecall(): World<int> {
    World((_, _) => Some([]), (_, _) => Recall(false, map[5 := 0.5], 0), _ => false)
  }

  /** A query that returns the right rows without retrieving all it needed counts as a retrieval miss. */
  lemma MatchFiledAsMiss(q: Question)
    ensures var a := Evaluate(HalfRecall(), q, Some(Attempt(Some("SELECT 1"), None, "m", 0, 0)));
            a.matched == Some(true) && a.category == RetrievalMiss
  {
    assert HalfRecall().recallOf(q.goldSql, Attempt(Some("SELECT 1"), None, "m", 0, 0)).atK[5] == 0.5;
  }

  /** The predicted table, when the gold query ran, there is SQL to run, and it ran. */
  function Predicted<V(==)>(w: World<V>, q: Question, attempt: Attempt): Option<Comparison.Table<V>> {
    if w.run(q.goldSql, q.dbId).Some? && attempt.sql.Some? && attempt.sql.value != "" then w.run(attempt.sql.value, q.dbId)
    else None
  }

  /**
   What a recorded match says: both queries ran, and the predicted rows agree with the gold rows, as a list
   if the gold query orders them and as a multiset if not.
   */
  lemma MatchedMeans<V>(w: World<V>, q: Question, answer: Option<Attempt>)
    ensures var a, predicted := Evaluate(w, q, answer), Predicted(w, q, Settle(answer));
            && (a.matched.Some? <==> predicted.Some?)
            && (predicted.Some? ==>
                  (a.matched.value <==>
                   Comparison.Agree(predicted.value, w.run(q.goldSql, q.dbId).value, w.ordered(q.goldSql))))
  {
    var predicted := Predicted(w, q, Settle(answer));
    if predicted.Some? {
      Comparison.AgreeIsMatch(predicted.value, w.run(q.goldSql, q.dbId).value, w.ordered(q.goldSql));
    }
  }

  /** A mismatch is filed by what is wrong with the rows, unless an error or a recall shortfall comes first. */
  lemma MismatchIsFiled<V>(w: World<V>, q: Question, answer: Option<Attempt>)
    requires var attempt := Settle(answer);
             && Predicted(w, q, attempt).Some? && !Reported(attempt.errorType)
             && !MissedRetrieval(Some(w.recallOf(q.goldSql, attempt)))
    requires Evaluate(w, q, answer).matched == Some(false)
    ensures var a, p, g := Evaluate(w, q, answer), Predicted(w, q, Settle(answer)).value, w.run(q.goldSql, q.dbId).value;
            && (a.category == WrongShape <==> !Comparison.SameShape(p, g))
            && (a.category == RowOrder <==>
                  && Comparison.SameShape(p, g) && Comparison.Width(g) <= Comparison.MAX_COLUMNS_FOR_PERMUTATION
                  && w.ordered(q.goldSql) && Comparison.SameRows(p, g, false))
            && a.category in {WrongShape, RowOrder, WrongValues}
  {
    hide Comparison.Compare, Comparison.Agree, Comparison.ColumnsPairUp, Comparison.SameShape, Comparison.SameRows;
    var p, g := Predicted(w, q, Settle(answer)).value, w.run(q.goldSql, q.dbId).value;
    Comparison.VerdictDecides(p, g, w.ordered(q.goldSql));
    Comparison.OutcomeDecides(p, g, w.ordered(q.goldSql));
    Comparison.AgreeIsMatch(p, g, w.ordered(q.goldSql));
    VerdictIsFiled(Judge(w, q, Settle(answer)), Some(w.recallOf(q.goldSql, Settle(answer))), Settle(answer).errorType);
  }

  /** A generated query that does not run is an execution failure unless the answerer named another cause. */
  lemma FailedQueryIsRecorded<V>(w: World<V>, q: Question, answer: Option<Attempt>)
    ensures var a, attempt := Evaluate(w, q, answer), Settle(answer);
            var failed := w.run(q.goldSql, q.dbId).Some? && attempt.sql.Some? && attempt.sql.value != ""
                          && w.run(attempt.sql.value, q.dbId).None?;
            && (failed && !Reported(attempt.errorType) ==> a.errorType == Some("execution_failed"))
            && (!failed || Reported(attempt.errorType) ==> a.errorType == attempt.errorType)
            && (failed ==> a.matched.None?)
            && (failed && !Reported(attempt.errorType) ==>
                  a.category == if MissedRetrieval(Some(w.recallOf(q.goldSql, attempt))) then RetrievalMiss
                                else ExecutionFailed)
            && (w.run(q.goldSql, q.dbId).None? <==> a.category == GoldError)
  {
  }

  /** The rest of the record comes from the attempt and its recall; an answerer that raised counts as an internal error. */
  lemma RecordedFromAttempt<V>(w: World<V>, q: Question, attempt: Attempt)
    ensures var a, recall := Evaluate(w, q, Some(attempt)), w.recallOf(q.goldSql, attempt);
            && a.questionId == q.id && a.answeringModel == attempt.answeringModel
            && a.inputTokens == attempt.inputTokens && a.outputTokens == attempt.outputTokens
            && a.recallAtK == recall.atK && a.unresolved == recall.unresolved
    ensures var a := Evaluate(w, q, None);
            && a.errorType == Some("internal_error") && a.matched.None? && a.answeringModel == ""
            && a.inputTokens == a.outputTokens == 0
            && IsInfrastructure(a.errorType)
  {
  }

  /** What every artifact this runner writes satisfies. */
  predicate WellClassified(a: Artifact) {
    && (IsInfrastructure(a.errorType) ==> a.category in UNSCORED)
    && (a.category == Infrastructure ==> IsInfrastructure(a.errorType))
  }

  const UNSCORED: set<FailureCategory> := {GoldError, Infrastructure}

  lemma EvaluateIsWellClassified<V>(w: World<V>, q: Question, answer: Option<Attempt>)
    ensures WellClassified(Evaluate(w, q, answer))
  {
  }

  // ----- one run, as a function of the files -----

  function Pending(done: set<string>, questions: seq<Question>): (r: seq<Question>)
    ensures forall q :: q in r <==> q in questions && q.id !in done
  {
    if questions == [] then []
    else
      var rest := Pending(done, questions[1..]);
      if questions[0].id in done then rest else [questions[0]] + rest
  }

  function IfPending(done: set<string>, q: Question): seq<Question> {
    if q.id in done then [] else [q]
  }

  lemma PendingFirst(done: set<string>, questions: seq<Question>)
    requires questions != []
    ensures Pending(done, questions) == IfPending(done, questions[0]) + Pending(done, questions[1..])
  {
    assert [] + Pending(done, questions[1..]) == Pending(done, questions[1..]);
  }

  lemma PendingOne(done: set<string>, q: Question)
    ensures Pending(done, [q]) == IfPending(done, q)
  {
    assert Pending(done, [q][1..]) == [];
  }

  lemma NothingPending(done: set<string>, b: seq<Question>)
    ensures Pending(done, [] + b) == Pending(done, []) + Pending(done, b)
  {
    assert [] + b == b && Pending(done, []) == [] && [] + Pending(done, b) == Pending(done, b);
  }

  /** The pending questions are the unanswered ones, each as often as it is listed and in the order of the list. */
  lemma {:induction false} PendingKeepsOrder(done: set<string>, a: seq<Question>, b: seq<Question>)
    ensures Pending(done, a + b) == Pending(done, a) + Pending(done, b)
  {
    hide IfPending, Pending;
    if a == [] {
      NothingPending(done, b);
      assert a == [];
    } else {
      PendingKeepsOrder(done, a[1..], b);
      PendingFirst(done, a);
      PendingFirst(done, a + b);
      TailOfConcat(a, b);
      ConcatAssociates(IfPending(done, a[0]), Pending(done, a[1..]), Pending(done, b));
    }
  }

  function Streak(consecutive: nat, a: Artifact): nat {
    if IsInfrastructure(a.errorType) then consecutive + 1 else 0
  }

  predicate Halts(haltAfter: Option<int>, consecutive: nat) {
    haltAfter.Some? && consecutive >= haltAfter.value
  }

  /** How many of the pending questions a run asks before it halts or finishes. */
  function Asked(answer: Question -> Artifact, pending: seq<Question>, haltAfter: Option<int>, consecutive: nat): (n: nat)
    ensures n <= |pending|
  {
    if pending == [] then 0
    else
      var c := Streak(consecutive, answer(pending[0]));
      if Halts(haltAfter, c) then 1 else 1 + Asked(answer, pending[1..], haltAfter, c)
  }

  function RecordAll(files: Files, asked: seq<Question>, answer: Question -> Artifact): Files {
    if asked == [] then files
    else
      var a := answer(asked[|asked| - 1]);
      RecordAll(files, asked[..|asked| - 1], answer)[a.questionId := a]
  }

  function AskedIn(files: Files, questions: seq<Question>, answer: Question -> Artifact, haltAfter: Option<int>)
    : seq<Question>
  {
    var pending := Pending(Answered(files), questions);
    pending[..Asked(answer, pending, haltAfter, 0)]
  }

  function RunFiles(files: Files, questions: seq<Question>, answer: Question -> Artifact, haltAfter: Option<int>): Files {
    RecordAll(files, AskedIn(files, questions, answer, haltAfter), answer)
  }

  // ----- the summary -----

  datatype Summary = Summary(
    total: nat, scored: nat, matched: nat, goldErrors: nat, infrastructureErrors: nat,
    answeredBy: map<string, nat>, failures: map<FailureCategory, nat>, recall: RecallSummary,
    inputTokens: nat, outputTokens: nat)

  /** How many artifacts there are, how many have recall, and the mean recall at each cut-off. */
  datatype RecallSummary = RecallSummary(questions: nat, scored: nat, unresolved: nat, means: map<nat, real>)

  /** What the summary adds up over the artifacts. */
  datatype Measure =
    | ScoredOnes | MatchedOnes | InCategory(c: FailureCategory) | By(model: string)
    | WithRecall | Unresolved | AtCutoff(k: nat) | TokensIn | TokensOut

  predicate Scored(a: Artifact) {
    a.category !in UNSCORED
  }

  function One(b: bool): nat {
    if b then 1 else 0
  }

  function Amount(m: Measure, a: Artifact): nat {
    match m
    case ScoredOnes => One(Scored(a))
    case MatchedOnes => One(Scored(a) && a.matched == Some(true))
    case InCategory(c) => One(a.category == c)
    case By(model) => One(a.answeringModel == model)
    case WithRecall => One(a.recallAtK != map[])
    case Unresolved => a.unresolved
    case AtCutoff(k) => One(k in a.recallAtK)
    case TokensIn => a.inputTokens
    case TokensOut => a.outputTokens
  }

  function Measuring(m: Measure): Artifact -> nat {
    a => Amount(m, a)
  }

  function Total(m: Measure, listing: seq<Artifact>): nat {
    SumOf(Measuring(m), listing)
  }

  function Models(listing: seq<Artifact>): set<string> {
    set a | a in listing && a.answeringModel != "" :: a.answeringModel
  }

  function RecallAt(k: nat): Artifact -> real {
    (a: Artifact) => if k in a.recallAtK then a.recallAtK[k] else 0.0
  }

  function RecallTotal(k: nat, listing: seq<Artifact>): real {
    RealSumOf(RecallAt(k), listing)
  }

  function Cutoffs(listing: seq<Artifact>): set<nat> {
    set a, k | a in listing && k in a.recallAtK :: k
  }

  /** The mean at a cut-off is over the artifacts that have it, not over all. */
  ghost predicate SummarisesRecall(r: RecallSummary, listing: seq<Artifact>) {
    && r.questions == |listing|
    && r.scored == Total(WithRecall, listing)
    && r.unresolved == Total(Unresolved, listing)
    && r.means.Keys == Cutoffs(listing)
    && forall k :: k in r.means ==>
         Total(AtCutoff(k), listing) > 0 && r.means[k] == RecallTotal(k, listing) / Total(AtCutoff(k), listing) as real
  }

  /** The summary of a run directory in which `listing` is recorded. */
  ghost predicate Summarises(s: Summary, listing: seq<Artifact>) {
    && s.total == |listing|
    && s.scored == Total(ScoredOnes, listing)
    && s.matched == Total(MatchedOnes, listing)
    && s.goldErrors == Total(InCategory(GoldError), listing)
    && s.infrastructureErrors == Total(InCategory(Infrastructure), listing)
    && s.answeredBy.Keys == Models(listing)
    && (forall m :: m in s.answeredBy ==> s.answeredBy[m] == Total(By(m), listing))
    && (forall c: FailureCategory :: c in s.failures && s.failures[c] == Total(InCategory(c), listing))
    && SummarisesRecall(s.recall, listing)
    && s.inputTokens == Total(TokensIn, listing)
    && s.outputTokens == Total(TokensOut, listing)
  }

  function Bump(tally: map<string, nat>, model: string): map<string, nat> {
    if model == "" then tally else tally[model := (if model in tally then tally[model] else 0) + 1]
  }

  function ModelTally(listing: seq<Artifact>): map<string, nat> {
    if listing == [] then map[]
    else
      var last := |listing| - 1;
      Bump(ModelTally(listing[..last]), listing[last].answeringModel)
  }

  /** Every model that answered something is listed, with how many questions it answered. */
  lemma {:induction false} ModelTallyCounts(listing: seq<Artifact>, model: string)
    ensures model in ModelTally(listing) <==> model in Models(listing)
    ensures model != "" ==>
              Total(By(model), listing) == if model in ModelTally(listing) then ModelTally(listing)[model] else 0
    decreases |listing|
  {
    if listing != [] {
      var front, last := listing[..|listing| - 1], listing[|listing| - 1];
      assert listing == front + [last];
      ModelTallyCounts(front, model);
      SumSnoc(Measuring(By(model)), front, last);
    }
  }

  method CountModels(listing: seq<Artifact>) returns (answeredBy: map<string, nat>)
    ensures answeredBy == ModelTally(listing)
  {
    answeredBy := map[];
    for i := 0 to |listing|
      invariant answeredBy == ModelTally(listing[..i])
    {
      assert listing[..i + 1][..i] == listing[..i];
      var model := listing[i].answeringModel;
      if model != "" {
        answeredBy := answeredBy[model := (if model in answeredBy then answeredBy[model] else 0) + 1];
      }
    }
    assert listing[..|listing|] == listing;
  }

  /** Sum and count of the recall values at each cut-off. */
  function RecallTally(listing: seq<Artifact>): map<nat, (real, nat)> {
    if listing == [] then map[]
    else AddRecall(RecallTally(listing[..|listing| - 1]), listing[|listing| - 1].recallAtK)
  }

  function AddRecall(tally: map<nat, (real, nat)>, atK: map<nat, real>): map<nat, (real, nat)> {
    map k | k in tally.Keys + atK.Keys :: AddValue(tally, atK, k)
  }

  function AddValue(tally: map<nat, (real, nat)>, atK: map<nat, real>, k: nat): (real, nat)
    requires k in tally.Keys + atK.Keys
  {
    var (sum, count) := if k in tally then tally[k] else (0.0, 0);
    if k in atK then (sum + atK[k], count + 1) else (sum, count)
  }

  lemma {:induction false} RecallTallyCounts(listing: seq<Artifact>, k: nat)
    ensures var tally := RecallTally(listing);
            && (k in tally <==> k in Cutoffs(listing))
            && RecallTotal(k, listing) == (if k in tally then tally[k].0 else 0.0)
            && Total(AtCutoff(k), listing) == (if k in tally then tally[k].1 else 0)
            && (k in tally ==> tally[k].1 > 0)
    decreases |listing|
  {
    if listing != [] {
      var front, last := listing[..|listing| - 1], listing[|listing| - 1];
      assert listing == front + [last];
      RecallTallyCounts(front, k);
      SumSnoc(Measuring(AtCutoff(k)), front, last);
      RealSumSnoc(RecallAt(k), front, last);
      assert k in Cutoffs(listing) <==> k in Cutoffs(front) || k in last.recallAtK;
    }
  }

  method SummariseRecall(listing: seq<Artifact>) returns (r: RecallSummary)
    ensures SummarisesRecall(r, listing)
  {
    var tally: map<nat, (real, nat)> := map[];
    for i := 0 to |listing|
      invariant tally == RecallTally(listing[..i])
    {
      assert listing[..i + 1][..i] == listing[..i];
      tally := AddRecall(tally, listing[i].recallAtK);
    }
    assert listing[..|listing|] == listing;
    forall k { RecallTallyCounts(listing, k); }
    var means := map k | k in tally :: tally[k].0 / tally[k].1 as real;
    r := RecallSummary(|listing|, Total(WithRecall, listing), Total(Unresolved, listing), means);
  }

  lemma {:induction false} TallyIsTotal(listing: seq<Artifact>, c: FailureCategory)
    ensures Tally(Map((a: Artifact) => a.category, listing), c) == Total(InCategory(c), listing)
    decreases |listing|
  {
    if listing != [] {
      var f := (a: Artifact) => a.category;
      TallyIsTotal(listing[1..], c);
      assert Map(f, listing) == [listing[0].category] + Map(f, listing[1..]);
    }
  }

  method Summarise(listing: seq<Artifact>) returns (s: Summary)
    ensures Summarises(s, listing)
  {
    var answeredBy := CountModels(listing);
    var failures := Counts(Map((a: Artifact) => a.category, listing));
    forall c { TallyIsTotal(listing, c); }
    forall model { ModelTallyCounts(listing, model); }
    var recall := SummariseRecall(listing);
    s := Summary(|listing|, Total(ScoredOnes, listing), Total(MatchedOnes, listing),
                 Total(InCategory(GoldError), listing), Total(InCategory(Infrastructure), listing),
                 answeredBy, failures, recall, Total(TokensIn, listing), Total(TokensOut, listing));
  }

  // ----- the run -----

  /** Zero would mean two opposite things, so only a positive bound or none is accepted. */
  predicate BadHalt(haltAfter: Option<int>) {
    haltAfter.Some? && haltAfter.value < 1
  }

  function Answering<V(==)>(w: World<V>, answerer: Question -> Option<Attempt>): Question -> Artifact {
    q => Evaluate(w, q, answerer(q))
  }

  method AskAll(store: Store, answer: Question -> Artifact, pending: seq<Question>, haltAfter: Option<int>)
    requires Named(store.root.files)
    modifies store.root
    ensures Named(store.root.files) && store.root.manifest == old(store.root.manifest)
    ensures store.root.files ==
            RecordAll(old(store.root.files), pending[..Asked(answer, pending, haltAfter, 0)], answer)
  {
    ghost var start := store.root.files;
    var consecutive := 0;
    var i := 0;
    while i < |pending|
      invariant i <= |pending| && Named(store.root.files) && store.root.manifest == old(store.root.manifest)
      invariant store.root.files == RecordAll(start, pending[..i], answer)
      invariant Asked(answer, pending, haltAfter, 0) == i + Asked(answer, pending[i..], haltAfter, consecutive)
    {
      var artifact := answer(pending[i]);
      store.Record(artifact);
      assert pending[..i + 1][..i] == pending[..i];
      assert pending[i..][1..] == pending[i + 1..];
      i := i + 1;
      consecutive := Streak(consecutive, artifact);
      if Halts(haltAfter, consecutive) { break; }
    }
  }

  /** A run ends in an error before any question is asked, or with a summary of the whole directory. */
  method Run<V(==)>(store: Store, w: World<V>, questions: seq<Question>, answerer: Question -> Option<Attempt>,
                    haltAfter: Option<int>)
    returns (r: Result<Summary, string>, ghost listing: seq<Artifact>)
    requires Named(store.root.files)
    modifies store.root
    ensures Named(store.root.files)
    ensures store.root.Disk() ==
            if BadHalt(haltAfter) then old(store.root.Disk())
            else RunDisk(old(store.root.Disk()), store.fingerprint, questions, Answering(w, answerer), haltAfter)
    ensures r.Err? <==>
            || (haltAfter.Some? && haltAfter.value <= 0)
            || old(store.root.manifest) !in {None, Some(store.fingerprint)}
    ensures r.Ok? ==> Lists(listing, store.root.files) && Summarises(r.value, listing)
  {
    if BadHalt(haltAfter) { return Err("halt_after must be at least 1 or None"), []; }
    var answer := Answering(w, answerer);
    store.Start();
    var done := store.Resume();
    if done.Err? { return Err(done.error), []; }
    AskAll(store, answer, Pending(done.value, questions), haltAfter);
    var recorded := store.Artifacts();
    var s := Summarise(recorded);
    return Ok(s), recorded;
  }

  /** One run over a directory, whatever its configuration. */
  function RunDisk(disk: Contents, fingerprint: string, questions: seq<Question>, answer: Question -> Artifact,
                   haltAfter: Option<int>): Contents {
    if disk.manifest.Some? && disk.manifest.value != fingerprint then disk
    else Contents(Some(fingerprint), RunFiles(disk.files, questions, answer, haltAfter))
  }
}
