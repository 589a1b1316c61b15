/** What holds over whole chains of halted, failing and resumed runs on one directory. */
module EvalChains {
  import opened Wrappers
  import opened Sequences
  import opened Taxonomy
  import opened RunStore
  import opened EvalRunner
  import opened QuestionSet

  // ----- what one run writes -----

  ghost predicate AnswersByName(answer: Question -> Artifact) {
    forall q: Question :: answer(q).questionId == q.id
  }

  lemma {:induction false} RecordAllAt(files: Files, asked: seq<Question>, answer: Question -> Artifact, id: string)
    requires AnswersByName(answer)
    ensures var now := RecordAll(files, asked, answer);
            if exists q :: q in asked && q.id == id
            then id in now && exists q :: q in asked && q.id == id && now[id] == answer(q)
            else (id in now <==> id in files) && (id in files ==> now[id] == files[id])
    decreases |asked|
  {
    if asked != [] {
      var front, last := asked[..|asked| - 1], asked[|asked| - 1];
      assert asked == front + [last];
      RecordAllAt(files, front, answer, id);
      if last.id == id { assert last in asked; }
    }
  }

  /** A result that says something about the model survives every later run. */
  lemma AnsweredIsNeverOverwritten(files: Files, questions: seq<Question>, answer: Question -> Artifact,
                                   haltAfter: Option<int>, id: string)
    requires AnswersByName(answer) && id in Answered(files)
    ensures var now := RunFiles(files, questions, answer, haltAfter);
            id in Answered(now) && now[id] == files[id]
  {
    var pending := Pending(Answered(files), questions);
    RecordAllAt(files, AskedIn(files, questions, answer, haltAfter), answer, id);
    assert forall q :: q in AskedIn(files, questions, answer, haltAfter) ==> q in pending;
  }

  lemma {:induction false} PendingIsDistinct(done: set<string>, questions: seq<Question>)
    requires DistinctIds(questions)
    ensures DistinctIds(Pending(done, questions))
  {
    if questions != [] {
      PendingIsDistinct(done, questions[1..]);
      var rest := Pending(done, questions[1..]);
      forall q | q in rest
        ensures q.id != questions[0].id
      {
        assert q in questions[1..];
      }
    }
  }

  /** With distinct question ids, every single write of a run lands on a question not yet answered. */
  lemma WritesOnlyUnanswered(files: Files, questions: seq<Question>, answer: Question -> Artifact,
                             haltAfter: Option<int>, i: nat)
    requires AnswersByName(answer) && DistinctIds(questions)
    requires i < |AskedIn(files, questions, answer, haltAfter)|
    ensures var asked := AskedIn(files, questions, answer, haltAfter);
            asked[i].id !in Answered(RecordAll(files, asked[..i], answer))
  {
    var asked := AskedIn(files, questions, answer, haltAfter);
    var pending := Pending(Answered(files), questions);
    PendingIsDistinct(Answered(files), questions);
    assert asked[i] == pending[i];
    RecordAllAt(files, asked[..i], answer, asked[i].id);
    forall q | q in asked[..i]
      ensures q.id != asked[i].id
    {
      var k :| 0 <= k < i && asked[..i][k] == q;
      assert pending[k] == q;
    }
  }

  /** Question `j` is the last of the first `n` with this id, and it got a result that is not an infrastructure failure. */
  ghost predicate LastAnswers(asked: seq<Question>, answer: Question -> Artifact, j: nat, n: nat, id: string)
    requires n <= |asked|
  {
    && j < n && asked[j].id == id && !IsInfrastructure(answer(asked[j]).errorType)
    && forall k :: j < k < n ==> asked[k].id != id
  }

  lemma WriteAnswers(files: Files, a: Artifact, id: string)
    ensures id in Answered(files[a.questionId := a]) <==>
            if a.questionId == id then !IsInfrastructure(a.errorType) else id in Answered(files)
  {
  }

  ghost predicate AnsweredEarlier(asked: seq<Question>, answer: Question -> Artifact, n: nat, id: string)
    requires n <= |asked|
  {
    exists j: nat :: LastAnswers(asked, answer, j, n, id)
  }

  lemma LastAnswersStep(asked: seq<Question>, answer: Question -> Artifact, n: nat, id: string)
    requires n < |asked|
    ensures AnsweredEarlier(asked, answer, n + 1, id) <==>
            if asked[n].id == id then !IsInfrastructure(answer(asked[n]).errorType)
            else AnsweredEarlier(asked, answer, n, id)
  {
    if asked[n].id == id {
      if !IsInfrastructure(answer(asked[n]).errorType) { assert LastAnswers(asked, answer, n, n + 1, id); }
    } else {
      if j: nat :| LastAnswers(asked, answer, j, n, id) { assert LastAnswers(asked, answer, j, n + 1, id); }
      var next := n + 1;
      if j: nat :| LastAnswers(asked, answer, j, next, id) { assert LastAnswers(asked, answer, j, n, id); }
    }
  }

  lemma {:induction false} AnsweredIffLastAnswers(files: Files, asked: seq<Question>, answer: Question -> Artifact,
                                                  n: nat, id: string)
    requires AnswersByName(answer) && id !in Answered(files) && n <= |asked|
    ensures id in Answered(RecordAll(files, asked[..n], answer)) <==> AnsweredEarlier(asked, answer, n, id)
    decreases n
  {
    hide Answered;
    if n == 0 {
      assert asked[..0] == [];
    } else {
      AnsweredIffLastAnswers(files, asked, answer, n - 1, id);
      assert asked[..n][..n - 1] == asked[..n - 1];
      WriteAnswers(RecordAll(files, asked[..n - 1], answer), answer(asked[n - 1]), id);
      assert answer(asked[n - 1]).questionId == asked[n - 1].id;
      LastAnswersStep(asked, answer, n - 1, id);
    }
  }

  /**
   Exactly which writes of one run land on an answered question: those whose id was asked earlier in the
   same run, the last time with a result that was not an infrastructure failure.
   */
  lemma OverwritesIffRepeated(files: Files, questions: seq<Question>, answer: Question -> Artifact,
                              haltAfter: Option<int>, i: nat)
    requires AnswersByName(answer) && i < |AskedIn(files, questions, answer, haltAfter)|
    ensures var asked := AskedIn(files, questions, answer, haltAfter);
            asked[i].id in Answered(RecordAll(files, asked[..i], answer)) <==>
              AnsweredEarlier(asked, answer, i, asked[i].id)
  {
    hide RecordAll, AnsweredEarlier;
    var asked := AskedIn(files, questions, answer, haltAfter);
    assert asked[i] in Pending(Answered(files), questions);
    AnsweredIffLastAnswers(files, asked, answer, i, asked[i].id);
  }

  /** One such write: the second question with an id, failing, replaces the answer to the first. */
  lemma RepeatedIdsLoseAnAnswer(answer: Question -> Artifact, a: Question, b: Question)
    requires AnswersByName(answer) && a.id == b.id
    requires !IsInfrastructure(answer(a).errorType) && IsInfrastructure(answer(b).errorType)
    ensures Answered(RecordAll(map[], [a], answer)) == {a.id}
    ensures Answered(RunFiles(map[], [a, b], answer, None)) == {}
  {
    assert [a][..0] == [] && [a, b][..1] == [a];
    assert Pending({}, [b]) == [b] by { assert [b][1..] == []; }
    assert Pending({}, [a, b]) == [a, b] by { assert [a, b][1..] == [b]; }
    assert Asked(answer, [b], None, 0) == 1 by { assert [b][1..] == []; }
    assert Asked(answer, [a, b], None, 0) == 2 by { assert [a, b][1..] == [b]; }
    var nothing: Files := map[];
    assert Answered(nothing) == {};
    assert AskedIn(nothing, [a, b], answer, None) == [a, b];
    assert RecordAll(map[], [a], answer) == map[a.id := answer(a)];
  }

  // ----- progress -----

  function Unanswered(files: Files, questions: seq<Question>): set<string> {
    set q | q in questions && q.id !in Answered(files) :: q.id
  }

  /** A run never un-answers a question, and shrinks the rest exactly when some result was not infrastructure. */
  lemma RunShrinksUnanswered(files: Files, questions: seq<Question>, answer: Question -> Artifact, haltAfter: Option<int>)
    requires AnswersByName(answer) && DistinctIds(questions)
    ensures var now := RunFiles(files, questions, answer, haltAfter);
            && Unanswered(now, questions) <= Unanswered(files, questions)
            && (Unanswered(now, questions) < Unanswered(files, questions) <==>
                exists q :: q in AskedIn(files, questions, answer, haltAfter) && !IsInfrastructure(answer(q).errorType))
  {
    var now := RunFiles(files, questions, answer, haltAfter);
    forall id | id in Unanswered(now, questions)
      ensures id in Unanswered(files, questions)
    {
      if id in Answered(files) { AnsweredIsNeverOverwritten(files, questions, answer, haltAfter, id); }
    }
    forall q | q in AskedIn(files, questions, answer, haltAfter)
      ensures q.id in Unanswered(files, questions)
      ensures q.id in Answered(now) <==> !IsInfrastructure(answer(q).errorType)
    {
      AskedOutcome(files, questions, answer, haltAfter, q);
    }
    if Unanswered(now, questions) < Unanswered(files, questions) {
      var id :| id in Unanswered(files, questions) && id !in Unanswered(now, questions);
      NewlyAnswered(files, questions, answer, haltAfter, id);
    }
  }

  lemma AskedOutcome(files: Files, questions: seq<Question>, answer: Question -> Artifact, haltAfter: Option<int>,
                     q: Question)
    requires AnswersByName(answer) && DistinctIds(questions) && q in AskedIn(files, questions, answer, haltAfter)
    ensures q in questions && q.id !in Answered(files)
    ensures q.id in Answered(RunFiles(files, questions, answer, haltAfter)) <==> !IsInfrastructure(answer(q).errorType)
  {
    var asked := AskedIn(files, questions, answer, haltAfter);
    assert q in Pending(Answered(files), questions);
    RecordAllAt(files, asked, answer, q.id);
    forall p | p in asked && p.id == q.id
      ensures p == q
    {
      assert p in Pending(Answered(files), questions);
      SameIdSameQuestion(questions, p, q);
    }
  }

  lemma SameIdSameQuestion(questions: seq<Question>, p: Question, q: Question)
    requires DistinctIds(questions) && p in questions && q in questions && p.id == q.id
    ensures p == q
  {
    var i :| 0 <= i < |questions| && questions[i] == p;
    var j :| 0 <= j < |questions| && questions[j] == q;
  }

  lemma NewlyAnswered(files: Files, questions: seq<Question>, answer: Question -> Artifact, haltAfter: Option<int>,
                      id: string)
    requires AnswersByName(answer) && DistinctIds(questions) && id !in Answered(files)
    requires id in Answered(RunFiles(files, questions, answer, haltAfter))
    ensures exists q :: q in AskedIn(files, questions, answer, haltAfter) && !IsInfrastructure(answer(q).errorType)
  {
    RecordAllAt(files, AskedIn(files, questions, answer, haltAfter), answer, id);
  }

  // ----- halting -----

  /** The `h` results before position `k` were all infrastructure failures. */
  predicate StreakEndsAt(answer: Question -> Artifact, pending: seq<Question>, k: nat, h: int)
    requires k <= |pending|
  {
    h <= k && forall i :: k - h <= i < k && 0 <= i ==> IsInfrastructure(answer(pending[i]).errorType)
  }

  function StreakTo(answer: Question -> Artifact, pending: seq<Question>, k: nat): nat
    requires k <= |pending|
  {
    if k == 0 then 0 else Streak(StreakTo(answer, pending, k - 1), answer(pending[k - 1]))
  }

  lemma {:induction false} StreakMeans(answer: Question -> Artifact, pending: seq<Question>, k: nat)
    requires k <= |pending|
    ensures var n := StreakTo(answer, pending, k);
            && n <= k
            && (forall i :: k - n <= i < k ==> IsInfrastructure(answer(pending[i]).errorType))
            && (n < k ==> !IsInfrastructure(answer(pending[k - n - 1]).errorType))
    decreases k
  {
    if k > 0 { StreakMeans(answer, pending, k - 1); }
  }

  lemma {:induction false} AskedStopsAtStreak(answer: Question -> Artifact, pending: seq<Question>,
                                              haltAfter: Option<int>, i: nat)
    requires i <= |pending|
    ensures var n := i + Asked(answer, pending[i..], haltAfter, StreakTo(answer, pending, i));
            && (forall k :: i < k < n ==> !Halts(haltAfter, StreakTo(answer, pending, k)))
            && (n < |pending| ==> n > i && Halts(haltAfter, StreakTo(answer, pending, n)))
    decreases |pending| - i
  {
    if i < |pending| {
      assert pending[i..][1..] == pending[i + 1..];
      AskedStopsAtStreak(answer, pending, haltAfter, i + 1);
    }
  }

  /** A run stops at the first streak of the configured length, and otherwise asks everything. */
  lemma {:induction false} HaltsAtFirstStreak(answer: Question -> Artifact, pending: seq<Question>, h: nat, k: nat)
    requires h >= 1 && k <= |pending|
    ensures var n := Asked(answer, pending, Some(h), 0);
            && (k < n ==> !StreakEndsAt(answer, pending, k, h))
            && (n < |pending| ==> StreakEndsAt(answer, pending, n, h))
  {
    hide StreakEndsAt, StreakTo, Asked;
    assert pending[0..] == pending;
    assert StreakTo(answer, pending, 0) == 0 by { StreakMeans(answer, pending, 0); }
    AskedStopsAtStreak(answer, pending, Some(h), 0);
    LongStreakIffEnds(answer, pending, k, h);
    LongStreakIffEnds(answer, pending, Asked(answer, pending, Some(h), 0), h);
    NoStreakAtStart(answer, pending, h);
  }

  lemma LongStreakIffEnds(answer: Question -> Artifact, pending: seq<Question>, k: nat, h: nat)
    requires h >= 1 && k <= |pending|
    ensures StreakTo(answer, pending, k) >= h <==> StreakEndsAt(answer, pending, k, h)
  {
    hide StreakTo;
    StreakMeans(answer, pending, k);
  }

  lemma NoStreakAtStart(answer: Question -> Artifact, pending: seq<Question>, h: nat)
    requires h >= 1
    ensures !StreakEndsAt(answer, pending, 0, h)
  {
  }

  lemma {:induction false} NothingHalts(answer: Question -> Artifact, pending: seq<Question>, haltAfter: Option<int>)
    requires forall q :: q in pending ==> !IsInfrastructure(answer(q).errorType)
    requires !BadHalt(haltAfter)
    ensures Asked(answer, pending, haltAfter, 0) == |pending|
  {
    if pending != [] { NothingHalts(answer, pending[1..], haltAfter); }
  }

  // ----- chains of runs -----

  /** One attempt at the run: some of the questions, whatever the answerer did this time, and the halting bound. */
  datatype Pass = Pass(questions: seq<Question>, answer: Question -> Artifact, haltAfter: Option<int>)

  function AfterPasses(files: Files, passes: seq<Pass>): Files
    decreases |passes|
  {
    if passes == [] then files
    else
      var p := passes[0];
      AfterPasses(RunFiles(files, p.questions, p.answer, p.haltAfter), passes[1..])
  }

  /** Each time a question is asked, the answerer either fails for infrastructure reasons or gives its one true answer. */
  ghost predicate Deterministic(p: Pass, all: seq<Question>, truth: Question -> Artifact) {
    && AnswersByName(p.answer)
    && (forall q :: q in p.questions ==> q in all)
    && (forall q :: q in all ==> IsInfrastructure(p.answer(q).errorType) || p.answer(q) == truth(q))
  }

  ghost predicate Partial(files: Files, all: seq<Question>, truth: Question -> Artifact) {
    forall id :: id in files ==> Accounted(id, files[id], all, truth)
  }

  ghost predicate Accounted(id: string, a: Artifact, all: seq<Question>, truth: Question -> Artifact) {
    exists q :: q in all && q.id == id && (IsInfrastructure(a.errorType) || a == truth(q))
  }

  lemma PassKeepsPartial(files: Files, p: Pass, all: seq<Question>, truth: Question -> Artifact)
    requires Deterministic(p, all, truth) && Partial(files, all, truth)
    ensures Partial(RunFiles(files, p.questions, p.answer, p.haltAfter), all, truth)
  {
    var asked := AskedIn(files, p.questions, p.answer, p.haltAfter);
    var now := RunFiles(files, p.questions, p.answer, p.haltAfter);
    forall id | id in now
      ensures Accounted(id, now[id], all, truth)
    {
      RecordAllAt(files, asked, p.answer, id);
      if q :| q in asked && q.id == id && now[id] == p.answer(q) {
        assert q in Pending(Answered(files), p.questions);
      }
    }
  }

  lemma {:induction false} ChainKeepsPartial(files: Files, passes: seq<Pass>, all: seq<Question>,
                                             truth: Question -> Artifact)
    requires (forall i :: 0 <= i < |passes| ==> Deterministic(passes[i], all, truth)) && Partial(files, all, truth)
    ensures Partial(AfterPasses(files, passes), all, truth)
    decreases |passes|
  {
    if passes != [] {
      PassKeepsPartial(files, passes[0], all, truth);
      ChainKeepsPartial(RunFiles(files, passes[0].questions, passes[0].answer, passes[0].haltAfter), passes[1..], all,
                        truth);
    }
  }

  /** All questions answered, each with its true answer: there is one such directory. */
  lemma CompleteIsUnique(files: Files, all: seq<Question>, truth: Question -> Artifact)
    requires DistinctIds(all) && AnswersByName(truth) && Partial(files, all, truth)
    requires Unanswered(files, all) == {}
    ensures files == RecordAll(map[], all, truth)
  {
    var full := RecordAll(map[], all, truth);
    forall id
      ensures (id in files <==> id in full) && (id in files ==> files[id] == full[id])
    {
      RecordAllAt(map[], all, truth, id);
      if q :| q in all && q.id == id {
        CoveredIsAnswered(files, all, q);
        FileIsTrue(files, all, truth, q);
        var p :| p in all && p.id == id && full[id] == truth(p);
        SameIdSameQuestion(all, p, q);
      }
    }
  }

  lemma CoveredIsAnswered(files: Files, all: seq<Question>, q: Question)
    requires Unanswered(files, all) == {} && q in all
    ensures q.id in Answered(files)
  {
    assert q.id in Answered(files) || q.id in Unanswered(files, all);
  }

  lemma FileIsTrue(files: Files, all: seq<Question>, truth: Question -> Artifact, q: Question)
    requires DistinctIds(all) && Partial(files, all, truth) && q in all && q.id in Answered(files)
    ensures files[q.id] == truth(q)
  {
    assert Accounted(q.id, files[q.id], all, truth);
    var p :| p in all && p.id == q.id && (IsInfrastructure(files[q.id].errorType) || files[q.id] == truth(p));
    SameIdSameQuestion(all, p, q);
  }

  lemma {:induction false} AllPending(questions: seq<Question>)
    ensures Pending({}, questions) == questions
  {
    if questions != [] { AllPending(questions[1..]); }
  }

  /**
   However a run was halted, failed and resumed, once every question is answered the
   directory is the one an uninterrupted run would have left.
   */
  lemma {:induction false} ChainEqualsOneRun(passes: seq<Pass>, all: seq<Question>, truth: Question -> Artifact, haltAfter: Option<int>)
    requires DistinctIds(all) && AnswersByName(truth)
    requires forall q :: q in all ==> !IsInfrastructure(truth(q).errorType)
    requires forall i :: 0 <= i < |passes| ==> Deterministic(passes[i], all, truth)
    requires Unanswered(AfterPasses(map[], passes), all) == {}
    requires !BadHalt(haltAfter)
    ensures AfterPasses(map[], passes) == RunFiles(map[], all, truth, haltAfter)
  {
    hide RecordAll, Unanswered, AfterPasses, Deterministic, RunFiles;
    ChainKeepsPartial(map[], passes, all, truth);
    CompleteIsUnique(AfterPasses(map[], passes), all, truth);
    UninterruptedRun(all, truth, haltAfter);
  }

  lemma {:induction false} UninterruptedRun(all: seq<Question>, truth: Question -> Artifact, haltAfter: Option<int>)
    requires (forall q :: q in all ==> !IsInfrastructure(truth(q).errorType)) && !BadHalt(haltAfter)
    ensures RunFiles(map[], all, truth, haltAfter) == RecordAll(map[], all, truth)
  {
    hide RecordAll, Asked, Pending;
    var nothing: Files := map[];
    assert Answered(nothing) == {};
    AllPending(all);
    NothingHalts(truth, all, haltAfter);
    assert all[..|all|] == all;
  }

  // ----- the summary depends on the files alone -----

  lemma ListingsAgree(l: seq<Artifact>, k: seq<Artifact>, files: Files)
    requires Lists(l, files) && Lists(k, files)
    ensures multiset(l) == multiset(k)
  {
    forall a
      ensures multiset(l)[a] == multiset(k)[a]
    {
      ListedOnce(l, files, a);
      ListedOnce(k, files, a);
    }
  }

  lemma ListedOnce(l: seq<Artifact>, files: Files, a: Artifact)
    requires Lists(l, files)
    ensures multiset(l)[a] == One(a.questionId in files && files[a.questionId] == a)
  {
    if a in l {
      var i :| 0 <= i < |l| && l[i] == a;
      RemoveAt(l, i);
      assert a !in Drop(l, i);
    }
  }

  lemma SummaryIsOfTheFiles(files: Files, l: seq<Artifact>, k: seq<Artifact>, s: Summary, t: Summary)
    requires Lists(l, files) && Lists(k, files) && Summarises(s, l) && Summarises(t, k)
    ensures s == t
  {
    hide Lists, Total, Models, RecallTotal, Cutoffs;
    ListingsAgree(l, k, files);
    SameMultisetSameLength(l, k);
    TotalsAgree(l, k);
    assert s.failures.Keys == t.failures.Keys;
    assert s.recall.means == t.recall.means;
  }

  lemma TotalsAgree(l: seq<Artifact>, k: seq<Artifact>)
    requires multiset(l) == multiset(k)
    ensures forall m :: Total(m, l) == Total(m, k)
    ensures forall c :: RecallTotal(c, l) == RecallTotal(c, k)
    ensures Models(l) == Models(k) && Cutoffs(l) == Cutoffs(k)
  {
    forall c
      ensures RecallTotal(c, l) == RecallTotal(c, k)
    {
      RealSumRespectsMultisets(RecallAt(c), l, k);
    }
    forall m
      ensures Total(m, l) == Total(m, k)
    {
      SumRespectsMultisets(Measuring(m), l, k);
    }
    forall a { SameMultisetSameMembers(l, k, a); }
  }

  /** The answerer's own failures are the only ones that make an artifact infrastructure. */
  lemma DeterministicAnswerer<V>(w: World<V>, q: Question, now: Option<Attempt>, always: Option<Attempt>)
    requires IsInfrastructure(Settle(now).errorType) || now == always
    ensures IsInfrastructure(Evaluate(w, q, now).errorType) || Evaluate(w, q, now) == Evaluate(w, q, always)
    ensures !IsInfrastructure(Settle(always).errorType) ==> !IsInfrastructure(Evaluate(w, q, always).errorType)
  {
    RetriedIffAnswererFailed(w, q, now);
    RetriedIffAnswererFailed(w, q, always);
  }

  // ----- the same, for the runner itself -----

  /** One attempt at the run with an actual answerer. */
  datatype Attempted = Attempted(questions: seq<Question>, answerer: Question -> Option<Attempt>, haltAfter: Option<int>)

  function PassesWith<V(==)>(w: World<V>, attempts: seq<Attempted>): (r: seq<Pass>)
    ensures |r| == |attempts| && forall i :: 0 <= i < |r| ==>
              r[i] == Pass(attempts[i].questions, Answering(w, attempts[i].answerer), attempts[i].haltAfter)
  {
    Map((a: Attempted) => Pass(a.questions, Answering(w, a.answerer), a.haltAfter), attempts)
  }

  /** Asked about any question of the run, this attempt's answerer fails for infrastructure reasons or answers as ever. */
  ghost predicate Reliable(a: Attempted, all: seq<Question>, always: Question -> Option<Attempt>) {
    && (forall q :: q in a.questions ==> q in all)
    && forall q :: q in all ==> IsInfrastructure(Settle(a.answerer(q)).errorType) || a.answerer(q) == always(q)
  }

  lemma ReliableIsDeterministic<V>(w: World<V>, a: Attempted, all: seq<Question>, always: Question -> Option<Attempt>)
    requires Reliable(a, all, always)
    ensures Deterministic(Pass(a.questions, Answering(w, a.answerer), a.haltAfter), all, Answering(w, always))
  {
    hide Evaluate, Settle;
    AnsweringByName(w, a.answerer);
    forall q | q in all
      ensures var now := Answering(w, a.answerer)(q);
              IsInfrastructure(now.errorType) || now == Answering(w, always)(q)
    {
      DeterministicAnswerer(w, q, a.answerer(q), always(q));
      assert Answering(w, a.answerer)(q) == Evaluate(w, q, a.answerer(q));
      assert Answering(w, always)(q) == Evaluate(w, q, always(q));
    }
  }

  /**
   For a deterministic answerer, any chain of halted, failing, partial and resumed runs over a prepared
   question set that ends with every question answered leaves the directory of one uninterrupted run.
   */
  lemma ResumedRunsEqualOne<V>(w: World<V>, attempts: seq<Attempted>, all: seq<Question>,
                               always: Question -> Option<Attempt>, haltAfter: Option<int>)
    requires DistinctIds(all) && !BadHalt(haltAfter)
    requires forall q :: q in all ==> !IsInfrastructure(Settle(always(q)).errorType)
    requires forall i :: 0 <= i < |attempts| ==> Reliable(attempts[i], all, always)
    requires Unanswered(AfterPasses(map[], PassesWith(w, attempts)), all) == {}
    ensures AfterPasses(map[], PassesWith(w, attempts)) == RunFiles(map[], all, Answering(w, always), haltAfter)
  {
    hide Reliable, Deterministic, Unanswered, AfterPasses, RunFiles, Settle, Evaluate;
    forall i | 0 <= i < |attempts|
      ensures Deterministic(PassesWith(w, attempts)[i], all, Answering(w, always))
    {
      ReliableIsDeterministic(w, attempts[i], all, always);
    }
    forall q | q in all
      ensures !IsInfrastructure(Answering(w, always)(q).errorType)
    {
      RetriedIffAnswererFailed(w, q, always(q));
      assert Answering(w, always)(q) == Evaluate(w, q, always(q));
    }
    AnsweringByName(w, always);
    ChainEqualsOneRun(PassesWith(w, attempts), all, Answering(w, always), haltAfter);
  }

  /** And so the same summary. */
  lemma ResumedRunsSummariseAlike<V>(w: World<V>, attempts: seq<Attempted>, all: seq<Question>,
                                     always: Question -> Option<Attempt>, haltAfter: Option<int>,
                                     s: Summary, l: seq<Artifact>, t: Summary, k: seq<Artifact>)
    requires DistinctIds(all) && !BadHalt(haltAfter)
    requires forall q :: q in all ==> !IsInfrastructure(Settle(always(q)).errorType)
    requires forall i :: 0 <= i < |attempts| ==> Reliable(attempts[i], all, always)
    requires Unanswered(AfterPasses(map[], PassesWith(w, attempts)), all) == {}
    requires Lists(l, AfterPasses(map[], PassesWith(w, attempts))) && Summarises(s, l)
    requires Lists(k, RunFiles(map[], all, Answering(w, always), haltAfter)) && Summarises(t, k)
    ensures s == t
  {
    hide Reliable, Unanswered, AfterPasses, RunFiles, Settle, Lists, Summarises;
    ResumedRunsEqualOne(w, attempts, all, always, haltAfter);
    SummaryIsOfTheFiles(AfterPasses(map[], PassesWith(w, attempts)), l, k, s, t);
  }

  // ----- what the summary says -----

  predicate AllClassified(files: Files) {
    forall id :: id in files ==> WellClassified(files[id])
  }

  lemma {:induction false} SumAdds(f: Artifact -> nat, g: Artifact -> nat, h: Artifact -> nat, s: seq<Artifact>)
    requires forall a: Artifact :: f(a) + g(a) == h(a)
    ensures SumOf(f, s) + SumOf(g, s) == SumOf(h, s)
  {
    if s != [] { SumAdds(f, g, h, s[1..]); }
  }

  lemma {:induction false} SumOnes(f: Artifact -> nat, s: seq<Artifact>)
    requires forall a: Artifact :: f(a) == 1
    ensures SumOf(f, s) == |s|
  {
    if s != [] { SumOnes(f, s[1..]); }
  }

  /** The denominator adds up: every recorded question is scored, a gold error, or never asked. */
  lemma SummaryAddsUp(s: Summary, listing: seq<Artifact>)
    requires Summarises(s, listing)
    ensures s.scored + s.goldErrors + s.infrastructureErrors == s.total
    ensures s.matched <= s.scored
    ensures s.failures[GoldError] == s.goldErrors && s.failures[Infrastructure] == s.infrastructureErrors
  {
    var unscored := (a: Artifact) => One(!Scored(a));
    var missed := (a: Artifact) => One(Scored(a) && a.matched != Some(true));
    SumAdds(Measuring(InCategory(GoldError)), Measuring(InCategory(Infrastructure)), unscored, listing);
    SumAdds(Measuring(ScoredOnes), unscored, _ => 1, listing);
    SumOnes(_ => 1, listing);
    SumAdds(Measuring(MatchedOnes), missed, Measuring(ScoredOnes), listing);
  }

  ghost predicate EachOnce(listing: seq<Artifact>) {
    forall i, j :: 0 <= i < j < |listing| ==> listing[i] != listing[j]
  }

  /** Which artifacts a count of the summary is about. */
  predicate Counted(m: Measure, a: Artifact) {
    match m
    case ScoredOnes => a.category != GoldError && a.category != Infrastructure
    case MatchedOnes => a.category != GoldError && a.category != Infrastructure && a.matched == Some(true)
    case InCategory(c) => a.category == c
    case By(model) => a.answeringModel == model
    case WithRecall => a.recallAtK != map[]
    case AtCutoff(k) => k in a.recallAtK
    case _ => false
  }

  predicate IsCount(m: Measure) {
    !m.TokensIn? && !m.TokensOut? && !m.Unresolved?
  }

  lemma AmountOfCount(m: Measure, a: Artifact)
    requires IsCount(m)
    ensures Amount(m, a) == if Counted(m, a) then 1 else 0
  {
  }

  function Those(m: Measure, listing: seq<Artifact>): set<Artifact> {
    set a | a in listing && Counted(m, a)
  }

  lemma ThoseSnoc(m: Measure, front: seq<Artifact>, last: Artifact)
    requires last !in front
    ensures |Those(m, front + [last])| == |Those(m, front)| + if Counted(m, last) then 1 else 0
  {
    hide Counted;
    assert Those(m, front + [last]) == Those(m, front) + if Counted(m, last) then {last} else {};
    assert last !in Those(m, front);
  }

  lemma {:induction false} CountedOnce(m: Measure, listing: seq<Artifact>)
    requires EachOnce(listing) && IsCount(m)
    ensures Total(m, listing) == |Those(m, listing)|
    decreases |listing|
  {
    if listing == [] {
      assert Those(m, listing) == {};
    } else {
      hide Amount, Counted, Those;
      var last := listing[|listing| - 1];
      var front := listing[..|listing| - 1];
      assert listing == front + [last];
      CountedOnce(m, front);
      SumSnoc(Measuring(m), front, last);
      AmountOfCount(m, last);
      ThoseSnoc(m, front, last);
    }
  }

  /** Every count of a summary is the number of recorded artifacts it is about. */
  lemma SummaryCounts(s: Summary, listing: seq<Artifact>, files: Files, c: FailureCategory)
    requires Summarises(s, listing) && Lists(listing, files)
    ensures s.total == |listing|
    ensures s.scored == |Those(ScoredOnes, listing)|
    ensures s.matched == |Those(MatchedOnes, listing)|
    ensures s.failures[c] == |Those(InCategory(c), listing)|
    ensures s.recall.scored == |Those(WithRecall, listing)|
    ensures forall model :: model in s.answeredBy ==>
              s.answeredBy[model] == |Those(By(model), listing)|
  {
    hide Total, Counted, Those;
    CountedOnce(ScoredOnes, listing);
    CountedOnce(MatchedOnes, listing);
    CountedOnce(InCategory(c), listing);
    CountedOnce(WithRecall, listing);
    forall model { CountedOnce(By(model), listing); }
  }

  /** The models named are those that answered anything. */
  lemma ModelsNamed(s: Summary, listing: seq<Artifact>, model: string)
    requires Summarises(s, listing)
    ensures model in s.answeredBy <==> model != "" && exists a :: a in listing && a.answeringModel == model
  {
  }

  /** Tokens and unresolved references add up artifact by artifact. */
  lemma TokensAddUp(listing: seq<Artifact>, a: Artifact)
    ensures Total(TokensIn, []) == Total(TokensOut, []) == Total(Unresolved, []) == 0
    ensures Total(TokensIn, listing + [a]) == Total(TokensIn, listing) + a.inputTokens
    ensures Total(TokensOut, listing + [a]) == Total(TokensOut, listing) + a.outputTokens
    ensures Total(Unresolved, listing + [a]) == Total(Unresolved, listing) + a.unresolved
  {
    SumSnoc(Measuring(TokensIn), listing, a);
    SumSnoc(Measuring(TokensOut), listing, a);
    SumSnoc(Measuring(Unresolved), listing, a);
  }

  /** Every question a resumed run re-asks is outside the scored set; what is answered and unscored is a gold error. */
  lemma ReaskedAreUnscored(files: Files, questions: seq<Question>, id: string)
    requires AllClassified(files) && id in files
    ensures id !in Answered(files) ==> !Scored(files[id])
    ensures id in Answered(files) && !Scored(files[id]) ==> files[id].category == GoldError
  {
  }

  lemma AnsweringByName<V>(w: World<V>, answerer: Question -> Option<Attempt>)
    ensures AnswersByName(Answering(w, answerer))
  {
    forall q: Question
      ensures Answering(w, answerer)(q).questionId == q.id
    {
      assert Answering(w, answerer)(q) == Evaluate(w, q, answerer(q));
    }
  }

  /** Runs keep every artifact well classified. */
  lemma RunKeepsClassified<V>(files: Files, w: World<V>, questions: seq<Question>,
                              answerer: Question -> Option<Attempt>, haltAfter: Option<int>)
    requires AllClassified(files)
    ensures AllClassified(RunFiles(files, questions, Answering(w, answerer), haltAfter))
  {
    hide WellClassified, Answering, RunFiles, AskedIn;
    var answer := Answering(w, answerer);
    var asked := AskedIn(files, questions, answer, haltAfter);
    RunIsRecordAll(files, questions, answer, haltAfter);
    forall q: Question { AnsweringIsClassified(w, answerer, q); }
    RecordAllClassified(files, asked, answer);
  }

  lemma RunIsRecordAll(files: Files, questions: seq<Question>, answer: Question -> Artifact, haltAfter: Option<int>)
    ensures RunFiles(files, questions, answer, haltAfter)
            == RecordAll(files, AskedIn(files, questions, answer, haltAfter), answer)
  {
  }

  lemma AnsweringIsClassified<V>(w: World<V>, answerer: Question -> Option<Attempt>, q: Question)
    ensures WellClassified(Answering(w, answerer)(q))
  {
    EvaluateIsWellClassified(w, q, answerer(q));
  }

  lemma {:induction false} RecordAllClassified(files: Files, asked: seq<Question>, answer: Question -> Artifact)
    requires AllClassified(files)
    requires forall q: Question :: WellClassified(answer(q))
    ensures AllClassified(RecordAll(files, asked, answer))
    decreases |asked|
  {
    hide WellClassified;
    if asked != [] { RecordAllClassified(files, asked[..|asked| - 1], answer); }
  }

  // ----- one configuration per directory -----

  datatype Session = Session(fingerprint: string, pass: Pass)

  function AfterSessions(disk: Contents, sessions: seq<Session>): Contents
    decreases |sessions|
  {
    if sessions == [] then disk
    else
      var s := sessions[0];
      AfterSessions(RunDisk(disk, s.fingerprint, s.pass.questions, s.pass.answer, s.pass.haltAfter), sessions[1..])
  }

  function WithFingerprint(sessions: seq<Session>, fingerprint: string): seq<Session> {
    if sessions == [] then []
    else
      var rest := WithFingerprint(sessions[1..], fingerprint);
      if sessions[0].fingerprint == fingerprint then [sessions[0]] + rest else rest
  }

  function PassesOf(sessions: seq<Session>): (r: seq<Pass>)
    ensures |r| == |sessions|
  {
    Map((s: Session) => s.pass, sessions)
  }

  lemma {:induction false} OthersAreRefused(disk: Contents, sessions: seq<Session>)
    requires disk.manifest.Some?
    ensures var ours := WithFingerprint(sessions, disk.manifest.value);
            AfterSessions(disk, sessions) == Contents(disk.manifest, AfterPasses(disk.files, PassesOf(ours)))
    decreases |sessions|
  {
    if sessions != [] {
      var s, fp := sessions[0], disk.manifest.value;
      var next := RunDisk(disk, s.fingerprint, s.pass.questions, s.pass.answer, s.pass.haltAfter);
      OthersAreRefused(next, sessions[1..]);
      var rest := WithFingerprint(sessions[1..], fp);
      assert PassesOf([s] + rest)[1..] == PassesOf(rest);
    }
  }

  /** A directory only ever holds the first configuration: what others attempt leaves no trace. */
  lemma {:induction false} OneConfigurationPerDirectory(sessions: seq<Session>)
    requires sessions != []
    ensures var first := sessions[0].fingerprint;
            AfterSessions(Contents(None, map[]), sessions)
            == Contents(Some(first), AfterPasses(map[], PassesOf(WithFingerprint(sessions, first))))
  {
    var s := sessions[0];
    var empty := Contents(None, map[]);
    var stamped := Contents(Some(s.fingerprint), map[]);
    assert AfterSessions(empty, sessions) == AfterSessions(stamped, sessions);
    OthersAreRefused(stamped, sessions);
  }
}
