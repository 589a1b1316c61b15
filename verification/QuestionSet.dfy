/** The questions of a run: read from a file, checked for repeated ids, given verified gold, and cut to a limit. */
module QuestionSet {
  import opened Wrappers
  import opened Sequences
  import opened EvalRunner

  datatype Line = Blank | Malformed | Parsed(question: Question, split: string)

  datatype GoldEntry = GoldEntry(scoreable: bool, sql: string)

  datatype LoadError = BadLine(number: nat) | DuplicateIds | Unverified

  ghost predicate DistinctIds(questions: seq<Question>) {
    forall i, j :: 0 <= i < j < |questions| ==> questions[i].id != questions[j].id
  }

  /** The questions of the wanted split, in file order. */
  function InSplit(lines: seq<Line>, split: Option<string>): seq<Question> {
    if lines == [] then []
    else
      var last := lines[|lines| - 1];
      InSplit(lines[..|lines| - 1], split)
      + if last.Parsed? && (split.None? || last.split == split.value) then [last.question] else []
  }

  method AssertUnique(questions: seq<Question>) returns (ok: bool)
    ensures ok <==> DistinctIds(questions)
  {
    var seen: set<string>, duplicates: set<string> := {}, {};
    for i := 0 to |questions|
      invariant forall id :: id in seen <==> exists k :: 0 <= k < i && questions[k].id == id
      invariant duplicates == {} <==> DistinctIds(questions[..i])
    {
      var id := questions[i].id;
      DistinctSnoc(questions[..i], questions[i]);
      assert questions[..i + 1] == questions[..i] + [questions[i]];
      assert id in seen <==> exists k :: 0 <= k < i && questions[..i][k].id == id;
      if id in seen { duplicates := duplicates + {id}; }
      seen := seen + {id};
    }
    assert questions[..|questions|] == questions;
    return duplicates == {};
  }

  lemma DistinctSnoc(front: seq<Question>, q: Question)
    ensures DistinctIds(front + [q]) <==> DistinctIds(front) && forall k :: 0 <= k < |front| ==> front[k].id != q.id
  {
    var all := front + [q];
    assert forall k :: 0 <= k < |front| ==> all[k] == front[k];
    assert all[|front|] == q;
  }

  /** Loading succeeds exactly when every line is readable and no id of the split repeats. */
  method LoadQuestions(lines: seq<Line>, split: Option<string>) returns (r: Result<seq<Question>, LoadError>)
    ensures r.Ok? <==> Malformed !in lines && DistinctIds(InSplit(lines, split))
    ensures r.Ok? ==> r.value == InSplit(lines, split)
  {
    var questions: seq<Question> := [];
    for i := 0 to |lines|
      invariant questions == InSplit(lines[..i], split)
      invariant Malformed !in lines[..i]
    {
      assert lines[..i + 1][..i] == lines[..i];
      match lines[i] {
        case Blank =>
        case Malformed => return Err(BadLine(i + 1));
        case Parsed(question, name) =>
          if split.None? || name == split.value { questions := questions + [question]; }
      }
    }
    assert lines[..|lines|] == lines;
    var unique := AssertUnique(questions);
    return if unique then Ok(questions) else Err(DuplicateIds);
  }

  function WithGold(questions: seq<Question>, gold: map<string, GoldEntry>): seq<Question>
    requires forall q :: q in questions ==> q.id in gold
  {
    if questions == [] then []
    else
      var last := questions[|questions| - 1];
      WithGold(questions[..|questions| - 1], gold)
      + if gold[last.id].scoreable then [last.(goldSql := gold[last.id].sql)] else []
  }

  /** Swaps in verified SQL and drops what cannot be scored; one question nobody verified refuses the run. */
  method ApplyVerifiedGold(questions: seq<Question>, gold: map<string, GoldEntry>)
    returns (r: Result<seq<Question>, LoadError>)
    ensures r.Ok? <==> forall q :: q in questions ==> q.id in gold
    ensures r.Ok? ==> r.value == WithGold(questions, gold)
  {
    var kept: seq<Question>, unverified: seq<string> := [], [];
    for i := 0 to |questions|
      invariant unverified == [] <==> forall q :: q in questions[..i] ==> q.id in gold
      invariant unverified == [] ==> kept == WithGold(questions[..i], gold)
    {
      var q := questions[i];
      assert questions[..i + 1] == questions[..i] + [q];
      assert questions[..i + 1][..i] == questions[..i];
      if q.id !in gold {
        unverified := unverified + [q.id];
      } else if gold[q.id].scoreable {
        kept := kept + [q.(goldSql := gold[q.id].sql)];
      }
    }
    assert questions[..|questions|] == questions;
    return if unverified == [] then Ok(kept) else Err(Unverified);
  }

  /** A Python slice `[:limit]`; a negative limit drops that many from the end. */
  function Limited(questions: seq<Question>, limit: Option<int>): seq<Question> {
    if limit.None? || limit.value >= |questions| then questions
    else if limit.value >= 0 then questions[..limit.value]
    else if -limit.value >= |questions| then []
    else questions[..|questions| + limit.value]
  }

  /** From the front for a limit of zero or more, up to that many from the end for a negative one. */
  lemma LimitedMeans(questions: seq<Question>, limit: Option<int>)
    ensures Limited(questions, limit) <= questions
    ensures var kept := |Limited(questions, limit)|;
            && (limit.None? ==> kept == |questions|)
            && (limit.Some? && limit.value >= 0 ==> kept <= limit.value && (kept < limit.value ==> kept == |questions|))
            && (limit.Some? && limit.value < 0 ==> kept >= |questions| + limit.value
                                                   && (kept > 0 ==> kept == |questions| + limit.value))
  {
  }

  /** The file is read line by line, in order, keeping the wanted split. */
  lemma {:induction false} InSplitConcat(a: seq<Line>, b: seq<Line>, split: Option<string>)
    ensures InSplit(a + b, split) == InSplit(a, split) + InSplit(b, split)
    decreases |b|
  {
    if b == [] {
      assert a + b == a;
    } else {
      assert (a + b)[..|a + b| - 1] == a + b[..|b| - 1];
      InSplitConcat(a, b[..|b| - 1], split);
    }
  }

  lemma LineOfSplit(line: Line, split: Option<string>)
    ensures InSplit([line], split) == [] <==>
            line == Blank || line == Malformed || (split.Some? && split.value != line.split)
    ensures InSplit([line], split) != [] ==> InSplit([line], split) == [line.question]
  {
    assert InSplit([line][..0], split) == [];
  }

  /** Gold is swapped in question by question, in order. */
  lemma {:induction false} WithGoldConcat(a: seq<Question>, b: seq<Question>, gold: map<string, GoldEntry>)
    requires (forall q :: q in a ==> q.id in gold) && (forall q :: q in b ==> q.id in gold)
    ensures WithGold(a + b, gold) == WithGold(a, gold) + WithGold(b, gold)
    decreases |b|
  {
    if b == [] {
      assert a + b == a;
    } else {
      assert (a + b)[..|a + b| - 1] == a + b[..|b| - 1];
      WithGoldConcat(a, b[..|b| - 1], gold);
    }
  }

  lemma GoldOfQuestion(q: Question, gold: map<string, GoldEntry>)
    requires q.id in gold
    ensures !gold[q.id].scoreable ==> WithGold([q], gold) == []
    ensures gold[q.id].scoreable ==>
              && |WithGold([q], gold)| == 1
              && var kept := WithGold([q], gold)[0];
              && kept.goldSql == gold[q.id].sql && kept.(goldSql := q.goldSql) == q
  {
    assert WithGold([q][..0], gold) == [];
  }

  method PrepareQuestions(lines: seq<Line>, split: Option<string>, gold: map<string, GoldEntry>, limit: Option<int>)
    returns (r: Result<seq<Question>, LoadError>)
    ensures r.Ok? ==> DistinctIds(r.value)
    ensures r.Ok? ==> forall q :: q in r.value ==> Verified(q, InSplit(lines, split), gold)
    ensures r.Ok? <==> && Malformed !in lines && DistinctIds(InSplit(lines, split))
                       && forall q :: q in InSplit(lines, split) ==> q.id in gold
    ensures r.Ok? ==> r.value == Limited(WithGold(InSplit(lines, split), gold), limit)
  {
    var questions := LoadQuestions(lines, split);
    if questions.Err? { return questions; }
    var kept := ApplyVerifiedGold(questions.value, gold);
    if kept.Err? { return kept; }
    GoldKeepsDistinct(questions.value, gold);
    return Ok(Limited(kept.value, limit));
  }

  /** A question to be run: one that was loaded, scoreable, with its verified SQL in place. */
  ghost predicate Verified(q: Question, loaded: seq<Question>, gold: map<string, GoldEntry>) {
    && q.id in gold && gold[q.id].scoreable && q.goldSql == gold[q.id].sql
    && exists k :: 0 <= k < |loaded| && loaded[k].id == q.id && loaded[k].dbId == q.dbId
  }

  lemma {:induction false} GoldKeepsDistinct(questions: seq<Question>, gold: map<string, GoldEntry>)
    requires DistinctIds(questions) && forall q :: q in questions ==> q.id in gold
    ensures DistinctIds(WithGold(questions, gold))
    ensures forall q :: q in WithGold(questions, gold) ==> Verified(q, questions, gold)
    decreases |questions|
  {
    if questions != [] {
      var front, last := questions[..|questions| - 1], questions[|questions| - 1];
      assert questions == front + [last];
      GoldKeepsDistinct(front, gold);
      DistinctSnoc(front, last);
      var kept := WithGold(front, gold);
      forall q | q in kept
        ensures q.id != last.id && Verified(q, questions, gold)
      {
        var k :| 0 <= k < |front| && front[k].id == q.id && front[k].dbId == q.dbId;
        assert questions[k] == front[k];
      }
      if gold[last.id].scoreable {
        var swapped := last.(goldSql := gold[last.id].sql);
        DistinctSnoc(kept, swapped);
        assert questions[|front|].id == swapped.id && questions[|front|].dbId == swapped.dbId;
        assert Verified(swapped, questions, gold);
      }
    }
  }
}
