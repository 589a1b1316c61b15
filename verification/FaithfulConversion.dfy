/**
 What conversion checking reports when nothing is wrong with the conversion: both engines hold the
 same rows and order keys the same way, and only break ties as they like.
 */
module FaithfulConversion {
  import opened Wrappers
  import opened Sequences
  import opened LimitTie
  import opened LimitWindow
  import opened Verification
  import Comparison
  import Permutations

  /**
   One query over one set of rows held by both engines: the rows of the result before any LIMIT,
   each with its sort keys, and how many rows the engines skip and show. A DISTINCT query's rows
   are already distinct; a compound query is only known to sort and cut somehow.
   */
  datatype Setup<!V(==)> = Setup(query: Query, orderEnforced: bool, keys: nat, visible: nat, skip: nat, take: Option<nat>,
                             data: multiset<Row<V>>, le: (Row<V>, Row<V>) -> bool)

  ghost predicate Uniform<V(!new)>(data: multiset<Row<V>>, width: nat) {
    forall row :: row in data ==> |row| == width
  }

  ghost predicate Sound<V(!new)>(s: Setup<V>) {
    && TotalOrder(s.le)
    && Uniform(s.data, s.visible + s.keys)
    && (s.query.Select? ==> s.query.keyCount == s.keys && Bounds(s.query, s.skip, s.take))
  }

  /** Each engine may arrange the same rows in any order the keys allow, and differently each time it is asked. */
  ghost predicate Correct<V(!new)>(s: Setup<V>, rows: Table<V>) {
    Arrangement(rows, s.data, s.keys, s.le)
  }

  /** What the tie check got: the probe's rows and both unlimited results, each missing if it did not run. */
  datatype Checks<V> = Checks(probe: Option<Table<V>>, bareGold: Option<Table<V>>, bareConverted: Option<Table<V>>)

  ghost predicate Honest<V(!new)>(s: Setup<V>, c: Checks<V>) {
    && (s.query.Select? && c.probe.Some? ==> Wide(c.probe.value, s.query.keyCount))
    && (c.bareGold.Some? ==> Correct(s, c.bareGold.value))
    && (c.bareConverted.Some? ==> Correct(s, c.bareConverted.value))
  }

  /** The tie check fires. On a faithful conversion the unlimited results agree whenever they exist. */
  predicate TieFound<V(==)>(q: Query, c: Checks<V>)
    requires q.Select? && c.probe.Some? ==> Wide(c.probe.value, q.keyCount)
  {
    LimitCutIsTied(q, c.probe) && c.bareGold.Some? && c.bareConverted.Some?
  }

  /** What a query shows when the engine has arranged its rows as `rows`. */
  function Answer<V(==)>(s: Setup<V>, rows: Table<V>): Table<V>
    requires Wide(rows, s.keys)
  {
    Shown(Window(rows, s.skip, s.take), s.keys)
  }

  function Bare<V(==)>(s: Setup<V>, rows: Option<Table<V>>): Option<Table<V>>
    requires rows.Some? ==> Wide(rows.value, s.keys)
  {
    if rows.None? then None else Some(Shown(rows.value, s.keys))
  }

  function EvidenceOf<V(==)>(s: Setup<V>, c: Checks<V>, gold: Table<V>, converted: Table<V>): Evidence<V>
    requires Wide(gold, s.keys) && Wide(converted, s.keys)
    requires c.bareGold.Some? ==> Wide(c.bareGold.value, s.keys)
    requires c.bareConverted.Some? ==> Wide(c.bareConverted.value, s.keys)
  {
    Evidence(s.query, s.orderEnforced, Some(Answer(s, gold)), true, Ok(Answer(s, converted)),
             c.probe, Bare(s, c.bareGold), Bare(s, c.bareConverted))
  }

  lemma ShownShape<V(!new)>(s: Setup<V>, rows: Table<V>)
    requires Comparison.Rectangular(rows, s.visible + s.keys)
    ensures Wide(rows, s.keys) && Comparison.Rectangular(Shown(rows, s.keys), s.visible)
  {
  }

  lemma CorrectShape<V(!new)>(s: Setup<V>, rows: Table<V>)
    requires Sound(s) && Correct(s, rows)
    ensures Comparison.Rectangular(rows, s.visible + s.keys)
    ensures Comparison.Rectangular(Shown(rows, s.keys), s.visible)
    ensures Comparison.Rectangular(Answer(s, rows), s.visible)
  {
    hide TotalOrder, KeySorted;
    forall i | 0 <= i < |rows|
      ensures |rows[i]| == s.visible + s.keys
    {
      assert rows[i] in multiset(rows);
    }
    ShownShape(s, rows);
    ShownShape(s, Window(rows, s.skip, s.take));
  }

  lemma BareResultsAgree<V(!new)>(s: Setup<V>, a: Table<V>, b: Table<V>)
    requires Sound(s) && Correct(s, a) && Correct(s, b)
    ensures Comparison.Compare(Shown(b, s.keys), Shown(a, s.keys), false).matched
  {
    hide Sound, KeySorted;
    CorrectShape(s, a);
    CorrectShape(s, b);
    ShownRespectsMultisets(b, a, s.keys);
    UnorderedAgreement(Shown(b, s.keys), Shown(a, s.keys), s.visible);
    Comparison.AgreeIsMatch(Shown(b, s.keys), Shown(a, s.keys), false);
  }

  /** A faithful conversion mismatches exactly when the windows disagree and the tie check did not fire. */
  lemma FaithfulMismatch<V(!new)>(s: Setup<V>, c: Checks<V>, gold: Table<V>, converted: Table<V>)
    requires Sound(s) && Honest(s, c) && Correct(s, gold) && Correct(s, converted)
    ensures CheckOne(EvidenceOf(s, c, gold, converted)) == Mismatch <==>
            !TieFound(s.query, c) && !Comparison.Agree(Answer(s, converted), Answer(s, gold), false)
    ensures CheckOne(EvidenceOf(s, c, gold, converted)) in {Match, AmbiguousOrder, UndeterminedLimit, Mismatch}
  {
    hide Comparison.Compare, Comparison.Agree, LimitCutIsTied, CheckOne, Shown, Answer, Sound, KeySorted;
    MismatchIff(EvidenceOf(s, c, gold, converted));
    if c.bareGold.Some? && c.bareConverted.Some? {
      BareResultsAgree(s, c.bareGold.value, c.bareConverted.value);
    }
  }

  /** Some pair of correct engines over identical data makes the code report a mismatch. */
  ghost predicate CanMismatch<V(!new)>(s: Setup<V>, c: Checks<V>)
    requires Honest(s, c)
  {
    exists gold, converted :: Mismatches(s, c, gold, converted)
  }

  ghost predicate Mismatches<V(!new)>(s: Setup<V>, c: Checks<V>, gold: Table<V>, converted: Table<V>)
    requires Honest(s, c)
  {
    Correct(s, gold) && Correct(s, converted) && CheckOne(EvidenceOf(s, c, gold, converted)) == Mismatch
  }

  /** Another correct arrangement shows an answer that does not agree with the one `a` shows. */
  ghost predicate Disputed<V(!new)>(s: Setup<V>, a: Table<V>)
    requires Wide(a, s.keys)
  {
    exists b :: Disputes(s, a, b)
  }

  ghost predicate Disputes<V(!new)>(s: Setup<V>, a: Table<V>, b: Table<V>)
    requires Wide(a, s.keys)
  {
    Correct(s, b) && !Comparison.Agree(Answer(s, b), Answer(s, a), false)
  }

  /**
   Exactly when a faithful conversion can be reported as a mismatch, for every query, width and outcome
   of the tie check: the check does not fire, and the answer is open between correct engines.
   */
  lemma CanMismatchIff<V(!new)>(s: Setup<V>, c: Checks<V>, a: Table<V>)
    requires Sound(s) && Honest(s, c) && Correct(s, a)
    ensures CanMismatch(s, c) <==> !TieFound(s.query, c) && Disputed(s, a)
  {
    hide Comparison.Agree, CheckOne, EvidenceOf, Answer, Sound, KeySorted, LimitCutIsTied;
    if CanMismatch(s, c) {
      var gold, converted :| Mismatches(s, c, gold, converted);
      FaithfulMismatch(s, c, gold, converted);
      if !Disputes(s, a, gold) && !Disputes(s, a, converted) {
        AgreementComposes(Answer(s, a), Answer(s, gold), Answer(s, converted));
      }
    }
    if !TieFound(s.query, c) && Disputed(s, a) {
      var b :| Disputes(s, a, b);
      FaithfulMismatch(s, c, a, b);
      assert Mismatches(s, c, a, b);
    }
  }

  // ----- when an answer is open -----

  /** An open answer has an open edge. */
  lemma DisputeNeedsOpenEdge<V(!new)>(s: Setup<V>, a: Table<V>, b: Table<V>)
    requires Sound(s) && Correct(s, a) && Disputes(s, a, b)
    ensures EdgeIsOpen(a, s.skip, s.take, s.keys)
  {
    hide EdgeIsOpen, Comparison.Agree, KeySorted, Window, TotalOrder;
    if !EdgeIsOpen(a, s.skip, s.take, s.keys) {
      WindowIsDetermined(a, b, s.data, s.skip, s.take, s.keys, s.le);
      CorrectShape(s, a);
      CorrectShape(s, b);
      UnorderedAgreement(Answer(s, b), Answer(s, a), s.visible);
    }
  }

  /** On results whose columns are not permuted, an open edge is all it takes. */
  lemma DisputedIffOpenEdge<V(!new)>(s: Setup<V>, a: Table<V>)
    requires Sound(s) && Correct(s, a)
    requires s.visible == 1 || s.visible > Comparison.MAX_COLUMNS_FOR_PERMUTATION
    ensures Disputed(s, a) <==> EdgeIsOpen(a, s.skip, s.take, s.keys)
  {
    hide EdgeIsOpen, Comparison.Agree, KeySorted, Window, TotalOrder;
    if EdgeIsOpen(a, s.skip, s.take, s.keys) {
      var b := OpenWindowIsUndetermined(a, s.data, s.skip, s.take, s.keys, s.le);
      CorrectShape(s, a);
      CorrectShape(s, b);
      UnorderedAgreement(Answer(s, b), Answer(s, a), s.visible);
      assert Disputes(s, a, b);
    }
    if Disputed(s, a) {
      var b :| Disputes(s, a, b);
      DisputeNeedsOpenEdge(s, a, b);
    }
  }

  /** A row inside the window ties with one outside, and holds other values, in whatever order. */
  ghost predicate ValuesTieAcrossEdge<V>(a: Table<V>, skip: nat, take: Option<nat>, width: nat)
    requires Wide(a, width)
  {
    exists i, j :: ValuesTied(a, From(skip, |a|), Until(skip, take, |a|), i, j, width)
  }

  predicate ValuesTied<V(==)>(a: Table<V>, lo: nat, hi: nat, i: nat, j: nat, width: nat)
    requires Wide(a, width)
  {
    && lo <= i < hi <= |a| && j < |a| && !(lo <= j < hi)
    && Key(a[i], width) == Key(a[j], width)
    && multiset(Visible(a[i], width)) != multiset(Visible(a[j], width))
  }

  /** At every width, such a tie leaves the answer open: no column permutation hides it. */
  lemma ValueTieIsDisputed<V(!new)>(s: Setup<V>, a: Table<V>)
    requires Sound(s) && Correct(s, a) && ValuesTieAcrossEdge(a, s.skip, s.take, s.keys)
    ensures Disputed(s, a)
  {
    hide Comparison.Agree, KeySorted, TotalOrder, ValuesTied, Answer;
    var lo, hi := From(s.skip, |a|), Until(s.skip, s.take, |a|);
    var i: nat, j: nat :| ValuesTied(a, lo, hi, i, j, s.keys);
    SwapDisputes(s, a, i, j);
    assert Disputes(s, a, Swap(a, i, j));
  }

  lemma SwapDisputes<V(!new)>(s: Setup<V>, a: Table<V>, i: nat, j: nat)
    requires Correct(s, a) && ValuesTied(a, From(s.skip, |a|), Until(s.skip, s.take, |a|), i, j, s.keys)
    ensures i < |a| && j < |a|
    ensures Correct(s, Swap(a, i, j)) && !Comparison.Agree(Answer(s, Swap(a, i, j)), Answer(s, a), false)
  {
    hide Comparison.Agree, KeySorted, Key, Visible, Swap;
    var lo, hi := From(s.skip, |a|), Until(s.skip, s.take, |a|);
    var b := Swap(a, i, j);
    SwapArranged(a, s.data, i, j, s.keys, s.le);
    SwapSlice(a, lo, hi, i, j);
    SameMultisetSameLength(a, b);
    ReplacedValuesShow(a[lo..hi], b[lo..hi], i - lo, a[j], s.keys);
    if Comparison.Agree(Answer(s, b), Answer(s, a), false) { AgreementKeepsValues(Answer(s, b), Answer(s, a)); }
  }

  lemma ReplacedValuesShow<V>(was: Table<V>, now: Table<V>, i: nat, row: Row<V>, width: nat)
    requires Wide(was, width) && Wide(now, width) && width <= |row| && i < |was| && now == was[i := row]
    requires multiset(Visible(was[i], width)) != multiset(Visible(row, width))
    ensures multiset(RowValues(Shown(now, width))) != multiset(RowValues(Shown(was, width)))
  {
    hide Key, Visible;
    ShownUpdated(was, i, row, width);
    var values := RowValues(Shown(was, width));
    assert RowValues(Shown(now, width)) == values[i := multiset(Visible(row, width))];
    ReplacedElement(values, i, multiset(Visible(row, width)));
  }

  /** A faithful conversion is never reported as a mismatch when the tie check fires or no edge is open. */
  lemma FaithfulNeverMismatches<V(!new)>(s: Setup<V>, c: Checks<V>, a: Table<V>, gold: Table<V>, converted: Table<V>)
    requires Sound(s) && Honest(s, c) && Correct(s, a) && Correct(s, gold) && Correct(s, converted)
    requires TieFound(s.query, c) || !EdgeIsOpen(a, s.skip, s.take, s.keys)
    ensures CheckOne(EvidenceOf(s, c, gold, converted)) in {Match, AmbiguousOrder, UndeterminedLimit}
  {
    hide EdgeIsOpen, CheckOne, Comparison.Agree, Answer, Bare, Sound, KeySorted, LimitCutIsTied;
    FaithfulMismatch(s, c, gold, converted);
    if CheckOne(EvidenceOf(s, c, gold, converted)) == Mismatch {
      assert Mismatches(s, c, gold, converted);
      CanMismatchIff(s, c, a);
      var b :| Disputes(s, a, b);
      DisputeNeedsOpenEdge(s, a, b);
    }
  }

  /** The probe shows a tie wherever the result has one at the cut. */
  ghost predicate SeesTies<V(!new)>(s: Setup<V>, probe: Table<V>, a: Table<V>)
    requires s.query.Select? && Wide(probe, s.query.keyCount) && Wide(a, s.keys)
  {
    CutPosition(s.query).Some? && TiedAt(a, CutPosition(s.query).value, s.keys) ==>
      TiedAt(probe, CutPosition(s.query).value, s.query.keyCount)
  }

  /** It does when its keys are the sort keys, and when they are constants, as an ORDER BY ordinal makes them. */
  lemma ProbeSeesTies<V(!new)>(s: Setup<V>, probe: Table<V>, a: Table<V>)
    requires Sound(s) && Correct(s, a) && s.query.Select? && Wide(probe, s.query.keyCount)
    requires Correct(s, probe)
          || (|probe| == |a| && exists key :: ConstantKeys(probe, s.query.keyCount, key))
    ensures SeesTies(s, probe, a)
  {
    hide TotalOrder, KeySorted;
    if Correct(s, probe) {
      SameMultisetSameLength(a, probe);
      ArrangementsShareKeys(a, probe, s.data, s.keys, s.le);
      if CutPosition(s.query).Some? && CutPosition(s.query).value < |a| {
        KeysAt(a, probe, s.keys, CutPosition(s.query).value - 1);
        KeysAt(a, probe, s.keys, CutPosition(s.query).value);
      }
    }
  }

  /**
   The usual query, LIMIT n with no OFFSET: a faithful conversion can be reported as a mismatch exactly
   when the answer is open and the tie check was skipped, for DISTINCT or because a statement of it failed.
   */
  lemma PlainLimitMismatchesIff<V(!new)>(s: Setup<V>, c: Checks<V>, a: Table<V>, n: nat)
    requires Sound(s) && Honest(s, c) && Correct(s, a) && s.query.Select?
    requires s.query.limit == Some(Literal(n)) && s.query.offset == None
    requires c.probe.Some? && !s.query.distinct ==> SeesTies(s, c.probe.value, a)
    ensures CanMismatch(s, c) <==>
            && Disputed(s, a)
            && (s.query.distinct || c.probe.None? || c.bareGold.None? || c.bareConverted.None?)
  {
    hide Comparison.Agree, Answer, TotalOrder, KeySorted, CanMismatch;
    CanMismatchIff(s, c, a);
    if Disputed(s, a) && !s.query.distinct && c.probe.Some? {
      var b :| Disputes(s, a, b);
      DisputeNeedsOpenEdge(s, a, b);
      TiedVerdictIsTie(s.query, c.probe.value);
      TiedVerdictIsTie(s.query, a);
      NearEdgeNeedsOffset(s.query, a, s.skip, s.take);
    }
  }

  // ----- concrete mismatches of a faithful conversion -----

  lemma NearEdgeRows()
    ensures Arrangement([[1, 0], [2, 0], [3, 1]], multiset([[1, 0], [2, 0], [3, 1]]), 1, LexOrder())
    ensures Uniform(multiset([[1, 0], [2, 0], [3, 1]]), 2)
  {
    var rows := [[1, 0], [2, 0], [3, 1]];
    assert Key(rows[0], 1) == [0] == Key(rows[1], 1) && Key(rows[2], 1) == [1];
    assert LexOrder()([0], [0]) && LexOrder()([0], [1]);
  }

  lemma NearEdgeIsOpen()
    ensures var rows := [[1, 0], [2, 0], [3, 1]];
            Wide(rows, 1) && EdgeIsOpen(rows, 1, Some(1), 1) && !TiedAt(rows, 2, 1)
  {
    var rows := [[1, 0], [2, 0], [3, 1]];
    assert Key(rows[0], 1) == [0] == Key(rows[1], 1) && Key(rows[2], 1) == [1];
    assert [0] != [1] by { assert [0][0] != [1][0]; }
    assert Visible(rows[0], 1) == [1] && Visible(rows[1], 1) == [2];
    assert [1] != [2] by { assert [1][0] != [2][0]; }
    assert TieIsVisible(rows, 1, 1);
  }

  function NearEdgeSetup(): Setup<int> {
    Setup(Select(false, Some(Literal(1)), Some(Literal(1)), 1), true, 1, 1, 1, Some(1),
          multiset([[1, 0], [2, 0], [3, 1]]), LexOrder())
  }

  /** LIMIT 1 OFFSET 1 where the tie lies across the near edge only, every check having run. */
  lemma NearEdgeTieMismatches()
    ensures var rows := [[1, 0], [2, 0], [3, 1]];
            var c := Checks(Some(rows), Some(rows), Some(rows));
            Honest(NearEdgeSetup(), c) && CanMismatch(NearEdgeSetup(), c)
  {
    hide TotalOrder, Uniform, CanMismatch, EdgeIsOpen, TiedAt, LexOrder, KeySorted;
    var rows := [[1, 0], [2, 0], [3, 1]];
    var s, c := NearEdgeSetup(), Checks(Some(rows), Some(rows), Some(rows));
    LexIsTotal();
    NearEdgeRows();
    NearEdgeIsOpen();
    TiedVerdictIsTie(s.query, rows);
    CanMismatchIff(s, c, rows);
    DisputedIffOpenEdge(s, rows);
  }

  /** Two rows that show their sort key, as DISTINCT requires, and tie. */
  function FarEdgeSetup(q: Query): Setup<int> {
    Setup(q, true, 1, 2, 0, Some(1), multiset([[1, 0, 0], [2, 0, 0]]), LexOrder())
  }

  lemma FarEdgeRows()
    ensures Arrangement([[1, 0, 0], [2, 0, 0]], multiset([[1, 0, 0], [2, 0, 0]]), 1, LexOrder())
    ensures Uniform(multiset([[1, 0, 0], [2, 0, 0]]), 3)
  {
    var rows := [[1, 0, 0], [2, 0, 0]];
    assert Key(rows[0], 1) == [0] == Key(rows[1], 1);
    assert LexOrder()([0], [0]);
  }

  lemma FarEdgeValuesTie()
    ensures Wide([[1, 0, 0], [2, 0, 0]], 1) && ValuesTieAcrossEdge([[1, 0, 0], [2, 0, 0]], 0, Some(1), 1)
  {
    var rows := [[1, 0, 0], [2, 0, 0]];
    assert Key(rows[0], 1) == [0] == Key(rows[1], 1);
    assert Visible(rows[0], 1) == [1, 0] && Visible(rows[1], 1) == [2, 0];
    assert 1 in multiset([1, 0]) && 1 !in multiset([2, 0]);
    assert ValuesTied(rows, From(0, |rows|), Until(0, Some(1), |rows|), 0, 1, 1);
  }

  /** LIMIT 1 across a tie, reported because the check is skipped: DISTINCT, a compound query, a probe that fails. */
  lemma SkippedCheckMismatches(q: Query, c: Checks<int>)
    requires var rows := [[1, 0, 0], [2, 0, 0]];
             || (q == Select(true, Some(Literal(1)), None, 1) && c == Checks(Some(rows), Some(rows), Some(rows)))
             || (q == NotASelect && c == Checks(None, Some(rows), Some(rows)))
             || (q == Select(false, Some(Literal(1)), None, 1) && c == Checks(None, Some(rows), Some(rows)))
    ensures Honest(FarEdgeSetup(q), c) && CanMismatch(FarEdgeSetup(q), c)
  {
    hide TotalOrder, Uniform, CanMismatch, ValuesTieAcrossEdge, LexOrder, KeySorted;
    var rows := [[1, 0, 0], [2, 0, 0]];
    LexIsTotal();
    FarEdgeRows();
    FarEdgeValuesTie();
    CanMismatchIff(FarEdgeSetup(q), c, rows);
    ValueTieIsDisputed(FarEdgeSetup(q), rows);
  }
}
