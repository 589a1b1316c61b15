/**
 Whether two result sets mean the same thing: a search for a bijection between
 predicted and gold columns, pruned by per-column signatures.
 Values are taken after canonicalisation, so only their equality matters.
 */
module Comparison {
  import opened Sequences
  import opened Permutations

  type Row<V> = seq<V>
  type Table<V> = seq<Row<V>>
  type Column<V> = seq<V>

  datatype Verdict = Match | ShapeMismatch | ValueMismatch | OrderMismatch | NoColumnBijection

  datatype Outcome = Outcome(verdict: Verdict, matched: bool, orderEnforced: bool, positionalFallback: bool)

  /** A column's contents, with or without its row order. */
  datatype Signature<V> = Ordered(column: Column<V>) | Unordered(contents: multiset<V>)

  const MAX_COLUMNS_FOR_PERMUTATION: nat := 8

  // ----- the comparison -----

  predicate Rectangular<V>(rows: Table<V>, width: nat) {
    forall i :: 0 <= i < |rows| ==> |rows[i]| == width
  }

  function ColumnAt<V>(rows: Table<V>, i: nat): (c: Column<V>)
    requires forall row :: row in rows ==> i < |row|
    ensures |c| == |rows|
  {
    Map((row: Row<V>) requires i < |row| => row[i], rows)
  }

  function Columns<V>(rows: Table<V>, width: nat): (cs: seq<Column<V>>)
    requires Rectangular(rows, width)
    ensures |cs| == width && forall i :: 0 <= i < width ==> cs[i] == ColumnAt(rows, i)
  {
    seq(width, i requires 0 <= i < width => ColumnAt(rows, i))
  }

  predicate Aligned<V>(columns: seq<Column<V>>, height: nat) {
    forall i :: 0 <= i < |columns| ==> |columns[i]| == height
  }

  function Across<V>(columns: seq<Column<V>>, ghost height: nat, r: nat): (row: Row<V>)
    requires Aligned(columns, height) && r < height
    ensures |row| == |columns| && forall c :: 0 <= c < |columns| ==> row[c] == columns[c][r]
  {
    seq(|columns|, c requires 0 <= c < |columns| => columns[c][r])
  }

  /** `zip(*columns)`: no columns at all give no rows. */
  function Zip<V>(columns: seq<Column<V>>, ghost height: nat): (rows: Table<V>)
    requires Aligned(columns, height)
    ensures columns != [] ==> |rows| == height && Rectangular(rows, |columns|)
    ensures forall r, c :: 0 <= r < |rows| && 0 <= c < |columns| ==> rows[r][c] == columns[c][r]
  {
    if columns == [] then []
    else seq(|columns[0]|, r requires 0 <= r < |columns[0]| => Across(columns, height, r))
  }

  predicate SameRows<V(==)>(a: Table<V>, b: Table<V>, ordered: bool) {
    if ordered then a == b else multiset(a) == multiset(b)
  }

  predicate RowsEqual<V(==)>(pred: seq<Column<V>>, gold: seq<Column<V>>, ghost height: nat, ordered: bool)
    requires Aligned(pred, height) && Aligned(gold, height)
  {
    SameRows(Zip(pred, height), Zip(gold, height), ordered)
  }

  function SignatureOf<V>(column: Column<V>, ordered: bool): Signature<V> {
    if ordered then Ordered(column) else Unordered(multiset(column))
  }

  function Signatures<V>(columns: seq<Column<V>>, ordered: bool): (r: seq<Signature<V>>)
    ensures |r| == |columns| && forall i :: 0 <= i < |columns| ==> r[i] == SignatureOf(columns[i], ordered)
  {
    Map(c => SignatureOf(c, ordered), columns)
  }

  /** The positions of predicted columns that could stand for the gold columns, pruned by signature. */
  predicate Consistent<V(==)>(order: seq<nat>, pred: seq<Signature<V>>, gold: seq<Signature<V>>)
    requires |order| == |gold| && forall x :: x in order ==> x < |pred|
  {
    forall i :: 0 <= i < |order| ==> order[i] in order && pred[order[i]] == gold[i]
  }

  /** Whether any candidate ordering of the predicted columns gives the gold rows. */
  predicate AnyCandidateMatches<V(==)>(pred: seq<Column<V>>, gold: seq<Column<V>>, ghost height: nat, ordered: bool)
    requires |pred| == |gold| && Aligned(pred, height) && Aligned(gold, height)
  {
    || RowsEqual(pred, gold, height, ordered)
    || (&& multiset(Signatures(gold, ordered)) == multiset(Signatures(pred, ordered))
        && exists order | order in Orderings(Identity(|pred|)) :: CandidateMatches(order, pred, gold, height, ordered))
  }

  predicate CandidateMatches<V(==)>(order: seq<nat>, pred: seq<Column<V>>, gold: seq<Column<V>>, ghost height: nat,
                                    ordered: bool)
    requires |pred| == |gold| && Aligned(pred, height) && Aligned(gold, height)
    requires order in Orderings(Identity(|pred|))
  {
    OrderingsAreAll(Identity(|pred|), order);
    PermutationRange(order, |pred|);
    && Consistent(order, Signatures(pred, ordered), Signatures(gold, ordered))
    && RowsEqual(Rearrange(pred, order), gold, height, ordered)
  }

  function Diagnose<V(==)>(pred: seq<Column<V>>, gold: seq<Column<V>>, ghost height: nat, ordered: bool): Verdict
    requires Aligned(pred, height) && Aligned(gold, height)
  {
    if ordered && RowsEqual(pred, gold, height, false) then OrderMismatch
    else if multiset(Signatures(pred, false)) != multiset(Signatures(gold, false)) then NoColumnBijection
    else ValueMismatch
  }

  function Compare<V(==)>(pred: Table<V>, gold: Table<V>, ordered: bool): Outcome {
    if |pred| != |gold| then Outcome(ShapeMismatch, false, ordered, false)
    else if gold == [] then Outcome(Match, true, ordered, false)
    else
      var width := |gold[0]|;
      if !Rectangular(gold, width) || !Rectangular(pred, width) then Outcome(ShapeMismatch, false, ordered, false)
      else
        var p, g := Columns(pred, width), Columns(gold, width);
        if width > MAX_COLUMNS_FOR_PERMUTATION then
          var matched := RowsEqual(p, g, |gold|, ordered);
          Outcome(if matched then Match else ValueMismatch, matched, ordered, true)
        else if AnyCandidateMatches(p, g, |gold|, ordered) then Outcome(Match, true, ordered, false)
        else Outcome(Diagnose(p, g, |gold|, ordered), false, ordered, false)
  }

  // ----- the specification: some permutation of the columns makes the rows equal -----

  /** `rows` with every row's fields read in the order `p` gives. */
  function Permuted<V>(rows: Table<V>, p: seq<nat>): (r: Table<V>)
    requires forall row, x :: row in rows && x in p ==> x < |row|
    ensures |r| == |rows|
    ensures forall i :: 0 <= i < |rows| ==> rows[i] in rows && r[i] == Rearrange(rows[i], p)
  {
    Map((row: Row<V>) requires forall x :: x in p ==> x < |row| => Rearrange(row, p), rows)
  }

  function Width<V>(t: Table<V>): nat {
    if t == [] then 0 else |t[0]|
  }

  /** Same number of rows, and every row of both as wide as the first gold row. */
  predicate SameShape<V>(pred: Table<V>, gold: Table<V>) {
    |pred| == |gold| && Rectangular(pred, Width(gold)) && Rectangular(gold, Width(gold))
  }

  ghost predicate MatchesUnder<V>(pred: Table<V>, gold: Table<V>, ordered: bool, p: seq<nat>)
    requires SameShape(pred, gold)
  {
    && IsPermutation(p, Width(gold))
    && (PermutationRange(p, Width(gold)); InRange(pred, p, Width(gold));
        SameRows(Permuted(pred, p), gold, ordered))
  }

  ghost predicate SameUpToColumns<V>(pred: Table<V>, gold: Table<V>, ordered: bool) {
    SameShape(pred, gold) && exists p :: MatchesUnder(pred, gold, ordered, p)
  }

  lemma InRange<V>(rows: Table<V>, p: seq<nat>, width: nat)
    requires Rectangular(rows, width) && forall x :: x in p ==> x < width
    ensures forall row, x :: row in rows && x in p ==> x < |row|
  {
  }

  // ----- the pruned search decides the specification -----

  lemma ZipColumns<V>(rows: Table<V>, width: nat)
    requires Rectangular(rows, width) && width > 0
    ensures Aligned(Columns(rows, width), |rows|) && Zip(Columns(rows, width), |rows|) == rows
  {
    var z := Zip(Columns(rows, width), |rows|);
    forall r | 0 <= r < |rows|
      ensures z[r] == rows[r]
    {
      assert |z[r]| == |rows[r]| && forall c :: 0 <= c < width ==> z[r][c] == rows[r][c];
    }
  }

  lemma ZipRearranged<V>(pred: Table<V>, p: seq<nat>, width: nat)
    requires Rectangular(pred, width) && width > 0 && IsPermutation(p, width)
    requires forall x :: x in p ==> x < width
    ensures Aligned(Rearrange(Columns(pred, width), p), |pred|)
    ensures (forall row, x :: row in pred && x in p ==> x < |row|)
    ensures Zip(Rearrange(Columns(pred, width), p), |pred|) == Permuted(pred, p)
  {
    PermutationRange(p, width);
    InRange(pred, p, width);
    var z := Zip(Rearrange(Columns(pred, width), p), |pred|);
    forall r | 0 <= r < |pred|
      ensures z[r] == Permuted(pred, p)[r]
    {
      assert z[r] == Rearrange(pred[r], p);
    }
  }

  /** Aligning columns and comparing rows is comparing permuted rows. */
  lemma RowsEqualIsSameRows<V>(pred: Table<V>, gold: Table<V>, p: seq<nat>, ordered: bool)
    requires SameShape(pred, gold) && gold != [] && IsPermutation(p, Width(gold))
    requires forall x :: x in p ==> x < Width(gold)
    ensures var w := Width(gold);
            && Aligned(Rearrange(Columns(pred, w), p), |gold|)
            && Aligned(Columns(gold, w), |gold|)
            && (RowsEqual(Rearrange(Columns(pred, w), p), Columns(gold, w), |gold|, ordered)
                <==> MatchesUnder(pred, gold, ordered, p))
  {
    var w := Width(gold);
    PermutationRange(p, w);
    InRange(pred, p, w);
    if w > 0 {
      ZipRearranged(pred, p, w);
      ZipColumns(gold, w);
    } else {
      assert Permuted(pred, p) == gold;
    }
  }

  lemma ColumnRespectsMultisets<V>(a: Table<V>, b: Table<V>, i: nat)
    requires multiset(a) == multiset(b)
    requires (forall row :: row in a ==> i < |row|) && (forall row :: row in b ==> i < |row|)
    ensures multiset(ColumnAt(a, i)) == multiset(ColumnAt(b, i))
  {
    var f := (row: Row<V>) requires i < |row| => row[i];
    MapRespectsMultisets(f, a, b);
    assert Map(f, a) == ColumnAt(a, i) && Map(f, b) == ColumnAt(b, i);
  }

  lemma PermutedShape<V>(rows: Table<V>, p: seq<nat>, width: nat)
    requires Rectangular(rows, width) && IsPermutation(p, width)
    ensures |p| == width && (forall x :: x in p ==> x < width)
    ensures forall row, x :: row in rows && x in p ==> x < |row|
    ensures Rectangular(Permuted(rows, p), width)
    ensures forall i :: 0 <= i < width ==> p[i] in p && ColumnAt(Permuted(rows, p), i) == ColumnAt(rows, p[i])
  {
    PermutationRange(p, width);
    InRange(rows, p, width);
    forall i | 0 <= i < width
      ensures p[i] in p && ColumnAt(Permuted(rows, p), i) == ColumnAt(rows, p[i])
    {
      assert forall r :: 0 <= r < |rows| ==> Permuted(rows, p)[r][i] == rows[r][p[i]];
    }
  }

  /** Two columns have one signature when they hold the same, in the same order where order counts. */
  lemma SignatureMeans<V>(a: Column<V>, b: Column<V>, ordered: bool)
    ensures SignatureOf(a, ordered) == SignatureOf(b, ordered) <==> if ordered then a == b else multiset(a) == multiset(b)
  {
  }

  /** A permutation that works pairs columns with equal signatures, so pruning never discards it. */
  lemma PruningIsComplete<V>(pred: Table<V>, gold: Table<V>, p: seq<nat>, ordered: bool, sigOrdered: bool)
    requires SameShape(pred, gold) && MatchesUnder(pred, gold, ordered, p) && (sigOrdered ==> ordered)
    requires |p| == Width(gold) && forall x :: x in p ==> x < Width(gold)
    ensures var predSigs, goldSigs :=
              Signatures(Columns(pred, Width(gold)), sigOrdered), Signatures(Columns(gold, Width(gold)), sigOrdered);
            Consistent(p, predSigs, goldSigs) && multiset(predSigs) == multiset(goldSigs)
  {
    var w := Width(gold);
    var predSigs, goldSigs := Signatures(Columns(pred, w), sigOrdered), Signatures(Columns(gold, w), sigOrdered);
    PermutedShape(pred, p, w);
    forall i | 0 <= i < w
      ensures p[i] in p && predSigs[p[i]] == goldSigs[i]
    {
      if !ordered { ColumnRespectsMultisets(Permuted(pred, p), gold, i); }
    }
    assert Rearrange(predSigs, p) == goldSigs;
    RearrangeKeepsMultiset(predSigs, p);
  }

  lemma CandidateIsSound<V>(pred: Table<V>, gold: Table<V>, ordered: bool, order: seq<nat>)
    requires SameShape(pred, gold) && gold != [] && order in Orderings(Identity(Width(gold)))
    requires CandidateMatches(order, Columns(pred, Width(gold)), Columns(gold, Width(gold)), |gold|, ordered)
    ensures SameUpToColumns(pred, gold, ordered)
  {
    OrderingsAreAll(Identity(Width(gold)), order);
    PermutationRange(order, Width(gold));
    RowsEqualIsSameRows(pred, gold, order, ordered);
  }

  lemma SearchIsSound<V>(pred: Table<V>, gold: Table<V>, ordered: bool)
    requires SameShape(pred, gold) && gold != []
    requires AnyCandidateMatches(Columns(pred, Width(gold)), Columns(gold, Width(gold)), |gold|, ordered)
    ensures SameUpToColumns(pred, gold, ordered)
  {
    var w := Width(gold);
    var pc, gc := Columns(pred, w), Columns(gold, w);
    if RowsEqual(pc, gc, |gold|, ordered) {
      RearrangeIdentity(pc);
      RowsEqualIsSameRows(pred, gold, Identity(w), ordered);
    } else {
      var order :| order in Orderings(Identity(w)) && CandidateMatches(order, pc, gc, |gold|, ordered);
      CandidateIsSound(pred, gold, ordered, order);
    }
  }

  lemma SearchIsComplete<V>(pred: Table<V>, gold: Table<V>, ordered: bool, p: seq<nat>)
    requires SameShape(pred, gold) && gold != [] && MatchesUnder(pred, gold, ordered, p)
    ensures AnyCandidateMatches(Columns(pred, Width(gold)), Columns(gold, Width(gold)), |gold|, ordered)
  {
    var w := Width(gold);
    PermutationRange(p, w);
    PruningIsComplete(pred, gold, p, ordered, ordered);
    RowsEqualIsSameRows(pred, gold, p, ordered);
    OrderingsAreAll(Identity(w), p);
  }

  /** The search, early exit and all, answers exactly "some permutation works". */
  lemma SearchDecides<V>(pred: Table<V>, gold: Table<V>, ordered: bool)
    requires SameShape(pred, gold) && gold != []
    ensures AnyCandidateMatches(Columns(pred, Width(gold)), Columns(gold, Width(gold)), |gold|, ordered)
            <==> SameUpToColumns(pred, gold, ordered)
  {
    if AnyCandidateMatches(Columns(pred, Width(gold)), Columns(gold, Width(gold)), |gold|, ordered) {
      SearchIsSound(pred, gold, ordered);
    }
    if SameUpToColumns(pred, gold, ordered) {
      var p :| MatchesUnder(pred, gold, ordered, p);
      SearchIsComplete(pred, gold, ordered, p);
    }
  }

  /**
   `compare` reports a match exactly when the results have the same shape and some
   column permutation makes the rows equal; above the width cap, only the identity is tried.
   */
  lemma CompareDecides<V>(pred: Table<V>, gold: Table<V>, ordered: bool)
    ensures Compare(pred, gold, ordered).matched <==>
            SameShape(pred, gold) &&
            if Width(gold) <= MAX_COLUMNS_FOR_PERMUTATION then SameUpToColumns(pred, gold, ordered)
            else SameRows(pred, gold, ordered)
    ensures Compare(pred, gold, ordered).matched ==> SameUpToColumns(pred, gold, ordered)
  {
    if SameShape(pred, gold) {
      IdentityMatches(pred, gold, ordered);
      if gold != [] {
        SearchDecides(pred, gold, ordered);
        if Width(gold) > 0 {
          ZipColumns(pred, Width(gold));
          ZipColumns(gold, Width(gold));
        }
      }
    }
  }

  lemma IdentityMatches<V>(pred: Table<V>, gold: Table<V>, ordered: bool)
    requires SameShape(pred, gold)
    ensures MatchesUnder(pred, gold, ordered, Identity(Width(gold))) <==> SameRows(pred, gold, ordered)
  {
    var w := Width(gold);
    PermutationRange(Identity(w), w);
    InRange(pred, Identity(w), w);
    assert Permuted(pred, Identity(w)) == pred by {
      forall i | 0 <= i < |pred|
        ensures Permuted(pred, Identity(w))[i] == pred[i]
      {
        RearrangeIdentity(pred[i]);
      }
    }
  }

  /** The rows agree up to a column permutation; above the width cap, in place. */
  ghost predicate Agree<V>(pred: Table<V>, gold: Table<V>, ordered: bool) {
    if Width(gold) <= MAX_COLUMNS_FOR_PERMUTATION then SameUpToColumns(pred, gold, ordered)
    else SameShape(pred, gold) && SameRows(pred, gold, ordered)
  }

  lemma AgreeIsMatch<V>(pred: Table<V>, gold: Table<V>, ordered: bool)
    ensures Compare(pred, gold, ordered).matched <==> Agree(pred, gold, ordered)
  {
    CompareDecides(pred, gold, ordered);
  }

  // ----- an equivalence relation -----

  lemma MatchIsReflexive<V>(t: Table<V>, ordered: bool)
    ensures Compare(t, t, ordered).matched <==> Rectangular(t, Width(t))
  {
    CompareDecides(t, t, ordered);
    if Rectangular(t, Width(t)) { IdentityMatches(t, t, ordered); }
  }

  /** Permuting columns respects whichever row equality is in force. */
  lemma PermutedRespects<V>(a: Table<V>, b: Table<V>, p: seq<nat>, width: nat, ordered: bool)
    requires Rectangular(a, width) && Rectangular(b, width) && IsPermutation(p, width) && SameRows(a, b, ordered)
    requires forall row, x :: row in a && x in p ==> x < |row|
    requires forall row, x :: row in b && x in p ==> x < |row|
    ensures SameRows(Permuted(a, p), Permuted(b, p), ordered)
  {
    if !ordered {
      var f := (row: Row<V>) requires forall x :: x in p ==> x < |row| => Rearrange(row, p);
      MapRespectsMultisets(f, a, b);
      assert Map(f, a) == Permuted(a, p) && Map(f, b) == Permuted(b, p);
    }
  }

  lemma PermutedTwice<V>(rows: Table<V>, p: seq<nat>, q: seq<nat>, width: nat) returns (r: seq<nat>)
    requires Rectangular(rows, width) && IsPermutation(p, width) && IsPermutation(q, width)
    ensures IsPermutation(r, width)
    ensures forall row, x :: row in rows && x in p ==> x < |row|
    ensures forall row, x :: row in rows && x in r ==> x < |row|
    ensures forall row, x :: row in Permuted(rows, p) && x in q ==> x < |row|
    ensures Permuted(Permuted(rows, p), q) == Permuted(rows, r)
  {
    PermutedShape(rows, p, width);
    PermutedShape(Permuted(rows, p), q, width);
    RearrangeTwice(Identity(width), p, q);
    r := Rearrange(p, q);
    PermutedShape(rows, r, width);
    forall i | 0 <= i < |rows|
      ensures Permuted(Permuted(rows, p), q)[i] == Permuted(rows, r)[i]
    {
      RearrangeTwice(rows[i], p, q);
    }
  }

  lemma MatchIsTransitive<V>(a: Table<V>, b: Table<V>, c: Table<V>, ordered: bool)
    requires Compare(a, b, ordered).matched && Compare(b, c, ordered).matched
    ensures Compare(a, c, ordered).matched
  {
    CompareDecides(a, b, ordered);
    CompareDecides(b, c, ordered);
    CompareDecides(a, c, ordered);
    var w := Width(c);
    if c != [] && w <= MAX_COLUMNS_FOR_PERMUTATION {
      var p :| MatchesUnder(a, b, ordered, p);
      var q :| MatchesUnder(b, c, ordered, q);
      var r := PermutedTwice(a, p, q, w);
      PermutedShape(a, p, w);
      PermutedShape(b, q, w);
      PermutedRespects(Permuted(a, p), b, q, w, ordered);
      assert MatchesUnder(a, c, ordered, r);
    }
  }

  lemma MatchIsSymmetric<V>(a: Table<V>, b: Table<V>, ordered: bool)
    ensures Compare(a, b, ordered).matched <==> Compare(b, a, ordered).matched
  {
    if Compare(a, b, ordered).matched { MatchFlips(a, b, ordered); }
    if Compare(b, a, ordered).matched { MatchFlips(b, a, ordered); }
  }

  lemma MatchFlips<V>(a: Table<V>, b: Table<V>, ordered: bool)
    requires Compare(a, b, ordered).matched
    ensures Compare(b, a, ordered).matched
  {
    CompareDecides(a, b, ordered);
    CompareDecides(b, a, ordered);
    if b != [] && Width(b) <= MAX_COLUMNS_FOR_PERMUTATION {
      var p :| MatchesUnder(a, b, ordered, p);
      FlipUnder(a, b, ordered, p);
    }
  }

  lemma FlipUnder<V>(a: Table<V>, b: Table<V>, ordered: bool, p: seq<nat>)
    requires b != [] && SameShape(a, b) && MatchesUnder(a, b, ordered, p)
    ensures SameUpToColumns(b, a, ordered)
  {
    var w := Width(b);
    var q := Inverse(p, w);
    PermutedShape(a, p, w);
    PermutedShape(b, q, w);
    PermutedShape(Permuted(a, p), q, w);
    PermutedRespects(Permuted(a, p), b, q, w, ordered);
    PermutedBack(a, p, q, w);
    assert MatchesUnder(b, a, ordered, q);
  }

  lemma PermutedBack<V>(rows: Table<V>, p: seq<nat>, q: seq<nat>, width: nat)
    requires Rectangular(rows, width) && |p| == |q| == width
    requires forall j :: 0 <= j < width ==> q[j] < width && p[q[j]] == j
    requires (forall x :: x in p ==> x < width) && (forall x :: x in q ==> x < width)
    requires forall row, x :: row in rows && x in p ==> x < |row|
    requires forall row, x :: row in Permuted(rows, p) && x in q ==> x < |row|
    ensures Permuted(Permuted(rows, p), q) == rows
  {
    forall i | 0 <= i < |rows|
      ensures Permuted(Permuted(rows, p), q)[i] == rows[i]
    {
      RearrangeInverse(rows[i], p, q);
    }
  }

  /** Reordering the predicted columns, and when order is free also the rows, changes no verdict of a match. */
  lemma ColumnOrderIsIgnored<V>(pred: Table<V>, gold: Table<V>, shuffled: Table<V>, ordered: bool)
    requires SameUpToColumns(shuffled, pred, ordered) && Width(pred) <= MAX_COLUMNS_FOR_PERMUTATION
    ensures Compare(shuffled, gold, ordered).matched <==> Compare(pred, gold, ordered).matched
  {
    CompareDecides(shuffled, pred, ordered);
    MatchIsSymmetric(shuffled, pred, ordered);
    if Compare(shuffled, gold, ordered).matched { MatchIsTransitive(pred, shuffled, gold, ordered); }
    if Compare(pred, gold, ordered).matched { MatchIsTransitive(shuffled, pred, gold, ordered); }
  }

  /** Above the cap column order is not ignored: swapping the first two of nine columns breaks a match. */
  lemma WideResultsAreStricter()
    ensures SameUpToColumns([FirstTwoSwapped(9)], [Identity(9)], true)
    ensures !Compare([FirstTwoSwapped(9)], [Identity(9)], true).matched
  {
    var p := FirstTwoSwapped(9);
    SwapIsPermutation(9);
    PermutedShape([p], p, 9);
    assert Permuted([p], p)[0] == Identity(9);
    assert MatchesUnder([p], [Identity(9)], true, p);
    CompareDecides([p], [Identity(9)], true);
    assert p[0] != Identity(9)[0];
  }

  function FirstTwoSwapped(n: nat): (r: seq<nat>)
    requires n >= 2
    ensures |r| == n && forall i :: 0 <= i < n ==> r[i] == Swapped(i)
  {
    seq(n, i requires 0 <= i < n => Swapped(i))
  }

  function Swapped(i: nat): nat {
    if i == 0 then 1 else if i == 1 then 0 else i
  }

  lemma SwapIsPermutation(n: nat)
    requires n >= 2
    ensures IsPermutation(FirstTwoSwapped(n), n)
    ensures forall x: nat :: x in FirstTwoSwapped(n) ==> x < n
    ensures Rearrange(FirstTwoSwapped(n), FirstTwoSwapped(n)) == Identity(n)
  {
    var p := FirstTwoSwapped(n);
    forall x: nat
      ensures x in p <==> x < n
    {
      if x < n { assert p[Swapped(x)] == x; }
    }
    DistinctCoverIsPermutation(p, n);
  }

  // ----- what a mismatch verdict says -----

  /** Some pairing of predicted with gold columns in which every pair has the same contents. */
  ghost predicate ColumnsPairUp<V>(pred: Table<V>, gold: Table<V>)
    requires SameShape(pred, gold)
  {
    exists p :: ContentsPaired(pred, gold, p)
  }

  ghost predicate ContentsPaired<V>(pred: Table<V>, gold: Table<V>, p: seq<nat>)
    requires SameShape(pred, gold)
  {
    && IsPermutation(p, Width(gold))
    && |p| == Width(gold)
    && forall i :: 0 <= i < |p| ==> p[i] < |p| && multiset(ColumnAt(pred, p[i])) == multiset(ColumnAt(gold, i))
  }

  lemma PairUpIffSignaturesAgree<V>(pred: Table<V>, gold: Table<V>)
    requires SameShape(pred, gold)
    ensures ColumnsPairUp(pred, gold) <==>
            multiset(Signatures(Columns(pred, Width(gold)), false))
            == multiset(Signatures(Columns(gold, Width(gold)), false))
  {
    var w := Width(gold);
    var ps, gs := Signatures(Columns(pred, w), false), Signatures(Columns(gold, w), false);
    if multiset(ps) == multiset(gs) {
      var p := Alignment(ps, gs);
      forall i | 0 <= i < w
        ensures p[i] < w && multiset(ColumnAt(pred, p[i])) == multiset(ColumnAt(gold, i))
      {
        assert p[i] in p;
        assert Rearrange(ps, p)[i] == gs[i];
      }
      assert ContentsPaired(pred, gold, p);
    }
    if ColumnsPairUp(pred, gold) {
      var p :| ContentsPaired(pred, gold, p);
      PermutationRange(p, w);
      assert Rearrange(ps, p) == gs;
      RearrangeKeepsMultiset(ps, p);
    }
  }

  lemma EmptyRowsMatch<V>(pred: Table<V>, gold: Table<V>, ordered: bool)
    requires SameShape(pred, gold) && Width(gold) == 0
    ensures Compare(pred, gold, ordered).matched
  {
    assert pred == gold;
    IdentityMatches(pred, gold, ordered);
    CompareDecides(pred, gold, ordered);
  }

  /** Each mismatch verdict names its cause exactly. */
  lemma DiagnosisDecides<V>(pred: Table<V>, gold: Table<V>, ordered: bool)
    requires SameShape(pred, gold) && gold != [] && Width(gold) <= MAX_COLUMNS_FOR_PERMUTATION
    requires !Compare(pred, gold, ordered).matched
    ensures Compare(pred, gold, ordered).verdict ==
            if ordered && SameRows(pred, gold, false) then OrderMismatch
            else if !ColumnsPairUp(pred, gold) then NoColumnBijection
            else ValueMismatch
    ensures Compare(pred, gold, ordered).verdict == NoColumnBijection ==> !SameUpToColumns(pred, gold, false)
  {
    var w := Width(gold);
    CompareDecides(pred, gold, ordered);
    PairUpIffSignaturesAgree(pred, gold);
    if w > 0 {
      ZipColumns(pred, w);
      ZipColumns(gold, w);
    } else {
      EmptyRowsMatch(pred, gold, ordered);
    }
    if SameUpToColumns(pred, gold, false) {
      var p :| MatchesUnder(pred, gold, false, p);
      PermutationRange(p, w);
      PruningIsComplete(pred, gold, p, false, false);
    }
  }

  /** Everything else an outcome says, for all inputs: the shape verdict, the order flag and the fallback flag. */
  lemma OutcomeDecides<V>(pred: Table<V>, gold: Table<V>, ordered: bool)
    ensures var o := Compare(pred, gold, ordered);
            && (o.verdict == Match <==> o.matched)
            && (o.verdict == ShapeMismatch <==> !SameShape(pred, gold))
            && o.orderEnforced == ordered
            && (o.positionalFallback <==> SameShape(pred, gold) && gold != [] && Width(gold) > MAX_COLUMNS_FOR_PERMUTATION)
            && (o.positionalFallback && !o.matched ==> o.verdict == ValueMismatch)
  {
    hide AnyCandidateMatches, Columns, RowsEqual;
  }

  /** The verdict in full: a match, a shape, an order, a column or a value mismatch, each with its own condition. */
  lemma VerdictDecides<V>(pred: Table<V>, gold: Table<V>, ordered: bool)
    ensures Compare(pred, gold, ordered).verdict ==
            if !SameShape(pred, gold) then ShapeMismatch
            else if Agree(pred, gold, ordered) then Match
            else if Width(gold) > MAX_COLUMNS_FOR_PERMUTATION then ValueMismatch
            else if ordered && SameRows(pred, gold, false) then OrderMismatch
            else if !ColumnsPairUp(pred, gold) then NoColumnBijection
            else ValueMismatch
  {
    hide Compare, Agree, ColumnsPairUp;
    OutcomeDecides(pred, gold, ordered);
    AgreeIsMatch(pred, gold, ordered);
    if SameShape(pred, gold) && !Agree(pred, gold, ordered) {
      EmptyAgree(pred, gold, ordered);
      if Width(gold) <= MAX_COLUMNS_FOR_PERMUTATION { DiagnosisDecides(pred, gold, ordered); }
    }
  }

  lemma EmptyAgree<V>(pred: Table<V>, gold: Table<V>, ordered: bool)
    requires SameShape(pred, gold)
    ensures gold == [] ==> Agree(pred, gold, ordered)
  {
    AgreeIsMatch(pred, gold, ordered);
  }

  /** The width up to which columns are permuted. */
  lemma CapIsEight()
    ensures MAX_COLUMNS_FOR_PERMUTATION == 8
  {
  }
}
