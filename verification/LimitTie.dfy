/**
 Whether a query's LIMIT cut a tie, so that several prefixes are equally correct.
 A probe row is the query's own columns followed by its ORDER BY keys.
 */
module LimitTie {
  import opened Wrappers
  import opened Sequences

  type Row<V> = seq<V>

  /** A LIMIT or OFFSET operand: a plain integer literal, or anything else. */
  datatype Count = Literal(n: nat) | NotLiteral

  datatype Query = NotASelect
                 | Select(distinct: bool, limit: Option<Count>, offset: Option<Count>, keyCount: nat)

  /** Where the LIMIT cuts, counted from the start of the ordered result. */
  function CutPosition(q: Query): (cut: Option<nat>)
    requires q.Select?
    ensures cut.Some? ==> cut.value > 0
  {
    match q.limit
    case None => None
    case Some(NotLiteral) => None
    case Some(Literal(n)) =>
      match q.offset
      case None => if n > 0 then Some(n) else None
      case Some(NotLiteral) => None
      case Some(Literal(skipped)) => if n + skipped > 0 then Some(n + skipped) else None
  }

  function Key<V>(row: Row<V>, width: nat): Row<V>
    requires width <= |row|
  {
    row[|row| - width..]
  }

  function Visible<V>(row: Row<V>, width: nat): Row<V>
    requires width <= |row|
  {
    row[..|row| - width]
  }

  predicate Wide<V>(rows: seq<Row<V>>, width: nat) {
    forall i :: 0 <= i < |rows| ==> width <= |rows[i]|
  }

  /** The verdict, from the probe's rows; `None` when the probe could not be run. */
  predicate LimitCutIsTied<V(==)>(q: Query, probe: Option<seq<Row<V>>>)
    requires q.Select? && probe.Some? ==> Wide(probe.value, q.keyCount)
  {
    && q.Select?
    && !q.distinct
    && CutPosition(q).Some?
    && probe.Some?
    && var cut, rows := CutPosition(q).value, probe.value;
       && |rows| > cut
       && (q.keyCount == 0 || Key(rows[cut - 1], q.keyCount) == Key(rows[cut], q.keyCount))
  }

  // ----- what an engine may answer -----

  /** A total order on ORDER BY keys in which keys that order equal are equal. */
  ghost predicate TotalOrder<V(!new)>(le: (Row<V>, Row<V>) -> bool) {
    && (forall a, b :: le(a, b) || le(b, a))
    && (forall a, b :: le(a, b) && le(b, a) ==> a == b)
    && (forall a, b, c :: le(a, b) && le(b, c) ==> le(a, c))
  }

  ghost predicate KeySorted<V(!new)>(rows: seq<Row<V>>, width: nat, le: (Row<V>, Row<V>) -> bool)
    requires Wide(rows, width)
  {
    forall i, j :: 0 <= i < j < |rows| ==> le(Key(rows[i], width), Key(rows[j], width))
  }

  /** `a` is one of the orders in which an engine may return the rows of `data`. */
  ghost predicate Arrangement<V(!new)>(a: seq<Row<V>>, data: multiset<Row<V>>, width: nat, le: (Row<V>, Row<V>) -> bool) {
    multiset(a) == data && Wide(a, width) && KeySorted(a, width, le)
  }

  predicate TiedAt<V(==)>(rows: seq<Row<V>>, cut: nat, width: nat)
    requires Wide(rows, width)
  {
    0 < cut < |rows| && Key(rows[cut - 1], width) == Key(rows[cut], width)
  }

  function Shown<V>(rows: seq<Row<V>>, width: nat): (r: seq<Row<V>>)
    requires Wide(rows, width)
    ensures |r| == |rows| && forall i :: 0 <= i < |rows| ==> rows[i] in rows && r[i] == Visible(rows[i], width)
  {
    Map((row: Row<V>) requires width <= |row| => Visible(row, width), rows)
  }

  // ----- sorted sequences -----

  ghost predicate SortedBy<T(!new)>(le: (T, T) -> bool, s: seq<T>) {
    forall i, j :: 0 <= i < j < |s| ==> le(s[i], s[j])
  }

  /** There is one way to sort a multiset of keys. */
  lemma {:induction false} SortedIsUnique<V(!new)>(le: (Row<V>, Row<V>) -> bool, a: seq<Row<V>>, b: seq<Row<V>>)
    requires TotalOrder(le) && SortedBy(le, a) && SortedBy(le, b) && multiset(a) == multiset(b)
    ensures a == b
    decreases |a|
  {
    SameMultisetSameLength(a, b);
    if a != [] {
      FirstIsLeast(le, a, b);
      FirstIsLeast(le, b, a);
      assert a == [a[0]] + a[1..] && b == [b[0]] + b[1..];
      CancelOne(a[0], multiset(a[1..]), multiset(b[1..]));
      SortedIsUnique(le, a[1..], b[1..]);
    }
  }

  lemma FirstIsLeast<V(!new)>(le: (Row<V>, Row<V>) -> bool, a: seq<Row<V>>, b: seq<Row<V>>)
    requires TotalOrder(le) && SortedBy(le, a) && multiset(a) == multiset(b) && |a| == |b| > 0
    ensures le(a[0], b[0])
  {
    SameMultisetSameMembers(a, b, b[0]);
    var i :| 0 <= i < |a| && a[i] == b[0];
  }

  // ----- the theorems -----

  function Keys<V>(rows: seq<Row<V>>, width: nat): (r: seq<Row<V>>)
    requires Wide(rows, width)
    ensures |r| == |rows| && forall i :: 0 <= i < |rows| ==> rows[i] in rows && r[i] == Key(rows[i], width)
  {
    Map((row: Row<V>) requires width <= |row| => Key(row, width), rows)
  }

  lemma ArrangementsShareKeys<V(!new)>(a: seq<Row<V>>, b: seq<Row<V>>, data: multiset<Row<V>>, width: nat,
                                       le: (Row<V>, Row<V>) -> bool)
    requires TotalOrder(le) && Arrangement(a, data, width, le) && Arrangement(b, data, width, le)
    ensures Keys(a, width) == Keys(b, width)
  {
    var f := (row: Row<V>) requires width <= |row| => Key(row, width);
    MapRespectsMultisets(f, a, b);
    assert Map(f, a) == Keys(a, width) && Map(f, b) == Keys(b, width);
    SortedIsUnique(le, Keys(a, width), Keys(b, width));
  }

  /** The verdict does not depend on how the engine happened to break ties. */
  lemma VerdictIsWellDefined<V(!new)>(q: Query, a: seq<Row<V>>, b: seq<Row<V>>, data: multiset<Row<V>>,
                                      le: (Row<V>, Row<V>) -> bool)
    requires q.Select? && TotalOrder(le)
    requires Arrangement(a, data, q.keyCount, le) && Arrangement(b, data, q.keyCount, le)
    ensures LimitCutIsTied(q, Some(a)) == LimitCutIsTied(q, Some(b))
  {
    ArrangementsShareKeys(a, b, data, q.keyCount, le);
    SameMultisetSameLength(a, b);
    if CutPosition(q).Some? && |a| > CutPosition(q).value {
      var cut := CutPosition(q).value;
      KeysAt(a, b, q.keyCount, cut - 1);
      KeysAt(a, b, q.keyCount, cut);
    }
  }

  lemma BelowTheCut<V(!new)>(a: seq<Row<V>>, cut: nat, width: nat, le: (Row<V>, Row<V>) -> bool, i: nat)
    requires TotalOrder(le) && Wide(a, width) && KeySorted(a, width, le) && i < cut <= |a|
    ensures le(Key(a[i], width), Key(a[cut - 1], width))
  {
  }

  lemma AboveTheCut<V(!new)>(a: seq<Row<V>>, cut: nat, width: nat, le: (Row<V>, Row<V>) -> bool, i: nat)
    requires TotalOrder(le) && Wide(a, width) && KeySorted(a, width, le) && 0 < cut <= i < |a|
    requires Key(a[cut - 1], width) != Key(a[cut], width)
    ensures !le(Key(a[i], width), Key(a[cut - 1], width))
  {
    var last, next, far := Key(a[cut - 1], width), Key(a[cut], width), Key(a[i], width);
    assert le(last, next);
    assert le(next, far);
  }

  /** How often a row occurs above an untied cut depends on the row alone. */
  lemma CountAboveTheCut<V(!new)>(a: seq<Row<V>>, cut: nat, width: nat, le: (Row<V>, Row<V>) -> bool, x: Row<V>)
    requires TotalOrder(le) && Wide(a, width) && KeySorted(a, width, le) && 0 < cut < |a|
    requires Key(a[cut - 1], width) != Key(a[cut], width) && x in a
    ensures multiset(a[..cut])[x] == if le(Key(x, width), Key(a[cut - 1], width)) then multiset(a)[x] else 0
  {
    var last := Key(a[cut - 1], width);
    assert a == a[..cut] + a[cut..];
    if x in a[..cut] {
      var i :| 0 <= i < cut && a[i] == x;
      BelowTheCut(a, cut, width, le, i);
    }
    if x in a[cut..] {
      var i :| cut <= i < |a| && a[i] == x;
      AboveTheCut(a, cut, width, le, i);
    }
  }

  lemma SameCountAboveTheCut<V(!new)>(a: seq<Row<V>>, b: seq<Row<V>>, cut: nat, width: nat,
                                      le: (Row<V>, Row<V>) -> bool, x: Row<V>)
    requires TotalOrder(le) && Wide(a, width) && KeySorted(a, width, le) && Wide(b, width) && KeySorted(b, width, le)
    requires multiset(a) == multiset(b) && 0 < cut < |a| == |b|
    requires Key(a[cut - 1], width) == Key(b[cut - 1], width) && Key(a[cut], width) == Key(b[cut], width)
    requires Key(a[cut - 1], width) != Key(a[cut], width)
    ensures multiset(a[..cut])[x] == multiset(b[..cut])[x]
  {
    SameMultisetSameMembers(a, b, x);
    if x in a {
      CountAboveTheCut(a, cut, width, le, x);
      CountAboveTheCut(b, cut, width, le, x);
    } else {
      assert x !in a[..cut] && x !in b[..cut];
    }
  }

  lemma SameMultisetAboveTheCut<V(!new)>(a: seq<Row<V>>, b: seq<Row<V>>, cut: nat, width: nat,
                                         le: (Row<V>, Row<V>) -> bool)
    requires TotalOrder(le) && Wide(a, width) && KeySorted(a, width, le) && Wide(b, width) && KeySorted(b, width, le)
    requires multiset(a) == multiset(b) && 0 < cut < |a| == |b|
    requires Key(a[cut - 1], width) == Key(b[cut - 1], width) && Key(a[cut], width) == Key(b[cut], width)
    requires Key(a[cut - 1], width) != Key(a[cut], width)
    ensures multiset(a[..cut]) == multiset(b[..cut])
  {
    hide TotalOrder, KeySorted, Key;
    forall x
      ensures multiset(a[..cut])[x] == multiset(b[..cut])[x]
    {
      SameCountAboveTheCut(a, b, cut, width, le, x);
    }
  }

  lemma KeysAt<V>(a: seq<Row<V>>, b: seq<Row<V>>, width: nat, i: nat)
    requires Wide(a, width) && Wide(b, width) && Keys(a, width) == Keys(b, width) && i < |a| == |b|
    ensures Key(a[i], width) == Key(b[i], width)
  {
    assert Keys(a, width)[i] == Keys(b, width)[i];
  }

  /** If the key changes across the cut, or nothing was cut, every arrangement has the same prefix. */
  lemma UntiedPrefixIsDetermined<V(!new)>(a: seq<Row<V>>, b: seq<Row<V>>, data: multiset<Row<V>>, cut: nat, width: nat,
                                          le: (Row<V>, Row<V>) -> bool)
    requires TotalOrder(le) && Arrangement(a, data, width, le) && Arrangement(b, data, width, le)
    requires cut <= |a| && !TiedAt(a, cut, width)
    ensures |a| == |b| && multiset(a[..cut]) == multiset(b[..cut])
  {
    SameMultisetSameLength(a, b);
    if cut == |a| {
      assert a[..cut] == a && b[..cut] == b;
    } else if cut > 0 {
      ArrangementsShareKeys(a, b, data, width, le);
      KeysAt(a, b, width, cut - 1);
      KeysAt(a, b, width, cut);
      SameMultisetAboveTheCut(a, b, cut, width, le);
    }
  }

  /** Two rows sharing the cut's key that a reader of the result could tell apart. */
  ghost predicate TieIsVisible<V>(a: seq<Row<V>>, cut: nat, width: nat)
    requires Wide(a, width) && cut < |a|
  {
    exists i, j :: 0 <= i < |a| && 0 <= j < |a|
      && Key(a[i], width) == Key(a[cut], width) == Key(a[j], width) && Visible(a[i], width) != Visible(a[j], width)
  }

  /** Some equally correct arrangement shows a different multiset of rows above the cut. */
  ghost predicate Undetermined<V(!new)>(a: seq<Row<V>>, data: multiset<Row<V>>, cut: nat, width: nat,
                                        le: (Row<V>, Row<V>) -> bool)
    requires Wide(a, width) && cut <= |a|
  {
    exists b :: AnswersDifferently(b, a, data, cut, width, le)
  }

  ghost predicate AnswersDifferently<V(!new)>(b: seq<Row<V>>, a: seq<Row<V>>, data: multiset<Row<V>>, cut: nat,
                                              width: nat, le: (Row<V>, Row<V>) -> bool)
    requires Wide(a, width) && cut <= |a|
  {
    && Arrangement(b, data, width, le)
    && cut <= |b|
    && multiset(Shown(b[..cut], width)) != multiset(Shown(a[..cut], width))
  }

  lemma {:induction false} FirstOfTie<V(!new)>(a: seq<Row<V>>, cut: nat, width: nat, le: (Row<V>, Row<V>) -> bool, at: nat)
    returns (lo: nat)
    requires TotalOrder(le) && Wide(a, width) && KeySorted(a, width, le) && at <= cut < |a|
    requires Key(a[at], width) == Key(a[cut], width)
    ensures lo <= at && !TiedAt(a, lo, width)
    ensures forall i :: lo <= i <= cut ==> Key(a[i], width) == Key(a[cut], width)
    decreases at
  {
    if at > 0 && Key(a[at - 1], width) == Key(a[at], width) {
      lo := FirstOfTie(a, cut, width, le, at - 1);
    } else {
      lo := at;
      forall i | lo <= i <= cut
        ensures Key(a[i], width) == Key(a[cut], width)
      {
        assert i > lo ==> le(Key(a[lo], width), Key(a[i], width));
        assert i < cut ==> le(Key(a[i], width), Key(a[cut], width));
      }
    }
  }

  lemma ShownSplits<V>(rows: seq<Row<V>>, lo: nat, cut: nat, width: nat)
    requires Wide(rows, width) && lo <= cut <= |rows|
    ensures Shown(rows[..cut], width) == Shown(rows[..lo], width) + Shown(rows[lo..cut], width)
  {
  }

  lemma ShownRespectsMultisets<V>(a: seq<Row<V>>, b: seq<Row<V>>, width: nat)
    requires Wide(a, width) && Wide(b, width) && multiset(a) == multiset(b)
    ensures multiset(Shown(a, width)) == multiset(Shown(b, width))
  {
    var show := (row: Row<V>) requires width <= |row| => Visible(row, width);
    MapRespectsMultisets(show, a, b);
    assert Map(show, a) == Shown(a, width) && Map(show, b) == Shown(b, width);
  }

  lemma UntiedPrefixShowsSame<V(!new)>(a: seq<Row<V>>, b: seq<Row<V>>, data: multiset<Row<V>>, cut: nat, width: nat,
                                       le: (Row<V>, Row<V>) -> bool)
    requires TotalOrder(le) && Arrangement(a, data, width, le) && Arrangement(b, data, width, le)
    requires cut <= |a| && !TiedAt(a, cut, width)
    ensures |a| == |b| && multiset(Shown(a[..cut], width)) == multiset(Shown(b[..cut], width))
  {
    UntiedPrefixIsDetermined(a, b, data, cut, width, le);
    ShownRespectsMultisets(a[..cut], b[..cut], width);
  }

  lemma InvisiblyTied<V>(a: seq<Row<V>>, b: seq<Row<V>>, cut: nat, width: nat, i: nat)
    requires Wide(a, width) && Wide(b, width) && multiset(a) == multiset(b)
    requires i < |b| && cut < |a| && !TieIsVisible(a, cut, width)
    requires Key(b[i], width) == Key(a[cut], width)
    ensures Visible(b[i], width) == Visible(a[cut], width)
  {
    SameMultisetSameMembers(a, b, b[i]);
    var j :| 0 <= j < |a| && a[j] == b[i];
  }

  lemma SameVisibleInMiddle<V>(a: seq<Row<V>>, b: seq<Row<V>>, cut: nat, width: nat, i: nat)
    requires Wide(a, width) && Wide(b, width) && multiset(a) == multiset(b) && |a| == |b|
    requires i <= cut < |a| && !TieIsVisible(a, cut, width) && Keys(a, width) == Keys(b, width)
    requires Key(a[i], width) == Key(a[cut], width)
    ensures Visible(a[i], width) == Visible(b[i], width)
  {
    hide TieIsVisible, Key, Visible;
    KeysAt(a, b, width, i);
    InvisiblyTied(a, a, cut, width, i);
    InvisiblyTied(a, b, cut, width, i);
  }

  ghost predicate AlikeBetween<V>(a: seq<Row<V>>, b: seq<Row<V>>, lo: nat, hi: nat, width: nat)
    requires Wide(a, width) && Wide(b, width) && hi <= |a| == |b|
  {
    forall i :: lo <= i < hi ==> Visible(a[i], width) == Visible(b[i], width)
  }

  lemma AlikeShowsAlike<V>(a: seq<Row<V>>, b: seq<Row<V>>, lo: nat, hi: nat, width: nat)
    requires Wide(a, width) && Wide(b, width) && lo <= hi <= |a| == |b| && AlikeBetween(a, b, lo, hi, width)
    ensures Shown(a[lo..hi], width) == Shown(b[lo..hi], width)
  {
    hide Visible;
    forall k | 0 <= k < hi - lo
      ensures Visible(a[lo..hi][k], width) == Visible(b[lo..hi][k], width)
    {
      assert a[lo..hi][k] == a[lo + k] && b[lo..hi][k] == b[lo + k];
    }
  }

  lemma InvisibleMiddle<V>(a: seq<Row<V>>, b: seq<Row<V>>, lo: nat, cut: nat, width: nat)
    requires Wide(a, width) && Wide(b, width) && multiset(a) == multiset(b) && |a| == |b|
    requires lo <= cut < |a| && !TieIsVisible(a, cut, width) && Keys(a, width) == Keys(b, width)
    requires forall i :: lo <= i <= cut ==> Key(a[i], width) == Key(a[cut], width)
    ensures AlikeBetween(a, b, lo, cut, width)
  {
    hide TieIsVisible, Key, Visible, Keys;
    forall i | lo <= i < cut
      ensures Visible(a[i], width) == Visible(b[i], width)
    {
      SameVisibleInMiddle(a, b, cut, width, i);
    }
  }

  /** A tie no reader can see does not change what the prefix shows. */
  lemma InvisibleTieIsDetermined<V(!new)>(a: seq<Row<V>>, b: seq<Row<V>>, data: multiset<Row<V>>, cut: nat, width: nat,
                                          le: (Row<V>, Row<V>) -> bool)
    requires TotalOrder(le) && Arrangement(a, data, width, le) && Arrangement(b, data, width, le)
    requires TiedAt(a, cut, width) && !TieIsVisible(a, cut, width)
    ensures |a| == |b| && multiset(Shown(a[..cut], width)) == multiset(Shown(b[..cut], width))
  {
    hide TieIsVisible;
    var lo := FirstOfTie(a, cut, width, le, cut);
    UntiedPrefixShowsSame(a, b, data, lo, width, le);
    ArrangementsShareKeys(a, b, data, width, le);
    InvisibleMiddle(a, b, lo, cut, width);
    AlikeShowsAlike(a, b, lo, cut, width);
    ShownSplits(a, lo, cut, width);
    ShownSplits(b, lo, cut, width);
  }

  lemma AcrossTheCut<V>(a: seq<Row<V>>, cut: nat, width: nat) returns (i: nat, j: nat)
    requires Wide(a, width) && TiedAt(a, cut, width) && TieIsVisible(a, cut, width)
    ensures i < cut <= j < |a|
    ensures Key(a[i], width) == Key(a[j], width) && Visible(a[i], width) != Visible(a[j], width)
  {
    var k := Key(a[cut], width);
    var x, y :| 0 <= x < |a| && 0 <= y < |a| && Key(a[x], width) == k == Key(a[y], width)
      && Visible(a[x], width) != Visible(a[y], width);
    var z := if Visible(a[x], width) != Visible(a[cut], width) then x else y;
    if Visible(a[cut - 1], width) != Visible(a[cut], width) {
      i, j := cut - 1, cut;
    } else if z < cut {
      i, j := z, cut;
    } else {
      i, j := cut - 1, z;
    }
  }

  lemma SwapKeepsMultiset<T>(s: seq<T>, i: nat, j: nat)
    requires i < j < |s|
    ensures multiset(s[i := s[j]][j := s[i]]) == multiset(s)
  {
  }

  lemma SwapIsArrangement<V(!new)>(a: seq<Row<V>>, data: multiset<Row<V>>, i: nat, j: nat, width: nat,
                                   le: (Row<V>, Row<V>) -> bool)
    requires Arrangement(a, data, width, le) && i < j < |a| && Key(a[i], width) == Key(a[j], width)
    ensures Arrangement(a[i := a[j]][j := a[i]], data, width, le)
  {
    var b := a[i := a[j]][j := a[i]];
    SwapKeepsMultiset(a, i, j);
    forall x, y | 0 <= x < y < |b|
      ensures le(Key(b[x], width), Key(b[y], width))
    {
      assert Key(b[x], width) == Key(a[x], width) && Key(b[y], width) == Key(a[y], width);
    }
  }

  lemma ShownUpdated<V>(rows: seq<Row<V>>, i: nat, row: Row<V>, width: nat)
    requires Wide(rows, width) && width <= |row| && i < |rows|
    ensures Wide(rows[i := row], width)
    ensures Shown(rows[i := row], width) == Shown(rows, width)[i := Visible(row, width)]
  {
  }

  lemma SwapShows<V>(a: seq<Row<V>>, cut: nat, i: nat, j: nat, width: nat)
    requires Wide(a, width) && i < cut <= j < |a| && Visible(a[i], width) != Visible(a[j], width)
    ensures Wide(a[i := a[j]][j := a[i]], width)
    ensures multiset(Shown(a[i := a[j]][j := a[i]][..cut], width)) != multiset(Shown(a[..cut], width))
  {
    hide Key, Visible;
    assert a[i := a[j]][j := a[i]][..cut] == a[..cut][i := a[j]];
    ShownUpdated(a[..cut], i, a[j], width);
    ReplacedElement(Shown(a[..cut], width), i, Visible(a[j], width));
  }

  /** Exchanging two tied rows across the cut gives another correct, visibly different answer. */
  lemma VisibleTieIsUndetermined<V(!new)>(a: seq<Row<V>>, data: multiset<Row<V>>, cut: nat, width: nat,
                                          le: (Row<V>, Row<V>) -> bool)
    requires Arrangement(a, data, width, le)
    requires TiedAt(a, cut, width) && TieIsVisible(a, cut, width)
    ensures Undetermined(a, data, cut, width, le)
  {
    var i, j := AcrossTheCut(a, cut, width);
    var b := a[i := a[j]][j := a[i]];
    assert AnswersDifferently(b, a, data, cut, width, le) by {
      SwapIsArrangement(a, data, i, j, width, le);
      SwapShows(a, cut, i, j, width);
    }
  }

  /**
   Exactly which cuts leave the answer open: the key ties across the cut, and
   some two rows with that key look different. `tied` alone is the first half.
   */
  lemma UndeterminedIffVisibleTie<V(!new)>(a: seq<Row<V>>, data: multiset<Row<V>>, cut: nat, width: nat,
                                           le: (Row<V>, Row<V>) -> bool)
    requires TotalOrder(le) && Arrangement(a, data, width, le) && cut <= |a|
    ensures Undetermined(a, data, cut, width, le) <==> TiedAt(a, cut, width) && TieIsVisible(a, cut, width)
  {
    if TiedAt(a, cut, width) && TieIsVisible(a, cut, width) {
      VisibleTieIsUndetermined(a, data, cut, width, le);
    } else {
      forall b | Arrangement(b, data, width, le) && cut <= |b|
        ensures !AnswersDifferently(b, a, data, cut, width, le)
      {
        if TiedAt(a, cut, width) {
          InvisibleTieIsDetermined(a, b, data, cut, width, le);
        } else {
          UntiedPrefixShowsSame(a, b, data, cut, width, le);
        }
      }
    }
  }

  /** With no ORDER BY every order is sorted, so the same criterion covers a bare LIMIT. */
  lemma BareLimitIsAlwaysTied<V>(q: Query, rows: seq<Row<V>>)
    requires q.Select? && !q.distinct && q.keyCount == 0 && CutPosition(q).Some?
    ensures LimitCutIsTied(q, Some(rows)) <==> CutPosition(q).value < |rows|
    ensures CutPosition(q).value < |rows| ==> TiedAt(rows, CutPosition(q).value, 0)
  {
  }

  /** What the code reports is the tie, which is necessary for an open answer. */
  lemma TiedVerdictIsTie<V>(q: Query, rows: seq<Row<V>>)
    requires q.Select? && Wide(rows, q.keyCount)
    ensures LimitCutIsTied(q, Some(rows))
        <==> !q.distinct && CutPosition(q).Some? && TiedAt(rows, CutPosition(q).value, q.keyCount)
  {
  }

  /** The cut is at limit plus offset, an absent offset counting as none skipped. */
  lemma VerdictAtLimitPlusOffset<V>(q: Query, n: nat, skipped: nat, rows: seq<Row<V>>)
    requires q.Select? && Wide(rows, q.keyCount) && q.limit == Some(Literal(n))
    requires (q.offset == None && skipped == 0) || q.offset == Some(Literal(skipped))
    ensures LimitCutIsTied(q, Some(rows)) <==> !q.distinct && TiedAt(rows, n + skipped, q.keyCount)
  {
  }

  /** Whatever cannot be read is not reported: no LIMIT, a computed count, no probe, no plain SELECT. */
  lemma UnreadableIsNotTied<V>(q: Query, probe: Option<seq<Row<V>>>)
    requires q.Select? && probe.Some? ==> Wide(probe.value, q.keyCount)
    requires q.NotASelect? || probe.None? || q.limit.None? || q.limit.value.NotLiteral?
          || (q.offset.Some? && q.offset.value.NotLiteral?)
    ensures !LimitCutIsTied(q, probe)
  {
  }

  /** A probe row is the query's own columns followed by the keys. */
  lemma ProbeRow<V>(shown: Row<V>, keys: Row<V>)
    ensures Key(shown + keys, |keys|) == keys && Visible(shown + keys, |keys|) == shown
  {
  }

  ghost predicate ConstantKeys<V>(rows: seq<Row<V>>, width: nat, key: Row<V>)
    requires Wide(rows, width)
  {
    forall i :: 0 <= i < |rows| ==> Key(rows[i], width) == key
  }

  /** An ORDER BY ordinal is copied into the probe as a constant, and then every cut that removes a row is reported. */
  lemma ConstantKeyIsAlwaysTied<V>(q: Query, rows: seq<Row<V>>, key: Row<V>)
    requires q.Select? && !q.distinct && CutPosition(q).Some? && Wide(rows, q.keyCount)
    requires ConstantKeys(rows, q.keyCount, key)
    ensures LimitCutIsTied(q, Some(rows)) <==> CutPosition(q).value < |rows|
  {
  }

  // ----- an order on integer rows, for the examples -----

  predicate LexLe(a: Row<int>, b: Row<int>) {
    if a == [] then true
    else if b == [] then false
    else a[0] < b[0] || (a[0] == b[0] && LexLe(a[1..], b[1..]))
  }

  function LexOrder(): (Row<int>, Row<int>) -> bool {
    (a, b) => LexLe(a, b)
  }

  lemma {:induction false} LexTotal(a: Row<int>, b: Row<int>)
    ensures LexLe(a, b) || LexLe(b, a)
    ensures LexLe(a, b) && LexLe(b, a) ==> a == b
  {
    if a != [] && b != [] {
      LexTotal(a[1..], b[1..]);
      assert a == [a[0]] + a[1..] && b == [b[0]] + b[1..];
    }
  }

  lemma {:induction false} LexTransitive(a: Row<int>, b: Row<int>, c: Row<int>)
    requires LexLe(a, b) && LexLe(b, c)
    ensures LexLe(a, c)
  {
    if a != [] && b != [] && c != [] && a[0] == b[0] == c[0] { LexTransitive(a[1..], b[1..], c[1..]); }
  }

  lemma LexIsTotal()
    ensures TotalOrder(LexOrder())
  {
    forall a: Row<int>, b: Row<int> { LexTotal(a, b); }
    forall a: Row<int>, b: Row<int>, c: Row<int> | LexLe(a, b) && LexLe(b, c) { LexTransitive(a, b, c); }
  }

  lemma EqualRowsArranged()
    ensures Arrangement([[7, 1], [7, 1]], multiset([[7, 1], [7, 1]]), 1, LexOrder())
    ensures TiedAt([[7, 1], [7, 1]], 1, 1) && !TieIsVisible([[7, 1], [7, 1]], 1, 1)
  {
    var rows := [[7, 1], [7, 1]];
    assert Key(rows[0], 1) == Key(rows[1], 1) == [1];
    assert LexOrder()([1], [1]);
  }

  /** It is not sufficient: two rows that show the same value tie, and the answer is unique. */
  lemma TieMayBeInvisible()
    ensures var q, rows := Select(false, Some(Literal(1)), None, 1), [[7, 1], [7, 1]];
            && LimitCutIsTied(q, Some(rows))
            && Arrangement(rows, multiset(rows), 1, LexOrder())
            && !Undetermined(rows, multiset(rows), 1, 1, LexOrder())
  {
    hide Undetermined, TieIsVisible, TiedAt, LexOrder, TotalOrder, Key, LimitCutIsTied, KeySorted;
    var q, rows := Select(false, Some(Literal(1)), None, 1), [[7, 1], [7, 1]];
    LexIsTotal();
    EqualRowsArranged();
    TiedVerdictIsTie(q, rows);
    UndeterminedIffVisibleTie(rows, multiset(rows), 1, 1, LexOrder());
  }
}
