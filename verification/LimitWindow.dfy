/**
 The rows between OFFSET and OFFSET + LIMIT of an ordered result, and when
 every correct engine must show the same ones.
 */
module LimitWindow {
  import opened Wrappers
  import opened Sequences
  import opened LimitTie

  /** The first row shown and the first row after it, for a result of `size` rows. */
  function From(skip: nat, size: nat): nat {
    if skip < size then skip else size
  }

  function Until(skip: nat, take: Option<nat>, size: nat): nat {
    if take.None? || size <= skip + take.value then size else skip + take.value
  }

  function Window<V>(rows: seq<Row<V>>, skip: nat, take: Option<nat>): seq<Row<V>> {
    rows[From(skip, |rows|)..Until(skip, take, |rows|)]
  }

  /** The operand `count` may evaluate to `n`. */
  predicate Reads(count: Count, n: nat) {
    count.Literal? ==> n == count.n
  }

  /** The engine skips `skip` rows and then shows at most `take`. */
  predicate Bounds(q: Query, skip: nat, take: Option<nat>) {
    && q.Select?
    && (if q.offset.None? then skip == 0 else Reads(q.offset.value, skip))
    && (if q.limit.None? then take.None? else take.Some? && Reads(q.limit.value, take.value))
  }

  /** The window is what remains after skipping, up to as many rows as are to be shown. */
  lemma WindowMeans<V>(rows: seq<Row<V>>, skip: nat, take: Option<nat>)
    ensures skip >= |rows| ==> Window(rows, skip, take) == []
    ensures skip < |rows| ==>
              Window(rows, skip, take) ==
              if take.None? || take.value >= |rows| - skip then rows[skip..] else rows[skip..][..take.value]
  {
  }

  /** With readable counts the check fires exactly when the far edge of the window ties. */
  lemma TieCheckIsFarEdge<V>(q: Query, n: nat, skip: nat, rows: seq<Row<V>>)
    requires q.Select? && Wide(rows, q.keyCount) && q.limit == Some(Literal(n))
    requires (q.offset == None && skip == 0) || q.offset == Some(Literal(skip))
    ensures Bounds(q, skip, Some(n))
    ensures LimitCutIsTied(q, Some(rows)) <==>
            !q.distinct && TiedAt(rows, Until(skip, Some(n), |rows|), q.keyCount)
  {
    VerdictAtLimitPlusOffset(q, n, skip, rows);
  }

  ghost predicate VisiblyTiedAt<V>(a: seq<Row<V>>, cut: nat, width: nat)
    requires Wide(a, width)
  {
    TiedAt(a, cut, width) && TieIsVisible(a, cut, width)
  }

  /** Some edge of a non-empty window cuts a tie a reader can see. */
  ghost predicate EdgeIsOpen<V>(a: seq<Row<V>>, skip: nat, take: Option<nat>, width: nat)
    requires Wide(a, width)
  {
    var lo, hi := From(skip, |a|), Until(skip, take, |a|);
    lo < hi && (VisiblyTiedAt(a, lo, width) || VisiblyTiedAt(a, hi, width))
  }

  lemma PrefixIsDetermined<V(!new)>(a: seq<Row<V>>, b: seq<Row<V>>, data: multiset<Row<V>>, cut: nat, width: nat,
                                    le: (Row<V>, Row<V>) -> bool)
    requires TotalOrder(le) && Arrangement(a, data, width, le) && Arrangement(b, data, width, le)
    requires cut <= |a| && !VisiblyTiedAt(a, cut, width)
    ensures |a| == |b| && multiset(Shown(a[..cut], width)) == multiset(Shown(b[..cut], width))
  {
    hide TieIsVisible;
    if TiedAt(a, cut, width) {
      InvisibleTieIsDetermined(a, b, data, cut, width, le);
    } else {
      UntiedPrefixShowsSame(a, b, data, cut, width, le);
    }
  }

  lemma CancelPrefix<T>(a: seq<T>, c: seq<T>, b: seq<T>, d: seq<T>)
    requires multiset(a) == multiset(b) && multiset(a + c) == multiset(b + d)
    ensures multiset(c) == multiset(d)
  {
    assert multiset(a + c) == multiset(a) + multiset(c) && multiset(b + d) == multiset(b) + multiset(d);
    assert multiset(c) == (multiset(a) + multiset(c)) - multiset(a);
    assert multiset(d) == (multiset(b) + multiset(d)) - multiset(b);
  }

  /** With no open edge, all correct engines show the same rows in the window. */
  lemma WindowIsDetermined<V(!new)>(a: seq<Row<V>>, b: seq<Row<V>>, data: multiset<Row<V>>, skip: nat,
                                    take: Option<nat>, width: nat, le: (Row<V>, Row<V>) -> bool)
    requires TotalOrder(le) && Arrangement(a, data, width, le) && Arrangement(b, data, width, le)
    requires !EdgeIsOpen(a, skip, take, width)
    ensures |a| == |b|
    ensures multiset(Shown(Window(a, skip, take), width)) == multiset(Shown(Window(b, skip, take), width))
  {
    hide TieIsVisible, TiedAt, KeySorted, TotalOrder;
    SameMultisetSameLength(a, b);
    var lo, hi := From(skip, |a|), Until(skip, take, |a|);
    if lo < hi {
      PrefixIsDetermined(a, b, data, lo, width, le);
      PrefixIsDetermined(a, b, data, hi, width, le);
      ShownSplits(a, lo, hi, width);
      ShownSplits(b, lo, hi, width);
      CancelPrefix(Shown(a[..lo], width), Shown(a[lo..hi], width), Shown(b[..lo], width), Shown(b[lo..hi], width));
    } else {
      assert Window(a, skip, take) == [] == Window(b, skip, take);
    }
  }

  /** A visible tie at either edge pairs a row inside the window with a different one outside. */
  lemma AcrossTheEdge<V>(a: seq<Row<V>>, lo: nat, hi: nat, edge: nat, width: nat) returns (i: nat, j: nat)
    requires Wide(a, width) && lo < hi <= |a| && (edge == lo || edge == hi) && VisiblyTiedAt(a, edge, width)
    ensures lo <= i < hi && j < |a| && !(lo <= j < hi)
    ensures Key(a[i], width) == Key(a[j], width) && Visible(a[i], width) != Visible(a[j], width)
  {
    var k := Key(a[edge], width);
    var x, y :| 0 <= x < |a| && 0 <= y < |a| && Key(a[x], width) == k == Key(a[y], width)
      && Visible(a[x], width) != Visible(a[y], width);
    i, j := if edge == lo then lo else hi - 1, if edge == lo then lo - 1 else hi;
    assert Key(a[i], width) == k == Key(a[j], width);
    if Visible(a[i], width) == Visible(a[j], width) {
      var z := if Visible(a[x], width) != Visible(a[i], width) then x else y;
      if lo <= z < hi { i := z; } else { j := z; }
    }
  }

  function Swap<T>(s: seq<T>, i: nat, j: nat): seq<T>
    requires i < |s| && j < |s|
  {
    s[i := s[j]][j := s[i]]
  }

  lemma ReplacedRowIsSeen<V>(was: seq<Row<V>>, now: seq<Row<V>>, i: nat, row: Row<V>, width: nat)
    requires Wide(was, width) && Wide(now, width) && width <= |row| && i < |was| && now == was[i := row]
    requires Visible(was[i], width) != Visible(row, width)
    ensures multiset(Shown(now, width)) != multiset(Shown(was, width))
  {
    hide Key, Visible;
    ShownUpdated(was, i, row, width);
    ReplacedElement(Shown(was, width), i, Visible(row, width));
  }

  lemma SwapSlice<T>(s: seq<T>, lo: nat, hi: nat, i: nat, j: nat)
    requires lo <= i < hi <= |s| && j < |s| && !(lo <= j < hi)
    ensures Swap(s, i, j)[lo..hi] == s[lo..hi][i - lo := s[j]]
  {
  }

  lemma SwapArranged<V(!new)>(a: seq<Row<V>>, data: multiset<Row<V>>, i: nat, j: nat, width: nat,
                              le: (Row<V>, Row<V>) -> bool)
    requires Arrangement(a, data, width, le) && i < |a| && j < |a| && i != j && Key(a[i], width) == Key(a[j], width)
    ensures Arrangement(Swap(a, i, j), data, width, le)
  {
    if i < j {
      SwapIsArrangement(a, data, i, j, width, le);
    } else {
      SwapIsArrangement(a, data, j, i, width, le);
      assert Swap(a, i, j) == a[j := a[i]][i := a[j]];
    }
  }

  /** With an open edge, another correct engine shows different rows. */
  lemma OpenWindowIsUndetermined<V(!new)>(a: seq<Row<V>>, data: multiset<Row<V>>, skip: nat, take: Option<nat>,
                                          width: nat, le: (Row<V>, Row<V>) -> bool)
    returns (b: seq<Row<V>>)
    requires Arrangement(a, data, width, le) && EdgeIsOpen(a, skip, take, width)
    ensures Arrangement(b, data, width, le) && |b| == |a|
    ensures multiset(Shown(Window(a, skip, take), width)) != multiset(Shown(Window(b, skip, take), width))
  {
    hide TiedAt, TieIsVisible, Key, Visible, TotalOrder;
    var lo, hi := From(skip, |a|), Until(skip, take, |a|);
    var i, j := AcrossTheEdge(a, lo, hi, if VisiblyTiedAt(a, lo, width) then lo else hi, width);
    b := Swap(a, i, j);
    SwapArranged(a, data, i, j, width, le);
    SwapSlice(a, lo, hi, i, j);
    ReplacedRowIsSeen(a[lo..hi], b[lo..hi], i - lo, a[j], width);
  }

  /** A LIMIT without OFFSET has only the far edge, which is the one the tie check looks at. */
  lemma NearEdgeNeedsOffset<V>(q: Query, a: seq<Row<V>>, skip: nat, take: Option<nat>)
    requires Bounds(q, skip, take) && !q.distinct && Wide(a, q.keyCount) && EdgeIsOpen(a, skip, take, q.keyCount)
    ensures q.limit.Some? || q.offset.Some?
    ensures q.offset.None? && q.limit == Some(Literal(take.value)) ==> LimitCutIsTied(q, Some(a))
  {
  }
}
