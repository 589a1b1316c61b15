/** Permutations of column positions: their algebra, and an exhaustive enumeration of them. */
module Permutations {
  import opened Sequences

  function Identity(n: nat): (r: seq<nat>)
    ensures |r| == n && forall i :: 0 <= i < n ==> r[i] == i
  {
    seq(n, i => i)
  }

  /** `p` lists every position below `n` exactly once. */
  ghost predicate IsPermutation(p: seq<nat>, n: nat) {
    multiset(p) == multiset(Identity(n))
  }

  lemma PermutationRange(p: seq<nat>, n: nat)
    requires IsPermutation(p, n)
    ensures |p| == n
    ensures forall x: nat :: x in p <==> x < n
  {
    SameMultisetSameLength(p, Identity(n));
    forall x: nat
      ensures x in p <==> x < n
    {
      SameMultisetSameMembers(p, Identity(n), x);
      if x < n { assert Identity(n)[x] == x; }
    }
  }

  /** `s` read in the order `p` gives. */
  function Rearrange<T>(s: seq<T>, p: seq<nat>): (r: seq<T>)
    requires forall x: nat :: x in p ==> x < |s|
    ensures |r| == |p| && forall i :: 0 <= i < |p| ==> p[i] in p && r[i] == s[p[i]]
  {
    Map((x: nat) requires x < |s| => s[x], p)
  }

  lemma RearrangeIdentity<T>(s: seq<T>)
    ensures Rearrange(s, Identity(|s|)) == s
  {
  }

  lemma RearrangeKeepsMultiset<T>(s: seq<T>, p: seq<nat>)
    requires IsPermutation(p, |s|)
    requires forall x: nat :: x in p ==> x < |s|
    ensures multiset(Rearrange(s, p)) == multiset(s)
  {
    MapRespectsMultisets((x: nat) requires x < |s| => s[x], p, Identity(|s|));
    RearrangeIdentity(s);
  }

  lemma RearrangeTwice<T>(s: seq<T>, p: seq<nat>, q: seq<nat>)
    requires IsPermutation(p, |s|) && IsPermutation(q, |s|)
    ensures (forall x: nat :: x in p ==> x < |s|) && (forall x: nat :: x in q ==> x < |p|)
    ensures IsPermutation(Rearrange(p, q), |s|)
    ensures forall x: nat :: x in Rearrange(p, q) ==> x < |s|
    ensures |p| == |q| == |s|
    ensures Rearrange(Rearrange(s, p), q) == Rearrange(s, Rearrange(p, q))
  {
    PermutationRange(p, |s|);
    PermutationRange(q, |s|);
    RearrangeKeepsMultiset(p, q);
    PermutationRange(Rearrange(p, q), |s|);
    var r := Rearrange(p, q);
    assert forall i :: 0 <= i < |s| ==> Rearrange(Rearrange(s, p), q)[i] == Rearrange(s, r)[i];
  }

  // ----- inverses -----

  lemma {:induction false} OccursOnce<T>(s: seq<T>, x: T)
    requires NoDuplicates(s)
    ensures multiset(s)[x] == if x in s then 1 else 0
  {
    if s == [] {
    } else {
      var front, last := s[..|s| - 1], s[|s| - 1];
      assert s == front + [last];
      OccursOnce(front, x);
    }
  }

  lemma OnceMeansDistinct<T>(s: seq<T>)
    requires forall x :: multiset(s)[x] <= 1
    ensures NoDuplicates(s)
  {
    forall i, j | 0 <= i < j < |s|
      ensures s[i] != s[j]
    {
      assert s == s[..j] + s[j..];
      assert s[i] in multiset(s[..j]) && s[j] in multiset(s[j..]);
      assert multiset(s)[s[j]] == multiset(s[..j])[s[j]] + multiset(s[j..])[s[j]];
    }
  }

  lemma IdentityOnce(n: nat, x: nat)
    ensures multiset(Identity(n))[x] == if x < n then 1 else 0
  {
    OccursOnce(Identity(n), x);
    if x < n { assert Identity(n)[x] == x; }
  }

  lemma PermutationDistinct(p: seq<nat>, n: nat)
    requires IsPermutation(p, n)
    ensures NoDuplicates(p)
  {
    forall x: nat ensures multiset(p)[x] <= 1 {
      IdentityOnce(n, x);
    }
    OnceMeansDistinct(p);
  }

  lemma DistinctCoverIsPermutation(q: seq<nat>, n: nat)
    requires NoDuplicates(q) && forall x: nat :: x in q <==> x < n
    ensures IsPermutation(q, n)
  {
    forall x: nat
      ensures multiset(q)[x] == multiset(Identity(n))[x]
    {
      OccursOnce(q, x);
      IdentityOnce(n, x);
    }
  }

  lemma Inverse(p: seq<nat>, n: nat) returns (q: seq<nat>)
    requires IsPermutation(p, n)
    ensures IsPermutation(q, n) && |p| == |q| == n
    ensures forall j :: 0 <= j < n ==> q[j] < n && p[q[j]] == j
  {
    PermutationRange(p, n);
    PermutationDistinct(p, n);
    q := Positions(p, n);
    forall x: nat
      ensures x in q <==> x < n
    {
      if x < n {
        assert p[x] in p;
        assert p[q[p[x]]] == p[x];
        assert q[p[x]] == x;
      }
    }
    DistinctCoverIsPermutation(q, n);
  }

  lemma {:induction false} Positions(p: seq<nat>, n: nat) returns (q: seq<nat>)
    requires forall x: nat :: x < n ==> x in p
    ensures |q| == n && NoDuplicates(q)
    ensures forall j :: 0 <= j < n ==> q[j] < |p| && p[q[j]] == j
  {
    if n == 0 {
      q := [];
    } else {
      q := Positions(p, n - 1);
      var last: nat := n - 1;
      assert last in p;
      var k :| 0 <= k < |p| && p[k] == last;
      q := q + [k];
    }
  }

  /** Undoing a rearrangement. */
  lemma RearrangeInverse<T>(s: seq<T>, p: seq<nat>, q: seq<nat>)
    requires |p| == |q| == |s|
    requires forall j :: 0 <= j < |s| ==> q[j] < |s| && p[q[j]] == j
    requires (forall x: nat :: x in p ==> x < |s|) && (forall x: nat :: x in q ==> x < |p|)
    ensures Rearrange(Rearrange(s, p), q) == s
  {
  }

  /** Sequences with the same multiset differ by a rearrangement. */
  lemma Alignment<T>(a: seq<T>, b: seq<T>) returns (p: seq<nat>)
    requires multiset(a) == multiset(b)
    ensures IsPermutation(p, |a|) && |p| == |a| == |b|
    ensures (forall x: nat :: x in p ==> x < |a|) && Rearrange(a, p) == b
  {
    p := Matching(a, b);
    DistinctCoverIsPermutation(p, |a|);
  }

  function Skipping(j: nat, x: nat): nat {
    if x < j then x else x + 1
  }

  /** `j`, then every entry of `rest` renumbered around it. */
  function Renumber(j: nat, rest: seq<nat>): (p: seq<nat>)
    ensures |p| == |rest| + 1 && p[0] == j
    ensures forall i :: 0 < i < |p| ==> p[i] == Skipping(j, rest[i - 1])
  {
    [j] + Map((x: nat) => Skipping(j, x), rest)
  }

  lemma RenumberDistinct(j: nat, rest: seq<nat>)
    requires NoDuplicates(rest)
    ensures NoDuplicates(Renumber(j, rest))
  {
    var p := Renumber(j, rest);
    forall i, k | 0 <= i < k < |p|
      ensures p[i] != p[k]
    {
      if i > 0 { assert rest[i - 1] != rest[k - 1]; }
    }
  }

  /** Renumbering turns a cover of the positions but one into a cover of them all. */
  lemma RenumberCovers(j: nat, rest: seq<nat>, n: nat, x: nat)
    requires j <= n && forall y: nat :: y in rest <==> y < n
    ensures x in Renumber(j, rest) <==> x <= n
  {
    var p := Renumber(j, rest);
    if x in p {
      var k :| 0 <= k < |p| && p[k] == x;
      if k > 0 { assert rest[k - 1] in rest; }
    }
    if x == j {
      assert p[0] == j;
    } else if x <= n {
      var y: nat := if x < j then x else x - 1;
      assert y in rest;
      var k :| 0 <= k < |rest| && rest[k] == y;
      assert p[k + 1] == x;
    }
  }

  /** For each element of `b` in turn, a position of `a` not used before that holds it. */
  lemma {:induction false} Matching<T>(a: seq<T>, b: seq<T>) returns (p: seq<nat>)
    requires multiset(a) == multiset(b)
    ensures |p| == |a| == |b| && NoDuplicates(p)
    ensures forall x: nat :: x in p <==> x < |a|
    ensures forall i :: 0 <= i < |b| ==> p[i] < |a| && a[p[i]] == b[i]
    decreases |a|
  {
    SameMultisetSameLength(a, b);
    if b == [] {
      p := [];
    } else {
      var j := PairOff(b, a);
      var rest := Matching(Drop(a, j), Drop(b, 0));
      p := Renumber(j, rest);
      RenumberDistinct(j, rest);
      forall x: nat ensures x in p <==> x < |a| {
        RenumberCovers(j, rest, |a| - 1, x);
      }
      forall i | 0 <= i < |b|
        ensures p[i] < |a| && a[p[i]] == b[i]
      {
        if i > 0 { assert Drop(a, j)[rest[i - 1]] == b[i]; }
      }
    }
  }

  // ----- the enumeration -----

  /** Every ordering of `items`, in the order that picks each item in turn as the first. */
  function Orderings(items: seq<nat>): seq<seq<nat>>
    decreases |items|, |items| + 1
  {
    if items == [] then [[]] else StartingFrom(items, 0)
  }

  function StartingFrom(items: seq<nat>, i: nat): seq<seq<nat>>
    requires i <= |items|
    decreases |items|, |items| - i
  {
    if i == |items| then []
    else PrependAll(items[i], Orderings(Drop(items, i))) + StartingFrom(items, i + 1)
  }

  function PrependAll(x: nat, ps: seq<seq<nat>>): seq<seq<nat>> {
    if ps == [] then [] else [[x] + ps[0]] + PrependAll(x, ps[1..])
  }

  lemma {:induction false} PrependAllHas(x: nat, ps: seq<seq<nat>>, p: seq<nat>)
    ensures p in PrependAll(x, ps) <==> p != [] && p[0] == x && p[1..] in ps
  {
    if ps == [] {
    } else {
      PrependAllHas(x, ps[1..], p);
      assert p == [x] + ps[0] <==> p != [] && p[0] == x && p[1..] == ps[0];
    }
  }

  ghost predicate StartsWithItem(items: seq<nat>, k: nat, p: seq<nat>) {
    k < |items| && p != [] && p[0] == items[k] && p[1..] in Orderings(Drop(items, k))
  }

  lemma {:induction false} StartingFromHas(items: seq<nat>, i: nat, p: seq<nat>)
    requires i <= |items|
    ensures p in StartingFrom(items, i) <==> exists k: nat :: i <= k && StartsWithItem(items, k, p)
    decreases |items| - i
  {
    if i < |items| {
      StartingFromHas(items, i + 1, p);
      PrependAllHas(items[i], Orderings(Drop(items, i)), p);
      assert p in PrependAll(items[i], Orderings(Drop(items, i))) <==> StartsWithItem(items, i, p);
      assert (exists k: nat :: i <= k && StartsWithItem(items, k, p)) <==>
             StartsWithItem(items, i, p) || exists k: nat :: i + 1 <= k && StartsWithItem(items, k, p);
    } else {
      assert forall k: nat :: i <= k ==> !StartsWithItem(items, k, p);
    }
  }

  lemma {:induction false} OrderingsAreSound(items: seq<nat>, p: seq<nat>)
    requires p in Orderings(items)
    ensures multiset(p) == multiset(items)
    decreases |items|
  {
    if items != [] {
      StartingFromHas(items, 0, p);
      var k: nat :| StartsWithItem(items, k, p);
      OrderingsAreSound(Drop(items, k), p[1..]);
      assert p == [p[0]] + p[1..];
      RemoveAt(items, k);
    }
  }

  lemma {:induction false} OrderingsAreComplete(items: seq<nat>, p: seq<nat>)
    requires multiset(p) == multiset(items)
    ensures p in Orderings(items)
    decreases |items|
  {
    SameMultisetSameLength(p, items);
    if items != [] {
      var k := PairOff(p, items);
      assert Drop(p, 0) == p[1..];
      OrderingsAreComplete(Drop(items, k), p[1..]);
      assert StartsWithItem(items, k, p);
      StartingFromHas(items, 0, p);
    }
  }

  /** The enumeration is sound and complete. */
  lemma OrderingsAreAll(items: seq<nat>, p: seq<nat>)
    ensures p in Orderings(items) <==> multiset(p) == multiset(items)
  {
    if p in Orderings(items) { OrderingsAreSound(items, p); }
    if multiset(p) == multiset(items) { OrderingsAreComplete(items, p); }
  }
}
