/** Facts about sequences, sets and multisets that several components rest on. */
module Sequences {

  ghost predicate NoDuplicates<T>(s: seq<T>) {
    forall i, j :: 0 <= i < j < |s| ==> s[i] != s[j]
  }

  function Elements<T>(s: seq<T>): set<T> {
    set x | x in s
  }

  lemma {:induction false} DistinctCount<T>(s: seq<T>)
    requires NoDuplicates(s)
    ensures |Elements(s)| == |s|
  {
    if s == [] {
    } else {
      var front, last := s[..|s| - 1], s[|s| - 1];
      DistinctCount(front);
      assert s == front + [last];
      assert last !in Elements(front);
      assert Elements(s) == Elements(front) + {last} by {
        forall x ensures x in Elements(s) <==> x in Elements(front) + {last} {
          assert x in s <==> x in front || x == last;
        }
      }
    }
  }

  function Map<A, B>(f: A --> B, s: seq<A>): (r: seq<B>)
    requires forall x :: x in s ==> f.requires(x)
    ensures |r| == |s| && forall i :: 0 <= i < |s| ==> r[i] == f(s[i])
  {
    seq(|s|, i requires 0 <= i < |s| => f(s[i]))
  }

  lemma MapConcat<A, B>(f: A --> B, a: seq<A>, b: seq<A>)
    requires forall x :: x in a + b ==> f.requires(x)
    ensures Map(f, a + b) == Map(f, a) + Map(f, b)
  {
  }

  /** Taking the element at `j` out of a sequence takes one occurrence out of its multiset. */
  lemma RemoveAt<T>(s: seq<T>, j: nat)
    requires j < |s|
    ensures multiset(s) == multiset{s[j]} + multiset(Drop(s, j))
  {
    assert s == s[..j] + [s[j]] + s[j + 1..];
  }

  function Drop<T>(s: seq<T>, j: nat): (r: seq<T>)
    requires j < |s|
    ensures |r| == |s| - 1
  {
    s[..j] + s[j + 1..]
  }

  /** Wherever `b` holds the first element of `a`, taking it out of both leaves the same multiset. */
  lemma PairOff<T>(a: seq<T>, b: seq<T>) returns (j: nat)
    requires a != [] && multiset(a) == multiset(b)
    ensures j < |b| && b[j] == a[0] && multiset(Drop(a, 0)) == multiset(Drop(b, j))
  {
    SameMultisetSameMembers(a, b, a[0]);
    j :| 0 <= j < |b| && b[j] == a[0];
    RemoveAt(a, 0);
    RemoveAt(b, j);
    CancelOne(a[0], multiset(Drop(a, 0)), multiset(Drop(b, j)));
  }

  lemma CancelOne<T>(x: T, a: multiset<T>, b: multiset<T>)
    requires multiset{x} + a == multiset{x} + b
    ensures a == b
  {
    assert a == (multiset{x} + a) - multiset{x};
    assert b == (multiset{x} + b) - multiset{x};
  }

  lemma MapRemoveAt<A, B>(f: A --> B, s: seq<A>, j: nat)
    requires j < |s| && forall x :: x in s ==> f.requires(x)
    ensures multiset(Map(f, s)) == multiset{f(s[j])} + multiset(Map(f, Drop(s, j)))
  {
    RemoveAt(Map(f, s), j);
    assert Drop(Map(f, s), j) == Map(f, Drop(s, j));
  }

  /** Mapping sees a sequence only through its multiset. */
  lemma {:induction false} MapRespectsMultisets<A, B>(f: A --> B, a: seq<A>, b: seq<A>)
    requires multiset(a) == multiset(b)
    requires (forall x :: x in a ==> f.requires(x)) && (forall x :: x in b ==> f.requires(x))
    ensures multiset(Map(f, a)) == multiset(Map(f, b))
    decreases |a|
  {
    SameMultisetSameLength(a, b);
    if a == [] {
      assert a == b;
    } else {
      var j := PairOff(a, b);
      MapRespectsMultisets(f, Drop(a, 0), Drop(b, j));
      MapRemoveAt(f, b, j);
      MapRemoveAt(f, a, 0);
    }
  }

  lemma SameMultisetSameMembers<T>(a: seq<T>, b: seq<T>, x: T)
    requires multiset(a) == multiset(b)
    ensures x in a <==> x in b
  {
    assert x in a <==> x in multiset(a);
    assert x in b <==> x in multiset(b);
  }

  lemma SameMultisetSameLength<T>(a: seq<T>, b: seq<T>)
    requires multiset(a) == multiset(b)
    ensures |a| == |b|
  {
    assert |multiset(a)| == |a| && |multiset(b)| == |b|;
  }

  lemma ReplacedElement<T>(s: seq<T>, i: nat, x: T)
    requires i < |s| && x != s[i]
    ensures multiset(s[i := x]) != multiset(s)
  {
    assert multiset(s[i := x])[s[i]] == multiset(s)[s[i]] - 1;
  }

  function SumOf<T>(f: T -> nat, s: seq<T>): nat {
    if s == [] then 0 else f(s[0]) + SumOf(f, s[1..])
  }

  lemma {:induction false} SumDrop<T>(f: T -> nat, s: seq<T>, j: nat)
    requires j < |s|
    ensures SumOf(f, s) == f(s[j]) + SumOf(f, Drop(s, j))
  {
    if j == 0 {
      assert Drop(s, 0) == s[1..];
    } else {
      SumDrop(f, s[1..], j - 1);
      assert Drop(s, j) == [s[0]] + Drop(s[1..], j - 1);
    }
  }

  lemma {:induction false} SumRespectsMultisets<T>(f: T -> nat, a: seq<T>, b: seq<T>)
    requires multiset(a) == multiset(b)
    ensures SumOf(f, a) == SumOf(f, b)
    decreases |a|
  {
    SameMultisetSameLength(a, b);
    if a != [] {
      var j := PairOff(a, b);
      SumRespectsMultisets(f, Drop(a, 0), Drop(b, j));
      SumDrop(f, a, 0);
      SumDrop(f, b, j);
    }
  }

  lemma {:induction false} SumSnoc<T>(f: T -> nat, s: seq<T>, x: T)
    ensures SumOf(f, s + [x]) == SumOf(f, s) + f(x)
  {
    if s == [] {
      assert [x][1..] == [];
    } else {
      assert (s + [x])[1..] == s[1..] + [x];
      SumSnoc(f, s[1..], x);
    }
  }

  function RealSumOf<T>(f: T -> real, s: seq<T>): real {
    if s == [] then 0.0 else f(s[0]) + RealSumOf(f, s[1..])
  }

  lemma {:induction false} RealSumDrop<T>(f: T -> real, s: seq<T>, j: nat)
    requires j < |s|
    ensures RealSumOf(f, s) == f(s[j]) + RealSumOf(f, Drop(s, j))
  {
    if j == 0 {
      assert Drop(s, 0) == s[1..];
    } else {
      RealSumDrop(f, s[1..], j - 1);
      assert Drop(s, j) == [s[0]] + Drop(s[1..], j - 1);
    }
  }

  lemma {:induction false} RealSumRespectsMultisets<T>(f: T -> real, a: seq<T>, b: seq<T>)
    requires multiset(a) == multiset(b)
    ensures RealSumOf(f, a) == RealSumOf(f, b)
    decreases |a|
  {
    SameMultisetSameLength(a, b);
    if a != [] {
      var j := PairOff(a, b);
      RealSumRespectsMultisets(f, Drop(a, 0), Drop(b, j));
      RealSumDrop(f, a, 0);
      RealSumDrop(f, b, j);
    }
  }

  lemma {:induction false} RealSumSnoc<T>(f: T -> real, s: seq<T>, x: T)
    ensures RealSumOf(f, s + [x]) == RealSumOf(f, s) + f(x)
  {
    if s == [] {
      assert [x][1..] == [];
    } else {
      assert (s + [x])[1..] == s[1..] + [x];
      RealSumSnoc(f, s[1..], x);
    }
  }

  lemma TailOfConcat<T>(a: seq<T>, b: seq<T>)
    requires a != []
    ensures a + b != [] && (a + b)[0] == a[0] && (a + b)[1..] == a[1..] + b
  {
  }

  lemma ConcatAssociates<T>(a: seq<T>, b: seq<T>, c: seq<T>)
    ensures (a + b) + c == a + (b + c)
  {
  }
}
