/**
 The pool of MCP server trees: at most `maxLive` clients, keyed by dataset,
 least recently used evicted before a newcomer starts, launches counted.
 */
module LruPool {
  import opened Sequences
  import opened Wrappers

  type Dataset = string

  // ----- what one access does to the ordered dictionary -----

  function Without(s: seq<Dataset>, d: Dataset): seq<Dataset> {
    if s == [] then []
    else if s[0] == d then Without(s[1..], d)
    else [s[0]] + Without(s[1..], d)
  }

  /** The `n` most recently inserted entries. */
  function Newest(s: seq<Dataset>, n: nat): seq<Dataset> {
    if |s| <= n then s else s[|s| - n..]
  }

  function Touch(live: seq<Dataset>, d: Dataset, maxLive: nat): seq<Dataset>
    requires maxLive >= 1
  {
    Newest(Without(live, d), maxLive - 1) + [d]
  }

  /** The keys of the pool after a sequence of accesses, least recent first. */
  function Live(accesses: seq<Dataset>, maxLive: nat): seq<Dataset>
    requires maxLive >= 1
  {
    if accesses == [] then []
    else Touch(Live(accesses[..|accesses| - 1], maxLive), accesses[|accesses| - 1], maxLive)
  }

  /** How many servers a pool launches over a sequence of accesses. */
  function Starts(accesses: seq<Dataset>, maxLive: nat): nat
    requires maxLive >= 1
  {
    if accesses == [] then 0
    else
      var before := accesses[..|accesses| - 1];
      Starts(before, maxLive) + if accesses[|accesses| - 1] in Live(before, maxLive) then 0 else 1
  }

  // ----- reference notions, which know nothing about pools -----

  /** The index of the last access to `d`, or -1. */
  function LastUse(accesses: seq<Dataset>, d: Dataset): (i: int)
    ensures -1 <= i < |accesses|
    ensures i >= 0 ==> accesses[i] == d
    ensures forall k :: i < k < |accesses| ==> accesses[k] != d
  {
    if accesses == [] then -1
    else if accesses[|accesses| - 1] == d then |accesses| - 1
    else LastUse(accesses[..|accesses| - 1], d)
  }

  /** The distinct datasets used after the last use of `d`. */
  function UsedSince(accesses: seq<Dataset>, d: Dataset): set<Dataset> {
    Elements(accesses[LastUse(accesses, d) + 1..])
  }

  /** An access that no pool of this size could have served without a launch. */
  predicate IsMiss(before: seq<Dataset>, d: Dataset, maxLive: nat) {
    d !in before || |UsedSince(before, d)| >= maxLive
  }

  function Misses(accesses: seq<Dataset>, maxLive: nat): nat {
    if accesses == [] then 0
    else
      var before := accesses[..|accesses| - 1];
      Misses(before, maxLive) + if IsMiss(before, accesses[|accesses| - 1], maxLive) then 1 else 0
  }

  /** Every dataset's accesses are contiguous. */
  ghost predicate Grouped(accesses: seq<Dataset>) {
    forall i, j, k :: 0 <= i < j < k < |accesses| && accesses[i] == accesses[k] ==> accesses[j] == accesses[i]
  }

  /** All datasets ever used, ordered by last use. */
  ghost function Recency(accesses: seq<Dataset>): seq<Dataset> {
    if accesses == [] then []
    else Without(Recency(accesses[..|accesses| - 1]), accesses[|accesses| - 1]) + [accesses[|accesses| - 1]]
  }

  // ----- lemmas -----

  lemma {:induction false} WithoutMembers(s: seq<Dataset>, d: Dataset)
    ensures forall x :: x in Without(s, d) <==> x in s && x != d
    ensures d !in s ==> Without(s, d) == s
  {
    if s == [] {
    } else {
      WithoutMembers(s[1..], d);
    }
  }

  /** Removing the one occurrence of `d` closes the gap it leaves. */
  lemma {:induction false} WithoutSplit(s: seq<Dataset>, d: Dataset) returns (a: seq<Dataset>, b: seq<Dataset>)
    requires NoDuplicates(s) && d in s
    ensures s == a + [d] + b && Without(s, d) == a + b
    ensures d !in a && d !in b
  {
    if s[0] == d {
      a, b := [], s[1..];
      assert forall k :: 0 <= k < |b| ==> b[k] == s[k + 1];
      WithoutMembers(b, d);
    } else {
      var a', b' := WithoutSplit(s[1..], d);
      a, b := [s[0]] + a', b';
      assert s == [s[0]] + s[1..];
      assert Without(s, d) == [s[0]] + (a' + b');
      assert [s[0]] + (a' + b') == a + b;
    }
  }

  lemma WithoutNoDuplicates(s: seq<Dataset>, d: Dataset)
    requires NoDuplicates(s)
    ensures NoDuplicates(Without(s, d))
  {
    WithoutMembers(s, d);
    if d in s {
      var a, b := WithoutSplit(s, d);
      var r := Without(s, d);
      forall i, j | 0 <= i < j < |r|
        ensures r[i] != r[j]
      {
        assert r[i] == s[if i < |a| then i else i + 1];
        assert r[j] == s[if j < |a| then j else j + 1];
      }
    }
  }

  ghost predicate InUseOrder(accesses: seq<Dataset>, r: seq<Dataset>) {
    forall i, j :: 0 <= i < j < |r| ==> LastUse(accesses, r[i]) < LastUse(accesses, r[j])
  }

  lemma WithoutInUseOrder(accesses: seq<Dataset>, r: seq<Dataset>, d: Dataset)
    requires NoDuplicates(r) && InUseOrder(accesses, r)
    ensures InUseOrder(accesses, Without(r, d))
  {
    WithoutMembers(r, d);
    if d in r {
      var a, b := WithoutSplit(r, d);
      var w := Without(r, d);
      forall i, j | 0 <= i < j < |w|
        ensures LastUse(accesses, w[i]) < LastUse(accesses, w[j])
      {
        assert w[i] == r[if i < |a| then i else i + 1];
        assert w[j] == r[if j < |a| then j else j + 1];
      }
    }
  }

  /** Recency is exactly "distinct datasets in order of last use". */
  lemma {:induction false} RecencyIsLastUseOrder(accesses: seq<Dataset>)
    ensures var r := Recency(accesses);
            && NoDuplicates(r)
            && (forall d :: d in r <==> d in accesses)
            && InUseOrder(accesses, r)
  {
    if accesses == [] {
    } else {
      var before, d := accesses[..|accesses| - 1], accesses[|accesses| - 1];
      RecencyIsLastUseOrder(before);
      var kept := Without(Recency(before), d);
      WithoutMembers(Recency(before), d);
      WithoutNoDuplicates(Recency(before), d);
      WithoutInUseOrder(before, Recency(before), d);
      var r := kept + [d];
      assert Recency(accesses) == r;
      assert accesses == before + [d];
      forall x ensures x in r <==> x in accesses {
        assert x in accesses <==> x in before || x == d;
      }
      forall i, j | 0 <= i < j < |r|
        ensures r[i] != r[j] && LastUse(accesses, r[i]) < LastUse(accesses, r[j])
      {
        assert r[i] == kept[i] && kept[i] in kept;
        if j < |kept| {
          assert r[j] == kept[j] && kept[j] in kept;
        }
      }
    }
  }

  lemma SliceNoDuplicates(s: seq<Dataset>, cut: nat)
    requires NoDuplicates(s) && cut <= |s|
    ensures NoDuplicates(s[cut..])
  {
  }

  lemma SlicesDisjoint(s: seq<Dataset>, cut: nat, x: Dataset)
    requires NoDuplicates(s) && cut <= |s| && x in s[cut..]
    ensures x !in s[..cut]
  {
    forall i, j | 0 <= i < cut && 0 <= j < |s| - cut
      ensures s[..cut][i] != s[cut..][j]
    {
      assert s[i] != s[cut + j];
    }
  }

  lemma NewestOfWithout(s: seq<Dataset>, d: Dataset, m: nat)
    requires NoDuplicates(s) && m >= 1
    ensures Newest(Without(Newest(s, m), d), m - 1) == Newest(Without(s, d), m - 1)
  {
    if |s| > m {
      var head, tail := s[..|s| - m], s[|s| - m..];
      assert s == head + tail;
      SliceNoDuplicates(s, |s| - m);
      WithoutAppend(head, tail, d);
      if d in tail { SlicesDisjoint(s, |s| - m, d); }
      WithoutMembers(head, d);
      WithoutMembers(tail, d);
      if d in tail {
        var a, b := WithoutSplit(tail, d);
        NewestOfAppend(head, a + b, m - 1);
      } else {
        NewestOfAppend(Without(head, d), tail, m - 1);
        NewestOfAppend([], tail, m - 1);
      }
    }
  }

  lemma NewestOfAppend(a: seq<Dataset>, b: seq<Dataset>, n: nat)
    requires |b| >= n
    ensures Newest(a + b, n) == b[|b| - n..]
  {
  }

  lemma {:induction false} WithoutAppend(s: seq<Dataset>, t: seq<Dataset>, d: Dataset)
    ensures Without(s + t, d) == Without(s, d) + Without(t, d)
  {
    if s == [] {
      assert s + t == t;
    } else {
      assert (s + t)[1..] == s[1..] + t;
      WithoutAppend(s[1..], t, d);
    }
  }

  lemma RecencyDistinct(accesses: seq<Dataset>)
    ensures NoDuplicates(Recency(accesses))
  {
    RecencyIsLastUseOrder(accesses);
  }

  lemma NewestSnoc(s: seq<Dataset>, d: Dataset, m: nat)
    requires m >= 1
    ensures Newest(s + [d], m) == Newest(s, m - 1) + [d]
  {
  }

  /** The pool holds the `maxLive` most recently used distinct datasets, in recency order. */
  lemma {:induction false} LiveIsNewestOfRecency(accesses: seq<Dataset>, maxLive: nat)
    requires maxLive >= 1
    ensures Live(accesses, maxLive) == Newest(Recency(accesses), maxLive)
  {
    if accesses == [] {
    } else {
      var before, d := accesses[..|accesses| - 1], accesses[|accesses| - 1];
      LiveIsNewestOfRecency(before, maxLive);
      RecencyDistinct(before);
      NewestOfWithout(Recency(before), d, maxLive);
      NewestSnoc(Without(Recency(before), d), d, maxLive);
    }
  }

  lemma UsedSinceIsLaterInRecency(accesses: seq<Dataset>, i: nat)
    requires i < |Recency(accesses)|
    ensures |UsedSince(accesses, Recency(accesses)[i])| == |Recency(accesses)| - i - 1
  {
    var r := Recency(accesses);
    RecencyIsLastUseOrder(accesses);
    assert Elements(r[i + 1..]) == UsedSince(accesses, r[i]) by {
      forall x
        ensures x in r[i + 1..] <==> x in UsedSince(accesses, r[i])
      {
        UsedSinceIff(accesses, r[i], x);
        LaterIffUsedLater(accesses, r, i, x);
      }
    }
    SuffixCount(r, i + 1);
  }

  lemma SuffixCount(r: seq<Dataset>, cut: nat)
    requires NoDuplicates(r) && cut <= |r|
    ensures |Elements(r[cut..])| == |r| - cut
  {
    SliceNoDuplicates(r, cut);
    DistinctCount(r[cut..]);
  }

  lemma LaterIffUsedLater(accesses: seq<Dataset>, r: seq<Dataset>, i: nat, x: Dataset)
    requires InUseOrder(accesses, r) && i < |r|
    requires x in r <==> x in accesses
    ensures x in r[i + 1..] <==> LastUse(accesses, x) > LastUse(accesses, r[i])
  {
    if x in r {
      var j :| 0 <= j < |r| && r[j] == x;
      if j > i {
        assert r[i + 1..][j - i - 1] == x;
      } else {
        assert LastUse(accesses, x) <= LastUse(accesses, r[i]);
      }
    }
  }

  lemma UsedSinceIff(accesses: seq<Dataset>, d: Dataset, x: Dataset)
    ensures x in UsedSince(accesses, d) <==> LastUse(accesses, x) > LastUse(accesses, d)
  {
    var cut := LastUse(accesses, d) + 1;
    var after := accesses[cut..];
    if LastUse(accesses, x) >= cut {
      assert after[LastUse(accesses, x) - cut] == x;
    }
    if x in after {
      var k :| 0 <= k < |after| && after[k] == x;
      assert accesses[cut + k] == x;
    }
  }

  /** A dataset is live exactly when fewer than `maxLive` others were used since its last use. */
  lemma LiveIffRecentlyUsed(accesses: seq<Dataset>, maxLive: nat, d: Dataset)
    requires maxLive >= 1
    ensures d in Live(accesses, maxLive) <==> !IsMiss(accesses, d, maxLive)
  {
    var r := Recency(accesses);
    LiveIsNewestOfRecency(accesses, maxLive);
    RecencyIsLastUseOrder(accesses);
    if d in accesses {
      var i :| 0 <= i < |r| && r[i] == d;
      UsedSinceIsLaterInRecency(accesses, i);
      if |r| - i - 1 < maxLive && |r| > maxLive {
        assert r[|r| - maxLive..][i - (|r| - maxLive)] == d;
      }
    }
  }

  /** Launches are counted by reuse distance, a property of the accesses alone. */
  lemma {:induction false} StartsAreMisses(accesses: seq<Dataset>, maxLive: nat)
    requires maxLive >= 1
    ensures Starts(accesses, maxLive) == Misses(accesses, maxLive)
  {
    if accesses == [] {
    } else {
      var before := accesses[..|accesses| - 1];
      StartsAreMisses(before, maxLive);
      LiveIffRecentlyUsed(before, maxLive, accesses[|accesses| - 1]);
    }
  }

  lemma {:induction false} MissesShrinkWithSize(accesses: seq<Dataset>, small: nat, large: nat)
    requires small <= large
    ensures Misses(accesses, large) <= Misses(accesses, small)
  {
    if accesses == [] {
    } else {
      MissesShrinkWithSize(accesses[..|accesses| - 1], small, large);
    }
  }

  /** The stack property: raising the bound never costs a launch. */
  lemma BiggerPoolNeverStartsMore(accesses: seq<Dataset>, small: nat, large: nat)
    requires 1 <= small <= large
    ensures Starts(accesses, large) <= Starts(accesses, small)
  {
    StartsAreMisses(accesses, small);
    StartsAreMisses(accesses, large);
    MissesShrinkWithSize(accesses, small, large);
  }

  /** Why: whatever the smaller pool holds is the recent end of what the larger one holds. */
  lemma SmallerPoolIsSuffix(accesses: seq<Dataset>, small: nat, large: nat)
    requires 1 <= small <= large
    ensures var s, l := Live(accesses, small), Live(accesses, large);
            |s| <= |l| && s == l[|l| - |s|..]
  {
    hide Live, Recency, Newest;
    LiveIsNewestOfRecency(accesses, small);
    LiveIsNewestOfRecency(accesses, large);
    NewestNest(Recency(accesses), small, large);
  }

  lemma NewestNest(r: seq<Dataset>, small: nat, large: nat)
    requires small <= large
    ensures var s, l := Newest(r, small), Newest(r, large);
            |s| <= |l| && s == l[|l| - |s|..]
  {
  }

  lemma {:induction false} LiveWithinHistory(accesses: seq<Dataset>, maxLive: nat)
    requires maxLive >= 1
    ensures forall d :: d in Live(accesses, maxLive) ==> d in accesses
  {
    LiveIsNewestOfRecency(accesses, maxLive);
    RecencyIsLastUseOrder(accesses);
  }

  /** Every dataset costs at least one launch; a pool that fits them all pays exactly one each. */
  lemma {:induction false} StartsAtLeastDistinct(accesses: seq<Dataset>, maxLive: nat)
    requires maxLive >= 1
    ensures Starts(accesses, maxLive) >= |Elements(accesses)|
    ensures maxLive >= |Elements(accesses)| ==> Starts(accesses, maxLive) == |Elements(accesses)|
  {
    if accesses == [] {
    } else {
      var before, d := accesses[..|accesses| - 1], accesses[|accesses| - 1];
      StartsAtLeastDistinct(before, maxLive);
      LiveWithinHistory(before, maxLive);
      assert Elements(accesses) == Elements(before) + {d};
      if d in before && maxLive >= |Elements(accesses)| {
        assert Elements(accesses) == Elements(before);
        LiveIffRecentlyUsed(before, maxLive, d);
        assert UsedSince(before, d) <= Elements(before) - {d};
        SubsetCard(UsedSince(before, d), Elements(before) - {d});
      }
    }
  }

  lemma {:induction false} SubsetCard(a: set<Dataset>, b: set<Dataset>)
    requires a <= b
    ensures |a| <= |b|
  {
    if a == {} {
    } else {
      var x :| x in a;
      SubsetCard(a - {x}, b - {x});
    }
  }

  lemma ElementsStep(before: seq<Dataset>, d: Dataset)
    ensures |Elements(before + [d])| == |Elements(before)| + if d in before then 0 else 1
  {
    assert Elements(before + [d]) == Elements(before) + {d};
  }

  /** Appending one access keeps a grouped sequence grouped unless it returns to an earlier group. */
  lemma GroupedStep(before: seq<Dataset>, d: Dataset)
    ensures Grouped(before + [d]) <==>
            Grouped(before) && (d !in before || d == before[|before| - 1])
  {
    var n := |before|;
    var all := before + [d];
    if Grouped(all) {
      forall i, j, k | 0 <= i < j < k < n && before[i] == before[k]
        ensures before[j] == before[i]
      {
        assert all[i] == all[k] && all[j] == before[j];
      }
      if d in before {
        var i :| 0 <= i < n && before[i] == d;
        if i < n - 1 {
          assert all[i] == all[n];
          assert all[n - 1] == all[i];
        }
      }
    }
    if Grouped(before) && (d !in before || d == before[n - 1]) {
      forall i, j, k | 0 <= i < j < k < n + 1 && all[i] == all[k]
        ensures all[j] == all[i]
      {
        assert all[i] == before[i] && all[j] == before[j];
        if k == n {
          assert before[i] == before[n - 1];
        } else {
          assert all[k] == before[k];
        }
      }
    }
  }

  /** A pool of one launches each server once exactly when the accesses are grouped. */
  lemma {:induction false} OneLiveIsEnoughIffGrouped(accesses: seq<Dataset>)
    ensures Starts(accesses, 1) == |Elements(accesses)| <==> Grouped(accesses)
  {
    if accesses == [] {
    } else {
      var n := |accesses| - 1;
      var before, d := accesses[..n], accesses[n];
      OneLiveIsEnoughIffGrouped(before);
      StartsAtLeastDistinct(before, 1);
      assert accesses == before + [d];
      GroupedStep(before, d);
      ElementsStep(before, d);
      if n > 0 {
        assert Live(before, 1) == [before[n - 1]];
      }
    }
  }

  // ----- the pool itself -----

  /** One dataset's server tree. `running` is whether its serving thread exists. */
  class McpClient {
    const dataset: Dataset
    var running: bool

    constructor (dataset: Dataset)
      ensures this.dataset == dataset && !running
    {
      this.dataset := dataset;
      running := false;
    }

    method Start()
      modifies this
      ensures running
    {
      running := true;
    }

    method Close()
      modifies this
      ensures !running
    {
      running := false;
    }
  }

  class McpClientPool {
    const maxLive: nat
    var order: seq<Dataset>
    var clients: map<Dataset, McpClient>
    var starts: nat
    /** Every dataset acquired so far. */
    ghost var accesses: seq<Dataset>
    /** The most server trees this pool has ever had running at one moment. */
    ghost var peak: nat
    /** Every client this pool has built, evicted ones included. */
    ghost var built: set<McpClient>

    /** The dictionary and its order agree, and every pooled server is running. */
    ghost predicate Pooled()
      reads this, built
    {
      && (forall d :: d in clients <==> d in order)
      && (forall d :: d in clients ==> clients[d] in built && clients[d].dataset == d && clients[d].running)
    }

    /** No server runs outside the pool, except those in `extra`. */
    ghost predicate RunningOnly(extra: set<McpClient>)
      reads this, built
    {
      forall c :: c in built && c.running ==> c in extra || (c.dataset in clients && clients[c.dataset] == c)
    }

    ghost predicate Valid()
      reads this, built
    {
      && maxLive >= 1
      && Pooled()
      && RunningOnly({})
      && order == Live(accesses, maxLive)
      && starts == Starts(accesses, maxLive)
      && |order| <= maxLive
      && peak <= maxLive
    }

    constructor (maxLive: nat)
      requires maxLive >= 1
      ensures Valid() && accesses == [] && this.maxLive == maxLive && built == {}
    {
      this.maxLive := maxLive;
      order, clients, starts := [], map[], 0;
      accesses, peak, built := [], 0, {};
    }

    /** A pool must keep at least one client live. */
    static method Create(maxLive: int) returns (r: Result<McpClientPool, string>)
      ensures r.Ok? <==> maxLive >= 1
      ensures r.Ok? ==> fresh(r.value) && r.value.Valid() && r.value.maxLive == maxLive && r.value.accesses == []
    {
      if maxLive < 1 { return Err("a pool must keep at least one client live"); }
      var pool := new McpClientPool(maxLive);
      return Ok(pool);
    }

    method Acquire(dataset: Dataset) returns (client: McpClient)
      requires Valid()
      modifies this, built
      ensures Valid() && accesses == old(accesses) + [dataset] && fresh(built - old(built))
      ensures dataset in clients && client == clients[dataset] && client.running
      ensures dataset in old(clients) ==> client == old(clients)[dataset]
      ensures forall d :: d in clients && d != dataset ==> d in old(clients) && clients[d] == old(clients)[d]
    {
      LiveIsDistinct(accesses, maxLive, dataset);
      client := Admit(dataset);
      AccessStep(accesses, dataset, maxLive);
      accesses := accesses + [dataset];
    }

    /** The body of `acquire`: pop, evict down to the bound, start if needed, insert. */
    method Admit(dataset: Dataset) returns (client: McpClient)
      requires Pooled() && RunningOnly({}) && maxLive >= 1 && peak <= maxLive
      requires AllDistinct(Without(order, dataset))
      modifies this, built
      ensures Pooled() && RunningOnly({}) && order == Touch(old(order), dataset, maxLive)
      ensures |order| <= maxLive && peak <= maxLive
      ensures starts == old(starts) + if dataset in old(order) then 0 else 1
      ensures accesses == old(accesses) && fresh(built - old(built))
      ensures dataset in clients && client == clients[dataset] && client.running
      ensures dataset in old(clients) ==> client == old(clients)[dataset]
      ensures forall d :: d in clients && d != dataset ==> d in old(clients) && clients[d] == old(clients)[d]
    {
      client := Take(dataset);
      EvictDown(client);
      Launch(client);
      Insert(client);
    }

    /** `start` if the client is new; at that moment it runs beside everything still pooled. */
    method Launch(client: McpClient)
      requires Pooled() && RunningOnly({client}) && |order| < maxLive && peak <= maxLive
      modifies client, `starts, `peak
      ensures Pooled() && RunningOnly({client}) && client.running && peak <= maxLive
      ensures peak == old(peak) || (!old(client.running) && peak == |order| + 1)
      ensures old(peak) <= peak && (!old(client.running) ==> |order| + 1 <= peak)
      ensures starts == old(starts) + if old(client.running) then 0 else 1
    {
      if !client.running {
        client.Start();
        starts := starts + 1;
        peak := if peak < |order| + 1 then |order| + 1 else peak;
      }
    }

    method Insert(client: McpClient)
      requires Pooled() && RunningOnly({client}) && client.running && client in built
      requires client.dataset !in clients
      modifies `order, `clients
      ensures Pooled() && RunningOnly({}) && order == old(order) + [client.dataset]
      ensures clients == old(clients)[client.dataset := client]
    {
      clients := clients[client.dataset := client];
      order := order + [client.dataset];
    }

    /** `pop(dataset, None)`, building a client when there is none. */
    method Take(dataset: Dataset) returns (client: McpClient)
      requires Pooled() && RunningOnly({})
      modifies `order, `clients, `built
      ensures Pooled() && RunningOnly({client}) && order == Without(old(order), dataset)
      ensures clients == old(clients) - {dataset}
      ensures client.dataset == dataset && client in built
      ensures built == old(built) + {client}
      ensures dataset in old(clients) ==> client == old(clients)[dataset] && client.running
      ensures dataset !in old(clients) ==> fresh(client) && !client.running
    {
      WithoutMembers(order, dataset);
      if dataset in clients {
        client := clients[dataset];
        clients := clients - {dataset};
        order := Without(order, dataset);
      } else {
        client := new McpClient(dataset);
      }
      built := built + {client};
    }

    /** Close least recently used clients until there is room for one more. */
    method EvictDown(ghost newcomer: McpClient)
      requires Pooled() && RunningOnly({newcomer}) && newcomer.dataset !in clients
      requires maxLive >= 1 && AllDistinct(order)
      modifies `order, `clients, built
      ensures Pooled() && RunningOnly({newcomer}) && order == Newest(old(order), maxLive - 1)
      ensures forall d :: d in clients ==> d in old(clients) && clients[d] == old(clients)[d]
      ensures newcomer.running == old(newcomer.running)
    {
      ghost var was, whole, all := clients, order, built;
      while |order| >= maxLive
        invariant AllDistinct(order) && Newest(order, maxLive - 1) == Newest(whole, maxLive - 1)
        invariant Pooled() && RunningOnly({newcomer})
        invariant forall d :: d in clients ==> d in was && clients[d] == was[d]
        invariant built == all
        invariant newcomer.running == old(newcomer.running)
        decreases |order|
      {
        NewestSkipsOldest(order, maxLive - 1);
        EvictOldest(newcomer);
      }
    }

    /** `popitem(last=False)`, and close what it returned. */
    method EvictOldest(ghost newcomer: McpClient)
      requires Pooled() && RunningOnly({newcomer}) && |order| > 0
      requires order[0] !in order[1..]
      modifies `order, `clients, clients[order[0]]
      ensures order == old(order)[1..] && clients == old(clients) - {old(order)[0]}
      ensures Pooled() && RunningOnly({newcomer})
      ensures forall c :: c in built && c.dataset != old(order)[0] ==> c.running == old(c.running)
    {
      var victim := order[0];
      var evicted := clients[victim];
      assert order == [victim] + order[1..];
      order := order[1..];
      clients := clients - {victim};
      evicted.Close();
    }
  }

  ghost predicate AllDistinct(s: seq<Dataset>) {
    s == [] || (s[0] !in s[1..] && AllDistinct(s[1..]))
  }

  lemma {:induction false} DistinctUnrolled(s: seq<Dataset>)
    requires NoDuplicates(s)
    ensures AllDistinct(s)
  {
    if s != [] {
      SliceNoDuplicates(s, 1);
      DistinctUnrolled(s[1..]);
    }
  }

  lemma LiveIsDistinct(accesses: seq<Dataset>, maxLive: nat, d: Dataset)
    requires maxLive >= 1
    ensures AllDistinct(Without(Live(accesses, maxLive), d))
  {
    RecencyIsLastUseOrder(accesses);
    LiveIsNewestOfRecency(accesses, maxLive);
    var r := Recency(accesses);
    if |r| > maxLive {
      SliceNoDuplicates(r, |r| - maxLive);
    }
    WithoutNoDuplicates(Live(accesses, maxLive), d);
    DistinctUnrolled(Without(Live(accesses, maxLive), d));
  }

  lemma NewestSkipsOldest(order: seq<Dataset>, n: nat)
    requires |order| > n
    ensures Newest(order[1..], n) == Newest(order, n)
  {
  }

  lemma AccessStep(accesses: seq<Dataset>, d: Dataset, maxLive: nat)
    requires maxLive >= 1
    ensures Live(accesses + [d], maxLive) == Touch(Live(accesses, maxLive), d, maxLive)
    ensures Starts(accesses + [d], maxLive)
         == Starts(accesses, maxLive) + if d in Live(accesses, maxLive) then 0 else 1
  {
    assert (accesses + [d])[..|accesses|] == accesses;
  }
}
