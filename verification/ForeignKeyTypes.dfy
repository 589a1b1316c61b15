/**
 One pass over the planned foreign keys that gives both sides of each the same
 type, where every value allows it, always towards the wider numeric type.
 */
module ForeignKeyTypes {
  import opened Wrappers
  import opened Sequences
  import opened PgTypes
  import opened ConversionPlan

  /** A planned column: target table name, target column name. */
  datatype Cell = Cell(table: string, column: string)

  datatype Pair = Pair(left: Cell, right: Cell)

  type Types = map<Cell, PgType>

  predicate Numeric(t: PgType) {
    t == Bigint || t == Double
  }

  /** The type both sides should take, or `None` if they agree or cannot. */
  function UnifiedType(left: PgType, right: PgType): Option<PgType> {
    if left == right || left == Bytea || right == Bytea then None
    else if Numeric(left) && Numeric(right) then Some(Double)
    else if Numeric(left) then Some(left)
    else if Numeric(right) then Some(right)
    else None
  }

  // ----- the pass, on types alone -----

  function Current(planned: Types, retyped: Types, c: Cell): PgType
    requires c in planned
  {
    if c in retyped then retyped[c] else planned[c]
  }

  function Widen(planned: Types, fits: (Cell, PgType) -> bool, retyped: Types, c: Cell, wanted: PgType): Types
    requires c in planned
  {
    if Current(planned, retyped, c) != wanted && fits(c, wanted) then retyped[c := wanted] else retyped
  }

  function UnifyPair(planned: Types, fits: (Cell, PgType) -> bool, retyped: Types, p: Pair): Types {
    if p.left !in planned || p.right !in planned then retyped
    else
      var wanted := UnifiedType(Current(planned, retyped, p.left), Current(planned, retyped, p.right));
      if wanted.None? then retyped
      else Widen(planned, fits, Widen(planned, fits, retyped, p.left, wanted.value), p.right, wanted.value)
  }

  function Unify(planned: Types, fits: (Cell, PgType) -> bool, retyped: Types, pairs: seq<Pair>): Types {
    if pairs == [] then retyped
    else
      var last := |pairs| - 1;
      UnifyPair(planned, fits, Unify(planned, fits, retyped, pairs[..last]), pairs[last])
  }

  // ----- one step -----

  function Rank(t: PgType): nat {
    match t
    case TextType => 0
    case Bigint => 1
    case Double => 2
    case Bytea => 3
  }

  /** Both sides agree, or one is bytea, or the side that would change has a value that does not fit. */
  predicate Settled(planned: Types, fits: (Cell, PgType) -> bool, retyped: Types, p: Pair)
    requires p.left in planned && p.right in planned
  {
    var l, r := Current(planned, retyped, p.left), Current(planned, retyped, p.right);
    || l == r
    || l == Bytea || r == Bytea
    || (if Rank(l) < Rank(r) then !fits(p.left, r) else !fits(p.right, l))
  }

  /** The narrower side takes the wider side's type, or nothing happens. */
  lemma PairStep(planned: Types, fits: (Cell, PgType) -> bool, retyped: Types, p: Pair)
    requires p.left in planned && p.right in planned
    ensures var now := UnifyPair(planned, fits, retyped, p);
            var l, r := Current(planned, retyped, p.left), Current(planned, retyped, p.right);
            now == (if Settled(planned, fits, retyped, p) then retyped
                    else if Rank(l) < Rank(r) then retyped[p.left := r] else retyped[p.right := l])
  {
  }

  /** Each visited pair ends the step either equal or with both sides unchanged. */
  lemma PairEqualOrUnchanged(planned: Types, fits: (Cell, PgType) -> bool, retyped: Types, p: Pair)
    requires p.left in planned && p.right in planned
    ensures var now := UnifyPair(planned, fits, retyped, p);
            || now == retyped
            || Current(planned, now, p.left) == Current(planned, now, p.right)
    ensures UnifyPair(planned, fits, retyped, p) == retyped <==> Settled(planned, fits, retyped, p)
  {
    PairStep(planned, fits, retyped, p);
    if !Settled(planned, fits, retyped, p) {
      var l, r := Current(planned, retyped, p.left), Current(planned, retyped, p.right);
      if Rank(l) < Rank(r) {
        assert retyped[p.left := r] != retyped by { Changed(planned, retyped, p.left, r); }
      } else {
        assert retyped[p.right := l] != retyped by { Changed(planned, retyped, p.right, l); }
      }
    }
  }

  lemma Changed(planned: Types, retyped: Types, c: Cell, t: PgType)
    requires c in planned && Current(planned, retyped, c) != t
    ensures retyped[c := t] != retyped
  {
    assert c in retyped ==> retyped[c := t][c] != retyped[c];
  }

  // ----- the whole pass -----

  predicate KeyColumn(pairs: seq<Pair>, c: Cell) {
    exists i :: 0 <= i < |pairs| && (pairs[i].left == c || pairs[i].right == c)
  }

  /** How often the pass assigns a new type to a column. */
  function Changes(planned: Types, fits: (Cell, PgType) -> bool, retyped: Types, pairs: seq<Pair>, c: Cell): nat
    requires c in planned
  {
    if pairs == [] then 0
    else
      var last := |pairs| - 1;
      var before := Unify(planned, fits, retyped, pairs[..last]);
      var after := UnifyPair(planned, fits, before, pairs[last]);
      Changes(planned, fits, retyped, pairs[..last], c)
      + if Current(planned, after, c) == Current(planned, before, c) then 0 else 1
  }

  /** A step that changes a column moves it up, away from bytea, to a type all its values fit. */
  lemma PairMovesUp(planned: Types, fits: (Cell, PgType) -> bool, retyped: Types, p: Pair, c: Cell)
    requires c in planned
    ensures var now := UnifyPair(planned, fits, retyped, p);
            var was, final := Current(planned, retyped, c), Current(planned, now, c);
            (final == was && (c in now <==> c in retyped)) ||
            (c in now && was != Bytea && Rank(was) < Rank(final) <= 2 && fits(c, final) && (p.left == c || p.right == c))
  {
    if p.left in planned && p.right in planned { PairStep(planned, fits, retyped, p); }
  }

  /**
   The pass moves types only upwards, never touches bytea or a column no key mentions,
   assigns a column at most twice, and only types that all its values fit.
   */
  lemma {:induction false} PassMovesUp(planned: Types, fits: (Cell, PgType) -> bool, pairs: seq<Pair>, c: Cell)
    requires c in planned
    ensures var now := Unify(planned, fits, map[], pairs);
            var final := Current(planned, now, c);
            && (final == planned[c] <==> c !in now)
            && (planned[c] == Bytea || !KeyColumn(pairs, c) ==> final == planned[c])
            && (final != planned[c] ==> Rank(planned[c]) < Rank(final) <= 2 && fits(c, final))
            && Changes(planned, fits, map[], pairs, c) <= (if planned[c] == Bytea then 0 else Rank(final) - Rank(planned[c]))
            && Changes(planned, fits, map[], pairs, c) <= 2
            && (Changes(planned, fits, map[], pairs, c) == 0 <==> final == planned[c])
    decreases |pairs|
  {
    if pairs != [] {
      var last := |pairs| - 1;
      PassMovesUp(planned, fits, pairs[..last], c);
      PairMovesUp(planned, fits, Unify(planned, fits, map[], pairs[..last]), pairs[last], c);
      if KeyColumn(pairs[..last], c) {
        var i :| 0 <= i < last && (pairs[..last][i].left == c || pairs[..last][i].right == c);
        assert pairs[i].left == c || pairs[i].right == c;
      }
    }
  }

  /** Once something was retyped, the pass never returns to having retyped nothing. */
  lemma {:induction false} RetypedStays(planned: Types, fits: (Cell, PgType) -> bool, retyped: Types, pairs: seq<Pair>)
    ensures retyped.Keys <= Unify(planned, fits, retyped, pairs).Keys
    decreases |pairs|
  {
    if pairs != [] { RetypedStays(planned, fits, retyped, pairs[..|pairs| - 1]); }
  }

  /** A pass changes nothing exactly when every pair agrees, involves bytea, or has a value that does not fit. */
  lemma {:induction false} NoChangeIff(planned: Types, fits: (Cell, PgType) -> bool, pairs: seq<Pair>)
    requires forall i :: 0 <= i < |pairs| ==> pairs[i].left in planned && pairs[i].right in planned
    ensures Unify(planned, fits, map[], pairs) == map[] <==>
            forall i :: 0 <= i < |pairs| ==> Settled(planned, fits, map[], pairs[i])
    decreases |pairs|
  {
    if pairs != [] {
      var last := |pairs| - 1;
      var front := pairs[..last];
      var nothing: Types := map[];
      NoChangeIff(planned, fits, front);
      assert forall i :: 0 <= i < last ==> front[i] == pairs[i];
      var before := Unify(planned, fits, nothing, front);
      if before == nothing {
        PairEqualOrUnchanged(planned, fits, nothing, pairs[last]);
      } else {
        var i :| 0 <= i < last && !Settled(planned, fits, nothing, front[i]);
        StepKeepsKeys(planned, fits, before, pairs[last]);
        assert before.Keys != {};
      }
    }
  }

  lemma StepKeepsKeys(planned: Types, fits: (Cell, PgType) -> bool, retyped: Types, p: Pair)
    ensures retyped.Keys <= UnifyPair(planned, fits, retyped, p).Keys
  {
  }

  /** One pass need not make chained keys agree: the first pair was settled before the second moved its end. */
  lemma ChainedKeysMayDisagree(a: Cell, b: Cell, c: Cell)
    requires a != b && b != c && a != c
    ensures var planned: Types := map[a := TextType, b := TextType, c := Bigint];
            var now := Unify(planned, (_, _) => true, map[], [Pair(a, b), Pair(b, c)]);
            Current(planned, now, b) == Current(planned, now, c) == Bigint && Current(planned, now, a) == TextType
  {
    var planned: Types := map[a := TextType, b := TextType, c := Bigint];
    var fits := (_: Cell, _: PgType) => true;
    var pairs := [Pair(a, b), Pair(b, c)];
    assert pairs[..1] == [Pair(a, b)] && pairs[..1][..0] == [];
    PairStep(planned, fits, map[], Pair(a, b));
    assert Unify(planned, fits, map[], pairs[..1]) == map[];
    PairStep(planned, fits, map[], Pair(b, c));
  }

  // ----- the pass over planned tables -----

  function FindTable(plans: seq<TablePlan>, name: string): Option<TablePlan> {
    if plans == [] then None
    else
      var last := plans[|plans| - 1];
      if last.targetName == name then Some(last) else FindTable(plans[..|plans| - 1], name)
  }

  function FindColumn(columns: seq<ColumnPlan>, name: string): Option<ColumnPlan> {
    if columns == [] then None
    else if columns[0].targetName == name then Some(columns[0])
    else FindColumn(columns[1..], name)
  }

  function Lookup(plans: seq<TablePlan>, c: Cell): Option<(TablePlan, ColumnPlan)> {
    var table := FindTable(plans, c.table);
    if table.None? then None
    else
      var column := FindColumn(table.value.columns, c.column);
      if column.None? then None else Some((table.value, column.value))
  }

  function Cells(plans: seq<TablePlan>): set<Cell> {
    set i, x | 0 <= i < |plans| && 0 <= x < |plans[i].columns| ::
      Cell(plans[i].targetName, plans[i].columns[x].targetName)
  }

  function PlannedTypes(plans: seq<TablePlan>): Types {
    map c | c in Cells(plans) && Lookup(plans, c).Some? :: Lookup(plans, c).value.1.pgType
  }

  /** Every value of a planned column, read from the source. */
  function ColumnData(plans: seq<TablePlan>, data: Data, c: Cell): seq<Value> {
    var found := Lookup(plans, c);
    if found.None? then [] else data(found.value.0.sourceName, found.value.1.sourceName)
  }

  function FitsIn(plans: seq<TablePlan>, casts: Casts, data: Data): (Cell, PgType) -> bool {
    (c, t) => AllFit(casts, ColumnData(plans, data, c), t)
  }

  function KeyPairs(plan: TablePlan, key: KeyPlan): seq<Pair>
    requires |key.local| == |key.remote|
  {
    seq(|key.local|, x requires 0 <= x < |key.local| =>
      Pair(Cell(plan.targetName, key.local[x]), Cell(key.table, key.remote[x])))
  }

  predicate Parallel(keys: seq<KeyPlan>) {
    forall k :: 0 <= k < |keys| ==> |keys[k].local| == |keys[k].remote|
  }

  function TablePairs(plan: TablePlan, keys: seq<KeyPlan>): seq<Pair>
    requires Parallel(keys)
  {
    if keys == [] then [] else TablePairs(plan, keys[..|keys| - 1]) + KeyPairs(plan, keys[|keys| - 1])
  }

  predicate AllParallel(plans: seq<TablePlan>) {
    forall i :: 0 <= i < |plans| ==> Parallel(plans[i].keys)
  }

  /** Every column pair of every planned key, in the order the pass visits them. */
  function AllPairs(plans: seq<TablePlan>): seq<Pair>
    requires AllParallel(plans)
  {
    if plans == [] then []
    else
      var last := plans[|plans| - 1];
      AllPairs(plans[..|plans| - 1]) + TablePairs(last, last.keys)
  }

  function Retype(plan: TablePlan, retyped: Types): TablePlan {
    plan.(columns := Map((c: ColumnPlan) => RetypeColumn(plan.targetName, c, retyped), plan.columns))
  }

  function RetypeAll(plans: seq<TablePlan>, retyped: Types): (r: seq<TablePlan>)
    ensures |r| == |plans| && forall i :: 0 <= i < |r| ==> r[i] == Retype(plans[i], retyped)
  {
    Map((p: TablePlan) => Retype(p, retyped), plans)
  }

  function RetypeColumn(table: string, c: ColumnPlan, retyped: Types): ColumnPlan {
    if Cell(table, c.targetName) in retyped then c.(pgType := retyped[Cell(table, c.targetName)]) else c
  }

  ghost predicate DistinctTargets(plans: seq<TablePlan>) {
    forall i, j :: 0 <= i < j < |plans| ==> plans[i].targetName != plans[j].targetName
  }

  lemma {:induction false} FindsTable(plans: seq<TablePlan>, i: nat)
    requires DistinctTargets(plans) && i < |plans|
    ensures FindTable(plans, plans[i].targetName) == Some(plans[i])
  {
    if i < |plans| - 1 { FindsTable(plans[..|plans| - 1], i); }
  }

  lemma {:induction false} FoundTable(plans: seq<TablePlan>, name: string)
    ensures FindTable(plans, name).Some? ==>
              exists i :: 0 <= i < |plans| && plans[i] == FindTable(plans, name).value && plans[i].targetName == name
  {
    if plans != [] {
      var last := |plans| - 1;
      if plans[last].targetName != name {
        FoundTable(plans[..last], name);
        if FindTable(plans, name).Some? {
          var i :| 0 <= i < last && plans[..last][i] == FindTable(plans, name).value && plans[..last][i].targetName == name;
          assert plans[i] == plans[..last][i];
        }
      }
    }
  }

  lemma {:induction false} FoundColumn(columns: seq<ColumnPlan>, name: string)
    ensures FindColumn(columns, name).Some? ==>
              exists x :: 0 <= x < |columns| && columns[x] == FindColumn(columns, name).value && columns[x].targetName == name
  {
    if columns != [] && columns[0].targetName != name {
      FoundColumn(columns[1..], name);
      if FindColumn(columns, name).Some? {
        var x :| 0 <= x < |columns| - 1 && columns[1..][x] == FindColumn(columns, name).value && columns[1..][x].targetName == name;
        assert columns[x + 1] == columns[1..][x];
      }
    }
  }

  /** A column has a planned type exactly when both lookups find it. */
  lemma PlannedIffFound(plans: seq<TablePlan>, c: Cell)
    ensures c in PlannedTypes(plans) <==> Lookup(plans, c).Some?
  {
    if Lookup(plans, c).Some? {
      FoundTable(plans, c.table);
      var table := FindTable(plans, c.table).value;
      FoundColumn(table.columns, c.column);
      var i :| 0 <= i < |plans| && plans[i] == table && plans[i].targetName == c.table;
      var x :| 0 <= x < |table.columns| && table.columns[x].targetName == c.column;
      assert Cell(plans[i].targetName, plans[i].columns[x].targetName) == c;
    }
  }

  lemma {:induction false} UnifyConcat(planned: Types, fits: (Cell, PgType) -> bool, retyped: Types, a: seq<Pair>, b: seq<Pair>)
    ensures Unify(planned, fits, retyped, a + b) == Unify(planned, fits, Unify(planned, fits, retyped, a), b)
    decreases |b|
  {
    if b == [] {
      assert a + b == a;
    } else {
      var last := |b| - 1;
      assert (a + b)[..|a| + last] == a + b[..last];
      UnifyConcat(planned, fits, retyped, a, b[..last]);
    }
  }

  lemma {:induction false} UnknownPairsAreSkipped(planned: Types, fits: (Cell, PgType) -> bool, retyped: Types, pairs: seq<Pair>)
    requires forall i :: 0 <= i < |pairs| ==> pairs[i].right !in planned
    ensures Unify(planned, fits, retyped, pairs) == retyped
    decreases |pairs|
  {
    if pairs != [] { UnknownPairsAreSkipped(planned, fits, retyped, pairs[..|pairs| - 1]); }
  }

  lemma FitsReads(plans: seq<TablePlan>, casts: Casts, data: Data, c: Cell, t: PgType)
    requires Lookup(plans, c).Some?
    ensures var found := Lookup(plans, c).value;
            FitsIn(plans, casts, data)(c, t) == AllFit(casts, data(found.0.sourceName, found.1.sourceName), t)
  {
    assert FitsIn(plans, casts, data)(c, t) == AllFit(casts, ColumnData(plans, data, c), t);
  }

  /** One side of a pair takes the wanted type, if it has another and all its values fit. */
  method WidenOne(plans: seq<TablePlan>, casts: Casts, data: Data, retyped: Types, c: Cell, wanted: PgType)
    returns (now: Types)
    requires c in PlannedTypes(plans)
    ensures now == Widen(PlannedTypes(plans), FitsIn(plans, casts, data), retyped, c, wanted)
  {
    hide AllFit;
    PlannedIffFound(plans, c);
    var (table, column) := Lookup(plans, c).value;
    if (if c in retyped then retyped[c] else column.pgType) == wanted { return retyped; }
    FitsReads(plans, casts, data, c, wanted);
    var fit := ValuesFit(casts, data(table.sourceName, column.sourceName), wanted);
    now := if fit then retyped[c := wanted] else retyped;
  }

  /** One column pair: each side in turn is widened to the wanted type. */
  method UnifyOne(plans: seq<TablePlan>, casts: Casts, data: Data, retyped: Types, p: Pair) returns (now: Types)
    requires p.left in PlannedTypes(plans) && p.right in PlannedTypes(plans)
    ensures now == UnifyPair(PlannedTypes(plans), FitsIn(plans, casts, data), retyped, p)
  {
    hide Lookup, FitsIn, Widen, Cells;
    var (_, left) := Lookup(plans, p.left).value;
    var (_, right) := Lookup(plans, p.right).value;
    var wanted := UnifiedType(if p.left in retyped then retyped[p.left] else left.pgType,
                              if p.right in retyped then retyped[p.right] else right.pgType);
    if wanted.None? { return retyped; }
    now := WidenOne(plans, casts, data, retyped, p.left, wanted.value);
    now := WidenOne(plans, casts, data, now, p.right, wanted.value);
  }

  method UnifyKey(plans: seq<TablePlan>, casts: Casts, data: Data, retyped: Types, plan: TablePlan, key: KeyPlan)
    returns (now: Types)
    requires DistinctTargets(plans) && plan in plans && |key.local| == |key.remote|
    ensures now == Unify(PlannedTypes(plans), FitsIn(plans, casts, data), retyped, KeyPairs(plan, key))
  {
    ghost var planned, fits, pairs := PlannedTypes(plans), FitsIn(plans, casts, data), KeyPairs(plan, key);
    now := retyped;
    var target := FindTable(plans, key.table);
    if target.None? {
      forall i | 0 <= i < |pairs|
        ensures pairs[i].right !in planned
      {
        PlannedIffFound(plans, pairs[i].right);
      }
      UnknownPairsAreSkipped(planned, fits, retyped, pairs);
      return;
    }
    OwnTable(plans, plan);
    for x := 0 to |key.local|
      invariant now == Unify(planned, fits, retyped, pairs[..x])
    {
      assert pairs[..x + 1][..x] == pairs[..x];
      var p := Pair(Cell(plan.targetName, key.local[x]), Cell(key.table, key.remote[x]));
      PlannedIffFound(plans, p.left);
      PlannedIffFound(plans, p.right);
      var left, right := FindColumn(plan.columns, key.local[x]), FindColumn(target.value.columns, key.remote[x]);
      if left.None? || right.None? { continue; }
      now := UnifyOne(plans, casts, data, now, p);
    }
    assert pairs[..|pairs|] == pairs;
  }

  lemma OwnTable(plans: seq<TablePlan>, plan: TablePlan)
    requires DistinctTargets(plans) && plan in plans
    ensures FindTable(plans, plan.targetName) == Some(plan)
  {
    var i :| 0 <= i < |plans| && plans[i] == plan;
    FindsTable(plans, i);
  }

  method UnifyTable(plans: seq<TablePlan>, casts: Casts, data: Data, retyped: Types, plan: TablePlan) returns (now: Types)
    requires DistinctTargets(plans) && plan in plans && Parallel(plan.keys)
    ensures now == Unify(PlannedTypes(plans), FitsIn(plans, casts, data), retyped, TablePairs(plan, plan.keys))
  {
    ghost var planned, fits := PlannedTypes(plans), FitsIn(plans, casts, data);
    now := retyped;
    for k := 0 to |plan.keys|
      invariant now == Unify(planned, fits, retyped, TablePairs(plan, plan.keys[..k]))
    {
      assert plan.keys[..k + 1][..k] == plan.keys[..k];
      UnifyConcat(planned, fits, retyped, TablePairs(plan, plan.keys[..k]), KeyPairs(plan, plan.keys[k]));
      now := UnifyKey(plans, casts, data, now, plan, plan.keys[k]);
    }
    assert plan.keys[..|plan.keys|] == plan.keys;
  }

  method UnifyForeignKeyTypes(plans: seq<TablePlan>, casts: Casts, data: Data) returns (out: seq<TablePlan>)
    requires DistinctTargets(plans) && AllParallel(plans)
    ensures var retyped := Unify(PlannedTypes(plans), FitsIn(plans, casts, data), map[], AllPairs(plans));
            out == RetypeAll(plans, retyped)
  {
    hide DistinctTargets;
    ghost var planned, fits := PlannedTypes(plans), FitsIn(plans, casts, data);
    var retyped: Types := map[];
    for i := 0 to |plans|
      invariant retyped == Unify(planned, fits, map[], AllPairs(plans[..i]))
    {
      assert plans[..i + 1][..i] == plans[..i];
      UnifyConcat(planned, fits, map[], AllPairs(plans[..i]), TablePairs(plans[i], plans[i].keys));
      retyped := UnifyTable(plans, casts, data, retyped, plans[i]);
    }
    assert plans[..|plans|] == plans;
    out := RetypeAll(plans, retyped);
  }

  // ----- loading -----

  predicate DistinctColumns(plan: TablePlan) {
    forall x, y :: 0 <= x < y < |plan.columns| ==> plan.columns[x].targetName != plan.columns[y].targetName
  }

  lemma {:induction false} FindsColumn(columns: seq<ColumnPlan>, x: nat)
    requires x < |columns|
    requires forall a, b :: 0 <= a < b < |columns| ==> columns[a].targetName != columns[b].targetName
    ensures FindColumn(columns, columns[x].targetName) == Some(columns[x])
  {
    if x > 0 {
      assert columns[1..][x - 1] == columns[x];
      FindsColumn(columns[1..], x - 1);
    }
  }

  lemma FindsCell(plans: seq<TablePlan>, i: nat, x: nat)
    requires DistinctTargets(plans) && i < |plans| && DistinctColumns(plans[i]) && x < |plans[i].columns|
    ensures var c := Cell(plans[i].targetName, plans[i].columns[x].targetName);
            && Lookup(plans, c) == Some((plans[i], plans[i].columns[x]))
            && c in PlannedTypes(plans) && PlannedTypes(plans)[c] == plans[i].columns[x].pgType
  {
    FindsTable(plans, i);
    FindsColumn(plans[i].columns, x);
    PlannedIffFound(plans, Cell(plans[i].targetName, plans[i].columns[x].targetName));
  }

  /** Retyping rewrites the type of every planned column to its current one, and nothing else of the plan. */
  lemma RetypedPlan(plans: seq<TablePlan>, retyped: Types, i: nat, x: nat)
    requires DistinctTargets(plans) && i < |plans| && DistinctColumns(plans[i]) && x < |plans[i].columns|
    ensures var now, c := RetypeAll(plans, retyped)[i], Cell(plans[i].targetName, plans[i].columns[x].targetName);
            && now.keys == plans[i].keys && |now.columns| == |plans[i].columns|
            && now.sourceName == plans[i].sourceName && now.targetName == plans[i].targetName
            && now.columns[x].sourceName == plans[i].columns[x].sourceName
            && now.columns[x].targetName == plans[i].columns[x].targetName
            && c in PlannedTypes(plans) && now.columns[x].pgType == Current(PlannedTypes(plans), retyped, c)
  {
    hide PlannedTypes, Lookup;
    FindsCell(plans, i, x);
  }

  /** A column ends the pass at its inferred type, or at a numeric one that all its values fit. */
  lemma {:induction false} FinalType(plans: seq<TablePlan>, casts: Casts, data: Data, i: nat, x: nat)
    requires DistinctTargets(plans) && AllParallel(plans) && i < |plans| && DistinctColumns(plans[i])
    requires x < |plans[i].columns|
    ensures var retyped := Unify(PlannedTypes(plans), FitsIn(plans, casts, data), map[], AllPairs(plans));
            var was, now := plans[i].columns[x], RetypeAll(plans, retyped)[i].columns[x];
            || now.pgType == was.pgType
            || (Numeric(now.pgType) && AllFit(casts, data(plans[i].sourceName, was.sourceName), now.pgType))
  {
    hide AllFit, Lookup, PlannedTypes;
    var c := Cell(plans[i].targetName, plans[i].columns[x].targetName);
    FindsCell(plans, i, x);
    forall t { FitsReads(plans, casts, data, c, t); }
    PassMovesUp(PlannedTypes(plans), FitsIn(plans, casts, data), AllPairs(plans), c);
    RetypedColumn(plans, Unify(PlannedTypes(plans), FitsIn(plans, casts, data), map[], AllPairs(plans)), i, x);
  }

  lemma RetypedColumn(plans: seq<TablePlan>, retyped: Types, i: nat, x: nat)
    requires i < |plans| && x < |plans[i].columns|
    ensures RetypeAll(plans, retyped)[i].columns[x] == RetypeColumn(plans[i].targetName, plans[i].columns[x], retyped)
  {
  }

  /**
   Loading never fails on a value: whatever a column's type came from, storage classes or
   unification, every value in it converts, and without loss where the type is exact.
   */
  lemma EveryValueLoads(tables: seq<SourceTable>, plans: seq<TablePlan>, casts: Casts, data: Data, i: nat, x: nat, v: Value)
    requires SourceSchema(tables) && Convertible(tables) && PlansAll(plans, tables, data)
    requires i < |plans| && x < |plans[i].columns| && v in data(plans[i].sourceName, plans[i].columns[x].sourceName)
    ensures DistinctTargets(plans) && AllParallel(plans)
    ensures var retyped := Unify(PlannedTypes(plans), FitsIn(plans, casts, data), map[], AllPairs(plans));
            PgTypes.Faithful(casts, v, RetypeAll(plans, retyped)[i].columns[x].pgType)
  {
    hide PgTypes.Faithful, AllFit, SourceSchema, Convertible, RetypeAll;
    PlansAreSound(tables, plans, data);
    FinalType(plans, casts, data, i, x);
    var values := data(plans[i].sourceName, plans[i].columns[x].sourceName);
    InferredTypeTakesAll(casts, values, tables[i].columns[x].declared, v);
    assert plans[i] == PlanOf(tables, tables[i], data);
    var retyped := Unify(PlannedTypes(plans), FitsIn(plans, casts, data), map[], AllPairs(plans));
    var final := RetypeAll(plans, retyped)[i].columns[x].pgType;
    if final != plans[i].columns[x].pgType { FittedTypeTakesAll(casts, values, final, v); }
  }

  lemma PlansAreSound(tables: seq<SourceTable>, plans: seq<TablePlan>, data: Data)
    requires SourceSchema(tables) && Convertible(tables) && PlansAll(plans, tables, data)
    ensures DistinctTargets(plans) && AllParallel(plans)
    ensures forall i :: 0 <= i < |plans| ==> DistinctColumns(plans[i])
  {
    hide SourceSchema, Convertible, PlansAll, Resolves, PlanOf;
    assert |plans| == |tables| by { PlansHaveSameLength(plans, tables, data); }
    forall i, j | 0 <= i < |plans| && 0 <= j < |plans|
      ensures (i != j ==> plans[i].targetName != plans[j].targetName) && DistinctColumns(plans[i])
    {
      PlannedNamesAreDistinct(plans, tables, data, i, j);
    }
    forall i, k | 0 <= i < |plans| && 0 <= k < |plans[i].keys|
      ensures |plans[i].keys[k].local| == |plans[i].keys[k].remote|
    {
      PlannedKeysResolve(plans, tables, data, i, k);
      ResolvedIsParallel(plans, plans[i], plans[i].keys[k]);
    }
  }

  lemma PlansHaveSameLength(plans: seq<TablePlan>, tables: seq<SourceTable>, data: Data)
    requires PlansAll(plans, tables, data)
    ensures |plans| == |tables|
  {
  }

  lemma ResolvedIsParallel(plans: seq<TablePlan>, plan: TablePlan, key: KeyPlan)
    requires Resolves(plans, plan, key)
    ensures |key.local| == |key.remote|
  {
  }
}
