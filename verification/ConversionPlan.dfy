/** The target shape of a whole database: names, types and the foreign keys that survive. */
module ConversionPlan {
  import opened Wrappers
  import opened Sequences
  import opened Identifiers
  import opened PgTypes

  datatype SourceColumn = SourceColumn(name: string, declared: string)

  datatype SourceKey = SourceKey(columns: seq<string>, referencedTable: string, referencedColumns: seq<string>)

  datatype SourceTable = SourceTable(name: string, columns: seq<SourceColumn>, keys: seq<SourceKey>)

  /** Every cell of a column, by source table and source column name. */
  type Data = (string, string) -> seq<Value>

  datatype ColumnPlan = ColumnPlan(sourceName: string, targetName: string, pgType: PgType)

  datatype KeyPlan = KeyPlan(local: seq<string>, table: string, remote: seq<string>)

  datatype TablePlan = TablePlan(sourceName: string, targetName: string, columns: seq<ColumnPlan>, keys: seq<KeyPlan>)

  datatype PlanError = NoTables | BadName(error: IdentifierError)

  // ----- the specification -----

  function TableNames(tables: seq<SourceTable>): (r: seq<string>)
    ensures |r| == |tables| && forall i :: 0 <= i < |r| ==> r[i] == tables[i].name
  {
    Map((t: SourceTable) => t.name, tables)
  }

  function ColumnNames(t: SourceTable): (r: seq<string>)
    ensures |r| == |t.columns| && forall i :: 0 <= i < |r| ==> r[i] == t.columns[i].name
  {
    Map((c: SourceColumn) => c.name, t.columns)
  }

  /** What SQLite guarantees: distinct table names, distinct column names, parallel key columns. */
  ghost predicate SourceSchema(tables: seq<SourceTable>) {
    && NoDuplicates(TableNames(tables))
    && forall i :: 0 <= i < |tables| ==> SourceTableOk(tables[i])
  }

  ghost predicate SourceTableOk(t: SourceTable) {
    && NoDuplicates(ColumnNames(t))
    && forall k :: 0 <= k < |t.keys| ==> |t.keys[k].columns| == |t.keys[k].referencedColumns|
  }

  ghost predicate Convertible(tables: seq<SourceTable>) {
    && tables != []
    && Buildable(TableNames(tables))
    && forall i :: 0 <= i < |tables| ==> Buildable(ColumnNames(tables[i]))
  }

  function ColumnPlans(t: SourceTable, data: Data): (r: seq<ColumnPlan>)
    ensures |r| == |t.columns| && forall i :: 0 <= i < |r| ==> r[i] == PlanColumn(t, t.columns[i], data)
  {
    Map((c: SourceColumn) => PlanColumn(t, c, data), t.columns)
  }

  function PlanColumn(t: SourceTable, c: SourceColumn, data: Data): ColumnPlan {
    ColumnPlan(c.name, Folded(c.name), TypeForClasses(ClassesOf(data(t.name, c.name)), c.declared))
  }

  /** A key survives when the tables and columns it names exist, spelled exactly as declared. */
  predicate Kept(tables: seq<SourceTable>, t: SourceTable, key: SourceKey) {
    && (forall c :: c in key.columns ==> c in ColumnNames(t))
    && exists i :: 0 <= i < |tables| && Targets(tables[i], key)
  }

  predicate Targets(referenced: SourceTable, key: SourceKey) {
    && referenced.name == key.referencedTable
    && forall c :: c in key.referencedColumns ==> c in ColumnNames(referenced)
  }

  function FoldAll(names: seq<string>): (r: seq<string>)
    ensures |r| == |names| && forall i :: 0 <= i < |r| ==> r[i] == Folded(names[i])
  {
    Map(Folded, names)
  }

  function PlanKey(key: SourceKey): KeyPlan {
    KeyPlan(FoldAll(key.columns), Folded(key.referencedTable), FoldAll(key.referencedColumns))
  }

  function KeptKeys(tables: seq<SourceTable>, t: SourceTable, keys: seq<SourceKey>): seq<KeyPlan> {
    if keys == [] then []
    else
      var last := keys[|keys| - 1];
      KeptKeys(tables, t, keys[..|keys| - 1]) + if Kept(tables, t, last) then [PlanKey(last)] else []
  }

  function PlanOf(tables: seq<SourceTable>, t: SourceTable, data: Data): TablePlan {
    TablePlan(t.name, Folded(t.name), ColumnPlans(t, data), KeptKeys(tables, t, t.keys))
  }

  // ----- the code -----

  /** Matches a key's target table ignoring case. */
  method ResolveFkTable(referenced: string, tableMap: map<string, string>, names: seq<string>)
    returns (r: Option<string>)
    requires tableMap == Forward(names)
    ensures r.None? <==> forall raw :: raw in names ==> Lower(raw) != Lower(referenced)
    ensures r.Some? ==> r.value == Folded(referenced)
  {
    for i := 0 to |names|
      invariant forall k :: 0 <= k < i ==> Lower(names[k]) != Lower(referenced)
    {
      if Lower(names[i]) == Lower(referenced) {
        FoldIgnoresCase(names[i], referenced);
        return Some(tableMap[names[i]]);
      }
    }
    return None;
  }

  /** The identifiers of several columns; one unknown name spoils the key. */
  method SafeAll(forward: map<string, string>, names: seq<string>, known: seq<string>) returns (r: Option<seq<string>>)
    requires forward == Forward(known)
    ensures r == if forall c :: c in names ==> c in known then Some(FoldAll(names)) else None
  {
    var out: seq<string> := [];
    for i := 0 to |names|
      invariant |out| == i && forall k :: 0 <= k < i ==> names[k] in known && out[k] == Folded(names[k])
    {
      assert names[i] in names;
      var safe := Safe(forward, names[i], known);
      if safe.Err? { return None; }
      out := out + [safe.value];
    }
    assert out == FoldAll(names);
    return Some(out);
  }

  method BuildAll(tables: seq<SourceTable>) returns (r: Result<map<string, map<string, string>>, IdentifierError>)
    requires NoDuplicates(TableNames(tables))
    ensures r.Ok? <==> forall i :: 0 <= i < |tables| ==> Buildable(ColumnNames(tables[i]))
    ensures r.Ok? ==> MapsColumns(r.value, tables)
  {
    NoMaps();
    hide Buildable, Forward, MapsColumns, NoDuplicates, ColumnNames, TableNames;
    var maps: map<string, map<string, string>> := map[];
    for i := 0 to |tables|
      invariant forall k :: 0 <= k < i ==> Buildable(ColumnNames(tables[k]))
      invariant MapsColumns(maps, tables[..i])
    {
      var built := Build(ColumnNames(tables[i]));
      if built.Err? { return Err(built.error); }
      MapsOneMore(maps, tables, i, built.value);
      maps := maps[tables[i].name := built.value];
    }
    assert tables[..|tables|] == tables;
    return Ok(maps);
  }

  ghost predicate MapsColumns(maps: map<string, map<string, string>>, tables: seq<SourceTable>) {
    && (forall i :: 0 <= i < |tables| ==>
          tables[i].name in maps && maps[tables[i].name] == Forward(ColumnNames(tables[i])))
    && forall name :: name in maps ==> name in TableNames(tables)
  }

  lemma NoMaps()
    ensures MapsColumns(map[], [])
  {
  }

  lemma MapsOneMore(maps: map<string, map<string, string>>, tables: seq<SourceTable>, i: nat, built: map<string, string>)
    requires NoDuplicates(TableNames(tables)) && i < |tables| && MapsColumns(maps, tables[..i])
    requires built == Forward(ColumnNames(tables[i]))
    ensures MapsColumns(maps[tables[i].name := built], tables[..i + 1])
  {
    hide Forward, ColumnNames;
    forall k | 0 <= k < i
      ensures tables[k].name != tables[i].name
    {
      assert TableNames(tables)[k] != TableNames(tables)[i];
    }
    var now := maps[tables[i].name := built];
    forall name | name in now
      ensures name in TableNames(tables[..i + 1])
    {
      if name in maps {
        var k :| 0 <= k < i && TableNames(tables[..i])[k] == name;
        assert TableNames(tables[..i + 1])[k] == name;
      } else {
        assert TableNames(tables[..i + 1])[i] == name;
      }
    }
  }

  method PlanOneKey(tables: seq<SourceTable>, t: SourceTable, tableMap: map<string, string>,
                    columnMaps: map<string, map<string, string>>, key: SourceKey)
    returns (r: Option<KeyPlan>)
    requires NoDuplicates(TableNames(tables)) && t in tables
    requires tableMap == Forward(TableNames(tables)) && MapsColumns(columnMaps, tables)
    ensures r == if Kept(tables, t, key) then Some(PlanKey(key)) else None
  {
    hide Kept, Forward, NoDuplicates, Targets, Folded, FoldAll, Lower;
    var target := ResolveFkTable(key.referencedTable, tableMap, TableNames(tables));
    if target.None? || key.referencedTable !in columnMaps {
      NamedInMaps(columnMaps, tables, key.referencedTable);
      UnknownTableIsDropped(tables, t, key);
      return None;
    }
    var j := IndexOfName(tables, key.referencedTable);
    var local := SafeAll(columnMaps[t.name], key.columns, ColumnNames(t));
    var remote := SafeAll(columnMaps[key.referencedTable], key.referencedColumns, ColumnNames(tables[j]));
    KeptByExactName(tables, t, key, j);
    return if local.Some? && remote.Some? then Some(KeyPlan(local.value, target.value, remote.value)) else None;
  }

  lemma NamedInMaps(maps: map<string, map<string, string>>, tables: seq<SourceTable>, name: string)
    requires MapsColumns(maps, tables)
    ensures name in maps <==> name in TableNames(tables)
  {
    if name in TableNames(tables) {
      var i :| 0 <= i < |tables| && TableNames(tables)[i] == name;
      assert tables[i].name in maps;
    }
  }

  /** The foreign keys of one table, in declaration order, dropping the ones that name something unknown. */
  method PlanTable(tables: seq<SourceTable>, t: SourceTable, tableMap: map<string, string>,
                   columnMaps: map<string, map<string, string>>, data: Data)
    returns (plan: TablePlan)
    requires NoDuplicates(TableNames(tables)) && t in tables
    requires tableMap == Forward(TableNames(tables)) && MapsColumns(columnMaps, tables)
    ensures plan == PlanOf(tables, t, data)
  {
    var keys: seq<KeyPlan> := [];
    for i := 0 to |t.keys|
      invariant keys == KeptKeys(tables, t, t.keys[..i])
    {
      assert t.keys[..i + 1][..i] == t.keys[..i];
      var planned := PlanOneKey(tables, t, tableMap, columnMaps, t.keys[i]);
      if planned.Some? { keys := keys + [planned.value]; }
    }
    assert t.keys[..|t.keys|] == t.keys;
    var i :| 0 <= i < |tables| && tables[i] == t;
    assert t.name == TableNames(tables)[i];
    return TablePlan(t.name, tableMap[t.name], ColumnPlans(t, data), keys);
  }

  lemma UnknownTableIsDropped(tables: seq<SourceTable>, t: SourceTable, key: SourceKey)
    requires key.referencedTable !in TableNames(tables)
      || forall raw :: raw in TableNames(tables) ==> Lower(raw) != Lower(key.referencedTable)
    ensures !Kept(tables, t, key)
  {
    forall i | 0 <= i < |tables|
      ensures !Targets(tables[i], key)
    {
      assert TableNames(tables)[i] in TableNames(tables);
    }
  }

  /** Table names being distinct, only one table can satisfy the key. */
  lemma KeptByExactName(tables: seq<SourceTable>, t: SourceTable, key: SourceKey, j: nat)
    requires NoDuplicates(TableNames(tables)) && j < |tables| && tables[j].name == key.referencedTable
    ensures Kept(tables, t, key) <==>
            && (forall c :: c in key.columns ==> c in ColumnNames(t))
            && (forall c :: c in key.referencedColumns ==> c in ColumnNames(tables[j]))
  {
    assert Targets(tables[j], key) <==> forall c :: c in key.referencedColumns ==> c in ColumnNames(tables[j]);
    forall i | 0 <= i < |tables| && tables[i].name == key.referencedTable
      ensures i == j
    {
      assert TableNames(tables)[i] == TableNames(tables)[j];
    }
  }

  function IndexOfName(tables: seq<SourceTable>, name: string): (j: nat)
    requires name in TableNames(tables)
    ensures j < |tables| && tables[j].name == name
  {
    if tables[0].name == name then 0
    else
      assert TableNames(tables) == [tables[0].name] + TableNames(tables[1..]);
      1 + IndexOfName(tables[1..], name)
  }

  predicate PlansAll(plans: seq<TablePlan>, tables: seq<SourceTable>, data: Data) {
    |plans| == |tables| && forall i :: 0 <= i < |tables| ==> plans[i] == PlanOf(tables, tables[i], data)
  }

  /** Succeeds exactly when the schema name is usable and the source convertible, and then plans every table. */
  method PlanDatabase(dbId: string, prefix: string, tables: seq<SourceTable>, data: Data)
    returns (r: Result<(string, seq<TablePlan>), PlanError>)
    requires SourceSchema(tables)
    ensures r.Ok? <==> Usable(prefix + dbId) && Convertible(tables)
    ensures r.Ok? ==> r.value.0 == Folded(prefix + dbId) && PlansAll(r.value.1, tables, data)
    ensures !Usable(prefix + dbId) ==> r == Err(BadName(Unusable(prefix + dbId)))
    ensures Usable(prefix + dbId) && tables == [] ==> r == Err(NoTables)
  {
    hide PlanOf, Buildable, Forward, NoDuplicates, MapsColumns, TableNames, ColumnNames, Usable, Folded;
    var schema := ToPgIdentifier(prefix + dbId);
    if schema.Err? { return Err(BadName(schema.error)); }
    if tables == [] { return Err(NoTables); }
    var tableMap := Build(TableNames(tables));
    if tableMap.Err? { return Err(BadName(tableMap.error)); }
    var columnMaps := BuildAll(tables);
    if columnMaps.Err? { return Err(BadName(columnMaps.error)); }
    var plans: seq<TablePlan> := [];
    for i := 0 to |tables|
      invariant |plans| == i && forall k :: 0 <= k < i ==> plans[k] == PlanOf(tables, tables[k], data)
    {
      var plan := PlanTable(tables, tables[i], tableMap.value, columnMaps.value, data);
      plans := plans + [plan];
    }
    return Ok((schema.value, plans));
  }

  // ----- what a plan guarantees -----

  /** Every source column has its planned column, in order, under its fold, with a type its values decide. */
  lemma ColumnIsPlanned(plans: seq<TablePlan>, tables: seq<SourceTable>, data: Data, i: nat, x: nat)
    requires PlansAll(plans, tables, data) && i < |tables| && x < |tables[i].columns|
    ensures |plans| == |tables| && |plans[i].columns| == |tables[i].columns|
    ensures plans[i].sourceName == tables[i].name && plans[i].targetName == Folded(tables[i].name)
    ensures var column, planned := tables[i].columns[x], plans[i].columns[x];
            var values := data(tables[i].name, column.name);
            && planned.sourceName == column.name && planned.targetName == Folded(column.name)
            && (planned.pgType == Bigint <==>
                  if exists v :: v in values && v != Null then forall v :: v in values ==> v.Null? || v.Integer?
                  else Mentions(column.declared, "INT"))
            && (planned.pgType == Bytea && (exists v :: v in values && v != Null) ==>
                  forall v :: v in values ==> v.Null? || v.Blob?)
  {
    hide Folded, Mentions, KeptKeys;
    var column := tables[i].columns[x];
    var values := data(tables[i].name, column.name);
    assert plans[i] == PlanOf(tables, tables[i], data);
    assert plans[i].columns[x].pgType == TypeForClasses(ClassesOf(values), column.declared);
    if exists v :: v in values && v != Null {
      TypeMeans(values, column.declared);
    } else {
      EmptyColumnType(values, column.declared);
    }
  }

  lemma DistinctFolds(raws: seq<string>, i: nat, j: nat)
    requires Buildable(raws) && NoDuplicates(raws) && i < |raws| && j < |raws| && i != j
    ensures Folded(raws[i]) != Folded(raws[j])
  {
    assert raws[i] != raws[j];
  }

  /** No two tables, and no two columns of one table, get the same identifier. */
  lemma PlannedNamesAreDistinct(plans: seq<TablePlan>, tables: seq<SourceTable>, data: Data, i: nat, j: nat)
    requires SourceSchema(tables) && Convertible(tables) && PlansAll(plans, tables, data)
    requires i < |plans| && j < |plans|
    ensures i != j ==> plans[i].targetName != plans[j].targetName
    ensures forall x, y :: 0 <= x < y < |plans[i].columns| ==>
              plans[i].columns[x].targetName != plans[i].columns[y].targetName
  {
    hide Folded;
    assert plans[i] == PlanOf(tables, tables[i], data) && plans[j] == PlanOf(tables, tables[j], data);
    if i != j { DistinctFolds(TableNames(tables), i, j); }
    forall x, y | 0 <= x < y < |plans[i].columns|
      ensures plans[i].columns[x].targetName != plans[i].columns[y].targetName
    {
      DistinctFolds(ColumnNames(tables[i]), x, y);
    }
  }

  /** A table name that matches several tables ignoring case matches one. */
  lemma CaseInsensitiveMatchIsUnique(tables: seq<SourceTable>, referenced: string, i: nat, j: nat)
    requires SourceSchema(tables) && Convertible(tables) && i < |tables| && j < |tables|
    requires Lower(tables[i].name) == Lower(referenced) == Lower(tables[j].name)
    ensures i == j
  {
    FoldIgnoresCase(tables[i].name, tables[j].name);
    if i != j { DistinctFolds(TableNames(tables), i, j); }
  }

  predicate HasColumn(plan: TablePlan, column: string) {
    exists x :: 0 <= x < |plan.columns| && plan.columns[x].targetName == column
  }

  /** The planned tables hold both sides of the key. */
  predicate Resolves(plans: seq<TablePlan>, plan: TablePlan, key: KeyPlan) {
    && |key.local| == |key.remote|
    && (forall k :: 0 <= k < |key.local| ==> HasColumn(plan, key.local[k]))
    && exists i :: 0 <= i < |plans| && Holds(plans[i], key)
  }

  predicate Holds(plan: TablePlan, key: KeyPlan) {
    && plan.targetName == key.table
    && forall k :: 0 <= k < |key.remote| ==> HasColumn(plan, key.remote[k])
  }

  lemma FoldedColumnIsPlanned(tables: seq<SourceTable>, t: SourceTable, data: Data, name: string)
    requires name in ColumnNames(t)
    ensures HasColumn(PlanOf(tables, t, data), Folded(name))
  {
    hide Folded, KeptKeys;
    var x :| 0 <= x < |ColumnNames(t)| && ColumnNames(t)[x] == name;
    assert PlanOf(tables, t, data).columns[x].targetName == Folded(name);
  }

  lemma KeptKeyResolves(plans: seq<TablePlan>, tables: seq<SourceTable>, data: Data, t: SourceTable, key: SourceKey)
    requires PlansAll(plans, tables, data) && Kept(tables, t, key) && |key.columns| == |key.referencedColumns|
    ensures Resolves(plans, PlanOf(tables, t, data), PlanKey(key))
  {
    hide Folded, KeptKeys;
    var plan, planned := PlanOf(tables, t, data), PlanKey(key);
    forall k | 0 <= k < |planned.local|
      ensures HasColumn(plan, planned.local[k])
    {
      assert key.columns[k] in key.columns;
      FoldedColumnIsPlanned(tables, t, data, key.columns[k]);
    }
    var i :| 0 <= i < |tables| && Targets(tables[i], key);
    forall k | 0 <= k < |planned.remote|
      ensures HasColumn(plans[i], planned.remote[k])
    {
      assert key.referencedColumns[k] in key.referencedColumns;
      FoldedColumnIsPlanned(tables, tables[i], data, key.referencedColumns[k]);
    }
    assert Holds(plans[i], planned);
  }

  lemma {:induction false} KeptKeysResolve(plans: seq<TablePlan>, tables: seq<SourceTable>, data: Data, t: SourceTable,
                                           keys: seq<SourceKey>, k: nat)
    requires PlansAll(plans, tables, data) && forall i :: 0 <= i < |keys| ==> |keys[i].columns| == |keys[i].referencedColumns|
    requires k < |KeptKeys(tables, t, keys)|
    ensures Resolves(plans, PlanOf(tables, t, data), KeptKeys(tables, t, keys)[k])
    decreases |keys|
  {
    hide Resolves, PlanOf, Kept, PlanKey, PlansAll;
    var front, last := keys[..|keys| - 1], keys[|keys| - 1];
    if k < |KeptKeys(tables, t, front)| {
      KeptKeysResolve(plans, tables, data, t, front, k);
    } else {
      KeptKeyResolves(plans, tables, data, t, last);
    }
  }

  /** Every planned foreign key names an existing planned table and existing columns on both sides. */
  lemma PlannedKeysResolve(plans: seq<TablePlan>, tables: seq<SourceTable>, data: Data, i: nat, k: nat)
    requires SourceSchema(tables) && PlansAll(plans, tables, data) && i < |plans| && k < |plans[i].keys|
    ensures Resolves(plans, plans[i], plans[i].keys[k])
  {
    hide Resolves, KeptKeys;
    assert plans[i] == PlanOf(tables, tables[i], data);
    KeptKeysResolve(plans, tables, data, tables[i], tables[i].keys, k);
  }

  /** `REFERENCES Stadium` against a table created as `stadium` resolves, and is dropped all the same. */
  lemma CaseMismatchIsDropped()
    ensures var stadium := SourceTable("stadium", [SourceColumn("id", "INT")], []);
            var key := SourceKey(["id"], "Stadium", ["id"]);
            Lower(key.referencedTable) == Lower(stadium.name) && !Kept([stadium], stadium, key)
  {
    var a, b := "stadium", "Stadium";
    assert a[0] != b[0];
    assert |Lower(a)| == |Lower(b)| == 7;
    assert Lower(a)[0] == Lower(b)[0];
    forall i | 0 <= i < 7
      ensures Lower(a)[i] == Lower(b)[i]
    {
      if i > 0 {
        assert a[1..] == "tadium" == b[1..];
        assert a[i] == a[1..][i - 1] && b[i] == b[1..][i - 1];
      }
    }
  }
}
