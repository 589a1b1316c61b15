/**
 The schema catalog: rows upserted by (dataset, table, column, model version), stale
 rows deleted by id, and the dataset's join edges replaced wholesale.
 */
module SchemaIndexer {
  import opened Wrappers
  import opened Sequences

  datatype Column = Column(table: string, name: string, dataType: string, comment: Option<string>, text: string)

  datatype Table = Table(name: string, comment: Option<string>, columns: seq<Column>, text: string)

  datatype Edge = Edge(fromTable: string, fromColumn: string, toTable: string, toColumn: string)

  datatype ForeignKey = ForeignKey(edge: Edge, constraintName: Option<string>)

  /** `text` is each element's serialisation, which is computed elsewhere. */
  datatype Snapshot = Snapshot(tables: seq<Table>, foreignKeys: seq<ForeignKey>)

  /** The unique key of an element row; a table's row has no column, and two missing columns are the same. */
  datatype Key = Key(dataset: string, table: string, column: Option<string>, model: string)

  datatype ElementType = TableElement | ColumnElement

  type Vector = seq<real>

  datatype Payload = Payload(elementType: ElementType, dataType: Option<string>, comment: Option<string>, text: string,
                             embedding: Vector)

  /** An element as it is built from the snapshot, before it is embedded. */
  datatype Element = Element(key: Key, elementType: ElementType, dataType: Option<string>, comment: Option<string>,
                             text: string)

  datatype Row = Row(id: nat, payload: Payload)

  datatype State = State(elements: map<Key, Row>, edges: map<(string, Edge), Option<string>>, nextId: nat)

  datatype Scope = Scope(dataset: string, model: string)

  datatype Report = Report(tables: nat, columns: nat, written: nat, removed: nat, foreignKeys: nat)

  datatype IndexError = WidthMismatch | VectorCountMismatch

  datatype Embedder = Embedder(model: string, dimensions: nat, embed: seq<string> -> seq<Vector>)

  predicate InScope(k: Key, s: Scope) {
    k.dataset == s.dataset && k.model == s.model
  }

  // ----- building rows -----

  function TableElementOf(s: Scope, t: Table): Element {
    Element(Key(s.dataset, t.name, None, s.model), TableElement, None, t.comment, t.text)
  }

  function ColumnElementOf(s: Scope, c: Column): Element {
    Element(Key(s.dataset, c.table, Some(c.name), s.model), ColumnElement, Some(c.dataType), c.comment, c.text)
  }

  function ColumnElements(s: Scope, t: Table): (r: seq<Element>)
    ensures |r| == |t.columns| && forall i :: 0 <= i < |r| ==> r[i] == ColumnElementOf(s, t.columns[i])
  {
    Map((c: Column) => ColumnElementOf(s, c), t.columns)
  }

  function ElementsOf(s: Scope, tables: seq<Table>): seq<Element> {
    if tables == [] then []
    else
      var last := tables[|tables| - 1];
      ElementsOf(s, tables[..|tables| - 1]) + [TableElementOf(s, last)] + ColumnElements(s, last)
  }

  method BuildRows(s: Scope, snapshot: Snapshot) returns (rows: seq<Element>)
    ensures rows == ElementsOf(s, snapshot.tables)
  {
    rows := [];
    for i := 0 to |snapshot.tables|
      invariant rows == ElementsOf(s, snapshot.tables[..i])
    {
      var t := snapshot.tables[i];
      assert snapshot.tables[..i + 1][..i] == snapshot.tables[..i];
      ghost var before := rows;
      rows := rows + [TableElementOf(s, t)];
      for j := 0 to |t.columns|
        invariant rows == before + [TableElementOf(s, t)] + ColumnElements(s, t)[..j]
      {
        rows := rows + [ColumnElementOf(s, t.columns[j])];
      }
    }
    assert snapshot.tables[..|snapshot.tables|] == snapshot.tables;
  }

  // ----- join edges -----

  /** The keys whose edge no earlier key declared. */
  function FirstSeen(keys: seq<ForeignKey>): seq<ForeignKey> {
    if keys == [] then []
    else
      var front, last := keys[..|keys| - 1], keys[|keys| - 1];
      FirstSeen(front) + if Declared(front, last.edge) then [] else [last]
  }

  predicate Declared(keys: seq<ForeignKey>, e: Edge) {
    exists i :: 0 <= i < |keys| && keys[i].edge == e
  }

  method DistinctEdges(keys: seq<ForeignKey>) returns (edges: seq<ForeignKey>)
    ensures edges == FirstSeen(keys)
  {
    edges := [];
    var seen: set<Edge> := {};
    for i := 0 to |keys|
      invariant edges == FirstSeen(keys[..i])
      invariant forall e :: e in seen <==> Declared(keys[..i], e)
    {
      assert keys[..i + 1][..i] == keys[..i];
      DeclaredSnoc(keys[..i], keys[i]);
      assert keys[..i + 1] == keys[..i] + [keys[i]];
      if keys[i].edge !in seen {
        seen := seen + {keys[i].edge};
        edges := edges + [keys[i]];
      }
    }
    assert keys[..|keys|] == keys;
  }

  lemma DeclaredSnoc(keys: seq<ForeignKey>, k: ForeignKey)
    ensures forall e :: Declared(keys + [k], e) <==> Declared(keys, e) || e == k.edge
  {
    forall e
      ensures Declared(keys + [k], e) <==> Declared(keys, e) || e == k.edge
    {
      if Declared(keys, e) {
        var i :| 0 <= i < |keys| && keys[i].edge == e;
        assert (keys + [k])[i].edge == e;
      }
      assert (keys + [k])[|keys|] == k;
    }
  }

  // ----- one indexing run, as a function of the catalog -----

  function Written(e: Element, embedding: Vector): (Key, Payload) {
    (e.key, Payload(e.elementType, e.dataType, e.comment, e.text, embedding))
  }

  function Writes(rows: seq<Element>, vectors: seq<Vector>): (r: seq<(Key, Payload)>)
    requires |rows| == |vectors|
    ensures |r| == |rows| && forall i :: 0 <= i < |r| ==> r[i] == Written(rows[i], vectors[i])
  {
    seq(|rows|, i requires 0 <= i < |rows| => Written(rows[i], vectors[i]))
  }

  /** Insert, or on conflict update everything but the id. A sequence number is used up either way. */
  function Upsert(st: State, w: (Key, Payload)): State {
    var id := if w.0 in st.elements then st.elements[w.0].id else st.nextId;
    st.(elements := st.elements[w.0 := Row(id, w.1)], nextId := st.nextId + 1)
  }

  function UpsertAll(st: State, writes: seq<(Key, Payload)>): State {
    if writes == [] then st
    else Upsert(UpsertAll(st, writes[..|writes| - 1]), writes[|writes| - 1])
  }

  function WrittenIds(st: State, writes: seq<(Key, Payload)>): set<nat> {
    if writes == [] then {}
    else
      var last := |writes| - 1;
      WrittenIds(st, writes[..last]) + {UpsertAll(st, writes).elements[writes[last].0].id}
  }

  function DeleteStale(st: State, s: Scope, ids: set<nat>): State {
    st.(elements := map k | k in st.elements && !(InScope(k, s) && st.elements[k].id !in ids) :: st.elements[k])
  }

  function ReplaceEdges(st: State, dataset: string, keys: seq<ForeignKey>): State {
    InsertEdges(st.(edges := map e | e in st.edges && e.0 != dataset :: st.edges[e]), dataset, keys)
  }

  function InsertEdges(st: State, dataset: string, keys: seq<ForeignKey>): State {
    if keys == [] then st
    else
      var last := keys[|keys| - 1];
      var before := InsertEdges(st, dataset, keys[..|keys| - 1]);
      before.(edges := before.edges[(dataset, last.edge) := last.constraintName])
  }

  function Indexed(st: State, s: Scope, writes: seq<(Key, Payload)>, keys: seq<ForeignKey>): State {
    ReplaceEdges(DeleteStale(UpsertAll(st, writes), s, WrittenIds(st, writes)), s.dataset, FirstSeen(keys))
  }

  // ----- the catalog -----

  ghost predicate UniqueIds(st: State) {
    && (forall k :: k in st.elements ==> st.elements[k].id < st.nextId)
    && forall k, l :: k in st.elements && l in st.elements && st.elements[k].id == st.elements[l].id ==> k == l
  }

  class Catalog {
    const width: nat
    var state: State

    constructor (width: nat)
      ensures this.width == width && state == State(map[], map[], 0)
    {
      this.width, state := width, State(map[], map[], 0);
    }

    method UpsertRow(w: (Key, Payload)) returns (id: nat)
      modifies this
      ensures state == Upsert(old(state), w) && id == state.elements[w.0].id
    {
      id := if w.0 in state.elements then state.elements[w.0].id else state.nextId;
      state := state.(elements := state.elements[w.0 := Row(id, w.1)], nextId := state.nextId + 1);
    }

    method UpsertRows(writes: seq<(Key, Payload)>) returns (ids: set<nat>)
      modifies this
      ensures state == UpsertAll(old(state), writes) && ids == WrittenIds(old(state), writes)
    {
      ids := {};
      ghost var before := state;
      for i := 0 to |writes|
        invariant state == UpsertAll(before, writes[..i]) && ids == WrittenIds(before, writes[..i])
      {
        assert writes[..i + 1][..i] == writes[..i];
        var id := UpsertRow(writes[i]);
        ids := ids + {id};
      }
      assert writes[..|writes|] == writes;
    }

    method Settle(s: Scope, ids: set<nat>, keys: seq<ForeignKey>) returns (removed: nat, edges: nat)
      modifies this
      ensures state == ReplaceEdges(DeleteStale(old(state), s, ids), s.dataset, FirstSeen(keys))
      ensures removed == |old(state).elements| - |state.elements| && edges == |FirstSeen(keys)|
    {
      var kept := DeleteStale(state, s, ids);
      assert kept.elements.Keys <= state.elements.Keys;
      SmallerDomain(kept.elements, state.elements);
      removed := |state.elements| - |kept.elements|;
      var distinct := DistinctEdges(keys);
      EdgesKeepElements(kept, s.dataset, distinct);
      state := ReplaceEdges(kept, s.dataset, distinct);
      edges := |distinct|;
    }

    /** Replaces this dataset's catalog for this model version, or fails and leaves it alone. */
    method Index(dataset: string, embedder: Embedder, snapshot: Snapshot) returns (r: Result<Report, IndexError>)
      modifies this
      ensures var s := Scope(dataset, embedder.model);
              var rows := ElementsOf(s, snapshot.tables);
              var vectors := embedder.embed(SnapshotTexts(snapshot.tables));
              && (r.Err? <==> embedder.dimensions != width || (rows != [] && |vectors| != |rows|))
              && (embedder.dimensions != width ==> r == Err(WidthMismatch))
              && (embedder.dimensions == width && r.Err? ==> r == Err(VectorCountMismatch))
              && (r.Err? || rows == [] ==> state == old(state))
              && (r.Ok? && rows == [] ==> r.value == Report(0, 0, 0, 0, 0))
              && (r.Ok? && rows != [] ==>
                    && state == Indexed(old(state), s, Writes(rows, vectors), snapshot.foreignKeys)
                    && r.value.tables == |snapshot.tables| && r.value.columns == ColumnCount(snapshot.tables)
                    && r.value.written == |rows|
                    && r.value.foreignKeys == |FirstSeen(snapshot.foreignKeys)|
                    && r.value.removed == |UpsertAll(old(state), Writes(rows, vectors)).elements| - |state.elements|)
    {
      hide UpsertAll, WrittenIds, DeleteStale, ReplaceEdges, FirstSeen, ElementsOf, TextsOf, SnapshotTexts;
      var s := Scope(dataset, embedder.model);
      if embedder.dimensions != width { return Err(WidthMismatch); }
      var rows := BuildRows(s, snapshot);
      if rows == [] { return Ok(Report(0, 0, 0, 0, 0)); }
      TextsAreTheSnapshots(s, snapshot.tables);
      var vectors := embedder.embed(TextsOf(rows));
      if |vectors| != |rows| { return Err(VectorCountMismatch); }
      var ids := UpsertRows(Writes(rows, vectors));
      var removed, edges := Settle(s, ids, snapshot.foreignKeys);
      var columns := 0;
      for i := 0 to |snapshot.tables|
        invariant columns == ColumnCount(snapshot.tables[..i])
      {
        assert snapshot.tables[..i + 1][..i] == snapshot.tables[..i];
        columns := columns + |snapshot.tables[i].columns|;
      }
      assert snapshot.tables[..|snapshot.tables|] == snapshot.tables;
      return Ok(Report(|snapshot.tables|, columns, |rows|, removed, edges));
    }
  }

  function ColumnCount(tables: seq<Table>): nat {
    if tables == [] then 0 else ColumnCount(tables[..|tables| - 1]) + |tables[|tables| - 1].columns|
  }

  function TextsOf(rows: seq<Element>): seq<string> {
    Map((e: Element) => e.text, rows)
  }

  /** What is embedded: each table's own text, then the texts of its columns. */
  function SnapshotTexts(tables: seq<Table>): seq<string> {
    if tables == [] then []
    else
      var last := tables[|tables| - 1];
      SnapshotTexts(tables[..|tables| - 1]) + [last.text] + ColumnTexts(last)
  }

  function ColumnTexts(t: Table): (r: seq<string>)
    ensures |r| == |t.columns| && forall j :: 0 <= j < |r| ==> r[j] == t.columns[j].text
  {
    Map((c: Column) => c.text, t.columns)
  }

  lemma {:induction false} TextsAreTheSnapshots(s: Scope, tables: seq<Table>)
    ensures TextsOf(ElementsOf(s, tables)) == SnapshotTexts(tables)
    decreases |tables|
  {
    if tables != [] {
      var front, last := tables[..|tables| - 1], tables[|tables| - 1];
      TextsAreTheSnapshots(s, front);
      assert TextsOf([TableElementOf(s, last)]) == [last.text];
      assert TextsOf(ColumnElements(s, last)) == ColumnTexts(last);
      assert ElementsOf(s, tables) == ElementsOf(s, front) + [TableElementOf(s, last)] + ColumnElements(s, last);
      TextsConcat(ElementsOf(s, front) + [TableElementOf(s, last)], ColumnElements(s, last));
      TextsConcat(ElementsOf(s, front), [TableElementOf(s, last)]);
    }
  }

  lemma TextsConcat(a: seq<Element>, b: seq<Element>)
    ensures TextsOf(a + b) == TextsOf(a) + TextsOf(b)
  {
  }

  lemma SmallerDomain<K, V>(a: map<K, V>, b: map<K, V>)
    requires a.Keys <= b.Keys
    ensures |a| <= |b|
  {
    var extra := b.Keys - a.Keys;
    assert b.Keys == a.Keys + extra;
    assert |b.Keys| == |a.Keys| + |extra|;
    assert |a.Keys| == |a| && |b.Keys| == |b|;
  }

  lemma {:induction false} EdgesKeepElements(st: State, dataset: string, keys: seq<ForeignKey>)
    ensures InsertEdges(st, dataset, keys).elements == st.elements
    ensures ReplaceEdges(st, dataset, keys).elements == st.elements
    decreases |keys|
  {
    var cleared := st.(edges := map e | e in st.edges && e.0 != dataset :: st.edges[e]);
    InsertKeepsElements(st, dataset, keys);
    InsertKeepsElements(cleared, dataset, keys);
  }

  lemma {:induction false} InsertKeepsElements(st: State, dataset: string, keys: seq<ForeignKey>)
    ensures InsertEdges(st, dataset, keys).elements == st.elements
    ensures InsertEdges(st, dataset, keys).nextId == st.nextId
    decreases |keys|
  {
    if keys != [] { InsertKeepsElements(st, dataset, keys[..|keys| - 1]); }
  }

  // ----- what a run leaves behind -----

  /** The last payload written for each key. */
  function Content(writes: seq<(Key, Payload)>): map<Key, Payload> {
    if writes == [] then map[]
    else
      var last := writes[|writes| - 1];
      Content(writes[..|writes| - 1])[last.0 := last.1]
  }

  lemma UpsertKeepsUnique(st: State, w: (Key, Payload))
    requires UniqueIds(st)
    ensures UniqueIds(Upsert(st, w))
  {
  }

  /** Upserting writes the content, keeps the id of every key that had a row, and touches nothing else. */
  lemma {:induction false} UpsertAllWrites(st: State, writes: seq<(Key, Payload)>, k: Key)
    requires UniqueIds(st)
    ensures var now := UpsertAll(st, writes);
            && UniqueIds(now)
            && (k in now.elements <==> k in st.elements || k in Content(writes))
            && (k in now.elements ==>
                  now.elements[k].payload == if k in Content(writes) then Content(writes)[k] else st.elements[k].payload)
            && (k in st.elements ==> now.elements[k].id == st.elements[k].id)
            && now.edges == st.edges
    decreases |writes|
  {
    if writes != [] {
      var front, last := writes[..|writes| - 1], writes[|writes| - 1];
      UpsertAllWrites(st, front, k);
      UpsertKeepsUnique(UpsertAll(st, front), last);
    }
  }

  /** The ids returned are exactly those of the keys written, so nothing written is stale. */
  lemma {:induction false} WrittenIdsAreOfContent(st: State, writes: seq<(Key, Payload)>, k: Key)
    requires UniqueIds(st) && k in UpsertAll(st, writes).elements
    ensures UpsertAll(st, writes).elements[k].id in WrittenIds(st, writes) <==> k in Content(writes)
    decreases |writes|
  {
    if writes != [] {
      var front, last := writes[..|writes| - 1], writes[|writes| - 1];
      UpsertAllWrites(st, writes, k);
      UpsertAllWrites(st, front, k);
      IdsAreBelow(st, front);
      if k in UpsertAll(st, front).elements { WrittenIdsAreOfContent(st, front, k); }
    }
  }

  lemma {:induction false} IdsAreBelow(st: State, writes: seq<(Key, Payload)>)
    requires UniqueIds(st)
    ensures forall id :: id in WrittenIds(st, writes) ==> id < UpsertAll(st, writes).nextId
    decreases |writes|
  {
    if writes != [] {
      var front, last := writes[..|writes| - 1], writes[|writes| - 1];
      IdsAreBelow(st, front);
      UpsertAllWrites(st, writes, last.0);
    }
  }

  ghost predicate WritesInScope(writes: seq<(Key, Payload)>, s: Scope) {
    forall i :: 0 <= i < |writes| ==> InScope(writes[i].0, s)
  }

  lemma {:induction false} ContentInScope(writes: seq<(Key, Payload)>, s: Scope, k: Key)
    requires WritesInScope(writes, s) && k in Content(writes)
    ensures InScope(k, s)
    decreases |writes|
  {
    var front, last := writes[..|writes| - 1], writes[|writes| - 1];
    if k != last.0 { ContentInScope(front, s, k); }
  }

  /**
   After indexing, the rows of the scope are a function of the snapshot alone, whatever was there
   before; rows outside it are untouched, and every element that was already there keeps its id.
   */
  lemma {:induction false} IndexReplacesScope(st: State, s: Scope, writes: seq<(Key, Payload)>, keys: seq<ForeignKey>, k: Key)
    requires UniqueIds(st) && WritesInScope(writes, s)
    ensures var now := Indexed(st, s, writes, keys);
            && (InScope(k, s) ==>
                  && (k in now.elements <==> k in Content(writes))
                  && (k in now.elements ==> now.elements[k].payload == Content(writes)[k])
                  && (k in now.elements && k in st.elements ==> now.elements[k].id == st.elements[k].id))
            && (!InScope(k, s) ==>
                  && (k in now.elements <==> k in st.elements)
                  && (k in now.elements ==> now.elements[k] == st.elements[k]))
  {
    var upserted := UpsertAll(st, writes);
    var ids := WrittenIds(st, writes);
    UpsertAllWrites(st, writes, k);
    if k in upserted.elements { WrittenIdsAreOfContent(st, writes, k); }
    if k in Content(writes) { ContentInScope(writes, s, k); }
    EdgesKeepElements(DeleteStale(upserted, s, ids), s.dataset, FirstSeen(keys));
  }

  lemma IndexKeepsUnique(st: State, s: Scope, writes: seq<(Key, Payload)>, keys: seq<ForeignKey>)
    requires UniqueIds(st)
    ensures UniqueIds(Indexed(st, s, writes, keys))
  {
    var upserted := UpsertAll(st, writes);
    var kept := DeleteStale(upserted, s, WrittenIds(st, writes));
    UpsertAllWrites(st, writes, Key("", "", None, ""));
    assert UniqueIds(kept);
    var cleared := kept.(edges := map e | e in kept.edges && e.0 != s.dataset :: kept.edges[e]);
    InsertKeepsElements(cleared, s.dataset, FirstSeen(keys));
  }

  /** Indexing the same snapshot again keeps every element row, id included, and removes nothing. */
  lemma ReindexIsStable(st: State, s: Scope, writes: seq<(Key, Payload)>, keys: seq<ForeignKey>)
    requires UniqueIds(st) && WritesInScope(writes, s)
    ensures var once := Indexed(st, s, writes, keys);
            && Indexed(once, s, writes, keys).elements == once.elements
            && |UpsertAll(once, writes).elements| == |once.elements|
  {
    hide Indexed, UniqueIds, WritesInScope;
    var once := Indexed(st, s, writes, keys);
    IndexKeepsUnique(st, s, writes, keys);
    forall k
      ensures k in Indexed(once, s, writes, keys).elements <==> k in once.elements
      ensures k in once.elements ==> Indexed(once, s, writes, keys).elements[k] == once.elements[k]
      ensures k in UpsertAll(once, writes).elements <==> k in once.elements
    {
      IndexReplacesScope(st, s, writes, keys, k);
      IndexReplacesScope(once, s, writes, keys, k);
      UpsertAllWrites(once, writes, k);
      if k in Content(writes) { ContentInScope(writes, s, k); }
    }
    assert UpsertAll(once, writes).elements.Keys == once.elements.Keys;
    SmallerDomain(UpsertAll(once, writes).elements, once.elements);
    SmallerDomain(once.elements, UpsertAll(once, writes).elements);
  }

  lemma {:induction false} ElementsAreInScope(s: Scope, tables: seq<Table>)
    ensures forall i :: 0 <= i < |ElementsOf(s, tables)| ==> InScope(ElementsOf(s, tables)[i].key, s)
    decreases |tables|
  {
    if tables != [] { ElementsAreInScope(s, tables[..|tables| - 1]); }
  }

  /** Whatever two catalogs held before, indexing one snapshot leaves them the same scope content. */
  lemma HistoryDoesNotMatter(st: State, other: State, s: Scope, snapshot: Snapshot, vectors: seq<Vector>, k: Key)
    requires UniqueIds(st) && UniqueIds(other) && |vectors| == |ElementsOf(s, snapshot.tables)| && InScope(k, s)
    ensures var writes := Writes(ElementsOf(s, snapshot.tables), vectors);
            var a, b := Indexed(st, s, writes, snapshot.foreignKeys), Indexed(other, s, writes, snapshot.foreignKeys);
            && (k in a.elements <==> k in b.elements)
            && (k in a.elements ==> a.elements[k].payload == b.elements[k].payload)
  {
    hide Indexed, UniqueIds;
    var writes := Writes(ElementsOf(s, snapshot.tables), vectors);
    ElementsAreInScope(s, snapshot.tables);
    IndexReplacesScope(st, s, writes, snapshot.foreignKeys, k);
    IndexReplacesScope(other, s, writes, snapshot.foreignKeys, k);
  }

  /** The snapshot has an element with this key: a table of that name, or a column filed under it. */
  predicate Has(tables: seq<Table>, k: Key) {
    exists i :: 0 <= i < |tables| && TableHas(tables[i], k)
  }

  predicate TableHas(t: Table, k: Key) {
    if k.column.None? then t.name == k.table
    else exists j :: 0 <= j < |t.columns| && t.columns[j].table == k.table && t.columns[j].name == k.column.value
  }

  ghost predicate Keyed(rows: seq<Element>, k: Key) {
    exists i :: 0 <= i < |rows| && rows[i].key == k
  }

  lemma KeyedConcat(a: seq<Element>, b: seq<Element>, k: Key)
    ensures Keyed(a + b, k) <==> Keyed(a, k) || Keyed(b, k)
  {
    if Keyed(a, k) {
      var i :| 0 <= i < |a| && a[i].key == k;
      assert (a + b)[i].key == k;
    }
    if Keyed(b, k) {
      var i :| 0 <= i < |b| && b[i].key == k;
      assert (a + b)[|a| + i].key == k;
    }
  }

  lemma OneTable(s: Scope, t: Table, k: Key)
    requires InScope(k, s)
    ensures Keyed([TableElementOf(s, t)] + ColumnElements(s, t), k) <==> TableHas(t, k)
  {
    KeyedConcat([TableElementOf(s, t)], ColumnElements(s, t), k);
    assert [TableElementOf(s, t)][0].key == Key(s.dataset, t.name, None, s.model);
    if k.column.Some? && TableHas(t, k) {
      var j :| 0 <= j < |t.columns| && t.columns[j].table == k.table && t.columns[j].name == k.column.value;
      assert ColumnElements(s, t)[j].key == k;
    }
  }

  lemma {:induction false} ElementsAreOfSnapshot(s: Scope, tables: seq<Table>, k: Key)
    requires InScope(k, s)
    ensures Keyed(ElementsOf(s, tables), k) <==> Has(tables, k)
    decreases |tables|
  {
    if tables != [] {
      var front, last := tables[..|tables| - 1], tables[|tables| - 1];
      ElementsAreOfSnapshot(s, front, k);
      OneTable(s, last, k);
      KeyedConcat(ElementsOf(s, front), [TableElementOf(s, last)] + ColumnElements(s, last), k);
      assert ElementsOf(s, tables) == ElementsOf(s, front) + ([TableElementOf(s, last)] + ColumnElements(s, last));
      if Has(front, k) {
        var i :| 0 <= i < |front| && TableHas(front[i], k);
        assert TableHas(tables[i], k);
      }
    }
  }

  /** A row of the scope exists exactly for the tables and columns of the snapshot just indexed. */
  lemma CatalogIsTheSnapshot(st: State, s: Scope, snapshot: Snapshot, vectors: seq<Vector>, k: Key)
    requires UniqueIds(st) && |vectors| == |ElementsOf(s, snapshot.tables)| && InScope(k, s)
    ensures var writes := Writes(ElementsOf(s, snapshot.tables), vectors);
            k in Indexed(st, s, writes, snapshot.foreignKeys).elements <==> Has(snapshot.tables, k)
  {
    hide Indexed, UniqueIds, Has;
    var rows := ElementsOf(s, snapshot.tables);
    var writes := Writes(rows, vectors);
    ElementsAreInScope(s, snapshot.tables);
    IndexReplacesScope(st, s, writes, snapshot.foreignKeys, k);
    ElementsAreOfSnapshot(s, snapshot.tables, k);
    ContentHas(writes, k);
    assert forall i :: 0 <= i < |rows| ==> writes[i].0 == rows[i].key;
  }

  ghost predicate DistinctKeys(writes: seq<(Key, Payload)>) {
    forall i, j :: 0 <= i < j < |writes| ==> writes[i].0 != writes[j].0
  }

  lemma {:induction false} ContentHas(writes: seq<(Key, Payload)>, k: Key)
    ensures k in Content(writes) <==> exists i :: 0 <= i < |writes| && writes[i].0 == k
    decreases |writes|
  {
    if writes != [] {
      var front, last := writes[..|writes| - 1], writes[|writes| - 1];
      ContentHas(front, k);
      if i :| 0 <= i < |writes| && writes[i].0 == k {
        if i < |front| { assert front[i].0 == k; }
      }
      if k in Content(front) {
        var i :| 0 <= i < |front| && front[i].0 == k;
        assert writes[i].0 == k;
      }
    }
  }

  /** The reported number of elements written is the number of rows, unless the snapshot lists an element twice. */
  lemma {:induction false} WrittenCountsRowsIff(writes: seq<(Key, Payload)>)
    ensures |Content(writes)| <= |writes|
    ensures |Content(writes)| == |writes| <==> DistinctKeys(writes)
    decreases |writes|
  {
    if writes != [] {
      var front, last := writes[..|writes| - 1], writes[|writes| - 1];
      WrittenCountsRowsIff(front);
      ContentHas(front, last.0);
      ContentGrows(front, last);
      assert writes == front + [last];
      if last.0 in Content(front) {
        RepeatIsNotDistinct(front, last);
      } else {
        DistinctSnoc(front, last);
      }
    }
  }

  /** A snapshot that lists one table twice writes two elements into one row. */
  lemma RepeatedElementIsOneRow(t: Table, s: Scope, v: Vector)
    ensures var rows := ElementsOf(s, [t.(columns := []), t.(columns := [])]);
            |rows| == 2 && |Content(Writes(rows, [v, v]))| == 1
  {
    var bare := t.(columns := []);
    assert [bare, bare][..1] == [bare] && [bare][..0] == [];
    var e := TableElementOf(s, bare);
    assert ElementsOf(s, [bare]) == [e];
    assert ElementsOf(s, [bare, bare]) == [e, e];
    var writes := Writes([e, e], [v, v]);
    assert writes[..1][..0] == [];
    assert Content(writes[..1]) == map[e.key := writes[0].1];
    assert Content(writes) == map[e.key := writes[1].1];
  }

  lemma ContentGrows(front: seq<(Key, Payload)>, last: (Key, Payload))
    ensures |Content(front + [last])| == |Content(front)| + if last.0 in Content(front) then 0 else 1
  {
    assert (front + [last])[..|front|] == front;
    var before, now := Content(front), Content(front)[last.0 := last.1];
    assert now.Keys == before.Keys + {last.0};
    assert |now.Keys| == |now| && |before.Keys| == |before|;
  }

  lemma RepeatIsNotDistinct(front: seq<(Key, Payload)>, last: (Key, Payload))
    requires exists i :: 0 <= i < |front| && front[i].0 == last.0
    ensures !DistinctKeys(front + [last])
  {
    var all := front + [last];
    var i :| 0 <= i < |front| && front[i].0 == last.0;
    assert all[i].0 == all[|front|].0;
  }

  lemma DistinctSnoc(front: seq<(Key, Payload)>, last: (Key, Payload))
    requires forall i :: 0 <= i < |front| ==> front[i].0 != last.0
    ensures DistinctKeys(front + [last]) <==> DistinctKeys(front)
  {
    var all := front + [last];
    assert forall i :: 0 <= i < |front| ==> all[i] == front[i];
  }

  // ----- what each row holds -----

  /** Where a table's own element stands among all elements; its columns follow it. */
  function PositionOf(tables: seq<Table>, i: nat): nat
    requires i <= |tables|
  {
    if i == 0 then 0 else PositionOf(tables, i - 1) + 1 + |tables[i - 1].columns|
  }

  /** The elements of table `i` stand together, the table first and its columns in order. */
  ghost predicate StandAt(s: Scope, t: Table, rows: seq<Element>, at: nat) {
    && at + |t.columns| < |rows|
    && rows[at] == TableElementOf(s, t)
    && forall j :: 0 <= j < |t.columns| ==> rows[at + 1 + j] == ColumnElementOf(s, t.columns[j])
  }

  lemma StandInFront(s: Scope, t: Table, rows: seq<Element>, more: seq<Element>, at: nat)
    requires StandAt(s, t, rows, at)
    ensures StandAt(s, t, rows + more, at)
  {
  }

  lemma StandLast(s: Scope, t: Table, before: seq<Element>)
    ensures StandAt(s, t, before + [TableElementOf(s, t)] + ColumnElements(s, t), |before|)
  {
    hide TableElementOf, ColumnElementOf;
    var columns := ColumnElements(s, t);
    var rows := before + [TableElementOf(s, t)] + columns;
    forall j | 0 <= j < |t.columns|
      ensures rows[|before| + 1 + j] == ColumnElementOf(s, t.columns[j])
    {
      assert rows[|before| + 1 + j] == columns[j];
    }
  }

  lemma {:induction false} ElementsAt(s: Scope, tables: seq<Table>, i: nat)
    requires i < |tables|
    ensures StandAt(s, tables[i], ElementsOf(s, tables), PositionOf(tables, i))
    ensures |ElementsOf(s, tables)| == PositionOf(tables, |tables|)
    decreases |tables|
  {
    hide StandAt;
    var front, last := tables[..|tables| - 1], tables[|tables| - 1];
    SizeOf(s, tables);
    PositionInFront(tables, i);
    if i < |front| {
      ElementsAt(s, front, i);
      StandInFront(s, tables[i], ElementsOf(s, front), [TableElementOf(s, last)], PositionOf(front, i));
      StandInFront(s, tables[i], ElementsOf(s, front) + [TableElementOf(s, last)], ColumnElements(s, last), PositionOf(front, i));
    } else {
      SizeOf(s, front);
      StandLast(s, last, ElementsOf(s, front));
    }
  }

  lemma {:induction false} SizeOf(s: Scope, tables: seq<Table>)
    ensures |ElementsOf(s, tables)| == PositionOf(tables, |tables|)
    decreases |tables|
  {
    if tables != [] {
      SizeOf(s, tables[..|tables| - 1]);
      PositionInFront(tables, |tables| - 1);
    }
  }

  lemma {:induction false} PositionInFront(tables: seq<Table>, i: nat)
    requires tables != [] && i < |tables|
    ensures PositionOf(tables[..|tables| - 1], i) == PositionOf(tables, i)
  {
    if i > 0 { PositionInFront(tables, i - 1); }
  }

  lemma {:induction false} ContentOfDistinct(writes: seq<(Key, Payload)>, i: nat)
    requires DistinctKeys(writes) && i < |writes|
    ensures writes[i].0 in Content(writes) && Content(writes)[writes[i].0] == writes[i].1
    decreases |writes|
  {
    var front := writes[..|writes| - 1];
    if i < |front| {
      assert front[i] == writes[i];
      ContentOfDistinct(front, i);
    }
  }

  /** The row an element ends up in, when no element is listed twice. */
  lemma RowOfElement(st: State, s: Scope, snapshot: Snapshot, vectors: seq<Vector>, i: nat)
    requires UniqueIds(st) && |vectors| == |ElementsOf(s, snapshot.tables)| && i < |vectors|
    requires DistinctKeys(Writes(ElementsOf(s, snapshot.tables), vectors))
    ensures var rows := ElementsOf(s, snapshot.tables);
            var now := Indexed(st, s, Writes(rows, vectors), snapshot.foreignKeys).elements;
            && rows[i].key in now
            && now[rows[i].key].payload
               == Payload(rows[i].elementType, rows[i].dataType, rows[i].comment, rows[i].text, vectors[i])
  {
    hide Indexed, UniqueIds, ElementsOf;
    var rows := ElementsOf(s, snapshot.tables);
    var writes := Writes(rows, vectors);
    ElementsAreInScope(s, snapshot.tables);
    ContentOfDistinct(writes, i);
    IndexReplacesScope(st, s, writes, snapshot.foreignKeys, rows[i].key);
  }

  /** Every table is catalogued as a table, with its comment, its text and the vector of that text. */
  lemma {:induction false} TableIsCatalogued(st: State, s: Scope, snapshot: Snapshot, vectors: seq<Vector>, i: nat)
    requires UniqueIds(st) && |vectors| == |ElementsOf(s, snapshot.tables)| && i < |snapshot.tables|
    requires DistinctKeys(Writes(ElementsOf(s, snapshot.tables), vectors))
    ensures var t, at := snapshot.tables[i], PositionOf(snapshot.tables, i);
            var now := Indexed(st, s, Writes(ElementsOf(s, snapshot.tables), vectors), snapshot.foreignKeys).elements;
            var k := Key(s.dataset, t.name, None, s.model);
            && at < |vectors| == |SnapshotTexts(snapshot.tables)| && SnapshotTexts(snapshot.tables)[at] == t.text
            && k in now && now[k].payload == Payload(TableElement, None, t.comment, t.text, vectors[at])
  {
    hide Indexed, UniqueIds, ElementsOf, SnapshotTexts;
    ElementsAt(s, snapshot.tables, i);
    TextsAreTheSnapshots(s, snapshot.tables);
    RowOfElement(st, s, snapshot, vectors, PositionOf(snapshot.tables, i));
  }

  /** And every column as a column of its table, with its type, comment, text and the vector of that text. */
  lemma {:induction false} ColumnIsCatalogued(st: State, s: Scope, snapshot: Snapshot, vectors: seq<Vector>, i: nat, j: nat)
    requires UniqueIds(st) && |vectors| == |ElementsOf(s, snapshot.tables)|
    requires i < |snapshot.tables| && j < |snapshot.tables[i].columns|
    requires DistinctKeys(Writes(ElementsOf(s, snapshot.tables), vectors))
    ensures var c, at := snapshot.tables[i].columns[j], PositionOf(snapshot.tables, i) + 1 + j;
            var now := Indexed(st, s, Writes(ElementsOf(s, snapshot.tables), vectors), snapshot.foreignKeys).elements;
            var k := Key(s.dataset, c.table, Some(c.name), s.model);
            && at < |vectors| == |SnapshotTexts(snapshot.tables)| && SnapshotTexts(snapshot.tables)[at] == c.text
            && k in now
            && now[k].payload == Payload(ColumnElement, Some(c.dataType), c.comment, c.text, vectors[at])
  {
    hide Indexed, UniqueIds, ElementsOf, SnapshotTexts;
    ElementsAt(s, snapshot.tables, i);
    TextsAreTheSnapshots(s, snapshot.tables);
    RowOfElement(st, s, snapshot, vectors, PositionOf(snapshot.tables, i) + 1 + j);
  }

  // ----- edges -----

  /** The first key that declared the edge names it. */
  ghost predicate Names(keys: seq<ForeignKey>, e: Edge, name: Option<string>) {
    exists i :: 0 <= i < |keys| && keys[i] == ForeignKey(e, name) && !Declared(keys[..i], e)
  }

  lemma {:induction false} FirstSeenIsDistinct(keys: seq<ForeignKey>)
    ensures forall i, j :: 0 <= i < j < |FirstSeen(keys)| ==> FirstSeen(keys)[i].edge != FirstSeen(keys)[j].edge
    ensures forall k: ForeignKey :: k in FirstSeen(keys) <==> Names(keys, k.edge, k.constraintName)
    decreases |keys|
  {
    if keys != [] {
      var front, last := keys[..|keys| - 1], keys[|keys| - 1];
      FirstSeenIsDistinct(front);
      assert keys == front + [last];
      forall k: ForeignKey
        ensures Names(keys, k.edge, k.constraintName) <==>
                Names(front, k.edge, k.constraintName) || (k == last && !Declared(front, k.edge))
      {
        NamesSnoc(front, last, k);
      }
      forall i | 0 <= i < |FirstSeen(front)|
        ensures Declared(front, FirstSeen(front)[i].edge)
      {
        assert FirstSeen(front)[i] in FirstSeen(front);
        var n :| 0 <= n < |front| && front[n] == FirstSeen(front)[i];
      }
    }
  }

  lemma NamesSnoc(front: seq<ForeignKey>, last: ForeignKey, k: ForeignKey)
    ensures Names(front + [last], k.edge, k.constraintName) <==>
            Names(front, k.edge, k.constraintName) || (k == last && !Declared(front, k.edge))
  {
    var keys := front + [last];
    assert keys[..|front|] == front && keys[|front|] == last;
    if Names(keys, k.edge, k.constraintName) {
      var i :| 0 <= i < |keys| && keys[i] == k && !Declared(keys[..i], k.edge);
      if i < |front| { assert keys[..i] == front[..i] && front[i] == k; }
    }
    if Names(front, k.edge, k.constraintName) {
      var i :| 0 <= i < |front| && front[i] == k && !Declared(front[..i], k.edge);
      assert keys[..i] == front[..i] && keys[i] == k;
    }
  }

  lemma {:induction false} InsertedEdge(st: State, dataset: string, keys: seq<ForeignKey>, d: string, e: Edge)
    requires forall i, j :: 0 <= i < j < |keys| ==> keys[i].edge != keys[j].edge
    ensures var now := InsertEdges(st, dataset, keys).edges;
            && ((d, e) in now <==> (d, e) in st.edges || (d == dataset && Declared(keys, e)))
            && ((d != dataset || !Declared(keys, e)) && (d, e) in st.edges ==> now[(d, e)] == st.edges[(d, e)])
            && (d == dataset && Declared(keys, e) ==> ForeignKey(e, now[(d, e)]) in keys)
    decreases |keys|
  {
    if keys != [] {
      var front, last := keys[..|keys| - 1], keys[|keys| - 1];
      InsertedEdge(st, dataset, front, d, e);
      assert keys == front + [last];
      DeclaredSnoc(front, last);
    }
  }

  /**
   The dataset's edges become the snapshot's distinct edges, each under the name of the key that
   declared it first; other datasets keep theirs. No insert meets an existing edge.
   */
  lemma IndexReplacesEdges(st: State, s: Scope, writes: seq<(Key, Payload)>, keys: seq<ForeignKey>, d: string, e: Edge)
    requires UniqueIds(st)
    ensures var now := Indexed(st, s, writes, keys).edges;
            && (d == s.dataset ==> ((d, e) in now <==> Declared(keys, e)))
            && (d == s.dataset && (d, e) in now ==> Names(keys, e, now[(d, e)]))
            && (d != s.dataset ==> ((d, e) in now <==> (d, e) in st.edges))
            && (d != s.dataset && (d, e) in now ==> now[(d, e)] == st.edges[(d, e)])
  {
    hide Names;
    var kept := DeleteStale(UpsertAll(st, writes), s, WrittenIds(st, writes));
    UpsertAllWrites(st, writes, Key("", "", None, ""));
    var cleared := kept.(edges := map x | x in kept.edges && x.0 != s.dataset :: kept.edges[x]);
    FirstSeenIsDistinct(keys);
    InsertedEdge(cleared, s.dataset, FirstSeen(keys), d, e);
    FirstSeenDeclares(keys, e);
  }

  lemma {:induction false} FirstSeenDeclares(keys: seq<ForeignKey>, e: Edge)
    ensures Declared(FirstSeen(keys), e) <==> Declared(keys, e)
    decreases |keys|
  {
    if keys != [] {
      var front, last := keys[..|keys| - 1], keys[|keys| - 1];
      assert keys == front + [last];
      FirstSeenDeclares(front, e);
      DeclaredSnoc(front, last);
      DeclaredSnoc(FirstSeen(front), last);
      assert FirstSeen(keys) == FirstSeen(front) + if Declared(front, last.edge) then [] else [last];
      assert FirstSeen(front) + [] == FirstSeen(front);
    }
  }
}
