/** The schema builder (`buildSchema` in src/datasource.ts): Xata tables become
    Budibase table definitions. The functions below are the specification the
    imperative `XataIntegration.BuildSchema` is proved against; the lemmas state
    what every built table looks like. */
module Schema {
  import opened Wrappers
  import opened Errors
  import opened Budibase
  import opened Utils

  /** A column of the Xata schema; `link` is the target table of a link column. */
  datatype XataColumn = XataColumn(name: string, columnType: ColumnType, link: Option<string>)

  /** An inbound reference: column `column` of table `table` links here. */
  datatype RevLink = RevLink(table: string, column: string)

  datatype XataTable = XataTable(name: string, columns: seq<XataColumn>, revLinks: Option<seq<RevLink>>)

  /** `buildExternalTableId(datasourceId, tableName)`, whose module is not part of this model. */
  type TableIdFn = (string, string) -> string

  /** `table.revLinks ?? []` */
  function RevLinksOf(t: XataTable): seq<RevLink>
  {
    t.revLinks.GetOr([])
  }

  /** A column that becomes a relationship: type `link` with a target table. */
  predicate IsForwardLink(c: XataColumn)
  {
    c.columnType == Link && c.link.Some?
  }

  /** A `link` column without a target: the type mapper rejects it. */
  predicate IsDangling(c: XataColumn)
  {
    c.columnType == Link && c.link.None?
  }

  // ---------------------------------------------------------------------------
  // Relationship ids

  /** The memo `relationshipUuids` together with the fresh-id oracle's counter. */
  datatype Memo = Memo(ids: map<string, Uuid>, next: Uuid)

  /** The memo key of a `(table, column)` pair. */
  function RelationshipKey(table: string, column: string): string
  {
    table + "." + column
  }

  /** `uuidForRelationship`: the remembered id of the pair, or a fresh one. */
  function UuidFor(m: Memo, table: string, column: string): (Memo, Uuid)
  {
    var key := RelationshipKey(table, column);
    if key in m.ids then (m, m.ids[key]) else (Memo(m.ids[key := m.next], m.next + 1), m.next)
  }

  /** Every remembered id was drawn from the oracle, and no two pairs share one. */
  ghost predicate MemoValid(m: Memo)
  {
    && (forall k :: k in m.ids ==> m.ids[k] < m.next)
    && (forall k, k' :: k in m.ids && k' in m.ids && k != k' ==> m.ids[k] != m.ids[k'])
  }

  /** `m'` remembers everything `m` does, with the same ids. */
  ghost predicate Extends(m: Memo, m': Memo)
  {
    && m.next <= m'.next
    && (forall k :: k in m.ids ==> k in m'.ids && m'.ids[k] == m.ids[k])
  }

  /** Exactly one fresh id is drawn per pair seen for the first time. */
  ghost predicate CountsFresh(m: Memo, m': Memo)
  {
    m'.next - m.next == |m'.ids.Keys| - |m.ids.Keys|
  }

  /** The memo hands out the same id for a pair every time, and a fresh id (one
      never handed out before) only on a pair's first use. */
  lemma UuidForMemoises(m: Memo, table: string, column: string)
    requires MemoValid(m)
    ensures var (m', id) := UuidFor(m, table, column);
      && MemoValid(m') && Extends(m, m') && CountsFresh(m, m')
      && m'.ids.Keys == m.ids.Keys + {RelationshipKey(table, column)}
      && RelationshipKey(table, column) in m'.ids && m'.ids[RelationshipKey(table, column)] == id
      && (RelationshipKey(table, column) in m.ids ==> m' == m)
      && (RelationshipKey(table, column) !in m.ids ==> id == m.next && id !in m.ids.Values && m'.next == m.next + 1)
  {
    var key := RelationshipKey(table, column);
    if key !in m.ids {
      assert m.ids[key := m.next].Keys == m.ids.Keys + {key};
    }
  }

  lemma ExtendsTransitive(m1: Memo, m2: Memo, m3: Memo)
    requires Extends(m1, m2) && Extends(m2, m3)
    ensures Extends(m1, m3)
  {
  }

  // ---------------------------------------------------------------------------
  // The field definitions the builder writes

  /** The `id` autocolumn every table gets. */
  function IdField(): FieldSchema
  {
    FieldSchema("id", StringField, Some("string"), true, None, None, None)
  }

  /** The hidden `$column` field that holds the linked record's id. */
  function ShadowField(column: string): FieldSchema
  {
    FieldSchema("$" + column, StringField, Some("string"), true, Some(false), Some(false), None)
  }

  /** The ONE_TO_MANY link field written for a forward link column. */
  function ForwardLinkField(column: string, tableId: string, id: Uuid): FieldSchema
  {
    FieldSchema(column, LinkField, None, false, None, Some(false),
      Some(LinkSpec(tableId, OneToMany, false, "$" + column, "id", id)))
  }

  /** The field written for an ordinary column of Budibase type `ft`. */
  function PlainField(c: XataColumn, ft: FieldType): FieldSchema
  {
    FieldSchema(c.name, ft, Some(Tag(c.columnType)), false, None, Some(c.columnType != Object), None)
  }

  /** The MANY_TO_ONE link field written for a `revLinks` entry. */
  function ReverseLinkField(r: RevLink, tableId: string, id: Uuid): FieldSchema
  {
    FieldSchema(r.table, LinkField, None, false, None, None,
      Some(LinkSpec(tableId, ManyToOne, true, "id", "$" + r.column, id)))
  }

  // ---------------------------------------------------------------------------
  // The build, as a specification

  datatype Build = Build(schema: TableSchema, memo: Memo)

  /** One iteration of the column loop. */
  function AddColumn(ds: string, tid: TableIdFn, tableName: string, b: Build, c: XataColumn): Result<Build, Error>
  {
    if IsForwardLink(c) then
      var (m', id) := UuidFor(b.memo, tableName, c.name);
      Success(Build(b.schema["$" + c.name := ShadowField(c.name)][c.name := ForwardLinkField(c.name, tid(ds, c.link.value), id)], m'))
    else
      match XataToBudibaseType(c.columnType)
      case Failure(e) => Failure(e)
      case Success(ft) => Success(Build(b.schema[c.name := PlainField(c, ft)], b.memo))
  }

  /** The column loop run over `cols`, stopping at the first error. */
  function AddColumns(ds: string, tid: TableIdFn, tableName: string, b: Build, cols: seq<XataColumn>): Result<Build, Error>
    decreases |cols|
  {
    if cols == [] then Success(b)
    else
      match AddColumns(ds, tid, tableName, b, cols[..|cols| - 1])
      case Failure(e) => Failure(e)
      case Success(b1) => AddColumn(ds, tid, tableName, b1, cols[|cols| - 1])
  }

  /** One iteration of the `revLinks` loop. */
  function AddRevLink(ds: string, tid: TableIdFn, b: Build, r: RevLink): Build
  {
    var (m', id) := UuidFor(b.memo, r.table, r.column);
    Build(b.schema[r.table := ReverseLinkField(r, tid(ds, r.table), id)], m')
  }

  /** The `revLinks` loop run over `revs`. */
  function AddRevLinks(ds: string, tid: TableIdFn, b: Build, revs: seq<RevLink>): Build
    decreases |revs|
  {
    if revs == [] then b
    else AddRevLink(ds, tid, AddRevLinks(ds, tid, b, revs[..|revs| - 1]), revs[|revs| - 1])
  }

  /** The definition built for one Xata table, and the memo afterwards. */
  function BuildTable(ds: string, tid: TableIdFn, t: XataTable, m: Memo): Result<(Table, Memo), Error>
  {
    match AddColumns(ds, tid, t.name, Build(map["id" := IdField()], m), t.columns)
    case Failure(e) => Failure(e)
    case Success(b) =>
      var b' := AddRevLinks(ds, tid, b, RevLinksOf(t));
      Success((Table(t.name, ["id"], "datasourceId", tid(ds, t.name), b'.schema), b'.memo))
  }

  /** The table loop run over `ts`: the `tables` dictionary and the memo. */
  function BuildTables(ds: string, tid: TableIdFn, ts: seq<XataTable>, m: Memo): Result<(map<string, Table>, Memo), Error>
    decreases |ts|
  {
    if ts == [] then Success((map[], m))
    else
      match BuildTables(ds, tid, ts[..|ts| - 1], m)
      case Failure(e) => Failure(e)
      case Success((tables, m1)) =>
        match BuildTable(ds, tid, ts[|ts| - 1], m1)
        case Failure(e) => Failure(e)
        case Success((tbl, m2)) => Success((tables[ts[|ts| - 1].name := tbl], m2))
  }

  // ---------------------------------------------------------------------------
  // One iteration at a time

  /** The column loop after one more column. */
  lemma AddColumnsSnoc(ds: string, tid: TableIdFn, tableName: string, b: Build, cols: seq<XataColumn>, j: nat)
    requires j < |cols|
    ensures AddColumns(ds, tid, tableName, b, cols[..j + 1]) ==
      match AddColumns(ds, tid, tableName, b, cols[..j])
      case Failure(e) => Failure(e)
      case Success(b1) => AddColumn(ds, tid, tableName, b1, cols[j])
  {
    assert cols[..j + 1][..j] == cols[..j];
  }

  /** Once a column fails, the whole column loop fails with its error. */
  lemma {:induction false} ColumnsFailurePersists(ds: string, tid: TableIdFn, tableName: string, b: Build, cols: seq<XataColumn>, n: nat, e: Error)
    requires n <= |cols| && AddColumns(ds, tid, tableName, b, cols[..n]) == Failure(e)
    ensures AddColumns(ds, tid, tableName, b, cols) == Failure(e)
    decreases |cols| - n
  {
    if n == |cols| {
      assert cols[..n] == cols;
    } else {
      AddColumnsSnoc(ds, tid, tableName, b, cols, n);
      ColumnsFailurePersists(ds, tid, tableName, b, cols, n + 1, e);
    }
  }

  /** The `revLinks` loop after one more entry. */
  lemma AddRevLinksSnoc(ds: string, tid: TableIdFn, b: Build, revs: seq<RevLink>, k: nat)
    requires k < |revs|
    ensures AddRevLinks(ds, tid, b, revs[..k + 1]) == AddRevLink(ds, tid, AddRevLinks(ds, tid, b, revs[..k]), revs[k])
  {
    assert revs[..k + 1][..k] == revs[..k];
  }

  /** The table loop after one more table. */
  lemma BuildTablesSnoc(ds: string, tid: TableIdFn, ts: seq<XataTable>, m: Memo, i: nat)
    requires i < |ts|
    ensures BuildTables(ds, tid, ts[..i + 1], m) ==
      match BuildTables(ds, tid, ts[..i], m)
      case Failure(e) => Failure(e)
      case Success((tables, m1)) =>
        match BuildTable(ds, tid, ts[i], m1)
        case Failure(e) => Failure(e)
        case Success((tbl, m2)) => Success((tables[ts[i].name := tbl], m2))
  {
    assert ts[..i + 1][..i] == ts[..i];
  }

  /** Once a table fails, the whole table loop fails with its error. */
  lemma {:induction false} TablesFailurePersists(ds: string, tid: TableIdFn, ts: seq<XataTable>, m: Memo, n: nat, e: Error)
    requires n <= |ts| && BuildTables(ds, tid, ts[..n], m) == Failure(e)
    ensures BuildTables(ds, tid, ts, m) == Failure(e)
    decreases |ts| - n
  {
    if n == |ts| {
      assert ts[..n] == ts;
    } else {
      BuildTablesSnoc(ds, tid, ts, m, n);
      TablesFailurePersists(ds, tid, ts, m, n + 1, e);
    }
  }
}

module SchemaProperties {
  import opened Wrappers
  import opened Errors
  import opened Budibase
  import opened Utils
  import opened Schema

  // ---------------------------------------------------------------------------
  // Which keys each part of a table writes

  function ColumnKeys(c: XataColumn): seq<string>
  {
    if IsForwardLink(c) then ["$" + c.name, c.name] else [c.name]
  }

  function ColumnsKeys(cols: seq<XataColumn>): seq<string>
    decreases |cols|
  {
    if cols == [] then [] else ColumnsKeys(cols[..|cols| - 1]) + ColumnKeys(cols[|cols| - 1])
  }

  function RevLinksKeys(revs: seq<RevLink>): seq<string>
    decreases |revs|
  {
    if revs == [] then [] else RevLinksKeys(revs[..|revs| - 1]) + [revs[|revs| - 1].table]
  }

  /** Every key the builder writes into one table's schema, in writing order. */
  function FieldKeys(t: XataTable): seq<string>
  {
    ["id"] + ColumnsKeys(t.columns) + RevLinksKeys(RevLinksOf(t))
  }

  predicate NoDuplicates(s: seq<string>)
  {
    forall i, j :: 0 <= i < j < |s| ==> s[i] != s[j]
  }

  /** The relationship keys a table's columns and `revLinks` ask the memo for. */
  function ColumnsRelKeys(tableName: string, cols: seq<XataColumn>): set<string>
    decreases |cols|
  {
    if cols == [] then {}
    else
      var last := cols[|cols| - 1];
      ColumnsRelKeys(tableName, cols[..|cols| - 1]) + (if IsForwardLink(last) then {RelationshipKey(tableName, last.name)} else {})
  }

  function RevLinksRelKeys(revs: seq<RevLink>): set<string>
    decreases |revs|
  {
    if revs == [] then {}
    else RevLinksRelKeys(revs[..|revs| - 1]) + {RelationshipKey(revs[|revs| - 1].table, revs[|revs| - 1].column)}
  }

  function TablesRelKeys(ts: seq<XataTable>): set<string>
    decreases |ts|
  {
    if ts == [] then {}
    else TablesRelKeys(ts[..|ts| - 1]) + ColumnsRelKeys(ts[|ts| - 1].name, ts[|ts| - 1].columns) + RevLinksRelKeys(RevLinksOf(ts[|ts| - 1]))
  }

  // ---------------------------------------------------------------------------
  // The shape of a built table

  /** What the builder writes for column `c` of table `tableName`, with the
      relationship id the memo `m` holds for the pair. */
  ghost predicate ColumnShaped(ds: string, tid: TableIdFn, tableName: string, schema: TableSchema, c: XataColumn, m: Memo)
  {
    if IsForwardLink(c) then
      && "$" + c.name in schema && schema["$" + c.name] == ShadowField(c.name)
      && c.name in schema && RelationshipKey(tableName, c.name) in m.ids
      && schema[c.name] == ForwardLinkField(c.name, tid(ds, c.link.value), m.ids[RelationshipKey(tableName, c.name)])
    else
      && XataToBudibaseType(c.columnType).Success?
      && c.name in schema && schema[c.name] == PlainField(c, XataToBudibaseType(c.columnType).value)
  }

  /** What the builder writes for the `revLinks` entry `r`. */
  ghost predicate RevLinkShaped(ds: string, tid: TableIdFn, schema: TableSchema, r: RevLink, m: Memo)
  {
    && r.table in schema && RelationshipKey(r.table, r.column) in m.ids
    && schema[r.table] == ReverseLinkField(r, tid(ds, r.table), m.ids[RelationshipKey(r.table, r.column)])
  }

  /** The table built for `t`: named after it, primary key `id`, holding the `id`
      autocolumn, the fields of every column and of every `revLinks` entry, and
      no other field. */
  ghost predicate TableShaped(ds: string, tid: TableIdFn, t: XataTable, tbl: Table, m: Memo)
  {
    && tbl.name == t.name && tbl.primary == ["id"] && tbl.sourceId == "datasourceId" && tbl.id == tid(ds, t.name)
    && tbl.schema.Keys == (set k | k in FieldKeys(t))
    && "id" in tbl.schema && tbl.schema["id"] == IdField()
    && (forall c :: c in t.columns ==> ColumnShaped(ds, tid, t.name, tbl.schema, c, m))
    && (forall r :: r in RevLinksOf(t) ==> RevLinkShaped(ds, tid, tbl.schema, r, m))
  }

  // ---------------------------------------------------------------------------
  // Small helpers

  lemma NoDupConcat(a: seq<string>, b: seq<string>)
    requires NoDuplicates(a + b)
    ensures NoDuplicates(a) && NoDuplicates(b)
    ensures forall k :: k in a ==> k !in b
  {
    forall i, j | 0 <= i < j < |a| ensures a[i] != a[j] {
      assert a[i] == (a + b)[i] && a[j] == (a + b)[j];
    }
    forall i, j | 0 <= i < j < |b| ensures b[i] != b[j] {
      assert b[i] == (a + b)[|a| + i] && b[j] == (a + b)[|a| + j];
    }
    forall i, j | 0 <= i < |a| && 0 <= j < |b| ensures a[i] != b[j] {
      assert a[i] == (a + b)[i] && b[j] == (a + b)[|a| + j];
    }
  }

  lemma ColumnShapedMono(ds: string, tid: TableIdFn, tableName: string, s: TableSchema, s': TableSchema, c: XataColumn, m: Memo, m': Memo)
    requires ColumnShaped(ds, tid, tableName, s, c, m)
    requires forall k :: k in ColumnKeys(c) ==> k in s' && s'[k] == s[k]
    requires Extends(m, m')
    ensures ColumnShaped(ds, tid, tableName, s', c, m')
  {
  }

  lemma RevLinkShapedMono(ds: string, tid: TableIdFn, s: TableSchema, s': TableSchema, r: RevLink, m: Memo, m': Memo)
    requires RevLinkShaped(ds, tid, s, r, m)
    requires r.table in s' && s'[r.table] == s[r.table]
    requires Extends(m, m')
    ensures RevLinkShaped(ds, tid, s', r, m')
  {
  }

  lemma TableShapedMono(ds: string, tid: TableIdFn, t: XataTable, tbl: Table, m: Memo, m': Memo)
    requires TableShaped(ds, tid, t, tbl, m)
    requires Extends(m, m')
    ensures TableShaped(ds, tid, t, tbl, m')
  {
    forall c | c in t.columns ensures ColumnShaped(ds, tid, t.name, tbl.schema, c, m') {
      ColumnShapedMono(ds, tid, t.name, tbl.schema, tbl.schema, c, m, m');
    }
    forall r | r in RevLinksOf(t) ensures RevLinkShaped(ds, tid, tbl.schema, r, m') {
      RevLinkShapedMono(ds, tid, tbl.schema, tbl.schema, r, m, m');
    }
  }

  // ---------------------------------------------------------------------------
  // The column loop

  /** The column loop fails exactly when some column is a `link` without a
      target, and then with the type mapper's error. */
  lemma {:induction false} ColumnsFailIffDangling(ds: string, tid: TableIdFn, tableName: string, b: Build, cols: seq<XataColumn>)
    ensures AddColumns(ds, tid, tableName, b, cols).Failure? <==> exists i :: 0 <= i < |cols| && IsDangling(cols[i])
    ensures AddColumns(ds, tid, tableName, b, cols).Failure? ==>
      AddColumns(ds, tid, tableName, b, cols).error == InvalidColumnType("link")
    decreases |cols|
  {
    if cols != [] {
      var init := cols[..|cols| - 1];
      ColumnsFailIffDangling(ds, tid, tableName, b, init);
      assert forall i :: 0 <= i < |init| ==> init[i] == cols[i];
      if (exists i :: 0 <= i < |cols| && IsDangling(cols[i])) && !IsDangling(cols[|cols| - 1]) {
        var i :| 0 <= i < |cols| && IsDangling(cols[i]);
        assert i < |init| && IsDangling(init[i]);
      }
    }
  }

  /** One column: its effect on the memo. */
  lemma AddColumnMemo(ds: string, tid: TableIdFn, tableName: string, b: Build, c: XataColumn)
    requires MemoValid(b.memo)
    requires AddColumn(ds, tid, tableName, b, c).Success?
    ensures var m' := AddColumn(ds, tid, tableName, b, c).value.memo;
      && MemoValid(m') && Extends(b.memo, m') && CountsFresh(b.memo, m')
      && m'.ids.Keys == b.memo.ids.Keys + (if IsForwardLink(c) then {RelationshipKey(tableName, c.name)} else {})
  {
    if IsForwardLink(c) {
      UuidForMemoises(b.memo, tableName, c.name);
    }
  }

  /** One column: its effect on the schema. */
  lemma AddColumnSchema(ds: string, tid: TableIdFn, tableName: string, b: Build, c: XataColumn)
    requires MemoValid(b.memo)
    requires AddColumn(ds, tid, tableName, b, c).Success?
    ensures var b' := AddColumn(ds, tid, tableName, b, c).value;
      && b'.schema.Keys == b.schema.Keys + (set k | k in ColumnKeys(c))
      && (forall k :: k in b.schema && k !in ColumnKeys(c) ==> b'.schema[k] == b.schema[k])
      && ColumnShaped(ds, tid, tableName, b'.schema, c, b'.memo)
  {
    if IsForwardLink(c) {
      AddForwardLinkSchema(ds, tid, tableName, b, c);
    } else {
      var b' := AddColumn(ds, tid, tableName, b, c).value;
      assert b'.schema == b.schema[c.name := PlainField(c, XataToBudibaseType(c.columnType).value)];
      assert (set k | k in ColumnKeys(c)) == {c.name};
    }
  }

  /** A forward link column writes its shadow field and its link field. */
  lemma AddForwardLinkSchema(ds: string, tid: TableIdFn, tableName: string, b: Build, c: XataColumn)
    requires MemoValid(b.memo) && IsForwardLink(c)
    ensures var b' := AddColumn(ds, tid, tableName, b, c).value;
      && b'.schema.Keys == b.schema.Keys + {"$" + c.name, c.name}
      && (forall k :: k in b.schema && k != "$" + c.name && k != c.name ==> b'.schema[k] == b.schema[k])
      && ColumnShaped(ds, tid, tableName, b'.schema, c, b'.memo)
  {
    var (m', id) := UuidFor(b.memo, tableName, c.name);
    UuidForMemoises(b.memo, tableName, c.name);
    assert "$" + c.name != c.name by { assert |"$" + c.name| == |c.name| + 1; }
    var schema := b.schema["$" + c.name := ShadowField(c.name)][c.name := ForwardLinkField(c.name, tid(ds, c.link.value), id)];
    assert AddColumn(ds, tid, tableName, b, c) == Success(Build(schema, m'));
  }

  lemma {:induction false} AddColumnsValid(ds: string, tid: TableIdFn, tableName: string, b: Build, cols: seq<XataColumn>)
    requires MemoValid(b.memo)
    requires AddColumns(ds, tid, tableName, b, cols).Success?
    ensures MemoValid(AddColumns(ds, tid, tableName, b, cols).value.memo)
    decreases |cols|
  {
    if cols != [] {
      var init := cols[..|cols| - 1];
      AddColumnsValid(ds, tid, tableName, b, init);
      AddColumnMemo(ds, tid, tableName, AddColumns(ds, tid, tableName, b, init).value, cols[|cols| - 1]);
    }
  }

  lemma {:induction false} AddColumnsExtends(ds: string, tid: TableIdFn, tableName: string, b: Build, cols: seq<XataColumn>)
    requires MemoValid(b.memo)
    requires AddColumns(ds, tid, tableName, b, cols).Success?
    ensures Extends(b.memo, AddColumns(ds, tid, tableName, b, cols).value.memo)
    decreases |cols|
  {
    if cols != [] {
      var init := cols[..|cols| - 1];
      AddColumnsValid(ds, tid, tableName, b, init);
      AddColumnsExtends(ds, tid, tableName, b, init);
      var b1 := AddColumns(ds, tid, tableName, b, init).value;
      AddColumnMemo(ds, tid, tableName, b1, cols[|cols| - 1]);
      ExtendsTransitive(b.memo, b1.memo, AddColumns(ds, tid, tableName, b, cols).value.memo);
    }
  }

  lemma {:induction false} AddColumnsCounts(ds: string, tid: TableIdFn, tableName: string, b: Build, cols: seq<XataColumn>)
    requires MemoValid(b.memo)
    requires AddColumns(ds, tid, tableName, b, cols).Success?
    ensures CountsFresh(b.memo, AddColumns(ds, tid, tableName, b, cols).value.memo)
    decreases |cols|
  {
    if cols != [] {
      var init := cols[..|cols| - 1];
      AddColumnsValid(ds, tid, tableName, b, init);
      AddColumnsCounts(ds, tid, tableName, b, init);
      AddColumnMemo(ds, tid, tableName, AddColumns(ds, tid, tableName, b, init).value, cols[|cols| - 1]);
    }
  }

  lemma {:induction false} AddColumnsKeys(ds: string, tid: TableIdFn, tableName: string, b: Build, cols: seq<XataColumn>)
    requires MemoValid(b.memo)
    requires AddColumns(ds, tid, tableName, b, cols).Success?
    ensures AddColumns(ds, tid, tableName, b, cols).value.memo.ids.Keys == b.memo.ids.Keys + ColumnsRelKeys(tableName, cols)
    decreases |cols|
  {
    if cols != [] {
      var init, last := cols[..|cols| - 1], cols[|cols| - 1];
      assert AddColumns(ds, tid, tableName, b, init).Success?;
      var b1 := AddColumns(ds, tid, tableName, b, init).value;
      assert AddColumns(ds, tid, tableName, b, cols) == AddColumn(ds, tid, tableName, b1, last);
      AddColumnsValid(ds, tid, tableName, b, init);
      AddColumnsKeys(ds, tid, tableName, b, init);
      AddColumnMemo(ds, tid, tableName, b1, last);
    }
  }

  /** The column loop keeps the memo valid, extends it, draws one fresh id per
      new pair and remembers the pair of every forward link. */
  lemma AddColumnsMemo(ds: string, tid: TableIdFn, tableName: string, b: Build, cols: seq<XataColumn>)
    requires MemoValid(b.memo)
    requires AddColumns(ds, tid, tableName, b, cols).Success?
    ensures var m' := AddColumns(ds, tid, tableName, b, cols).value.memo;
      && MemoValid(m') && Extends(b.memo, m') && CountsFresh(b.memo, m')
      && m'.ids.Keys == b.memo.ids.Keys + ColumnsRelKeys(tableName, cols)
  {
    AddColumnsValid(ds, tid, tableName, b, cols);
    AddColumnsExtends(ds, tid, tableName, b, cols);
    AddColumnsCounts(ds, tid, tableName, b, cols);
    AddColumnsKeys(ds, tid, tableName, b, cols);
  }

  /** Every key a column writes is among the keys its column loop writes. */
  lemma {:induction false} ColumnKeysIn(cols: seq<XataColumn>, c: XataColumn)
    requires c in cols
    ensures forall k :: k in ColumnKeys(c) ==> k in ColumnsKeys(cols)
    decreases |cols|
  {
    if c != cols[|cols| - 1] {
      assert c in cols[..|cols| - 1];
      ColumnKeysIn(cols[..|cols| - 1], c);
    }
  }

  lemma SetOfConcat(a: seq<string>, b: seq<string>)
    ensures (set k | k in a + b) == (set k | k in a) + (set k | k in b)
  {
  }

  /** The column loop adds exactly the columns' keys to the schema. */
  lemma {:induction false} AddColumnsSchemaKeys(ds: string, tid: TableIdFn, tableName: string, b: Build, cols: seq<XataColumn>)
    requires MemoValid(b.memo)
    requires AddColumns(ds, tid, tableName, b, cols).Success?
    ensures AddColumns(ds, tid, tableName, b, cols).value.schema.Keys == b.schema.Keys + (set k | k in ColumnsKeys(cols))
    decreases |cols|
  {
    if cols != [] {
      var init, last := cols[..|cols| - 1], cols[|cols| - 1];
      AddColumnsSchemaKeys(ds, tid, tableName, b, init);
      AddColumnsValid(ds, tid, tableName, b, init);
      AddColumnSchema(ds, tid, tableName, AddColumns(ds, tid, tableName, b, init).value, last);
      SetOfConcat(ColumnsKeys(init), ColumnKeys(last));
    }
  }

  /** A field present before the column loop and written by no column keeps
      its definition. */
  lemma {:induction false} AddColumnsPreserves(ds: string, tid: TableIdFn, tableName: string, b: Build, cols: seq<XataColumn>)
    requires MemoValid(b.memo)
    requires AddColumns(ds, tid, tableName, b, cols).Success?
    ensures forall k :: k in b.schema && k !in ColumnsKeys(cols) ==>
      k in AddColumns(ds, tid, tableName, b, cols).value.schema && AddColumns(ds, tid, tableName, b, cols).value.schema[k] == b.schema[k]
    decreases |cols|
  {
    if cols != [] {
      var init, last := cols[..|cols| - 1], cols[|cols| - 1];
      AddColumnsPreserves(ds, tid, tableName, b, init);
      AddColumnsValid(ds, tid, tableName, b, init);
      AddColumnsSchemaKeys(ds, tid, tableName, b, init);
      AddColumnSchema(ds, tid, tableName, AddColumns(ds, tid, tableName, b, init).value, last);
    }
  }

  /** Columns in shape stay in shape when only keys they do not write change
      and more ids are drawn. */
  lemma ColumnsShapedKept(ds: string, tid: TableIdFn, tableName: string, cols: seq<XataColumn>, s: TableSchema, m: Memo, s': TableSchema, m': Memo, written: seq<string>)
    requires forall c :: c in cols ==> ColumnShaped(ds, tid, tableName, s, c, m)
    requires forall c, k :: c in cols && k in ColumnKeys(c) ==> k !in written
    requires forall k :: k in s && k !in written ==> k in s' && s'[k] == s[k]
    requires Extends(m, m')
    ensures forall c :: c in cols ==> ColumnShaped(ds, tid, tableName, s', c, m')
  {
    forall c | c in cols ensures ColumnShaped(ds, tid, tableName, s', c, m') {
      ColumnShapedMono(ds, tid, tableName, s, s', c, m, m');
    }
  }

  /** When no two columns write the same key, the column loop writes for each
      column what `ColumnShaped` says. */
  lemma {:induction false} AddColumnsShaped(ds: string, tid: TableIdFn, tableName: string, b: Build, cols: seq<XataColumn>)
    requires MemoValid(b.memo)
    requires AddColumns(ds, tid, tableName, b, cols).Success?
    requires NoDuplicates(ColumnsKeys(cols))
    ensures forall c :: c in cols ==> ColumnShaped(ds, tid, tableName, AddColumns(ds, tid, tableName, b, cols).value.schema, c, AddColumns(ds, tid, tableName, b, cols).value.memo)
    decreases |cols|
  {
    if cols != [] {
      var init, last := cols[..|cols| - 1], cols[|cols| - 1];
      assert cols == init + [last];
      NoDupConcat(ColumnsKeys(init), ColumnKeys(last));
      AddColumnsShaped(ds, tid, tableName, b, init);
      AddColumnsValid(ds, tid, tableName, b, init);
      var b1 := AddColumns(ds, tid, tableName, b, init).value;
      var b' := AddColumns(ds, tid, tableName, b, cols).value;
      AddColumnMemo(ds, tid, tableName, b1, last);
      AddColumnSchema(ds, tid, tableName, b1, last);
      forall c, k | c in init && k in ColumnKeys(c) ensures k !in ColumnKeys(last) {
        ColumnKeysIn(init, c);
      }
      ColumnsShapedKept(ds, tid, tableName, init, b1.schema, b1.memo, b'.schema, b'.memo, ColumnKeys(last));
    }
  }

  // ---------------------------------------------------------------------------
  // The `revLinks` loop

  lemma AddRevLinkMemo(ds: string, tid: TableIdFn, b: Build, r: RevLink)
    requires MemoValid(b.memo)
    ensures var m' := AddRevLink(ds, tid, b, r).memo;
      && MemoValid(m') && Extends(b.memo, m') && CountsFresh(b.memo, m')
      && m'.ids.Keys == b.memo.ids.Keys + {RelationshipKey(r.table, r.column)}
  {
    UuidForMemoises(b.memo, r.table, r.column);
  }

  lemma AddRevLinkSchema(ds: string, tid: TableIdFn, b: Build, r: RevLink)
    requires MemoValid(b.memo)
    ensures var b' := AddRevLink(ds, tid, b, r);
      && b'.schema.Keys == b.schema.Keys + {r.table}
      && (forall k :: k in b.schema && k != r.table ==> b'.schema[k] == b.schema[k])
      && RevLinkShaped(ds, tid, b'.schema, r, b'.memo)
  {
    UuidForMemoises(b.memo, r.table, r.column);
  }

  lemma {:induction false} AddRevLinksValid(ds: string, tid: TableIdFn, b: Build, revs: seq<RevLink>)
    requires MemoValid(b.memo)
    ensures MemoValid(AddRevLinks(ds, tid, b, revs).memo)
    decreases |revs|
  {
    if revs != [] {
      AddRevLinksValid(ds, tid, b, revs[..|revs| - 1]);
      AddRevLinkMemo(ds, tid, AddRevLinks(ds, tid, b, revs[..|revs| - 1]), revs[|revs| - 1]);
    }
  }

  lemma {:induction false} AddRevLinksExtends(ds: string, tid: TableIdFn, b: Build, revs: seq<RevLink>)
    requires MemoValid(b.memo)
    ensures Extends(b.memo, AddRevLinks(ds, tid, b, revs).memo)
    decreases |revs|
  {
    if revs != [] {
      var b1 := AddRevLinks(ds, tid, b, revs[..|revs| - 1]);
      AddRevLinksValid(ds, tid, b, revs[..|revs| - 1]);
      AddRevLinksExtends(ds, tid, b, revs[..|revs| - 1]);
      AddRevLinkMemo(ds, tid, b1, revs[|revs| - 1]);
      ExtendsTransitive(b.memo, b1.memo, AddRevLinks(ds, tid, b, revs).memo);
    }
  }

  lemma {:induction false} AddRevLinksCounts(ds: string, tid: TableIdFn, b: Build, revs: seq<RevLink>)
    requires MemoValid(b.memo)
    ensures CountsFresh(b.memo, AddRevLinks(ds, tid, b, revs).memo)
    decreases |revs|
  {
    if revs != [] {
      AddRevLinksValid(ds, tid, b, revs[..|revs| - 1]);
      AddRevLinksCounts(ds, tid, b, revs[..|revs| - 1]);
      AddRevLinkMemo(ds, tid, AddRevLinks(ds, tid, b, revs[..|revs| - 1]), revs[|revs| - 1]);
    }
  }

  lemma {:induction false} AddRevLinksKeys(ds: string, tid: TableIdFn, b: Build, revs: seq<RevLink>)
    requires MemoValid(b.memo)
    ensures AddRevLinks(ds, tid, b, revs).memo.ids.Keys == b.memo.ids.Keys + RevLinksRelKeys(revs)
    decreases |revs|
  {
    if revs != [] {
      AddRevLinksValid(ds, tid, b, revs[..|revs| - 1]);
      AddRevLinksKeys(ds, tid, b, revs[..|revs| - 1]);
      AddRevLinkMemo(ds, tid, AddRevLinks(ds, tid, b, revs[..|revs| - 1]), revs[|revs| - 1]);
    }
  }

  /** The `revLinks` loop adds exactly the referencing tables' names to the schema. */
  lemma {:induction false} AddRevLinksSchemaKeys(ds: string, tid: TableIdFn, b: Build, revs: seq<RevLink>)
    requires MemoValid(b.memo)
    ensures AddRevLinks(ds, tid, b, revs).schema.Keys == b.schema.Keys + (set k | k in RevLinksKeys(revs))
    decreases |revs|
  {
    if revs != [] {
      var init, last := revs[..|revs| - 1], revs[|revs| - 1];
      AddRevLinksSchemaKeys(ds, tid, b, init);
      AddRevLinksValid(ds, tid, b, init);
      AddRevLinkSchema(ds, tid, AddRevLinks(ds, tid, b, init), last);
      SetOfConcat(RevLinksKeys(init), [last.table]);
    }
  }

  /** A field no `revLinks` entry names keeps its definition. */
  lemma {:induction false} AddRevLinksPreserves(ds: string, tid: TableIdFn, b: Build, revs: seq<RevLink>)
    requires MemoValid(b.memo)
    ensures forall k :: k in b.schema && k !in RevLinksKeys(revs) ==>
      k in AddRevLinks(ds, tid, b, revs).schema && AddRevLinks(ds, tid, b, revs).schema[k] == b.schema[k]
    decreases |revs|
  {
    if revs != [] {
      var init, last := revs[..|revs| - 1], revs[|revs| - 1];
      AddRevLinksPreserves(ds, tid, b, init);
      AddRevLinksValid(ds, tid, b, init);
      AddRevLinksSchemaKeys(ds, tid, b, init);
      AddRevLinkSchema(ds, tid, AddRevLinks(ds, tid, b, init), last);
    }
  }

  lemma {:induction false} RevLinkKeyIn(revs: seq<RevLink>, r: RevLink)
    requires r in revs
    ensures r.table in RevLinksKeys(revs)
    decreases |revs|
  {
    if r != revs[|revs| - 1] {
      assert r in revs[..|revs| - 1];
      RevLinkKeyIn(revs[..|revs| - 1], r);
    }
  }

  /** When no two entries come from the same table, the `revLinks` loop writes
      for each entry what `RevLinkShaped` says. */
  lemma {:induction false} AddRevLinksShaped(ds: string, tid: TableIdFn, b: Build, revs: seq<RevLink>)
    requires MemoValid(b.memo)
    requires NoDuplicates(RevLinksKeys(revs))
    ensures forall r :: r in revs ==> RevLinkShaped(ds, tid, AddRevLinks(ds, tid, b, revs).schema, r, AddRevLinks(ds, tid, b, revs).memo)
    decreases |revs|
  {
    if revs != [] {
      var init, last := revs[..|revs| - 1], revs[|revs| - 1];
      NoDupConcat(RevLinksKeys(init), [last.table]);
      AddRevLinksShaped(ds, tid, b, init);
      AddRevLinksValid(ds, tid, b, init);
      var b1 := AddRevLinks(ds, tid, b, init);
      var b' := AddRevLinks(ds, tid, b, revs);
      AddRevLinkMemo(ds, tid, b1, last);
      AddRevLinkSchema(ds, tid, b1, last);
      forall r | r in init ensures RevLinkShaped(ds, tid, b'.schema, r, b'.memo) {
        RevLinkKeyIn(init, r);
        RevLinkShapedMono(ds, tid, b1.schema, b'.schema, r, b1.memo, b'.memo);
      }
    }
  }

  // ---------------------------------------------------------------------------
  // One table

  /** Building a table fails exactly when one of its columns is a `link`
      without a target, and then with the type mapper's error. */
  lemma BuildTableFailIff(ds: string, tid: TableIdFn, t: XataTable, m: Memo)
    ensures BuildTable(ds, tid, t, m).Failure? <==> exists i :: 0 <= i < |t.columns| && IsDangling(t.columns[i])
    ensures BuildTable(ds, tid, t, m).Failure? ==> BuildTable(ds, tid, t, m).error == InvalidColumnType("link")
  {
    ColumnsFailIffDangling(ds, tid, t.name, Build(map["id" := IdField()], m), t.columns);
  }

  /** Building a table keeps the memo valid, extends it, draws one fresh id per
      new pair, and afterwards remembers every pair the table's forward links
      and `revLinks` name. */
  lemma BuildTableMemo(ds: string, tid: TableIdFn, t: XataTable, m: Memo)
    requires MemoValid(m)
    requires BuildTable(ds, tid, t, m).Success?
    ensures var m' := BuildTable(ds, tid, t, m).value.1;
      && MemoValid(m') && Extends(m, m') && CountsFresh(m, m')
      && m'.ids.Keys == m.ids.Keys + ColumnsRelKeys(t.name, t.columns) + RevLinksRelKeys(RevLinksOf(t))
  {
    var b0 := Build(map["id" := IdField()], m);
    AddColumnsMemo(ds, tid, t.name, b0, t.columns);
    var b := AddColumns(ds, tid, t.name, b0, t.columns).value;
    AddRevLinksValid(ds, tid, b, RevLinksOf(t));
    AddRevLinksExtends(ds, tid, b, RevLinksOf(t));
    AddRevLinksCounts(ds, tid, b, RevLinksOf(t));
    AddRevLinksKeys(ds, tid, b, RevLinksOf(t));
    ExtendsTransitive(m, b.memo, AddRevLinks(ds, tid, b, RevLinksOf(t)).memo);
  }

  lemma BuildTableSchemaKeys(ds: string, tid: TableIdFn, t: XataTable, m: Memo)
    requires MemoValid(m)
    requires BuildTable(ds, tid, t, m).Success?
    ensures BuildTable(ds, tid, t, m).value.0.schema.Keys == (set k | k in FieldKeys(t))
  {
    var b0 := Build(map["id" := IdField()], m);
    AddColumnsSchemaKeys(ds, tid, t.name, b0, t.columns);
    AddColumnsValid(ds, tid, t.name, b0, t.columns);
    var b := AddColumns(ds, tid, t.name, b0, t.columns).value;
    AddRevLinksSchemaKeys(ds, tid, b, RevLinksOf(t));
    SetOfConcat(["id"] + ColumnsKeys(t.columns), RevLinksKeys(RevLinksOf(t)));
    SetOfConcat(["id"], ColumnsKeys(t.columns));
  }

  lemma BuildTableColumnsShaped(ds: string, tid: TableIdFn, t: XataTable, m: Memo)
    requires MemoValid(m)
    requires BuildTable(ds, tid, t, m).Success?
    requires NoDuplicates(FieldKeys(t))
    ensures var (tbl, m') := BuildTable(ds, tid, t, m).value;
      && "id" in tbl.schema && tbl.schema["id"] == IdField()
      && forall c :: c in t.columns ==> ColumnShaped(ds, tid, t.name, tbl.schema, c, m')
  {
    var ck, rk := ColumnsKeys(t.columns), RevLinksKeys(RevLinksOf(t));
    assert FieldKeys(t) == (["id"] + ck) + rk;
    NoDupConcat(["id"] + ck, rk);
    NoDupConcat(["id"], ck);
    var b0 := Build(map["id" := IdField()], m);
    AddColumnsValid(ds, tid, t.name, b0, t.columns);
    AddColumnsPreserves(ds, tid, t.name, b0, t.columns);
    AddColumnsShaped(ds, tid, t.name, b0, t.columns);
    var b := AddColumns(ds, tid, t.name, b0, t.columns).value;
    var b' := AddRevLinks(ds, tid, b, RevLinksOf(t));
    AddRevLinksPreserves(ds, tid, b, RevLinksOf(t));
    AddRevLinksExtends(ds, tid, b, RevLinksOf(t));
    forall c | c in t.columns ensures ColumnShaped(ds, tid, t.name, b'.schema, c, b'.memo) {
      ColumnKeysIn(t.columns, c);
      ColumnShapedMono(ds, tid, t.name, b.schema, b'.schema, c, b.memo, b'.memo);
    }
  }

  lemma BuildTableRevLinksShaped(ds: string, tid: TableIdFn, t: XataTable, m: Memo)
    requires MemoValid(m)
    requires BuildTable(ds, tid, t, m).Success?
    requires NoDuplicates(FieldKeys(t))
    ensures var (tbl, m') := BuildTable(ds, tid, t, m).value;
      forall r :: r in RevLinksOf(t) ==> RevLinkShaped(ds, tid, tbl.schema, r, m')
  {
    var ck, rk := ColumnsKeys(t.columns), RevLinksKeys(RevLinksOf(t));
    assert FieldKeys(t) == (["id"] + ck) + rk;
    NoDupConcat(["id"] + ck, rk);
    var b0 := Build(map["id" := IdField()], m);
    AddColumnsValid(ds, tid, t.name, b0, t.columns);
    AddRevLinksShaped(ds, tid, AddColumns(ds, tid, t.name, b0, t.columns).value, RevLinksOf(t));
  }

  /** When no two of a table's fields share a key, the table built for it has
      exactly the shape `TableShaped` describes. */
  lemma BuildTableShaped(ds: string, tid: TableIdFn, t: XataTable, m: Memo)
    requires MemoValid(m)
    requires BuildTable(ds, tid, t, m).Success?
    requires NoDuplicates(FieldKeys(t))
    ensures TableShaped(ds, tid, t, BuildTable(ds, tid, t, m).value.0, BuildTable(ds, tid, t, m).value.1)
  {
    BuildTableSchemaKeys(ds, tid, t, m);
    BuildTableColumnsShaped(ds, tid, t, m);
    BuildTableRevLinksShaped(ds, tid, t, m);
  }

  // ---------------------------------------------------------------------------
  // All tables

  predicate HasDangling(t: XataTable)
  {
    exists i :: 0 <= i < |t.columns| && IsDangling(t.columns[i])
  }

  /** The build fails exactly when some table has a `link` column without a
      target, and then with the type mapper's error. */
  lemma {:induction false} BuildTablesFailIff(ds: string, tid: TableIdFn, ts: seq<XataTable>, m: Memo)
    ensures BuildTables(ds, tid, ts, m).Failure? <==> exists i :: 0 <= i < |ts| && HasDangling(ts[i])
    ensures BuildTables(ds, tid, ts, m).Failure? ==> BuildTables(ds, tid, ts, m).error == InvalidColumnType("link")
    decreases |ts|
  {
    if ts != [] {
      var init := ts[..|ts| - 1];
      BuildTablesFailIff(ds, tid, init, m);
      assert forall i :: 0 <= i < |init| ==> init[i] == ts[i];
      if BuildTables(ds, tid, init, m).Success? {
        BuildTableFailIff(ds, tid, ts[|ts| - 1], BuildTables(ds, tid, init, m).value.1);
      }
      if (exists i :: 0 <= i < |ts| && HasDangling(ts[i])) && !HasDangling(ts[|ts| - 1]) {
        var i :| 0 <= i < |ts| && HasDangling(ts[i]);
        assert i < |init| && HasDangling(init[i]);
      }
    }
  }

  lemma {:induction false} BuildTablesValid(ds: string, tid: TableIdFn, ts: seq<XataTable>, m: Memo)
    requires MemoValid(m)
    requires BuildTables(ds, tid, ts, m).Success?
    ensures MemoValid(BuildTables(ds, tid, ts, m).value.1)
    decreases |ts|
  {
    if ts != [] {
      BuildTablesValid(ds, tid, ts[..|ts| - 1], m);
      BuildTableMemo(ds, tid, ts[|ts| - 1], BuildTables(ds, tid, ts[..|ts| - 1], m).value.1);
    }
  }

  lemma {:induction false} BuildTablesExtends(ds: string, tid: TableIdFn, ts: seq<XataTable>, m: Memo)
    requires MemoValid(m)
    requires BuildTables(ds, tid, ts, m).Success?
    ensures Extends(m, BuildTables(ds, tid, ts, m).value.1)
    decreases |ts|
  {
    if ts != [] {
      var m1 := BuildTables(ds, tid, ts[..|ts| - 1], m).value.1;
      BuildTablesValid(ds, tid, ts[..|ts| - 1], m);
      BuildTablesExtends(ds, tid, ts[..|ts| - 1], m);
      BuildTableMemo(ds, tid, ts[|ts| - 1], m1);
      ExtendsTransitive(m, m1, BuildTables(ds, tid, ts, m).value.1);
    }
  }

  lemma {:induction false} BuildTablesCounts(ds: string, tid: TableIdFn, ts: seq<XataTable>, m: Memo)
    requires MemoValid(m)
    requires BuildTables(ds, tid, ts, m).Success?
    ensures CountsFresh(m, BuildTables(ds, tid, ts, m).value.1)
    decreases |ts|
  {
    if ts != [] {
      BuildTablesValid(ds, tid, ts[..|ts| - 1], m);
      BuildTablesCounts(ds, tid, ts[..|ts| - 1], m);
      BuildTableMemo(ds, tid, ts[|ts| - 1], BuildTables(ds, tid, ts[..|ts| - 1], m).value.1);
    }
  }

  /** The table loop's last iteration: the tables before it were built, and
      the last table is built with the memo they left and added by its name. */
  lemma BuildTablesStep(ds: string, tid: TableIdFn, ts: seq<XataTable>, m: Memo)
    requires ts != [] && BuildTables(ds, tid, ts, m).Success?
    ensures var init, last := ts[..|ts| - 1], ts[|ts| - 1];
      && BuildTables(ds, tid, init, m).Success?
      && var r1 := BuildTables(ds, tid, init, m).value;
      && BuildTable(ds, tid, last, r1.1).Success?
      && var r2 := BuildTable(ds, tid, last, r1.1).value;
      BuildTables(ds, tid, ts, m).value == (r1.0[last.name := r2.0], r2.1)
  {
  }

  /** After the build the memo holds exactly the pairs named by some forward
      link or `revLinks` entry (besides what it held before). */
  lemma {:induction false} BuildTablesMemoKeys(ds: string, tid: TableIdFn, ts: seq<XataTable>, m: Memo)
    requires MemoValid(m)
    requires BuildTables(ds, tid, ts, m).Success?
    ensures BuildTables(ds, tid, ts, m).value.1.ids.Keys == m.ids.Keys + TablesRelKeys(ts)
    decreases |ts|
  {
    if ts != [] {
      var init, last := ts[..|ts| - 1], ts[|ts| - 1];
      BuildTablesStep(ds, tid, ts, m);
      BuildTablesValid(ds, tid, init, m);
      BuildTablesMemoKeys(ds, tid, init, m);
      BuildTableMemo(ds, tid, last, BuildTables(ds, tid, init, m).value.1);
    }
  }

  /** One table definition per Xata table name, and no other. */
  lemma {:induction false} BuildTablesNames(ds: string, tid: TableIdFn, ts: seq<XataTable>, m: Memo)
    requires BuildTables(ds, tid, ts, m).Success?
    ensures forall name :: name in BuildTables(ds, tid, ts, m).value.0 <==> exists i :: 0 <= i < |ts| && ts[i].name == name
    decreases |ts|
  {
    if ts != [] {
      var init, last := ts[..|ts| - 1], ts[|ts| - 1];
      BuildTablesStep(ds, tid, ts, m);
      BuildTablesNames(ds, tid, init, m);
      var before, after := BuildTables(ds, tid, init, m).value.0, BuildTables(ds, tid, ts, m).value.0;
      assert after.Keys == before.Keys + {last.name};
      forall name | exists i :: 0 <= i < |ts| && ts[i].name == name
        ensures name in after
      {
        var i :| 0 <= i < |ts| && ts[i].name == name;
        if i < |init| { assert init[i] == ts[i]; }
      }
      forall name | name in after
        ensures exists i :: 0 <= i < |ts| && ts[i].name == name
      {
        if name != last.name {
          var i :| 0 <= i < |init| && init[i].name == name;
          assert ts[i] == init[i];
        }
      }
    }
  }

  predicate DistinctNames(ts: seq<XataTable>)
  {
    forall i, j :: 0 <= i < j < |ts| ==> ts[i].name != ts[j].name
  }

  /** Adding another table and drawing more ids keeps a built table's shape. */
  lemma ShapedKept(ds: string, tid: TableIdFn, t: XataTable, tables: map<string, Table>, name: string, tbl: Table, m: Memo, m': Memo)
    requires t.name in tables && TableShaped(ds, tid, t, tables[t.name], m)
    requires Extends(m, m') && t.name != name
    ensures t.name in tables[name := tbl] && TableShaped(ds, tid, t, tables[name := tbl][t.name], m')
  {
    TableShapedMono(ds, tid, t, tables[t.name], m, m');
  }

  /** One more iteration of the table loop keeps every table built so far in
      shape, and adds the last one in shape. */
  lemma ShapedAfterStep(ds: string, tid: TableIdFn, ts: seq<XataTable>, init: seq<XataTable>, tables: map<string, Table>, m: Memo, tbl: Table, m': Memo)
    requires ts != [] && init == ts[..|ts| - 1] && DistinctNames(ts) && Extends(m, m')
    requires forall i :: 0 <= i < |init| ==> init[i].name in tables && TableShaped(ds, tid, init[i], tables[init[i].name], m)
    requires TableShaped(ds, tid, ts[|ts| - 1], tbl, m')
    ensures forall i :: 0 <= i < |ts| ==>
      ts[i].name in tables[ts[|ts| - 1].name := tbl] && TableShaped(ds, tid, ts[i], tables[ts[|ts| - 1].name := tbl][ts[i].name], m')
  {
    var last := ts[|ts| - 1];
    forall i | 0 <= i < |ts|
      ensures ts[i].name in tables[last.name := tbl] && TableShaped(ds, tid, ts[i], tables[last.name := tbl][ts[i].name], m')
    {
      if i < |ts| - 1 {
        assert init[i] == ts[i] && ts[i].name != last.name;
        ShapedKept(ds, tid, ts[i], tables, last.name, tbl, m, m');
      }
    }
  }

  /** When table names are distinct and no table has two fields with the same
      key, every table is built with the shape `TableShaped` describes, relative
      to the final memo. */
  lemma {:induction false} BuildTablesShaped(ds: string, tid: TableIdFn, ts: seq<XataTable>, m: Memo)
    requires MemoValid(m)
    requires BuildTables(ds, tid, ts, m).Success?
    requires DistinctNames(ts)
    requires forall i :: 0 <= i < |ts| ==> NoDuplicates(FieldKeys(ts[i]))
    ensures var (tables, m') := BuildTables(ds, tid, ts, m).value;
      forall i :: 0 <= i < |ts| ==> ts[i].name in tables && TableShaped(ds, tid, ts[i], tables[ts[i].name], m')
    decreases |ts|
  {
    if ts != [] {
      var init, last := ts[..|ts| - 1], ts[|ts| - 1];
      BuildTablesStep(ds, tid, ts, m);
      var r1 := BuildTables(ds, tid, init, m).value;
      var r2 := BuildTable(ds, tid, last, r1.1).value;
      var tables, m' := r1.0[last.name := r2.0], r2.1;
      assert DistinctNames(init) && forall i :: 0 <= i < |init| ==> NoDuplicates(FieldKeys(init[i])) by {
        assert forall i :: 0 <= i < |init| ==> init[i] == ts[i];
      }
      BuildTablesShaped(ds, tid, init, m);
      BuildTablesValid(ds, tid, init, m);
      BuildTableMemo(ds, tid, last, r1.1);
      BuildTableShaped(ds, tid, last, r1.1);
      ShapedAfterStep(ds, tid, ts, init, r1.0, r1.1, r2.0, m');
    }
  }

  /** Two `revLinks` entries from one table (two link columns of that table
      aimed at this one) write the same field: the later entry wins, so the
      reverse field carries the second pair's id and not the first's. */
  lemma DoubleLinkLaterWins(ds: string, tid: TableIdFn, b: Build, r1: RevLink, r2: RevLink)
    requires MemoValid(b.memo)
    requires r1.table == r2.table && r1.column != r2.column
    ensures var b' := AddRevLinks(ds, tid, b, [r1, r2]);
      && RelationshipKey(r1.table, r1.column) in b'.memo.ids && RelationshipKey(r2.table, r2.column) in b'.memo.ids
      && r1.table in b'.schema && b'.schema[r1.table].link.Some?
      && b'.schema[r1.table].link.value.relationshipId == b'.memo.ids[RelationshipKey(r2.table, r2.column)]
      && b'.schema[r1.table].link.value.relationshipId != b'.memo.ids[RelationshipKey(r1.table, r1.column)]
  {
    var k1, k2 := RelationshipKey(r1.table, r1.column), RelationshipKey(r2.table, r2.column);
    KeysOfOneTableDiffer(r1.table, r1.column, r2.column);
    var b1 := AddRevLink(ds, tid, b, r1);
    var (m2, id2) := UuidFor(b1.memo, r2.table, r2.column);
    var b2 := Build(b1.schema[r2.table := ReverseLinkField(r2, tid(ds, r2.table), id2)], m2);
    assert AddRevLinks(ds, tid, b, [r1, r2]) == b2 by {
      assert [r1, r2][..1] == [r1] && [r1][..0] == [];
      assert AddRevLinks(ds, tid, b, [r1]) == b1;
    }
    UuidForMemoises(b.memo, r1.table, r1.column);
    UuidForMemoises(b1.memo, r2.table, r2.column);
    assert k1 in m2.ids && m2.ids[k2] == id2;
  }

  /** The memo keys of two different columns of one table differ. */
  lemma KeysOfOneTableDiffer(table: string, c1: string, c2: string)
    requires c1 != c2
    ensures RelationshipKey(table, c1) != RelationshipKey(table, c2)
  {
    assert RelationshipKey(table, c1)[|table| + 1..] == c1;
    assert RelationshipKey(table, c2)[|table| + 1..] == c2;
  }

  /** Table `ts[k]`, when no later table takes its name and its own field keys
      are distinct, is built with the shape `TableShaped` describes, relative to
      the final memo, whatever the other tables hold. */
  lemma {:induction false} BuildTablesShapedAt(ds: string, tid: TableIdFn, ts: seq<XataTable>, m: Memo, k: nat)
    requires MemoValid(m)
    requires BuildTables(ds, tid, ts, m).Success?
    requires k < |ts| && NoDuplicates(FieldKeys(ts[k]))
    requires forall j :: k < j < |ts| ==> ts[j].name != ts[k].name
    ensures var (tables, m') := BuildTables(ds, tid, ts, m).value;
      ts[k].name in tables && TableShaped(ds, tid, ts[k], tables[ts[k].name], m')
    decreases |ts|
  {
    var init, last := ts[..|ts| - 1], ts[|ts| - 1];
    BuildTablesStep(ds, tid, ts, m);
    BuildTablesValid(ds, tid, init, m);
    var r1 := BuildTables(ds, tid, init, m).value;
    var r2 := BuildTable(ds, tid, last, r1.1).value;
    var tables := r1.0[last.name := r2.0];
    assert BuildTables(ds, tid, ts, m).value == (tables, r2.1);
    assert ts[k].name in tables && TableShaped(ds, tid, ts[k], tables[ts[k].name], r2.1) by {
      if k == |ts| - 1 {
        BuildTableShaped(ds, tid, last, r1.1);
      } else {
        assert init[k] == ts[k];
        BuildTablesShapedAt(ds, tid, init, m, k);
        BuildTableMemo(ds, tid, last, r1.1);
        ShapedKept(ds, tid, ts[k], r1.0, last.name, r2.0, r1.1, r2.1);
      }
    }
  }

  /** The two sides of one relationship agree: when column `c` of table `a` is a
      forward link and table `b` lists `(a, c)` among its `revLinks`, the link
      field of `a` and the reverse link field of `b` carry the same relationship
      id. Forward links of different columns carry different ids. */
  lemma ForwardAndReverseShareId(ds: string, tid: TableIdFn, ts: seq<XataTable>, m: Memo, a: XataTable, b: XataTable, c: XataColumn)
    requires MemoValid(m)
    requires BuildTables(ds, tid, ts, m).Success?
    requires DistinctNames(ts)
    requires a in ts && b in ts && NoDuplicates(FieldKeys(a)) && NoDuplicates(FieldKeys(b))
    requires c in a.columns && IsForwardLink(c) && RevLink(a.name, c.name) in RevLinksOf(b)
    ensures var tables := BuildTables(ds, tid, ts, m).value.0;
      && a.name in tables && c.name in tables[a.name].schema && b.name in tables && a.name in tables[b.name].schema
      && tables[a.name].schema[c.name].link.Some? && tables[b.name].schema[a.name].link.Some?
      && tables[a.name].schema[c.name].link.value.relationshipId == tables[b.name].schema[a.name].link.value.relationshipId
  {
    var i :| 0 <= i < |ts| && ts[i] == a;
    var j :| 0 <= j < |ts| && ts[j] == b;
    BuildTablesShapedAt(ds, tid, ts, m, i);
    BuildTablesShapedAt(ds, tid, ts, m, j);
    var tables := BuildTables(ds, tid, ts, m).value.0;
    assert TableShaped(ds, tid, a, tables[a.name], BuildTables(ds, tid, ts, m).value.1);
    assert TableShaped(ds, tid, b, tables[b.name], BuildTables(ds, tid, ts, m).value.1);
  }

  lemma DistinctForwardIds(ds: string, tid: TableIdFn, ts: seq<XataTable>, m: Memo, a: XataTable, c: XataColumn, a': XataTable, c': XataColumn)
    requires MemoValid(m)
    requires BuildTables(ds, tid, ts, m).Success?
    requires DistinctNames(ts)
    requires a in ts && NoDuplicates(FieldKeys(a)) && c in a.columns && IsForwardLink(c)
    requires a' in ts && NoDuplicates(FieldKeys(a')) && c' in a'.columns && IsForwardLink(c')
    requires RelationshipKey(a.name, c.name) != RelationshipKey(a'.name, c'.name)
    ensures var tables := BuildTables(ds, tid, ts, m).value.0;
      && a.name in tables && c.name in tables[a.name].schema && a'.name in tables && c'.name in tables[a'.name].schema
      && tables[a.name].schema[c.name].link.Some? && tables[a'.name].schema[c'.name].link.Some?
      && tables[a.name].schema[c.name].link.value.relationshipId != tables[a'.name].schema[c'.name].link.value.relationshipId
  {
    BuildTablesValid(ds, tid, ts, m);
    var i :| 0 <= i < |ts| && ts[i] == a;
    var j :| 0 <= j < |ts| && ts[j] == a';
    BuildTablesShapedAt(ds, tid, ts, m, i);
    BuildTablesShapedAt(ds, tid, ts, m, j);
    var tables := BuildTables(ds, tid, ts, m).value.0;
    assert TableShaped(ds, tid, a, tables[a.name], BuildTables(ds, tid, ts, m).value.1);
    assert TableShaped(ds, tid, a', tables[a'.name], BuildTables(ds, tid, ts, m).value.1);
  }
}
