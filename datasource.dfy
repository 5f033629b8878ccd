/** The `XataIntegration` class (src/datasource.ts): its state (the built tables,
    the schema errors and the binding-identifier counter), the schema build that
    fills the tables, and the `query` entry point that dispatches a Budibase
    query to the remote table and translates the answer. */
module Datasource {
  import opened Wrappers
  import opened Errors
  import opened Json
  import opened Budibase
  import opened Utils
  import opened Schema
  import opened Fields
  import opened Filter
  import opened Records
  import opened QueryHelpers

  // ---------------------------------------------------------------------------
  // Decimal rendering of the binding index

  function DigitChar(d: nat): char
    requires d < 10
  {
    (d + '0' as int) as char
  }

  /** The decimal digits of `n`, as a template literal prints it. */
  function Decimal(n: nat): string
  {
    if n < 10 then [DigitChar(n)] else Decimal(n / 10) + [DigitChar(n % 10)]
  }

  // ---------------------------------------------------------------------------
  // Fresh ids

  /** The `uuid()` oracle: every call hands out a number never handed out
      before. */
  class UuidSource {
    var next: Uuid

    constructor()
      ensures next == 0
    {
      next := 0;
    }

    method Fresh() returns (id: Uuid)
      modifies this
      ensures id == old(next) && next == old(next) + 1
    {
      id := next;
      next := next + 1;
    }
  }

  /** `uuidForRelationship`: the id remembered for `(table, column)`, or a fresh
      one, remembered from then on. */
  method UuidForRelationship(memo: map<string, Uuid>, table: string, column: string, ids: UuidSource)
    returns (memo': map<string, Uuid>, id: Uuid)
    modifies ids
    ensures (Memo(memo', ids.next), id) == UuidFor(Memo(memo, old(ids.next)), table, column)
  {
    var key := RelationshipKey(table, column);
    if key in memo {
      return memo, memo[key];
    }
    id := ids.Fresh();
    memo' := memo[key := id];
  }

  /** The column loop of `buildSchema` for table `t`, starting from the `id`
      field: the schema built, or the error of the first column that has no
      Budibase type. */
  method AddColumnsStep(ds: string, tid: TableIdFn, t: XataTable, memo: map<string, Uuid>, ids: UuidSource)
    returns (r: Result<TableSchema, Error>, memo': map<string, Uuid>)
    modifies ids
    ensures var spec := AddColumns(ds, tid, t.name, Build(map["id" := IdField()], Memo(memo, old(ids.next))), t.columns);
      && (spec.Failure? <==> r.Failure?)
      && (r.Failure? ==> spec.error == r.error)
      && (r.Success? ==> spec.value == Build(r.value, Memo(memo', ids.next)))
  {
    ghost var b := Build(map["id" := IdField()], Memo(memo, ids.next));
    var schema: TableSchema := map["id" := IdField()];
    memo' := memo;
    var j := 0;
    while j < |t.columns|
      invariant 0 <= j <= |t.columns|
      invariant AddColumns(ds, tid, t.name, b, t.columns[..j]) == Success(Build(schema, Memo(memo', ids.next)))
    {
      AddColumnsSnoc(ds, tid, t.name, b, t.columns, j);
      var c := t.columns[j];
      if IsForwardLink(c) {
        var id;
        memo', id := UuidForRelationship(memo', t.name, c.name, ids);
        schema := schema["$" + c.name := ShadowField(c.name)][c.name := ForwardLinkField(c.name, tid(ds, c.link.value), id)];
      } else {
        var ft := XataToBudibaseType(c.columnType);
        if ft.Failure? {
          ColumnsFailurePersists(ds, tid, t.name, b, t.columns, j + 1, ft.error);
          return Failure(ft.error), memo';
        }
        schema := schema[c.name := PlainField(c, ft.value)];
      }
      j := j + 1;
    }
    assert t.columns[..j] == t.columns;
    r := Success(schema);
  }

  /** The `revLinks` loop of `buildSchema`: a MANY_TO_ONE field per entry. */
  method AddRevLinksStep(ds: string, tid: TableIdFn, schema: TableSchema, revs: seq<RevLink>, memo: map<string, Uuid>, ids: UuidSource)
    returns (schema': TableSchema, memo': map<string, Uuid>)
    modifies ids
    ensures AddRevLinks(ds, tid, Build(schema, Memo(memo, old(ids.next))), revs) == Build(schema', Memo(memo', ids.next))
  {
    ghost var b := Build(schema, Memo(memo, ids.next));
    schema', memo' := schema, memo;
    var k := 0;
    while k < |revs|
      invariant 0 <= k <= |revs|
      invariant AddRevLinks(ds, tid, b, revs[..k]) == Build(schema', Memo(memo', ids.next))
    {
      AddRevLinksSnoc(ds, tid, b, revs, k);
      var rl := revs[k];
      var id;
      memo', id := UuidForRelationship(memo', rl.table, rl.column, ids);
      schema' := schema'[rl.table := ReverseLinkField(rl, tid(ds, rl.table), id)];
      k := k + 1;
    }
    assert revs[..k] == revs;
  }

  /** One iteration of the table loop of `buildSchema`. */
  method BuildTableStep(ds: string, tid: TableIdFn, t: XataTable, memo: map<string, Uuid>, ids: UuidSource)
    returns (r: Result<Table, Error>, memo': map<string, Uuid>)
    modifies ids
    ensures var spec := BuildTable(ds, tid, t, Memo(memo, old(ids.next)));
      && (spec.Failure? <==> r.Failure?)
      && (r.Failure? ==> spec.error == r.error)
      && (r.Success? ==> spec.value == (r.value, Memo(memo', ids.next)))
  {
    var columns;
    columns, memo' := AddColumnsStep(ds, tid, t, memo, ids);
    if columns.Failure? {
      return Failure(columns.error), memo';
    }
    var schema;
    schema, memo' := AddRevLinksStep(ds, tid, columns.value, RevLinksOf(t), memo', ids);
    r := Success(Table(t.name, ["id"], "datasourceId", tid(ds, t.name), schema));
  }

  // ---------------------------------------------------------------------------
  // The remote table

  /** A call made on a remote table, with what the remote answered. */
  datatype Call =
    | GetManyCall(columns: seq<SelectItem>, filter: Option<XataFilter>, sort: (string, XataSortDirection), page: Option<Pagination>, records: seq<XataRecord>)
    | CreateOrReplaceCall(id: Value, body: map<string, Value>, record: XataRecord)
    | DeleteCall(key: string)

  /** A table of the remote database. Its answers are not modelled: each method
      records the call it receives together with whatever it returns. */
  class TableHandle {
    var calls: seq<Call>

    constructor()
      ensures calls == []
    {
      calls := [];
    }

    /** `select(columns).filter(filter).sort(...sort).getMany({ pagination })` */
    method GetMany(columns: seq<SelectItem>, filter: Option<XataFilter>, sort: (string, XataSortDirection), page: Option<Pagination>)
      returns (records: seq<XataRecord>)
      modifies this
      ensures calls == old(calls) + [GetManyCall(columns, filter, sort, page, records)]
    {
      records :| true;
      calls := calls + [GetManyCall(columns, filter, sort, page, records)];
    }

    method CreateOrReplace(id: Value, body: map<string, Value>) returns (record: XataRecord)
      modifies this
      ensures calls == old(calls) + [CreateOrReplaceCall(id, body, record)]
    {
      record :| true;
      calls := calls + [CreateOrReplaceCall(id, body, record)];
    }

    method DeleteOrThrow(key: string)
      modifies this
      ensures calls == old(calls) + [DeleteCall(key)]
    {
      calls := calls + [DeleteCall(key)];
    }
  }

  // ---------------------------------------------------------------------------
  // What `query` does, as a specification

  /** A READ: the resolved columns, filter, sort and page are fetched; an empty
      answer is fetched again without filter and page when the query asks for
      all records on an empty filter; the answer is translated. */
  ghost predicate ReadDone(q: QueryJson, mime: MimeFn, before: seq<Call>, after: seq<Call>, r: Result<seq<Row>, Error>)
  {
    match QueryFields(q)
    case Failure(e) => r == Failure(e) && after == before
    case Success(fr) =>
      var sort := ParseQuerySort(q.sort, q.tableSchema);
      var filter := ParseQueryFilter(q.filters, fr.mapping, fr.reverse);
      && |after| > |before| && after[..|before|] == before
      && var first := after[|before|];
      && first.GetManyCall?
      && first == GetManyCall(fr.fields, Some(filter), sort, Some(ParseQueryPagination(q.paginate)), first.records)
      && if first.records == [] && q.filters.onEmptyFilter == Some(ReturnAll) then
           && |after| == |before| + 2
           && var second := after[|before| + 1];
           && second.GetManyCall?
           && second == GetManyCall(fr.fields, None, sort, None, second.records)
           && r == Success(ToBudibaseRecords(mime, second.records, fr.mapping, fr.reverse))
         else
           && |after| == |before| + 1
           && r == Success(ToBudibaseRecords(mime, first.records, fr.mapping, fr.reverse))
  }

  /** A CREATE or UPDATE: the body, with relationship keys renamed, is written
      under the query's record id, and the written record is translated. */
  ghost predicate WriteDone(q: QueryJson, mime: MimeFn, before: seq<Call>, after: seq<Call>, r: Result<seq<Row>, Error>)
  {
    match QueryFields(q)
    case Failure(e) => r == Failure(e) && after == before
    case Success(fr) =>
      && |after| == |before| + 1 && after[..|before|] == before
      && var call := after[|before|];
      && call.CreateOrReplaceCall?
      && call == CreateOrReplaceCall(ParseQueryRecordId(q), ResolveBody(q.relationships, q.body), call.record)
      && r == Success(ToBudibaseRecords(mime, [call.record], fr.mapping, fr.reverse))
  }

  /** A DELETE: refused without a string id, otherwise the record is deleted. */
  ghost predicate DeleteDone(q: QueryJson, before: seq<Call>, after: seq<Call>, r: Result<seq<Row>, Error>)
  {
    var id := ParseQueryRecordId(q);
    if !id.Str? then r == Failure(MissingRecordId) && after == before
    else after == before + [DeleteCall(id.s)] && r == Success([map["deleted" := Value.Bool(true)]])
  }

  /** The effect of `query` on the table the query names. */
  ghost predicate Dispatched(q: QueryJson, mime: MimeFn, before: seq<Call>, after: seq<Call>, r: Result<seq<Row>, Error>)
  {
    match q.operation
    case Read => ReadDone(q, mime, before, after, r)
    case Create => WriteDone(q, mime, before, after, r)
    case Update => WriteDone(q, mime, before, after, r)
    case Delete => DeleteDone(q, before, after, r)
    case OtherOperation(name) => r == Failure(UnsupportedOperation(name)) && after == before
  }

  // ---------------------------------------------------------------------------
  // The integration

  /** `finaliseExternalTables`, whose module is not part of this model: the
      final tables and the schema errors, from the built tables and the
      existing entities. */
  type FinaliseFn = (map<string, Table>, map<string, Table>) -> (map<string, Table>, map<string, string>)

  class XataIntegration {
    var tables: map<string, Table>
    var schemaErrors: map<string, string>
    var bindingIdentifierIndex: nat

    /** The tables of the remote database, by name (`client.db`). */
    const db: map<string, TableHandle>

    ghost predicate Valid()
      reads this
    {
      bindingIdentifierIndex >= 1
    }

    constructor(db: map<string, TableHandle>)
      ensures Valid()
      ensures tables == map[] && schemaErrors == map[] && bindingIdentifierIndex == 1 && this.db == db
    {
      tables := map[];
      schemaErrors := map[];
      bindingIdentifierIndex := 1;
      this.db := db;
    }

    /** `getBindingIdentifier`: `$` and the current index, which then moves on. */
    method GetBindingIdentifier() returns (id: string)
      requires Valid()
      modifies this
      ensures Valid()
      ensures id == "$" + Decimal(old(bindingIdentifierIndex))
      ensures bindingIdentifierIndex == old(bindingIdentifierIndex) + 1
      ensures tables == old(tables) && schemaErrors == old(schemaErrors)
    {
      id := "$" + Decimal(bindingIdentifierIndex);
      bindingIdentifierIndex := bindingIdentifierIndex + 1;
    }

    /** `buildSchema`: builds a definition for every table of the remote schema
        `xataTables`, drawing relationship ids from `ids`, and stores what
        `finalise` makes of them. A column whose type has no Budibase
        counterpart stops the build with the type mapper's error and leaves
        the stored tables as they were. */
    method BuildSchema(ds: string, entities: map<string, Table>, xataTables: seq<XataTable>, tid: TableIdFn, finalise: FinaliseFn, ids: UuidSource)
      returns (r: Result<(), Error>)
      modifies this, ids
      ensures var built := BuildTables(ds, tid, xataTables, Memo(map[], old(ids.next)));
        && (built.Failure? ==> r == Failure(built.error) && tables == old(tables) && schemaErrors == old(schemaErrors))
        && (built.Success? ==> r == Success(()) && (tables, schemaErrors) == finalise(built.value.0, entities) && ids.next == built.value.1.next)
      ensures bindingIdentifierIndex == old(bindingIdentifierIndex)
    {
      ghost var m0 := Memo(map[], ids.next);
      var memo: map<string, Uuid> := map[];
      var built: map<string, Table> := map[];
      var i := 0;
      while i < |xataTables|
        invariant 0 <= i <= |xataTables|
        invariant BuildTables(ds, tid, xataTables[..i], m0) == Success((built, Memo(memo, ids.next)))
        invariant tables == old(tables) && schemaErrors == old(schemaErrors) && bindingIdentifierIndex == old(bindingIdentifierIndex)
      {
        BuildTablesSnoc(ds, tid, xataTables, m0, i);
        var t := xataTables[i];
        var table;
        table, memo := BuildTableStep(ds, tid, t, memo, ids);
        if table.Failure? {
          TablesFailurePersists(ds, tid, xataTables, m0, i + 1, table.error);
          return Failure(table.error);
        }
        built := built[t.name := table.value];
        i := i + 1;
      }
      assert xataTables[..i] == xataTables;
      var final := finalise(built, entities);
      tables := final.0;
      schemaErrors := final.1;
      r := Success(());
    }

    /** `query`: the operation of `q` carried out on the remote table it names. */
    method Query(q: QueryJson, mime: MimeFn) returns (r: Result<seq<Row>, Error>)
      modifies db.Values
      ensures q.entityId !in db ==> r == Failure(UnknownTable(q.entityId))
      ensures q.entityId in db ==> Dispatched(q, mime, old(db[q.entityId].calls), db[q.entityId].calls, r)
      ensures forall h :: h in db.Values && (q.entityId !in db || h != db[q.entityId]) ==> h.calls == old(h.calls)
    {
      if q.entityId !in db {
        return Failure(UnknownTable(q.entityId));
      }
      var table := db[q.entityId];
      match q.operation {
        case Read =>
          r := Read(q, mime, table);
        case Create =>
          r := Write(q, mime, table);
        case Update =>
          r := Write(q, mime, table);
        case Delete =>
          var id := ParseQueryRecordId(q);
          if !id.Str? {
            return Failure(MissingRecordId);
          }
          table.DeleteOrThrow(id.s);
          r := Success([map["deleted" := Value.Bool(true)]]);
        case OtherOperation(name) =>
          r := Failure(UnsupportedOperation(name));
      }
    }

    /** The READ branch of `query`. */
    method Read(q: QueryJson, mime: MimeFn, table: TableHandle) returns (r: Result<seq<Row>, Error>)
      modifies table
      ensures ReadDone(q, mime, old(table.calls), table.calls, r)
    {
      var parsed := QueryFields(q);
      if parsed.Failure? {
        return Failure(parsed.error);
      }
      var fr := parsed.value;
      var sort := ParseQuerySort(q.sort, q.tableSchema);
      var records := table.GetMany(fr.fields, Some(ParseQueryFilter(q.filters, fr.mapping, fr.reverse)), sort, Some(ParseQueryPagination(q.paginate)));
      if |records| == 0 && q.filters.onEmptyFilter == Some(ReturnAll) {
        records := table.GetMany(fr.fields, None, sort, None);
      }
      r := Success(ToBudibaseRecords(mime, records, fr.mapping, fr.reverse));
    }

    /** The CREATE and UPDATE branch of `query`. */
    method Write(q: QueryJson, mime: MimeFn, table: TableHandle) returns (r: Result<seq<Row>, Error>)
      modifies table
      ensures WriteDone(q, mime, old(table.calls), table.calls, r)
    {
      var id := ParseQueryRecordId(q);
      var parsed := QueryFields(q);
      if parsed.Failure? {
        return Failure(parsed.error);
      }
      var fr := parsed.value;
      var body := ResolveBody(q.relationships, q.body);
      var record := table.CreateOrReplace(id, body);
      r := Success(ToBudibaseRecords(mime, [record], fr.mapping, fr.reverse));
    }
  }
}

module DatasourceProperties {
  import opened Wrappers
  import opened Errors
  import opened Budibase
  import opened Fields
  import opened Records
  import opened RecordsProperties
  import opened Datasource

  // ---------------------------------------------------------------------------
  // Binding identifiers

  predicate IsDigit(ch: char)
  {
    '0' <= ch <= '9'
  }

  /** Reads a string of decimal digits back as a number. */
  function DecimalValue(s: string): nat
    requires forall i :: 0 <= i < |s| ==> IsDigit(s[i])
  {
    if s == [] then 0
    else
      assert IsDigit(s[|s| - 1]);
      DecimalValue(s[..|s| - 1]) * 10 + (s[|s| - 1] as int - '0' as int)
  }

  /** The rendering is made of digits only, and reads back as the number. */
  lemma {:induction false} DecimalRoundTrip(n: nat)
    ensures forall i :: 0 <= i < |Decimal(n)| ==> IsDigit(Decimal(n)[i])
    ensures DecimalValue(Decimal(n)) == n
  {
    if n >= 10 {
      DecimalRoundTrip(n / 10);
      var s := Decimal(n);
      assert s[..|s| - 1] == Decimal(n / 10);
    }
  }

  /** Different indexes give different binding identifiers, so the
      identifiers handed out by successive calls never clash. */
  lemma BindingIdentifiersDistinct(a: nat, b: nat)
    requires a != b
    ensures "$" + Decimal(a) != "$" + Decimal(b)
  {
    DecimalRoundTrip(a);
    DecimalRoundTrip(b);
    assert ("$" + Decimal(a))[1..] == Decimal(a);
    assert ("$" + Decimal(b))[1..] == Decimal(b);
  }

  // ---------------------------------------------------------------------------
  // Queries

  /** `query` only ever appends to the calls made on the table, at most two
      for a READ and at most one otherwise. */
  lemma DispatchedAppends(q: QueryJson, mime: MimeFn, before: seq<Call>, after: seq<Call>, r: Result<seq<Row>, Error>)
    requires Dispatched(q, mime, before, after, r)
    ensures |before| <= |after| && after[..|before|] == before
    ensures |after| <= |before| + (if q.operation == Read then 2 else 1)
  {
  }

  /** Every row a READ returns has exactly the columns the query selected
      (the keys of its field mapping). */
  lemma ReadRowsShape(q: QueryJson, mime: MimeFn, before: seq<Call>, after: seq<Call>, r: Result<seq<Row>, Error>)
    requires ReadDone(q, mime, before, after, r) && r.Success?
    ensures QueryFields(q).Success?
    ensures forall row :: row in r.value ==> row.Keys == QueryFields(q).value.mapping.Keys
  {
    var fr := QueryFields(q).value;
    var first := after[|before|];
    if first.records == [] && q.filters.onEmptyFilter == Some(ReturnAll) {
      RowKeys(mime, after[|before| + 1].records, fr.mapping, fr.reverse);
    } else {
      RowKeys(mime, first.records, fr.mapping, fr.reverse);
    }
  }

  /** A DELETE succeeds exactly when the query carries a string record id, and
      then deletes that record and nothing else. */
  lemma DeleteNeedsStringId(q: QueryJson, mime: MimeFn, before: seq<Call>, after: seq<Call>, r: Result<seq<Row>, Error>)
    requires q.operation == Delete && Dispatched(q, mime, before, after, r)
    ensures r.Success? <==> QueryHelpers.ParseQueryRecordId(q).Str?
    ensures r.Success? ==> after == before + [DeleteCall(QueryHelpers.ParseQueryRecordId(q).s)]
    ensures r.Failure? ==> after == before
  {
  }
}
