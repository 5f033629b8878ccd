/** The small helpers `query` (src/datasource.ts) uses around the remote calls:
    pagination, sort order, the record id of a write, and the renaming of the
    keys of a written body. */
module QueryHelpers {
  import opened Wrappers
  import opened Json
  import opened Budibase

  // ---------------------------------------------------------------------------
  // Pagination

  /** The page size used when the query asks for no pagination. */
  const DefaultLimit: int := 100

  /** Xata's offset navigation: page size and number of records skipped. */
  datatype Pagination = Pagination(size: int, offset: int)

  /** `parseQueryPagination`: page `page` of size `limit` starts after the
      `page - 1` pages before it; the page defaults to 1 and the whole
      pagination to `{ limit: 100 }`. */
  function ParseQueryPagination(paginate: Option<Paginate>): Pagination
  {
    var p := paginate.GetOr(Paginate(DefaultLimit, None));
    var page := p.page.GetOr(1);
    Pagination(p.limit, (page - 1) * p.limit)
  }

  // ---------------------------------------------------------------------------
  // Sort

  datatype XataSortDirection = Asc | Desc

  /** The field sorted on when the query names none or an unsortable one. */
  const DefaultSortField: string := "id"

  /** The schema entry of `field` says it cannot be sorted on. */
  predicate Unsortable(schema: Option<TableSchema>, field: string)
  {
    schema.Some? && field in schema.value && schema.value[field].sortable == Some(false)
  }

  /** `parseQuerySort`: the first sort entry of the query, `id` ascending when
      there is none or when the table schema marks its field unsortable. */
  function ParseQuerySort(sort: seq<(string, SortDirection)>, schema: Option<TableSchema>): (string, XataSortDirection)
  {
    var (field, direction) := if sort == [] then (DefaultSortField, Ascending) else sort[0];
    if Unsortable(schema, field) then (DefaultSortField, Asc)
    else (field, if direction == Ascending then Asc else Desc)
  }

  // ---------------------------------------------------------------------------
  // Record id

  /** `parseQueryRecordId`: `extra.idFilter.equal.id`, whatever its type. */
  function ParseQueryRecordId(q: QueryJson): Value
  {
    if "id" in q.idFilterEqual then q.idFilterEqual["id"] else Undefined
  }

  // ---------------------------------------------------------------------------
  // Body keys

  /** The position of the first relationship whose `from` is `key`. */
  function FindFrom(rels: seq<Relationship>, key: string): (r: Option<nat>)
    ensures r.Some? ==> r.value < |rels| && rels[r.value].from == Some(key)
  {
    if rels == [] then None
    else if rels[0].from == Some(key) then Some(0)
    else
      match FindFrom(rels[1..], key)
      case None => None
      case Some(i) => Some(i + 1)
  }

  /** The key a body property is written under: the column of the first
      relationship coming from it, or the key itself. */
  function BodyKey(rels: seq<Relationship>, key: string): string
  {
    match FindFrom(rels, key)
    case Some(i) => rels[i].column
    case None => key
  }

  /** `_.mapKeys(body, …)`: every property under its renamed key; of two
      properties renamed to the same key the later one is kept. */
  function ResolveBody(rels: seq<Relationship>, body: seq<(string, Value)>): map<string, Value>
  {
    if body == [] then map[]
    else
      var last := body[|body| - 1];
      ResolveBody(rels, body[..|body| - 1])[BodyKey(rels, last.0) := last.1]
  }
}

module QueryHelpersProperties {
  import opened Wrappers
  import opened Json
  import opened Budibase
  import opened QueryHelpers

  // ---------------------------------------------------------------------------
  // Pagination

  /** Without pagination the first 100 records are read. */
  lemma PaginationDefault()
    ensures ParseQueryPagination(None) == Pagination(100, 0)
  {
  }

  /** Every page has the requested size; the first page (also when no page is
      given) starts at offset 0, and each page starts where the one before it
      ends. */
  lemma PagesTile(limit: int, page: int)
    ensures ParseQueryPagination(Some(Paginate(limit, None))) == Pagination(limit, 0)
    ensures ParseQueryPagination(Some(Paginate(limit, Some(1)))) == Pagination(limit, 0)
    ensures ParseQueryPagination(Some(Paginate(limit, Some(page)))).size == limit
    ensures ParseQueryPagination(Some(Paginate(limit, Some(page + 1)))).offset ==
      ParseQueryPagination(Some(Paginate(limit, Some(page)))).offset + limit
  {
    assert page * limit == (page - 1) * limit + limit;
  }

  // ---------------------------------------------------------------------------
  // Sort

  /** Without a sort entry the records are sorted by `id`, ascending. */
  lemma SortDefault(schema: Option<TableSchema>)
    ensures ParseQuerySort([], schema) == ("id", Asc)
  {
  }

  /** The sort order is the query's first entry, with its direction, unless the
      schema marks the field unsortable, and then it is `id` ascending. */
  lemma SortFirstEntry(sort: seq<(string, SortDirection)>, schema: Option<TableSchema>)
    requires sort != []
    ensures Unsortable(schema, sort[0].0) ==> ParseQuerySort(sort, schema) == ("id", Asc)
    ensures !Unsortable(schema, sort[0].0) ==> ParseQuerySort(sort, schema).0 == sort[0].0
    ensures !Unsortable(schema, sort[0].0) ==> (ParseQuerySort(sort, schema).1 == Asc <==> sort[0].1 == Ascending)
  {
  }

  /** The records are never sorted on an unsortable field other than `id`. */
  lemma SortNeverUnsortable(sort: seq<(string, SortDirection)>, schema: Option<TableSchema>)
    ensures var (field, _) := ParseQuerySort(sort, schema);
      field == "id" || !Unsortable(schema, field)
  {
  }

  // ---------------------------------------------------------------------------
  // Body keys

  /** A key no relationship comes from is kept; otherwise the first such
      relationship's column replaces it. */
  lemma {:induction false} BodyKeyFirst(rels: seq<Relationship>, key: string)
    ensures (forall i :: 0 <= i < |rels| ==> rels[i].from != Some(key)) ==> BodyKey(rels, key) == key
    ensures forall i :: 0 <= i < |rels| && rels[i].from == Some(key) && (forall j :: 0 <= j < i ==> rels[j].from != Some(key)) ==>
      BodyKey(rels, key) == rels[i].column
  {
    FindFromFirst(rels, key);
  }

  lemma {:induction false} FindFromFirst(rels: seq<Relationship>, key: string)
    ensures FindFrom(rels, key).None? <==> forall i :: 0 <= i < |rels| ==> rels[i].from != Some(key)
    ensures FindFrom(rels, key).Some? ==> forall j :: 0 <= j < FindFrom(rels, key).value ==> rels[j].from != Some(key)
  {
    if rels != [] && rels[0].from != Some(key) {
      FindFromFirst(rels[1..], key);
      assert forall j :: 1 <= j < |rels| ==> rels[j] == rels[1..][j - 1];
    }
  }

  /** The written body has exactly the renamed keys of the query body. */
  lemma {:induction false} ResolveBodyKeys(rels: seq<Relationship>, body: seq<(string, Value)>)
    ensures forall k :: k in ResolveBody(rels, body) <==> exists i :: 0 <= i < |body| && BodyKey(rels, body[i].0) == k
  {
    if body != [] {
      var init := body[..|body| - 1];
      ResolveBodyKeys(rels, init);
      assert forall i :: 0 <= i < |init| ==> init[i] == body[i];
    }
  }

  /** Each renamed key holds the value of the last property renamed to it. */
  lemma {:induction false} ResolveBodyLastWins(rels: seq<Relationship>, body: seq<(string, Value)>, i: nat)
    requires i < |body|
    requires forall j :: i < j < |body| ==> BodyKey(rels, body[j].0) != BodyKey(rels, body[i].0)
    ensures BodyKey(rels, body[i].0) in ResolveBody(rels, body)
    ensures ResolveBody(rels, body)[BodyKey(rels, body[i].0)] == body[i].1
  {
    if i < |body| - 1 {
      var init := body[..|body| - 1];
      assert init[i] == body[i];
      assert forall j :: i < j < |init| ==> init[j] == body[j];
      ResolveBodyLastWins(rels, init, i);
    }
  }
}
