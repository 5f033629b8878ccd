/** The Budibase side of the plugin boundary: table definitions the plugin builds
    and the generic query (`QueryJson`) it receives. Only the parts the plugin reads
    or writes are modelled. */
module Budibase {
  import opened Wrappers
  import opened Json

  datatype FieldType =
    | StringField | NumberField | BooleanField | DatetimeField | AttachmentField | JsonField | LinkField

  datatype RelationshipType = OneToMany | ManyToOne

  /** Identifier drawn from the fresh-id oracle that stands for `uuid()`. */
  type Uuid = nat

  /** The link-only properties of a field definition. */
  datatype LinkSpec = LinkSpec(
    tableId: string,
    relationshipType: RelationshipType,
    main: bool,
    foreignKey: string,
    fieldName: string,
    relationshipId: Uuid)

  /** One entry of a table schema; a property the source leaves out is `None`. */
  datatype FieldSchema = FieldSchema(
    name: string,
    fieldType: FieldType,
    externalType: Option<string>,
    autocolumn: bool,
    visible: Option<bool>,
    sortable: Option<bool>,
    link: Option<LinkSpec>)

  type TableSchema = map<string, FieldSchema>

  datatype Table = Table(name: string, primary: seq<string>, sourceId: string, id: string, schema: TableSchema)

  datatype Operation = Create | Read | Update | Delete | OtherOperation(name: string)

  datatype SortDirection = Ascending | Descending

  datatype EmptyFilterOption = ReturnAll | ReturnNone

  /** A relationship of the query: `from`/`to` may be missing or empty. */
  datatype Relationship = Relationship(from: Option<string>, to: Option<string>, tableName: string, column: string)

  /** `paginate`: a page size and an optional page number. */
  datatype Paginate = Paginate(limit: int, page: Option<int>)

  /** One `range` literal; a missing bound is `None` (it converts to NaN). */
  datatype RangeArg = RangeArg(low: Option<int>, high: Option<int>)

  /** One operator group of the search filters: its entries, keyed by field name
      (possibly carrying an `N:` ordinal prefix), in the object's key order. */
  datatype FilterGroup =
    | StringGroup(strings: seq<(string, string)>)
    | FuzzyGroup(patterns: seq<(string, string)>)
    | RangeGroup(ranges: seq<(string, RangeArg)>)
    | EqualGroup(equals: seq<(string, Value)>)
    | NotEqualGroup(notEquals: seq<(string, Value)>)
    | EmptyGroup(empties: seq<(string, Value)>)
    | NotEmptyGroup(notEmpties: seq<(string, Value)>)
    | OneOfGroup(oneOfs: seq<(string, Value)>)
    | ContainsGroup(containsValues: seq<(string, Value)>)
    | NotContainsGroup(notContainsValues: seq<(string, Value)>)
    | ContainsAnyGroup(containsAnyLists: seq<(string, seq<Value>)>)
    | OtherGroup(operator: string, others: seq<(string, Value)>)

  datatype Filters = Filters(onEmptyFilter: Option<EmptyFilterOption>, allOr: Option<bool>, groups: seq<FilterGroup>)

  /** The generic query. A collection the query leaves out is empty, which is what
      the source's `?? []` / `?? {}` defaults give; `tableSchema` is
      `meta.table.schema`, `idFilterEqual` is `extra.idFilter.equal`. */
  datatype QueryJson = QueryJson(
    entityId: string,
    operation: Operation,
    fields: seq<string>,
    relationships: seq<Relationship>,
    filters: Filters,
    sort: seq<(string, SortDirection)>,
    paginate: Option<Paginate>,
    body: seq<(string, Value)>,
    idFilterEqual: map<string, Value>,
    tableSchema: Option<TableSchema>)
}
