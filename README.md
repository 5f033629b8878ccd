# budibase-datasource-xata, modelled in Dafny

This project models the core of the Budibase datasource plugin for Xata. The plugin's
`XataIntegration` class does three things:

- it turns the Xata branch schema into Budibase table definitions (`buildSchema`);
- it translates Budibase `QueryJson` requests into Xata client calls (`query`, with its
  helpers for fields, filters, sort, pagination, record ids and bodies);
- it turns the records Xata returns back into flat Budibase rows (`xataToBudibaseRecords`).

The column-type mapping and the file detection of `src/utils.ts` are modelled as well.

## Modules

- `Wrappers` and `Errors` (wrappers.dfy) hold `Option`, `Result` and the errors the
  plugin throws: an invalid column type, an invalid field, an unknown table, a missing
  record id and an unsupported operation.
- `Json` (json.dfy) models the JavaScript values the plugin handles: `undefined`, `null`,
  booleans, numbers, strings, arrays, objects and Xata files. It also models lodash's
  `_.get` and a one-level `flat()`.
- `Budibase` (budibase.dfy) holds the Budibase types the plugin reads and writes: field
  schemas, tables, `QueryJson`, relationships, filters and pagination.
- `Utils` (utils.dfy) models `xataToBudibaseType` and `isXataFileField`.
- `Schema` (schema.dfy) specifies `buildSchema` as functions over the loop state. That
  state is the schema built so far and the relationship-id memo. `SchemaProperties`
  proves what the build produces.
- `Fields` (fields.dfy) models `parseQueryFields`. It has the field-path regular
  expression, the routing of each field through the query's relationships, the select
  list, the field mapping and the file-column expansion. It also holds the imperative
  `ParseQueryFields`, proved against the functional `QueryFields`. `FieldsProperties`
  proves the properties of the resolution.
- `Filter` (filter.dfy) models `parseQueryFilter`. `FilterProperties` proves its
  properties.
- `Records` (records.dfy) models `xataToBudibaseRecords`. `RecordsProperties` proves its
  properties.
- `QueryHelpers` (query.dfy) models `parseQueryPagination`, `parseQuerySort`,
  `parseQueryRecordId` and the renaming of body keys in a write. `QueryHelpersProperties`
  proves their properties.
- `Datasource` (datasource.dfy) holds the `XataIntegration` class itself. Its state is the
  stored tables, the schema errors and the binding-identifier counter. It has the
  imperative `BuildSchema`, whose loops are proved against `Schema.BuildTables`, and
  `Query`. `Query` dispatches on the operation and calls the remote table. The remote table
  is a `TableHandle` that records every call made on it. `DatasourceProperties` proves the
  properties of the binding identifiers and of the dispatch.

## Two behaviours kept exactly as written

- **Range filter defaults.** A `range` filter without a `low` gets
  `-Number.MIN_SAFE_INTEGER` as its lower bound, which is `+9007199254740991`. A filter
  without a `high` gets `-Number.MAX_SAFE_INTEGER` as its upper bound, which is
  `-9007199254740991`. So a one-sided range whose given bounds lie strictly between `-Number.MAX_SAFE_INTEGER` and
  `Number.MAX_SAFE_INTEGER` matches nothing. The model keeps these
  constants (`Filter.LowDefault`, `Filter.HighDefault`). `LowOnlyRangeIsEmpty` and
  `HighOnlyRangeIsEmpty` state the consequence.
- **The table's `sourceId`.** Every built table gets the string literal
  `'datasourceId'` as its `sourceId`, not the value of the `datasourceId` parameter. The
  model keeps the literal.

## Model

| member | source | states |
|---|---|---|
| Utils.XataToBudibaseType | src/utils.ts:26-86 | every Xata column type except `link` maps to exactly one Budibase field type, each type family to its own; `link` is rejected with the invalid-column-type error; no type maps to a link field |
| Utils.IsXataFileField | src/utils.ts:88-91 | no contract; properties in `Utils.IsXataFileFieldExactly` |
| Utils.IsXataFileFieldExactly | src/utils.ts:88-91 | a value is a file field exactly when it is a file or an array of files only (the empty array included) |
| Json.Flat1 | src/utils.ts:91 | no contract; properties in `Json.Flat1Members` |
| Json.Flat1Members | src/utils.ts:91 | a one-level flat holds exactly the elements of array members and the other members themselves |
| Json.Get | src/datasource.ts:618-621 | `_.get` returns a property named by the whole path directly, `undefined` for a missing undotted path, and `undefined` on a value that is not an object (lodash differs for arrays, strings and file objects; see Left out) |
| Json.GetTwoSteps | src/datasource.ts:618-621 | `_.get(v, "a.b")` reads property `b` of the object under `a`, or `undefined` when that does not exist (a non-object under `a` reads as `undefined`; see Left out) |
| Json.SplitJoin | src/datasource.ts:618-621 | cutting a lodash path at its dots and joining the pieces gives back the path |
| Schema.UuidFor | src/datasource.ts:118-120 | no contract; properties in `Schema.UuidForMemoises` |
| Schema.AddColumns | src/datasource.ts:132-162 | no contract; properties in `Schema.ColumnsFailurePersists` and the `SchemaProperties.AddColumn…` rows |
| Schema.AddRevLinks | src/datasource.ts:164-176 | no contract; properties in the `SchemaProperties.AddRevLink…` rows |
| Schema.BuildTable | src/datasource.ts:124-185 | no contract; properties in the `SchemaProperties.BuildTable…` rows |
| Schema.BuildTables | src/datasource.ts:118-185 | no contract; properties in `Schema.TablesFailurePersists` and the `SchemaProperties.BuildTables…`, `ForwardAndReverseShareId` and `DistinctForwardIds` rows |
| Schema.UuidForMemoises | src/datasource.ts:118-120 | the relationship-id memo returns the same id for a table/column pair every time, and a fresh id only on the pair's first use |
| Schema.ColumnsFailurePersists | src/datasource.ts:132-162 | once a column's type is rejected, the whole column loop fails with that error |
| Schema.TablesFailurePersists | src/datasource.ts:124-185 | once a table fails, the whole table loop fails with its error |
| SchemaProperties.ColumnsFailIffDangling | src/datasource.ts:132-162 | the column loop fails exactly when some column is a `link` without a target, with the type mapper's error |
| SchemaProperties.AddColumnSchema | src/datasource.ts:133-161 | one column adds exactly its keys (the shadow `$name` and the link field, or the plain field), leaves every other field alone and writes the field shape the column calls for |
| SchemaProperties.AddForwardLinkSchema | src/datasource.ts:133-153 | a forward link column adds exactly its `$` shadow field and its link field, with the memo's id for the pair, and leaves every other field alone |
| SchemaProperties.AddColumnsMemo | src/datasource.ts:132-162 | the column loop keeps the memo valid, only extends it, draws one fresh id per new pair and afterwards remembers every forward link's pair |
| SchemaProperties.AddColumnsSchemaKeys | src/datasource.ts:132-162 | the column loop adds exactly the keys its columns write |
| SchemaProperties.AddColumnsPreserves | src/datasource.ts:132-162 | a field that no column writes keeps its definition through the column loop |
| SchemaProperties.AddColumnsShaped | src/datasource.ts:132-162 | when no two columns write the same key, every column's fields have the shape the code writes, with the final memo's ids |
| SchemaProperties.AddRevLinkSchema | src/datasource.ts:164-176 | one `revLinks` entry adds a MANY_TO_ONE link field under the referencing table's name and leaves every other field alone |
| SchemaProperties.AddRevLinksSchemaKeys | src/datasource.ts:164-176 | the `revLinks` loop adds exactly the names of the referencing tables |
| SchemaProperties.AddRevLinksPreserves | src/datasource.ts:164-176 | a field that no `revLinks` entry names keeps its definition |
| SchemaProperties.AddRevLinksShaped | src/datasource.ts:164-176 | when no two entries come from the same table, every entry's field has the shape the code writes |
| SchemaProperties.AddRevLinksKeys | src/datasource.ts:164-176 | after the `revLinks` loop the memo remembers every entry's pair |
| SchemaProperties.BuildTableFailIff | src/datasource.ts:124-185 | building one table fails exactly when one of its columns is a `link` without a target |
| SchemaProperties.BuildTableMemo | src/datasource.ts:124-185 | building one table keeps the memo valid, only extends it, counts fresh ids and remembers the pairs of the table's forward links and `revLinks` |
| SchemaProperties.BuildTableSchemaKeys | src/datasource.ts:125-184 | a built table's schema has exactly `id`, the columns' keys and the referencing tables' names |
| SchemaProperties.BuildTableShaped | src/datasource.ts:124-185 | when no two fields of a table share a key, the built table has its name, the `id` primary key, the `'datasourceId'` source, the table id from the id builder, exactly the expected keys, the `id` field and the shape of every column and `revLinks` entry |
| SchemaProperties.BuildTablesFailIff | src/datasource.ts:124-185 | the build fails exactly when some table has a `link` column without a target |
| SchemaProperties.BuildTablesMemoKeys | src/datasource.ts:118-185 | after the build, the memo holds exactly the pairs named by some forward link or `revLinks` entry |
| SchemaProperties.BuildTablesNames | src/datasource.ts:124-185 | there is one table definition per Xata table name, and no other |
| SchemaProperties.BuildTablesShaped | src/datasource.ts:124-185 | with distinct table names and distinct field keys, every table is built with its full shape, relative to the final memo |
| SchemaProperties.ForwardAndReverseShareId | src/datasource.ts:142-175 | the two sides of one relationship carry the same id: the forward link field of `a.c` and the reverse link field that table `b` writes for `(a, c)`, when tables `a` and `b` each write every field key once |
| SchemaProperties.DistinctForwardIds | src/datasource.ts:118-153 | forward links whose `table.column` keys differ carry different relationship ids, when the tables holding them each write every field key once |
| SchemaProperties.BuildTablesShapedAt | src/datasource.ts:124-185 | a table that writes every field key once, and whose name no later table takes, is built with its full shape relative to the final memo, whatever the other tables hold |
| SchemaProperties.DoubleLinkLaterWins | src/datasource.ts:164-176 | two `revLinks` entries from one table write the same reverse field; the later wins, so that field carries the second pair's id and not the first's |
| Fields.ParseFieldPath | src/datasource.ts:357-361 | no contract; properties in `Fields.ParseFieldPathMatches`, `ParseDotted`, `ParseAnySeparator`, `ParseNoSeparator`, `ParseRejectsBareTable` and `ParseRejectsWideSeparator` |
| Fields.QueryFields | src/datasource.ts:341-424 | no contract; properties in `Fields.ParseQueryFields` and the `FieldsProperties` rows |
| Fields.ParseFieldPathMatches | src/datasource.ts:357-361 | the field parser is the regular expression `^(\w+).(\$?\w+)$`: no match when no split point exists, otherwise the split at the last split point, with a word table and a column reference. A split point's separator is one UTF-16 code unit that is not a line terminator, as `.` without the `u` flag requires |
| Fields.ParseDotted | src/datasource.ts:357-358 | `Table.column` with a word table and a column reference parses into exactly those two parts |
| Fields.ParseAnySeparator | src/datasource.ts:358 | the unescaped `.` of the expression accepts any separator that is one UTF-16 code unit and not a line terminator, so `Posts-title` reads like `Posts.title` |
| Fields.ParseRejectsWideSeparator | src/datasource.ts:358-361 | a separator outside the Basic Multilingual Plane is two UTF-16 code units, which `.` cannot match, so the field is invalid |
| Fields.ParseNoSeparator | src/datasource.ts:358 | a field without a separator is still split: `abc` reads as table `a`, column `c` |
| Fields.ParseRejectsBareTable | src/datasource.ts:359-361 | a table followed by a separator and nothing else is an invalid field |
| Fields.ReverseFieldsMembers | src/datasource.ts:349-351 | the reverse-relationship aliases are exactly the columns of relationships coming from `id` |
| Fields.FirstMatchIsFirst | src/datasource.ts:363-368 | a field is routed through the first relationship with `from`, `to` and its table, and through none when none has them |
| Fields.RouteOf | src/datasource.ts:356-408 | a field routed through a reverse relationship uses a relationship with a `to` whose alias is a reverse field; a forward route's alias is not one |
| Fields.FindExpansionNone | src/datasource.ts:376-378 | no expansion with the alias exists exactly when the search finds none |
| Fields.ResolveOne | src/datasource.ts:356-409 | one iteration of the field loop, with its inner relationship search, does what the resolution function says for that field |
| Fields.ParseQueryFields | src/datasource.ts:341-424 | the imperative field loop and file expansion compute exactly the functional resolution `QueryFields` |
| FieldsProperties.ResolveFailsIff | src/datasource.ts:356-409 | the resolver fails exactly when some field is malformed or names a table that is neither the queried one nor reachable through a relationship, and it reports the first such field |
| FieldsProperties.QueryFieldsFailsIff | src/datasource.ts:341-424 | `parseQueryFields` throws `Invalid field` exactly for the first unresolvable requested field |
| FieldsProperties.ResolveMapping | src/datasource.ts:353-408 | the mapping has one entry per requested field, and each entry is that field's own target, whatever else was requested |
| FieldsProperties.MergeExpansionKeeps | src/datasource.ts:376-388 | adding a reverse column keeps every select entry in place, grows an existing expansion or appends one, and the column ends up in the alias's expansion |
| FieldsProperties.ResolveExpansionsWellFormed | src/datasource.ts:376-388 | the select list never holds two expansions with the same alias, and every expansion belongs to a reverse relationship |
| FieldsProperties.ResolveReverseColumns | src/datasource.ts:370-390 | each column requested through a reverse relationship is selected inside that relationship's expansion |
| FieldsProperties.ResolveDirectSelected | src/datasource.ts:391-408 | every field not routed through a reverse relationship has its target selected as a plain column |
| FieldsProperties.ResolveSelectedDirect | src/datasource.ts:391-408 | every plain column selected is the target of some requested field |
| FieldsProperties.ExpandMembers | src/datasource.ts:411-421 | after expansion the select list holds every entry that is not a file column, the five properties of every file column, and nothing else |
| FieldsProperties.ExpandNothing | src/datasource.ts:411-421 | a select list without file columns is left as it is |
| FieldsProperties.ExpandIdempotent | src/datasource.ts:411-421 | expanding twice is expanding once |
| FieldsProperties.ExpandConcat | src/datasource.ts:411-421 | the expansion works entry by entry, so it distributes over concatenation |
| FieldsProperties.TwoOwnColumns | src/datasource.ts:400-408 | two own columns of the queried table are selected in order and mapped to themselves |
| FieldsProperties.SingleOwnColumn | src/datasource.ts:400-421 | a single own column resolves to its target, expanded if it is a file column |
| FieldsProperties.FileColumnSelected | src/datasource.ts:411-421 | an own file column is selected as its five properties `size`, `name`, `mediaType`, `url` and `signedUrl` |
| FieldsProperties.RouteOwnColumn | src/datasource.ts:400-408 | without relationships, `table.column` on a query of `table` is an own column |
| FieldsProperties.BuiltFileColumnExpanded | src/datasource.ts:155-159 | the field the schema build writes for a plain column is later expanded into the file's properties (lines 411-416) exactly when the column's type is `file` or `file[]`; a forward link field and its `$` shadow field never are |
| FieldsProperties.ShadowFieldRoundTrip | src/datasource.ts:133-153 | the shadow field `$c` that the schema build writes for a link column reads back, when requested, as the linked record's `id` through column `c` |
| Filter.LeadingDigits | src/datasource.ts:444 | the length of the run of digits that starts a key |
| Filter.MaxOf | src/datasource.ts:499-500 | `_.max` skipping missing bounds: none when all are missing, otherwise a given bound that is at least every given bound |
| Filter.MinOf | src/datasource.ts:502-503 | `_.min` skipping missing bounds: none when all are missing, otherwise a given bound that is at most every given bound |
| Filter.GroupKeysHaveValues | src/datasource.ts:440-447 | every field listed by the grouping holds a list, and every list is under a listed field |
| FilterProperties.StripOrdinalRemoves | src/datasource.ts:444 | a key written `N:field` is grouped under `field` |
| FilterProperties.StripOrdinalKeeps | src/datasource.ts:444 | a key not starting with a digit is grouped under itself |
| FilterProperties.StripOrdinalRemovesOnlyOrdinal | src/datasource.ts:444 | whatever is stripped from a key is exactly a run of digits and a colon |
| FilterProperties.GroupKeysDistinct | src/datasource.ts:440-447 | no field is grouped twice |
| FilterProperties.GroupKeysPresent | src/datasource.ts:440-447 | a field is grouped exactly when some entry's key strips to it |
| FilterProperties.GroupValues | src/datasource.ts:440-447 | each field holds the values of all entries whose key strips to it, in entry order |
| FilterProperties.TermsMembers | src/datasource.ts:452-473 | the nodes of a filter type are exactly one per grouped field whose mapped name is not reached through a reverse relationship |
| FilterProperties.FieldTermsNode | src/datasource.ts:452-473 | the node of each field that is not dropped is among the nodes of its filter type |
| Filter.ParseQueryFilter | src/datasource.ts:426-591 | no contract; properties in the `FilterProperties` rows |
| FilterProperties.FilterRespectsQuery | src/datasource.ts:426-591 | the top-level operator is `$any` exactly when `allOr` is set; no node is about a field reached through a reverse relationship, and every per-value list uses the top-level operator |
| FilterProperties.ReverseColumnsUnfilterable | src/datasource.ts:453-464 | a field requested through a reverse relationship maps to `alias.column`, so any filter on it is dropped |
| FilterProperties.RangeLowBound | src/datasource.ts:498-500 | a range's lower bound is the largest `low` given, or the default when none is |
| FilterProperties.RangeHighBound | src/datasource.ts:501-503 | a range's upper bound is the smallest `high` given, or the default when none is |
| FilterProperties.LowOnlyRangeIsEmpty | src/datasource.ts:498-503 | a range with lows only, each above `-Number.MAX_SAFE_INTEGER`, has its upper bound below its lower bound |
| FilterProperties.HighOnlyRangeIsEmpty | src/datasource.ts:498-503 | a range with highs only, each below `Number.MAX_SAFE_INTEGER`, has its upper bound below its lower bound |
| FilterProperties.ReadEscaped | src/datasource.ts:579-581 | a value escaped for a pattern (with `\`, `*` and `?` escaped) reads back as its own characters taken literally, whatever follows it |
| FilterProperties.FuzzyPatternReadsBack | src/datasource.ts:579-581 | the corrected fuzzy pattern (the backslash escaped too) reads as a wildcard run, the searched value taken literally, and a wildcard run: it matches the value anywhere and nothing else |
| FilterProperties.EscapeAgrees | src/datasource.ts:579-581 | on a value without a backslash, the source's escaping of `*` and `?` is the escaping that also escapes `\` |
| FilterProperties.AsWrittenWithoutBackslash | src/datasource.ts:579-581 | on a value without a backslash, the pattern the source writes is the fuzzy pattern and matches the value literally, anywhere |
| FilterProperties.TrailingBackslashAsWritten | src/datasource.ts:579-581 | the source writes `*a\*` for the value `a\`: its last backslash escapes the closing wildcard, so the pattern does not read as the value matched anywhere |
| FilterProperties.BackslashStarAsWritten | src/datasource.ts:579-581 | the source writes `*\\**` for the value `\*`: the added backslash escapes the user's backslash and the `*` is left a wildcard |
| FilterProperties.EscapedWildcards | src/datasource.ts:579-581 | every `*` or `?` that the source's escaping emits follows a backslash it added |
| FilterProperties.EscapeHead | src/datasource.ts:579-581 | an escaped value never starts with a wildcard |
| FilterProperties.EqualGroupNodes | src/datasource.ts:554-561 | every `equal` value given for a field, under any ordinal, becomes one `$is` in that field's node, in order |
| FilterProperties.RangeGroupNodes | src/datasource.ts:494-506 | all `range` literals given for a field merge into one `$ge`/`$le` node |
| FilterProperties.GroupSameField | src/datasource.ts:444 | two entries whose keys differ only in their ordinal form one group |
| FilterProperties.TwoLowsMerge | src/datasource.ts:494-506 | two lower bounds on one field keep the larger, and the missing upper bound is the default |
| FilterProperties.TwoEqualsAny | src/datasource.ts:437-590 | with `allOr`, two equal values on one field are joined by `$any`, under an `$any` root |
| FilterProperties.ExampleReverseDropped | src/datasource.ts:453-464 | a filter on a column reached through a reverse relationship produces no node |
| Records.Wrapped | src/datasource.ts:607-609 | one wrapped object per linked record; `RecordsProperties.WrappedAt` states what each one is |
| Records.AliasColumns | src/datasource.ts:605-610 | one list per reverse alias; `RecordsProperties.AliasColumnsAt` states what each list is |
| RecordsProperties.WrappedAt | src/datasource.ts:607-609 | linked record `k` is wrapped as the one-property object `{ [alias]: record }` |
| RecordsProperties.AliasColumnsAt | src/datasource.ts:605-610 | list `i` holds the wrapped linked records of the `i`-th reverse alias, in order (none when its `records` are missing) |
| Records.ToBudibaseRecords | src/datasource.ts:597-640 | no contract; properties in `RecordsProperties.RowsTotal`, `RowCount`, `RowKeys`, `OwnFieldValue`, `AliasFieldValue`, `RecordRowsAt` and `ToBudibaseRecordsAppend` |
| Records.ConvertValue | src/datasource.ts:622-635 | no contract; properties in `RecordsProperties.ConvertValueFiles` and `AttachmentsAt` |
| Records.ZipRows | src/datasource.ts:604-611 | `_.zip` yields as many rows as asked |
| Records.Attachments | src/datasource.ts:625-631 | one attachment object per file |
| RecordsProperties.MaxLenBounds | src/datasource.ts:604-611 | the zip length is the length of the longest list |
| RecordsProperties.ZipRowAt | src/datasource.ts:604-611 | entry `i` of zipped row `k` is the `k`-th element of list `i`, or `undefined` past its end |
| RecordsProperties.SubRowsShape | src/datasource.ts:604-614 | without any linked record there is the single empty row; otherwise row `k` holds each alias's `k`-th linked record, wrapped, or `undefined` |
| RecordsProperties.RowCount | src/datasource.ts:604-614 | each record yields as many rows as its longest reverse-relationship list, and at least one |
| RecordsProperties.AssignUntouched | src/datasource.ts:619 | `Object.assign` keeps the target's entry for a key that no object source holds |
| RecordsProperties.AssignWritten | src/datasource.ts:619 | `Object.assign` writes a key held by some object source with that source's value |
| RecordsProperties.RowEntries | src/datasource.ts:604-614 | entry `i` of sub-record row `k` is `undefined` or the alias's `k`-th linked record, and it is the latter whenever that record exists |
| RecordsProperties.MergedEntries | src/datasource.ts:603-621 | in every row, a non-alias key is the record's own entry, an alias holds its linked record for that row, and an alias past the end of its list is absent |
| RecordsProperties.RecordRowsAt | src/datasource.ts:613-638 | one record gives one row per sub-record row, each the projection of that row's merged record |
| RecordsProperties.ToBudibaseRecordsAppend | src/datasource.ts:602 | rows are produced record by record (`flatMap`), so converting two lists in turn is converting their concatenation |
| RecordsProperties.RowsTotal | src/datasource.ts:602-639 | every record contributes its rows, so there are at least as many rows as records |
| RecordsProperties.RowKeys | src/datasource.ts:616-637 | every row has exactly the fields of the mapping |
| RecordsProperties.OwnFieldValue | src/datasource.ts:616-635 | a field mapped to an own column reads the record's own entry, converted, in every row of the record |
| RecordsProperties.AliasFieldValue | src/datasource.ts:604-635 | a field mapped to `alias.column` reads `column` of the alias's `k`-th linked record in row `k`, and `undefined` past the end of its list |
| RecordsProperties.ConvertValueFiles | src/datasource.ts:622-635 | non-file values pass unchanged; a file becomes a one-element array and a file array an array of the same length, each file turned into its attachment object |
| RecordsProperties.AttachmentsAt | src/datasource.ts:625-631 | at each file's position the attachment list holds that file's attachment object (size, name, extension, url as key, signed url as url) |
| RecordsProperties.ExtensionNeverEmpty | src/datasource.ts:628 | an attachment always has an extension: the registered one, or `txt` |
| QueryHelpers.FindFrom | src/datasource.ts:248 | the relationship found for a body key is one whose `from` is that key |
| QueryHelpers.ParseQueryPagination | src/datasource.ts:301-312 | no contract; properties in `QueryHelpersProperties.PaginationDefault` and `PagesTile` |
| QueryHelpers.ParseQuerySort | src/datasource.ts:314-339 | no contract; properties in `QueryHelpersProperties.SortDefault`, `SortFirstEntry` and `SortNeverUnsortable` |
| QueryHelpers.ParseQueryRecordId | src/datasource.ts:593-595 | no contract; properties in `DatasourceProperties.DeleteNeedsStringId` and `Datasource.XataIntegration.Write` |
| QueryHelpers.ResolveBody | src/datasource.ts:247-250 | no contract; properties in `QueryHelpersProperties.BodyKeyFirst`, `ResolveBodyKeys` and `ResolveBodyLastWins` |
| QueryHelpersProperties.PaginationDefault | src/datasource.ts:304-311 | without pagination the first 100 records are read |
| QueryHelpersProperties.PagesTile | src/datasource.ts:304-311 | every page has the requested size, the first page starts at offset 0, and each page starts where the one before it ends |
| QueryHelpersProperties.SortDefault | src/datasource.ts:318-323 | without a sort entry the records are sorted by `id`, ascending |
| QueryHelpersProperties.SortFirstEntry | src/datasource.ts:321-338 | the sort is the query's first entry with its direction, unless the schema marks that field unsortable, and then it is `id` ascending |
| QueryHelpersProperties.SortNeverUnsortable | src/datasource.ts:325-333 | the records are never sorted on an unsortable field other than `id` |
| QueryHelpersProperties.FindFromFirst | src/datasource.ts:248 | the search for a body key's relationship finds the first whose `from` is that key, and none when there is none |
| QueryHelpersProperties.BodyKeyFirst | src/datasource.ts:247-250 | a body key is renamed to the column of the first relationship coming from it, and kept when no relationship comes from it |
| QueryHelpersProperties.ResolveBodyKeys | src/datasource.ts:247-250 | the written body has exactly the renamed keys of the query body |
| QueryHelpersProperties.ResolveBodyLastWins | src/datasource.ts:247-250 | each renamed key holds the value of the last body property renamed to it |
| Datasource.UuidSource.Fresh | src/datasource.ts:120 | hands out the counter's value and moves the counter on by one, so no id is handed out twice |
| Datasource.UuidForRelationship | src/datasource.ts:118-120 | the imperative memo lookup computes the memo function `UuidFor`, including the id source's new state |
| Datasource.AddColumnsStep | src/datasource.ts:125-162 | the imperative column loop fails exactly when the column-loop function fails, with its error, and otherwise builds its schema and memo |
| Datasource.AddRevLinksStep | src/datasource.ts:164-176 | the imperative `revLinks` loop builds the schema and memo of the `revLinks` function |
| Datasource.BuildTableStep | src/datasource.ts:124-185 | one imperative iteration of the table loop builds what the table function builds, or fails with its error |
| Datasource.TableHandle.GetMany | src/datasource.ts:210-222 | a read call on the remote table is recorded with its columns, filter, sort, page and the records it returned |
| Datasource.TableHandle.CreateOrReplace | src/datasource.ts:252 | a write call is recorded with its id, body and the record it returned |
| Datasource.TableHandle.DeleteOrThrow | src/datasource.ts:265 | a delete call is recorded with its id |
| Datasource.XataIntegration.constructor | src/datasource.ts:61 | a new integration has no tables, no schema errors and binding index 1 |
| Datasource.XataIntegration.GetBindingIdentifier | src/datasource.ts:75-77 | returns `$` and the decimal index, and moves the index on by one, leaving the rest of the state alone |
| Datasource.XataIntegration.BuildSchema | src/datasource.ts:110-190 | stores the finalised tables and errors of the table-loop function and advances the id source to the loop's memo. When a column type is rejected, it returns that error and leaves the stored tables and errors unchanged |
| Datasource.XataIntegration.Query | src/datasource.ts:199-275 | an unknown table name fails; otherwise the operation is carried out on that table only, as `Dispatched` specifies, and no other table is called |
| Datasource.XataIntegration.Read | src/datasource.ts:205-238 | an unresolvable field fails without a call. Otherwise one filtered, sorted, paginated read is made. If it returns nothing and the query asks for all records on an empty filter, a read without filter or pagination options follows. The last answer, converted, is returned |
| Datasource.XataIntegration.Write | src/datasource.ts:240-259 | an unresolvable field fails without a call; otherwise one `createOrReplace` with the record id and the renamed body, and the written record converted |
| DatasourceProperties.DecimalRoundTrip | src/datasource.ts:76 | the rendered index is made of digits only and reads back as the index |
| DatasourceProperties.BindingIdentifiersDistinct | src/datasource.ts:75-77 | different indexes give different binding identifiers, so successive calls never hand out the same one |
| DatasourceProperties.DispatchedAppends | src/datasource.ts:199-275 | `query` only appends calls to the table's log: at most two for a read and at most one otherwise |
| DatasourceProperties.ReadRowsShape | src/datasource.ts:205-238 | every row a successful read returns has exactly the fields the query requested |
| DatasourceProperties.DeleteNeedsStringId | src/datasource.ts:261-267 | a delete succeeds exactly when the query carries a string record id, and then deletes that record and nothing else; otherwise no call is made |

## Left out

- How Xata reads a `$pattern` is not part of the plugin. `Filter.ReadPattern` assumes
  the usual reading: `*` matches any run, `?` one character, and a backslash makes
  the next character literal.
- Network and client I/O are not modelled: `getBranchDetails`, `sql`, `getUser` and the
  Xata client's query builder. The branch schema is a parameter of `BuildSchema`. The
  remote table is a `TableHandle` whose answers are arbitrary values, recorded in its call
  log.
- `Datasource.TableHandle.GetMany`, `CreateOrReplace` and `DeleteOrThrow` do not model what
  the Xata server stores or returns. They promise only that the call and its answer are
  recorded. A `deleteOrThrow` that throws is not modelled.
- The SQL passthroughs (`create`, `read`, `update`, `delete` and `sqlQuery`),
  `getExternalSchema`, `getTableNames` and `testConnection` are left out. Each is a
  single remote call with no logic of its own. `getStringConcat` only throws.
- `uuid()` becomes `UuidSource`, a counter that hands out natural numbers. The model does
  not claim that ids are random or formatted as UUIDs, only that they are fresh.
- `buildExternalTableId` and `finaliseExternalTables` are imported from
  `./budibase-server.js` (src/datasource.ts:49-52), which is not part of this model.
  They are function parameters of `BuildSchema` (`tid` and `finalise`).
- `mime.extension` is the parameter `mime` of the record conversion.
- `Json.Get, Json.GetTwoSteps`: a path step on a value that is not an object reads as
  `undefined`. lodash's `_.get` reads properties of any non-null value: an array index
  or `length`, a string's characters or `length`, a file object's properties. lodash
  also splits bracket paths (`a[0]`), which `Json.Split` does not. The plugin's own
  mapping paths (`column`, `alias.column`, `column.id`) step only through record objects.
- `Fields.MergeExpansion`: `relationship.to.slice(1)` drops one UTF-16 code unit. When
  `to` starts with a character outside the Basic Multilingual Plane, the source keeps
  half of it (a lone surrogate), which a Dafny string cannot hold; the model drops the
  whole character. Strings are sequences of Unicode characters in this model, and
  UTF-16 code units are modelled only where `.` of the field expression matches one.
- `Records.ToBudibaseRecords` models numbers as integers: floating point, `NaN` and
  `Infinity` are not modelled.
- `QueryHelpers.ParseQueryPagination` takes the page as an integer. A page given as a
  string is converted by `Number(...)`, which the model does not cover, and a non-numeric
  string (`NaN`) is left out.
- `Filter.ParseQueryFilter` takes range bounds as optional integers. A bound that
  `Number(...)` turns into `NaN` is a missing bound, which `_.max` and `_.min` skip.
  Filter values are typed per operator, as the Budibase `SearchFilters` type declares
  them, so no run-time type errors are modelled.
- `Records.ToBudibaseRecords` takes the `records` property of a reverse alias, when
  present, to be an array. `_.omit` with a dotted alias (a path rather than a key) is not
  modelled.
- `SchemaProperties.BuildTablesShaped`, `BuildTableShaped`, `AddColumnsShaped` and
  `AddRevLinksShaped` state the shape of each field only when no two fields write the
  same key and table names are distinct. With duplicates the later write wins, which
  the build functions model but these lemmas do not describe.
- `SchemaProperties.ForwardAndReverseShareId` says nothing when table `a` or `b` writes a
  field key twice. That happens when one table has two link columns to the same target:
  the target's `revLinks` then name that table twice, and the later entry overwrites the
  reverse field (`SchemaProperties.DoubleLinkLaterWins`), so the first link's two sides
  do not share an id.
- `SchemaProperties.DistinctForwardIds` says nothing when a table holding one of the two
  links writes a field key twice, since the link field may then have been overwritten.
- Logger warnings (unsortable sort field, unfilterable field) are not modelled.
  `src/logger.ts`, `src/debug.ts`, `src/xata.ts` (the generated client) and `build.mjs`
  are not part of this model.
- Asynchrony and concurrent calls on one integration are not modelled: `Query` and
  `BuildSchema` run to completion one at a time.

## Findings

| source | as written | input that shows it | evidently intended | confidence | as-written member | corrected member |
|---|---|---|---|---|---|---|
| src/datasource.ts:579-581 | the fuzzy pattern escapes `*` and `?` but not the backslash | the value `a\` gives `*a\*`, whose closing `*` is escaped; the value `\*` gives `*\\**`, whose `*` is a wildcard | every value is matched literally, anywhere in the field | medium, not executed | FilterProperties.TrailingBackslashAsWritten | FilterProperties.FuzzyPatternReadsBack |

The filter (`Filter.FuzzyNode`) writes the pattern as the source does,
`Filter.FuzzyPatternAsWritten`. The corrected `Filter.FuzzyPattern` also escapes the
backslash; it is the intended half of this row and is not used by the filter.
`FilterProperties.AsWrittenWithoutBackslash` shows that the two agree on every value
without a backslash.
