/** `parseQueryFields` (src/datasource.ts): the fields a Budibase query asks for,
    written `Table.column`, become the Xata select list and the mapping from each
    requested field to the Xata path its value is read from. */
module Fields {
  import opened Wrappers
  import opened Errors
  import opened Budibase

  // ---------------------------------------------------------------------------
  // The field syntax `^(\w+).(\$?\w+)$`

  predicate IsWordChar(c: char)
  {
    ('a' <= c <= 'z') || ('A' <= c <= 'Z') || ('0' <= c <= '9') || c == '_'
  }

  /** `\w+` */
  predicate IsWord(s: string)
  {
    |s| >= 1 && forall i :: 0 <= i < |s| ==> IsWordChar(s[i])
  }

  /** The characters a regular-expression `.` does not match. */
  predicate IsLineTerminator(c: char)
  {
    c == '\n' || c == '\r' || c == '\U{2028}' || c == '\U{2029}'
  }

  /** A character JavaScript stores as a single UTF-16 code unit: one in the
      Basic Multilingual Plane. A `.` in a regular expression without the `u`
      flag matches exactly one code unit, so it never matches a character
      outside this plane, which takes two. */
  predicate IsOneCodeUnit(c: char)
  {
    c <= '\U{FFFF}'
  }

  /** `\$?\w+` */
  predicate IsColumnRef(s: string)
  {
    IsWord(s) || (|s| >= 2 && s[0] == '$' && IsWord(s[1..]))
  }

  /** The pattern matches `s` with the table group ending before position `k`
      and the column group starting after it. */
  predicate SplitsAt(s: string, k: int)
  {
    1 <= k < |s| - 1 && IsWord(s[..k]) && IsOneCodeUnit(s[k]) && !IsLineTerminator(s[k]) && IsColumnRef(s[k + 1..])
  }

  datatype FieldPath = FieldPath(table: string, column: string)

  /** The largest split point not beyond `k`. */
  function LastSplit(s: string, k: int): (r: Option<nat>)
    requires k < |s|
    ensures r.Some? ==> 1 <= r.value <= k
    decreases k
  {
    if k < 1 then None
    else if SplitsAt(s, k) then Some(k)
    else LastSplit(s, k - 1)
  }

  lemma {:induction false} LastSplitIsLast(s: string, k: int)
    requires k < |s|
    ensures LastSplit(s, k).Some? ==> SplitsAt(s, LastSplit(s, k).value) && forall j :: LastSplit(s, k).value < j <= k ==> !SplitsAt(s, j)
    ensures LastSplit(s, k).None? ==> forall j :: j <= k ==> !SplitsAt(s, j)
    decreases k
  {
    if k >= 1 && !SplitsAt(s, k) {
      LastSplitIsLast(s, k - 1);
    }
  }

  /** The match of `^(\w+).(\$?\w+)$`. The greedy table group backtracks, so the
      table is the longest word prefix that leaves a valid column after one
      separator character; the separator need not be a dot. */
  function ParseFieldPath(s: string): Option<FieldPath>
  {
    match LastSplit(s, |s| - 1)
    case None => None
    case Some(k) => Some(FieldPath(s[..k], s[k + 1..]))
  }

  /** `ParseFieldPath` is the regular expression's match: no match when no
      split point exists, otherwise the split at the last split point. */
  lemma ParseFieldPathMatches(s: string)
    ensures ParseFieldPath(s).None? <==> forall k :: !SplitsAt(s, k)
    ensures ParseFieldPath(s).Some? ==>
      exists k :: SplitsAt(s, k) && ParseFieldPath(s).value == FieldPath(s[..k], s[k + 1..]) && forall j :: k < j ==> !SplitsAt(s, j)
    ensures ParseFieldPath(s).Some? ==> IsWord(ParseFieldPath(s).value.table) && IsColumnRef(ParseFieldPath(s).value.column)
  {
    LastSplitIsLast(s, |s| - 1);
  }

  /** A dotted `Table.column` with a word table and a column reference parses
      into exactly those two parts. */
  lemma ParseDotted(table: string, column: string)
    requires IsWord(table) && IsColumnRef(column)
    ensures ParseFieldPath(table + "." + column) == Some(FieldPath(table, column))
  {
    ParseAnySeparator(table, '.', column);
  }

  /** Any separator that `.` matches will do: `Posts-title` reads as table
      `Posts`, column `title`, like `Posts.title`. */
  lemma ParseAnySeparator(table: string, sep: char, column: string)
    requires IsWord(table) && IsColumnRef(column) && !IsWordChar(sep) && !IsLineTerminator(sep) && IsOneCodeUnit(sep)
    ensures ParseFieldPath(table + [sep] + column) == Some(FieldPath(table, column))
  {
    var s := table + [sep] + column;
    ParseFieldPathMatches(s);
    assert s[..|table|] == table && s[|table| + 1..] == column;
    assert SplitsAt(s, |table|);
    forall j | |table| < j ensures !SplitsAt(s, j) {
      if 1 <= j < |s| - 1 {
        assert s[..j][|table|] == sep;
      }
    }
  }

  /** A separator outside the Basic Multilingual Plane is two code units, which
      `.` cannot match: `Posts`, U+1F600 and `title` make an invalid field. */
  lemma ParseRejectsWideSeparator(table: string, sep: char, column: string)
    requires IsWord(table) && IsWord(column) && !IsOneCodeUnit(sep)
    ensures ParseFieldPath(table + [sep] + column).None?
  {
    var s := table + [sep] + column;
    ParseFieldPathMatches(s);
    forall k ensures !SplitsAt(s, k) {
      if 1 <= k < |s| - 1 {
        if k < |table| {
          var c := s[k + 1..];
          assert c[|table| - k - 1] == sep;
          assert !IsWordChar(sep);
        } else if k > |table| {
          assert s[..k][|table|] == sep;
        }
      }
    }
  }

  /** A field without a separator is still split: `abc` reads as table `a`,
      column `c`. */
  lemma ParseNoSeparator()
    ensures ParseFieldPath("abc") == Some(FieldPath("a", "c"))
  {
    var s := "abc";
    ParseFieldPathMatches(s);
    assert s[..1] == "a" && s[2..] == "c";
    assert SplitsAt(s, 1);
  }

  /** A field with nothing after the table and its separator is rejected. */
  lemma ParseRejectsBareTable(table: string)
    requires IsWord(table)
    ensures ParseFieldPath(table + ".") == None
  {
    var s := table + ".";
    ParseFieldPathMatches(s);
    forall k ensures !SplitsAt(s, k) {
      if 1 <= k < |s| - 1 {
        var c := s[k + 1..];
        assert c[|c| - 1] == '.';
        assert |c| >= 2 ==> c[1..][|c| - 2] == '.';
      }
    }
  }

  // ---------------------------------------------------------------------------
  // Relationships

  /** A property that is set and not the empty string (truthy). */
  predicate Present(o: Option<string>)
  {
    o.Some? && o.value != ""
  }

  /** A relationship the resolver may route a field of `table` through. */
  predicate Matches(r: Relationship, table: string)
  {
    Present(r.from) && Present(r.to) && r.tableName == table
  }

  /** A relationship seen from the referenced side: `from` is `id`. */
  predicate IsReverse(r: Relationship)
  {
    r.from == Some("id")
  }

  /** The first relationship a field of `table` is routed through. */
  function FirstMatch(rels: seq<Relationship>, table: string): (r: Option<nat>)
    ensures r.Some? ==> r.value < |rels| && Matches(rels[r.value], table)
  {
    if rels == [] then None
    else if Matches(rels[0], table) then Some(0)
    else
      match FirstMatch(rels[1..], table)
      case None => None
      case Some(i) => Some(i + 1)
  }

  /** It is the first: no earlier relationship matches, and none matches when
      there is no result. */
  lemma {:induction false} FirstMatchIsFirst(rels: seq<Relationship>, table: string)
    ensures FirstMatch(rels, table).Some? ==> forall j :: 0 <= j < FirstMatch(rels, table).value ==> !Matches(rels[j], table)
    ensures FirstMatch(rels, table).None? <==> forall j :: 0 <= j < |rels| ==> !Matches(rels[j], table)
  {
    if rels != [] && !Matches(rels[0], table) {
      FirstMatchIsFirst(rels[1..], table);
      assert forall j :: 1 <= j < |rels| ==> rels[j] == rels[1..][j - 1];
    }
  }

  /** `reverseRelationshipFields`: the aliases of the reverse relationships,
      in query order. */
  function ReverseFields(rels: seq<Relationship>): seq<string>
  {
    if rels == [] then []
    else (if IsReverse(rels[0]) then [rels[0].column] else []) + ReverseFields(rels[1..])
  }

  /** The aliases listed are exactly those of the reverse relationships. */
  lemma {:induction false} ReverseFieldsMembers(rels: seq<Relationship>)
    ensures forall c :: c in ReverseFields(rels) <==> exists i :: 0 <= i < |rels| && IsReverse(rels[i]) && rels[i].column == c
  {
    if rels != [] {
      ReverseFieldsMembers(rels[1..]);
      var rest := ReverseFields(rels[1..]);
      forall c | c in rest ensures exists i :: 1 <= i < |rels| && IsReverse(rels[i]) && rels[i].column == c {
        var j :| 0 <= j < |rels[1..]| && IsReverse(rels[1..][j]) && rels[1..][j].column == c;
        assert rels[j + 1] == rels[1..][j];
      }
      forall c | exists i :: 1 <= i < |rels| && IsReverse(rels[i]) && rels[i].column == c ensures c in rest {
        var i :| 1 <= i < |rels| && IsReverse(rels[i]) && rels[i].column == c;
        assert rels[1..][i - 1] == rels[i];
      }
    }
  }

  // ---------------------------------------------------------------------------
  // Resolving one field

  /** An entry of the select list: a column path, or the expansion of a
      reverse relationship (`{ name, columns, as }`). */
  datatype SelectItem = Column(path: string) | Expansion(name: string, columns: seq<string>, alias: string)

  /** The select list and field mapping built so far. */
  datatype Resolution = Resolution(items: seq<SelectItem>, mapping: map<string, string>)

  predicate StartsWithDollar(s: string)
  {
    |s| > 0 && s[0] == '$'
  }

  /** How one requested field is resolved. */
  datatype Route =
    | Malformed
    | ViaReverse(rel: Relationship, column: string)
    | ViaForward(rel: Relationship, column: string)
    | OwnColumn(column: string)
    | ForeignTable

  function RouteOf(q: QueryJson, rev: seq<string>, field: string): (r: Route)
    ensures r.ViaReverse? ==> Present(r.rel.to) && r.rel.column in rev
    ensures r.ViaForward? ==> r.rel.column !in rev
  {
    match ParseFieldPath(field)
    case None => Malformed
    case Some(p) =>
      match FirstMatch(q.relationships, p.table)
      case Some(i) =>
        var rel := q.relationships[i];
        if rel.column in rev then ViaReverse(rel, p.column) else ViaForward(rel, p.column)
      case None =>
        if p.table == q.entityId then OwnColumn(p.column) else ForeignTable
  }

  /** A route the resolver can follow: a reverse relationship sets `to`. */
  type FieldRoute = r: Route | r.ViaReverse? ==> Present(r.rel.to) witness Malformed

  /** The route of each field of the query `q`. */
  function Router(q: QueryJson, rev: seq<string>): string -> FieldRoute
  {
    f => RouteOf(q, rev, f)
  }

  /** The index of the first expansion with alias `alias`. */
  function FindExpansion(items: seq<SelectItem>, alias: string): (r: Option<nat>)
    ensures r.Some? ==> r.value < |items| && items[r.value].Expansion? && items[r.value].alias == alias
    decreases |items|
  {
    if items == [] then None
    else
      match FindExpansion(items[..|items| - 1], alias)
      case Some(k) => Some(k)
      case None =>
        var last := items[|items| - 1];
        if last.Expansion? && last.alias == alias then Some(|items| - 1) else None
  }

  /** No expansion has the alias when none is found. */
  lemma {:induction false} FindExpansionNone(items: seq<SelectItem>, alias: string)
    ensures FindExpansion(items, alias).None? <==> forall k :: 0 <= k < |items| ==> !(items[k].Expansion? && items[k].alias == alias)
    decreases |items|
  {
    if items != [] {
      var init := items[..|items| - 1];
      FindExpansionNone(init, alias);
      assert forall k :: 0 <= k < |init| ==> init[k] == items[k];
    }
  }

  /** Add `column` to the expansion of the reverse relationship `rel`: into the
      existing expansion with its alias, or as a new expansion at the end. */
  function MergeExpansion(items: seq<SelectItem>, rel: Relationship, column: string): seq<SelectItem>
    requires Present(rel.to)
  {
    match FindExpansion(items, rel.column)
    case Some(k) => items[k := items[k].(columns := items[k].columns + [column])]
    case None => items + [Expansion("<-" + rel.tableName + "." + rel.to.value[1..], [column], rel.column)]
  }

  predicate Resolvable(r: Route)
  {
    !r.Malformed? && !r.ForeignTable?
  }

  /** The Xata path a resolvable field is read from. */
  function Target(r: Route): string
    requires Resolvable(r)
  {
    match r
    case ViaReverse(rel, column) => if StartsWithDollar(column) then "id" else rel.column + "." + column
    case ViaForward(rel, column) => rel.column + "." + column
    case OwnColumn(column) => if StartsWithDollar(column) then column[1..] + ".id" else column
  }

  /** The select list after resolving a field with route `r`: a reverse
      relationship's `$column` selects nothing, another reverse column joins
      the relationship's expansion, and every other field selects its target. */
  function NextItems(items: seq<SelectItem>, r: Route): seq<SelectItem>
    requires Resolvable(r) && (r.ViaReverse? ==> Present(r.rel.to))
  {
    match r
    case ViaReverse(rel, column) => if StartsWithDollar(column) then items else MergeExpansion(items, rel, column)
    case _ => items + [Column(Target(r))]
  }

  /** One iteration of the loop over the requested fields. */
  function ResolveField(route: string -> FieldRoute, acc: Resolution, field: string): Result<Resolution, Error>
  {
    var route := route(field);
    if !Resolvable(route) then Failure(InvalidField(field))
    else Success(Resolution(NextItems(acc.items, route), acc.mapping[field := Target(route)]))
  }

  /** The loop over the requested fields, stopping at the first invalid one. */
  function ResolveFields(route: string -> FieldRoute, fields: seq<string>): Result<Resolution, Error>
    decreases |fields|
  {
    if fields == [] then Success(Resolution([], map[]))
    else
      match ResolveFields(route, fields[..|fields| - 1])
      case Failure(e) => Failure(e)
      case Success(acc) => ResolveField(route, acc, fields[|fields| - 1])
  }

  // ---------------------------------------------------------------------------
  // File columns

  /** The own-table column `f` is a file column by the query's table schema. */
  predicate IsFileColumn(schema: Option<TableSchema>, f: string)
  {
    && schema.Some? && f in schema.value
    && (schema.value[f].externalType == Some("file") || schema.value[f].externalType == Some("file[]"))
  }

  /** The properties of a file the select list asks for. */
  function FileSubPaths(f: string): seq<SelectItem>
  {
    [Column(f + ".size"), Column(f + ".name"), Column(f + ".mediaType"), Column(f + ".url"), Column(f + ".signedUrl")]
  }

  predicate IsExpandable(schema: Option<TableSchema>, it: SelectItem)
  {
    it.Column? && '.' !in it.path && IsFileColumn(schema, it.path)
  }

  /** What one select item becomes: a file column its five properties, any
      other item itself. */
  function ExpandOne(it: SelectItem, schema: Option<TableSchema>): seq<SelectItem>
  {
    if IsExpandable(schema, it) then FileSubPaths(it.path) else [it]
  }

  /** The `flatMap` that replaces each file column by its five properties. */
  function ExpandFileFields(items: seq<SelectItem>, schema: Option<TableSchema>): seq<SelectItem>
    decreases |items|
  {
    if items == [] then []
    else
      var last := items[|items| - 1];
      ExpandFileFields(items[..|items| - 1], schema) + ExpandOne(last, schema)
  }

  // ---------------------------------------------------------------------------
  // The whole resolver

  datatype FieldsResult = FieldsResult(fields: seq<SelectItem>, mapping: map<string, string>, reverse: seq<string>)

  /** `parseQueryFields` as a function of the query. */
  function QueryFields(q: QueryJson): Result<FieldsResult, Error>
  {
    var rev := ReverseFields(q.relationships);
    match ResolveFields(Router(q, rev), q.fields)
    case Failure(e) => Failure(e)
    case Success(res) => Success(FieldsResult(ExpandFileFields(res.items, q.tableSchema), res.mapping, rev))
  }

  lemma {:induction false} ResolveFailurePersists(route: string -> FieldRoute, fields: seq<string>, n: nat, e: Error)
    requires n <= |fields| && ResolveFields(route, fields[..n]) == Failure(e)
    ensures ResolveFields(route, fields) == Failure(e)
    decreases |fields| - n
  {
    if n == |fields| {
      assert fields[..n] == fields;
    } else {
      assert fields[..n + 1][..n] == fields[..n];
      ResolveFailurePersists(route, fields, n + 1, e);
    }
  }

  /** Resolving one more field continues from the resolution of the fields
      before it. */
  lemma ResolveFieldsSnoc(route: string -> FieldRoute, fields: seq<string>, i: nat)
    requires i < |fields|
    ensures ResolveFields(route, fields[..i + 1]) ==
      match ResolveFields(route, fields[..i])
      case Failure(e) => Failure(e)
      case Success(acc) => ResolveField(route, acc, fields[i])
  {
    assert fields[..i + 1][..i] == fields[..i];
  }

  /** The body of the loop over the requested fields, with the inner search for
      the relationship a field is routed through. */
  method ResolveOne(q: QueryJson, rev: seq<string>, items: seq<SelectItem>, mapping: map<string, string>, field: string)
    returns (r: Result<Resolution, Error>)
    ensures r == ResolveField(Router(q, rev), Resolution(items, mapping), field)
  {
    var rels := q.relationships;
    var parsed := ParseFieldPath(field);
    if parsed.None? {
      return Failure(InvalidField(field));
    }
    var table, column := parsed.value.table, parsed.value.column;
    var j := 0;
    while j < |rels| && !Matches(rels[j], table)
      invariant 0 <= j <= |rels|
      invariant forall k :: 0 <= k < j ==> !Matches(rels[k], table)
    {
      j := j + 1;
    }
    if j < |rels| {
      var rel := rels[j];
      FirstMatchIsFirst(rels, table);
      assert FirstMatch(rels, table) == Some(j);
      if rel.column in rev {
        assert RouteOf(q, rev, field) == ViaReverse(rel, column);
        if StartsWithDollar(column) {
          r := Success(Resolution(items, mapping[field := "id"]));
        } else {
          r := Success(Resolution(MergeExpansion(items, rel, column), mapping[field := rel.column + "." + column]));
        }
      } else {
        assert RouteOf(q, rev, field) == ViaForward(rel, column);
        var path := rel.column + "." + column;
        r := Success(Resolution(items + [Column(path)], mapping[field := path]));
      }
    } else if table != q.entityId {
      FirstMatchIsFirst(rels, table);
      assert RouteOf(q, rev, field) == ForeignTable;
      r := Failure(InvalidField(field));
    } else {
      FirstMatchIsFirst(rels, table);
      assert RouteOf(q, rev, field) == OwnColumn(column);
      var path := if StartsWithDollar(column) then column[1..] + ".id" else column;
      r := Success(Resolution(items + [Column(path)], mapping[field := path]));
    }
  }

  /** `parseQueryFields`. */
  method ParseQueryFields(q: QueryJson) returns (r: Result<FieldsResult, Error>)
    ensures r == QueryFields(q)
  {
    var rev := ReverseFields(q.relationships);
    ghost var route := Router(q, rev);
    var items: seq<SelectItem> := [];
    var mapping: map<string, string> := map[];
    var i := 0;
    while i < |q.fields|
      invariant 0 <= i <= |q.fields|
      invariant ResolveFields(route, q.fields[..i]) == Success(Resolution(items, mapping))
    {
      var step := ResolveOne(q, rev, items, mapping, q.fields[i]);
      ResolveFieldsSnoc(route, q.fields, i);
      if step.Failure? {
        ResolveFailurePersists(route, q.fields, i + 1, step.error);
        return Failure(step.error);
      }
      items, mapping := step.value.items, step.value.mapping;
      i := i + 1;
    }
    assert q.fields[..i] == q.fields;
    r := Success(FieldsResult(ExpandFileFields(items, q.tableSchema), mapping, rev));
  }
}

module FieldsProperties {
  import opened Wrappers
  import opened Errors
  import opened Budibase
  import opened Fields
  import Schema
  import Utils

  // ---------------------------------------------------------------------------
  // Errors

  /** The resolver fails exactly when some requested field is malformed or
      names a table that is neither the queried one nor reachable through a
      relationship, and it reports the first such field. */
  lemma {:induction false} ResolveFailsIff(route: string -> FieldRoute, fields: seq<string>)
    ensures ResolveFields(route, fields).Failure? <==> exists i :: 0 <= i < |fields| && !Resolvable(route(fields[i]))
    ensures ResolveFields(route, fields).Failure? ==>
      exists i :: 0 <= i < |fields| && !Resolvable(route(fields[i]))
        && ResolveFields(route, fields).error == InvalidField(fields[i])
        && forall j :: 0 <= j < i ==> Resolvable(route(fields[j]))
    decreases |fields|
  {
    if fields != [] {
      var init, n := fields[..|fields| - 1], |fields| - 1;
      ResolveFailsIff(route, init);
      assert forall i :: 0 <= i < |init| ==> init[i] == fields[i];
      match ResolveFields(route, init)
      case Failure(e) =>
        assert ResolveFields(route, fields) == Failure(e);
        var i :| 0 <= i < |init| && !Resolvable(route(init[i])) && e == InvalidField(init[i])
          && forall j :: 0 <= j < i ==> Resolvable(route(init[j]));
        assert !Resolvable(route(fields[i])) && e == InvalidField(fields[i]);
      case Success(acc) =>
        assert ResolveFields(route, fields) == ResolveField(route, acc, fields[n]);
        assert forall i :: 0 <= i < n ==> Resolvable(route(fields[i]));
    }
  }

  lemma QueryFieldsFailsIff(q: QueryJson)
    ensures var rev := ReverseFields(q.relationships);
      QueryFields(q).Failure? <==> exists i :: 0 <= i < |q.fields| && !Resolvable(RouteOf(q, rev, q.fields[i]))
    ensures var rev := ReverseFields(q.relationships);
      QueryFields(q).Failure? ==>
        exists i :: 0 <= i < |q.fields| && !Resolvable(RouteOf(q, rev, q.fields[i]))
          && QueryFields(q).error == InvalidField(q.fields[i])
          && forall j :: 0 <= j < i ==> Resolvable(RouteOf(q, rev, q.fields[j]))
  {
    ResolveFailsIff(Router(q, ReverseFields(q.relationships)), q.fields);
  }

  // ---------------------------------------------------------------------------
  // The field mapping

  /** The mapping has one entry per requested field, and the entry of each
      field is that field's own target, whatever else was requested. */
  lemma {:induction false} ResolveMapping(route: string -> FieldRoute, fields: seq<string>)
    requires ResolveFields(route, fields).Success?
    ensures forall f :: f in ResolveFields(route, fields).value.mapping <==> f in fields
    ensures forall f :: f in fields ==>
      Resolvable(route(f)) && ResolveFields(route, fields).value.mapping[f] == Target(route(f))
    decreases |fields|
  {
    if fields != [] {
      var init := fields[..|fields| - 1];
      var last, acc := fields[|fields| - 1], ResolveFields(route, init).value;
      ResolveMapping(route, init);
      assert fields == init + [last];
      assert ResolveFields(route, fields).value.mapping == acc.mapping[last := Target(route(last))];
    }
  }

  // ---------------------------------------------------------------------------
  // The select list

  /** No two expansions share an alias, and every alias is a reverse
      relationship's. */
  ghost predicate ExpansionsWellFormed(items: seq<SelectItem>, rev: seq<string>)
  {
    && (forall k, l :: 0 <= k < l < |items| && items[k].Expansion? && items[l].Expansion? ==> items[k].alias != items[l].alias)
    && (forall k :: 0 <= k < |items| && items[k].Expansion? ==> items[k].alias in rev)
  }

  /** Merging a column into an expansion keeps every existing entry in place
      (an expansion keeps its alias and gains at most columns), and afterwards
      some expansion with the relationship's alias holds the column. */
  lemma MergeExpansionKeeps(items: seq<SelectItem>, rel: Relationship, column: string)
    requires Present(rel.to)
    ensures var m := MergeExpansion(items, rel, column);
      && |m| >= |items|
      && (forall k :: 0 <= k < |items| && items[k].Column? ==> m[k] == items[k])
      && (forall k :: 0 <= k < |items| && items[k].Expansion? ==>
            m[k].Expansion? && m[k].alias == items[k].alias && forall c :: c in items[k].columns ==> c in m[k].columns)
      && (forall k :: |items| <= k < |m| ==> m[k].Expansion? && m[k].alias == rel.column)
      && exists k :: 0 <= k < |m| && m[k].Expansion? && m[k].alias == rel.column && column in m[k].columns
  {
    match FindExpansion(items, rel.column)
    case Some(k) =>
      var m := MergeExpansion(items, rel, column);
      assert column in m[k].columns;
    case None =>
      var m := MergeExpansion(items, rel, column);
      assert column in m[|items|].columns;
  }

  lemma MergeExpansionWellFormed(items: seq<SelectItem>, rev: seq<string>, rel: Relationship, column: string)
    requires Present(rel.to) && rel.column in rev
    requires ExpansionsWellFormed(items, rev)
    ensures ExpansionsWellFormed(MergeExpansion(items, rel, column), rev)
  {
    FindExpansionNone(items, rel.column);
  }

  /** The select list never holds two expansions with the same alias. */
  lemma {:induction false} ResolveExpansionsWellFormed(route: string -> FieldRoute, rev: seq<string>, fields: seq<string>)
    requires forall f :: route(f).ViaReverse? ==> route(f).rel.column in rev
    requires ResolveFields(route, fields).Success?
    ensures ExpansionsWellFormed(ResolveFields(route, fields).value.items, rev)
    decreases |fields|
  {
    if fields != [] {
      var init := fields[..|fields| - 1];
      ResolveExpansionsWellFormed(route, rev, init);
      var step := route(fields[|fields| - 1]);
      if step.ViaReverse? && !StartsWithDollar(step.column) {
        MergeExpansionWellFormed(ResolveFields(route, init).value.items, rev, step.rel, step.column);
      }
    }
  }

  /** Some expansion with alias `alias` selects `column`. */
  ghost predicate Expands(items: seq<SelectItem>, alias: string, column: string)
  {
    exists k :: 0 <= k < |items| && items[k].Expansion? && items[k].alias == alias && column in items[k].columns
  }

  /** A field is requested through a reverse relationship by a column name
      (not its `$` shadow). */
  predicate IsReverseColumn(r: Route)
  {
    r.ViaReverse? && !StartsWithDollar(r.column)
  }

  lemma NextItemsExpands(items: seq<SelectItem>, r: Route, alias: string, column: string)
    requires Resolvable(r) && (r.ViaReverse? ==> Present(r.rel.to))
    ensures Expands(items, alias, column) ==> Expands(NextItems(items, r), alias, column)
    ensures IsReverseColumn(r) ==> Expands(NextItems(items, r), r.rel.column, r.column)
  {
    if IsReverseColumn(r) {
      MergeExpansionKeeps(items, r.rel, r.column);
      if Expands(items, alias, column) {
        var k :| 0 <= k < |items| && items[k].Expansion? && items[k].alias == alias && column in items[k].columns;
        assert NextItems(items, r)[k].alias == alias && column in NextItems(items, r)[k].columns;
      }
    } else if Expands(items, alias, column) {
      var k :| 0 <= k < |items| && items[k].Expansion? && items[k].alias == alias && column in items[k].columns;
      assert NextItems(items, r)[k] == items[k];
    }
  }

  /** Each column requested through a reverse relationship is selected inside
      that relationship's expansion. */
  lemma {:induction false} ResolveReverseColumns(route: string -> FieldRoute, fields: seq<string>)
    requires ResolveFields(route, fields).Success?
    ensures forall f :: f in fields && IsReverseColumn(route(f)) ==>
      Expands(ResolveFields(route, fields).value.items, route(f).rel.column, route(f).column)
    decreases |fields|
  {
    if fields != [] {
      var init, last := fields[..|fields| - 1], fields[|fields| - 1];
      ResolveReverseColumns(route, init);
      var items1 := ResolveFields(route, init).value.items;
      var step := route(last);
      assert ResolveFields(route, fields).value.items == NextItems(items1, step);
      forall f | f in fields && IsReverseColumn(route(f))
        ensures Expands(NextItems(items1, step), route(f).rel.column, route(f).column)
      {
        NextItemsExpands(items1, step, route(f).rel.column, route(f).column);
        if f != last {
          assert f in init by {
            var i :| 0 <= i < |fields| && fields[i] == f;
            assert init[i] == f;
          }
        }
      }
    }
  }

  predicate IsDirect(r: Route)
  {
    r.ViaForward? || r.OwnColumn?
  }

  /** Resolving a field keeps every plain column already selected, adds the
      target of a field not routed through a reverse relationship, and adds
      no other plain column. */
  lemma NextItemsColumns(items: seq<SelectItem>, r: Route)
    requires Resolvable(r) && (r.ViaReverse? ==> Present(r.rel.to))
    ensures forall x :: x in items && x.Column? ==> x in NextItems(items, r)
    ensures IsDirect(r) ==> Column(Target(r)) in NextItems(items, r)
    ensures forall x :: x in NextItems(items, r) && x.Column? ==> x in items || (IsDirect(r) && x == Column(Target(r)))
  {
    if IsReverseColumn(r) {
      var m := NextItems(items, r);
      MergeExpansionKeeps(items, r.rel, r.column);
      forall x | x in items && x.Column? ensures x in m {
        var k :| 0 <= k < |items| && items[k] == x;
        assert m[k] == x;
      }
      forall x | x in m && x.Column? ensures x in items {
        var k :| 0 <= k < |m| && m[k] == x;
        assert k < |items| && items[k] == x;
      }
    }
  }

  /** Every field not routed through a reverse relationship has its target
      selected as a plain column. */
  lemma {:induction false} ResolveDirectSelected(route: string -> FieldRoute, fields: seq<string>)
    requires ResolveFields(route, fields).Success?
    ensures forall f :: f in fields && IsDirect(route(f)) ==>
      Column(Target(route(f))) in ResolveFields(route, fields).value.items
    decreases |fields|
  {
    if fields != [] {
      var init, last := fields[..|fields| - 1], fields[|fields| - 1];
      ResolveDirectSelected(route, init);
      var items1 := ResolveFields(route, init).value.items;
      var step := route(last);
      assert ResolveFields(route, fields).value.items == NextItems(items1, step);
      NextItemsColumns(items1, step);
      forall f | f in fields && IsDirect(route(f)) ensures Column(Target(route(f))) in NextItems(items1, step) {
        if f != last {
          assert f in init by {
            var i :| 0 <= i < |fields| && fields[i] == f;
            assert init[i] == f;
          }
        }
      }
    }
  }

  /** The path `path` is the target of some requested field that is not routed
      through a reverse relationship. */
  ghost predicate IsDirectTarget(route: string -> FieldRoute, fields: seq<string>, path: string)
  {
    exists f :: f in fields && IsDirect(route(f)) && path == Target(route(f))
  }

  /** Every plain column selected is the target of a requested field. */
  lemma {:induction false} ResolveSelectedDirect(route: string -> FieldRoute, fields: seq<string>)
    requires ResolveFields(route, fields).Success?
    ensures forall x :: x in ResolveFields(route, fields).value.items && x.Column? ==> IsDirectTarget(route, fields, x.path)
    decreases |fields|
  {
    if fields != [] {
      var init, last := fields[..|fields| - 1], fields[|fields| - 1];
      ResolveSelectedDirect(route, init);
      var items1 := ResolveFields(route, init).value.items;
      var step := route(last);
      assert ResolveFields(route, fields).value.items == NextItems(items1, step);
      NextItemsColumns(items1, step);
      forall x | x in NextItems(items1, step) && x.Column? ensures IsDirectTarget(route, fields, x.path) {
        if x in items1 {
          var f :| f in init && IsDirect(route(f)) && x.path == Target(route(f));
          assert f in fields;
        } else {
          assert last in fields;
        }
      }
    }
  }

  // ---------------------------------------------------------------------------
  // File columns

  lemma {:induction false} ExpandConcat(a: seq<SelectItem>, b: seq<SelectItem>, schema: Option<TableSchema>)
    ensures ExpandFileFields(a + b, schema) == ExpandFileFields(a, schema) + ExpandFileFields(b, schema)
    decreases |b|
  {
    if b == [] {
      assert a + b == a;
    } else {
      var init := b[..|b| - 1];
      assert (a + b)[..|a + b| - 1] == a + init;
      ExpandConcat(a, init, schema);
    }
  }

  /** The select list after expansion: every entry that is not a file column,
      and the five properties of every file column, and nothing else. */
  lemma {:induction false} ExpandMembers(items: seq<SelectItem>, schema: Option<TableSchema>)
    ensures forall x :: x in ExpandFileFields(items, schema) <==>
      (x in items && !IsExpandable(schema, x))
      || exists k :: 0 <= k < |items| && IsExpandable(schema, items[k]) && x in FileSubPaths(items[k].path)
    decreases |items|
  {
    if items != [] {
      var init := items[..|items| - 1];
      ExpandMembers(init, schema);
      assert items == init + [items[|items| - 1]];
      assert forall k :: 0 <= k < |init| ==> init[k] == items[k];
    }
  }

  /** A list without file columns is left as it is. */
  lemma {:induction false} ExpandNothing(items: seq<SelectItem>, schema: Option<TableSchema>)
    requires forall k :: 0 <= k < |items| ==> !IsExpandable(schema, items[k])
    ensures ExpandFileFields(items, schema) == items
    decreases |items|
  {
    if items != [] {
      ExpandNothing(items[..|items| - 1], schema);
    }
  }

  lemma SubPathsHaveDots(f: string)
    ensures forall k :: 0 <= k < 5 ==> '.' in FileSubPaths(f)[k].path
  {
    var t := FileSubPaths(f);
    assert t[0].path[|f|] == '.' && t[1].path[|f|] == '.' && t[2].path[|f|] == '.';
    assert t[3].path[|f|] == '.' && t[4].path[|f|] == '.';
  }

  /** Expanding twice is expanding once: the properties of a file are paths
      with a dot, which are never expanded again. */
  lemma {:induction false} ExpandIdempotent(items: seq<SelectItem>, schema: Option<TableSchema>)
    ensures ExpandFileFields(ExpandFileFields(items, schema), schema) == ExpandFileFields(items, schema)
    decreases |items|
  {
    if items != [] {
      var init, last := items[..|items| - 1], items[|items| - 1];
      ExpandIdempotent(init, schema);
      var tail := if IsExpandable(schema, last) then FileSubPaths(last.path) else [last];
      ExpandConcat(ExpandFileFields(init, schema), tail, schema);
      if IsExpandable(schema, last) {
        SubPathsHaveDots(last.path);
      }
      ExpandNothing(tail, schema);
    }
  }

  // ---------------------------------------------------------------------------
  // Examples

  function PostsQuery(fields: seq<string>, rels: seq<Relationship>, schema: Option<TableSchema>): QueryJson
  {
    QueryJson("Posts", Read, fields, rels, Filters(None, None, []), [], None, [], map[], schema)
  }

  /** The schema build and the field parser agree on file columns: the field
      the build writes for a plain column is expanded into the file's
      properties exactly when the column's type is `file` or `file[]`, and the
      fields written for a forward link never are. */
  lemma BuiltFileColumnExpanded(schema: TableSchema, c: Schema.XataColumn, ft: FieldType, tableId: string, id: Uuid)
    ensures IsFileColumn(Some(schema[c.name := Schema.PlainField(c, ft)]), c.name) <==>
      c.columnType == Utils.File || c.columnType == Utils.FileArray
    ensures !IsFileColumn(Some(schema[c.name := Schema.ForwardLinkField(c.name, tableId, id)]), c.name)
    ensures !IsFileColumn(Some(schema["$" + c.name := Schema.ShadowField(c.name)]), "$" + c.name)
  {
    match c.columnType
    case File =>
    case FileArray =>
    case _ =>
      assert Utils.Tag(c.columnType) != "file" && Utils.Tag(c.columnType) != "file[]";
  }

  /** With no relationships, `table.column` on a query of `table` is an own
      column. */
  lemma RouteOwnColumn(q: QueryJson, rev: seq<string>, table: string, column: string)
    requires IsWord(table) && IsColumnRef(column)
    requires q.entityId == table && q.relationships == []
    ensures RouteOf(q, rev, table + "." + column) == OwnColumn(column)
  {
    ParseDotted(table, column);
  }

  /** Two own columns `table.c1` and `table.c2` on a query of `table` select
      `c1` and `c2`, in that order. */
  lemma TwoOwnColumns(q: QueryJson, table: string, c1: string, c2: string)
    requires IsWord(table) && IsWord(c1) && IsWord(c2)
    requires q.entityId == table && q.relationships == [] && q.tableSchema == None
    requires q.fields == [table + "." + c1, table + "." + c2]
    ensures QueryFields(q) == Success(FieldsResult([Column(c1), Column(c2)], map[q.fields[0] := c1, q.fields[1] := c2], []))
  {
    var rev := ReverseFields(q.relationships);
    var f1, f2 := q.fields[0], q.fields[1];
    RouteOwnColumn(q, rev, table, c1);
    RouteOwnColumn(q, rev, table, c2);
    assert IsWordChar(c1[0]) && IsWordChar(c2[0]);
    assert Target(OwnColumn(c1)) == c1 && Target(OwnColumn(c2)) == c2;
    assert q.fields[..1] == [f1] && q.fields[..1][..0] == [];
    assert RouteOf(q, rev, f1) == OwnColumn(c1) && RouteOf(q, rev, f2) == OwnColumn(c2);
    assert NextItems([], OwnColumn(c1)) == [Column(c1)];
    assert map[][f1 := c1] == map[f1 := c1];
    assert ResolveField(Router(q, rev), Resolution([], map[]), f1) == Success(Resolution([Column(c1)], map[f1 := c1]));
    assert ResolveFields(Router(q, rev), q.fields[..1]) == Success(Resolution([Column(c1)], map[f1 := c1]));
    var items := [Column(c1), Column(c2)];
    assert NextItems([Column(c1)], OwnColumn(c2)) == items;
    assert q.fields[..|q.fields| - 1] == q.fields[..1];
    assert ResolveFields(Router(q, rev), q.fields) == Success(Resolution(items, map[f1 := c1, f2 := c2]));
    assert ExpandFileFields(items, None) == items by {
      assert items[..1] == [Column(c1)] && items[..1][..0] == [];
      assert ExpandFileFields(items[..1], None) == [Column(c1)];
    }
  }

  /** A query for the one own column `table.c` resolves to that column's
      target. */
  lemma SingleOwnColumn(q: QueryJson, table: string, c: string)
    requires IsWord(table) && IsColumnRef(c)
    requires q.entityId == table && q.relationships == [] && q.fields == [table + "." + c]
    ensures var t := Target(OwnColumn(c));
      QueryFields(q) == Success(FieldsResult(ExpandOne(Column(t), q.tableSchema), map[q.fields[0] := t], []))
  {
    var rev := ReverseFields(q.relationships);
    RouteOwnColumn(q, rev, table, c);
    var f, t := q.fields[0], Target(OwnColumn(c));
    assert q.fields[..0] == [];
    assert ResolveFields(Router(q, rev), q.fields[..0]) == Success(Resolution([], map[]));
    assert Router(q, rev)(f) == OwnColumn(c);
    assert NextItems([], OwnColumn(c)) == [Column(t)];
    assert map[][f := t] == map[f := t];
    assert ResolveField(Router(q, rev), Resolution([], map[]), f) == Success(Resolution([Column(t)], map[f := t]));
    assert ExpandFileFields([Column(t)], q.tableSchema) == ExpandOne(Column(t), q.tableSchema) by {
      assert [Column(t)][..0] == [];
    }
  }

  /** An own file column `table.c` is selected as its five properties. */
  lemma FileColumnSelected(q: QueryJson, table: string, c: string)
    requires IsWord(table) && IsWord(c)
    requires q.entityId == table && q.relationships == [] && q.fields == [table + "." + c]
    requires IsFileColumn(q.tableSchema, c)
    ensures QueryFields(q).Success? && QueryFields(q).value.fields == FileSubPaths(c)
  {
    assert Target(OwnColumn(c)) == c by {
      assert IsWordChar(c[0]);
    }
    assert '.' !in c by {
      assert forall i :: 0 <= i < |c| ==> IsWordChar(c[i]);
    }
    assert ExpandOne(Column(c), q.tableSchema) == FileSubPaths(c);
    SingleOwnColumn(q, table, c);
  }

  /** The link field the schema builder writes for a forward link column names
      a shadow field; requesting that shadow field on the owning table reads
      the linked record's `fieldName` through the link column. */
  lemma ShadowFieldRoundTrip(table: string, column: string, tableId: string, id: Uuid, q: QueryJson)
    requires IsWord(table) && IsWord(column)
    requires q.entityId == table && q.relationships == []
    requires q.fields == [table + "." + Schema.ForwardLinkField(column, tableId, id).link.value.foreignKey]
    ensures var link := Schema.ForwardLinkField(column, tableId, id).link.value;
      && QueryFields(q).Success?
      && QueryFields(q).value.mapping == map[q.fields[0] := column + "." + link.fieldName]
      && QueryFields(q).value.fields == [Column(column + "." + link.fieldName)]
  {
    var link := Schema.ForwardLinkField(column, tableId, id).link.value;
    var shadow, path := "$" + column, column + ".id";
    assert link.foreignKey == shadow && link.fieldName == "id";
    assert Target(OwnColumn(shadow)) == path by {
      assert shadow[1..] == column;
    }
    assert column + "." + link.fieldName == path by {
      assert "." + "id" == ".id";
      assert column + "." + "id" == column + ("." + "id");
    }
    SingleOwnColumn(q, table, shadow);
    assert !IsExpandable(q.tableSchema, Column(path)) by {
      assert path[|column|] == '.';
    }
  }
}
