/** `parseQueryFilter` (src/datasource.ts): Budibase search filters become a
    Xata filter tree. Keys carrying an `N:` ordinal are grouped by field, fields
    are renamed through the field mapping, predicates on fields reached through
    a reverse relationship are dropped, and each operator becomes a node. */
module Filter {
  import opened Wrappers
  import opened Json
  import opened Budibase

  // ---------------------------------------------------------------------------
  // The output tree

  /** `$all` or `$any`. */
  datatype JoinOp = All | Any

  /** A per-value predicate inside a `$all`/`$any` list. */
  datatype Cond =
    | StartsWith(prefix: string)
    | Contains(value: Value)
    | AnyContains(values: seq<Value>)
    | NotContains(value: Value)
    | Is(value: Value)
    | IsNot(value: Value)
    | Pattern(pattern: string)

  /** One element of the top-level list. `Absent` is the `undefined` an
      unrecognised operator leaves in the list. */
  datatype Term =
    | Combined(field: string, op: JoinOp, conds: seq<Cond>)
    | Range(field: string, ge: int, le: int)
    | AnyOf(field: string, values: seq<Value>)
    | Exists(field: string)
    | NotExists(field: string)
    | Absent

  datatype XataFilter = XataFilter(op: JoinOp, terms: seq<Term>)

  /** `allOr ? '$any' : '$all'` */
  function JoinOf(f: Filters): JoinOp
  {
    if f.allOr == Some(true) then Any else All
  }

  // ---------------------------------------------------------------------------
  // Ordinal prefixes

  predicate IsDigit(c: char)
  {
    '0' <= c <= '9'
  }

  function LeadingDigits(s: string): (n: nat)
    ensures n <= |s|
    ensures forall i :: 0 <= i < n ==> IsDigit(s[i])
    ensures n < |s| ==> !IsDigit(s[n])
  {
    if s == [] || !IsDigit(s[0]) then 0 else 1 + LeadingDigits(s[1..])
  }

  /** `key.replace(/^\d+:/, '')` */
  function StripOrdinal(key: string): string
  {
    var n := LeadingDigits(key);
    if 1 <= n < |key| && key[n] == ':' then key[n + 1..] else key
  }

  // ---------------------------------------------------------------------------
  // Grouping by field

  /** The object `_.transform` builds: its keys in insertion order and the list
      each key holds. */
  datatype Grouped<T> = Grouped(keys: seq<string>, values: map<string, seq<T>>)

  /** `(result[key] ??= []).push(v)` */
  function Push<T>(g: Grouped<T>, key: string, v: T): Grouped<T>
  {
    if key in g.values then Grouped(g.keys, g.values[key := g.values[key] + [v]])
    else Grouped(g.keys + [key], g.values[key := [v]])
  }

  /** The entries of one operator group, grouped by their stripped key. */
  function GroupByField<T>(entries: seq<(string, T)>): Grouped<T>
    decreases |entries|
  {
    if entries == [] then Grouped([], map[])
    else
      var last := entries[|entries| - 1];
      Push(GroupByField(entries[..|entries| - 1]), StripOrdinal(last.0), last.1)
  }

  /** Every listed key holds a list and every list is under a listed key. */
  lemma {:induction false} GroupKeysHaveValues<T>(entries: seq<(string, T)>)
    ensures forall k :: k in GroupByField(entries).keys <==> k in GroupByField(entries).values
    decreases |entries|
  {
    if entries != [] {
      GroupKeysHaveValues(entries[..|entries| - 1]);
    }
  }

  /** The values whose key strips to `key`, in entry order: the reference the
      grouping is checked against. */
  function ValuesFor<T>(entries: seq<(string, T)>, key: string): seq<T>
    decreases |entries|
  {
    if entries == [] then []
    else
      var last := entries[|entries| - 1];
      ValuesFor(entries[..|entries| - 1], key) + (if StripOrdinal(last.0) == key then [last.1] else [])
  }

  // ---------------------------------------------------------------------------
  // Fields

  /** `fieldsMapping[field] ?? field` */
  function MapField(mapping: map<string, string>, field: string): string
  {
    if field in mapping then mapping[field] else field
  }

  /** The field is reached through the reverse relationship alias `r`. */
  predicate ThroughAlias(field: string, r: string)
  {
    |r| + 1 <= |field| && field[..|r| + 1] == r + "."
  }

  /** Filtering on a field reached through a reverse relationship is ignored. */
  predicate Dropped(rev: seq<string>, field: string)
  {
    exists r :: r in rev && ThroughAlias(field, r)
  }

  /** The node for each grouped key whose field is not dropped, in key order. */
  function Terms<T>(g: Grouped<T>, ks: seq<string>, op: JoinOp, mapping: map<string, string>, rev: seq<string>, mk: (string, JoinOp, seq<T>) -> Term): seq<Term>
    requires forall k :: k in ks ==> k in g.values
    decreases |ks|
  {
    if ks == [] then []
    else
      var k := ks[|ks| - 1];
      var field := MapField(mapping, k);
      Terms(g, ks[..|ks| - 1], op, mapping, rev, mk) + (if Dropped(rev, field) then [] else [mk(field, op, g.values[k])])
  }

  // ---------------------------------------------------------------------------
  // Operators

  /** `-Number.MIN_SAFE_INTEGER`: the lower bound when no `low` is given. */
  const LowDefault: int := 9007199254740991

  /** `-Number.MAX_SAFE_INTEGER`: the upper bound when no `high` is given. */
  const HighDefault: int := -9007199254740991

  /** `_.max` over the given bounds; a missing bound (NaN) is skipped. */
  function MaxOf(xs: seq<Option<int>>): (r: Option<int>)
    ensures r.None? <==> forall i :: 0 <= i < |xs| ==> xs[i].None?
    ensures r.Some? ==> (forall i :: 0 <= i < |xs| && xs[i].Some? ==> xs[i].value <= r.value) && r in xs
    decreases |xs|
  {
    if xs == [] then None
    else
      var rest := MaxOf(xs[..|xs| - 1]);
      var last := xs[|xs| - 1];
      assert forall i :: 0 <= i < |xs| - 1 ==> xs[..|xs| - 1][i] == xs[i];
      assert rest.Some? ==> rest in xs;
      if last.None? then rest
      else if rest.None? || rest.value < last.value then last
      else rest
  }

  /** `_.min` over the given bounds; a missing bound (NaN) is skipped. */
  function MinOf(xs: seq<Option<int>>): (r: Option<int>)
    ensures r.None? <==> forall i :: 0 <= i < |xs| ==> xs[i].None?
    ensures r.Some? ==> (forall i :: 0 <= i < |xs| && xs[i].Some? ==> r.value <= xs[i].value) && r in xs
    decreases |xs|
  {
    if xs == [] then None
    else
      var rest := MinOf(xs[..|xs| - 1]);
      var last := xs[|xs| - 1];
      assert forall i :: 0 <= i < |xs| - 1 ==> xs[..|xs| - 1][i] == xs[i];
      assert rest.Some? ==> rest in xs;
      if last.None? then rest
      else if rest.None? || last.value < rest.value then last
      else rest
  }

  /** All `range` literals of one field collapse into one pair of bounds. */
  function RangeNode(field: string, op: JoinOp, args: seq<RangeArg>): Term
  {
    var lows := seq(|args|, i requires 0 <= i < |args| => args[i].low);
    var highs := seq(|args|, i requires 0 <= i < |args| => args[i].high);
    Range(field, MaxOf(lows).GetOr(LowDefault), MinOf(highs).GetOr(HighDefault))
  }

  /** How Xata reads a `$pattern`: `*` matches any run of characters, `?` any
      single character, and a backslash makes the character after it literal
      (a backslash at the very end stands for itself). */
  datatype PatternToken = Literal(c: char) | AnyChars | AnyChar

  function ReadPattern(p: string): seq<PatternToken>
    decreases |p|
  {
    if p == [] then []
    else if p[0] == '\\' && |p| >= 2 then [Literal(p[1])] + ReadPattern(p[2..])
    else if p[0] == '*' then [AnyChars] + ReadPattern(p[1..])
    else if p[0] == '?' then [AnyChar] + ReadPattern(p[1..])
    else [Literal(p[0])] + ReadPattern(p[1..])
  }

  /** The fuzzy pattern as src/datasource.ts:579-581 writes it: `*${v}*` with
      `*` and `?` escaped by a backslash, and the backslash itself left alone. */
  function FuzzyPatternAsWritten(v: string): string
  {
    "*" + Escape(v) + "*"
  }

  function Escape(s: string): string
    decreases |s|
  {
    if s == [] then []
    else (if s[0] == '*' || s[0] == '?' then ['\\', s[0]] else [s[0]]) + Escape(s[1..])
  }

  /** The corrected fuzzy pattern: `*${v}*` with the backslash escaped as well
      as `*` and `?`, so that the value is matched literally. The filter itself
      writes `FuzzyPatternAsWritten`. */
  function FuzzyPattern(v: string): string
  {
    "*" + EscapePattern(v) + "*"
  }

  function EscapePattern(s: string): string
    decreases |s|
  {
    if s == [] then []
    else (if s[0] == '\\' || s[0] == '*' || s[0] == '?' then ['\\', s[0]] else [s[0]]) + EscapePattern(s[1..])
  }

  /** The node for the values `vs` of `field` under each operator: a per-value
      list joined by the query's operator, one range, one `$any` list, or an
      existence test. */
  function StringNode(field: string, op: JoinOp, vs: seq<string>): Term
  {
    Combined(field, op, seq(|vs|, i requires 0 <= i < |vs| => StartsWith(vs[i])))
  }

  function FuzzyNode(field: string, op: JoinOp, vs: seq<string>): Term
  {
    Combined(field, op, seq(|vs|, i requires 0 <= i < |vs| => Pattern(FuzzyPatternAsWritten(vs[i]))))
  }

  function ContainsNode(field: string, op: JoinOp, vs: seq<Value>): Term
  {
    Combined(field, op, seq(|vs|, i requires 0 <= i < |vs| => Contains(vs[i])))
  }

  function ContainsAnyNode(field: string, op: JoinOp, vs: seq<seq<Value>>): Term
  {
    Combined(field, op, seq(|vs|, i requires 0 <= i < |vs| => AnyContains(vs[i])))
  }

  function NotContainsNode(field: string, op: JoinOp, vs: seq<Value>): Term
  {
    Combined(field, op, seq(|vs|, i requires 0 <= i < |vs| => NotContains(vs[i])))
  }

  function EqualNode(field: string, op: JoinOp, vs: seq<Value>): Term
  {
    Combined(field, op, seq(|vs|, i requires 0 <= i < |vs| => Is(vs[i])))
  }

  function NotEqualNode(field: string, op: JoinOp, vs: seq<Value>): Term
  {
    Combined(field, op, seq(|vs|, i requires 0 <= i < |vs| => IsNot(vs[i])))
  }

  function AnyOfNode(field: string, op: JoinOp, vs: seq<Value>): Term
  {
    AnyOf(field, Flat1(vs))
  }

  function ExistsNode(field: string, op: JoinOp, vs: seq<Value>): Term
  {
    Exists(field)
  }

  function NotExistsNode(field: string, op: JoinOp, vs: seq<Value>): Term
  {
    NotExists(field)
  }

  /** An operator the switch does not list yields `undefined`. */
  function AbsentNode(field: string, op: JoinOp, vs: seq<Value>): Term
  {
    Absent
  }

  /** The nodes of one operator's entries: grouped by field, renamed, the
      reverse-relationship fields dropped, one node per remaining field. */
  function FieldTerms<T>(es: seq<(string, T)>, op: JoinOp, mapping: map<string, string>, rev: seq<string>, mk: (string, JoinOp, seq<T>) -> Term): seq<Term>
  {
    var gr := GroupByField(es);
    GroupKeysHaveValues(es);
    Terms(gr, gr.keys, op, mapping, rev, mk)
  }

  /** The nodes of one operator group. */
  function GroupTerms(g: FilterGroup, op: JoinOp, mapping: map<string, string>, rev: seq<string>): seq<Term>
  {
    match g
    case StringGroup(es) => FieldTerms(es, op, mapping, rev, StringNode)
    case FuzzyGroup(es) => FieldTerms(es, op, mapping, rev, FuzzyNode)
    case RangeGroup(es) => FieldTerms(es, op, mapping, rev, RangeNode)
    case OneOfGroup(es) => FieldTerms(es, op, mapping, rev, AnyOfNode)
    case ContainsGroup(es) => FieldTerms(es, op, mapping, rev, ContainsNode)
    case ContainsAnyGroup(es) => FieldTerms(es, op, mapping, rev, ContainsAnyNode)
    case NotContainsGroup(es) => FieldTerms(es, op, mapping, rev, NotContainsNode)
    case NotEmptyGroup(es) => FieldTerms(es, op, mapping, rev, ExistsNode)
    case EmptyGroup(es) => FieldTerms(es, op, mapping, rev, NotExistsNode)
    case EqualGroup(es) => FieldTerms(es, op, mapping, rev, EqualNode)
    case NotEqualGroup(es) => FieldTerms(es, op, mapping, rev, NotEqualNode)
    case OtherGroup(_, es) => FieldTerms(es, op, mapping, rev, AbsentNode)
  }

  function AllTerms(groups: seq<FilterGroup>, op: JoinOp, mapping: map<string, string>, rev: seq<string>): seq<Term>
    decreases |groups|
  {
    if groups == [] then []
    else AllTerms(groups[..|groups| - 1], op, mapping, rev) + GroupTerms(groups[|groups| - 1], op, mapping, rev)
  }

  /** `parseQueryFilter` */
  function ParseQueryFilter(filters: Filters, mapping: map<string, string>, rev: seq<string>): XataFilter
  {
    var op := JoinOf(filters);
    XataFilter(op, AllTerms(filters.groups, op, mapping, rev))
  }
}

module FilterProperties {
  import opened Wrappers
  import opened Json
  import opened Budibase
  import opened Filter
  import Fields
  import FieldsProperties

  // ---------------------------------------------------------------------------
  // Ordinal prefixes

  /** A key written `N:field` strips to `field`. */
  lemma {:induction false} StripOrdinalRemoves(digits: string, key: string)
    requires |digits| >= 1 && forall i :: 0 <= i < |digits| ==> IsDigit(digits[i])
    ensures StripOrdinal(digits + ":" + key) == key
  {
    var s := digits + ":" + key;
    LeadingDigitsOfPrefix(digits, ":" + key);
    assert s[|digits|] == ':';
    assert s[|digits| + 1..] == key;
  }

  lemma {:induction false} LeadingDigitsOfPrefix(digits: string, rest: string)
    requires forall i :: 0 <= i < |digits| ==> IsDigit(digits[i])
    requires rest == [] || !IsDigit(rest[0])
    ensures LeadingDigits(digits + rest) == |digits|
    decreases |digits|
  {
    if digits != [] {
      assert (digits + rest)[1..] == digits[1..] + rest;
      LeadingDigitsOfPrefix(digits[1..], rest);
    } else {
      assert digits + rest == rest;
    }
  }

  /** A key not starting with a digit is left alone. */
  lemma StripOrdinalKeeps(key: string)
    requires key == [] || !IsDigit(key[0])
    ensures StripOrdinal(key) == key
  {
  }

  /** Whatever is stripped is exactly a run of digits and a colon. */
  lemma StripOrdinalRemovesOnlyOrdinal(key: string)
    ensures StripOrdinal(key) == key ||
      exists n :: 1 <= n < |key| && key == key[..n] + ":" + StripOrdinal(key) && forall i :: 0 <= i < n ==> IsDigit(key[i])
  {
    var n := LeadingDigits(key);
    if 1 <= n < |key| && key[n] == ':' {
      assert key == key[..n] + ":" + key[n + 1..];
    }
  }

  // ---------------------------------------------------------------------------
  // Grouping

  /** No field is listed twice. */
  lemma {:induction false} GroupKeysDistinct<T>(entries: seq<(string, T)>)
    ensures forall i, j :: 0 <= i < j < |GroupByField(entries).keys| ==> GroupByField(entries).keys[i] != GroupByField(entries).keys[j]
    decreases |entries|
  {
    if entries != [] {
      var g1 := GroupByField(entries[..|entries| - 1]);
      GroupKeysDistinct(entries[..|entries| - 1]);
      GroupKeysHaveValues(entries[..|entries| - 1]);
      var key := StripOrdinal(entries[|entries| - 1].0);
      var g := GroupByField(entries);
      assert g == Push(g1, key, entries[|entries| - 1].1);
      if key !in g1.values {
        assert g.keys == g1.keys + [key];
        forall i, j | 0 <= i < j < |g.keys| ensures g.keys[i] != g.keys[j] {
          assert g.keys[i] == g1.keys[i] && g1.keys[i] in g1.keys && g1.keys[i] in g1.values;
          if j < |g1.keys| {
            assert g.keys[j] == g1.keys[j];
          } else {
            assert g.keys[j] == key;
          }
        }
      } else {
        assert g.keys == g1.keys;
      }
    }
  }

  /** A field is listed exactly when some entry's key strips to it. */
  lemma {:induction false} GroupKeysPresent<T>(entries: seq<(string, T)>)
    ensures forall k :: k in GroupByField(entries).values <==> exists j :: 0 <= j < |entries| && StripOrdinal(entries[j].0) == k
    decreases |entries|
  {
    if entries != [] {
      var init := entries[..|entries| - 1];
      GroupKeysPresent(init);
      assert forall j :: 0 <= j < |init| ==> init[j] == entries[j];
      forall k | k in GroupByField(entries).values
        ensures exists j :: 0 <= j < |entries| && StripOrdinal(entries[j].0) == k
      {
        if k in GroupByField(init).values {
          var j :| 0 <= j < |init| && StripOrdinal(init[j].0) == k;
          assert entries[j] == init[j];
        } else {
          assert StripOrdinal(entries[|entries| - 1].0) == k;
        }
      }
      forall k | exists j :: 0 <= j < |entries| && StripOrdinal(entries[j].0) == k
        ensures k in GroupByField(entries).values
      {
        var j :| 0 <= j < |entries| && StripOrdinal(entries[j].0) == k;
        if j < |init| {
          assert StripOrdinal(init[j].0) == k;
        }
      }
    }
  }

  /** Each field holds the values of all entries whose key strips to it, in
      entry order. */
  lemma {:induction false} GroupValues<T>(entries: seq<(string, T)>)
    ensures var g := GroupByField(entries);
      forall k :: k in g.values ==> g.values[k] == ValuesFor(entries, k)
    decreases |entries|
  {
    if entries != [] {
      var init := entries[..|entries| - 1];
      GroupValues(init);
      GroupKeysPresent(init);
      var g := GroupByField(entries);
      forall k | k in g.values ensures g.values[k] == ValuesFor(entries, k) {
        if k !in GroupByField(init).values {
          assert ValuesFor(init, k) == [] by {
            ValuesForAbsent(init, k);
          }
        }
      }
    }
  }

  lemma {:induction false} ValuesForAbsent<T>(entries: seq<(string, T)>, k: string)
    requires forall j :: 0 <= j < |entries| ==> StripOrdinal(entries[j].0) != k
    ensures ValuesFor(entries, k) == []
    decreases |entries|
  {
    if entries != [] {
      ValuesForAbsent(entries[..|entries| - 1], k);
    }
  }

  // ---------------------------------------------------------------------------
  // Dropping

  /** The nodes are exactly one per grouped key whose mapped field is not
      reached through a reverse relationship. */
  lemma {:induction false} TermsMembers<T>(g: Grouped<T>, ks: seq<string>, op: JoinOp, mapping: map<string, string>, rev: seq<string>, mk: (string, JoinOp, seq<T>) -> Term)
    requires forall k :: k in ks ==> k in g.values
    ensures forall t :: t in Terms(g, ks, op, mapping, rev, mk) ==>
      exists k :: k in ks && !Dropped(rev, MapField(mapping, k)) && t == mk(MapField(mapping, k), op, g.values[k])
    ensures forall k :: k in ks && !Dropped(rev, MapField(mapping, k)) ==>
      mk(MapField(mapping, k), op, g.values[k]) in Terms(g, ks, op, mapping, rev, mk)
    decreases |ks|
  {
    if ks != [] {
      var init := ks[..|ks| - 1];
      assert forall k :: k in init ==> k in ks;
      TermsMembers(g, init, op, mapping, rev, mk);
      assert ks == init + [ks[|ks| - 1]];
    }
  }

  /** A node respects the query: its field is not reached through a reverse
      relationship, and a per-value list uses the query's join operator. */
  predicate Respects(t: Term, op: JoinOp, rev: seq<string>)
  {
    && (t.Combined? || t.Range? || t.AnyOf? || t.Exists? || t.NotExists? ==> !Dropped(rev, t.field))
    && (t.Combined? ==> t.op == op)
  }

  /** The nodes of one operator are the nodes of its fields that are not
      dropped. */
  lemma FieldTermsMembers<T>(es: seq<(string, T)>, op: JoinOp, mapping: map<string, string>, rev: seq<string>, mk: (string, JoinOp, seq<T>) -> Term)
    ensures forall t :: t in FieldTerms(es, op, mapping, rev, mk) ==>
      exists k :: k in GroupByField(es).values && !Dropped(rev, MapField(mapping, k)) && t == mk(MapField(mapping, k), op, GroupByField(es).values[k])
  {
    var gr := GroupByField(es);
    GroupKeysHaveValues(es);
    TermsMembers(gr, gr.keys, op, mapping, rev, mk);
  }

  /** The node of each field not dropped is among the nodes of its operator. */
  lemma FieldTermsNode<T>(es: seq<(string, T)>, op: JoinOp, mapping: map<string, string>, rev: seq<string>, mk: (string, JoinOp, seq<T>) -> Term, k: string)
    requires exists j :: 0 <= j < |es| && StripOrdinal(es[j].0) == k
    requires !Dropped(rev, MapField(mapping, k))
    ensures mk(MapField(mapping, k), op, ValuesFor(es, k)) in FieldTerms(es, op, mapping, rev, mk)
  {
    var gr := GroupByField(es);
    GroupKeysPresent(es);
    GroupKeysHaveValues(es);
    assert k in gr.values && k in gr.keys;
    GroupValues(es);
    assert gr.values[k] == ValuesFor(es, k);
    TermsMembers(gr, gr.keys, op, mapping, rev, mk);
  }

  lemma GroupTermsRespect(g: FilterGroup, op: JoinOp, mapping: map<string, string>, rev: seq<string>)
    ensures forall t :: t in GroupTerms(g, op, mapping, rev) ==> Respects(t, op, rev)
  {
    match g
    case StringGroup(es) => FieldTermsMembers(es, op, mapping, rev, StringNode);
    case FuzzyGroup(es) => FieldTermsMembers(es, op, mapping, rev, FuzzyNode);
    case RangeGroup(es) => FieldTermsMembers(es, op, mapping, rev, RangeNode);
    case OneOfGroup(es) => FieldTermsMembers(es, op, mapping, rev, AnyOfNode);
    case ContainsGroup(es) => FieldTermsMembers(es, op, mapping, rev, ContainsNode);
    case ContainsAnyGroup(es) => FieldTermsMembers(es, op, mapping, rev, ContainsAnyNode);
    case NotContainsGroup(es) => FieldTermsMembers(es, op, mapping, rev, NotContainsNode);
    case NotEmptyGroup(es) => FieldTermsMembers(es, op, mapping, rev, ExistsNode);
    case EmptyGroup(es) => FieldTermsMembers(es, op, mapping, rev, NotExistsNode);
    case EqualGroup(es) => FieldTermsMembers(es, op, mapping, rev, EqualNode);
    case NotEqualGroup(es) => FieldTermsMembers(es, op, mapping, rev, NotEqualNode);
    case OtherGroup(_, es) => FieldTermsMembers(es, op, mapping, rev, AbsentNode);
  }

  /** No node of the translated filter is about a field reached through a
      reverse relationship, and every per-value list is combined with the
      top-level operator: `$any` when `allOr` is set, `$all` otherwise. */
  lemma {:induction false} FilterRespectsQuery(filters: Filters, mapping: map<string, string>, rev: seq<string>)
    ensures var r := ParseQueryFilter(filters, mapping, rev);
      && (r.op == Any <==> filters.allOr == Some(true))
      && forall t :: t in r.terms ==> Respects(t, r.op, rev)
  {
    AllTermsRespect(filters.groups, JoinOf(filters), mapping, rev);
  }

  lemma {:induction false} AllTermsRespect(groups: seq<FilterGroup>, op: JoinOp, mapping: map<string, string>, rev: seq<string>)
    ensures forall t :: t in AllTerms(groups, op, mapping, rev) ==> Respects(t, op, rev)
    decreases |groups|
  {
    if groups != [] {
      AllTermsRespect(groups[..|groups| - 1], op, mapping, rev);
      GroupTermsRespect(groups[|groups| - 1], op, mapping, rev);
    }
  }

  /** A field requested through a reverse relationship by column name maps to
      `alias.column`, so any filter on it is dropped. */
  lemma ReverseColumnsUnfilterable(q: QueryJson, f: string)
    requires Fields.QueryFields(q).Success? && f in q.fields
    requires FieldsProperties.IsReverseColumn(Fields.RouteOf(q, Fields.ReverseFields(q.relationships), f))
    ensures Dropped(Fields.QueryFields(q).value.reverse, MapField(Fields.QueryFields(q).value.mapping, f))
  {
    var rev := Fields.ReverseFields(q.relationships);
    FieldsProperties.ResolveMapping(Fields.Router(q, rev), q.fields);
    var route := Fields.RouteOf(q, rev, f);
    var path := route.rel.column + "." + route.column;
    assert path[..|route.rel.column| + 1] == route.rel.column + ".";
    assert ThroughAlias(path, route.rel.column);
  }

  // ---------------------------------------------------------------------------
  // Ranges

  /** The lower bound is the largest `low` given, or the default when none is. */
  lemma RangeLowBound(field: string, op: JoinOp, args: seq<RangeArg>)
    ensures var t := RangeNode(field, op, args);
      && ((exists i :: 0 <= i < |args| && args[i].low.Some?) ==>
            (forall i :: 0 <= i < |args| && args[i].low.Some? ==> args[i].low.value <= t.ge)
            && exists i :: 0 <= i < |args| && args[i].low == Some(t.ge))
      && ((forall i :: 0 <= i < |args| ==> args[i].low.None?) ==> t.ge == LowDefault)
  {
    var lows := seq(|args|, i requires 0 <= i < |args| => args[i].low);
    assert forall i :: 0 <= i < |args| ==> lows[i] == args[i].low;
    if MaxOf(lows).Some? {
      var i :| 0 <= i < |lows| && lows[i] == MaxOf(lows);
    }
  }

  /** The upper bound is the smallest `high` given, or the default when none is. */
  lemma RangeHighBound(field: string, op: JoinOp, args: seq<RangeArg>)
    ensures var t := RangeNode(field, op, args);
      && ((exists i :: 0 <= i < |args| && args[i].high.Some?) ==>
            (forall i :: 0 <= i < |args| && args[i].high.Some? ==> t.le <= args[i].high.value)
            && exists i :: 0 <= i < |args| && args[i].high == Some(t.le))
      && ((forall i :: 0 <= i < |args| ==> args[i].high.None?) ==> t.le == HighDefault)
  {
    var highs := seq(|args|, i requires 0 <= i < |args| => args[i].high);
    assert forall i :: 0 <= i < |args| ==> highs[i] == args[i].high;
    if MinOf(highs).Some? {
      var i :| 0 <= i < |highs| && highs[i] == MinOf(highs);
    }
  }

  /** The defaults make a one-sided range exclude every value: with no `high`
      the upper bound is far below any lower bound in the safe integer range,
      and with no `low` the lower bound is far above any upper bound. */
  lemma LowOnlyRangeIsEmpty(field: string, op: JoinOp, args: seq<RangeArg>)
    requires forall i :: 0 <= i < |args| ==> args[i].high.None?
    requires forall i :: 0 <= i < |args| && args[i].low.Some? ==> args[i].low.value > HighDefault
    ensures RangeNode(field, op, args).le < RangeNode(field, op, args).ge
  {
    RangeLowBound(field, op, args);
    RangeHighBound(field, op, args);
  }

  lemma HighOnlyRangeIsEmpty(field: string, op: JoinOp, args: seq<RangeArg>)
    requires forall i :: 0 <= i < |args| ==> args[i].low.None?
    requires forall i :: 0 <= i < |args| && args[i].high.Some? ==> args[i].high.value < LowDefault
    ensures RangeNode(field, op, args).le < RangeNode(field, op, args).ge
  {
    RangeLowBound(field, op, args);
    RangeHighBound(field, op, args);
  }

  // ---------------------------------------------------------------------------
  // Fuzzy patterns

  lemma EscapeHead(s: string)
    ensures Escape(s) == [] || (Escape(s)[0] != '*' && Escape(s)[0] != '?')
  {
  }

  /** The pattern tokens that match the characters of `s` literally. */
  function Literals(s: string): (r: seq<PatternToken>)
    ensures |r| == |s|
  {
    if s == [] then [] else [Literal(s[0])] + Literals(s[1..])
  }

  /** A backslash followed by any character reads as that character. */
  lemma ReadBackslashPair(c: char, rest: string)
    ensures ReadPattern(['\\', c] + rest) == [Literal(c)] + ReadPattern(rest)
  {
    assert (['\\', c] + rest)[2..] == rest;
  }

  /** A character that is neither a backslash nor a wildcard reads as itself. */
  lemma ReadPlain(c: char, rest: string)
    requires c != '\\' && c != '*' && c != '?'
    ensures ReadPattern([c] + rest) == [Literal(c)] + ReadPattern(rest)
  {
    assert ([c] + rest)[1..] == rest;
  }

  /** The first character of an escaped value reads as itself. */
  lemma ReadEscapedHead(s: string, tail: string)
    requires s != []
    ensures ReadPattern(EscapePattern(s) + tail) == [Literal(s[0])] + ReadPattern(EscapePattern(s[1..]) + tail)
  {
    var rest := EscapePattern(s[1..]) + tail;
    if s[0] == '\\' || s[0] == '*' || s[0] == '?' {
      assert EscapePattern(s) + tail == ['\\', s[0]] + rest;
      ReadBackslashPair(s[0], rest);
    } else {
      assert EscapePattern(s) + tail == [s[0]] + rest;
      ReadPlain(s[0], rest);
    }
  }

  /** An escaped value reads back as its characters, literally, whatever
      follows it. */
  lemma {:induction false} ReadEscaped(s: string, tail: string)
    ensures ReadPattern(EscapePattern(s) + tail) == Literals(s) + ReadPattern(tail)
    decreases |s|
  {
    if s == [] {
      assert EscapePattern(s) + tail == tail;
    } else {
      ReadEscapedHead(s, tail);
      ReadEscaped(s[1..], tail);
      var head, lits, r := [Literal(s[0])], Literals(s[1..]), ReadPattern(tail);
      assert head + (lits + r) == (head + lits) + r;
    }
  }

  /** The corrected fuzzy pattern matches the searched value anywhere and
      nothing else: it reads as a wildcard run, the value's characters taken
      literally, and a wildcard run. */
  lemma FuzzyPatternReadsBack(v: string)
    ensures ReadPattern(FuzzyPattern(v)) == [AnyChars] + Literals(v) + [AnyChars]
  {
    var p := FuzzyPattern(v);
    assert p == ['*'] + (EscapePattern(v) + "*");
    assert p[1..] == EscapePattern(v) + "*";
    ReadEscaped(v, "*");
    assert ReadPattern("*") == [AnyChars] + ReadPattern([]);
  }

  /** Without a backslash in the value, the pattern the source writes is the
      corrected one, so it matches the value literally, anywhere. */
  lemma AsWrittenWithoutBackslash(v: string)
    requires '\\' !in v
    ensures FuzzyPatternAsWritten(v) == FuzzyPattern(v)
    ensures ReadPattern(FuzzyPatternAsWritten(v)) == [AnyChars] + Literals(v) + [AnyChars]
  {
    EscapeAgrees(v);
    FuzzyPatternReadsBack(v);
  }

  lemma {:induction false} EscapeAgrees(s: string)
    requires '\\' !in s
    ensures Escape(s) == EscapePattern(s)
    decreases |s|
  {
    if s != [] {
      assert '\\' !in s[1..] by { assert forall i :: 0 <= i < |s[1..]| ==> s[1..][i] == s[i + 1]; }
      EscapeAgrees(s[1..]);
    }
  }

  /** The pattern the source writes for a value ending in a backslash: that
      backslash escapes the closing wildcard, so the value is matched only at
      the end of a field, followed by a literal `*`. */
  lemma TrailingBackslashAsWritten()
    ensures FuzzyPatternAsWritten("a\\") == "*a\\*"
    ensures ReadPattern(FuzzyPatternAsWritten("a\\")) == [AnyChars, Literal('a'), Literal('*')]
    ensures ReadPattern(FuzzyPatternAsWritten("a\\")) != ReadPattern(FuzzyPattern("a\\"))
  {
    assert Escape("a\\") == "a\\" by {
      assert Escape("a\\") == ['a'] + Escape("\\");
      assert Escape("\\") == ['\\'] + Escape([]);
    }
    var p := "*a\\*";
    assert ReadPattern(p) == [AnyChars] + ReadPattern(p[1..]);
    assert p[1..] == "a\\*";
    assert ReadPattern("a\\*") == [Literal('a')] + ReadPattern("\\*");
    assert ("a\\*")[1..] == "\\*";
    assert ReadPattern("\\*") == [Literal('*')] + ReadPattern([]);
    FuzzyPatternReadsBack("a\\");
    assert Literals("a\\") == [Literal('a'), Literal('\\')];
  }

  /** The pattern the source writes for a backslash followed by `*`: the added
      backslash escapes the user's backslash, and the `*` becomes a wildcard. */
  lemma BackslashStarAsWritten()
    ensures FuzzyPatternAsWritten("\\*") == "*\\\\**"
    ensures ReadPattern(FuzzyPatternAsWritten("\\*")) == [AnyChars, Literal('\\'), AnyChars, AnyChars]
  {
    assert Escape("\\*") == "\\\\*" by {
      assert Escape("\\*") == ['\\'] + Escape("*");
      assert ("\\*")[1..] == "*";
      assert Escape("*") == ['\\', '*'] + Escape([]);
    }
    var p := "*\\\\**";
    assert ReadPattern(p) == [AnyChars] + ReadPattern(p[1..]);
    assert p[1..] == "\\\\**";
    assert ReadPattern("\\\\**") == [Literal('\\')] + ReadPattern("**");
    assert ("\\\\**")[2..] == "**";
    assert ReadPattern("**") == [AnyChars] + ReadPattern("*");
    assert ("**")[1..] == "*";
    assert ReadPattern("*") == [AnyChars] + ReadPattern([]);
  }

  /** Every `*` or `?` that the source's escaping emits follows a backslash
      it added. */
  lemma {:induction false} EscapedWildcards(s: string)
    ensures var e := Escape(s);
      forall i :: 0 <= i < |e| && (e[i] == '*' || e[i] == '?') ==> i > 0 && e[i - 1] == '\\'
    decreases |s|
  {
    if s != [] {
      EscapedWildcards(s[1..]);
      EscapeHead(s[1..]);
      var head := if s[0] == '*' || s[0] == '?' then ['\\', s[0]] else [s[0]];
      var rest := Escape(s[1..]);
      var e := Escape(s);
      assert e == head + rest;
      forall i | 0 <= i < |e| && (e[i] == '*' || e[i] == '?') ensures i > 0 && e[i - 1] == '\\' {
        if i >= |head| {
          assert e[i] == rest[i - |head|];
          if i > |head| {
            assert e[i - 1] == rest[i - 1 - |head|];
          }
        }
      }
    }
  }

  // ---------------------------------------------------------------------------
  // What each field becomes

  /** Every `equal` value given for a field (under any ordinal) becomes one
      `$is` in that field's node, in the order given. */
  lemma EqualGroupNodes(es: seq<(string, Value)>, op: JoinOp, mapping: map<string, string>, rev: seq<string>, k: string)
    requires exists j :: 0 <= j < |es| && StripOrdinal(es[j].0) == k
    requires !Dropped(rev, MapField(mapping, k))
    ensures EqualNode(MapField(mapping, k), op, ValuesFor(es, k)) in GroupTerms(EqualGroup(es), op, mapping, rev)
  {
    FieldTermsNode(es, op, mapping, rev, EqualNode, k);
  }

  /** All `range` literals given for a field are merged into one `$ge`/`$le`
      node holding the largest low and the smallest high. */
  lemma RangeGroupNodes(es: seq<(string, RangeArg)>, op: JoinOp, mapping: map<string, string>, rev: seq<string>, k: string)
    requires exists j :: 0 <= j < |es| && StripOrdinal(es[j].0) == k
    requires !Dropped(rev, MapField(mapping, k))
    ensures RangeNode(MapField(mapping, k), op, ValuesFor(es, k)) in GroupTerms(RangeGroup(es), op, mapping, rev)
  {
    FieldTermsNode(es, op, mapping, rev, RangeNode, k);
  }

  // ---------------------------------------------------------------------------
  // Examples

  /** Two entries whose keys differ only in their ordinal form one group. */
  lemma {:induction false} GroupSameField<T>(d1: string, d2: string, key: string, a: T, b: T)
    requires |d1| >= 1 && forall i :: 0 <= i < |d1| ==> IsDigit(d1[i])
    requires |d2| >= 1 && forall i :: 0 <= i < |d2| ==> IsDigit(d2[i])
    ensures GroupByField([(d1 + ":" + key, a), (d2 + ":" + key, b)]) == Grouped([key], map[key := [a, b]])
  {
    var es := [(d1 + ":" + key, a), (d2 + ":" + key, b)];
    StripOrdinalRemoves(d1, key);
    StripOrdinalRemoves(d2, key);
    assert es[..1] == [es[0]];
    assert es[..1][..0] == [];
    assert GroupByField(es[..1]) == Grouped([key], map[key := [a]]);
    assert [a] + [b] == [a, b];
  }

  /** Two ranges on one field keep the larger low; with no high the upper
      bound is the default. */
  lemma TwoLowsMerge(d1: string, d2: string, key: string, a: int, b: int)
    requires |d1| >= 1 && forall i :: 0 <= i < |d1| ==> IsDigit(d1[i])
    requires |d2| >= 1 && forall i :: 0 <= i < |d2| ==> IsDigit(d2[i])
    ensures ParseQueryFilter(
      Filters(None, None, [RangeGroup([(d1 + ":" + key, RangeArg(Some(a), None)), (d2 + ":" + key, RangeArg(Some(b), None))])]),
      map[], [])
      == XataFilter(All, [Range(key, if a < b then b else a, HighDefault)])
  {
    var args := [RangeArg(Some(a), None), RangeArg(Some(b), None)];
    var es := [(d1 + ":" + key, args[0]), (d2 + ":" + key, args[1])];
    var node := Range(key, if a < b then b else a, HighDefault);
    assert GroupTerms(RangeGroup(es), All, map[], []) == [node] by {
      var gr := Grouped([key], map[key := args]);
      GroupSameField(d1, d2, key, args[0], args[1]);
      assert RangeNode(key, All, args) == node by {
        RangeLowBound(key, All, args);
        RangeHighBound(key, All, args);
      }
      assert [key][..0] == [];
      assert Terms(gr, [key], All, map[], [], RangeNode) == [node];
    }
    assert [RangeGroup(es)][..0] == [];
    assert AllTerms([RangeGroup(es)], All, map[], []) == [node];
  }

  /** With `allOr` two equal values on one field are joined by `$any`. */
  lemma TwoEqualsAny(d1: string, d2: string, key: string, a: Value, b: Value)
    requires |d1| >= 1 && forall i :: 0 <= i < |d1| ==> IsDigit(d1[i])
    requires |d2| >= 1 && forall i :: 0 <= i < |d2| ==> IsDigit(d2[i])
    ensures ParseQueryFilter(
      Filters(None, Some(true), [EqualGroup([(d1 + ":" + key, a), (d2 + ":" + key, b)])]),
      map[], [])
      == XataFilter(Any, [Combined(key, Any, [Is(a), Is(b)])])
  {
    var es := [(d1 + ":" + key, a), (d2 + ":" + key, b)];
    var node := Combined(key, Any, [Is(a), Is(b)]);
    assert GroupTerms(EqualGroup(es), Any, map[], []) == [node] by {
      var gr := Grouped([key], map[key := [a, b]]);
      GroupSameField(d1, d2, key, a, b);
      assert EqualNode(key, Any, [a, b]) == node by {
        var conds := EqualNode(key, Any, [a, b]).conds;
        assert |conds| == 2 && conds[0] == Is(a) && conds[1] == Is(b);
        assert conds == [Is(a), Is(b)];
      }
      assert [key][..0] == [];
      assert Terms(gr, [key], Any, map[], [], EqualNode) == [node];
    }
    assert [EqualGroup(es)][..0] == [];
    assert AllTerms([EqualGroup(es)], Any, map[], []) == [node];
  }

  /** A filter on a column reached through the reverse relationship `comments`
      produces no node. */
  lemma ExampleReverseDropped()
    ensures ParseQueryFilter(
      Filters(None, None, [EqualGroup([("Comments.text", Str("x"))])]),
      map["Comments.text" := "comments.text"], ["comments"])
      == XataFilter(All, [])
  {
    assert "comments.text"[..|"comments"| + 1] == "comments" + ".";
    assert ThroughAlias("comments.text", "comments");
    assert "comments" in ["comments"];
    assert Dropped(["comments"], "comments.text");
    StripOrdinalKeeps("Comments.text");
  }
}
