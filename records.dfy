/** `xataToBudibaseRecords` (src/datasource.ts): the records the Xata client
    returns become Budibase rows. Reverse-relationship aliases are taken out of
    the base record, their record lists are zipped into rows, and each row is
    projected through the field mapping, with file values converted. */
module Records {
  import opened Wrappers
  import opened Json
  import Utils

  /** A record as the client returns it: its properties by name. */
  type XataRecord = map<string, Value>

  /** A row handed back to Budibase: one property per mapped field. */
  type Row = map<string, Value>

  /** `mime.extension`, whose module is not part of this model: the extension
      registered for a media type, if any. */
  type MimeFn = string -> Option<string>

  // ---------------------------------------------------------------------------
  // Base record and related records

  /** `_.omit(record, aliases)` */
  function Omit(record: XataRecord, aliases: seq<string>): XataRecord
  {
    map k | k in record && k !in aliases :: record[k]
  }

  /** `record[c]?.records ?? []`: the linked records of the alias `c`. */
  function Related(record: XataRecord, c: string): seq<Value>
  {
    if c in record && record[c].Obj? && "records" in record[c].props && record[c].props["records"].Arr?
    then record[c].props["records"].items
    else []
  }

  /** Each linked record `r` wrapped as the one-property object `{ [c]: r }`. */
  function Wrapped(c: string, rs: seq<Value>): (r: seq<Value>)
    ensures |r| == |rs|
  {
    if rs == [] then [] else Wrapped(c, rs[..|rs| - 1]) + [Obj(map[c := rs[|rs| - 1]])]
  }

  /** The wrapped linked records of every alias, in alias order. */
  function AliasColumns(record: XataRecord, aliases: seq<string>): (r: seq<seq<Value>>)
    ensures |r| == |aliases|
  {
    if aliases == [] then []
    else AliasColumns(record, aliases[..|aliases| - 1]) + [Wrapped(aliases[|aliases| - 1], Related(record, aliases[|aliases| - 1]))]
  }

  // ---------------------------------------------------------------------------
  // `_.zip`

  /** The length of the longest list; 0 when there is none. */
  function MaxLen(lists: seq<seq<Value>>): nat
  {
    if lists == [] then 0
    else
      var m := MaxLen(lists[..|lists| - 1]);
      var l := |lists[|lists| - 1]|;
      if l > m then l else m
  }

  /** The `k`-th element of every list, `undefined` where a list is too short. */
  function ZipRow(lists: seq<seq<Value>>, k: nat): (r: seq<Value>)
    ensures |r| == |lists|
  {
    if lists == [] then []
    else
      var last := lists[|lists| - 1];
      ZipRow(lists[..|lists| - 1], k) + [if k < |last| then last[k] else Undefined]
  }

  /** The first `n` rows of `_.zip(...lists)`. */
  function ZipRows(lists: seq<seq<Value>>, n: nat): (r: seq<seq<Value>>)
    ensures |r| == n
  {
    if n == 0 then [] else ZipRows(lists, n - 1) + [ZipRow(lists, n - 1)]
  }

  /** `_.zip(...lists)`: as many rows as the longest list. */
  function Zip(lists: seq<seq<Value>>): seq<seq<Value>>
  {
    ZipRows(lists, MaxLen(lists))
  }

  /** The sub-record rows of a record; no rows at all fall back to one empty row. */
  function SubRows(record: XataRecord, aliases: seq<string>): seq<seq<Value>>
  {
    var z := Zip(AliasColumns(record, aliases));
    if |z| == 0 then [[]] else z
  }

  // ---------------------------------------------------------------------------
  // Merging and projecting

  /** `Object.assign(target, ...sources)`: the properties of each object source
      copied in order; `undefined` sources are skipped. */
  function Assign(target: map<string, Value>, sources: seq<Value>): map<string, Value>
  {
    if sources == [] then target
    else
      var last := sources[|sources| - 1];
      var init := Assign(target, sources[..|sources| - 1]);
      if last.Obj? then init + last.props else init
  }

  /** `mime.extension(mediaType) || 'txt'` */
  function Extension(mime: MimeFn, mediaType: string): string
  {
    match mime(mediaType)
    case Some(e) => if e != "" then e else "txt"
    case None => "txt"
  }

  /** The Budibase attachment object for one Xata file. */
  function Attachment(mime: MimeFn, f: XataFile): Value
  {
    Obj(map[
      "size" := Num(f.size),
      "name" := Str(f.name),
      "extension" := Str(Extension(mime, f.mediaType)),
      "key" := Str(f.url),
      "url" := Str(f.signedUrl)])
  }

  /** Attachment objects for a list of files. */
  function Attachments(mime: MimeFn, vs: seq<Value>): (r: seq<Value>)
    ensures |r| == |vs|
  {
    if vs == [] then []
    else Attachments(mime, vs[..|vs| - 1]) + [if vs[|vs| - 1].File? then Attachment(mime, vs[|vs| - 1].file) else Undefined]
  }

  /** A file value (a file or an array of files) becomes an array of
      attachment objects; any other value is kept. */
  function ConvertValue(mime: MimeFn, v: Value): Value
  {
    if Utils.IsXataFileField(v) then Arr(Attachments(mime, Flat1([v]))) else v
  }

  /** One output row: each Budibase field read from the merged record along its
      Xata path. */
  function Project(mime: MimeFn, merged: map<string, Value>, mapping: map<string, string>): Row
  {
    map f | f in mapping :: ConvertValue(mime, Get(Obj(merged), mapping[f]))
  }

  /** The merged record behind the `k`-th row of `record`. */
  function Merged(record: XataRecord, aliases: seq<string>, k: nat): map<string, Value>
    requires k < |SubRows(record, aliases)|
  {
    Assign(Omit(record, aliases), SubRows(record, aliases)[k])
  }

  /** One row per sub-record row, each merged over `base` and projected. */
  function Rows(mime: MimeFn, base: map<string, Value>, subs: seq<seq<Value>>, mapping: map<string, string>): seq<Row>
  {
    if subs == [] then [] else [Project(mime, Assign(base, subs[0]), mapping)] + Rows(mime, base, subs[1..], mapping)
  }

  /** The rows of one record. */
  function RecordRows(mime: MimeFn, record: XataRecord, mapping: map<string, string>, aliases: seq<string>): seq<Row>
  {
    Rows(mime, Omit(record, aliases), SubRows(record, aliases), mapping)
  }

  /** `xataToBudibaseRecords`: the rows of every record, in record order. */
  function ToBudibaseRecords(mime: MimeFn, records: seq<XataRecord>, mapping: map<string, string>, aliases: seq<string>): seq<Row>
  {
    if records == [] then []
    else RecordRows(mime, records[0], mapping, aliases) + ToBudibaseRecords(mime, records[1..], mapping, aliases)
  }
}

module RecordsProperties {
  import opened Wrappers
  import opened Json
  import opened Records
  import Utils

  // ---------------------------------------------------------------------------
  // The zip

  lemma {:induction false} MaxLenBounds(lists: seq<seq<Value>>)
    ensures forall i :: 0 <= i < |lists| ==> |lists[i]| <= MaxLen(lists)
    ensures MaxLen(lists) == 0 || exists i :: 0 <= i < |lists| && |lists[i]| == MaxLen(lists)
  {
    if lists != [] {
      var init := lists[..|lists| - 1];
      MaxLenBounds(init);
      assert forall i :: 0 <= i < |init| ==> init[i] == lists[i];
    }
  }

  lemma {:induction false} ZipRowAt(lists: seq<seq<Value>>, k: nat, i: nat)
    requires i < |lists|
    ensures ZipRow(lists, k)[i] == if k < |lists[i]| then lists[i][k] else Undefined
  {
    var init := lists[..|lists| - 1];
    if i < |init| {
      ZipRowAt(init, k, i);
    }
  }

  lemma {:induction false} ZipRowsAt(lists: seq<seq<Value>>, n: nat, k: nat)
    requires k < n
    ensures ZipRows(lists, n)[k] == ZipRow(lists, k)
  {
    if k < n - 1 {
      ZipRowsAt(lists, n - 1, k);
    }
  }

  lemma {:induction false} WrappedAt(c: string, rs: seq<Value>, k: nat)
    requires k < |rs|
    ensures Wrapped(c, rs)[k] == Obj(map[c := rs[k]])
  {
    if k < |rs| - 1 {
      WrappedAt(c, rs[..|rs| - 1], k);
    }
  }

  lemma {:induction false} AliasColumnsAt(record: XataRecord, aliases: seq<string>, i: nat)
    requires i < |aliases|
    ensures AliasColumns(record, aliases)[i] == Wrapped(aliases[i], Related(record, aliases[i]))
  {
    if i < |aliases| - 1 {
      AliasColumnsAt(record, aliases[..|aliases| - 1], i);
    }
  }

  /** Without any linked record there is the single empty row; otherwise row
      `k` holds, for the alias at position `i`, `{ [alias]: record }` with the
      alias's `k`-th linked record, or `undefined` past the end of its list. */
  lemma SubRowsShape(record: XataRecord, aliases: seq<string>)
    ensures MaxLen(AliasColumns(record, aliases)) == 0 ==>
      SubRows(record, aliases) == [[]] && forall c :: c in aliases ==> Related(record, c) == []
    ensures MaxLen(AliasColumns(record, aliases)) > 0 ==>
      forall k, i :: 0 <= k < |SubRows(record, aliases)| && 0 <= i < |aliases| ==>
        var rs := Related(record, aliases[i]);
        |SubRows(record, aliases)[k]| == |aliases|
        && SubRows(record, aliases)[k][i] == if k < |rs| then Obj(map[aliases[i] := rs[k]]) else Undefined
  {
    var cols := AliasColumns(record, aliases);
    MaxLenBounds(cols);
    if MaxLen(cols) == 0 {
      forall c | c in aliases ensures Related(record, c) == [] {
        var i :| 0 <= i < |aliases| && aliases[i] == c;
        AliasColumnsAt(record, aliases, i);
      }
    } else {
      forall k, i | 0 <= k < |SubRows(record, aliases)| && 0 <= i < |aliases|
        ensures var rs := Related(record, aliases[i]);
          |SubRows(record, aliases)[k]| == |aliases|
          && SubRows(record, aliases)[k][i] == if k < |rs| then Obj(map[aliases[i] := rs[k]]) else Undefined
      {
        ZipRowsAt(cols, MaxLen(cols), k);
        ZipRowAt(cols, k, i);
        AliasColumnsAt(record, aliases, i);
        var rs := Related(record, aliases[i]);
        if k < |rs| {
          WrappedAt(aliases[i], rs, k);
        }
      }
    }
  }

  /** Each record yields as many rows as its longest reverse-relationship list,
      and at least one. */
  lemma RowCount(record: XataRecord, aliases: seq<string>)
    ensures |SubRows(record, aliases)| >= 1
    ensures forall c :: c in aliases ==> |Related(record, c)| <= |SubRows(record, aliases)|
    ensures |SubRows(record, aliases)| == 1 || exists c :: c in aliases && |Related(record, c)| == |SubRows(record, aliases)|
  {
    var cols := AliasColumns(record, aliases);
    MaxLenBounds(cols);
    forall c | c in aliases ensures |Related(record, c)| <= |SubRows(record, aliases)| {
      var i :| 0 <= i < |aliases| && aliases[i] == c;
      AliasColumnsAt(record, aliases, i);
    }
    if MaxLen(cols) > 0 {
      var i :| 0 <= i < |cols| && |cols[i]| == MaxLen(cols);
      AliasColumnsAt(record, aliases, i);
      assert aliases[i] in aliases;
    }
  }

  // ---------------------------------------------------------------------------
  // Object.assign

  /** A key no object source holds keeps the target's entry. */
  lemma {:induction false} AssignUntouched(target: map<string, Value>, sources: seq<Value>, key: string)
    requires forall i :: 0 <= i < |sources| && sources[i].Obj? ==> key !in sources[i].props
    ensures key in Assign(target, sources) <==> key in target
    ensures key in target ==> Assign(target, sources)[key] == target[key]
  {
    if sources != [] {
      var init := sources[..|sources| - 1];
      assert forall i :: 0 <= i < |init| ==> init[i] == sources[i];
      AssignUntouched(target, init, key);
    }
  }

  /** A key that some object source holds, with the value `v` in every source
      that holds it, ends up with `v`. */
  lemma {:induction false} AssignWritten(target: map<string, Value>, sources: seq<Value>, key: string, v: Value)
    requires exists i :: 0 <= i < |sources| && sources[i].Obj? && key in sources[i].props
    requires forall i :: 0 <= i < |sources| && sources[i].Obj? && key in sources[i].props ==> sources[i].props[key] == v
    ensures key in Assign(target, sources) && Assign(target, sources)[key] == v
  {
    var init, last := sources[..|sources| - 1], sources[|sources| - 1];
    assert forall i :: 0 <= i < |init| ==> init[i] == sources[i];
    if !(last.Obj? && key in last.props) {
      var i :| 0 <= i < |sources| && sources[i].Obj? && key in sources[i].props;
      assert i < |init|;
      AssignWritten(target, init, key, v);
    }
  }

  // ---------------------------------------------------------------------------
  // The merged record

  /** The entries of sub-record row `k`: the entry at position `i` is either
      `undefined` or `{ [alias]: record }` with the `k`-th linked record of the
      alias at position `i`, and it is the latter whenever that record exists. */
  lemma RowEntries(record: XataRecord, aliases: seq<string>, k: nat)
    requires k < |SubRows(record, aliases)|
    ensures var row := SubRows(record, aliases)[k];
      forall i :: 0 <= i < |row| ==> i < |aliases| && (row[i].Obj? ==>
        k < |Related(record, aliases[i])| && row[i].props == map[aliases[i] := Related(record, aliases[i])[k]])
    ensures var row := SubRows(record, aliases)[k];
      forall i :: 0 <= i < |aliases| && k < |Related(record, aliases[i])| ==>
        i < |row| && row[i] == Obj(map[aliases[i] := Related(record, aliases[i])[k]])
  {
    SubRowsShape(record, aliases);
    if MaxLen(AliasColumns(record, aliases)) == 0 {
      forall i | 0 <= i < |aliases| ensures Related(record, aliases[i]) == [] {
        assert aliases[i] in aliases;
      }
    }
  }

  /** In every row, a key that is not an alias is the base record's own entry,
      an alias holds its linked record for that row, and past the end of an
      alias's list the alias is absent: it never comes from the base record. */
  lemma MergedEntries(record: XataRecord, aliases: seq<string>, k: nat)
    requires k < |SubRows(record, aliases)|
    ensures var m := Merged(record, aliases, k);
      forall key :: key !in aliases ==> (key in m <==> key in record) && (key in record ==> m[key] == record[key])
    ensures var m := Merged(record, aliases, k);
      forall c :: c in aliases ==>
        (k < |Related(record, c)| ==> c in m && m[c] == Related(record, c)[k])
        && (k >= |Related(record, c)| ==> c !in m)
  {
    var row := SubRows(record, aliases)[k];
    var base := Omit(record, aliases);
    RowEntries(record, aliases, k);
    forall key | key !in aliases ensures (key in Assign(base, row) <==> key in record) && (key in record ==> Assign(base, row)[key] == record[key]) {
      assert forall i :: 0 <= i < |row| && row[i].Obj? ==> key !in row[i].props by {
        forall i | 0 <= i < |row| && row[i].Obj? ensures key !in row[i].props {
          assert aliases[i] in aliases;
        }
      }
      AssignUntouched(base, row, key);
    }
    forall c | c in aliases
      ensures (k < |Related(record, c)| ==> c in Assign(base, row) && Assign(base, row)[c] == Related(record, c)[k])
        && (k >= |Related(record, c)| ==> c !in Assign(base, row))
    {
      var i :| 0 <= i < |aliases| && aliases[i] == c;
      if k < |Related(record, c)| {
        AssignWritten(base, row, c, Related(record, c)[k]);
      } else {
        AssignUntouched(base, row, c);
      }
    }
  }

  // ---------------------------------------------------------------------------
  // Rows

  lemma {:induction false} RowsAt(mime: MimeFn, base: map<string, Value>, subs: seq<seq<Value>>, mapping: map<string, string>)
    ensures |Rows(mime, base, subs, mapping)| == |subs|
    ensures forall k :: 0 <= k < |subs| ==> Rows(mime, base, subs, mapping)[k] == Project(mime, Assign(base, subs[k]), mapping)
  {
    if subs != [] {
      RowsAt(mime, base, subs[1..], mapping);
    }
  }

  /** One record gives one row per sub-record row, in order, each the
      projection of that row's merged record. */
  lemma RecordRowsAt(mime: MimeFn, record: XataRecord, mapping: map<string, string>, aliases: seq<string>)
    ensures |RecordRows(mime, record, mapping, aliases)| == |SubRows(record, aliases)|
    ensures forall k :: 0 <= k < |SubRows(record, aliases)| ==>
      RecordRows(mime, record, mapping, aliases)[k] == Project(mime, Merged(record, aliases, k), mapping)
  {
    RowsAt(mime, Omit(record, aliases), SubRows(record, aliases), mapping);
  }

  /** Rows are produced record by record: converting two lists one after the
      other is converting their concatenation. */
  lemma {:induction false} ToBudibaseRecordsAppend(mime: MimeFn, a: seq<XataRecord>, b: seq<XataRecord>, mapping: map<string, string>, aliases: seq<string>)
    ensures ToBudibaseRecords(mime, a + b, mapping, aliases) ==
      ToBudibaseRecords(mime, a, mapping, aliases) + ToBudibaseRecords(mime, b, mapping, aliases)
  {
    if a != [] {
      assert (a + b)[0] == a[0] && (a + b)[1..] == a[1..] + b;
      ToBudibaseRecordsAppend(mime, a[1..], b, mapping, aliases);
      var head := RecordRows(mime, a[0], mapping, aliases);
      var restA, restB := ToBudibaseRecords(mime, a[1..], mapping, aliases), ToBudibaseRecords(mime, b, mapping, aliases);
      assert ToBudibaseRecords(mime, a + b, mapping, aliases) == head + (restA + restB);
      assert head + (restA + restB) == (head + restA) + restB;
    } else {
      assert a + b == b;
    }
  }

  /** The total number of rows of `records`. */
  function RowTotal(records: seq<XataRecord>, aliases: seq<string>): nat
  {
    if records == [] then 0 else |SubRows(records[0], aliases)| + RowTotal(records[1..], aliases)
  }

  /** Every record contributes its sub-record rows, so there are at least as
      many rows as records. */
  lemma {:induction false} RowsTotal(mime: MimeFn, records: seq<XataRecord>, mapping: map<string, string>, aliases: seq<string>)
    ensures |ToBudibaseRecords(mime, records, mapping, aliases)| == RowTotal(records, aliases)
    ensures RowTotal(records, aliases) >= |records|
  {
    if records != [] {
      RecordRowsAt(mime, records[0], mapping, aliases);
      RowCount(records[0], aliases);
      RowsTotal(mime, records[1..], mapping, aliases);
    }
  }

  /** Every row has exactly the mapping's fields. */
  lemma {:induction false} RowKeys(mime: MimeFn, records: seq<XataRecord>, mapping: map<string, string>, aliases: seq<string>)
    ensures forall row :: row in ToBudibaseRecords(mime, records, mapping, aliases) ==> row.Keys == mapping.Keys
  {
    if records != [] {
      RowKeys(mime, records[1..], mapping, aliases);
      RecordRowsAt(mime, records[0], mapping, aliases);
      var rows := RecordRows(mime, records[0], mapping, aliases);
      forall row | row in rows ensures row.Keys == mapping.Keys {
        var k :| 0 <= k < |rows| && rows[k] == row;
      }
    }
  }

  // ---------------------------------------------------------------------------
  // What a row holds

  /** A field mapped to a plain column that is not an alias reads the record's
      own entry (converted), in every row of the record. */
  lemma OwnFieldValue(mime: MimeFn, record: XataRecord, mapping: map<string, string>, aliases: seq<string>, k: nat, f: string)
    requires k < |RecordRows(mime, record, mapping, aliases)|
    requires f in mapping && '.' !in mapping[f] && mapping[f] !in aliases
    ensures var row := RecordRows(mime, record, mapping, aliases)[k];
      && f in row
      && row[f] == ConvertValue(mime, if mapping[f] in record then record[mapping[f]] else Undefined)
  {
    RecordRowsAt(mime, record, mapping, aliases);
    MergedEntries(record, aliases, k);
  }

  /** A field mapped to `alias.column` reads `column` of the alias's `k`-th
      linked record in row `k`, and is `undefined` in the rows past the end of
      that alias's list. */
  lemma AliasFieldValue(mime: MimeFn, record: XataRecord, mapping: map<string, string>, aliases: seq<string>, k: nat, f: string, c: string, column: string)
    requires k < |RecordRows(mime, record, mapping, aliases)|
    requires f in mapping && mapping[f] == c + "." + column
    requires c in aliases && '.' !in c && '.' !in column
    requires c + "." + column !in record && c + "." + column !in aliases
    ensures var row := RecordRows(mime, record, mapping, aliases)[k];
      var rs := Related(record, c);
      && f in row
      && row[f] == ConvertValue(mime,
        if k < |rs| && rs[k].Obj? && column in rs[k].props then rs[k].props[column] else Undefined)
  {
    RecordRowsAt(mime, record, mapping, aliases);
    MergedEntries(record, aliases, k);
    var m := Merged(record, aliases, k);
    GetTwoSteps(Obj(m), c, column);
  }

  // ---------------------------------------------------------------------------
  // File values

  lemma {:induction false} AttachmentsAt(mime: MimeFn, vs: seq<Value>, i: nat)
    requires i < |vs| && vs[i].File?
    ensures Attachments(mime, vs)[i] == Attachment(mime, vs[i].file)
  {
    if i < |vs| - 1 {
      AttachmentsAt(mime, vs[..|vs| - 1], i);
    }
  }

  /** Values that are not files are handed back unchanged; a file becomes a
      one-element array and an array of files an array of the same length,
      each file turned into its attachment object. */
  lemma ConvertValueFiles(mime: MimeFn, v: Value)
    ensures !Utils.IsXataFileField(v) ==> ConvertValue(mime, v) == v
    ensures v.File? ==> ConvertValue(mime, v) == Arr([Attachment(mime, v.file)])
    ensures v.Arr? && Utils.IsXataFileField(v) ==>
      ConvertValue(mime, v).Arr? && |ConvertValue(mime, v).items| == |v.items|
      && forall i :: 0 <= i < |v.items| ==> v.items[i].File? && ConvertValue(mime, v).items[i] == Attachment(mime, v.items[i].file)
  {
    Utils.IsXataFileFieldExactly(v);
    assert Flat1([v][1..]) == [];
    if v.File? {
      assert Flat1([v]) == [v];
      assert Attachments(mime, [v]) == [Attachment(mime, v.file)] by {
        assert [v][..0] == [];
      }
    }
    if v.Arr? && Utils.IsXataFileField(v) {
      assert Flat1([v]) == v.items;
      forall i | 0 <= i < |v.items| ensures v.items[i].File? && ConvertValue(mime, v).items[i] == Attachment(mime, v.items[i].file) {
        AttachmentsAt(mime, v.items, i);
      }
    }
  }

  /** An attachment always carries an extension: the registered one, or `txt`. */
  lemma ExtensionNeverEmpty(mime: MimeFn, mediaType: string)
    ensures Extension(mime, mediaType) != ""
    ensures mime(mediaType).Some? && mime(mediaType).value != "" ==> Extension(mime, mediaType) == mime(mediaType).value
    ensures mime(mediaType).None? ==> Extension(mime, mediaType) == "txt"
  {
  }
}
