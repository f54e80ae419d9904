/** The record store: `saveRecord`, `getRecord` and `deleteRecord` over the
    rows of each collection's table, and the statements `getRecords` and
    `countRecords` send to the database.

    A table is a map from the `_id` column (the text PDO binds for the id)
    to the rest of the row; the map's keys make "at most one row per `_id`"
    structural. JSON encoding and decoding are the store's collaborators,
    kept as given functions. */
module RecordStore {
  import opened PhpValue
  import opened SqlText
  import opened WhereBuilder
  import opened Identifiers
  import WhereProperties

  /** The `uuid` and `jdoc` columns of a row. */
  datatype Row = Row(uuid: string, jdoc: string)

  type Table = map<string, Row>

  /** A collection never written to has no rows. */
  function TableOf(tables: map<string, Table>, collection: string): Table {
    if collection in tables then tables[collection] else map[]
  }

  /** PHP truthiness of the `jdoc` text `fetchColumn` returns: "" and "0"
      are false. */
  predicate Truthy(jdoc: string) {
    !IsEmptyValue(Str(jdoc))
  }

  /** What `getRecord` answers for `id`: the decoded `jdoc` of its row, or
      nothing when there is no row or its `jdoc` text is falsy. */
  function Fetch(t: Table, id: string, decode: string -> Value): Option<Value> {
    if id in t && Truthy(t[id].jdoc) then Some(decode(t[id].jdoc)) else None
  }

  /** The `_id` text and row `saveRecord` writes for a document that has been
      through the identifier step. */
  function KeyOf(doc: seq<Entry>): string {
    match Find(doc, IdKey)
    case Some(id) => StringOf(id)
    case None => ""
  }

  function RowOf(doc: seq<Entry>, encode: Value -> string): Row {
    match Find(doc, UuidKey)
    case Some(uuid) => Row(StringOf(uuid), encode(Arr(doc)))
    case None => Row("", encode(Arr(doc)))
  }

  class Postgres94 {
    const encode: Value -> string
    const decode: string -> Value
    var tables: map<string, Table>

    constructor(encode: Value -> string, decode: string -> Value, tables: map<string, Table>)
      ensures this.encode == encode && this.decode == decode && this.tables == tables
    {
      this.encode := encode;
      this.decode := decode;
      this.tables := tables;
    }

    function Rows(collection: string): Table
      reads this
    {
      TableOf(tables, collection)
    }

    /** `saveRecord`: fill in the identifiers, encode the document, then in one
        transaction update the row of its `_id` if there is one and insert
        it otherwise. `fails` stands for an exception raised between the
        existence check and the commit, which is caught and rolled back; the
        `_id` is returned either way. */
    method SaveRecord(collection: string, record: seq<Entry>, freshId: string, baseUrl: string, fails: bool)
      returns (id: Value)
      modifies this
      ensures id == IdAfter(record, freshId)
      ensures fails ==> tables == old(tables)
      ensures !fails ==> var doc := AssignIds(record, freshId, baseUrl);
                         Rows(collection) == old(Rows(collection))[KeyOf(doc) := RowOf(doc, encode)]
      ensures forall c :: c != collection ==> Rows(c) == old(Rows(c))
    {
      var doc := AssignIdsInPlace(record, freshId, baseUrl);
      AssignIdsSets(record, freshId, baseUrl);
      var jdoc := encode(Arr(doc));
      var key := StringOf(Find(doc, IdKey).value);
      var uuid := StringOf(Find(doc, UuidKey).value);
      if !fails {
        var table := Rows(collection);
        var rowExists := key in table;
        if rowExists {
          table := table[key := table[key].(uuid := uuid, jdoc := jdoc)];
        } else {
          table := table[key := Row(uuid, jdoc)];
        }
        tables := tables[collection := table];
      }
      id := Find(doc, IdKey).value;
    }

    /** `getRecord`: the decoded document stored under `id`, if any. */
    method GetRecord(id: string, collection: string) returns (r: Option<Value>)
      ensures r == Fetch(Rows(collection), id, decode)
    {
      var table := Rows(collection);
      if id in table {
        var jdoc := table[id].jdoc;
        if Truthy(jdoc) {
          return Some(decode(jdoc));
        }
      }
      return None;
    }

    /** `deleteRecord`: removes the row of `id`, if there is one, and reports
        success. */
    method DeleteRecord(id: string, collection: string) returns (ok: bool)
      modifies this
      ensures ok
      ensures Rows(collection) == old(Rows(collection)) - {id}
      ensures forall c :: c != collection ==> Rows(c) == old(Rows(c))
    {
      if collection in tables {
        tables := tables[collection := tables[collection] - {id}];
      }
      ok := true;
    }
  }

  // ---------------------------------------------------------------------
  // What a save leaves in a table

  /** After a save the table holds one row for the settled `_id`, with the
      settled `uuid` and the encoded document, whether it updated or
      inserted; every other row is as it was, and the table grows by one
      exactly when the `_id` was new. */
  lemma SaveOutcome(t: Table, record: seq<Entry>, freshId: string, baseUrl: string, encode: Value -> string)
    ensures var doc := AssignIds(record, freshId, baseUrl);
            var key := StringOf(IdAfter(record, freshId));
            var t' := t[KeyOf(doc) := RowOf(doc, encode)];
            && key in t' && t'[key] == Row(StringOf(UuidAfter(record, freshId, baseUrl)), encode(Arr(doc)))
            && t'.Keys == t.Keys + {key}
            && (forall k :: k in t && k != key ==> t'[k] == t[k])
            && |t'| == |t| + (if key in t then 0 else 1)
  {
    var doc := AssignIds(record, freshId, baseUrl);
    SavedIdentifiers(record, freshId, baseUrl, encode);
    var t' := t[KeyOf(doc) := RowOf(doc, encode)];
    if KeyOf(doc) !in t {
      assert t'.Keys == t.Keys + {KeyOf(doc)};
    } else {
      assert t'.Keys == t.Keys;
    }
  }

  /** The saved row's `_id` and `uuid` are the identifiers the step settled
      on. */
  lemma SavedIdentifiers(record: seq<Entry>, freshId: string, baseUrl: string, encode: Value -> string)
    ensures var doc := AssignIds(record, freshId, baseUrl);
            && KeyOf(doc) == StringOf(IdAfter(record, freshId))
            && RowOf(doc, encode) == Row(StringOf(UuidAfter(record, freshId, baseUrl)), encode(Arr(doc)))
  {
    AssignIdsSets(record, freshId, baseUrl);
  }

  /** Reading back the settled `_id` after a save gives the decoded encoding
      of the saved document (when that text is truthy); other ids read as
      before. */
  lemma FetchAfterSave(t: Table, record: seq<Entry>, freshId: string, baseUrl: string,
                       encode: Value -> string, decode: string -> Value, id: string)
    ensures var doc := AssignIds(record, freshId, baseUrl);
            var t' := t[KeyOf(doc) := RowOf(doc, encode)];
            var jdoc := encode(Arr(doc));
            && Fetch(t', StringOf(IdAfter(record, freshId)), decode) == (if Truthy(jdoc) then Some(decode(jdoc)) else None)
            && (id != StringOf(IdAfter(record, freshId)) ==> Fetch(t', id, decode) == Fetch(t, id, decode))
  {
    SavedIdentifiers(record, freshId, baseUrl, encode);
  }

  /** Reading a deleted id finds nothing; other ids read as before. */
  lemma FetchAfterDelete(t: Table, key: string, id: string, decode: string -> Value)
    ensures Fetch(t - {key}, key, decode) == None
    ensures id != key ==> Fetch(t - {key}, id, decode) == Fetch(t, id, decode)
  {
  }

  /** A second save of a record carrying the `_id` the first save settled on
      writes under the same table key, whatever fresh id it is handed. */
  lemma SecondSaveSameKey(r1: seq<Entry>, r2: seq<Entry>, f1: string, f2: string, baseUrl: string)
    requires !IsEmpty(Find(r2, IdKey)) && Find(r2, IdKey) == Some(IdAfter(r1, f1))
    ensures KeyOf(AssignIds(r2, f2, baseUrl)) == KeyOf(AssignIds(r1, f1, baseUrl))
  {
    AssignIdsSets(r1, f1, baseUrl);
    AssignIdsSets(r2, f2, baseUrl);
  }

  /** Saving a record and then a new version of it under the same `_id`
      leaves one row for that `_id`, holding the second version: the table
      is what saving the second version alone over the first's key
      leaves. */
  lemma SaveTwice(t: Table, r1: seq<Entry>, r2: seq<Entry>, f1: string, f2: string, baseUrl: string,
                  encode: Value -> string)
    requires !IsEmpty(Find(r2, IdKey)) && Find(r2, IdKey) == Some(IdAfter(r1, f1))
    ensures var d1 := AssignIds(r1, f1, baseUrl);
            var d2 := AssignIds(r2, f2, baseUrl);
            var t1 := t[KeyOf(d1) := RowOf(d1, encode)];
            && t1[KeyOf(d2) := RowOf(d2, encode)] == t[KeyOf(d1) := RowOf(d2, encode)]
            && |t1[KeyOf(d2) := RowOf(d2, encode)]| == |t1|
  {
    SecondSaveSameKey(r1, r2, f1, f2, baseUrl);
  }

  /** After those two saves, `getRecord` of the first save's `_id` returns
      the second version. */
  lemma FetchLatestVersion(t: Table, r1: seq<Entry>, r2: seq<Entry>, f1: string, f2: string, baseUrl: string,
                           encode: Value -> string, decode: string -> Value)
    requires !IsEmpty(Find(r2, IdKey)) && Find(r2, IdKey) == Some(IdAfter(r1, f1))
    ensures var d1 := AssignIds(r1, f1, baseUrl);
            var d2 := AssignIds(r2, f2, baseUrl);
            var t2 := t[KeyOf(d1) := RowOf(d1, encode)][KeyOf(d2) := RowOf(d2, encode)];
            var jdoc := encode(Arr(d2));
            Fetch(t2, StringOf(IdAfter(r1, f1)), decode) == if Truthy(jdoc) then Some(decode(jdoc)) else None
  {
    var d1 := AssignIds(r1, f1, baseUrl);
    SecondSaveSameKey(r1, r2, f1, f2, baseUrl);
    SavedIdentifiers(r1, f1, baseUrl, encode);
    SavedIdentifiers(r2, f2, baseUrl, encode);
  }

  // ---------------------------------------------------------------------
  // The statements of `getRecords` and `countRecords`

  /** The `select jdoc` statement of `getRecords`, with its bindings; the
      filter is compiled from an empty map and counter 0, and `limit` and
      `offset` are interpolated as PHP writes them. */
  method GetRecordsQuery(collection: string, parameters: Value, limit: Value, offset: Value)
    returns (query: string, variables: Bindings)
    ensures query == "select jdoc from " + collection + " where " + Render(WhereText(parameters, 0, "jdoc", "and"))
                     + " order by jdoc->>'created' desc limit " + StringOf(limit) + " offset " + StringOf(offset)
    ensures |variables| == |Bound(parameters, 0, "jdoc")|
    ensures variables.Keys == NamesFrom(0, |variables|)
    ensures Params(WhereText(parameters, 0, "jdoc", "and")) == Range(0, |variables|)
    ensures forall k :: 0 <= k < |variables| ==> variables[Name(k)] == Bound(parameters, 0, "jdoc")[k]
  {
    var where, counter;
    where, variables, counter := BuildWhere(parameters, map[], 0, "jdoc", "and");
    query := "select jdoc from " + collection + " where " + where
             + " order by jdoc->>'created' desc limit " + StringOf(limit) + " offset " + StringOf(offset);
    StatementBindings(parameters);
  }

  /** The `select count(*)` statement of `countRecords`, with its bindings. */
  method CountRecordsQuery(collection: string, parameters: Value)
    returns (query: string, variables: Bindings)
    ensures query == "select count(*) from " + collection + " where " + Render(WhereText(parameters, 0, "jdoc", "and"))
    ensures |variables| == |Bound(parameters, 0, "jdoc")|
    ensures variables.Keys == NamesFrom(0, |variables|)
    ensures Params(WhereText(parameters, 0, "jdoc", "and")) == Range(0, |variables|)
    ensures forall k :: 0 <= k < |variables| ==> variables[Name(k)] == Bound(parameters, 0, "jdoc")[k]
  {
    var where, counter;
    where, variables, counter := BuildWhere(parameters, map[], 0, "jdoc", "and");
    query := "select count(*) from " + collection + " where " + where;
    StatementBindings(parameters);
  }

  /** Compiled from an empty map and counter 0, the bindings are exactly
      v0 .. v{n-1}, one per placeholder of the predicate, each holding the
      value its placeholder stands for. */
  lemma StatementBindings(parameters: Value)
    ensures var vals := Bound(parameters, 0, "jdoc");
            var vars := BindAll(map[], 0, vals);
            && |vars| == |vals|
            && vars.Keys == NamesFrom(0, |vals|)
            && Params(WhereText(parameters, 0, "jdoc", "and")) == Range(0, |vals|)
            && forall k :: 0 <= k < |vals| ==> vars[Name(k)] == vals[k]
  {
    var vals := Bound(parameters, 0, "jdoc");
    var vars := BindAll(map[], 0, vals);
    WhereProperties.FromScratch(parameters, "jdoc");
    WhereProperties.Placeholders(parameters, map[], 0, "jdoc", "and");
    forall k | 0 <= k < |vals|
      ensures Name(k) in vars && vars[Name(k)] == vals[k]
    {
      assert vars[Name(0 + k)] == vals[0 + k - 0];
    }
  }
}
