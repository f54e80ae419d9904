# Postgres94 record store and filter compiler, in Dafny

This project models the core of `Postgres94.php`, the PostgreSQL storage
backend of the Known publishing platform. Records are JSON documents stored in a
`jdoc` column. The model covers two parts.

- **The filter compiler.** `build_where_from_array` turns a MongoDB-style
  filter into an SQL predicate over `jdoc->>'key'`. It understands
  equality, `$in`, `$not`, `$not.$in` and `$or`. It also fills the map of
  placeholder bindings `vN => value`, threading a single counter through the
  recursion on `$or`. The model is `WhereBuilder.BuildWhere`. It has the
  same loops, the same branches, and the same writes to the bindings map and
  counter as the source. It is proved to produce exactly what the
  specification functions `Emit`/`EmitEntry` describe. `WhereProperties`
  states what each shape of entry and each whole filter compiles to.
- **The record store.** `saveRecord` fills in a missing `_id` with a fresh
  id and a missing `uuid` with `baseURL + "view/" + _id`. It encodes the
  document, then in one transaction updates the row of that `_id` if one
  exists and inserts it otherwise. On an exception inside the transaction
  it rolls back, and it then returns the `_id` all the same. Also modelled:
  - `getRecord` and `deleteRecord`, on the same tables;
  - the statements `getRecords` and `countRecords` assemble around the
    compiled filter.

  These are the class `RecordStore.Postgres94`, whose `tables` field maps
  each collection to its rows, keyed by the `_id` text.

PHP values are modelled in `PhpValue`:

- null, booleans, integers and strings are scalars;
- an array is an ordered sequence of entries;
- `IsEmpty` is `empty()`;
- `AsArray` is the `(array)` cast;
- `Find`/`SetKey` are array reads and writes;
- `StringOf` is PHP's string conversion.

Integer keys, such as the indices of a list, are kept as their decimal
strings. The compiler only compares keys with `'$or'` using `===` and
interpolates them into text, and for both of those uses an integer key
behaves as its decimal string.

SQL text is kept as a sequence of tokens (`SqlText`): literal text and
placeholders `:vN`. Keeping it this way lets the model say which
placeholders a predicate refers to without searching the text. The
compiler methods build plain strings, and those strings are proved equal to
the rendering of the tokens. The filter's keys are interpolated into
`{prefix}->>'key'` without escaping (Postgres94.php:185, 197, 208, 212), and
the model copies that. The placeholder properties below are about the
placeholder tokens the compiler emits; they carry over to the rendered text
only for keys without a `'`, since a key holding a quote can move text,
`:vN` included, outside the quotes.

The `getRecords` docblock describes the filter as "Query parameters in
MongoDB format" (Postgres94.php:146). In that format `$or` takes a list of
sub-filters, so a caller would expect
`{"type": "post", "$or": [{"status": "published"}, {"status": "draft"}]}`
to compile to `jdoc->>'type' = :v0 and (jdoc->>'status' = :v1 or jdoc->>'status' = :v2)`.
The code does not do that (Postgres94.php:181-182, 189-217). It iterates
the `$or` value as a filter of its own. The list's elements have keys `0` and `1`, and their values are arrays
without `$in` or `$not`, so each element adds nothing. The real predicate
is therefore `jdoc->>'type' = :v0 and ()`, with only `v0` bound. The model
follows the code, and `WhereProperties.MixedFilterExample` proves this
outcome.

An empty filter compiles to the empty string. `getRecords` then sends
`... where  order by ...`, which PostgreSQL rejects. The model keeps that
text as it is.

## Model

| member | source | states |
|---|---|---|
| WhereBuilder.BuildWhere | Postgres94.php:177-221 | the returned predicate is the rendering of the clauses `Emit` specifies, joined by `" {joiner} "`; the bindings map is the input map with the bound values written at `v{counter}`, `v{counter+1}`, …; the counter advances by the number of values bound |
| WhereBuilder.BindEach | Postgres94.php:191-196 | the `foreach` over an `$in` list collects `:vN` for N = counter … counter+n-1 and writes each list value under its `vN`; the counter advances by n |
| WhereBuilder.BuildOperators | Postgres94.php:189-217 | an array value emits its `$in` clause and then its `$not` clause; the `$not` test is numbered from where `$in` left the counter |
| WhereBuilder.BuildIn | Postgres94.php:190-198 | a non-empty `$in` adds `{prefix}->>'key' in (:vN, …)`, binding the list's values in order; an empty or missing `$in` adds nothing |
| WhereBuilder.BuildNot | Postgres94.php:199-216 | a non-empty `$not` adds `not in (…)` when it holds a non-empty `$in`, and otherwise `!= :vN` bound to the `$not` value; an empty or missing `$not` adds nothing |
| WhereBuilder.EmitParams | Postgres94.php:180-219 | the clauses emitted from counter c refer to placeholders c, c+1, …, each once and in order, one per bound value |
| WhereBuilder.EmitEntryParams | Postgres94.php:181-217 | the same holds for each single entry: `$or`, scalar, and the `$in`/`$not` operators |
| WhereBuilder.WhereParams | Postgres94.php:220 | joining the clauses with the joiner adds no placeholder, so the placeholder tokens the compiler emits are exactly those bound, in binding order |
| WhereBuilder.EmitSnoc | Postgres94.php:180 | the entries are compiled in iteration order: one more entry appends its clauses and values after those of the entries before it |
| WhereBuilder.BindAllKeys | Postgres94.php:186-213 | binding n values from counter c adds exactly the keys v{c} … v{c+n-1} |
| WhereBuilder.BindAllAt | Postgres94.php:186-213 | each new key holds the value of its own placeholder: no later write overwrites an earlier key |
| WhereBuilder.BindAllOther | Postgres94.php:186-213 | keys outside v{c} … v{c+n-1} keep their values |
| WhereBuilder.BindAllFresh | Postgres94.php:186-213 | when none of those keys is bound yet, the map grows by exactly n entries |
| WhereBuilder.OrEntry | Postgres94.php:181-182 | an `$or` entry is the same filter compiled with joiner "or" from the same counter, wrapped in parentheses as one clause |
| WhereBuilder.ScalarEntry | Postgres94.php:184-188 | a non-array value emits one equality clause bound to the value |
| WhereBuilder.OperatorsEntry | Postgres94.php:189-217 | an array value under any key other than `$or` goes to the operator tests |
| WhereProperties.ScalarClause | Postgres94.php:184-188 | a scalar entry emits exactly `{prefix}->>'key' = :v{c}`, binds the value, and advances the counter by one |
| WhereProperties.OrClause | Postgres94.php:181-182 | `$or` emits `(` + the value's predicate under joiner "or" + `)` as one clause and binds what the value binds |
| WhereProperties.InClause | Postgres94.php:190-198 | a non-empty `$in` alone emits one `in (…)` clause with one consecutive placeholder per list value, each bound to that value, in list order |
| WhereProperties.NotInClause | Postgres94.php:199-209 | a non-empty `$not` holding a non-empty `$in` emits one `not in (…)` clause with the same placeholder pattern |
| WhereProperties.NotEqualClause | Postgres94.php:210-215 | any other non-empty `$not` emits `{prefix}->>'key' != :v{c}` bound to the `$not` value itself |
| WhereProperties.InAndNotClauses | Postgres94.php:189-217 | with both operators, two clauses: the `in (…)` clause first, then the `$not` clause numbered after the `$in` values |
| WhereProperties.SilentClause | Postgres94.php:189-217 | an array value with neither a non-empty `$in` nor a non-empty `$not` emits no clause and binds nothing |
| WhereProperties.ElementsInOrder | Postgres94.php:192 | `foreach` over a list visits its values in order, and over a non-array visits nothing |
| WhereProperties.EmptyFilter | Postgres94.php:179-180 | an empty filter or null yields "" and leaves the bindings and counter unchanged |
| WhereProperties.SilentEntries | Postgres94.php:180-219 | entries whose values are arrays without operators emit nothing |
| WhereProperties.OrOfSubfilterList | Postgres94.php:181-182 | `$or` over a list of sub-filter maps compiles to "()" with no binding |
| WhereProperties.EmitPair | Postgres94.php:180 | a two-entry filter emits its first entry, then its second from the counter the first leaves |
| WhereProperties.ScalarThenOrList | Postgres94.php:180-188 | a scalar entry followed by `$or` over a list of sub-filters emits the equality and then "()", binding only the scalar |
| WhereProperties.ScalarThenOrListText | Postgres94.php:177-221 | that filter's predicate text is `{prefix}->>'key' = :v{c} {joiner} ()` |
| WhereProperties.MixedFilterExample | Postgres94.php:177-221 | `{"type": "post", "$or": [{…}, {…}]}` compiles to `jdoc->>'type' = :v0 and ()`, binding only "post" |
| WhereProperties.Placeholders | Postgres94.php:177-221 | after a call from counter c, the added keys are exactly v{c} … v{c+n-1}, each holds its value, other keys are kept, and the placeholder tokens the compiler emits are exactly those placeholders, each once, in order |
| WhereProperties.FromScratch | Postgres94.php:156-158 | from an empty map and counter 0, the keys are exactly v0 … v{n-1} and none was overwritten |
| SqlText.PlaceholderListRender | Postgres94.php:197 | the placeholder list renders as `implode(", ", $placeholders)` |
| SqlText.PlaceholderListParams | Postgres94.php:191-197 | the list refers to placeholders c … c+n-1, once each, in order |
| SqlText.RenderJoin | Postgres94.php:220 | rendering commutes with `implode` on a literal separator |
| SqlText.NameInjective | Postgres94.php:185-186 | distinct counter values give distinct keys `v{$counter}` |
| SqlText.FirstPlaceholder | Postgres94.php:185 | the first placeholder of a statement is `:v0` |
| PhpValue.NatToStringInjective | Postgres94.php:185 | distinct numbers are written as distinct decimal strings |
| PhpValue.FindSpec | Postgres94.php:190 | an array read finds a value exactly when the key is present, and it finds the first entry's value |
| PhpValue.FindSetKeySame | Postgres94.php:46 | after `$a[k] = v`, reading `$a[k]` gives v |
| PhpValue.FindSetKeyOther | Postgres94.php:46-49 | `$a[k] = v` leaves every other key's value unchanged |
| PhpValue.SetKeyPositions | Postgres94.php:46-49 | `$a[k] = v` keeps every existing key at its position, and a new key goes right after the old entries |
| PhpValue.SetKeyUnchanged | Postgres94.php:46 | writing the value a key already holds changes nothing |
| Identifiers.AssignIdsInPlace | Postgres94.php:45-50 | the two conditional writes to `$array` give `AssignIds` |
| Identifiers.AssignIdsSets | Postgres94.php:45-50 | afterwards `_id` holds the present id or the fresh one, and `uuid` holds the present one or the one derived from that `_id` |
| Identifiers.AssignIdsFills | Postgres94.php:45-50 | with an MD5-shaped fresh id, both identifiers are non-empty afterwards; a missing `_id` becomes the fresh id, and a missing `uuid` becomes `baseURL + "view/" + _id` using the `_id` of the result |
| Identifiers.Md5NotEmpty | Postgres94.php:46 | an MD5 hex digest is never `empty()` |
| Identifiers.AssignIdsKeeps | Postgres94.php:45-50 | a non-empty `_id` or `uuid` is left untouched |
| Identifiers.AssignIdsOthers | Postgres94.php:45-50 | every other key keeps its value |
| Identifiers.AssignIdsNoop | Postgres94.php:45-50 | a record with both identifiers is unchanged |
| Identifiers.AssignIdsIdempotent | Postgres94.php:45-50 | applying the step twice equals applying it once, whatever the second fresh id and base URL |
| Identifiers.AssignIdsLength | Postgres94.php:45-50 | the length grows by one per missing identifier; every original key keeps its position, so an empty identifier is overwritten in place; the first appended entry is `_id` when it was missing and `uuid` otherwise |
| RecordStore.Postgres94.SaveRecord | Postgres94.php:42-84 | returns the settled `_id`, also after a caught exception; on such a failure the tables are unchanged (rollback); otherwise the collection's table maps the `_id` text to the new `uuid` and `encode(array)`, by update or by insert; other collections are unchanged |
| RecordStore.Postgres94.GetRecord | Postgres94.php:112-123 | answers the decoded `jdoc` of the row for the id when there is a row and its text is truthy, and nothing otherwise |
| RecordStore.Postgres94.DeleteRecord | Postgres94.php:261-267 | removes exactly the row of the id, leaves every other row and collection alone, and reports true |
| RecordStore.SaveOutcome | Postgres94.php:45-71 | after a save the table has exactly one row under the settled `_id`, holding the settled `uuid` and the encoded document; other rows are unchanged; the table grows by one exactly when that `_id` was new |
| RecordStore.SavedIdentifiers | Postgres94.php:45-71 | the saved row's key and `uuid` are the identifiers the step settled on, and its `jdoc` is the encoding of the whole document |
| RecordStore.FetchAfterSave | Postgres94.php:112-123 | after a save, reading the settled `_id` gives the decoded encoding of the saved document when that text is truthy; other ids read as before |
| RecordStore.FetchAfterDelete | Postgres94.php:261-267 | a deleted id reads as nothing; other ids read as before |
| RecordStore.SecondSaveSameKey | Postgres94.php:45-47 | a second save of a record carrying the `_id` the first save settled on writes under the same key, whatever fresh id it gets |
| RecordStore.SaveTwice | Postgres94.php:45-71 | saving a record and then a new version carrying its `_id` leaves one row for that `_id`, holding the second version, and no more rows than after the first save |
| RecordStore.FetchLatestVersion | Postgres94.php:112-123 | after those two saves, reading the first save's `_id` gives the second version |
| RecordStore.GetRecordsQuery | Postgres94.php:156-159 | the query is `select jdoc from {c} where {predicate} order by jdoc->>'created' desc limit {limit} offset {offset}`; its bindings are exactly v0 … v{n-1}, one per placeholder, each holding its value |
| RecordStore.CountRecordsQuery | Postgres94.php:243-245 | the query is `select count(*) from {c} where {predicate}`, with the same bindings guarantee |
| RecordStore.StatementBindings | Postgres94.php:156-158 | compiled from an empty map and counter 0, the bindings map has one key per bound value, `vk` holds the k-th value, and the predicate's placeholders are `:v0` … `:v{n-1}` in order |

## Left out

- The PDO connection, `prepare`/`execute`/`fetchColumn` and the
  transaction calls are I/O (Postgres94.php:10-18, 53, 73, 80). Their
  effect is modelled on the `tables` map. An exception caught inside the save
  transaction is the parameter `fails`.
- `json_encode`/`json_decode` are library calls (Postgres94.php:20-28, 136).
  They are the class's given functions `encode` and `decode`, and no
  round trip is claimed. A failing `json_encode`, which returns false, is
  not modelled.
- `md5(rand() . microtime(true))` is randomness and a clock
  (Postgres94.php:46). The fresh id is a parameter, and lemmas that need it
  non-empty ask for an MD5-shaped string.
- The site URL from the framework's configuration and the error logging
  are framework collaborators (Postgres94.php:49, 75-79). The base URL is
  a parameter, and logging is dropped.
- `sanitiseCollection` belongs to a parent class that is not part of this
  model. The collection name is taken as already sanitised.
- Evaluating the compiled predicates is database semantics that this code
  does not define (Postgres94.php:131-140, 159, 247-250). So are the
  ordering by `created`, `limit`/`offset`, the rows `getRecords` decodes,
  the number `countRecords` returns, and `getAnyRecord`. Only the
  statement text and its bindings are modelled.
- `getRecordByUUID` is not modelled (Postgres94.php:93-103). `uuid` is not
  unique, so which row it returns is up to the database.
- `checkAndUpgradeSchema` and `exportRecords` are empty
  (Postgres94.php:31-33, 228-231).
- Two concurrent saves of the same new `_id` can race. Concurrency is not
  modelled.
- PHP floats and objects are not among the modelled values. Neither is
  PHP's conversion of numeric string keys to integers; it does not change
  what the compiler emits.
- RecordStore.Postgres94.GetRecord: does not model a failing `execute`,
  because under the exception error mode the source sets, that call throws
  instead of returning false.
- RecordStore.Postgres94.DeleteRecord: always reports true. A failing
  `delete` throws out of the method in the source, and exceptions are not
  modelled.
- RecordStore.Postgres94.SaveRecord: `fails` covers only an exception
  between the existence check and `commit` (Postgres94.php:55-73). An
  exception from `beginTransaction` (line 53) or from `rollback` (line 80)
  leaves the method without returning the `_id`; that is not modelled. Every
  collection's table is assumed to exist: a collection with no rows yet is
  an empty table that the save creates, while an insert into a table that
  does not exist throws in the source and is rolled back.
- RecordStore.Postgres94.SaveRecord: the `_id` and `uuid` are written to
  the row as PHP's string conversion of the values. This covers the values
  the identifier step produces. It does not model how PDO binds a
  non-empty array left in `_id` or `uuid` by the caller.
