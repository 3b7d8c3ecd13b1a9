# mongo-to-oracle, modelled in Dafny

mongo-to-oracle copies MongoDB collections into Oracle tables and keeps
them in step. A configuration lists entries such as `"user->USER"`, each
pairing a source name with a destination name. From it the program builds
source and destination table descriptors. On start it copies every
collection marked `isSyncOnStart`, as one batched run of MERGE statements.
It then follows the change streams of the collections marked
`isSyncInRealTime` and turns each change into an insert, update, upsert or
delete.

This project models the core of that program and proves properties of the
model:

- **Mapping compiler** (`pairs_common.dfy`, module `PairsCommon`). It
  splits `"a->b"` strings, splits whole configuration trees into a source
  half and a destination half, and builds the source/destination pairs.
- **Pair lists** (`sync_pairs.dfy`, `csv_pairs.dfy`). These are the
  `SyncPairs` and `CsvPairs` classes: arrays filled by their constructor.
- **Path resolution** (`src_object.dfy`, module `SrcObjects`). This is
  `SrcObject.getPropertyValue`, with the `?` fallback, `'literal'`, `../`,
  dotted navigation and the distribution over arrays.
- **Statement builder** (`sql_constructor.dfy`, module `SqlConstructor`).
  It covers value coercion, `insert`, `update`, `upsert`, `delete`,
  `deleteAll` and `getSubStatements`. A statement's text is kept
  structured, and `Statement.Sql()` renders exactly the strings the
  builders write.
- **Executer** (`oracle_executer.dfy`, module `OracleExecuter`). It covers
  `execute` over statement trees, the four single-change operations with
  their warnings, `deleteAll`, `executeMany` in debug and batch mode, and
  `groupSqlStatements`.
- **Synchronizer** (`synchronizer.dfy`, module `Synchronizing`). It covers
  `start`, `synOnStart`, `listen` and the change handler.

Shared pieces:

- `js_values.dfy` holds JavaScript values, property reads, truthiness and
  the `Result` type that stands for a thrown exception.
- `strings.dfy` holds `split`, `join` and `replace`.
- `effects.dfy` describes the outside world. Every effect is an `Action`
  appended to a trace: a store call, a warning, a logged error, a `find`,
  a `watch` or a callback. The Oracle connection (`Store`) and the MongoDB
  collections (`Documents`) are function parameters. Each answer may
  depend on the call and on everything that happened before it.

Each step that works by updating state is a method of a class:

- `Executer` owns the trace.
- `SqlDictionary` is the grouping dictionary.
- `SyncPairs` and `CsvPairs` are the pair arrays.
- `Synchronizer` holds an `Executer`.

Each such method is proved equal to a specification function: its result
and the new trace are what the function gives from the old trace. The
properties are proved as lemmas about those functions.

Where the documented behaviour and the code disagree, the model follows
the code:

- A path whose every `?` alternative is undefined resolves to
  `undefined`, not `null`. The loop returns the last alternative's value
  (`SrcObjects.AllUndefined`).
- A quoted literal does not ignore the context in every case. The array
  branch comes first, so on an array context the literal is repeated once
  per element (`SrcObjects.LiteralOnArray`).
- `executeMany` does not catch failures. In batch mode a failed call makes
  the whole call fail, after every call has been issued
  (`OracleExecuter.BatchIssuesAll`). `synOnStart` does not catch either,
  so a failed initial copy ends `start` before `listen`
  (`Synchronizing.NoListeningAfterFailedSync`).
- The batch flag is the parameter `isDebug`, with default `false`.
- Debug mode returns the sum of the rows affected by the top-level
  statements only (`OracleExecuter.Debugged`).
- `strSplitter` removes only the first space (`str.replace(" ", "")`), so
  `"a -> b"` gives `a` and `" b"` (`PairsCommon.StrSplitterOneSpace`).
- The date pattern `/\d{4}-\d{2}-\d{2}T\d{2}[:\d{2}]*[.\d{3}]*Z/` is not
  anchored. Its two brackets are character classes, so braces count as
  time characters (`SqlConstructor.IsDateText` spells out exactly what it
  matches).

## Model

| member | source | states |
|---|---|---|
| PairsCommon.StrSplitter | src/pairs-common.ts:4-10 | at least two tokens, none containing an arrow; either they join with "->" back into the string with its first space removed, or the string had no arrow and both sides are that string |
| PairsCommon.StrSplitterNoArrow | src/pairs-common.ts:6-7 | a string without an arrow names the same thing on both sides |
| PairsCommon.StrSplitterArrow | src/pairs-common.ts:4-10 | `a->b` with no space and no arrow inside `a` or `b` yields exactly `[a, b]` |
| PairsCommon.StrSplitterFirstTwo | src/pairs-common.ts:5-9 | with several arrows, the first two tokens are the text before the first arrow and the text between the first and the second |
| PairsCommon.StrSplitterOneSpace | src/pairs-common.ts:5 | only the first space is removed: `a -> b` yields `a` and `" b"` |
| PairsCommon.SplitPair | src/pairs-common.ts:15-43 | fails (`Object.entries(null)`) exactly when a `null` sits anywhere in the value; strings split on the arrow; undefined, booleans and numbers are copied to both sides |
| PairsCommon.SplitPairShape | src/pairs-common.ts:15-43 | both halves have the shape of the input: strings for strings, arrays of the same length, objects with the same keys, other values equal |
| PairsCommon.SplitArray | src/pairs-common.ts:20-29 | an array splits element by element into two arrays of its length |
| PairsCommon.SplitObject | src/pairs-common.ts:31-40 | an object splits key by key into two objects with its key set |
| PairsCommon.SplitDescriptor | src/pairs-common.ts:15-43 | splitting a well-formed table descriptor yields two well-formed descriptors that are its halves, name by name, position by position, child table by child table |
| PairsCommon.HalvesAligned | src/pairs-common.ts:20-29 | the halves of a descriptor have keys, columns and child tables of equal lengths at every level |
| PairsCommon.SplitTable | src/sync-pairs.ts:9-11 | the source and destination descriptors of a configured table are its halves and are aligned; building them fails exactly when the entry holds a `null` |
| PairsCommon.OptionPair | src/sync-pairs.ts:9-13 | one pass of the loop: the table's halves with its own options when truthy and the default options otherwise; fails exactly on a `null` |
| PairsCommon.OptionPairsOnePerTable | src/sync-pairs.ts:6-15 | the pairs are built exactly when no table holds a `null`; then there is one pair per table, in order, made of its halves, aligned, with its own options when truthy and the defaults otherwise |
| PairsCommon.OptionPairsFirstNull | src/sync-pairs.ts:8-9 | a failure is the error of the first table holding a `null` |
| SyncPairing.SyncPairs.Build | src/sync-pairs.ts:6-15 | the constructor loop fills a fresh array with exactly the pairs `OptionPairs` describes, or throws its error |
| SyncPairing.SyncPairs.Push | src/sync-pairs.ts:13 | `push` appends the pair and changes nothing else |
| CsvPairing.CsvPairs.Build | src/csv/csv-pairs.ts:6-15 | the same construction for the CSV pairs |
| CsvPairing.CsvPairs.Push | src/csv/csv-pairs.ts:13 | `push` appends the pair and changes nothing else |
| JsValues.Get | src/src-object.ts:66-69 | `v[key]` throws exactly on null and undefined; on an object it is the own field or undefined |
| SrcObjects.ResolvePath | src/src-object.ts:22-70 | the loops of `getPropertyValue` (results pushed one by one, early return from the `?` loop) compute `GetPropertyValue` |
| SrcObjects.ArrayDistributes | src/src-object.ts:24-30 | on an array the path is resolved against every element, each in a context with the array context's parent; the result is the array of those values in order, and it fails exactly when one of them fails |
| SrcObjects.IdentityPath | src/src-object.ts:46-48 | "." and "" give back the context value, arrays included |
| SrcObjects.LiteralPath | src/src-object.ts:51-53 | a quoted literal resolves to its text with every quote removed, whatever the non-array context holds |
| SrcObjects.LiteralOnArray | src/src-object.ts:24-30 | on an array of non-arrays a literal is repeated once per element |
| SrcObjects.ParentPath | src/src-object.ts:56-59 | `../x` resolves `x` against the parent context, and is null at the root |
| SrcObjects.NavigatePath | src/src-object.ts:62-67 | `a.rest` reads field `a` (throwing on null or undefined) and resolves `rest` in a context whose parent is the current one |
| SrcObjects.SegmentPath | src/src-object.ts:69 | a single plain segment is the property read `value[segment]` |
| SrcObjects.FallbackStops | src/src-object.ts:34-38 | in `first?rest` an alternative that is anything but undefined, null included, decides the result |
| SrcObjects.FallbackSkips | src/src-object.ts:34-38 | in `first?rest` an undefined first alternative hands over to `rest` |
| SrcObjects.AllUndefined | src/src-object.ts:32-40 | the result is undefined exactly when every alternative is undefined |
| SrcObjects.FallbackNullStops | src/src-object.ts:32-40 | on a document with `a: null`, `a?b` is null |
| SrcObjects.FallbackMissingSkips | src/src-object.ts:32-40 | on a document without `a`, `a?b` is the value of `b` |
| SqlConstructor.StrConverter | src/sql-constructor.ts:5-12 | a string becomes a date exactly when the date pattern matches somewhere in it; otherwise it stays the same text |
| SqlConstructor.MillisecondsDate | src/sql-constructor.ts:4-5 | the documented form with milliseconds, `1234-12-12T12:00:00.000Z`, is a date |
| SqlConstructor.SecondsDate | src/sql-constructor.ts:4-5 | the documented form with seconds, `1234-12-12T00:00:00Z`, is a date |
| SqlConstructor.MinutesDate | src/sql-constructor.ts:4-5 | the documented form with minutes, `1234-12-12T00:00Z`, is a date |
| SqlConstructor.HoursDate | src/sql-constructor.ts:4-5 | the documented form with hours only, `1234-12-12T00Z`, is a date |
| SqlConstructor.BracedDate | src/sql-constructor.ts:5 | the brackets of the pattern are character classes, so `1234-12-12T12{}Z` is a date too |
| SqlConstructor.DateAfterPrefix | src/sql-constructor.ts:5-8 | the pattern is not anchored: any text in front of a date still makes a date |
| SqlConstructor.NoDigitNoDate | src/sql-constructor.ts:5-12 | text without a digit is never a date and is kept as the same text |
| SqlConstructor.ShortTextNoDate | src/sql-constructor.ts:5 | text shorter than the shortest match (14 characters) is never a date |
| SqlConstructor.Coerce | src/sql-constructor.ts:23-28 | a number becomes its number text, NaN becomes null, booleans become "1"/"0", a string becomes exactly its date conversion, and undefined, null, arrays and objects are kept as they are |
| SqlConstructor.Values | src/sql-constructor.ts:19-31 | one coerced value per property, in order; it fails exactly when resolving one of the paths fails |
| SqlConstructor.GetValues | src/sql-constructor.ts:19-31 | the `forEach` loop pushing one value at a time computes `Values` |
| SqlConstructor.InsertBinds | src/sql-constructor.ts:51-60 | `INSERT INTO dest (keys, columns)` with `:0..:n-1`; placeholder `:j` is bound to the value of the j-th source key or column; the children are `getSubStatements` with `insert` |
| SqlConstructor.UpdateWithoutColumns | src/sql-constructor.ts:67-69 | with no destination columns `update` is exactly `upsert` |
| SqlConstructor.UpdateBinds | src/sql-constructor.ts:62-82 | SET column i = `:i`, WHERE key j = `:(c+j)`; the values are the source columns then the source keys, so every placeholder is bound to its column's value |
| SqlConstructor.UpsertBinds | src/sql-constructor.ts:84-101 | MERGE into the destination table; the values are the resolved list twice; WHEN MATCHED appears exactly when there are columns; ON/SET by number and VALUES by position bind every column to its own value |
| SqlConstructor.MergeBinds | src/sql-constructor.ts:89-100 | a MERGE over keys K and columns C with values V + V binds K + C to V |
| SqlConstructor.DeleteBinds | src/sql-constructor.ts:103-116 | WHERE the surviving destination keys `= :0..:m-1`, bound to the values of the surviving source keys (equal in number); the children are built with empty data allowed |
| SqlConstructor.DeleteAtRoot | src/sql-constructor.ts:105-110 | at the root every key is matched |
| SqlConstructor.NarrowBelowRoot | src/sql-constructor.ts:108-110 | below the root only source keys that start with "../" survive |
| SqlConstructor.DeleteEmptyWhere | src/sql-constructor.ts:103-116 | below the root with no "../" key the text is `DELETE FROM t WHERE ` with no values |
| SqlConstructor.DeleteAll | src/sql-constructor.ts:118-122 | `DELETE FROM t` with no values and no children |
| SqlConstructor.DataTargets | src/sql-constructor.ts:136-149 | falsy data gives no child unless empty data is allowed; array data gives one child per element, in order; other data gives one child; every child context's parent is the current context |
| SqlConstructor.Targets | src/sql-constructor.ts:124-152 | every child parameter is aligned and parented to the current context |
| SqlConstructor.SubStatementsBuiltFor | src/sql-constructor.ts:124-152 | `getSubStatements` succeeds exactly when every path read and every child build succeeds, and then yields one statement per child parameter, in order, each built with the caller's operation and its children rebuilt with it |
| SqlConstructor.GetSubStatements | src/sql-constructor.ts:124-152 | the loop over the child tables (skip, per element, or single) computes `SubStatements` |
| SqlConstructor.SampleTableSplits | src/configs/config.ts:57-69 | the shipped sample entry reads as a table descriptor and splits into exactly `UserSrc` (`user`, `_id`, `name`, `'type'`, `'0'`) and `UserDest` (`USER`, `USER_ID`, `NAME`, `TYPE`, `VERSION`) |
| SqlConstructor.SplitsPlain | src/pairs-common.ts:4-43 | an entry without null whose names are all `l->r` with no space or dash splits into the lefts and the rights |
| SqlConstructor.SampleInsert | src/configs/config.ts:57-69 | a document of the shipped sample table becomes `INSERT INTO USER (USER_ID, NAME, TYPE, VERSION) VALUES (:0, :1, :2, :3) ` with no children |
| SqlConstructor.SampleValues | src/configs/config.ts:57-69 | a document `{_id, name}` always builds, and binds its converted `_id` and `name` followed by the texts `type` and `0` (the literals without their quotes, no dates) |
| OracleExecuter.Nodes | src/oracle-executer.ts:84-88 | the pre-order of a tree starts with its root |
| OracleExecuter.RunShape | src/oracle-executer.ts:80-91 | a run of calls only appends store calls, issued in order; all of them on success; on failure the last call issued is the one the store rejected |
| OracleExecuter.ExecIsFlat | src/oracle-executer.ts:80-91 | `execute` on a tree issues the pre-order calls of the tree one after the other, stopping at the first failure, and returns the root's rows affected |
| OracleExecuter.ExecAllIsFlat | src/oracle-executer.ts:84-88 | running a list of trees is running their pre-order calls |
| OracleExecuter.RunIssues | src/oracle-executer.ts:80-91 | a built statement adds only store calls: a prefix of its tree's calls, all of them on success; a build error adds nothing |
| OracleExecuter.InsertIssues | src/oracle-executer.ts:14-21 | `insert` adds no warning and a prefix of its tree's calls; on failure the error is logged last |
| OracleExecuter.CaughtIssues | src/oracle-executer.ts:23-30 | `upsert` (a caught run) adds a prefix of the statement's calls and logs a failure last |
| OracleExecuter.UpdateIssues | src/oracle-executer.ts:32-50 | `update` warns exactly when it ran and changed a number of rows other than 1; with 0 rows its calls are followed by a prefix of the insert's calls; otherwise only a prefix of its own calls is issued |
| OracleExecuter.DeleteIssues | src/oracle-executer.ts:52-68 | `delete` warns exactly when it ran and removed a number of rows other than 1, and issues a prefix of its tree's calls |
| OracleExecuter.DeleteAllIssues | src/oracle-executer.ts:70-78 | `deleteAll` issues one call `DELETE FROM t` with no values and logs its failure |
| OracleExecuter.GroupWell | src/oracle-executer.ts:121-130 | grouping keeps the dictionary's keys distinct and equal to its entries |
| OracleExecuter.GroupRows | src/oracle-executer.ts:124-127 | after grouping, an entry exists for a SQL text exactly when it existed or some statement has that text, and it holds the old rows followed by those statements' values in order |
| OracleExecuter.GroupTotal | src/oracle-executer.ts:121-130 | grouping adds exactly one row per statement |
| OracleExecuter.GroupedCovers | src/oracle-executer.ts:102-103 | the dictionary built from the statement trees holds every statement of every tree exactly once, under its SQL text, in order |
| OracleExecuter.GroupSqlStatements | src/oracle-executer.ts:121-130 | the recursive procedure leaves the dictionary as `GroupNodes` of the pre-order of the trees |
| OracleExecuter.SqlDictionary.Push | src/oracle-executer.ts:124-127 | creates the entry when missing and appends the row |
| OracleExecuter.BatchIssuesAll | src/oracle-executer.ts:102-112 | batch mode issues one `executeMany` per distinct SQL text, every one of them, fails exactly when one of the answers is an error, and otherwise returns the sum of the answers |
| OracleExecuter.IssuedCalls | src/oracle-executer.ts:105-108 | the issued batch calls are exactly the dictionary's entries in key order |
| OracleExecuter.DebugIsFlat | src/oracle-executer.ts:95-101 | debug mode issues the same calls as executing every tree's pre-order statements one after the other, stopping at the first failure |
| OracleExecuter.Executer.Execute | src/oracle-executer.ts:80-91 | the recursive method leaves the result and trace `Exec` gives |
| OracleExecuter.Executer.Insert | src/oracle-executer.ts:14-21 | leaves the trace `InsertTrace` gives |
| OracleExecuter.Executer.Upsert | src/oracle-executer.ts:23-30 | leaves the trace `UpsertTrace` gives |
| OracleExecuter.Executer.Update | src/oracle-executer.ts:32-50 | leaves the trace `UpdateTrace` gives |
| OracleExecuter.Executer.Delete | src/oracle-executer.ts:52-68 | leaves the trace `DeleteTrace` gives |
| OracleExecuter.Executer.DeleteAll | src/oracle-executer.ts:70-78 | leaves the trace `DeleteAllTrace` gives |
| OracleExecuter.Executer.ExecuteMany | src/oracle-executer.ts:93-113 | leaves the result and trace `ExecMany` gives, in both modes |
| OracleExecuter.SumOf | src/oracle-executer.ts:111 | the `reduce` loop adds up the rows affected |
| Synchronizing.Flag | src/synchronizer.ts:50 | reading an option throws exactly when the options are null or undefined |
| Synchronizing.ListeningWatches | src/synchronizer.ts:44-70 | `listen` only opens change streams: one per pair whose options say `isSyncInRealTime`, in order, with the pipeline or `[]` and the resume token; it fails exactly when some pair's options cannot be read |
| Synchronizing.GatherFindsAndUpserts | src/synchronizer.ts:77-89 | the gathering loop only reads collections, and every statement it gathers is a MERGE into the destination table of one of the pairs |
| Synchronizing.SyncedOnStart | src/synchronizer.ts:77-82 | the pairs copied on start are pairs of the list whose options say `isSyncOnStart` |
| Synchronizing.GatherSynced | src/synchronizer.ts:77-89 | the gathering loop reads exactly the collections of the pairs with `isSyncOnStart`, in order, with the query or `{}`, up to its first failure; on success it gathers the upserts of each collection's documents, concatenated in the order of the reads |
| Synchronizing.UpsertsFor | src/synchronizer.ts:85-88 | one upsert per document, each document a root context, in order; it fails exactly when one of them fails |
| Synchronizing.UpsertsMerge | src/synchronizer.ts:85-88 | the upserts for a collection's documents are MERGE statements into the pair's destination table |
| Synchronizing.SynOnStartActions | src/synchronizer.ts:72-92 | `synOnStart` only reads collections and then calls the store, never reading after a call; a failed gathering adds nothing after its reads; otherwise the reads are followed by exactly the batch calls of the statements gathered |
| Synchronizing.StartSyncsBeforeListening | src/synchronizer.ts:36-42 | `start` only reads collections, calls the store and opens change streams, and opens no stream before the copy is complete |
| Synchronizing.StartWithOrder | src/synchronizer.ts:36-42 | the same for `start` once the pairs are built |
| Synchronizing.NoListeningAfterFailedSync | src/synchronizer.ts:40-41 | when the initial copy fails, `start` fails without opening any change stream |
| Synchronizing.HandledCalls | src/synchronizer.ts:60-65 | a change event issues a prefix of the calls of the insert, upsert or delete it builds; an update issues a prefix of the update's calls, and when the update changed no row all of them followed by a prefix of the insert's calls; invalidate and unknown events issue no call and log a warning; the callback comes last; a null or undefined event throws and changes nothing |
| Synchronizing.DispatchedCalls | src/synchronizer.ts:94-116 | the `switch` on the operation type: `insert`, `update` (with its insert fallback), `replace` as an upsert and `delete` on the document key issue the calls of the statement they build; any other type issues no call and warns |
| Synchronizing.UpsertDocuments | src/synchronizer.ts:85-88 | the inner loop builds one upsert per document, in order, or throws the first build error |
| Synchronizing.Synchronizer.Start | src/synchronizer.ts:36-42 | leaves the result and trace `StartSpec` gives |
| Synchronizing.Synchronizer.Listen | src/synchronizer.ts:44-70 | leaves the result and trace `Listening` gives |
| Synchronizing.Synchronizer.SynOnStart | src/synchronizer.ts:72-92 | leaves the result and trace `SynOnStartSpec` gives |
| Synchronizing.Synchronizer.OnChange | src/synchronizer.ts:94-116 | the handler and the callback leave the result and trace `Handled` gives |

## Left out

- Logging at info and debug level is not modelled. Neither is the JSON
  text of warnings and errors. A warning is recorded as the statement or
  table it is about.
- SqlConstructor.Coerce: a number is kept as its value (`NumberText`),
  not as the decimal text `toString` would print. The parsed `Date` of a
  date string is kept as its text (`DateOf`).
- Date parsing (`new Date(value)`) is left out, and so are timings
  (`Date.now()`).
- The `result` field that `execute` writes into a statement is left out.
  Only log lines read it.
- The database name (`this._mongo.db(dbName)`) is left out. A collection
  is named by its table name alone.
- Concurrency is not modelled. `Promise.all` starts every batch call
  before any answer arrives. The model issues the calls one after the
  other in the dictionary's key order, and each call's answer sees the
  trace with the calls issued before it. When several batches fail, the error reported is the first in
  key order, whereas `Promise.all` reports the first to reject.
- Change events are handled one at a time, each to completion. The
  source's handlers may interleave at their `await`s.
- The change stream's `error` handler only logs, and is not modelled.
- Synchronizing.Synchronizer: inheritance from `OracleExecuter` is
  modelled as composition. The synchronizer holds an `Executer`, and the
  actions it records itself (find, watch, warnings and the callback) go
  onto that executer's trace.
- SyncPairing.SyncPairs.Build: configured tables must have the shape of
  the `ITable` interface (a string `table`, lists of strings for `keys`
  and `columns`, child tables for `embeddedColumns`). The TypeScript
  types demand that shape, so entries of any other shape are not
  modelled. The same holds for CsvPairing.CsvPairs.Build and for
  Synchronizing.Synchronizer.Start.
- JsValues.Get: properties inherited through prototypes are not modelled.
  Only own fields, array and string indices and `length` are.
- JsValues.Get: strings are sequences of Unicode code points, not of
  UTF-16 code units as in JavaScript. On a character outside the Basic
  Multilingual Plane, `length` and index reads differ: `"😀".length` is 1
  here and 2 in JavaScript, and index 0 gives the whole character here and
  a lone surrogate in JavaScript.
- JsValues.Value: numbers are finite reals (`Num`) or `NaN`. Positive and
  negative `Infinity` are not modelled, so the `"Infinity"` text that
  `getValues` would bind for them is not either.
- Object key order is not modelled, since objects are maps. No modelled
  result depends on that order.
- Not part of this model: `main.ts`, `csv-inserter.ts`, `mongo.ts`,
  `oracle.ts`, the logger and the connection wrappers. They are I/O and
  process wiring.
