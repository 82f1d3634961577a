# node-ndo in Dafny

node-ndo ("Node Data Objects") is a small JavaScript database abstraction.
Its `NDO` class turns a query description into SQL text with `?` markers
and a positional array of bind values. The description is a table, a
field list, where conditions, joins, an ordering, a limit, a grouping, an
offset, or the entries to insert or update. `NDO` then hands both to a
database driver and post-processes the reply: it re-keys the rows of a
SELECT in camelCase and remembers the table of an INSERT.
The PostgreSQL driver (`lib/pgsql.js`) rewrites the text before querying.
It renumbers the `?` markers to `$1, $2, …` and appends `NULLS FIRST` to
every ORDER BY item.

This project models those two files.

- `text.dfy` (module `Text`): the string operations the code relies on, with their lemmas.
  These are `indexOf`, `split`, `join`, ASCII `toUpperCase`/`toLowerCase`, number formatting and character counts.
- `wrappers.dfy` (module `Wrappers`): `Option` and `Result`.
- `ndo_spec.dfy` (module `NdoSpec`): the text and the bind values of every builder, as pure functions of the query description.
  JavaScript objects are sequences of key/value pairs in insertion order.
  lodash's `camelCase` and `snakeCase` are the uninterpreted fields of a `Casing` value.
- `ndo.dfy` (module `Ndo`): the `NDO` class itself.
  Its fields are the bind-value buffer `values`, `allFields` and `table`.
  Each builder is a method that appends to `values` while it assembles the text, proved equal to the `NdoSpec` function.
  It also holds the public `find`/`findOne`/`insert`/`update`/`delete` and the reply handling of `execute`.
- `ndo_lemmas.dfy` (module `NdoLemmas`): what the builders' output means.
  - A SELECT, UPDATE or DELETE carries exactly as many `?` markers as it pushes bind values, under the hypotheses listed under "Left out".
  - An INSERT carries one marker per bound value, plus one per object value without `function` whenever some plain value is bound (see Findings).
  - The first word of every statement is the operation `execute` dispatches on.
  - `findOne` always ends with `LIMIT 1`.
  - Field and table aliases follow the `|` and `.` rules.
  - A re-keyed row has camelCase keys, unique keys, and for each key the value of the last column with that camelCase name.
- `pgsql.dfy` (module `PgSql`): the text rewriting of `PGSQL.execute`.
  - The marker loop is modelled twice: once as written and once with the cut corrected (see Findings).
  - The ORDER BY rewrite is modelled twice: once as written and once with the list ending before a LIMIT or OFFSET clause (see Findings).
  - Both versions of the loop leave no marker.
  - For the corrected loop it is also proved that exactly one `$` is added per marker and that all text outside the markers is kept. The loop as written loses the character in front of each marker.
  - Both versions of the ORDER BY rewrite keep the text before the list and follow every item of the list with `NULLS FIRST`.

`exports.ndo` (lib/ndo.js:514-517) pairs `NDO` with the HANA adapter (`lib/hana.js`), which sends the text unchanged.
The `NDO` class itself is not exported, so no code in this repository hands `NDO`'s text to `PGSQL`.
`PGSQL.execute` is therefore modelled on any text a caller may give it, and its two rewrites are stated on their own.

## Model

| member | source | states |
|---|---|---|
| Ndo.NDO.constructor | lib/ndo.js:12-17 | a new instance has an empty value buffer, `allFields` false and no table |
| Ndo.NDO.BuildWhere | lib/ndo.js:285-325 | the text is `(conditions joined by the connective) ` and the buffer gains the condition values in order; the connective defaults to AND |
| Ndo.NDO.BuildListed | lib/ndo.js:288-316 | each element of a where array contributes its condition texts in order, and its values are appended in the same order |
| Ndo.NDO.BuildKeyed | lib/ndo.js:317-322 | a plain `{k: v}` where gives `snake(k) = ?` per key and pushes each value |
| Ndo.NDO.BuildCondition | lib/ndo.js:290-315 | a field condition gives its column with an IN list, an operator, or `= ? `; only a non-object value is pushed, and a subquery follows when there is no value; a bare element gives one `= ?` per key |
| Ndo.NDO.BuildEqualities | lib/ndo.js:307-314 | each key of a bare element is snake_cased unless it holds a `.`, and each value is pushed |
| Ndo.NDO.BuildJoins | lib/ndo.js:333-353 | one `TYPE JOIN table AS alias ON c1 AND c2 …` line per join, joined by newlines; a string `on` is one condition |
| Ndo.NDO.BuildSelect | lib/ndo.js:191-277 | the SELECT text is the projection, FROM, joins, WHERE, GROUP BY, ORDER BY, LIMIT and OFFSET clauses in that order; the buffer gains exactly the filter values; `allFields` is set by `*` |
| Ndo.NDO.BuildProjection | lib/ndo.js:197-219 | a field list gives `expr as "alias"` items; `*` gives `* ` and sets `allFields` |
| Ndo.NDO.BuildProjectionItems | lib/ndo.js:199-213 | one aliased item per field, in order |
| Ndo.NDO.BuildFrom | lib/ndo.js:221-226 | `FROM table as alias ` with the alias split off at a vertical bar |
| Ndo.NDO.BuildJoinsClause | lib/ndo.js:228-236 | a join array is INNER; a join object gives one block per join type in key order; an empty one gives nothing |
| Ndo.NDO.BuildFilter | lib/ndo.js:238-247 | a non-empty where gives `WHERE ` followed by one group per connective key, or a single AND group for an array |
| Ndo.NDO.BuildGroups | lib/ndo.js:243-245 | each connective key of a where object adds its group and its values, in key order |
| Ndo.NDO.BuildTrailer | lib/ndo.js:249-274 | GROUP BY, ORDER BY, LIMIT (only when truthy) and OFFSET (whenever given) follow in that order |
| Ndo.NDO.BuildOrder | lib/ndo.js:253-266 | an ordering array gives `x ASC` items, an object gives `field direction` items; empty gives nothing |
| Ndo.NDO.BuildInsertValues | lib/ndo.js:414-430 | plain values are bound in order; objects with `function` become `fn(arg)` texts; other objects are dropped |
| Ndo.NDO.BuildInsert | lib/ndo.js:361-407 | `INSERT INTO t (COLUMNS) VALUES (markers, calls)` with upper snake_case columns; the buffer becomes the bound values; an empty entry list gives the empty text and keeps the buffer |
| Ndo.NDO.BuildUpdate | lib/ndo.js:439-466 | `UPDATE t SET items ` then `WHERE` group when a where is given; the buffer gains the bound values then the where values; no entries gives the empty text |
| Ndo.NDO.BuildSetItems | lib/ndo.js:445-457 | `COLUMN = ?` per plain value, `COLUMN = fn(arg)` per function call, nothing for other objects |
| Ndo.NDO.BuildDelete | lib/ndo.js:474-481 | `DELETE FROM t WHERE group` when the where has keys, otherwise the empty text; the buffer gains the where values |
| Ndo.NDO.Find | lib/ndo.js:44-50 | resets the buffer and `allFields`, so the buffer ends holding exactly the filter values of the SELECT it builds |
| Ndo.NDO.FindOne | lib/ndo.js:58-62 | builds the SELECT of `find` with limit 1 and no offset |
| Ndo.NDO.PickOne | lib/ndo.js:63-67 | the result is the last row exactly when there is one, and none (the empty array) otherwise |
| Ndo.NDO.Insert | lib/ndo.js:75-85 | an empty table name fails with "Invalid table" and leaves the remembered table alone; otherwise the table is remembered and the buffer holds exactly the INSERT's values |
| Ndo.NDO.Update | lib/ndo.js:93-99 | resets the buffer, which ends holding exactly the UPDATE's values |
| Ndo.NDO.Delete | lib/ndo.js:106-110 | resets the buffer, which ends holding exactly the DELETE's values |
| Ndo.NDO.Execute | lib/ndo.js:117-176 | explicit values replace the buffer; an error keeps the buffer; a SELECT yields re-keyed rows and clears it; an INSERT keeps it, takes the table from the third word when none is set (throwing when there is none) and goes on to getLastId; anything else yields the reply and clears it |
| Ndo.RecaseRows | lib/ndo.js:136-148 | every row is re-keyed with camelCase, row by row, in order |
| NdoSpec.FixedValues | lib/ndo.js:416-427 | there are never more function-call texts than entries |
| NdoLemmas.WhereMarks | lib/ndo.js:285-325 | a WHERE group holds exactly as many `?` markers as values it pushes |
| NdoLemmas.ListedMarks | lib/ndo.js:288-316 | the markers of a where array match its pushed values |
| NdoLemmas.ConditionMarks | lib/ndo.js:290-315 | the markers of one where element match its pushed values |
| NdoLemmas.FieldTextMarks | lib/ndo.js:290-305 | a field condition has no marker with an IN list, the operator's markers with an operator, one marker otherwise |
| NdoLemmas.CompareMarks | lib/ndo.js:296 | the comparison writes the operator's markers, or one `?` when there is no operator |
| NdoLemmas.ObjectTextsMarks | lib/ndo.js:307-314 | a bare element writes one marker per key |
| NdoLemmas.KeyTextsMarks | lib/ndo.js:318-321 | a plain where object writes one marker per key |
| NdoLemmas.PairValuesLength | lib/ndo.js:313 | one value is pushed per key |
| NdoLemmas.GroupsMarks | lib/ndo.js:243-245 | the connective groups of a where object hold as many markers as values |
| NdoLemmas.FilterMarks | lib/ndo.js:238-247 | the WHERE clause of a SELECT holds as many markers as values |
| NdoLemmas.HeadFree | lib/ndo.js:195-236 | projection, FROM and joins add no marker |
| NdoLemmas.ProjectionFree | lib/ndo.js:197-219 | the projection adds no marker |
| NdoLemmas.JoinsClauseFree | lib/ndo.js:228-236 | the joins add no marker |
| NdoLemmas.TrailerFree | lib/ndo.js:249-274 | GROUP BY, ORDER BY, LIMIT and OFFSET add no marker |
| NdoLemmas.SelectMarks | lib/ndo.js:191-277 | a SELECT holds exactly as many markers as the values it pushes |
| NdoLemmas.EntriesPartition | lib/ndo.js:416-427 | every entry is bound, a function call, or a dropped object |
| NdoLemmas.SetItemsMarks | lib/ndo.js:445-457 | the SET list holds one marker per bound value |
| NdoLemmas.UpdateMarks | lib/ndo.js:439-466 | an UPDATE holds exactly as many markers as the values it pushes |
| NdoLemmas.DeleteMarks | lib/ndo.js:474-481 | a DELETE holds exactly as many markers as the values it pushes |
| NdoLemmas.PlaceholdersMarks | lib/ndo.js:394 | the trimmed `?, ` repetition holds n markers |
| NdoLemmas.InsertMarks | lib/ndo.js:361-407 | an INSERT holds one marker per bound value plus one per dropped object when any value is bound |
| NdoLemmas.InsertCompoundUnbound | lib/ndo.js:386-395 | a plain value next to an object without `function` binds one value, yet the INSERT as written holds two markers and the corrected one holds one |
| NdoLemmas.InsertCallBeforePlain | lib/ndo.js:386-404 | with a call entry before a plain one, the INSERT as written lists the marker first and so pairs each column with the other entry's item; the corrected one keeps each item in its column's place |
| NdoLemmas.KeptEntries | lib/ndo.js:416-427 | the entries the corrected INSERT keeps are exactly the entries other than objects without `function` |
| NdoLemmas.AlignedPairs | lib/ndo.js:386-404 | in the corrected INSERT, column `i` and item `i` come from the same kept entry, and there are as many columns as items |
| NdoLemmas.AlignedItemsMarks | lib/ndo.js:394 | the corrected items hold one marker per plain value |
| NdoLemmas.AlignedMarks | lib/ndo.js:361-407 | the corrected INSERT holds exactly one marker per value it binds |
| NdoLemmas.AlignedOperation | lib/ndo.js:126-127 | the first word of the corrected INSERT is `INSERT`, and empty when there are no entries |
| NdoLemmas.SelectOperation | lib/ndo.js:126-127 | the first word of every SELECT is `SELECT` |
| NdoLemmas.InsertOperation | lib/ndo.js:126-127 | the first word of an INSERT is `INSERT`, and empty when there are no entries |
| NdoLemmas.UpdateOperation | lib/ndo.js:126-127 | the first word of an UPDATE is `UPDATE`, and empty when there are no entries |
| NdoLemmas.DeleteOperation | lib/ndo.js:126-127 | the first word of a DELETE is `DELETE`, and empty when the where has no keys |
| NdoLemmas.InsertTableWord | lib/ndo.js:153-155 | with no remembered table, `execute` takes the upper-cased table name from the INSERT text |
| NdoLemmas.FindOneLimit | lib/ndo.js:58-62 | the SELECT of `findOne` ends with `LIMIT 1 ` |
| NdoLemmas.FieldAliasPlain | lib/ndo.js:199-212 | a field with neither a vertical bar nor a `.` is aliased to its camelCase form |
| NdoLemmas.FieldAliasDotted | lib/ndo.js:199-212 | a dotted field without a bar keeps its text and is aliased to the dot-free suffix after its last `.` |
| NdoLemmas.FieldAliasBar | lib/ndo.js:199-212 | a field with one vertical bar is split there into the expression and the alias |
| NdoLemmas.TableAliasRules | lib/ndo.js:221-226 | a table with one vertical bar is a name, a bar and an alias; otherwise it is its own alias |
| NdoLemmas.AssignKeys | lib/ndo.js:140-141 | assigning a key adds exactly that key |
| NdoLemmas.AssignUnique | lib/ndo.js:140-141 | assigning keeps keys unique |
| NdoLemmas.AssignGet | lib/ndo.js:140-141 | after assigning, the key reads the new value and every other key is unchanged |
| NdoLemmas.AssignFresh | lib/ndo.js:140-141 | a new key is appended at the end |
| NdoLemmas.RecasedFacts | lib/ndo.js:137-146 | a re-keyed row has the camelCase keys, no duplicate key, and each key holds the value of the last column with that camelCase name |
| NdoLemmas.RecasedInPlace | lib/ndo.js:137-146 | when camelCase names are distinct, a re-keyed row is the original with each name camelCased, in order |
| NdoLemmas.RecasedRowsEach | lib/ndo.js:136-148 | the SELECT result has one re-keyed row per driver row, in order |
| PgSql.Param | lib/pgsql.js:12 | a positional parameter starts with `$` and holds no marker |
| PgSql.SubstitutedFree | lib/pgsql.js:9-15 | the numbered text holds no marker |
| PgSql.SubstitutedSplit | lib/pgsql.js:9-15 | the numbered text is the text between markers interleaved with `$1, $2, …` |
| PgSql.SubstitutedDollars | lib/pgsql.js:9-15 | exactly one `$` is added per marker |
| PgSql.SubstitutedNone | lib/pgsql.js:11 | a text without markers is left alone |
| PgSql.NumberingStep | lib/pgsql.js:11-14 | one turn of the corrected loop keeps the text a marker-free numbered prefix followed by a shorter unnumbered rest whose numbering completes the whole |
| PgSql.Renumber | lib/pgsql.js:9-15 | the loop with the cut at the marker itself yields the numbered text |
| PgSql.StepRemovesMarker | lib/pgsql.js:12-13 | each turn of the loop as written removes exactly one marker, so it ends |
| PgSql.AsWrittenScan | lib/pgsql.js:9-15 | the loop as written leaves no marker |
| PgSql.RenumberAsWritten | lib/pgsql.js:9-15 | the loop as written yields `AsWrittenScan` and leaves no marker |
| PgSql.AsWrittenDropsPrecedingChar | lib/pgsql.js:12 | the loop as written loses the character before a marker where the corrected one keeps it |
| PgSql.AsWrittenDropsParenthesis | lib/pgsql.js:12 | `(?)` becomes `$1)` as written and `($1)` corrected |
| PgSql.AsWrittenTurn | lib/pgsql.js:12 | a turn of the loop as written replaces the marker and the character before it by `$k` |
| PgSql.SubstitutedTurn | lib/pgsql.js:12 | a turn of the corrected loop replaces the first marker only by `$k` |
| PgSql.AsWrittenDropsTwice | lib/pgsql.js:9-15 | with two markers, the loop as written loses the character before each one |
| PgSql.SubstitutedTwice | lib/pgsql.js:9-15 | with two markers, the corrected loop replaces exactly the two markers by `$1` and `$2` |
| PgSql.AsWrittenDropsValuesList | lib/pgsql.js:9-15 | `VALUES (?, ?)` becomes `VALUES $1,$2)` as written and `VALUES ($1, $2)` corrected |
| PgSql.AsWrittenDropsSpaces | lib/pgsql.js:9-15 | `a = ? AND b = ?` becomes `a =$1 AND b =$2` as written and `a = $1 AND b = $2` corrected |
| PgSql.OrderListStart | lib/pgsql.js:17-18 | the lower-case search finds `order by` exactly when the upper-case test finds `ORDER BY` |
| PgSql.NullsFirst | lib/pgsql.js:17-22 | a text without ORDER BY is left alone |
| PgSql.NullsFirstItems | lib/pgsql.js:17-22 | the text before the list is kept and each comma-separated item is followed by `NULLS FIRST` |
| PgSql.NullsFirstSingleItem | lib/pgsql.js:17-22 | with one item, `NULLS FIRST` is appended after everything that follows ORDER BY, a LIMIT or OFFSET clause included |
| PgSql.ListEnd | lib/pgsql.js:18-19 | the corrected list ends at the first ` LIMIT ` or ` OFFSET ` after ORDER BY, in any letter case, or at the end of the text |
| PgSql.NullsFirstListedItems | lib/pgsql.js:17-22 | the corrected rewrite keeps the text before and after the list and follows each item of the list with `NULLS FIRST` |
| PgSql.NullsFirstListedAgrees | lib/pgsql.js:17-22 | with no LIMIT or OFFSET after the list, the corrected rewrite and the one as written give the same text |
| PgSql.NullsFirstListedSingle | lib/pgsql.js:17-22 | with one item, the corrected rewrite puts `NULLS FIRST` where the list ends |
| PgSql.NullsFirstAfterLimit | lib/pgsql.js:18-21 | with one item and a LIMIT or OFFSET after it, the rewrite as written and the corrected one give different texts |
| PgSql.Prepare | lib/pgsql.js:8-22 | with the corrected numbering and the corrected ORDER BY list, the text sent to the driver is the numbered text with `NULLS FIRST` after each sort item, and it holds no marker |
| PgSql.NoMarkAdded | lib/pgsql.js:17-22 | the ORDER BY rewrite as written adds no marker |
| PgSql.NoMarkAddedListed | lib/pgsql.js:17-22 | the corrected ORDER BY rewrite adds no marker |
| PgSql.PrepareUnchanged | lib/pgsql.js:8-22 | under both corrections, a text without markers and without ORDER BY reaches the driver unchanged |

## Left out

- Batch insert (an array of entry objects, lib/ndo.js:368-380) is not modelled; only the single-object INSERT is.
- The promises, the `db.execute` callback plumbing, and the `getLastId` follow-up of an INSERT (lib/ndo.js:156-165) are left out; `Execute` stops at `AwaitingLastId` with the buffer kept.
- `commit`, `rollback`, `_getLastId` and `_error` are driver calls or error wrapping and are not modelled.
- lib/hana.js and lib/pg-middleware.js are not part of this model, and neither is the `conn.query` reply mapping of lib/pgsql.js.
- The debug `console.log`/`console.error` tracing and the `NDO_TRACE_LEVEL` environment variable are I/O and are left out.
- Ndo.NDO.BuildJoins: `_buildJoins` replaces a string `on` with a one-element array inside the caller's join object; the model takes joins as values and does not capture that mutation or its aliasing.
- lodash `camelCase`, `snakeCase`, `repeat`, `trimEnd` and `keys`: the case conversions are uninterpreted functions; the others are written out for the inputs NDO gives them.
- `toUpperCase`/`toLowerCase` are modelled on ASCII letters only; Unicode case mapping is not modelled.
- JavaScript numbers are modelled as unbounded integers; floating point is not modelled.
- A field condition whose value is `null` or a non-array object throws a TypeError in the source (`.join` is missing); the model's types exclude those inputs.
- `update` and `delete` call `_buildWhere` with its default AND. A where object keyed by connectives (`{and: {...}}`) is then read as plain keys that bind an object value. The model's bind values exclude objects, so it accepts only where arrays and plain key objects there.
- JavaScript orders integer-like object keys numerically before the other keys; the model keeps keys in the order given.
- NdoLemmas.WhereMarks, ListedMarks, ConditionMarks, GroupsMarks, FilterMarks, SelectMarks, UpdateMarks and DeleteMarks hold only under these hypotheses, none of which the source checks:
  - `ConditionFree`: the field, the subquery, the IN-list items and the keys of every where element hold no `?`. The operator may hold `?`.
  - `HeadArgsFree` and `TrailerArgsFree`, and the connective: the table, projection, join, ordering and grouping texts and the connective hold no `?`.
  - `Balanced`: a field condition writes exactly one marker when its value is a scalar and none otherwise.
    This excludes an operator with the wrong number of `?`.
    It also excludes a condition with neither operator nor value, such as `{field, subquery}`: the source writes `= ?` before the subquery and binds nothing.
  - `MarkFree`: lodash's `camelCase` and `snakeCase` never produce a `?`.
- NdoLemmas.InsertMarks, AlignedMarks and UpdateMarks also assume that the table and the function names and arguments of `{function}` values hold no `?`.

## Findings

| source | as written | input that shows it | evidently intended | confidence | as-written member | corrected member |
|---|---|---|---|---|---|---|
| lib/pgsql.js:12 | `sql.substring(0, pos - 1)` keeps the text before the marker minus its last character, so each `$n` also replaces the character in front of the `?` | the one-value INSERT list `(?)` becomes `$1)` instead of `($1)`; `VALUES (?, ?)` becomes `VALUES $1,$2)`; `a = ? AND b = ?` becomes `a =$1 AND b =$2` | cut at `pos`, so that only the `?` is replaced | high, not executed | PgSql.RenumberAsWritten, PgSql.AsWrittenDropsParenthesis, PgSql.AsWrittenDropsValuesList, PgSql.AsWrittenDropsSpaces | PgSql.Renumber, PgSql.SubstitutedSplit |
| lib/pgsql.js:18-21 | the ORDER BY list is taken to run to the end of the text, so ` NULLS FIRST` lands after a LIMIT or OFFSET clause that follows the list | `SELECT * FROM t ORDER BY a LIMIT 1` becomes `SELECT * FROM t ORDER BY a LIMIT 1 NULLS FIRST`, which PostgreSQL rejects because `NULLS FIRST` belongs to a sort item | end the list before LIMIT or OFFSET, and append ` NULLS FIRST` to each sort item there | medium, not executed | PgSql.NullsFirstSingleItem, PgSql.NullsFirstAfterLimit | PgSql.NullsFirstListed, PgSql.NullsFirstListedItems |
| lib/ndo.js:386-395 | an entry whose value is an object without `function` gets a column, and a `?` whenever some plain value is bound, since `fields.length - fixedValues.length` markers are written; it binds no value | `{a: 1, b: {}}` builds `INSERT INTO t (A, B) VALUES (?, ?)` with the one value `[1]` | leave such an entry out, so that every marker has a value | high, not executed | NdoLemmas.InsertMarks, NdoLemmas.InsertCompoundUnbound | NdoSpec.InsertSqlAligned, NdoLemmas.AlignedMarks |
| lib/ndo.js:394-404 | all markers are written before all function calls, whatever the order of the columns | `{created: {function: 'NOW'}, name: 'x'}` builds `INSERT INTO t (CREATED, NAME) VALUES (?, NOW())`, which stores `'x'` in CREATED and `NOW()` in NAME | write each column's item in the column's place | high, not executed | NdoSpec.InsertSql, NdoLemmas.InsertCallBeforePlain | NdoSpec.InsertSqlAligned, NdoLemmas.AlignedPairs |
