/**
 * The SQL text and the bind values of each NDO statement builder, as pure
 * functions of the query description. The `NDO` class (module Ndo) is proved
 * to build exactly these; module NdoLemmas proves what they mean.
 *
 * JavaScript objects are ordered sequences of (key, value) pairs in
 * insertion order; arrays are sequences; `undefined` is `None`.
 */
module NdoSpec {
  import opened Wrappers
  import opened Text

  /** A bind value handed to the driver. */
  datatype Value = Str(s: string) | Num(n: int) | Bool(b: bool) | Null

  /** A value whose `typeof` is not 'object': the only kind a field condition compares with `=` or an operator. */
  type Operand = v: Value | !v.Null? witness Num(0)

  /** lodash's `camelCase` and `snakeCase`, left uninterpreted. */
  datatype Casing = Casing(camel: string -> string, snake: string -> string)

  /** lodash's case conversions keep only word characters, so they never produce a `?`. */
  ghost predicate MarkFree(c: Casing) {
    forall s :: '?' !in c.camel(s) && '?' !in c.snake(s)
  }

  // ---------------------------------------------------------------- WHERE

  /** The `value` of a `{field, operator?, value?, subquery?}` condition. */
  datatype FieldValue = Absent | Scalar(v: Operand) | InList(items: seq<string>)

  /** One element of a where array. */
  datatype Condition =
    | FieldCondition(field: string, operator: Option<string>, value: FieldValue, subquery: Option<string>)
    | Equalities(pairs: seq<(string, Value)>)   // a bare `{k: v, ...}` element

  /** The argument of `_buildWhere`: an array of conditions or a plain `{k: v}` object. */
  datatype Where = Listed(conds: seq<Condition>) | Keyed(pairs: seq<(string, Value)>)

  /** The number of keys `Object.keys`/`_.keys` reports for a where argument. */
  function KeyCount(w: Where): nat {
    match w
    case Listed(conds) => |conds|
    case Keyed(pairs) => |pairs|
  }

  /** The column of a field condition: kept verbatim when it has a `.` after its first character, snake_cased otherwise. */
  function ConditionColumn(c: Casing, field: string): string {
    if IndexOf(field, '.') > 0 then field else c.snake(field)
  }

  /** The column of a key of a bare `{k: v}` array element: snake_cased unless it holds a `.` anywhere. */
  function KeyColumn(c: Casing, key: string): string {
    if IndexOf(key, '.') < 0 then c.snake(key) else key
  }

  /** The text of one field condition. */
  function FieldText(c: Casing, field: string, operator: Option<string>, value: FieldValue, subquery: Option<string>): string {
    var column := ConditionColumn(c, field);
    match value
    case InList(items) => column + " IN (" + Join(items, ",") + ") "
    case _ =>
      column
      + (match operator case Some(op) => " " + op + " " case None => "= ? ")
      + (if value.Absent? && subquery.Some? then subquery.value + " " else "")
  }

  /** The values of a sequence of pairs, in order. */
  function PairValues(pairs: seq<(string, Value)>): seq<Value>
    decreases |pairs|
  {
    if |pairs| == 0 then [] else PairValues(pairs[..|pairs| - 1]) + [pairs[|pairs| - 1].1]
  }

  /** The texts of the keys of a bare `{k: v}` array element. */
  function KeyTexts(c: Casing, pairs: seq<(string, Value)>): seq<string>
    decreases |pairs|
  {
    if |pairs| == 0 then []
    else KeyTexts(c, pairs[..|pairs| - 1]) + [KeyColumn(c, pairs[|pairs| - 1].0) + " = ?"]
  }

  /** The texts of the keys of a plain where object: every key is snake_cased. */
  function ObjectTexts(c: Casing, pairs: seq<(string, Value)>): seq<string>
    decreases |pairs|
  {
    if |pairs| == 0 then []
    else ObjectTexts(c, pairs[..|pairs| - 1]) + [c.snake(pairs[|pairs| - 1].0) + " = ?"]
  }

  function ConditionTexts(c: Casing, cond: Condition): seq<string> {
    match cond
    case FieldCondition(f, op, v, sq) => [FieldText(c, f, op, v, sq)]
    case Equalities(pairs) => KeyTexts(c, pairs)
  }

  /** What one condition pushes onto the value buffer. */
  function ConditionValues(cond: Condition): seq<Value> {
    match cond
    case FieldCondition(_, _, v, _) => if v.Scalar? then [v.v] else []
    case Equalities(pairs) => PairValues(pairs)
  }

  function ListedTexts(c: Casing, conds: seq<Condition>): seq<string>
    decreases |conds|
  {
    if |conds| == 0 then []
    else ListedTexts(c, conds[..|conds| - 1]) + ConditionTexts(c, conds[|conds| - 1])
  }

  function ListedValues(conds: seq<Condition>): seq<Value>
    decreases |conds|
  {
    if |conds| == 0 then []
    else ListedValues(conds[..|conds| - 1]) + ConditionValues(conds[|conds| - 1])
  }

  function WhereTexts(c: Casing, w: Where): seq<string> {
    match w
    case Listed(conds) => ListedTexts(c, conds)
    case Keyed(pairs) => ObjectTexts(c, pairs)
  }

  /** What `_buildWhere` pushes onto the value buffer. */
  function WhereValues(w: Where): seq<Value> {
    match w
    case Listed(conds) => ListedValues(conds)
    case Keyed(pairs) => PairValues(pairs)
  }

  /** The connective: the given one, `AND` when undefined. */
  function Connective(andOr: Option<string>): string {
    andOr.GetOr("AND")
  }

  /** The text `_buildWhere` returns. */
  function WhereSql(c: Casing, w: Where, andOr: Option<string>): string {
    "(" + Join(WhereTexts(c, w), " " + Connective(andOr) + " ") + ") "
  }

  // ---------------------------------------------------------------- SELECT

  /** The `fields` argument: an array of names, the string `'*'`, or anything else (nothing projected). */
  datatype Projection = Columns(fields: seq<string>) | AllColumns | NoColumns

  /** The projected expression and its alias for one entry of `fields`. */
  function FieldAlias(c: Casing, field: string): (string, string) {
    var alias := if IndexOf(field, '.') >= 0 then Last(Split(field, '.')) else c.camel(field);
    if IndexOf(field, '|') >= 0 then
      var parts := Split(field, '|');
      (parts[0], parts[1])
    else (field, alias)
  }

  function ProjectionItems(c: Casing, fields: seq<string>): seq<string>
    decreases |fields|
  {
    if |fields| == 0 then []
    else
      var (column, alias) := FieldAlias(c, fields[|fields| - 1]);
      ProjectionItems(c, fields[..|fields| - 1]) + [column + " as \"" + alias + "\""]
  }

  function ProjectionSql(c: Casing, p: Projection): string {
    match p
    case Columns(fields) => Join(ProjectionItems(c, fields), ", ") + " "
    case AllColumns => "* "
    case NoColumns => ""
  }

  /** A table written `name|alias` or `name` (then aliased to itself). */
  function TableAlias(table: string): (string, string) {
    if IndexOf(table, '|') >= 0 then
      var parts := Split(table, '|');
      (parts[0], parts[1])
    else (table, table)
  }

  function FromSql(table: string): string {
    var (name, alias) := TableAlias(table);
    "FROM " + name + " as " + alias + " "
  }

  /** The `on` of a join descriptor: one condition string or an array of them. */
  datatype JoinOn = OnText(cond: string) | OnList(conds: seq<string>)

  /** The conditions of an `on`: a string counts as a one-element array. */
  function OnConditions(on: JoinOn): seq<string> {
    match on
    case OnText(s) => [s]
    case OnList(conds) => conds
  }

  /** A join descriptor `{table, on}`. */
  datatype JoinValue = JoinValue(table: string, on: JoinOn)

  function JoinLine(joinType: string, j: JoinValue): string {
    var (name, alias) := TableAlias(j.table);
    joinType + " JOIN " + name + " AS " + alias + " ON " + Join(OnConditions(j.on), " AND ")
  }

  function JoinLines(joinType: string, joins: seq<JoinValue>): seq<string>
    decreases |joins|
  {
    if |joins| == 0 then []
    else JoinLines(joinType, joins[..|joins| - 1]) + [JoinLine(joinType, joins[|joins| - 1])]
  }

  /** The text `_buildJoins` returns. */
  function JoinsSql(joinType: string, joins: seq<JoinValue>): string {
    Join(JoinLines(joinType, joins), "\n")
  }

  /** The `joins` argument of `_buildSelect`. */
  datatype JoinsValue =
    | NoJoins
    | JoinArray(joins: seq<JoinValue>)                         // all INNER
    | JoinsByType(groups: seq<(string, seq<JoinValue>)>)       // {LEFT: [...], ...}

  function TypedJoinsSql(groups: seq<(string, seq<JoinValue>)>): string
    decreases |groups|
  {
    if |groups| == 0 then ""
    else
      var (joinType, joins) := groups[|groups| - 1];
      TypedJoinsSql(groups[..|groups| - 1]) + JoinsSql(joinType, joins) + " "
  }

  /**
   * The join part of a SELECT. For an array, the `for...in` over its indices
   * that follows the INNER joins calls `_buildJoins` on single descriptors,
   * which yields `''` each time: one blank per join.
   */
  function JoinsClause(j: JoinsValue): string {
    match j
    case NoJoins => ""
    case JoinArray(joins) => if |joins| == 0 then "" else JoinsSql("INNER", joins) + " " + Spaces(|joins|)
    case JoinsByType(groups) => TypedJoinsSql(groups)
  }

  /** The `where` argument of `_buildSelect`: an array of conditions, or an object keyed by connective. */
  datatype Filter = Flat(conds: seq<Condition>) | ByConnective(groups: seq<(string, Where)>)

  function GroupsSql(c: Casing, groups: seq<(string, Where)>): string
    decreases |groups|
  {
    if |groups| == 0 then ""
    else
      var (andOr, w) := groups[|groups| - 1];
      GroupsSql(c, groups[..|groups| - 1]) + WhereSql(c, w, Some(andOr))
  }

  function GroupsValues(groups: seq<(string, Where)>): seq<Value>
    decreases |groups|
  {
    if |groups| == 0 then [] else GroupsValues(groups[..|groups| - 1]) + WhereValues(groups[|groups| - 1].1)
  }

  function FilterKeys(f: Filter): nat {
    match f
    case Flat(conds) => |conds|
    case ByConnective(groups) => |groups|
  }

  function FilterClause(c: Casing, f: Filter): string {
    if FilterKeys(f) == 0 then ""
    else
      "WHERE " + match f
        case Flat(conds) => WhereSql(c, Listed(conds), Some("AND"))
        case ByConnective(groups) => GroupsSql(c, groups)
  }

  /** What the WHERE part of a SELECT pushes onto the value buffer. */
  function FilterValues(f: Filter): seq<Value> {
    if FilterKeys(f) == 0 then []
    else
      match f
      case Flat(conds) => ListedValues(conds)
      case ByConnective(groups) => GroupsValues(groups)
  }

  function GroupClause(groupBy: seq<string>): string {
    if |groupBy| > 0 then "GROUP BY " + Join(groupBy, ", ") + " " else ""
  }

  /** The `order` argument: an array of columns (ascending) or a `{column: direction}` object. */
  datatype Ordering = Ascending(fields: seq<string>) | Directed(pairs: seq<(string, string)>)

  function AscendingItems(fields: seq<string>): seq<string>
    decreases |fields|
  {
    if |fields| == 0 then [] else AscendingItems(fields[..|fields| - 1]) + [fields[|fields| - 1] + " ASC"]
  }

  function DirectedItems(pairs: seq<(string, string)>): seq<string>
    decreases |pairs|
  {
    if |pairs| == 0 then []
    else DirectedItems(pairs[..|pairs| - 1]) + [pairs[|pairs| - 1].0 + " " + pairs[|pairs| - 1].1]
  }

  function OrderItems(o: Ordering): seq<string> {
    match o
    case Ascending(fields) => AscendingItems(fields)
    case Directed(pairs) => DirectedItems(pairs)
  }

  function OrderKeys(o: Ordering): nat {
    match o
    case Ascending(fields) => |fields|
    case Directed(pairs) => |pairs|
  }

  function OrderClause(o: Ordering): string {
    if OrderKeys(o) > 0 then "ORDER BY " + Join(OrderItems(o), ", ") + " " else ""
  }

  /** `LIMIT` is written only for a truthy limit: defined and not 0. */
  function LimitClause(limit: Option<int>): string {
    if limit.Some? && limit.value != 0 then "LIMIT " + IntToString(limit.value) + " " else ""
  }

  /** `OFFSET` is written whenever the offset is defined, 0 included. */
  function OffsetClause(offset: Option<int>): string {
    if offset.Some? then "OFFSET " + IntToString(offset.value) + " " else ""
  }

  /** The text `_buildSelect` returns. */
  function SelectSql(c: Casing, table: string, fields: Projection, where: Filter, joins: JoinsValue,
                     order: Ordering, limit: Option<int>, groupBy: seq<string>, offset: Option<int>): string
  {
    "SELECT " + ProjectionSql(c, fields) + FromSql(table) + JoinsClause(joins) + FilterClause(c, where)
    + (GroupClause(groupBy) + OrderClause(order) + LimitClause(limit) + OffsetClause(offset))
  }

  // ---------------------------------------------------------------- INSERT / UPDATE / DELETE

  /** The value of a column in `insert`/`update`: a plain value, a `{function, value?}` call, or any other object. */
  datatype Assignment = Plain(v: Value) | Call(name: string, arg: Option<string>) | Compound

  /** `fn(value)`, or `fn()` when the value is undefined. */
  function CallText(name: string, arg: Option<string>): string {
    name + "(" + arg.GetOr("") + ")"
  }

  /** The values `_buildInsertValues` collects: the plain ones, in key order. */
  function BoundValues(entries: seq<(string, Assignment)>): seq<Value>
    decreases |entries|
  {
    if |entries| == 0 then []
    else
      var a := entries[|entries| - 1].1;
      BoundValues(entries[..|entries| - 1]) + (if a.Plain? then [a.v] else [])
  }

  /** The function calls `_buildInsertValues` collects, in key order. */
  function FixedValues(entries: seq<(string, Assignment)>): (r: seq<string>)
    ensures |r| <= |entries|
    decreases |entries|
  {
    if |entries| == 0 then []
    else
      var a := entries[|entries| - 1].1;
      FixedValues(entries[..|entries| - 1]) + (if a.Call? then [CallText(a.name, a.arg)] else [])
  }

  /** `_.snakeCase(key).toUpperCase()`. */
  function UpperSnake(c: Casing, key: string): string {
    Upper(c.snake(key))
  }

  function InsertColumns(c: Casing, entries: seq<(string, Assignment)>): seq<string>
    decreases |entries|
  {
    if |entries| == 0 then []
    else InsertColumns(c, entries[..|entries| - 1]) + [UpperSnake(c, entries[|entries| - 1].0)]
  }

  /** `_.trimEnd(_.repeat('?, ', n), ', ')`. */
  function Placeholders(n: nat): string {
    Join(Repeat("?", n), ", ")
  }

  /** The text `_buildInsert` returns for a single value object. */
  function InsertSql(c: Casing, table: string, entries: seq<(string, Assignment)>): string {
    if |entries| == 0 then ""
    else
      var bound, fixed := BoundValues(entries), FixedValues(entries);
      "INSERT INTO " + table + " (" + Join(InsertColumns(c, entries), ", ") + ") VALUES ("
      + (if |bound| > 0 then Placeholders(|entries| - |fixed|) else "")
      + (if |fixed| > 0 then (if |bound| > 0 then ", " else "") + Join(fixed, ", ") else "")
      + ")"
  }

  /** The value buffer after `_buildInsert`: it is replaced, not appended to. */
  function InsertValues(entries: seq<(string, Assignment)>): seq<Value> {
    if |entries| == 0 then [] else BoundValues(entries)
  }

  // The INSERT `_buildInsert` evidently intends: the as-written one above puts
  // every marker before every call, whatever the column order, and gives an
  // object without `function` a column and, when anything is bound, a marker.

  /** The entries that give their column a value: all but the objects without `function`, in key order. */
  function Kept(entries: seq<(string, Assignment)>): seq<(string, Assignment)>
    decreases |entries|
  {
    if |entries| == 0 then []
    else
      var e := entries[|entries| - 1];
      Kept(entries[..|entries| - 1]) + (if e.1.Compound? then [] else [e])
  }

  /** The VALUES item of a kept entry: a marker for a plain value, the call for a `{function}` object. */
  function ItemText(a: Assignment): string {
    match a
    case Plain(_) => "?"
    case Call(name, arg) => CallText(name, arg)
    case Compound => ""
  }

  function AlignedColumns(c: Casing, entries: seq<(string, Assignment)>): seq<string>
    decreases |entries|
  {
    if |entries| == 0 then []
    else
      var e := entries[|entries| - 1];
      AlignedColumns(c, entries[..|entries| - 1]) + (if e.1.Compound? then [] else [UpperSnake(c, e.0)])
  }

  function AlignedItems(entries: seq<(string, Assignment)>): seq<string>
    decreases |entries|
  {
    if |entries| == 0 then []
    else
      var e := entries[|entries| - 1];
      AlignedItems(entries[..|entries| - 1]) + (if e.1.Compound? then [] else [ItemText(e.1)])
  }

  /** The corrected INSERT text: the item of each column in the column's place. */
  function InsertSqlAligned(c: Casing, table: string, entries: seq<(string, Assignment)>): string {
    if |entries| == 0 then ""
    else
      "INSERT INTO " + table + " (" + Join(AlignedColumns(c, entries), ", ") + ") VALUES ("
      + Join(AlignedItems(entries), ", ") + ")"
  }

  function SetItems(c: Casing, entries: seq<(string, Assignment)>): seq<string>
    decreases |entries|
  {
    if |entries| == 0 then []
    else
      var (key, a) := entries[|entries| - 1];
      SetItems(c, entries[..|entries| - 1])
      + match a
        case Plain(_) => [UpperSnake(c, key) + " = ?"]
        case Call(name, arg) => [UpperSnake(c, key) + " = " + CallText(name, arg)]
        case Compound => []
  }

  /** The text `_buildUpdate` returns; `where` is `None` when falsy. */
  function UpdateSql(c: Casing, table: string, entries: seq<(string, Assignment)>, where: Option<Where>): string {
    if |entries| == 0 then ""
    else
      "UPDATE " + table + " SET " + Join(SetItems(c, entries), ", ") + " "
      + (if where.Some? then "WHERE " + WhereSql(c, where.value, None) else "")
  }

  /** What `_buildUpdate` pushes: the plain values, then the where values. */
  function UpdateValues(entries: seq<(string, Assignment)>, where: Option<Where>): seq<Value> {
    if |entries| == 0 then []
    else BoundValues(entries) + (if where.Some? then WhereValues(where.value) else [])
  }

  /** The text `_buildDelete` returns. */
  function DeleteSql(c: Casing, table: string, where: Where): string {
    if KeyCount(where) == 0 then "" else "DELETE FROM " + table + " WHERE " + WhereSql(c, where, None)
  }

  function DeleteValues(where: Where): seq<Value> {
    if KeyCount(where) == 0 then [] else WhereValues(where)
  }

  // ---------------------------------------------------------------- execute

  /** A result row: its columns in order. */
  type Row = seq<(string, Value)>

  /** The statement kind `execute` switches on: the first blank-separated token, upper-cased. */
  function Operation(sql: string): string {
    Upper(Split(sql, ' ')[0])
  }

  /** The table `getLastId` is asked about after an INSERT: the one set by `insert`, else the statement's third word, upper-cased. */
  function InsertTable(table: string, sql: string): string {
    if table != "" then table
    else
      var words := Split(sql, ' ');
      if |words| < 3 then table else Upper(words[2])
  }

  /** `row[key] = v` on an object: an existing key keeps its place and takes the new value, a new key goes last. */
  function Assign(row: Row, key: string, v: Value): (r: Row)
    decreases |row|
  {
    if |row| == 0 then [(key, v)]
    else if row[0].0 == key then [(key, v)] + row[1..]
    else [row[0]] + Assign(row[1..], key, v)
  }

  /** A result row re-keyed with `camelCase`, built column by column. */
  function Recased(camel: string -> string, row: Row): Row
    decreases |row|
  {
    if |row| == 0 then []
    else
      var (field, v) := row[|row| - 1];
      Assign(Recased(camel, row[..|row| - 1]), camel(field), v)
  }

  function RecasedRows(camel: string -> string, rows: seq<Row>): seq<Row>
    decreases |rows|
  {
    if |rows| == 0 then [] else RecasedRows(camel, rows[..|rows| - 1]) + [Recased(camel, rows[|rows| - 1])]
  }
}
