/**
 * The `NDO` class of lib/ndo.js: its statement builders, which append to the
 * instance's value buffer while they assemble the SQL text, the public
 * `find`/`findOne`/`insert`/`update`/`delete` wrappers that reset the buffer
 * first, and the post-processing `execute` applies to the driver's reply.
 * Each method is proved to produce the text and the buffer that module
 * NdoSpec defines.
 */
module Ndo {
  import opened Wrappers
  import opened Text
  import opened NdoSpec

  datatype NdoError = InvalidTable

  /** What the driver's callback receives. */
  datatype Reply = DbError(message: string) | DbRows(rows: seq<Row>)

  /** How `execute` settles its promise. */
  datatype Outcome =
    | Rejected(message: string)     // the driver reported an error
    | Rows(rows: seq<Row>)          // SELECT: re-keyed rows
    | AwaitingLastId                // INSERT: handed over to getLastId
    | Thrown                        // INSERT with no table and fewer than three words: `undefined.toUpperCase()`
    | Resolved(raw: seq<Row>)       // anything else: the driver's reply as is

  /** The SELECT post-processing of `execute`: every row re-keyed with camelCase, values kept. */
  method RecaseRows(camel: string -> string, rs: seq<Row>) returns (rows: seq<Row>)
    ensures rows == RecasedRows(camel, rs)
  {
    rows := [];
    for i := 0 to |rs|
      invariant rows == RecasedRows(camel, rs[..i])
    {
      var row: Row := [];
      for j := 0 to |rs[i]|
        invariant row == Recased(camel, rs[i][..j])
      {
        var (field, v) := rs[i][j];
        row := Assign(row, camel(field), v);
        assert rs[i][..j + 1][..j] == rs[i][..j];
      }
      assert rs[i][..|rs[i]|] == rs[i];
      assert rs[..i + 1][..i] == rs[..i];
      rows := rows + [row];
    }
    assert rs[..|rs|] == rs;
  }

  class NDO {
    /** lodash's camelCase and snakeCase. */
    const casing: Casing
    /** The positional value buffer. */
    var values: seq<Value>
    var allFields: bool
    var table: string

    constructor(casing: Casing)
      ensures this.casing == casing && values == [] && !allFields && table == ""
    {
      this.casing := casing;
      values := [];
      allFields := false;
      table := "";
    }

    /** `_buildWhere`: the parenthesised condition text; each bound value is appended to the buffer. */
    method BuildWhere(w: Where, andOr: Option<string>) returns (sql: string)
      modifies this`values
      ensures sql == WhereSql(casing, w, andOr)
      ensures values == old(values) + WhereValues(w)
    {
      var texts: seq<string>;
      match w {
        case Listed(conds) => texts := BuildListed(conds);
        case Keyed(pairs) => texts := BuildKeyed(pairs);
      }
      var connective := if andOr.None? then "AND" else andOr.value;
      sql := "(" + Join(texts, " " + connective + " ") + ") ";
    }

    /** The loop of `_buildWhere` over a where array. */
    method BuildListed(conds: seq<Condition>) returns (texts: seq<string>)
      modifies this`values
      ensures texts == ListedTexts(casing, conds)
      ensures values == old(values) + ListedValues(conds)
    {
      texts := [];
      for i := 0 to |conds|
        invariant texts == ListedTexts(casing, conds[..i])
        invariant values == old(values) + ListedValues(conds[..i])
      {
        var more := BuildCondition(conds[i]);
        texts := texts + more;
        assert conds[..i + 1][..i] == conds[..i];
        AppendAssoc(old(values), ListedValues(conds[..i]), ConditionValues(conds[i]));
      }
      assert conds[..|conds|] == conds;
    }

    /** The loop of `_buildWhere` over the keys of a plain where object. */
    method BuildKeyed(pairs: seq<(string, Value)>) returns (texts: seq<string>)
      modifies this`values
      ensures texts == ObjectTexts(casing, pairs)
      ensures values == old(values) + PairValues(pairs)
    {
      texts := [];
      for j := 0 to |pairs|
        invariant texts == ObjectTexts(casing, pairs[..j])
        invariant values == old(values) + PairValues(pairs[..j])
      {
        texts := texts + [casing.snake(pairs[j].0) + " = ?"];
        values := values + [pairs[j].1];
        assert pairs[..j + 1][..j] == pairs[..j];
        AppendAssoc(old(values), PairValues(pairs[..j]), [pairs[j].1]);
      }
      assert pairs[..|pairs|] == pairs;
    }

    /** One element of a where array (the body of the loop in `_buildWhere`): its texts, its values pushed. */
    method BuildCondition(cond: Condition) returns (texts: seq<string>)
      modifies this`values
      ensures texts == ConditionTexts(casing, cond)
      ensures values == old(values) + ConditionValues(cond)
    {
      match cond {
        case FieldCondition(field, operator, value, subquery) =>
          var column := if IndexOf(field, '.') > 0 then field else casing.snake(field);
          if value.InList? {
            texts := [column + " IN (" + Join(value.items, ",") + ") "];
          } else {
            var compare := if operator.Some? then " " + operator.value + " " else "= ? ";
            var tail := "";
            if value.Scalar? {
              values := values + [value.v];
            } else if subquery.Some? {
              tail := subquery.value + " ";
            }
            texts := [column + compare + tail];
          }
        case Equalities(pairs) =>
          texts := BuildEqualities(pairs);
      }
    }

    /** A bare `{k: v, ...}` element of a where array: one `column = ?` per key, its value pushed. */
    method BuildEqualities(pairs: seq<(string, Value)>) returns (texts: seq<string>)
      modifies this`values
      ensures texts == KeyTexts(casing, pairs)
      ensures values == old(values) + PairValues(pairs)
    {
      texts := [];
      for j := 0 to |pairs|
        invariant texts == KeyTexts(casing, pairs[..j])
        invariant values == old(values) + PairValues(pairs[..j])
      {
        var (key, v) := pairs[j];
        if IndexOf(key, '.') < 0 {
          texts := texts + [casing.snake(key) + " = ?"];
        } else {
          texts := texts + [key + " = ?"];
        }
        values := values + [v];
        assert pairs[..j + 1][..j] == pairs[..j];
        AppendAssoc(old(values), PairValues(pairs[..j]), [v]);
      }
      assert pairs[..|pairs|] == pairs;
    }

    /** `_buildJoins`: one `TYPE JOIN t AS a ON c1 AND c2` line per descriptor, a string `on` read as a one-element array. */
    method BuildJoins(joins: seq<JoinValue>, joinType: string) returns (sql: string)
      ensures sql == JoinsSql(joinType, joins)
    {
      var lines: seq<string> := [];
      for i := 0 to |joins|
        invariant lines == JoinLines(joinType, joins[..i])
      {
        var on := joins[i].on;
        if on.OnText? {
          on := OnList([on.cond]);
        }
        var name, alias := joins[i].table, joins[i].table;
        if IndexOf(joins[i].table, '|') >= 0 {
          var parts := Split(joins[i].table, '|');
          name, alias := parts[0], parts[1];
        }
        lines := lines + [joinType + " JOIN " + name + " AS " + alias + " ON " + Join(on.conds, " AND ")];
        assert joins[..i + 1][..i] == joins[..i];
      }
      assert joins[..|joins|] == joins;
      sql := Join(lines, "\n");
    }

    /** `_buildSelect`. */
    method BuildSelect(table: string, fields: Projection, where: Filter, joins: JoinsValue, order: Ordering,
                       limit: Option<int>, groupBy: seq<string>, offset: Option<int>) returns (sql: string)
      modifies this`values, this`allFields
      ensures sql == SelectSql(casing, table, fields, where, joins, order, limit, groupBy, offset)
      ensures values == old(values) + FilterValues(where)
      ensures allFields == (old(allFields) || fields.AllColumns?)
    {
      var projection := BuildProjection(fields);
      var from := BuildFrom(table);
      var joinText := BuildJoinsClause(joins);
      var filter := BuildFilter(where);
      var trailer := BuildTrailer(order, limit, groupBy, offset);
      sql := "SELECT " + projection + from + joinText + filter + trailer;
    }

    /** The FROM part of `_buildSelect`. */
    method BuildFrom(table: string) returns (sql: string)
      ensures sql == FromSql(table)
    {
      var name, alias := table, table;
      if IndexOf(table, '|') >= 0 {
        var parts := Split(table, '|');
        name, alias := parts[0], parts[1];
      }
      sql := "FROM " + name + " as " + alias + " ";
    }

    /** The GROUP BY, ORDER BY, LIMIT and OFFSET parts of `_buildSelect`. */
    method BuildTrailer(order: Ordering, limit: Option<int>, groupBy: seq<string>, offset: Option<int>)
      returns (sql: string)
      ensures sql == GroupClause(groupBy) + OrderClause(order) + LimitClause(limit) + OffsetClause(offset)
    {
      var grouping := if |groupBy| > 0 then "GROUP BY " + Join(groupBy, ", ") + " " else "";
      var ordering := BuildOrder(order);
      var limiting := if limit.Some? && limit.value != 0 then "LIMIT " + IntToString(limit.value) + " " else "";
      var skipping := if offset.Some? then "OFFSET " + IntToString(offset.value) + " " else "";
      sql := grouping + ordering + limiting + skipping;
    }

    /** The projection part of `_buildSelect`; `'*'` also sets `allFields`. */
    method BuildProjection(fields: Projection) returns (sql: string)
      modifies this`allFields
      ensures sql == ProjectionSql(casing, fields)
      ensures allFields == (old(allFields) || fields.AllColumns?)
    {
      sql := "";
      match fields {
        case Columns(fs) =>
          var items := BuildProjectionItems(fs);
          sql := Join(items, ", ") + " ";
        case AllColumns =>
          allFields := true;
          sql := "* ";
        case NoColumns =>
      }
    }

    /** One `column as "alias"` item per entry of a `fields` array. */
    method BuildProjectionItems(fs: seq<string>) returns (items: seq<string>)
      ensures items == ProjectionItems(casing, fs)
    {
      items := [];
      for i := 0 to |fs|
        invariant items == ProjectionItems(casing, fs[..i])
      {
        var field := fs[i];
        var alias := casing.camel(field);
        if IndexOf(field, '.') >= 0 {
          alias := Last(Split(field, '.'));
        }
        if IndexOf(field, '|') >= 0 {
          var parts := Split(field, '|');
          field, alias := parts[0], parts[1];
        }
        items := items + [field + " as \"" + alias + "\""];
        assert fs[..i + 1][..i] == fs[..i];
      }
      assert fs[..|fs|] == fs;
    }

    /** The WHERE part of `_buildSelect`: an array is joined with AND, an object once per connective key. */
    method BuildFilter(where: Filter) returns (sql: string)
      modifies this`values
      ensures sql == FilterClause(casing, where)
      ensures values == old(values) + FilterValues(where)
    {
      sql := "";
      if FilterKeys(where) > 0 {
        match where {
          case Flat(conds) =>
            var text := BuildWhere(Listed(conds), Some("AND"));
            sql := "WHERE " + text;
          case ByConnective(groups) =>
            var text := BuildGroups(groups);
            sql := "WHERE " + text;
        }
      }
    }

    /** `_buildWhere` of each value of a where object, with its key as the connective. */
    method BuildGroups(groups: seq<(string, Where)>) returns (sql: string)
      modifies this`values
      ensures sql == GroupsSql(casing, groups)
      ensures values == old(values) + GroupsValues(groups)
    {
      sql := "";
      for i := 0 to |groups|
        invariant sql == GroupsSql(casing, groups[..i])
        invariant values == old(values) + GroupsValues(groups[..i])
      {
        var text := BuildWhere(groups[i].1, Some(groups[i].0));
        assert groups[..i + 1][..i] == groups[..i];
        AppendAssoc(old(values), GroupsValues(groups[..i]), WhereValues(groups[i].1));
        sql := sql + text;
      }
      assert groups[..|groups|] == groups;
    }

    /** The ORDER BY part of `_buildSelect`. */
    method BuildOrder(order: Ordering) returns (sql: string)
      ensures sql == OrderClause(order)
    {
      sql := "";
      if OrderKeys(order) > 0 {
        var items: seq<string> := [];
        match order {
          case Ascending(fs) =>
            for i := 0 to |fs|
              invariant items == AscendingItems(fs[..i])
            {
              items := items + [fs[i] + " ASC"];
              assert fs[..i + 1][..i] == fs[..i];
            }
            assert fs[..|fs|] == fs;
          case Directed(pairs) =>
            for i := 0 to |pairs|
              invariant items == DirectedItems(pairs[..i])
            {
              items := items + [pairs[i].0 + " " + pairs[i].1];
              assert pairs[..i + 1][..i] == pairs[..i];
            }
            assert pairs[..|pairs|] == pairs;
        }
        sql := "ORDER BY " + Join(items, ", ") + " ";
      }
    }

    /** The join part of `_buildSelect` (lines 228-236 of lib/ndo.js). */
    method BuildJoinsClause(joins: JoinsValue) returns (sql: string)
      ensures sql == JoinsClause(joins)
    {
      sql := "";
      match joins {
        case NoJoins =>
        case JoinArray(list) =>
          if |list| > 0 {
            var text := BuildJoins(list, "INNER");
            sql := text + " ";
            // `for (joinType in joins)` then visits the array's indices; `_buildJoins`
            // of a single descriptor has no `length` to loop over and returns ''.
            ghost var inner := sql;
            for k := 0 to |list|
              invariant sql == inner + Spaces(k)
            {
              sql := sql + "" + " ";
              assert Spaces(k + 1) == Spaces(k) + " ";
            }
          }
        case JoinsByType(groups) =>
          for i := 0 to |groups|
            invariant sql == TypedJoinsSql(groups[..i])
          {
            var (joinType, list) := groups[i];
            var text := BuildJoins(list, joinType);
            sql := sql + text + " ";
            assert groups[..i + 1][..i] == groups[..i];
          }
          assert groups[..|groups|] == groups;
      }
    }

    /** `_buildInsertValues`: the plain values and the rendered function calls, each in key order. */
    method BuildInsertValues(entries: seq<(string, Assignment)>) returns (bound: seq<Value>, fixed: seq<string>)
      ensures bound == BoundValues(entries) && fixed == FixedValues(entries)
    {
      bound, fixed := [], [];
      for i := 0 to |entries|
        invariant bound == BoundValues(entries[..i]) && fixed == FixedValues(entries[..i])
      {
        match entries[i].1 {
          case Call(name, arg) =>
            fixed := fixed + [name + "(" + (if arg.Some? then arg.value else "") + ")"];
          case Compound =>
          case Plain(v) =>
            bound := bound + [v];
        }
        assert entries[..i + 1][..i] == entries[..i];
      }
      assert entries[..|entries|] == entries;
    }

    /** `_buildInsert` on a single value object; the buffer is replaced by the plain values. */
    method BuildInsert(table: string, entries: seq<(string, Assignment)>) returns (sql: string)
      modifies this`values
      ensures sql == InsertSql(casing, table, entries)
      ensures values == if |entries| == 0 then old(values) else InsertValues(entries)
    {
      sql := "";
      if |entries| > 0 {
        sql := "INSERT INTO " + table + " (";
        var fields: seq<string> := [];
        for i := 0 to |entries|
          invariant |fields| == i
          invariant fields == InsertColumns(casing, entries[..i])
        {
          fields := fields + [Upper(casing.snake(entries[i].0))];
          assert entries[..i + 1][..i] == entries[..i];
        }
        assert entries[..|entries|] == entries;
        var bound, fixed := BuildInsertValues(entries);
        values := bound;
        sql := sql + Join(fields, ", ") + ") VALUES (";
        if |values| > 0 {
          sql := sql + Placeholders(|fields| - |fixed|);
        }
        if |fixed| > 0 {
          if |values| > 0 {
            sql := sql + ", ";
          }
          sql := sql + Join(fixed, ", ");
        }
        sql := sql + ")";
      }
    }

    /** `_buildUpdate`; `where` is `None` when falsy. */
    method BuildUpdate(table: string, entries: seq<(string, Assignment)>, where: Option<Where>) returns (sql: string)
      modifies this`values
      ensures sql == UpdateSql(casing, table, entries, where)
      ensures values == old(values) + UpdateValues(entries, where)
    {
      sql := "";
      if |entries| > 0 {
        var fields := BuildSetItems(entries);
        sql := "UPDATE " + table + " SET " + Join(fields, ", ") + " ";
        if where.Some? {
          var text := BuildWhere(where.value, None);
          sql := sql + "WHERE " + text;
          AppendAssoc(old(values), BoundValues(entries), WhereValues(where.value));
        } else {
          assert BoundValues(entries) + [] == BoundValues(entries);
        }
      } else {
        assert old(values) + [] == old(values);
      }
    }

    /** The SET items of `_buildUpdate`, plain values pushed in key order; other objects are skipped. */
    method BuildSetItems(entries: seq<(string, Assignment)>) returns (fields: seq<string>)
      modifies this`values
      ensures fields == SetItems(casing, entries)
      ensures values == old(values) + BoundValues(entries)
    {
      fields := [];
      for i := 0 to |entries|
        invariant fields == SetItems(casing, entries[..i])
        invariant values == old(values) + BoundValues(entries[..i])
      {
        var (key, a) := entries[i];
        assert entries[..i + 1][..i] == entries[..i];
        match a {
          case Call(name, arg) =>
            var call := name + "(" + arg.GetOr("") + ")";
            fields := fields + [Upper(casing.snake(key)) + " = " + call];
          case Compound =>
            assert SetItems(casing, entries[..i + 1]) == SetItems(casing, entries[..i]) + [];
          case Plain(v) =>
            fields := fields + [Upper(casing.snake(key)) + " = ?"];
            values := values + [v];
            AppendAssoc(old(values), BoundValues(entries[..i]), [v]);
        }
      }
      assert entries[..|entries|] == entries;
    }

    /** `_buildDelete`: nothing at all unless the where argument has a key. */
    method BuildDelete(table: string, where: Where) returns (sql: string)
      modifies this`values
      ensures sql == DeleteSql(casing, table, where)
      ensures values == old(values) + DeleteValues(where)
    {
      sql := "";
      if KeyCount(where) > 0 {
        var text := BuildWhere(where, None);
        sql := "DELETE FROM " + table + " WHERE " + text;
      }
    }

    /** `find`: resets the buffer and `allFields`, then builds the SELECT handed to `execute`. */
    method Find(table: string, fields: Projection, where: Filter, joins: JoinsValue, order: Ordering,
                limit: Option<int>, groupBy: seq<string>, offset: Option<int>) returns (sql: string)
      modifies this`values, this`allFields
      ensures sql == SelectSql(casing, table, fields, where, joins, order, limit, groupBy, offset)
      ensures values == FilterValues(where)
      ensures allFields == fields.AllColumns?
    {
      values := [];
      allFields := false;
      sql := BuildSelect(table, fields, where, joins, order, limit, groupBy, offset);
      assert [] + FilterValues(where) == FilterValues(where);
    }

    /** `findOne`: `find` with limit 1 and no offset. */
    method FindOne(table: string, fields: Projection, where: Filter, joins: JoinsValue, order: Ordering,
                   groupBy: seq<string>) returns (sql: string)
      modifies this`values, this`allFields
      ensures sql == SelectSql(casing, table, fields, where, joins, order, Some(1), groupBy, None)
      ensures values == FilterValues(where)
      ensures allFields == fields.AllColumns?
    {
      values := [];
      allFields := false;
      sql := Find(table, fields, where, joins, order, Some(1), groupBy, None);
    }

    /** What `findOne` resolves with: the last row (`pop()`), or an empty array when there is none. */
    static function PickOne(rows: seq<Row>): (r: Option<Row>)
      ensures r.None? <==> |rows| == 0
      ensures r.Some? ==> r.value == rows[|rows| - 1] && r.value in rows
    {
      if |rows| > 0 then Some(rows[|rows| - 1]) else None
    }

    /** `insert`: resets the buffer, rejects an empty table name, then builds the INSERT handed to `execute`. */
    method Insert(table: string, entries: seq<(string, Assignment)>) returns (r: Result<string, NdoError>)
      modifies this`values, this`table
      ensures table == "" ==> r == Failure(InvalidTable) && values == [] && this.table == old(this.table)
      ensures table != "" ==> r == Success(InsertSql(casing, table, entries)) && values == InsertValues(entries) && this.table == table
    {
      values := [];
      if table == "" {
        return Failure(InvalidTable);
      }
      this.table := table;
      var sql := BuildInsert(table, entries);
      r := Success(sql);
    }

    /** `update`: resets the buffer, then builds the UPDATE handed to `execute`. */
    method Update(table: string, entries: seq<(string, Assignment)>, where: Option<Where>) returns (sql: string)
      modifies this`values
      ensures sql == UpdateSql(casing, table, entries, where)
      ensures values == UpdateValues(entries, where)
    {
      values := [];
      sql := BuildUpdate(table, entries, where);
    }

    /** `delete`: resets the buffer, then builds the DELETE handed to `execute`. */
    method Delete(table: string, where: Where) returns (sql: string)
      modifies this`values
      ensures sql == DeleteSql(casing, table, where)
      ensures values == DeleteValues(where)
    {
      values := [];
      sql := BuildDelete(table, where);
    }

    /**
     * `execute` once the driver has answered: `given` are the values passed
     * explicitly, `sent` what reaches the driver. A SELECT yields re-keyed rows
     * and clears the buffer; an INSERT is handed to `getLastId` for the table,
     * which is read from the statement's third word when none is set; any other
     * statement yields the reply as is and clears the buffer; an error keeps it.
     */
    method Execute(sql: string, given: Option<seq<Value>>, reply: Reply) returns (sent: seq<Value>, outcome: Outcome)
      modifies this`values, this`table
      ensures sent == given.GetOr(old(values))
      ensures reply.DbError? ==> outcome == Rejected(reply.message) && values == sent && table == old(table)
      ensures reply.DbRows? && Operation(sql) == "SELECT" ==>
                outcome == Rows(RecasedRows(casing.camel, reply.rows)) && values == [] && table == old(table)
      ensures reply.DbRows? && Operation(sql) == "INSERT" ==> values == sent && table == InsertTable(old(table), sql)
      ensures reply.DbRows? && Operation(sql) == "INSERT" ==>
                outcome == if old(table) == "" && |Split(sql, ' ')| < 3 then Thrown else AwaitingLastId
      ensures reply.DbRows? && Operation(sql) != "SELECT" && Operation(sql) != "INSERT" ==>
                outcome == Resolved(reply.rows) && values == [] && table == old(table)
    {
      if given.Some? {
        values := given.value;
      }
      sent := values;
      var op := Upper(Split(sql, ' ')[0]);
      match reply {
        case DbError(message) =>
          outcome := Rejected(message);
        case DbRows(rs) =>
          if op == "SELECT" {
            var rows := RecaseRows(casing.camel, rs);
            values := [];
            outcome := Rows(rows);
          } else if op == "INSERT" {
            outcome := AwaitingLastId;
            if table == "" {
              var words := Split(sql, ' ');
              if |words| < 3 {
                outcome := Thrown;
              } else {
                table := Upper(words[2]);
              }
            }
          } else {
            values := [];
            outcome := Resolved(rs);
          }
      }
    }
  }
}
