/**
 * What the statements built by module NdoSpec mean: every `?` marker has a
 * value in the buffer (given text that holds no `?` of its own), the kind
 * of statement `execute` sees, the aliasing rules of `find`, the guards of
 * the builders, and how `execute` re-keys the rows of a SELECT.
 */
module NdoLemmas {
  import opened Wrappers
  import opened Text
  import opened NdoSpec

  /** The number of `?` markers in a text. */
  function Marks(s: string): nat {
    Occurrences(s, '?')
  }

  lemma MarksAppend(a: string, b: string)
    ensures Marks(a + b) == Marks(a) + Marks(b)
  {
    OccurrencesAppend(a, b, '?');
  }

  lemma NoMarks(s: string)
    requires '?' !in s
    ensures Marks(s) == 0
  {
    OccurrencesAbsent(s, '?');
  }

  /** The fixed comparisons write one marker each. */
  lemma OneMark()
    ensures Marks(" = ?") == 1 && Marks("= ? ") == 1
  {
    OccurrencesSingle('?');
    assert " = ?" == " = " + "?" && "= ? " == "= " + "?" + " ";
    NoMarks(" = ");
    NoMarks("= ");
    NoMarks(" ");
    MarksAppend(" = ", "?");
    MarksAppend("= ", "?");
    MarksAppend("= " + "?", " ");
  }

  /** The fixed pieces of the statements hold no `?`. */
  lemma Keywords()
    ensures '?' !in "WHERE " && '?' !in "DELETE FROM " && '?' !in " WHERE "
    ensures '?' !in "UPDATE " && '?' !in " SET " && '?' !in " "
    ensures '?' !in "INSERT INTO " && '?' !in " (" && '?' !in ") VALUES (" && '?' !in ")"
  {
  }

  /** The markers of a sequence of texts appended with one more. */
  lemma MarksStep(texts: seq<string>, t: string)
    ensures Marks(Concat(texts + [t])) == Marks(Concat(texts)) + Marks(t)
  {
    ConcatAppend(texts, [t]);
    assert Concat([t]) == t + "";
    assert t + "" == t;
    MarksAppend(Concat(texts), t);
  }

  // ---------------------------------------------------------------- WHERE

  /** The field, subquery, list items and keys of a condition hold no `?`; an operator may. */
  predicate ConditionFree(cond: Condition) {
    match cond
    case FieldCondition(field, operator, value, subquery) =>
      && '?' !in field
      && (subquery.Some? ==> '?' !in subquery.value)
      && (value.InList? ==> forall i :: 0 <= i < |value.items| ==> '?' !in value.items[i])
    case Equalities(pairs) => forall i :: 0 <= i < |pairs| ==> '?' !in pairs[i].0
  }

  /**
   * The markers a field condition writes: none for an IN list, those of its
   * operator when it has one (the operator is written verbatim), else the one
   * of `= ?`.
   */
  function MarksWritten(cond: Condition): nat
    requires cond.FieldCondition?
  {
    if cond.value.InList? then 0
    else if cond.operator.Some? then Marks(cond.operator.value)
    else 1
  }

  /**
   * A field condition pushes a value exactly when it has a scalar value; it
   * is balanced when it writes as many markers as that.
   */
  predicate Balanced(cond: Condition) {
    cond.FieldCondition? ==> MarksWritten(cond) == if cond.value.Scalar? then 1 else 0
  }

  lemma {:induction false} ObjectTextsMarks(c: Casing, pairs: seq<(string, Value)>)
    requires MarkFree(c)
    ensures Marks(Concat(ObjectTexts(c, pairs))) == |pairs|
    decreases |pairs|
  {
    if |pairs| > 0 {
      var n := |pairs| - 1;
      ObjectTextsMarks(c, pairs[..n]);
      var column := c.snake(pairs[n].0);
      NoMarks(column);
      MarksStep(ObjectTexts(c, pairs[..n]), column + " = ?");
      MarksAppend(column, " = ?");
      OneMark();
    }
  }

  lemma {:induction false} KeyTextsMarks(c: Casing, pairs: seq<(string, Value)>)
    requires MarkFree(c)
    requires forall i :: 0 <= i < |pairs| ==> '?' !in pairs[i].0
    ensures Marks(Concat(KeyTexts(c, pairs))) == |pairs|
    decreases |pairs|
  {
    if |pairs| > 0 {
      var n := |pairs| - 1;
      KeyTextsMarks(c, pairs[..n]);
      var column := KeyColumn(c, pairs[n].0);
      assert '?' !in column;
      NoMarks(column);
      MarksStep(KeyTexts(c, pairs[..n]), column + " = ?");
      MarksAppend(column, " = ?");
      OneMark();
    }
  }

  lemma ColumnMarks(c: Casing, field: string)
    requires MarkFree(c) && '?' !in field
    ensures Marks(ConditionColumn(c, field)) == 0
  {
    if IndexOf(field, '.') <= 0 {
      assert '?' !in c.snake(field);
    }
    NoMarks(ConditionColumn(c, field));
  }

  lemma ListMarks(column: string, items: seq<string>)
    requires Marks(column) == 0
    requires forall i :: 0 <= i < |items| ==> '?' !in items[i]
    ensures Marks(column + " IN (" + Join(items, ",") + ") ") == 0
  {
    JoinExcludes(items, ",", '?');
    var list := Join(items, ",");
    NoMarks(list);
    NoMarks(" IN (");
    NoMarks(") ");
    MarksAppend(column, " IN (");
    MarksAppend(column + " IN (", list);
    MarksAppend(column + " IN (" + list, ") ");
  }

  lemma CompareMarks(column: string, operator: Option<string>, tail: string)
    requires Marks(column) == 0 && Marks(tail) == 0
    ensures Marks(column + (match operator case Some(op) => " " + op + " " case None => "= ? ") + tail)
         == if operator.Some? then Marks(operator.value) else 1
  {
    var compare := match operator case Some(op) => " " + op + " " case None => "= ? ";
    if operator.Some? {
      NoMarks(" ");
      MarksAppend(" ", operator.value);
      MarksAppend(" " + operator.value, " ");
    } else {
      OneMark();
    }
    MarksAppend(column, compare);
    MarksAppend(column + compare, tail);
  }

  /** The markers of one field condition are the ones `MarksWritten` counts. */
  lemma FieldTextMarks(c: Casing, field: string, operator: Option<string>, value: FieldValue, subquery: Option<string>)
    requires MarkFree(c) && ConditionFree(FieldCondition(field, operator, value, subquery))
    ensures Marks(FieldText(c, field, operator, value, subquery)) == MarksWritten(FieldCondition(field, operator, value, subquery))
  {
    var column := ConditionColumn(c, field);
    ColumnMarks(c, field);
    if value.InList? {
      ListMarks(column, value.items);
    } else {
      var tail := if value.Absent? && subquery.Some? then subquery.value + " " else "";
      if value.Absent? && subquery.Some? {
        NoMarks(subquery.value);
        NoMarks(" ");
        MarksAppend(subquery.value, " ");
      } else {
        NoMarks("");
      }
      CompareMarks(column, operator, tail);
    }
  }

  lemma ConditionMarks(c: Casing, cond: Condition)
    requires MarkFree(c) && ConditionFree(cond) && Balanced(cond)
    ensures Marks(Concat(ConditionTexts(c, cond))) == |ConditionValues(cond)|
  {
    match cond {
      case FieldCondition(f, op, v, sq) =>
        FieldTextMarks(c, f, op, v, sq);
        var t := FieldText(c, f, op, v, sq);
        assert Concat([t]) == t + "";
        assert t + "" == t;
      case Equalities(pairs) =>
        KeyTextsMarks(c, pairs);
        assert |PairValues(pairs)| == |pairs| by { PairValuesLength(pairs); }
    }
  }

  lemma {:induction false} PairValuesLength(pairs: seq<(string, Value)>)
    ensures |PairValues(pairs)| == |pairs|
    decreases |pairs|
  {
    if |pairs| > 0 {
      PairValuesLength(pairs[..|pairs| - 1]);
    }
  }

  lemma {:induction false} ListedMarks(c: Casing, conds: seq<Condition>)
    requires MarkFree(c)
    requires forall i :: 0 <= i < |conds| ==> ConditionFree(conds[i]) && Balanced(conds[i])
    ensures Marks(Concat(ListedTexts(c, conds))) == |ListedValues(conds)|
    decreases |conds|
  {
    if |conds| > 0 {
      var n := |conds| - 1;
      ListedMarks(c, conds[..n]);
      ConditionMarks(c, conds[n]);
      ConcatAppend(ListedTexts(c, conds[..n]), ConditionTexts(c, conds[n]));
      MarksAppend(Concat(ListedTexts(c, conds[..n])), Concat(ConditionTexts(c, conds[n])));
    }
  }

  /** Every condition of a where argument is free of `?` of its own and balanced. */
  predicate WhereFree(w: Where) {
    match w
    case Listed(conds) => forall i :: 0 <= i < |conds| ==> ConditionFree(conds[i]) && Balanced(conds[i])
    case Keyed(_) => true
  }

  /** `_buildWhere` writes exactly one `?` per value it pushes. */
  lemma WhereMarks(c: Casing, w: Where, andOr: Option<string>)
    requires MarkFree(c) && WhereFree(w) && '?' !in Connective(andOr)
    ensures Marks(WhereSql(c, w, andOr)) == |WhereValues(w)|
  {
    var texts := WhereTexts(c, w);
    var sep := " " + Connective(andOr) + " ";
    match w {
      case Listed(conds) => ListedMarks(c, conds);
      case Keyed(pairs) => ObjectTextsMarks(c, pairs); PairValuesLength(pairs);
    }
    JoinOccurrences(texts, sep, '?');
    MarksAppend("(", Join(texts, sep));
    MarksAppend("(" + Join(texts, sep), ") ");
  }

  // ---------------------------------------------------------------- SELECT

  /** Every string of a sequence holds no `?`. */
  predicate AllFree(texts: seq<string>) {
    forall i :: 0 <= i < |texts| ==> '?' !in texts[i]
  }

  predicate JoinFree(j: JoinValue) {
    '?' !in j.table && AllFree(OnConditions(j.on))
  }

  predicate JoinsFree(joins: seq<JoinValue>) {
    forall i :: 0 <= i < |joins| ==> JoinFree(joins[i])
  }

  /** The table, fields and joins given to `find` hold no `?`. */
  predicate HeadArgsFree(table: string, fields: Projection, joins: JoinsValue) {
    && '?' !in table
    && (fields.Columns? ==> AllFree(fields.fields))
    && (joins.JoinArray? ==> JoinsFree(joins.joins))
    && (joins.JoinsByType? ==> forall g :: 0 <= g < |joins.groups| ==>
          '?' !in joins.groups[g].0 && JoinsFree(joins.groups[g].1))
  }

  /** The order and group-by given to `find` hold no `?`. */
  predicate TrailerArgsFree(order: Ordering, groupBy: seq<string>) {
    && (match order
        case Ascending(fields) => AllFree(fields)
        case Directed(pairs) => forall i :: 0 <= i < |pairs| ==> '?' !in pairs[i].0 && '?' !in pairs[i].1)
    && AllFree(groupBy)
  }

  /** Every connective and condition of a SELECT's where argument holds no `?` of its own, and each condition is balanced. */
  predicate FilterFree(f: Filter) {
    match f
    case Flat(conds) => WhereFree(Listed(conds))
    case ByConnective(groups) => forall g :: 0 <= g < |groups| ==> '?' !in groups[g].0 && WhereFree(groups[g].1)
  }

  /** Aliases are pieces of the field or its camelCase form: they bring no `?` of their own. */
  lemma FieldAliasFree(c: Casing, field: string)
    requires MarkFree(c) && '?' !in field
    ensures '?' !in FieldAlias(c, field).0 && '?' !in FieldAlias(c, field).1
  {
    var dots, bars := Split(field, '.'), Split(field, '|');
    assert '?' !in c.camel(field);
    assert '?' !in dots[|dots| - 1];
    assert '?' !in bars[0];
    if |bars| > 1 {
      assert '?' !in bars[1];
    }
  }

  lemma {:induction false} ProjectionItemsFree(c: Casing, fields: seq<string>)
    requires MarkFree(c) && AllFree(fields)
    ensures AllFree(ProjectionItems(c, fields))
    decreases |fields|
  {
    if |fields| > 0 {
      ProjectionItemsFree(c, fields[..|fields| - 1]);
      FieldAliasFree(c, fields[|fields| - 1]);
    }
  }

  lemma ProjectionFree(c: Casing, p: Projection)
    requires MarkFree(c) && (p.Columns? ==> AllFree(p.fields))
    ensures '?' !in ProjectionSql(c, p)
  {
    if p.Columns? {
      ProjectionItemsFree(c, p.fields);
      JoinExcludes(ProjectionItems(c, p.fields), ", ", '?');
    }
  }

  lemma TableAliasFree(table: string)
    requires '?' !in table
    ensures '?' !in TableAlias(table).0 && '?' !in TableAlias(table).1
  {
    var bars := Split(table, '|');
    assert '?' !in bars[0];
    if |bars| > 1 {
      assert '?' !in bars[1];
    }
  }

  lemma FromFree(table: string)
    requires '?' !in table
    ensures '?' !in FromSql(table)
  {
    TableAliasFree(table);
  }

  lemma {:induction false} JoinLinesFree(joinType: string, joins: seq<JoinValue>)
    requires '?' !in joinType && JoinsFree(joins)
    ensures AllFree(JoinLines(joinType, joins))
    decreases |joins|
  {
    if |joins| > 0 {
      var j := joins[|joins| - 1];
      JoinLinesFree(joinType, joins[..|joins| - 1]);
      TableAliasFree(j.table);
      JoinExcludes(OnConditions(j.on), " AND ", '?');
    }
  }

  lemma JoinsSqlFree(joinType: string, joins: seq<JoinValue>)
    requires '?' !in joinType && JoinsFree(joins)
    ensures '?' !in JoinsSql(joinType, joins)
  {
    JoinLinesFree(joinType, joins);
    JoinExcludes(JoinLines(joinType, joins), "\n", '?');
  }

  lemma {:induction false} TypedJoinsFree(groups: seq<(string, seq<JoinValue>)>)
    requires forall g :: 0 <= g < |groups| ==> '?' !in groups[g].0 && JoinsFree(groups[g].1)
    ensures '?' !in TypedJoinsSql(groups)
    decreases |groups|
  {
    if |groups| > 0 {
      TypedJoinsFree(groups[..|groups| - 1]);
      JoinsSqlFree(groups[|groups| - 1].0, groups[|groups| - 1].1);
    }
  }

  lemma JoinsClauseFree(j: JoinsValue)
    requires j.JoinArray? ==> JoinsFree(j.joins)
    requires j.JoinsByType? ==> forall g :: 0 <= g < |j.groups| ==> '?' !in j.groups[g].0 && JoinsFree(j.groups[g].1)
    ensures '?' !in JoinsClause(j)
  {
    match j {
      case NoJoins =>
      case JoinArray(joins) =>
        if |joins| > 0 {
          JoinsSqlFree("INNER", joins);
          assert forall i :: 0 <= i < |joins| ==> Spaces(|joins|)[i] == ' ';
        }
      case JoinsByType(groups) => TypedJoinsFree(groups);
    }
  }

  lemma {:induction false} AscendingFree(fields: seq<string>)
    requires AllFree(fields)
    ensures AllFree(AscendingItems(fields))
    decreases |fields|
  {
    if |fields| > 0 {
      AscendingFree(fields[..|fields| - 1]);
    }
  }

  lemma {:induction false} DirectedFree(pairs: seq<(string, string)>)
    requires forall i :: 0 <= i < |pairs| ==> '?' !in pairs[i].0 && '?' !in pairs[i].1
    ensures AllFree(DirectedItems(pairs))
    decreases |pairs|
  {
    if |pairs| > 0 {
      DirectedFree(pairs[..|pairs| - 1]);
    }
  }

  lemma NumberFree(n: Option<int>)
    ensures '?' !in LimitClause(n) && '?' !in OffsetClause(n)
  {
    if n.Some? {
      var digits := NatToString(if n.value < 0 then -n.value else n.value);
      assert '?' !in digits;
      assert '?' !in IntToString(n.value);
    }
  }

  lemma OrderFree(order: Ordering)
    requires TrailerArgsFree(order, [])
    ensures '?' !in OrderClause(order)
  {
    match order {
      case Ascending(fields) => AscendingFree(fields);
      case Directed(pairs) => DirectedFree(pairs);
    }
    JoinExcludes(OrderItems(order), ", ", '?');
  }

  lemma GroupFree(groupBy: seq<string>)
    requires AllFree(groupBy)
    ensures '?' !in GroupClause(groupBy)
  {
    JoinExcludes(groupBy, ", ", '?');
  }

  /** GROUP BY, ORDER BY, LIMIT and OFFSET bring no `?`. */
  lemma TrailerFree(order: Ordering, limit: Option<int>, groupBy: seq<string>, offset: Option<int>)
    requires TrailerArgsFree(order, groupBy)
    ensures '?' !in GroupClause(groupBy) + OrderClause(order) + LimitClause(limit) + OffsetClause(offset)
  {
    GroupFree(groupBy);
    OrderFree(order);
    NumberFree(limit);
    NumberFree(offset);
    var g, o, l, f := GroupClause(groupBy), OrderClause(order), LimitClause(limit), OffsetClause(offset);
    assert '?' !in g + o + l + f;
  }

  lemma {:induction false} GroupsMarks(c: Casing, groups: seq<(string, Where)>)
    requires MarkFree(c)
    requires forall g :: 0 <= g < |groups| ==> '?' !in groups[g].0 && WhereFree(groups[g].1)
    ensures Marks(GroupsSql(c, groups)) == |GroupsValues(groups)|
    decreases |groups|
  {
    if |groups| > 0 {
      var (andOr, w) := groups[|groups| - 1];
      GroupsMarks(c, groups[..|groups| - 1]);
      WhereMarks(c, w, Some(andOr));
      MarksAppend(GroupsSql(c, groups[..|groups| - 1]), WhereSql(c, w, Some(andOr)));
    }
  }

  lemma WhereKeywordMarks(body: string)
    ensures Marks("WHERE " + body) == Marks(body)
  {
    Keywords();
    NoMarks("WHERE ");
    MarksAppend("WHERE ", body);
  }

  lemma FilterMarks(c: Casing, f: Filter)
    requires MarkFree(c) && FilterFree(f)
    ensures Marks(FilterClause(c, f)) == |FilterValues(f)|
  {
    if FilterKeys(f) > 0 {
      var body := if f.Flat? then WhereSql(c, Listed(f.conds), Some("AND")) else GroupsSql(c, f.groups);
      var values := if f.Flat? then ListedValues(f.conds) else GroupsValues(f.groups);
      var sql := FilterClause(c, f);
      assert sql == "WHERE " + body;
      assert FilterValues(f) == values;
      if f.Flat? {
        WhereMarks(c, Listed(f.conds), Some("AND"));
      } else {
        GroupsMarks(c, f.groups);
      }
      WhereKeywordMarks(body);
      assert Marks(sql) == |values|;
    }
  }

  /** What precedes the WHERE part of a SELECT brings no `?`. */
  lemma HeadFree(c: Casing, table: string, fields: Projection, joins: JoinsValue, head: string)
    requires MarkFree(c) && HeadArgsFree(table, fields, joins)
    requires head == "SELECT " + ProjectionSql(c, fields) + FromSql(table) + JoinsClause(joins)
    ensures Marks(head) == 0
  {
    ProjectionFree(c, fields);
    FromFree(table);
    JoinsClauseFree(joins);
    var p, f, j := ProjectionSql(c, fields), FromSql(table), JoinsClause(joins);
    assert '?' !in "SELECT " + p + f + j;
    NoMarks(head);
  }

  /**
   * `find` writes exactly one `?` per value it leaves in the buffer, so the
   * driver binds every marker, in order.
   */
  lemma SelectMarks(c: Casing, table: string, fields: Projection, where: Filter, joins: JoinsValue,
                    order: Ordering, limit: Option<int>, groupBy: seq<string>, offset: Option<int>)
    requires MarkFree(c) && HeadArgsFree(table, fields, joins) && TrailerArgsFree(order, groupBy) && FilterFree(where)
    ensures Marks(SelectSql(c, table, fields, where, joins, order, limit, groupBy, offset)) == |FilterValues(where)|
  {
    var head := "SELECT " + ProjectionSql(c, fields) + FromSql(table) + JoinsClause(joins);
    var filter := FilterClause(c, where);
    var tail := GroupClause(groupBy) + OrderClause(order) + LimitClause(limit) + OffsetClause(offset);
    HeadFree(c, table, fields, joins, head);
    TrailerFree(order, limit, groupBy, offset);
    NoMarks(tail);
    FilterMarks(c, where);
    MarksAppend(head, filter);
    MarksAppend(head + filter, tail);
  }

  // ---------------------------------------------------------------- INSERT / UPDATE / DELETE

  /** The names and arguments of the SQL function calls hold no `?`. */
  predicate CallsFree(entries: seq<(string, Assignment)>) {
    forall i :: 0 <= i < |entries| && entries[i].1.Call? ==>
      '?' !in entries[i].1.name && (entries[i].1.arg.Some? ==> '?' !in entries[i].1.arg.value)
  }

  /** The object values that are neither plain nor a `{function}` call. */
  function Compounds(entries: seq<(string, Assignment)>): nat
    decreases |entries|
  {
    if |entries| == 0 then 0
    else Compounds(entries[..|entries| - 1]) + if entries[|entries| - 1].1.Compound? then 1 else 0
  }

  /** Every entry is bound, called or compound. */
  lemma {:induction false} EntriesPartition(entries: seq<(string, Assignment)>)
    ensures |BoundValues(entries)| + |FixedValues(entries)| + Compounds(entries) == |entries|
    decreases |entries|
  {
    if |entries| > 0 {
      EntriesPartition(entries[..|entries| - 1]);
    }
  }

  lemma UpperFree(s: string)
    requires '?' !in s
    ensures '?' !in Upper(s)
  {
    forall i | 0 <= i < |s|
      ensures Upper(s)[i] != '?'
    {
      assert Upper(s)[i] == UpperChar(s[i]);
    }
  }

  lemma UpperSnakeFree(c: Casing, key: string)
    requires MarkFree(c)
    ensures '?' !in UpperSnake(c, key)
  {
    UpperFree(c.snake(key));
  }

  lemma CallFree(name: string, arg: Option<string>)
    requires '?' !in name && (arg.Some? ==> '?' !in arg.value)
    ensures '?' !in CallText(name, arg)
  {
  }

  /** One SET item: `COLUMN = ?` for a plain value, `COLUMN = fn(arg)` for a call. */
  lemma SetItemMarks(column: string, a: Assignment)
    requires '?' !in column
    requires a.Call? ==> '?' !in a.name && (a.arg.Some? ==> '?' !in a.arg.value)
    ensures Marks(Concat(match a
        case Plain(_) => [column + " = ?"]
        case Call(name, arg) => [column + " = " + CallText(name, arg)]
        case Compound => [])) == if a.Plain? then 1 else 0
  {
    if a.Plain? {
      assert Concat([column + " = ?"]) == column + " = ?" + "" == column + " = ?";
      NoMarks(column);
      MarksAppend(column, " = ?");
      OneMark();
    } else if a.Call? {
      var call := CallText(a.name, a.arg);
      CallFree(a.name, a.arg);
      assert Concat([column + " = " + call]) == column + " = " + call + "";
      assert '?' !in column + " = " + call + "";
      NoMarks(column + " = " + call + "");
    } else {
      NoMarks(Concat([]));
    }
  }

  lemma {:induction false} SetItemsMarks(c: Casing, entries: seq<(string, Assignment)>)
    requires MarkFree(c) && CallsFree(entries)
    ensures Marks(Concat(SetItems(c, entries))) == |BoundValues(entries)|
    decreases |entries|
  {
    if |entries| > 0 {
      var n := |entries| - 1;
      var (key, a) := entries[n];
      var items := match a
        case Plain(_) => [UpperSnake(c, key) + " = ?"]
        case Call(name, arg) => [UpperSnake(c, key) + " = " + CallText(name, arg)]
        case Compound => [];
      assert SetItems(c, entries) == SetItems(c, entries[..n]) + items;
      SetItemsMarks(c, entries[..n]);
      ConcatAppend(SetItems(c, entries[..n]), items);
      MarksAppend(Concat(SetItems(c, entries[..n])), Concat(items));
      UpperSnakeFree(c, key);
      SetItemMarks(UpperSnake(c, key), a);
    }
  }

  lemma UpdateHeadMarks(table: string, items: string)
    requires '?' !in table
    ensures Marks("UPDATE " + table + " SET " + items + " ") == Marks(items)
  {
    Keywords();
    var head := "UPDATE " + table + " SET ";
    NoMarks(head);
    NoMarks(" ");
    MarksAppend(head, items);
    MarksAppend(head + items, " ");
  }

  lemma UpdateItemsMarks(c: Casing, table: string, entries: seq<(string, Assignment)>)
    requires MarkFree(c) && '?' !in table && CallsFree(entries)
    ensures Marks("UPDATE " + table + " SET " + Join(SetItems(c, entries), ", ") + " ") == |BoundValues(entries)|
  {
    SetItemsMarks(c, entries);
    JoinOccurrences(SetItems(c, entries), ", ", '?');
    UpdateHeadMarks(table, Join(SetItems(c, entries), ", "));
  }

  lemma UpdateWhereMarks(c: Casing, where: Option<Where>)
    requires MarkFree(c) && (where.Some? ==> WhereFree(where.value))
    ensures Marks(if where.Some? then "WHERE " + WhereSql(c, where.value, None) else "")
         == if where.Some? then |WhereValues(where.value)| else 0
  {
    if where.Some? {
      WhereMarks(c, where.value, None);
      WhereKeywordMarks(WhereSql(c, where.value, None));
    }
  }

  /** `update` writes exactly one `?` per value it pushes: the plain values, then the where values. */
  lemma UpdateMarks(c: Casing, table: string, entries: seq<(string, Assignment)>, where: Option<Where>)
    requires MarkFree(c) && '?' !in table && CallsFree(entries)
    requires where.Some? ==> WhereFree(where.value)
    ensures Marks(UpdateSql(c, table, entries, where)) == |UpdateValues(entries, where)|
  {
    if |entries| > 0 {
      var head := "UPDATE " + table + " SET " + Join(SetItems(c, entries), ", ") + " ";
      var tail := if where.Some? then "WHERE " + WhereSql(c, where.value, None) else "";
      var sql := UpdateSql(c, table, entries, where);
      assert sql == head + tail;
      UpdateItemsMarks(c, table, entries);
      UpdateWhereMarks(c, where);
      MarksAppend(head, tail);
    }
  }

  lemma DeleteHeadMarks(table: string, where: string)
    requires '?' !in table
    ensures Marks("DELETE FROM " + table + " WHERE " + where) == Marks(where)
  {
    Keywords();
    var head := "DELETE FROM " + table + " WHERE ";
    NoMarks(head);
    MarksAppend(head, where);
  }

  /** `delete` writes exactly one `?` per value it pushes. */
  lemma DeleteMarks(c: Casing, table: string, where: Where)
    requires MarkFree(c) && '?' !in table && WhereFree(where)
    ensures Marks(DeleteSql(c, table, where)) == |DeleteValues(where)|
  {
    if KeyCount(where) > 0 {
      var w := WhereSql(c, where, None);
      var sql := DeleteSql(c, table, where);
      assert sql == "DELETE FROM " + table + " WHERE " + w;
      WhereMarks(c, where, None);
      DeleteHeadMarks(table, w);
      assert Marks(sql) == Marks(w);
    }
  }

  lemma {:induction false} RepeatMarks(n: nat)
    ensures Marks(Concat(Repeat("?", n))) == n
    decreases n
  {
    if n > 0 {
      RepeatMarks(n - 1);
      assert Repeat("?", n)[1..] == Repeat("?", n - 1);
      MarksAppend("?", Concat(Repeat("?", n - 1)));
    }
  }

  /** `_.trimEnd(_.repeat('?, ', n), ', ')` holds `n` markers. */
  lemma PlaceholdersMarks(n: nat)
    ensures Marks(Placeholders(n)) == n
  {
    RepeatMarks(n);
    JoinOccurrences(Repeat("?", n), ", ", '?');
  }

  lemma {:induction false} ColumnsFree(c: Casing, entries: seq<(string, Assignment)>)
    requires MarkFree(c)
    ensures AllFree(InsertColumns(c, entries))
    decreases |entries|
  {
    if |entries| > 0 {
      ColumnsFree(c, entries[..|entries| - 1]);
      UpperSnakeFree(c, entries[|entries| - 1].0);
    }
  }

  lemma {:induction false} FixedFree(entries: seq<(string, Assignment)>)
    requires CallsFree(entries)
    ensures AllFree(FixedValues(entries))
    decreases |entries|
  {
    if |entries| > 0 {
      var a := entries[|entries| - 1].1;
      FixedFree(entries[..|entries| - 1]);
      if a.Call? {
        CallFree(a.name, a.arg);
      }
    }
  }

  lemma InsertTextMarks(table: string, columns: string, marks: string, calls: string)
    requires '?' !in table && '?' !in columns && '?' !in calls
    ensures Marks("INSERT INTO " + table + " (" + columns + ") VALUES (" + marks + calls + ")") == Marks(marks)
  {
    Keywords();
    var head := "INSERT INTO " + table + " (" + columns + ") VALUES (";
    NoMarks(head);
    NoMarks(calls);
    NoMarks(")");
    MarksAppend(head, marks);
    MarksAppend(head + marks, calls);
    MarksAppend(head + marks + calls, ")");
  }

  /** The markers `insert` writes: `|entries| - |fixed|` of them, when there is a plain value. */
  lemma InsertPlaceholderMarks(entries: seq<(string, Assignment)>)
    ensures var bound, fixed := BoundValues(entries), FixedValues(entries);
      Marks(if |bound| > 0 then Placeholders(|entries| - |fixed|) else "")
      == if |bound| > 0 then |bound| + Compounds(entries) else 0
  {
    EntriesPartition(entries);
    if |BoundValues(entries)| > 0 {
      PlaceholdersMarks(|entries| - |FixedValues(entries)|);
    }
  }

  lemma InsertListsFree(c: Casing, entries: seq<(string, Assignment)>)
    requires MarkFree(c) && CallsFree(entries)
    ensures '?' !in Join(InsertColumns(c, entries), ", ")
    ensures var fixed := FixedValues(entries);
      '?' !in if |fixed| > 0 then (if |BoundValues(entries)| > 0 then ", " else "") + Join(fixed, ", ") else ""
  {
    ColumnsFree(c, entries);
    JoinExcludes(InsertColumns(c, entries), ", ", '?');
    FixedFree(entries);
    JoinExcludes(FixedValues(entries), ", ", '?');
  }

  /**
   * `insert` writes one `?` per plain value and one more per compound value
   * (an object without `function`), for which it binds nothing; with no
   * plain value at all it writes none.
   */
  lemma InsertMarks(c: Casing, table: string, entries: seq<(string, Assignment)>)
    requires MarkFree(c) && '?' !in table && CallsFree(entries)
    ensures Marks(InsertSql(c, table, entries))
         == |InsertValues(entries)| + if |BoundValues(entries)| > 0 then Compounds(entries) else 0
  {
    if |entries| > 0 {
      var bound, fixed := BoundValues(entries), FixedValues(entries);
      var columns := Join(InsertColumns(c, entries), ", ");
      var marks := if |bound| > 0 then Placeholders(|entries| - |fixed|) else "";
      var calls := if |fixed| > 0 then (if |bound| > 0 then ", " else "") + Join(fixed, ", ") else "";
      var sql := InsertSql(c, table, entries);
      assert sql == "INSERT INTO " + table + " (" + columns + ") VALUES (" + marks + calls + ")";
      InsertListsFree(c, entries);
      InsertPlaceholderMarks(entries);
      InsertTextMarks(table, columns, marks, calls);
    }
  }

  // ---------------------------------------------------------------- INSERT, corrected

  /** The kept entries are the entries other than objects without `function`. */
  lemma {:induction false} KeptEntries(entries: seq<(string, Assignment)>)
    ensures |Kept(entries)| + Compounds(entries) == |entries|
    ensures forall i :: 0 <= i < |Kept(entries)| ==> !Kept(entries)[i].1.Compound? && Kept(entries)[i] in entries
    decreases |entries|
  {
    if |entries| > 0 {
      var init := entries[..|entries| - 1];
      KeptEntries(init);
      assert forall x :: x in init ==> x in entries;
    }
  }

  /** Column `i` and item `i` of the corrected INSERT come from the same kept entry. */
  lemma {:induction false} AlignedPairs(c: Casing, entries: seq<(string, Assignment)>)
    ensures |AlignedColumns(c, entries)| == |Kept(entries)| && |AlignedItems(entries)| == |Kept(entries)|
    ensures forall i :: 0 <= i < |Kept(entries)| ==>
      && AlignedColumns(c, entries)[i] == UpperSnake(c, Kept(entries)[i].0)
      && AlignedItems(entries)[i] == ItemText(Kept(entries)[i].1)
    decreases |entries|
  {
    if |entries| > 0 {
      AlignedPairs(c, entries[..|entries| - 1]);
    }
  }

  lemma {:induction false} AlignedColumnsFree(c: Casing, entries: seq<(string, Assignment)>)
    requires MarkFree(c)
    ensures AllFree(AlignedColumns(c, entries))
    decreases |entries|
  {
    if |entries| > 0 {
      AlignedColumnsFree(c, entries[..|entries| - 1]);
      UpperSnakeFree(c, entries[|entries| - 1].0);
    }
  }

  /** The corrected items hold one marker per plain value. */
  lemma {:induction false} AlignedItemsMarks(entries: seq<(string, Assignment)>)
    requires CallsFree(entries)
    ensures Marks(Concat(AlignedItems(entries))) == |BoundValues(entries)|
    decreases |entries|
  {
    if |entries| > 0 {
      var init, a := entries[..|entries| - 1], entries[|entries| - 1].1;
      assert CallsFree(init) by {
        forall i | 0 <= i < |init| ensures init[i] == entries[i] { }
      }
      AlignedItemsMarks(init);
      if a.Compound? {
        assert AlignedItems(entries) == AlignedItems(init);
        assert BoundValues(entries) == BoundValues(init);
      } else {
        MarksStep(AlignedItems(init), ItemText(a));
        if a.Plain? {
          OccurrencesSingle('?');
        } else {
          CallFree(a.name, a.arg);
          NoMarks(ItemText(a));
        }
      }
    }
  }

  /** The corrected INSERT writes exactly one marker per value it binds. */
  lemma AlignedMarks(c: Casing, table: string, entries: seq<(string, Assignment)>)
    requires MarkFree(c) && '?' !in table && CallsFree(entries)
    ensures Marks(InsertSqlAligned(c, table, entries)) == |InsertValues(entries)|
  {
    if |entries| > 0 {
      var columns := Join(AlignedColumns(c, entries), ", ");
      var items := Join(AlignedItems(entries), ", ");
      AlignedColumnsFree(c, entries);
      JoinExcludes(AlignedColumns(c, entries), ", ", '?');
      AlignedItemsMarks(entries);
      JoinOccurrences(AlignedItems(entries), ", ", '?');
      var head := "INSERT INTO " + table + " (" + columns + ") VALUES (";
      assert head + items + "" == head + items;
      InsertTextMarks(table, columns, items, "");
    }
  }

  /** `execute` sees an INSERT in the corrected text too. */
  lemma AlignedOperation(c: Casing, table: string, entries: seq<(string, Assignment)>)
    ensures Operation(InsertSqlAligned(c, table, entries)) == if |entries| > 0 then "INSERT" else ""
  {
    if |entries| > 0 {
      var columns := Join(AlignedColumns(c, entries), ", ");
      var items := Join(AlignedItems(entries), ", ");
      var head := "INSERT INTO " + table + " (" + columns + ") VALUES (";
      assert head + items + "" == head + items;
      InsertShape(table, columns, items, "");
    } else {
      assert Split("", ' ') == [""];
    }
  }

  /**
   * A call entry before a plain one: as written, the marker comes first and
   * so binds the plain value to the call's column, and the call lands in the
   * plain value's column; corrected, each item stays in its column's place.
   */
  lemma InsertCallBeforePlain(c: Casing, table: string, k1: string, f: string, arg: Option<string>, k2: string, v: Value)
    ensures var entries := [(k1, Call(f, arg)), (k2, Plain(v))];
      var head := "INSERT INTO " + table + " (" + (UpperSnake(c, k1) + ", " + UpperSnake(c, k2)) + ") VALUES (";
      && InsertSql(c, table, entries) == head + "?" + (", " + CallText(f, arg)) + ")"
      && InsertSqlAligned(c, table, entries) == head + (CallText(f, arg) + ", " + "?") + ")"
      && InsertValues(entries) == [v]
  {
    var x, y := (k1, Call(f, arg)), (k2, Plain(v));
    var entries := [x, y];
    var call := CallText(f, arg);
    assert entries[..1] == [x] && [x][..0] == [];
    assert BoundValues([x]) == [] + [];
    assert BoundValues(entries) == BoundValues([x]) + [v];
    assert FixedValues([x]) == [] + [call];
    assert FixedValues(entries) == FixedValues([x]) + [];
    assert InsertColumns(c, [x]) == [] + [UpperSnake(c, k1)];
    assert InsertColumns(c, entries) == InsertColumns(c, [x]) + [UpperSnake(c, k2)];
    assert AlignedColumns(c, [x]) == [] + [UpperSnake(c, k1)];
    assert AlignedColumns(c, entries) == AlignedColumns(c, [x]) + [UpperSnake(c, k2)];
    assert AlignedItems([x]) == [] + [call];
    assert AlignedItems(entries) == AlignedItems([x]) + ["?"];
    assert Repeat("?", 1) == ["?"];
    assert Placeholders(2 - 1) == "?";
    assert Join([call], ", ") == call;
    assert Join([call, "?"], ", ") == call + ", " + "?" by {
      assert [call, "?"][1..] == ["?"];
    }
    var columns := [UpperSnake(c, k1), UpperSnake(c, k2)];
    assert Join(columns, ", ") == UpperSnake(c, k1) + ", " + UpperSnake(c, k2) by {
      assert columns[1..] == [UpperSnake(c, k2)];
    }
  }

  /**
   * An object without `function` next to a plain value: as written, it gets a
   * marker that binds nothing; corrected, it is left out.
   */
  lemma InsertCompoundUnbound(c: Casing, table: string, k1: string, v: Value, k2: string)
    ensures var entries := [(k1, Plain(v)), (k2, Compound)];
      && |InsertValues(entries)| == 1
      && (MarkFree(c) && '?' !in table ==> Marks(InsertSql(c, table, entries)) == 2)
      && (MarkFree(c) && '?' !in table ==> Marks(InsertSqlAligned(c, table, entries)) == 1)
  {
    var x, y := (k1, Plain(v)), (k2, Compound);
    var entries := [x, y];
    assert entries[..1] == [x] && [x][..0] == [];
    assert BoundValues([x]) == [] + [v];
    assert BoundValues(entries) == BoundValues([x]) + [];
    assert Compounds([x]) == 0;
    assert Compounds(entries) == 1;
    assert CallsFree(entries);
    if MarkFree(c) && '?' !in table {
      InsertMarks(c, table, entries);
      AlignedMarks(c, table, entries);
    }
  }

  // ---------------------------------------------------------------- execute

  /** The statement keywords are their own upper case. */
  lemma UpperKeywords()
    ensures Upper("SELECT") == "SELECT" && Upper("INSERT") == "INSERT"
    ensures Upper("UPDATE") == "UPDATE" && Upper("DELETE") == "DELETE"
  {
  }

  lemma OperationOf(word: string, rest: string)
    requires ' ' !in word && Upper(word) == word
    ensures Operation(word + " " + rest) == word
  {
    FirstToken(word, rest);
  }

  lemma SelectWord(rest: string)
    ensures Operation("SELECT " + rest) == "SELECT"
  {
    UpperKeywords();
    assert "SELECT " == "SELECT" + " ";
    OperationOf("SELECT", rest);
  }

  /** Regrouping the text after a leading keyword. */
  lemma Regroup(k: string, a: string, b: string, c: string, d: string, e: string)
    ensures k + a + b + c + d + e == k + (a + b + c + d + e)
  {
    AppendAssoc(k, a, b);
    AppendAssoc(k, a + b, c);
    AppendAssoc(k, a + b + c, d);
    AppendAssoc(k, a + b + c + d, e);
  }

  /** `execute` takes the text of `find`/`findOne` for a SELECT. */
  lemma SelectOperation(c: Casing, table: string, fields: Projection, where: Filter, joins: JoinsValue,
                        order: Ordering, limit: Option<int>, groupBy: seq<string>, offset: Option<int>)
    ensures Operation(SelectSql(c, table, fields, where, joins, order, limit, groupBy, offset)) == "SELECT"
  {
    var p, f, j := ProjectionSql(c, fields), FromSql(table), JoinsClause(joins);
    var w := FilterClause(c, where);
    var t := GroupClause(groupBy) + OrderClause(order) + LimitClause(limit) + OffsetClause(offset);
    Regroup("SELECT ", p, f, j, w, t);
    SelectWord(p + f + j + w + t);
  }

  lemma KeywordWord(word: string, rest: string)
    requires word in {"INSERT", "UPDATE", "DELETE"}
    ensures Operation(word + " " + rest) == word
  {
    UpperKeywords();
    OperationOf(word, rest);
  }

  lemma Regroup6(k: string, a: string, b: string, c: string, d: string, e: string, f: string)
    ensures k + a + b + c + d + e + f == k + (a + b + c + d + e + f)
  {
    Regroup(k, a, b, c, d, e);
    AppendAssoc(k, a + b + c + d + e, f);
  }

  /** `execute` sees an INSERT in what `insert` builds, and nothing it knows in the empty text built for no columns. */
  lemma InsertOperation(c: Casing, table: string, entries: seq<(string, Assignment)>)
    ensures Operation(InsertSql(c, table, entries)) == if |entries| > 0 then "INSERT" else ""
  {
    if |entries| > 0 {
      var bound, fixed := BoundValues(entries), FixedValues(entries);
      var columns := Join(InsertColumns(c, entries), ", ");
      var marks := if |bound| > 0 then Placeholders(|entries| - |fixed|) else "";
      var calls := if |fixed| > 0 then (if |bound| > 0 then ", " else "") + Join(fixed, ", ") else "";
      var sql := InsertSql(c, table, entries);
      assert sql == "INSERT INTO " + table + " (" + columns + ") VALUES (" + marks + calls + ")";
      InsertShape(table, columns, marks, calls);
    } else {
      assert Split("", ' ') == [""];
    }
  }

  lemma InsertShape(table: string, columns: string, marks: string, calls: string)
    ensures Operation("INSERT INTO " + table + " (" + columns + ") VALUES (" + marks + calls + ")") == "INSERT"
  {
    var k := "INSERT INTO " + table;
    Regroup(k, " (", columns, ") VALUES (", marks, calls);
    AppendAssoc(k, " (" + columns + ") VALUES (" + marks + calls, ")");
    assert "INSERT INTO " == "INSERT" + " " + "INTO" + " ";
    StatementWord("INSERT", "INTO", table, " (" + columns + ") VALUES (" + marks + calls + ")");
  }

  /** A statement that opens with a keyword, a second word and a table, such as `INSERT INTO t` or `DELETE FROM t`. */
  lemma StatementWord(word: string, second: string, table: string, rest: string)
    requires word in {"INSERT", "UPDATE", "DELETE"}
    ensures Operation(word + " " + second + " " + table + rest) == word
  {
    assert word + " " + second + " " + table + rest == word + " " + (second + " " + table + rest);
    KeywordWord(word, second + " " + table + rest);
  }

  /**
   * With no table set by `insert`, `execute` asks for the last id of the
   * third word of an INSERT statement, upper-cased: its table.
   */
  lemma InsertTableWord(table: string, rest: string)
    requires ' ' !in table
    ensures InsertTable("", "INSERT INTO " + table + " " + rest) == Upper(table)
  {
    InsertWords(table, rest);
    ThirdWord("INSERT", "INTO", table, rest);
  }

  lemma InsertWords(table: string, rest: string)
    ensures "INSERT INTO " + table + " " + rest == "INSERT" + " " + ("INTO" + " " + (table + " " + rest))
    ensures ' ' !in "INSERT" && ' ' !in "INTO"
  {
  }

  lemma ThirdWord(a: string, b: string, t: string, rest: string)
    requires ' ' !in a && ' ' !in b && ' ' !in t
    ensures var words := Split(a + " " + (b + " " + (t + " " + rest)), ' ');
      |words| >= 3 && words[2] == t
  {
    SplitWord(a, b + " " + (t + " " + rest), ' ');
    SplitWord(b, t + " " + rest, ' ');
    SplitWord(t, rest, ' ');
  }

  /** `execute` sees an UPDATE in what `update` builds. */
  lemma UpdateOperation(c: Casing, table: string, entries: seq<(string, Assignment)>, where: Option<Where>)
    ensures Operation(UpdateSql(c, table, entries, where)) == if |entries| > 0 then "UPDATE" else ""
  {
    if |entries| > 0 {
      var items := Join(SetItems(c, entries), ", ");
      var tail := if where.Some? then "WHERE " + WhereSql(c, where.value, None) else "";
      Regroup("UPDATE ", table, " SET ", items, " ", tail);
      UpdateWord(table + " SET " + items + " " + tail);
    } else {
      assert Split("", ' ') == [""];
    }
  }

  lemma UpdateWord(rest: string)
    ensures Operation("UPDATE " + rest) == "UPDATE"
  {
    assert "UPDATE " == "UPDATE" + " ";
    KeywordWord("UPDATE", rest);
  }

  /** `execute` sees a DELETE in what `delete` builds. */
  lemma DeleteOperation(c: Casing, table: string, where: Where)
    ensures Operation(DeleteSql(c, table, where)) == if KeyCount(where) > 0 then "DELETE" else ""
  {
    if KeyCount(where) > 0 {
      var w := WhereSql(c, where, None);
      AppendAssoc("DELETE FROM " + table, " WHERE ", w);
      assert "DELETE FROM " == "DELETE" + " " + "FROM" + " ";
      StatementWord("DELETE", "FROM", table, " WHERE " + w);
    } else {
      assert Split("", ' ') == [""];
    }
  }

  // ---------------------------------------------------------------- find / findOne

  lemma EndsWith(a: string, m: string, l: string)
    ensures var s := a + (m + l + "");
      |s| >= |l| && s[|s| - |l|..] == l
  {
    var s := a + (m + l + "");
    assert m + l + "" == m + l;
    assert s == (a + m) + l;
  }

  lemma LimitOne()
    ensures LimitClause(Some(1)) == "LIMIT 1 " && OffsetClause(None) == ""
  {
    assert IntToString(1) == "1";
  }

  /** `findOne` always ends its SELECT with `LIMIT 1` and has no OFFSET. */
  lemma FindOneLimit(c: Casing, table: string, fields: Projection, where: Filter, joins: JoinsValue,
                     order: Ordering, groupBy: seq<string>)
    ensures var sql := SelectSql(c, table, fields, where, joins, order, Some(1), groupBy, None);
      |sql| >= 8 && sql[|sql| - 8..] == "LIMIT 1 "
  {
    var head := "SELECT " + ProjectionSql(c, fields) + FromSql(table) + JoinsClause(joins) + FilterClause(c, where);
    var m := GroupClause(groupBy) + OrderClause(order);
    LimitOne();
    EndsWith(head, m, "LIMIT 1 ");
  }

  // ---------------------------------------------------------------- aliases

  /** A field with neither `|` nor `.` is aliased to its camelCase form. */
  lemma FieldAliasPlain(c: Casing, field: string)
    requires '|' !in field && '.' !in field
    ensures FieldAlias(c, field) == (field, c.camel(field))
  {
  }

  /** A field with a `.` and no `|` is aliased to what follows its last `.`. */
  lemma FieldAliasDotted(c: Casing, field: string)
    requires '|' !in field && '.' in field
    ensures var alias := FieldAlias(c, field).1;
      && FieldAlias(c, field).0 == field
      && '.' !in alias && |alias| < |field|
      && field[|field| - |alias|..] == alias && field[|field| - |alias| - 1] == '.'
  {
    var parts := Split(field, '.');
    var tail := Last(parts);
    SplitLastSuffix(field, '.');
    SplitLastAfter(field, '.');
    assert FieldAlias(c, field) == (field, tail);
    assert '.' !in parts[|parts| - 1];
  }

  /** A field with one `|` is `expression|alias`. */
  lemma FieldAliasBar(c: Casing, field: string)
    requires Occurrences(field, '|') == 1
    ensures var bar := IndexOf(field, '|');
      0 <= bar && FieldAlias(c, field) == (field[..bar], field[bar + 1..])
  {
    OccurrencesAbsent(field, '|');
    SingleBar(field);
  }

  /** Cutting at the only `|`. */
  lemma SingleBar(s: string)
    requires '|' in s
    ensures var bar := IndexOf(s, '|');
      0 <= bar && (Occurrences(s, '|') == 1 ==> Split(s, '|') == [s[..bar], s[bar + 1..]])
  {
    var bar := IndexOf(s, '|');
    SplitAtFirst(s, '|');
    if Occurrences(s, '|') == 1 {
      var rest := s[bar + 1..];
      assert s == s[..bar] + [s[bar]] + rest;
      OccurrencesAppend3(s[..bar], [s[bar]], rest, '|');
      OccurrencesAbsent(s[..bar], '|');
      OccurrencesSingle('|');
      OccurrencesAbsent(rest, '|');
      SplitNone(rest, '|');
    }
  }

  /** A table is `name|alias` with one `|`, otherwise aliased to itself. */
  lemma TableAliasRules(table: string)
    ensures '|' !in table ==> TableAlias(table) == (table, table)
    ensures Occurrences(table, '|') == 1 ==>
      var bar := IndexOf(table, '|');
      0 <= bar && TableAlias(table) == (table[..bar], table[bar + 1..])
  {
    if '|' in table {
      SingleBar(table);
    }
  }

  // ---------------------------------------------------------------- re-keyed rows

  function Keys(row: Row): set<string> {
    set i | 0 <= i < |row| :: row[i].0
  }

  /** No column name appears twice. */
  predicate Unique(row: Row) {
    forall i, j :: 0 <= i < j < |row| ==> row[i].0 != row[j].0
  }

  /** `row[key]`: the value under `key`. */
  function Get(row: Row, key: string): Option<Value>
    decreases |row|
  {
    if |row| == 0 then None else if row[0].0 == key then Some(row[0].1) else Get(row[1..], key)
  }

  /** The value of the last column whose camelCase name is `key`. */
  function LastWith(camel: string -> string, row: Row, key: string): Option<Value>
    decreases |row|
  {
    if |row| == 0 then None
    else if camel(row[|row| - 1].0) == key then Some(row[|row| - 1].1)
    else LastWith(camel, row[..|row| - 1], key)
  }

  lemma KeysCons(x: (string, Value), row: Row)
    ensures Keys([x] + row) == {x.0} + Keys(row)
  {
    var r := [x] + row;
    forall k | k in Keys(r) ensures k in {x.0} + Keys(row) {
      var i :| 0 <= i < |r| && r[i].0 == k;
      if i > 0 {
        assert row[i - 1].0 == k;
      }
    }
    forall k | k in Keys(row) ensures k in Keys(r) {
      var i :| 0 <= i < |row| && row[i].0 == k;
      assert r[i + 1].0 == k;
    }
    assert r[0].0 == x.0;
  }

  /** Setting a key adds it to the keys. */
  lemma {:induction false} AssignKeys(row: Row, key: string, v: Value)
    ensures Keys(Assign(row, key, v)) == Keys(row) + {key}
    decreases |row|
  {
    var r := Assign(row, key, v);
    if |row| == 0 {
      assert Keys(r) == {key} by { assert r[0].0 == key; }
    } else if row[0].0 == key {
      assert row == [row[0]] + row[1..];
      KeysCons((key, v), row[1..]);
      KeysCons(row[0], row[1..]);
    } else {
      assert row == [row[0]] + row[1..];
      AssignKeys(row[1..], key, v);
      KeysCons(row[0], Assign(row[1..], key, v));
      KeysCons(row[0], row[1..]);
    }
  }

  /** Setting a key keeps the keys unique. */
  lemma {:induction false} AssignUnique(row: Row, key: string, v: Value)
    requires Unique(row)
    ensures Unique(Assign(row, key, v))
    decreases |row|
  {
    var r := Assign(row, key, v);
    if |row| > 0 && row[0].0 != key {
      var tail := Assign(row[1..], key, v);
      AssignUnique(row[1..], key, v);
      AssignKeys(row[1..], key, v);
      assert r == [row[0]] + tail;
      forall j | 0 < j < |r| ensures r[0].0 != r[j].0 {
        assert r[j] == tail[j - 1];
        assert r[j].0 in Keys(tail);
        if r[j].0 != key {
          var i :| 0 <= i < |row[1..]| && row[1..][i].0 == r[j].0;
          assert row[i + 1].0 == r[j].0;
        }
      }
    } else if |row| > 0 {
      assert r[1..] == row[1..];
    }
  }

  /** Setting a key changes the value under that key only. */
  lemma {:induction false} AssignGet(row: Row, key: string, v: Value, k: string)
    ensures Get(Assign(row, key, v), k) == if k == key then Some(v) else Get(row, k)
    decreases |row|
  {
    if |row| > 0 && row[0].0 != key {
      AssignGet(row[1..], key, v, k);
      assert ([row[0]] + Assign(row[1..], key, v))[1..] == Assign(row[1..], key, v);
    } else if |row| > 0 {
      assert ([(key, v)] + row[1..])[1..] == row[1..];
    }
  }

  lemma {:induction false} AssignFresh(row: Row, key: string, v: Value)
    requires key !in Keys(row)
    ensures Assign(row, key, v) == row + [(key, v)]
    decreases |row|
  {
    if |row| > 0 {
      assert row[0].0 in Keys(row);
      assert row == [row[0]] + row[1..];
      KeysCons(row[0], row[1..]);
      AssignFresh(row[1..], key, v);
    }
  }

  /** The camelCase names of the columns of a row. */
  function CamelKeys(camel: string -> string, row: Row): set<string> {
    set i | 0 <= i < |row| :: camel(row[i].0)
  }

  lemma CamelKeysSnoc(camel: string -> string, row: Row)
    requires |row| > 0
    ensures CamelKeys(camel, row) == CamelKeys(camel, row[..|row| - 1]) + {camel(row[|row| - 1].0)}
  {
    var front := row[..|row| - 1];
    forall k | k in CamelKeys(camel, row) ensures k in CamelKeys(camel, front) + {camel(row[|row| - 1].0)} {
      var i :| 0 <= i < |row| && camel(row[i].0) == k;
      if i < |row| - 1 {
        assert front[i] == row[i];
      }
    }
    forall k | k in CamelKeys(camel, front) ensures k in CamelKeys(camel, row) {
      var i :| 0 <= i < |front| && camel(front[i].0) == k;
      assert front[i] == row[i];
    }
  }

  /**
   * `execute` re-keys a SELECT row to exactly the camelCase names of its
   * columns, each once, and the value under a name is that of the last column
   * with that camelCase name.
   */
  lemma {:induction false} RecasedFacts(camel: string -> string, row: Row)
    ensures Keys(Recased(camel, row)) == CamelKeys(camel, row)
    ensures Unique(Recased(camel, row))
    ensures forall k :: Get(Recased(camel, row), k) == LastWith(camel, row, k)
    decreases |row|
  {
    if |row| > 0 {
      var front := row[..|row| - 1];
      var (field, v) := row[|row| - 1];
      RecasedFacts(camel, front);
      AssignKeys(Recased(camel, front), camel(field), v);
      AssignUnique(Recased(camel, front), camel(field), v);
      forall k ensures Get(Recased(camel, row), k) == LastWith(camel, row, k) {
        AssignGet(Recased(camel, front), camel(field), v, k);
      }
      CamelKeysSnoc(camel, row);
    }
  }

  /**
   * When no two columns share a camelCase name, re-keying renames every
   * column in place: same order, same values.
   */
  lemma {:induction false} RecasedInPlace(camel: string -> string, row: Row)
    requires forall i, j :: 0 <= i < j < |row| ==> camel(row[i].0) != camel(row[j].0)
    ensures Recased(camel, row) == seq(|row|, i requires 0 <= i < |row| => (camel(row[i].0), row[i].1))
    decreases |row|
  {
    if |row| > 0 {
      var n := |row| - 1;
      var front := row[..n];
      var (field, v) := row[n];
      RecasedInPlace(camel, front);
      RecasedFacts(camel, front);
      assert forall i :: 0 <= i < |front| ==> front[i] == row[i];
      assert camel(field) !in CamelKeys(camel, front);
      AssignFresh(Recased(camel, front), camel(field), v);
    }
  }

  /** `RecaseRows` handles every row on its own. */
  lemma {:induction false} RecasedRowsEach(camel: string -> string, rows: seq<Row>)
    ensures |RecasedRows(camel, rows)| == |rows|
    ensures forall i :: 0 <= i < |rows| ==> RecasedRows(camel, rows)[i] == Recased(camel, rows[i])
    decreases |rows|
  {
    if |rows| > 0 {
      var front := rows[..|rows| - 1];
      RecasedRowsEach(camel, front);
      assert forall i :: 0 <= i < |front| ==> front[i] == rows[i];
    }
  }
}
