/**
 * The statement rewriting the PostgreSQL adapter (lib/pgsql.js) applies in
 * `execute` before the text reaches the driver: every `?` marker becomes a
 * numbered parameter `$1`, `$2`, ..., and the ORDER BY list gets
 * `NULLS FIRST` after each of its comma-separated items.
 *
 * The loop in the source cuts the text with `substring(0, pos - 1)`, which
 * also removes the character in front of each `?` (none when the `?` opens
 * the text). `RenumberAsWritten` models that loop; `Renumber` is the loop
 * with the cut at `pos`, which `Prepare` uses.
 */
module PgSql {
  import opened Text

  /** The PostgreSQL parameter `$k`. */
  function Param(k: nat): (r: string)
    ensures '?' !in r && |r| > 1 && r[0] == '$'
  {
    "$" + NatToString(k)
  }

  // ---------------------------------------------------------------- numbering, as intended

  /** Every `?` of `sql` replaced, in order, by `$k`, `$k+1`, ...; nothing else changes. */
  function Substituted(sql: string, k: nat): string
    decreases |sql|
  {
    var p := IndexOf(sql, '?');
    if p < 0 then sql else sql[..p] + Param(k) + Substituted(sql[p + 1..], k + 1)
  }

  /** No marker is left. */
  lemma {:induction false} SubstitutedFree(sql: string, k: nat)
    ensures '?' !in Substituted(sql, k)
    decreases |sql|
  {
    var p := IndexOf(sql, '?');
    if p >= 0 {
      SubstitutedFree(sql[p + 1..], k + 1);
      assert '?' !in sql[..p] + Param(k);
    }
  }

  /** The pieces between the markers with the parameters `$k`, `$k+1`, ... between them. */
  function Interleaved(pieces: seq<string>, k: nat): string
    requires |pieces| > 0
    decreases |pieces|
  {
    if |pieces| == 1 then pieces[0] else pieces[0] + Param(k) + Interleaved(pieces[1..], k + 1)
  }

  /** The substitution puts `$k`, `$k+1`, ... exactly where `split('?')` cuts the text. */
  lemma {:induction false} SubstitutedSplit(sql: string, k: nat)
    ensures Substituted(sql, k) == Interleaved(Split(sql, '?'), k)
    decreases |sql|
  {
    if '?' in sql {
      var p := IndexOf(sql, '?');
      SplitAtFirst(sql, '?');
      var rest := Split(sql[p + 1..], '?');
      assert Split(sql, '?') == [sql[..p]] + rest;
      assert ([sql[..p]] + rest)[1..] == rest;
      SubstitutedSplit(sql[p + 1..], k + 1);
    } else {
      SplitNone(sql, '?');
    }
  }

  lemma ParamDollars(k: nat)
    ensures Occurrences(Param(k), '$') == 1
  {
    var digits := NatToString(k);
    assert '$' !in digits;
    OccurrencesAppend("$", digits, '$');
    OccurrencesSingle('$');
    OccurrencesAbsent(digits, '$');
  }

  /** Each marker becomes exactly one parameter: the text gains one `$` per `?`. */
  lemma {:induction false} SubstitutedDollars(sql: string, k: nat)
    ensures Occurrences(Substituted(sql, k), '$') == Occurrences(sql, '$') + Occurrences(sql, '?')
    decreases |sql|
  {
    var p := IndexOf(sql, '?');
    if p >= 0 {
      var a, b := sql[..p], sql[p + 1..];
      SubstitutedDollars(b, k + 1);
      ParamDollars(k);
      AroundOne(sql, p);
      OccurrencesAppend3(a, ['?'], b, '$');
      OccurrencesAppend3(a, ['?'], b, '?');
      OccurrencesAppend3(a, Param(k), Substituted(b, k + 1), '$');
      OccurrencesAbsent(a, '?');
      OccurrencesAbsent(['?'], '$');
      OccurrencesSingle('?');
    } else {
      OccurrencesAbsent(sql, '?');
    }
  }

  /** A text without markers is left as it is. */
  lemma SubstitutedNone(sql: string, k: nat)
    requires '?' !in sql
    ensures Substituted(sql, k) == sql
  {
  }

  lemma Regroup(d: string, a: string, m: string, t: string)
    ensures d + ((a + m) + t) == ((d + a) + m) + t
  {
  }

  /** One turn of the corrected loop moves the first marker of `rest` into the finished prefix `done`. */
  lemma RenumberStep(done: string, rest: string, k: nat)
    requires '?' !in done && 0 <= IndexOf(rest, '?')
    ensures var p := IndexOf(rest, '?');
      done + Substituted(rest, k) == (done + rest[..p] + Param(k)) + Substituted(rest[p + 1..], k + 1)
  {
    var p := IndexOf(rest, '?');
    SubstitutedAt(rest, k, p);
    Regroup(done, rest[..p], Param(k), Substituted(rest[p + 1..], k + 1));
  }

  /** `Substituted` unfolded once at the first marker `p`. */
  lemma SubstitutedAt(sql: string, k: nat, p: int)
    requires p == IndexOf(sql, '?') && 0 <= p
    ensures Substituted(sql, k) == (sql[..p] + Param(k)) + Substituted(sql[p + 1..], k + 1)
  {
  }

  /**
   * One turn of the corrected loop on `done + rest`, where `done` is free of
   * markers: the marker at `pos` becomes `$k` and moves, with the text before
   * it, into the finished prefix.
   */
  lemma RenumberTurn(r: string, done: string, rest: string, k: nat, pos: int) returns (done': string, rest': string)
    requires r == done + rest && '?' !in done && pos == IndexOf(r, '?') && 0 <= pos
    ensures r[..pos] + Param(k) + r[pos + 1..] == done' + rest'
    ensures '?' !in done' && |rest'| < |rest|
    ensures done' + Substituted(rest', k + 1) == done + Substituted(rest, k)
  {
    IndexOfShift(done, rest, '?');
    var p := IndexOf(rest, '?');
    RenumberStep(done, rest, k);
    SlicesOfAppend(done, rest, p);
    SlicesOfAppend(done, rest, p + 1);
    assert pos == |done| + p;
    var front, back := (done + rest)[..pos], (done + rest)[pos + 1..];
    assert front == done + rest[..p];
    assert back == rest[p + 1..];
    done', rest' := front + Param(k), back;
  }

  /**
   * The loop invariant of `Renumber`: the text `r` is a finished prefix `done`
   * without markers followed by the unnumbered `rest`, and numbering `rest`
   * from `k` on completes the numbering of `sql`.
   */
  ghost predicate Numbering(sql: string, r: string, done: string, rest: string, k: nat)
  {
    r == done + rest && '?' !in done && done + Substituted(rest, k) == Substituted(sql, 1)
  }

  /** One turn of the loop keeps `Numbering`, with a shorter rest. */
  lemma NumberingStep(sql: string, r: string, r': string, done: string, rest: string, k: nat, pos: int)
      returns (done': string, rest': string)
    requires Numbering(sql, r, done, rest, k) && pos == IndexOf(r, '?') && 0 <= pos
    requires r' == r[..pos] + ("$" + NatToString(k)) + r[pos + 1..]
    ensures Numbering(sql, r', done', rest', k + 1) && |rest'| < |rest|
  {
    done', rest' := RenumberTurn(r, done, rest, k, pos);
  }

  /** Once no marker is left, the text is the numbered one. */
  lemma NumberingDone(sql: string, r: string, done: string, rest: string, k: nat)
    requires Numbering(sql, r, done, rest, k) && IndexOf(r, '?') < 0
    ensures r == Substituted(sql, 1)
  {
    IndexOfShift(done, rest, '?');
    SubstitutedNone(rest, k);
  }

  /** The loop of `execute` (lines 9-15 of lib/pgsql.js) with the text cut at the marker itself. */
  method Renumber(sql: string) returns (r: string)
    ensures r == Substituted(sql, 1)
  {
    r := sql;
    var pos := IndexOf(r, '?');
    var indx: nat := 1;
    ghost var done: string := [];
    ghost var rest := sql;
    assert done + rest == rest;
    while pos >= 0
      invariant Numbering(sql, r, done, rest, indx)
      invariant pos == IndexOf(r, '?')
      decreases |rest|
    {
      ghost var r0 := r;
      var param := "$" + NatToString(indx);
      r := r[..pos] + param + r[pos + 1..];
      done, rest := NumberingStep(sql, r0, r, done, rest, indx, pos);
      pos := IndexOf(r, '?');
      indx := indx + 1;
    }
    NumberingDone(sql, r, done, rest, indx);
  }

  // ---------------------------------------------------------------- numbering, as written

  /** One turn of the loop as written: `substring(0, pos - 1)` drops the character before the marker, if any. */
  function AsWrittenStep(sql: string, pos: nat, k: nat): string
    requires pos < |sql|
  {
    sql[..if pos == 0 then 0 else pos - 1] + Param(k) + sql[pos + 1..]
  }

  /** Each turn removes exactly one marker, so the loop ends. */
  lemma StepRemovesMarker(sql: string, k: nat)
    requires 0 <= IndexOf(sql, '?')
    ensures Occurrences(AsWrittenStep(sql, IndexOf(sql, '?'), k), '?') == Occurrences(sql, '?') - 1
  {
    var pos := IndexOf(sql, '?');
    var cut := if pos == 0 then 0 else pos - 1;
    var pre, mid, post := sql[..cut], sql[cut..pos], sql[pos + 1..];
    Around(sql, cut, pos);
    assert '?' !in mid by {
      assert mid == sql[..pos][cut..];
    }
    OccurrencesAppend3(pre, mid + ['?'], post, '?');
    OccurrencesAppend(mid, ['?'], '?');
    OccurrencesAbsent(mid, '?');
    OccurrencesSingle('?');
    OccurrencesAppend3(pre, Param(k), post, '?');
    OccurrencesAbsent(Param(k), '?');
  }

  /** The text the loop of lines 9-15 of lib/pgsql.js produces, turn by turn. */
  function AsWrittenScan(sql: string, k: nat): (r: string)
    ensures '?' !in r
    decreases Occurrences(sql, '?')
  {
    var pos := IndexOf(sql, '?');
    if pos < 0 then sql
    else
      StepRemovesMarker(sql, k);
      AsWrittenScan(AsWrittenStep(sql, pos, k), k + 1)
  }

  /** The loop of `execute` (lines 9-15 of lib/pgsql.js) as written. */
  method RenumberAsWritten(sql0: string) returns (sql: string)
    ensures sql == AsWrittenScan(sql0, 1)
    ensures '?' !in sql
  {
    sql := sql0;
    var pos := IndexOf(sql, '?');
    var indx: nat := 1;
    while pos >= 0
      invariant pos == IndexOf(sql, '?')
      invariant AsWrittenScan(sql, indx) == AsWrittenScan(sql0, 1)
      decreases Occurrences(sql, '?')
    {
      StepRemovesMarker(sql, indx);
      ghost var next := AsWrittenStep(sql, pos, indx);
      assert AsWrittenScan(sql, indx) == AsWrittenScan(next, indx + 1);
      var param := "$" + NatToString(indx);
      sql := sql[..if pos == 0 then 0 else pos - 1] + param + sql[pos + 1..];
      assert sql == next;
      pos := IndexOf(sql, '?');
      indx := indx + 1;
    }
  }

  /** A turn of the loop as written on a marker with a character `ch` in front of it: `$k` replaces both. */
  lemma AsWrittenTurn(h: string, ch: char, t: string, k: nat)
    requires '?' !in h && ch != '?'
    ensures AsWrittenScan(h + [ch] + "?" + t, k) == AsWrittenScan(h + Param(k) + t, k + 1)
  {
    var sql := h + [ch] + "?" + t;
    var pos := |h| + 1;
    Pieces(h, ch, '?', t);
    assert '?' !in sql[..pos];
    assert IndexOf(sql, '?') == pos;
    assert sql[..pos - 1] == h;
    assert AsWrittenStep(sql, pos, k) == h + Param(k) + t;
  }

  /** A turn of the corrected numbering: `$k` replaces the first marker only. */
  lemma SubstitutedTurn(h: string, t: string, k: nat)
    requires '?' !in h
    ensures Substituted(h + "?" + t, k) == h + Param(k) + Substituted(t, k + 1)
  {
    var sql := h + "?" + t;
    AppendAssoc(h, "?", t);
    IndexOfShift(h, "?" + t, '?');
    assert IndexOf(sql, '?') == |h|;
    SlicesOfAppend(h, "?" + t, 0);
    SlicesOfAppend(h, "?" + t, 1);
    SubstitutedAt(sql, k, |h|);
  }

  lemma Dollars()
    ensures Param(1) == "$1" && Param(2) == "$2"
  {
    assert NatToString(1) == "1" && NatToString(2) == "2";
  }

  /** With a single marker, the loop as written loses the character in front of it; the substitution keeps it. */
  lemma AsWrittenDropsPrecedingChar(h: string, ch: char, t: string)
    requires '?' !in h && ch != '?' && '?' !in t
    ensures AsWrittenScan(h + [ch] + "?" + t, 1) == h + "$1" + t
    ensures Substituted(h + [ch] + "?" + t, 1) == h + [ch] + "$1" + t
  {
    Dollars();
    AsWrittenTurn(h, ch, t, 1);
    assert '?' !in h + Param(1) + t;
    SubstitutedTurn(h + [ch], t, 1);
    SubstitutedNone(t, 2);
  }

  /** With two markers, each loses the character in front of it under the loop as written. */
  lemma AsWrittenDropsTwice(h: string, c1: char, m: string, c2: char, t: string)
    requires '?' !in h && '?' !in m && '?' !in t && c1 != '?' && c2 != '?'
    ensures AsWrittenScan(h + [c1] + "?" + (m + [c2] + "?" + t), 1) == h + Param(1) + m + Param(2) + t
  {
    var h2 := h + Param(1) + m;
    AsWrittenTurn(h, c1, m + [c2] + "?" + t, 1);
    Regroup(h + Param(1), m, [c2], "?" + t);
    AppendAssoc(h2 + [c2], "?", t);
    AppendAssoc(m + [c2], "?", t);
    AsWrittenTurn(h2, c2, t, 2);
    assert '?' !in h2 + Param(2) + t;
  }

  /** With two markers, the corrected numbering replaces the markers only. */
  lemma SubstitutedTwice(a: string, b: string, t: string)
    requires '?' !in a && '?' !in b && '?' !in t
    ensures Substituted(a + "?" + (b + "?" + t), 1) == a + Param(1) + (b + Param(2) + t)
  {
    SubstitutedTurn(a, b + "?" + t, 1);
    SubstitutedTurn(b, t, 2);
    SubstitutedNone(t, 3);
  }

  /** The one-value VALUES list `(?)` of an INSERT loses its opening parenthesis under the loop as written. */
  lemma AsWrittenDropsParenthesis()
    ensures AsWrittenScan("(?)", 1) == "$1)"
    ensures Substituted("(?)", 1) == "($1)"
  {
    AsWrittenDropsPrecedingChar("", '(', ")");
    assert "" + ['('] + "?" + ")" == "(?)";
  }

  /** `VALUES (?, ?)` becomes `VALUES $1,$2)` as written and `VALUES ($1, $2)` corrected. */
  lemma AsWrittenDropsValuesList(sql: string)
    requires sql == "VALUES " + "(" + "?" + ("," + " " + "?" + ")")
    ensures AsWrittenScan(sql, 1) == "VALUES " + "$1" + "," + "$2" + ")"
    ensures Substituted(sql, 1) == "VALUES " + "(" + "$1" + ("," + " " + "$2" + ")")
  {
    Dollars();
    AsWrittenDropsTwice("VALUES ", '(', ",", ' ', ")");
    SubstitutedTwice("VALUES " + "(", "," + " ", ")");
  }

  /** The conditions `a = ? AND b = ?` become `a =$1 AND b =$2` as written and `a = $1 AND b = $2` corrected. */
  lemma AsWrittenDropsSpaces(sql: string)
    requires sql == "a =" + " " + "?" + (" AND b =" + " " + "?" + "")
    ensures AsWrittenScan(sql, 1) == "a =" + "$1" + " AND b =" + "$2" + ""
    ensures Substituted(sql, 1) == "a =" + " " + "$1" + (" AND b =" + " " + "$2" + "")
  {
    Dollars();
    AsWrittenDropsTwice("a =", ' ', " AND b =", ' ', "");
    SubstitutedTwice("a =" + " ", " AND b =" + " ", "");
  }

  // ---------------------------------------------------------------- ORDER BY

  /** The position just past the first `order by`, in any letter case, or -1. */
  function OrderListStart(sql: string): (pos: int)
    ensures pos == -1 || 8 <= pos <= |sql|
    ensures pos == -1 <==> IndexOfSub(Upper(sql), "ORDER BY") < 0
  {
    CaseFoldFrom(sql, 0);
    var i := IndexOfSub(Lower(sql), "order by");
    if i < 0 then -1 else i + 8
  }

  /** Lines 17-22 of lib/pgsql.js: each comma-separated piece after ORDER BY, the last included, gets `NULLS FIRST`. */
  function NullsFirst(sql: string): (r: string)
    ensures OrderListStart(sql) < 0 ==> r == sql
  {
    var pos := OrderListStart(sql);
    if pos < 0 then sql
    else sql[..pos] + Join(Split(sql[pos..], ','), " NULLS FIRST, ") + " NULLS FIRST"
  }

  /** The text before the list is kept and every item of the list is followed by `NULLS FIRST`. */
  lemma NullsFirstItems(sql: string)
    requires OrderListStart(sql) >= 0
    ensures var pos := OrderListStart(sql);
      NullsFirst(sql) == sql[..pos] + Join(Suffixed(Split(sql[pos..], ','), " NULLS FIRST"), ", ")
  {
    var pos := OrderListStart(sql);
    var items := Split(sql[pos..], ',');
    assert " NULLS FIRST, " == " NULLS FIRST" + ", ";
    JoinSuffixed(items, " NULLS FIRST", ", ");
    AppendAssoc(sql[..pos], Join(items, " NULLS FIRST, "), " NULLS FIRST");
  }

  /**
   * With one ORDER BY item, `NULLS FIRST` lands at the very end of the text,
   * after whatever follows the list, a LIMIT or OFFSET clause included.
   */
  lemma NullsFirstSingleItem(sql: string)
    requires OrderListStart(sql) >= 0 && ',' !in sql[OrderListStart(sql)..]
    ensures NullsFirst(sql) == sql + " NULLS FIRST"
  {
    var pos := OrderListStart(sql);
    SplitNone(sql[pos..], ',');
    assert sql[..pos] + sql[pos..] == sql;
  }

  /**
   * Where the ORDER BY list that starts at `pos` ends: at the first ` LIMIT `
   * or ` OFFSET ` after `pos`, in any letter case, or at the end of the text.
   */
  function ListEnd(sql: string, pos: nat): (e: nat)
    requires pos <= |sql|
    ensures pos <= e <= |sql|
    ensures forall k :: pos <= k < e ==> !OccursAt(Upper(sql), " LIMIT ", k) && !OccursAt(Upper(sql), " OFFSET ", k)
    ensures e < |sql| ==> OccursAt(Upper(sql), " LIMIT ", e) || OccursAt(Upper(sql), " OFFSET ", e)
  {
    var u := Upper(sql);
    var l, o := IndexOfFrom(u, " LIMIT ", pos), IndexOfFrom(u, " OFFSET ", pos);
    if l < 0 && o < 0 then |sql|
    else if o < 0 || (0 <= l < o) then l
    else o
  }

  /**
   * The ORDER BY rewrite with the list cut where it ends: every sort item
   * gets `NULLS FIRST`, and a LIMIT or OFFSET clause stays after the list.
   */
  function NullsFirstListed(sql: string): (r: string)
    ensures OrderListStart(sql) < 0 ==> r == sql
  {
    var pos := OrderListStart(sql);
    if pos < 0 then sql
    else
      var e := ListEnd(sql, pos);
      sql[..pos] + Join(Split(sql[pos..e], ','), " NULLS FIRST, ") + " NULLS FIRST" + sql[e..]
  }

  /** The text before and after the list is kept and every item of the list is followed by `NULLS FIRST`. */
  lemma NullsFirstListedItems(sql: string)
    requires OrderListStart(sql) >= 0
    ensures var pos := OrderListStart(sql);
      var e := ListEnd(sql, pos);
      NullsFirstListed(sql) == sql[..pos] + Join(Suffixed(Split(sql[pos..e], ','), " NULLS FIRST"), ", ") + sql[e..]
  {
    var pos := OrderListStart(sql);
    var e := ListEnd(sql, pos);
    var items := Split(sql[pos..e], ',');
    assert " NULLS FIRST, " == " NULLS FIRST" + ", ";
    JoinSuffixed(items, " NULLS FIRST", ", ");
    AppendAssoc(sql[..pos], Join(items, " NULLS FIRST, "), " NULLS FIRST");
  }

  /** With no LIMIT or OFFSET after the list, the rewrite as written and the corrected one agree. */
  lemma NullsFirstListedAgrees(sql: string)
    requires OrderListStart(sql) >= 0 && ListEnd(sql, OrderListStart(sql)) == |sql|
    ensures NullsFirstListed(sql) == NullsFirst(sql)
  {
    var pos := OrderListStart(sql);
    assert sql[pos..|sql|] == sql[pos..];
    assert sql[|sql|..] == [];
  }

  /** With one sort item, the corrected rewrite puts `NULLS FIRST` where the list ends. */
  lemma NullsFirstListedSingle(sql: string)
    requires OrderListStart(sql) >= 0 && ',' !in sql[OrderListStart(sql)..]
    ensures var e := ListEnd(sql, OrderListStart(sql));
      NullsFirstListed(sql) == sql[..e] + " NULLS FIRST" + sql[e..]
  {
    var pos := OrderListStart(sql);
    var e := ListEnd(sql, pos);
    assert ',' !in sql[pos..e] by {
      assert sql[pos..e] == sql[pos..][..e - pos];
    }
    SplitNone(sql[pos..e], ',');
    assert sql[..pos] + sql[pos..e] == sql[..e];
  }

  /** The character after the blank that opens a LIMIT or OFFSET clause is a letter L or O. */
  lemma ClauseLetter(sql: string, e: int)
    requires OccursAt(Upper(sql), " LIMIT ", e) || OccursAt(Upper(sql), " OFFSET ", e)
    ensures e + 1 < |sql| && sql[e + 1] != 'N'
  {
    var u := Upper(sql);
    assert u[e + 1] == 'L' || u[e + 1] == 'O' by {
      assert u[e..e + 7][1] == u[e + 1];
    }
  }

  lemma NullsDiffer(sql: string, e: int, appended: string, inserted: string)
    requires 0 <= e && e + 1 < |sql| && sql[e + 1] != 'N'
    requires appended == sql + " NULLS FIRST" && inserted == sql[..e] + " NULLS FIRST" + sql[e..]
    ensures appended != inserted
  {
    var nulls := " NULLS FIRST";
    assert nulls[1] == 'N';
    Inserted(sql, e, nulls);
  }

  /**
   * With one sort item and a LIMIT or OFFSET after it, the rewrite as written
   * puts `NULLS FIRST` after that clause, where PostgreSQL does not accept it;
   * the corrected one puts it right after the item.
   */
  lemma NullsFirstAfterLimit(sql: string)
    requires OrderListStart(sql) >= 0 && ',' !in sql[OrderListStart(sql)..]
    requires ListEnd(sql, OrderListStart(sql)) < |sql|
    ensures NullsFirstListed(sql) != NullsFirst(sql)
  {
    var e := ListEnd(sql, OrderListStart(sql));
    NullsFirstSingleItem(sql);
    NullsFirstListedSingle(sql);
    ClauseLetter(sql, e);
    NullsDiffer(sql, e, NullsFirst(sql), NullsFirstListed(sql));
  }

  /** The corrected ORDER BY rewrite adds no marker either. */
  lemma NoMarkAddedListed(sql: string)
    requires '?' !in sql
    ensures '?' !in NullsFirstListed(sql)
  {
    var pos := OrderListStart(sql);
    if pos >= 0 {
      var e := ListEnd(sql, pos);
      var items := Split(sql[pos..e], ',');
      assert '?' !in sql[pos..e] && '?' !in sql[..pos] && '?' !in sql[e..];
      JoinExcludes(items, " NULLS FIRST, ", '?');
    }
  }

  // ---------------------------------------------------------------- execute

  /**
   * The rewriting `execute` applies before the text reaches the driver, with
   * both corrections: the numbering cuts at the marker itself, and the
   * ORDER BY list ends before a LIMIT or OFFSET clause.
   */
  method Prepare(sql0: string) returns (sql: string)
    ensures sql == NullsFirstListed(Substituted(sql0, 1))
    ensures '?' !in sql
  {
    sql := Renumber(sql0);
    if IndexOfSub(Upper(sql), "ORDER BY") >= 0 {
      CaseFoldFrom(sql, 0);
      var pos := IndexOfSub(Lower(sql), "order by") + 8;
      var end := ListEnd(sql, pos);
      var order := sql[pos..end];
      var fields := Join(Split(order, ','), " NULLS FIRST, ");
      sql := sql[..pos] + fields + " NULLS FIRST" + sql[end..];
    }
    SubstitutedFree(sql0, 1);
    NoMarkAddedListed(Substituted(sql0, 1));
  }

  /** The ORDER BY rewrite adds no marker. */
  lemma NoMarkAdded(sql: string)
    requires '?' !in sql
    ensures '?' !in NullsFirst(sql)
  {
    var pos := OrderListStart(sql);
    if pos >= 0 {
      var items := Split(sql[pos..], ',');
      assert '?' !in sql[pos..] && '?' !in sql[..pos];
      JoinExcludes(items, " NULLS FIRST, ", '?');
    }
  }

  /** A text with no marker and no ORDER BY reaches the driver unchanged. */
  lemma PrepareUnchanged(sql: string)
    requires '?' !in sql && IndexOfSub(Upper(sql), "ORDER BY") < 0
    ensures NullsFirstListed(Substituted(sql, 1)) == sql
  {
    SubstitutedNone(sql, 1);
  }
}
