/**
 * The JavaScript string operations the builders rely on: `indexOf`, `split`,
 * `Array.prototype.join`, ASCII `toUpperCase`/`toLowerCase` and the decimal
 * rendering of numbers, with the facts about them the other modules use.
 */
module Text {

  /** Number of occurrences of `c` in `s`. */
  function Occurrences(s: string, c: char): nat
    decreases |s|
  {
    if |s| == 0 then 0 else (if s[0] == c then 1 else 0) + Occurrences(s[1..], c)
  }

  /** `parts.join(sep)`. */
  function Join(parts: seq<string>, sep: string): string
    decreases |parts|
  {
    if |parts| == 0 then ""
    else if |parts| == 1 then parts[0]
    else parts[0] + sep + Join(parts[1..], sep)
  }

  /** All parts one after the other. */
  function Concat(parts: seq<string>): string
    decreases |parts|
  {
    if |parts| == 0 then "" else parts[0] + Concat(parts[1..])
  }

  /** `n` copies of `s`, as `_.repeat` lays them out before they are joined. */
  function Repeat(s: string, n: nat): seq<string> {
    seq(n, _ => s)
  }

  /** A string of `n` blanks. */
  function Spaces(n: nat): string {
    seq(n, _ => ' ')
  }

  /** `s.indexOf(c)`: the first position of `c`, or -1. */
  function IndexOf(s: string, c: char): (i: int)
    ensures -1 <= i < |s|
    ensures i == -1 <==> c !in s
    ensures 0 <= i ==> s[i] == c && c !in s[..i]
    decreases |s|
  {
    if |s| == 0 then -1
    else if s[0] == c then 0
    else
      var j := IndexOf(s[1..], c);
      if j < 0 then -1 else j + 1
  }

  /** True when `pat` occurs in `s` at position `i`. */
  predicate OccursAt(s: string, pat: string, i: int) {
    0 <= i && i + |pat| <= |s| && s[i..i + |pat|] == pat
  }

  /** `s.indexOf(pat, from)`: the first position at or after `from` where `pat` occurs, or -1. */
  function IndexOfFrom(s: string, pat: string, from: nat): (i: int)
    ensures i == -1 || (from <= i && OccursAt(s, pat, i))
    ensures i == -1 ==> forall k :: from <= k ==> !OccursAt(s, pat, k)
    ensures 0 <= i ==> forall k :: from <= k < i ==> !OccursAt(s, pat, k)
    decreases |s| - from
  {
    if from + |pat| > |s| then -1
    else if s[from..from + |pat|] == pat then from
    else IndexOfFrom(s, pat, from + 1)
  }

  /** `s.indexOf(pat)`. */
  function IndexOfSub(s: string, pat: string): int {
    IndexOfFrom(s, pat, 0)
  }

  /** `toUpperCase` of one character, on the ASCII letters. */
  function UpperChar(ch: char): char {
    if 'a' <= ch <= 'z' then (ch as int - 32) as char else ch
  }

  /** `toLowerCase` of one character, on the ASCII letters. */
  function LowerChar(ch: char): char {
    if 'A' <= ch <= 'Z' then (ch as int + 32) as char else ch
  }

  function Upper(s: string): string {
    seq(|s|, i requires 0 <= i < |s| => UpperChar(s[i]))
  }

  function Lower(s: string): string {
    seq(|s|, i requires 0 <= i < |s| => LowerChar(s[i]))
  }

  /** The decimal digit for `d`. */
  function Digit(d: nat): (ch: char)
    requires d < 10
    ensures '0' <= ch <= '9'
  {
    ('0' as int + d) as char
  }

  /** The decimal digits of `n`, as JavaScript renders a non-negative integer. */
  function NatToString(n: nat): (r: string)
    ensures |r| > 0
    ensures forall i :: 0 <= i < |r| ==> '0' <= r[i] <= '9'
    decreases n
  {
    if n < 10 then [Digit(n)] else NatToString(n / 10) + [Digit(n % 10)]
  }

  /** The decimal rendering of an integer, with a leading `-` when negative. */
  function IntToString(i: int): string {
    if i < 0 then "-" + NatToString(-i) else NatToString(i)
  }

  /** `s.split(c)` for a one-character separator. */
  function Split(s: string, c: char): (parts: seq<string>)
    ensures |parts| >= 1 && (c in s <==> |parts| >= 2)
    ensures forall i :: 0 <= i < |parts| ==> c !in parts[i]
    ensures forall i, ch :: 0 <= i < |parts| && ch in parts[i] ==> ch in s
    decreases |s|
  {
    if |s| == 0 then [""]
    else
      assert s == [s[0]] + s[1..];
      var rest := Split(s[1..], c);
      if s[0] == c then [""] + rest
      else [[s[0]] + rest[0]] + rest[1..]
  }

  /** The last element of a non-empty sequence, as `pop()` returns it. */
  function Last<T>(xs: seq<T>): T
    requires |xs| > 0
  {
    xs[|xs| - 1]
  }

  /** Every part followed by `s`. */
  function Suffixed(parts: seq<string>, s: string): (r: seq<string>)
    ensures |r| == |parts|
  {
    seq(|parts|, i requires 0 <= i < |parts| => parts[i] + s)
  }

  /** Searching past a prefix free of `c`: the first `c` of `a + b` is the first one of `b`, shifted. */
  lemma IndexOfShift(a: string, b: string, c: char)
    requires c !in a
    ensures IndexOf(a + b, c) == if IndexOf(b, c) < 0 then -1 else |a| + IndexOf(b, c)
  {
    var j := IndexOf(b, c);
    var i := IndexOf(a + b, c);
    if j >= 0 {
      assert (a + b)[|a| + j] == c;
      assert (a + b)[..|a| + j] == a + b[..j];
    } else {
      assert c !in a + b;
    }
  }

  /** Cutting `a + b` inside `b`. */
  lemma SlicesOfAppend<T>(a: seq<T>, b: seq<T>, j: nat)
    requires j <= |b|
    ensures (a + b)[..|a| + j] == a + b[..j]
    ensures (a + b)[|a| + j..] == b[j..]
  {
  }

  /** The pieces of `h + [x] + [y] + t`. */
  lemma Pieces<T>(h: seq<T>, x: T, y: T, t: seq<T>)
    ensures var s := h + [x] + [y] + t;
      && |s| == |h| + 2 + |t| && s[|h|] == x && s[|h| + 1] == y
      && s[..|h|] == h && s[..|h| + 1] == h + [x] && s[|h| + 2..] == t
  {
    var s := h + [x] + [y] + t;
    assert s[..|h| + 1] == h + [x];
    assert s[|h| + 2..] == t;
  }

  /** Inserting `x` at `e` differs from appending it when the element after `e` is not `x[1]`. */
  lemma Inserted<T>(s: seq<T>, e: int, x: seq<T>)
    requires 0 <= e && e + 1 < |s| && |x| >= 2 && s[e + 1] != x[1]
    ensures s[..e] + x + s[e..] != s + x
  {
    assert (s[..e] + x + s[e..])[e + 1] == x[1];
    assert (s + x)[e + 1] == s[e + 1];
  }

  /** A sequence cut around its element at `j`. */
  lemma AroundOne<T>(s: seq<T>, j: int)
    requires 0 <= j < |s|
    ensures s == s[..j] + [s[j]] + s[j + 1..]
  {
  }

  /** A sequence cut before `i`, and around its element at `j`. */
  lemma Around<T>(s: seq<T>, i: int, j: int)
    requires 0 <= i <= j < |s|
    ensures s == s[..i] + (s[i..j] + [s[j]]) + s[j + 1..]
  {
    assert s[..j] == s[..i] + s[i..j];
    assert s == s[..j] + [s[j]] + s[j + 1..];
  }

  /** Regrouping a concatenation, stated once so that callers need not rediscover it. */
  lemma AppendAssoc<T>(a: seq<T>, b: seq<T>, c: seq<T>)
    ensures (a + b) + c == a + (b + c)
  {
  }

  /** Occurrences add up over a concatenation. */
  lemma {:induction false} OccurrencesAppend(a: string, b: string, c: char)
    ensures Occurrences(a + b, c) == Occurrences(a, c) + Occurrences(b, c)
    decreases |a|
  {
    if |a| == 0 {
      assert a + b == b;
    } else {
      assert (a + b)[1..] == a[1..] + b;
      OccurrencesAppend(a[1..], b, c);
    }
  }

  /** Occurrences add up over a concatenation of three. */
  lemma OccurrencesAppend3(a: string, m: string, b: string, c: char)
    ensures Occurrences(a + m + b, c) == Occurrences(a, c) + Occurrences(m, c) + Occurrences(b, c)
  {
    OccurrencesAppend(a + m, b, c);
    OccurrencesAppend(a, m, c);
  }

  /** No occurrence exactly when the character is absent. */
  lemma {:induction false} OccurrencesAbsent(s: string, c: char)
    ensures Occurrences(s, c) == 0 <==> c !in s
    decreases |s|
  {
    if |s| > 0 {
      OccurrencesAbsent(s[1..], c);
      assert s == [s[0]] + s[1..];
    }
  }

  /** A one-character string holds its character once. */
  lemma OccurrencesSingle(c: char)
    ensures Occurrences([c], c) == 1
  {
    assert [c][1..] == [];
  }

  lemma {:induction false} ConcatAppend(a: seq<string>, b: seq<string>)
    ensures Concat(a + b) == Concat(a) + Concat(b)
    decreases |a|
  {
    if |a| == 0 {
      assert a + b == b;
    } else {
      assert (a + b)[1..] == a[1..] + b;
      ConcatAppend(a[1..], b);
    }
  }

  /** A separator free of `c` adds no occurrence of `c` to a join. */
  lemma {:induction false} JoinOccurrences(parts: seq<string>, sep: string, c: char)
    requires c !in sep
    ensures Occurrences(Join(parts, sep), c) == Occurrences(Concat(parts), c)
    decreases |parts|
  {
    if |parts| == 1 {
      assert Concat(parts) == parts[0] + "";
      assert parts[0] + "" == parts[0];
    } else if |parts| > 1 {
      JoinOccurrences(parts[1..], sep, c);
      OccurrencesAbsent(sep, c);
      OccurrencesAppend(parts[0] + sep, Join(parts[1..], sep), c);
      OccurrencesAppend(parts[0], sep, c);
      OccurrencesAppend(parts[0], Concat(parts[1..]), c);
    }
  }

  /** A character absent from every part and from the separator is absent from the join. */
  lemma {:induction false} JoinExcludes(parts: seq<string>, sep: string, c: char)
    requires forall i :: 0 <= i < |parts| ==> c !in parts[i]
    requires c !in sep
    ensures c !in Join(parts, sep)
    decreases |parts|
  {
    if |parts| > 1 {
      JoinExcludes(parts[1..], sep, c);
    }
  }

  /** Joining the pieces of a split with the separator gives back the string. */
  lemma {:induction false} JoinSplit(s: string, c: char)
    ensures Join(Split(s, c), [c]) == s
    decreases |s|
  {
    if |s| > 0 {
      var rest := Split(s[1..], c);
      JoinSplit(s[1..], c);
      if s[0] == c {
        assert ([""] + rest)[1..] == rest;
      } else if |rest| > 1 {
        var parts := Split(s, c);
        assert parts[1..] == rest[1..];
        assert Join(rest, [c]) == rest[0] + [c] + Join(rest[1..], [c]);
      }
    }
  }

  /** The first piece of a split is the text before the first separator. */
  lemma {:induction false} SplitAtFirst(s: string, c: char)
    requires c in s
    ensures 0 <= IndexOf(s, c)
    ensures Split(s, c) == [s[..IndexOf(s, c)]] + Split(s[IndexOf(s, c) + 1..], c)
    decreases |s|
  {
    if s[0] != c {
      var i := IndexOf(s, c);
      var t := s[1..];
      assert c in t by { assert s[i] == c; assert t[i - 1] == s[i]; }
      SplitAtFirst(t, c);
      assert t[i - 1 + 1..] == s[i + 1..];
      assert [s[0]] + t[..i - 1] == s[..i];
    }
  }

  /** A string with no separator splits into itself. */
  lemma {:induction false} SplitNone(s: string, c: char)
    requires c !in s
    ensures Split(s, c) == [s]
    decreases |s|
  {
    if |s| > 0 {
      SplitNone(s[1..], c);
      assert [s[0]] + s[1..] == s;
    }
  }

  /** One step of `Split`, stated once. */
  lemma SplitStep(s: string, c: char)
    requires |s| > 0
    ensures var rest := Split(s[1..], c);
      Split(s, c) == if s[0] == c then [""] + rest else [[s[0]] + rest[0]] + rest[1..]
  {
  }

  /** A suffix of `s[1..]` is a suffix of `s`. */
  lemma SuffixShift(s: string, tail: string)
    requires |s| > 0 && |tail| <= |s| - 1 && s[1..][|s| - 1 - |tail|..] == tail
    ensures s[|s| - |tail|..] == tail
  {
    assert s[|s| - |tail|..] == s[1..][|s| - 1 - |tail|..];
  }

  /** A separator at the front or later on leaves the last piece to the rest of the string. */
  lemma SplitLastStep(s: string, c: char)
    requires |s| > 0 && (s[0] == c || c in s[1..])
    ensures Last(Split(s, c)) == Last(Split(s[1..], c))
  {
    SplitStep(s, c);
    var rest := Split(s[1..], c);
    if s[0] == c {
      LastAppend([""], rest);
    } else {
      LastAppend([[s[0]] + rest[0]], rest[1..]);
      assert Last(rest[1..]) == Last(rest);
    }
  }

  lemma LastAppend<T>(a: seq<T>, b: seq<T>)
    requires |b| > 0
    ensures Last(a + b) == Last(b)
  {
  }

  /** The last piece of a split is a suffix of the string. */
  lemma {:induction false} SplitLastSuffix(s: string, c: char)
    ensures |Last(Split(s, c))| <= |s| && s[|s| - |Last(Split(s, c))|..] == Last(Split(s, c))
    decreases |s|
  {
    if |s| > 0 {
      var t := s[1..];
      SplitLastSuffix(t, c);
      if s[0] == c || c in t {
        SplitLastStep(s, c);
        SuffixShift(s, Last(Split(t, c)));
      } else {
        assert s == [s[0]] + t;
        SplitNone(s, c);
        assert s[0..] == s;
      }
    }
  }

  /** With a separator present, the last piece is preceded by one. */
  lemma {:induction false} SplitLastAfter(s: string, c: char)
    requires c in s
    ensures |Last(Split(s, c))| < |s| && s[|s| - |Last(Split(s, c))| - 1] == c
    decreases |s|
  {
    var t := s[1..];
    assert s == [s[0]] + t;
    if c in t {
      SplitLastAfter(t, c);
      SplitLastStep(s, c);
      var tail := Last(Split(t, c));
      assert s[|s| - |tail| - 1] == t[|t| - |tail| - 1];
    } else {
      SplitStep(s, c);
      SplitNone(t, c);
      assert Split(s, c) == ["", t];
    }
  }

  /**
   * The last piece of a split is the suffix after the last separator: it is
   * the whole string when there is no separator, and is preceded by one
   * otherwise.
   */
  lemma SplitLast(s: string, c: char)
    ensures var tail := Last(Split(s, c));
      && |tail| <= |s| && s[|s| - |tail|..] == tail
      && (c !in s ==> tail == s)
      && (c in s ==> |tail| < |s| && s[|s| - |tail| - 1] == c)
  {
    SplitLastSuffix(s, c);
    if c in s {
      SplitLastAfter(s, c);
    } else {
      SplitNone(s, c);
    }
  }

  /** The first blank-separated token of `p + " " + rest` is `p` when `p` holds no blank. */
  lemma {:induction false} FirstToken(p: string, rest: string)
    requires ' ' !in p
    ensures Split(p + " " + rest, ' ')[0] == p
    decreases |p|
  {
    var s := p + " " + rest;
    if |p| > 0 {
      FirstToken(p[1..], rest);
      assert s[1..] == p[1..] + " " + rest;
      assert [p[0]] + p[1..] == p;
    }
  }

  /** A word followed by the separator splits off as the first piece. */
  lemma SplitWord(p: string, rest: string, c: char)
    requires c !in p
    ensures Split(p + [c] + rest, c) == [p] + Split(rest, c)
  {
    var s := p + [c] + rest;
    assert s == p + ([c] + rest);
    IndexOfShift(p, [c] + rest, c);
    assert ([c] + rest)[0] == c;
    SplitAtFirst(s, c);
    assert s[..|p|] == p;
    assert s[|p| + 1..] == rest;
  }

  /** Joining with `s + sep` and appending `s` puts `s` after every part. */
  lemma {:induction false} JoinSuffixed(parts: seq<string>, s: string, sep: string)
    requires |parts| > 0
    ensures Join(parts, s + sep) + s == Join(Suffixed(parts, s), sep)
    decreases |parts|
  {
    if |parts| > 1 {
      var tail := parts[1..];
      JoinSuffixed(tail, s, sep);
      assert Suffixed(parts, s)[1..] == Suffixed(tail, s);
      calc {
        Join(parts, s + sep) + s;
        parts[0] + (s + sep) + Join(tail, s + sep) + s;
        { AppendAssoc(parts[0] + (s + sep), Join(tail, s + sep), s); }
        parts[0] + (s + sep) + (Join(tail, s + sep) + s);
        parts[0] + (s + sep) + Join(Suffixed(tail, s), sep);
        { AppendAssoc(parts[0], s, sep); }
        (parts[0] + s) + sep + Join(Suffixed(tail, s), sep);
      }
    }
  }

  /** ASCII case mapping finds "ORDER BY" in the upper-cased text exactly where it finds "order by" in the lower-cased text. */
  lemma CaseFoldAt(s: string, k: int)
    requires 0 <= k && k + 8 <= |s|
    ensures OccursAt(Upper(s), "ORDER BY", k) <==> OccursAt(Lower(s), "order by", k)
  {
    var u, l := Upper(s)[k..k + 8], Lower(s)[k..k + 8];
    forall j | 0 <= j < 8
      ensures (u[j] == "ORDER BY"[j]) <==> (l[j] == "order by"[j])
    {
      assert u[j] == UpperChar(s[k + j]) && l[j] == LowerChar(s[k + j]);
    }
    if l == "order by" {
      assert forall j | 0 <= j < 8 :: u[j] == "ORDER BY"[j];
    }
    if u == "ORDER BY" {
      assert forall j | 0 <= j < 8 :: l[j] == "order by"[j];
    }
  }

  lemma {:induction false} CaseFoldFrom(s: string, from: nat)
    ensures IndexOfFrom(Upper(s), "ORDER BY", from) == IndexOfFrom(Lower(s), "order by", from)
    decreases |s| - from
  {
    if from + 8 <= |s| {
      CaseFoldAt(s, from);
      CaseFoldFrom(s, from + 1);
    }
  }
}
