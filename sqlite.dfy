/** The part of SQLite's query semantics the catalog queries rely on: values
    bound to `$n` placeholders, the LIKE operator, the BINARY collation used by
    `ORDER BY` and `<` on text, and `LIMIT`/`OFFSET`. */
module Sqlite {

  /** A value bound to a placeholder. */
  datatype Value = Null | Int(i: int) | Text(s: string)

  /** The value bound to placeholder `$n`: parameters are numbered from 1, and
      a placeholder with no parameter reads as NULL. */
  function Bind(params: seq<Value>, n: nat): Value {
    if 1 <= n <= |params| then params[n - 1] else Null
  }

  /** Parameters appended after `$|params|` do not change what `$1` .. `$|params|` read. */
  lemma BindExtended(params: seq<Value>, extra: seq<Value>, n: nat)
    requires 1 <= n <= |params|
    ensures Bind(params + extra, n) == Bind(params, n)
  {
  }

  /** The rows a WHERE predicate keeps, in their original order. */
  function Filter<T(!new)>(rows: seq<T>, keep: T -> bool): (r: seq<T>)
    ensures |r| <= |rows|
    ensures forall x :: x in r <==> x in rows && keep(x)
  {
    if rows == [] then []
    else (if keep(rows[0]) then [rows[0]] else []) + Filter(rows[1..], keep)
  }

  /** Two predicates that agree on every row keep the same rows. */
  lemma {:induction false} FilterAgrees<T(!new)>(rows: seq<T>, p: T -> bool, q: T -> bool)
    requires forall x :: x in rows ==> p(x) == q(x)
    ensures Filter(rows, p) == Filter(rows, q)
  {
    if rows != [] {
      FilterAgrees(rows[1..], p, q);
    }
  }

  /** A predicate that holds of every row keeps the table as it is. */
  lemma {:induction false} FilterKeepsAll<T(!new)>(rows: seq<T>, keep: T -> bool)
    requires forall x :: x in rows ==> keep(x)
    ensures Filter(rows, keep) == rows
  {
    if rows != [] {
      FilterKeepsAll(rows[1..], keep);
      assert [rows[0]] + rows[1..] == rows;
    }
  }

  /** A predicate that implies another keeps no more rows. */
  lemma {:induction false} FilterSubset<T(!new)>(rows: seq<T>, p: T -> bool, q: T -> bool)
    requires forall x :: x in rows && p(x) ==> q(x)
    ensures |Filter(rows, p)| <= |Filter(rows, q)|
  {
    if rows != [] {
      FilterSubset(rows[1..], p, q);
    }
  }

  // ---------------------------------------------------------------------
  // LIKE
  // ---------------------------------------------------------------------

  predicate IsWildcard(c: char) {
    c == '%' || c == '_'
  }

  predicate NoWildcards(t: string) {
    forall i :: 0 <= i < |t| ==> !IsWildcard(t[i])
  }

  /** `s LIKE p`: `%` matches any run of characters (also none), `_` exactly
      one character, every other pattern character itself. */
  function Like(s: string, p: string): bool
    decreases |s| + |p|
  {
    if p == [] then s == []
    else if p[0] == '%' then Like(s, p[1..]) || (s != [] && Like(s[1..], p))
    else s != [] && (p[0] == '_' || p[0] == s[0]) && Like(s[1..], p[1..])
  }

  /** `t` occurs in `s` starting at index `i`. */
  predicate OccursAt(s: string, t: string, i: nat) {
    i + |t| <= |s| && s[i..i + |t|] == t
  }

  /** `t` occurs in `s` as a contiguous run of characters. */
  predicate Contains(s: string, t: string) {
    exists i: nat | i <= |s| :: OccursAt(s, t, i)
  }

  /** A lone `%` matches every string. */
  lemma {:induction false} LikePercent(s: string)
    ensures Like(s, "%")
  {
    assert "%"[1..] == "";
    if s != [] {
      LikePercent(s[1..]);
    }
  }

  /** A wildcard-free `t` followed by `%` matches exactly the strings that start with `t`. */
  lemma {:induction false} LikePrefix(s: string, t: string)
    requires NoWildcards(t)
    ensures Like(s, t + "%") <==> (|t| <= |s| && s[..|t|] == t)
  {
    if t == [] {
      assert t + "%" == "%";
      LikePercent(s);
    } else {
      var p := t + "%";
      assert p[0] == t[0] && !IsWildcard(t[0]);
      assert p[1..] == t[1..] + "%";
      if s != [] {
        assert NoWildcards(t[1..]) by {
          forall i | 0 <= i < |t[1..]| ensures !IsWildcard(t[1..][i]) {
            assert t[1..][i] == t[i + 1];
          }
        }
        LikePrefix(s[1..], t[1..]);
        if |t| <= |s| {
          assert s[..|t|] == [s[0]] + s[1..][..|t| - 1];
          assert t == [t[0]] + t[1..];
        }
      }
    }
  }

  /** A leading `%` lets the rest of the pattern match any suffix. */
  lemma {:induction false} LikeLeadingPercent(s: string, q: string)
    ensures Like(s, "%" + q) <==> exists i :: 0 <= i <= |s| && Like(s[i..], q)
  {
    var p := "%" + q;
    assert p[0] == '%' && p[1..] == q;
    assert s[0..] == s;
    if s != [] {
      LikeLeadingPercent(s[1..], q);
      if Like(s, p) && !Like(s, q) {
        var j :| 0 <= j <= |s[1..]| && Like(s[1..][j..], q);
        assert s[1..][j..] == s[j + 1..];
      }
      if exists i :: 0 <= i <= |s| && Like(s[i..], q) {
        var i :| 0 <= i <= |s| && Like(s[i..], q);
        if i > 0 {
          assert s[1..][i - 1..] == s[i..];
        }
      }
    }
  }

  /** `s LIKE '%' || t || '%'` for a wildcard-free `t` is a substring test. */
  lemma SubstringPattern(s: string, t: string)
    requires NoWildcards(t)
    ensures Like(s, "%" + t + "%") <==> Contains(s, t)
  {
    assert "%" + t + "%" == "%" + (t + "%");
    LikeLeadingPercent(s, t + "%");
    forall i | 0 <= i <= |s|
      ensures Like(s[i..], t + "%") <==> OccursAt(s, t, i)
    {
      LikePrefix(s[i..], t);
      if i + |t| <= |s| {
        assert s[i..][..|t|] == s[i..i + |t|];
      }
    }
    if Contains(s, t) {
      var i: nat :| i <= |s| && OccursAt(s, t, i);
      assert 0 <= i <= |s| && Like(s[i..], t + "%");
    }
  }

  // ---------------------------------------------------------------------
  // BINARY collation
  // ---------------------------------------------------------------------

  /** `a < b` on text under the BINARY collation: code-point order, character
      by character, a proper prefix sorting first. */
  predicate TextBelow(a: string, b: string)
    decreases |a|
  {
    b != [] && (a == [] || a[0] < b[0] || (a[0] == b[0] && TextBelow(a[1..], b[1..])))
  }

  lemma {:induction false} TextBelowIrreflexive(a: string)
    ensures !TextBelow(a, a)
  {
    if a != [] {
      TextBelowIrreflexive(a[1..]);
    }
  }

  lemma {:induction false} TextBelowTransitive(a: string, b: string, c: string)
    requires TextBelow(a, b) && TextBelow(b, c)
    ensures TextBelow(a, c)
  {
    if a != [] && a[0] == b[0] && b[0] == c[0] {
      TextBelowTransitive(a[1..], b[1..], c[1..]);
    }
  }

  lemma {:induction false} TextBelowTotal(a: string, b: string)
    ensures a == b || TextBelow(a, b) || TextBelow(b, a)
  {
    if a != [] && b != [] && a[0] == b[0] {
      TextBelowTotal(a[1..], b[1..]);
      if a[1..] == b[1..] {
        assert a == [a[0]] + a[1..] && b == [b[0]] + b[1..];
      }
    }
  }

  // ---------------------------------------------------------------------
  // LIMIT / OFFSET
  // ---------------------------------------------------------------------

  /** `LIMIT limit OFFSET offset` over `rows`: a negative OFFSET counts as zero,
      a negative LIMIT sets no upper bound. */
  function Window<T(!new)>(rows: seq<T>, limit: int, offset: int): (r: seq<T>)
    ensures limit >= 0 ==> |r| <= limit
    ensures offset >= 0 && limit >= 0 ==>
      |r| == (if offset >= |rows| then 0 else if |rows| - offset < limit then |rows| - offset else limit)
    ensures offset >= 0 ==> forall k :: 0 <= k < |r| ==> offset + k < |rows| && r[k] == rows[offset + k]
    ensures forall x :: x in r ==> x in rows
    ensures offset < 0 ==>
      && |r| == (if 0 <= limit < |rows| then limit else |rows|)
      && forall k :: 0 <= k < |r| ==> r[k] == rows[k]
    ensures limit < 0 && 0 <= offset <= |rows| ==> r == rows[offset..]
    ensures limit < 0 && offset < 0 ==> r == rows
    ensures offset >= |rows| ==> r == []
  {
    var start := if offset <= 0 then 0 else if offset >= |rows| then |rows| else offset;
    var rest := rows[start..];
    if limit < 0 || limit >= |rest| then rest else rest[..limit]
  }
}
