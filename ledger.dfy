/** The transactions frame shared by the parser, the metrics and the dashboard:
    one record type and the column-wise sequence operations that the pandas
    calls of the application stand for (unique values, boolean-mask filtering,
    sort_values, sum). */
module Ledger {

  /** A calendar date, used only for ordering: a day number. */
  type Date = int

  /** One row of the transactions frame. `transactionType` stays a string:
      the code compares it with "BUY" and "SELL" and lets any other value
      through. */
  datatype Trade = Trade(date: Date, security: string, transactionType: string, amount: real)

  const BUY: string := "BUY"
  const SELL: string := "SELL"

  /** The outcome of an operation that raises on bad input. */
  datatype Result<T, E> = Ok(value: T) | Err(error: E)

  /** Python's abs on a number. */
  function Abs(x: real): (r: real)
    ensures r >= 0.0
    ensures r == x || r == -x
  {
    if x < 0.0 then -x else x
  }

  /** The `security` column. */
  function SecurityColumn(rows: seq<Trade>): seq<string>
  {
    seq(|rows|, i requires 0 <= i < |rows| => rows[i].security)
  }

  ghost predicate NoDuplicates<T>(s: seq<T>)
  {
    forall i, j :: 0 <= i < j < |s| ==> s[i] != s[j]
  }

  /** `s` is `t` with some elements left out, the rest kept in order. */
  ghost predicate SubsequenceOf<T>(s: seq<T>, t: seq<T>)
    decreases |t|
  {
    if s == [] then true
    else if t == [] then false
    else (s[|s| - 1] == t[|t| - 1] && SubsequenceOf(s[..|s| - 1], t[..|t| - 1]))
         || SubsequenceOf(s, t[..|t| - 1])
  }

  /** pandas' `unique()`: each value once, in order of first appearance. */
  function Distinct<T(==, !new)>(xs: seq<T>): (r: seq<T>)
    ensures forall x :: x in r <==> x in xs
    ensures NoDuplicates(r)
    ensures |r| <= |xs|
    ensures |r| == 0 <==> |xs| == 0
    ensures SubsequenceOf(r, xs)
  {
    if xs == [] then []
    else
      var d := Distinct(xs[..|xs| - 1]);
      var x := xs[|xs| - 1];
      assert (d + [x])[..|d + [x]| - 1] == d;
      if x in d then d else d + [x]
  }

  /** `x` occurs in `xs` at a point where `y` has not occurred yet. */
  ghost predicate AppearsBefore<T>(xs: seq<T>, x: T, y: T)
  {
    exists a :: 0 <= a < |xs| && xs[a] == x && y !in xs[..a + 1]
  }

  lemma AppearsBeforeSnoc<T>(init: seq<T>, t: T, x: T, y: T)
    requires AppearsBefore(init, x, y)
    ensures AppearsBefore(init + [t], x, y)
  {
    var a :| 0 <= a < |init| && init[a] == x && y !in init[..a + 1];
    assert (init + [t])[..a + 1] == init[..a + 1];
  }

  lemma AppearsBeforeNew<T>(init: seq<T>, x: T, y: T)
    requires x in init && y !in init
    ensures AppearsBefore(init + [y], x, y)
  {
    var a :| 0 <= a < |init| && init[a] == x;
    assert (init + [y])[..a + 1] == init[..a + 1];
    assert forall k :: 0 <= k < a + 1 ==> init[..a + 1][k] == init[k];
  }

  /** The values of `d` come in order of first appearance in `xs`. */
  ghost predicate InFirstAppearanceOrder<T>(xs: seq<T>, d: seq<T>)
  {
    forall i, j :: 0 <= i < j < |d| ==> AppearsBefore(xs, d[i], d[j])
  }

  lemma DistinctFirstAppearanceStep<T(!new)>(init: seq<T>, x: T)
    requires InFirstAppearanceOrder(init, Distinct(init))
    ensures InFirstAppearanceOrder(init + [x], Distinct(init + [x]))
  {
    var d0, d := Distinct(init), Distinct(init + [x]);
    DistinctSnoc(init, x);
    forall i, j | 0 <= i < j < |d|
      ensures AppearsBefore(init + [x], d[i], d[j])
    {
      assert d[i] == d0[i] && d0[i] in d0;
      if j < |d0| {
        assert d[j] == d0[j];
        AppearsBeforeSnoc(init, x, d0[i], d0[j]);
      } else {
        AppearsBeforeNew(init, d0[i], x);
      }
    }
  }

  /** `unique()` lists the values in order of first appearance: whenever one
      value precedes another, it occurs in the input before the other does. */
  lemma {:induction false} DistinctFirstAppearance<T(!new)>(xs: seq<T>)
    ensures InFirstAppearanceOrder(xs, Distinct(xs))
    decreases |xs|
  {
    if xs != [] {
      var init, x := xs[..|xs| - 1], xs[|xs| - 1];
      DistinctFirstAppearance(init);
      DistinctFirstAppearanceStep(init, x);
      assert xs == init + [x];
    }
  }

  /** The number of distinct values is the size of the set of values. */
  lemma {:induction false} DistinctCardinality<T(!new)>(xs: seq<T>)
    ensures |Distinct(xs)| == |set x | x in xs|
    decreases |xs|
  {
    if xs != [] {
      var init := xs[..|xs| - 1];
      var x := xs[|xs| - 1];
      DistinctCardinality(init);
      assert xs == init + [x];
      assert xs[..|xs| - 1] == init;
      var d := Distinct(init);
      if x in init {
        assert x in d;
        assert Distinct(xs) == d;
        assert (set y | y in xs) == (set y | y in init);
      } else {
        assert x !in d;
        assert Distinct(xs) == d + [x];
        assert (set y | y in xs) == (set y | y in init) + {x};
        assert x !in (set y | y in init);
      }
    }
  }

  /** Boolean-mask selection `s[p(s)]`: the elements that satisfy `p`,
      in their original order. */
  function Filter<T(!new)>(s: seq<T>, p: T -> bool): (r: seq<T>)
    ensures forall x :: multiset(r)[x] == if p(x) then multiset(s)[x] else 0
    ensures forall x :: x in r <==> x in s && p(x)
    ensures SubsequenceOf(r, s)
    ensures |r| <= |s|
  {
    if s == [] then []
    else
      var f := Filter(s[..|s| - 1], p);
      var x := s[|s| - 1];
      assert s == s[..|s| - 1] + [x];
      assert (f + [x])[..|f + [x]| - 1] == f;
      if p(x) then f + [x] else f
  }

  /** The rows of one security: `df[df['security'] == security]`. */
  function TradesOf(rows: seq<Trade>, security: string): (r: seq<Trade>)
    ensures forall t :: t in r <==> t in rows && t.security == security
    ensures SubsequenceOf(r, rows)
  {
    Filter(rows, (t: Trade) => t.security == security)
  }

  /** The entries of `required` that are not in `columns`, in the order of
      `required`: `[col for col in required if col not in columns]`. */
  function Missing(required: seq<string>, columns: seq<string>): (r: seq<string>)
    ensures forall c :: c in r <==> c in required && c !in columns
    ensures SubsequenceOf(r, required)
    ensures r == [] <==> forall c :: c in required ==> c in columns
  {
    Filter(required, (c: string) => c !in columns)
  }

  ghost predicate SortedBy<T>(s: seq<T>, key: T -> real)
  {
    forall i, j :: 0 <= i < j < |s| ==> key(s[i]) <= key(s[j])
  }

  function InsertBy<T>(x: T, s: seq<T>, key: T -> real): (r: seq<T>)
    ensures multiset(r) == multiset{x} + multiset(s)
    ensures |r| == |s| + 1
    ensures r[0] == x || (s != [] && r[0] == s[0])
  {
    if s == [] then [x]
    else if key(x) <= key(s[0]) then [x] + s
    else
      var rest := InsertBy(x, s[1..], key);
      assert s == [s[0]] + s[1..];
      assert multiset([s[0]] + rest) == multiset{s[0]} + multiset(rest);
      [s[0]] + rest
  }

  lemma {:induction false} InsertBySorted<T>(x: T, s: seq<T>, key: T -> real)
    requires SortedBy(s, key)
    ensures SortedBy(InsertBy(x, s, key), key)
    decreases |s|
  {
    if s != [] && key(x) > key(s[0]) {
      var rest := InsertBy(x, s[1..], key);
      InsertBySorted(x, s[1..], key);
      assert key(s[0]) <= key(rest[0]);
      var r := [s[0]] + rest;
      assert SortedBy(r, key) by {
        forall i, j | 0 <= i < j < |r|
          ensures key(r[i]) <= key(r[j])
        {
          assert r[j] == rest[j - 1];
          if i == 0 {
            assert key(rest[0]) <= key(rest[j - 1]);
          } else {
            assert r[i] == rest[i - 1];
          }
        }
      }
      assert InsertBy(x, s, key) == r;
    }
  }

  /** `sort_values`: ascending by `key`; elements with equal keys keep their
      input order. */
  function SortBy<T>(s: seq<T>, key: T -> real): (r: seq<T>)
    ensures multiset(r) == multiset(s)
    ensures SortedBy(r, key)
  {
    if s == [] then []
    else
      assert s == [s[0]] + s[1..];
      InsertBySorted(s[0], SortBy(s[1..], key), key);
      InsertBy(s[0], SortBy(s[1..], key), key)
  }

  /** `sum()` of `f` over a column. */
  function SumBy<T>(s: seq<T>, f: T -> real): real
  {
    if s == [] then 0.0 else f(s[0]) + SumBy(s[1..], f)
  }

  lemma {:induction false} SumByAppend<T>(a: seq<T>, b: seq<T>, f: T -> real)
    ensures SumBy(a + b, f) == SumBy(a, f) + SumBy(b, f)
    decreases |a|
  {
    if a == [] {
      assert a + b == b;
    } else {
      assert (a + b)[1..] == a[1..] + b;
      SumByAppend(a[1..], b, f);
    }
  }

  /** Taking one term out of a sum. */
  lemma SumByRemove<T>(b: seq<T>, j: nat, f: T -> real)
    requires j < |b|
    ensures SumBy(b, f) == f(b[j]) + SumBy(b[..j] + b[j + 1..], f)
  {
    var tail := [b[j]] + b[j + 1..];
    assert SumBy(tail, f) == f(b[j]) + SumBy(b[j + 1..], f) by {
      assert tail[1..] == b[j + 1..];
    }
    assert SumBy(b, f) == SumBy(b[..j], f) + SumBy(tail, f) by {
      assert b == b[..j] + tail;
      SumByAppend(b[..j], tail, f);
    }
    SumByAppend(b[..j], b[j + 1..], f);
  }

  lemma MultisetRemove<T>(b: seq<T>, j: nat)
    requires j < |b|
    ensures multiset(b[..j] + b[j + 1..]) == multiset(b) - multiset{b[j]}
  {
    assert b == b[..j] + [b[j]] + b[j + 1..];
  }

  /** A sum does not depend on the order of its terms. */
  lemma {:induction false} SumByPermutation<T>(a: seq<T>, b: seq<T>, f: T -> real)
    requires multiset(a) == multiset(b)
    ensures SumBy(a, f) == SumBy(b, f)
    decreases |a|
  {
    if a != [] {
      var x := a[0];
      assert x in multiset(b);
      var j :| 0 <= j < |b| && b[j] == x;
      MultisetRemove(b, j);
      assert a == [x] + a[1..];
      assert multiset(a[1..]) == multiset(a) - multiset{x};
      SumByPermutation(a[1..], b[..j] + b[j + 1..], f);
      SumByRemove(b, j, f);
    }
  }

  /** A sum of sums is the sum of the sums. */
  lemma {:induction false} SumBySplit<T>(s: seq<T>, f: T -> real, g: T -> real, h: T -> real)
    requires forall i :: 0 <= i < |s| ==> f(s[i]) == g(s[i]) + h(s[i])
    ensures SumBy(s, f) == SumBy(s, g) + SumBy(s, h)
    decreases |s|
  {
    if s != [] {
      SumBySplit(s[1..], f, g, h);
    }
  }

  /** Negating every term negates the sum. */
  lemma {:induction false} SumByNegated<T>(s: seq<T>, f: T -> real, g: T -> real)
    requires forall i :: 0 <= i < |s| ==> f(s[i]) == -g(s[i])
    ensures SumBy(s, f) == -SumBy(s, g)
    decreases |s|
  {
    if s != [] {
      SumByNegated(s[1..], f, g);
    }
  }

  /** `f` where `p` holds and zero elsewhere. */
  function Where<T>(p: T -> bool, f: T -> real): T -> real
  {
    (x: T) => if p(x) then f(x) else 0.0
  }

  /** Summing `f` over the rows `p` selects is summing `f` where `p` holds,
      and zero elsewhere, over all rows. */
  lemma {:induction false} SumByFilter<T(!new)>(s: seq<T>, p: T -> bool, f: T -> real)
    ensures SumBy(Filter(s, p), f) == SumBy(s, Where(p, f))
    decreases |s|
  {
    if s != [] {
      var init, x := s[..|s| - 1], s[|s| - 1];
      var w := Where(p, f);
      assert SumBy(s, w) == SumBy(init, w) + w(x) by {
        assert s == init + [x];
        SumByAppend(init, [x], w);
      }
      assert SumBy(Filter(s, p), f) == SumBy(Filter(init, p), f) + w(x) by {
        if p(x) {
          assert Filter(s, p) == Filter(init, p) + [x];
          SumByAppend(Filter(init, p), [x], f);
        } else {
          assert Filter(s, p) == Filter(init, p);
        }
      }
      SumByFilter(init, p, f);
    }
  }

  /** A row added at the end joins its own security's rows, at the end,
      and no other security's. */
  lemma TradesOfSnoc(init: seq<Trade>, t: Trade, security: string)
    ensures TradesOf(init + [t], security) == if t.security == security then TradesOf(init, security) + [t] else TradesOf(init, security)
  {
    assert (init + [t])[..|init|] == init;
  }

  lemma TradesOfAbsent(rows: seq<Trade>, security: string)
    requires security !in SecurityColumn(rows)
    ensures TradesOf(rows, security) == []
  {
    forall i | 0 <= i < |rows|
      ensures rows[i].security != security
    {
      assert SecurityColumn(rows)[i] == rows[i].security;
    }
    var r := TradesOf(rows, security);
    assert forall t :: t in r ==> t in rows && t.security == security;
  }

  lemma DistinctSnoc<T(!new)>(xs: seq<T>, x: T)
    ensures Distinct(xs + [x]) == if x in Distinct(xs) then Distinct(xs) else Distinct(xs) + [x]
  {
    assert (xs + [x])[..|xs|] == xs;
  }

  /** The last row joins its own security's group and no other. */
  lemma GroupSizeStep(rows: seq<Trade>, s: string)
    requires rows != []
    ensures |TradesOf(rows, s)| == |TradesOf(rows[..|rows| - 1], s)| + (if s == rows[|rows| - 1].security then 1 else 0)
  {
    assert rows == rows[..|rows| - 1] + [rows[|rows| - 1]];
    TradesOfSnoc(rows[..|rows| - 1], rows[|rows| - 1], s);
  }

  /** The last row's security is a new distinct security unless it was seen. */
  lemma DistinctColumnStep(rows: seq<Trade>)
    requires rows != []
    ensures var d, x := Distinct(SecurityColumn(rows[..|rows| - 1])), rows[|rows| - 1].security;
      Distinct(SecurityColumn(rows)) == if x in d then d else d + [x]
  {
    var init, t := rows[..|rows| - 1], rows[|rows| - 1];
    assert SecurityColumn(rows) == SecurityColumn(init) + [t.security];
    DistinctSnoc(SecurityColumn(init), t.security);
  }

  /** The sizes of the groups of `keys`, added up. */
  function GroupTotal(rows: seq<Trade>, keys: seq<string>): nat
  {
    if keys == [] then 0 else |TradesOf(rows, keys[0])| + GroupTotal(rows, keys[1..])
  }

  /** A last row raises the group total of distinct keys by one if its
      security is among them, and leaves it alone otherwise. */
  lemma {:induction false} GroupTotalStep(rows: seq<Trade>, keys: seq<string>)
    requires rows != [] && NoDuplicates(keys)
    ensures var k := rows[|rows| - 1].security;
      GroupTotal(rows, keys) == GroupTotal(rows[..|rows| - 1], keys) + (if k in keys then 1 else 0)
    decreases |keys|
  {
    if keys != [] {
      var k := rows[|rows| - 1].security;
      GroupTotalStep(rows, keys[1..]);
      GroupSizeStep(rows, keys[0]);
      assert keys[0] == k ==> k !in keys[1..];
      assert k in keys <==> keys[0] == k || k in keys[1..];
    }
  }

  lemma {:induction false} GroupTotalAppend(rows: seq<Trade>, keys: seq<string>, k: string)
    ensures GroupTotal(rows, keys + [k]) == GroupTotal(rows, keys) + |TradesOf(rows, k)|
    decreases |keys|
  {
    if keys == [] {
      assert keys + [k] == [k];
      assert [k][1..] == [];
    } else {
      assert (keys + [k])[1..] == keys[1..] + [k];
      GroupTotalAppend(rows, keys[1..], k);
    }
  }

  /** Grouping by security partitions the rows: the group sizes of the
      distinct securities add up to the number of rows. */
  lemma {:induction false} GroupsPartitionRows(rows: seq<Trade>)
    ensures GroupTotal(rows, Distinct(SecurityColumn(rows))) == |rows|
    decreases |rows|
  {
    if rows != [] {
      var init, t := rows[..|rows| - 1], rows[|rows| - 1];
      var d := Distinct(SecurityColumn(init));
      DistinctColumnStep(rows);
      GroupsPartitionRows(init);
      GroupTotalStep(rows, d);
      if t.security !in d {
        GroupTotalAppend(rows, d, t.security);
        GroupSizeStep(rows, t.security);
        TradesOfAbsent(init, t.security);
      }
    }
  }
}
