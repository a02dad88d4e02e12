/** Sequence helpers shared by the shop model: the row filter behind every
    `WHERE`/`.eq(...)` clause, the `SUM` aggregate, and the ordering behind
    every `ORDER BY` / `.order(...)` clause. */
module Seqs {

  /** A value that may be SQL `NULL` / Python `None`. */
  datatype Option<T> = None | Some(value: T)

  /** Rows of `s` for which `keep` holds, in their original order. */
  function Filter<T(!new)>(s: seq<T>, keep: T -> bool): (r: seq<T>)
    ensures |r| <= |s|
    ensures forall x :: x in r <==> x in s && keep(x)
  {
    if s == [] then []
    else
      assert s == [s[0]] + s[1..];
      (if keep(s[0]) then [s[0]] else []) + Filter(s[1..], keep)
  }

  /** A filter keeps every selected row as often as `s` holds it, and no other row. */
  lemma {:induction false} FilterMultiplicity<T(!new)>(s: seq<T>, keep: T -> bool)
    ensures forall x :: multiset(Filter(s, keep))[x] == if keep(x) then multiset(s)[x] else 0
  {
    if s != [] {
      FilterMultiplicity(s[1..], keep);
      assert s == [s[0]] + s[1..];
    }
  }

  /** The positions of `s` whose row `keep` selects. */
  ghost function Positions<T>(s: seq<T>, keep: T -> bool): set<int>
  {
    set i | 0 <= i < |s| && keep(s[i])
  }

  /** Appending a row adds its position exactly when `keep` selects it. */
  lemma PositionsAppendOne<T>(front: seq<T>, x: T, keep: T -> bool)
    ensures Positions(front + [x], keep) ==
              Positions(front, keep) + (if keep(x) then {|front|} else {})
  {
    var s := front + [x];
    forall i | 0 <= i < |front| ensures s[i] == front[i] {
    }
  }

  /** A filter returns one row per selected position. */
  lemma {:induction false} FilterCountsPositions<T(!new)>(s: seq<T>, keep: T -> bool)
    ensures |Filter(s, keep)| == |Positions(s, keep)|
  {
    if s != [] {
      var front, x := s[..|s| - 1], s[|s| - 1];
      assert s == front + [x];
      FilterCountsPositions(front, keep);
      FilterAppend(front, [x], keep);
      assert |Filter([x], keep)| == (if keep(x) then 1 else 0) by {
        assert [x][1..] == [];
      }
      PositionsAppendOne(front, x, keep);
      assert |front| !in Positions(front, keep);
    }
  }

  /** Two filters that agree on every row of `s` select the same rows. */
  lemma {:induction false} FilterCongruent<T(!new)>(s: seq<T>, f: T -> bool, g: T -> bool)
    requires forall x :: x in s ==> f(x) == g(x)
    ensures Filter(s, f) == Filter(s, g)
  {
    if s != [] {
      FilterCongruent(s[1..], f, g);
    }
  }

  /** A filter that keeps every row of `s` returns `s` itself. */
  lemma {:induction false} FilterKeepsAll<T(!new)>(s: seq<T>, keep: T -> bool)
    requires forall x :: x in s ==> keep(x)
    ensures Filter(s, keep) == s
  {
    if s != [] {
      FilterKeepsAll(s[1..], keep);
      assert s == [s[0]] + s[1..];
    }
  }

  /** Filtering distributes over concatenation. */
  lemma {:induction false} FilterAppend<T(!new)>(s: seq<T>, t: seq<T>, keep: T -> bool)
    ensures Filter(s + t, keep) == Filter(s, keep) + Filter(t, keep)
  {
    if s == [] {
      assert s + t == t;
    } else {
      assert (s + t)[1..] == s[1..] + t;
      FilterAppend(s[1..], t, keep);
    }
  }

  /** A filter that rejects exactly one element drops just that element. */
  lemma {:induction false} FilterDropsOne<T(!new)>(front: seq<T>, x: T, back: seq<T>, keep: T -> bool)
    requires forall y :: y in front ==> keep(y)
    requires forall y :: y in back ==> keep(y)
    requires !keep(x)
    ensures Filter(front + [x] + back, keep) == front + back
  {
    assert Filter([x], keep) == [] by {
      assert [x][1..] == [];
    }
    calc {
      Filter(front + [x] + back, keep);
      == { FilterAppend(front + [x], back, keep); }
      Filter(front + [x], keep) + Filter(back, keep);
      == { FilterAppend(front, [x], keep); }
      Filter(front, keep) + Filter([x], keep) + Filter(back, keep);
      == { FilterKeepsAll(front, keep); FilterKeepsAll(back, keep); }
      front + [] + back;
    }
    assert front + [] + back == front + back;
  }

  /** Sum of a sequence of amounts (the `SUM` aggregate on a non-empty column). */
  function Sum(xs: seq<int>): int
  {
    if xs == [] then 0 else xs[0] + Sum(xs[1..])
  }

  /** When every amount equals `p`, the sum is `p` times the number of amounts. */
  lemma {:induction false} SumOfConstant(xs: seq<int>, p: int)
    requires forall i :: 0 <= i < |xs| ==> xs[i] == p
    ensures Sum(xs) == p * |xs|
  {
    if xs != [] {
      SumOfConstant(xs[1..], p);
      assert p * |xs| == p + p * (|xs| - 1);
    }
  }

  /** `le` is total and transitive: every pair is comparable and order chains compose. */
  ghost predicate TotalPreorder<T(!new)>(le: (T, T) -> bool)
  {
    (forall a, b :: le(a, b) || le(b, a)) &&
    (forall a, b, c :: le(a, b) && le(b, c) ==> le(a, c))
  }

  /** Every earlier element of `s` stands in relation `le` to every later one. */
  predicate SortedBy<T(!new)>(s: seq<T>, le: (T, T) -> bool)
  {
    forall i, j :: 0 <= i < j < |s| ==> le(s[i], s[j])
  }

  /** Keeping only some rows of a sorted sequence keeps it sorted. */
  lemma {:induction false} FilterKeepsSorted<T(!new)>(s: seq<T>, keep: T -> bool, le: (T, T) -> bool)
    requires SortedBy(s, le)
    ensures SortedBy(Filter(s, keep), le)
  {
    if s != [] {
      var rest := Filter(s[1..], keep);
      FilterKeepsSorted(s[1..], keep, le);
      if keep(s[0]) {
        var r := [s[0]] + rest;
        forall i, j | 0 <= i < j < |r| ensures le(r[i], r[j]) {
          if i == 0 {
            assert r[j] in s[1..];
            var k :| 0 <= k < |s[1..]| && s[1..][k] == r[j];
            assert s[k + 1] == r[j];
          } else {
            assert r[i] == rest[i - 1] && r[j] == rest[j - 1];
          }
        }
      } else {
        assert Filter(s, keep) == rest;
      }
    }
  }

  /** Inserts `x` in front of the first element it is `le` to. */
  function InsertBy<T(!new)>(x: T, s: seq<T>, le: (T, T) -> bool): (r: seq<T>)
    ensures multiset(r) == multiset(s) + multiset{x}
  {
    if s == [] || le(x, s[0]) then [x] + s
    else
      assert s == [s[0]] + s[1..];
      [s[0]] + InsertBy(x, s[1..], le)
  }

  /** Insertion sort of `s` under `le`; stands for the store's `ORDER BY`. */
  function SortBy<T(!new)>(s: seq<T>, le: (T, T) -> bool): (r: seq<T>)
    ensures multiset(r) == multiset(s)
    ensures |r| == |s|
  {
    if s == [] then []
    else
      assert s == [s[0]] + s[1..];
      InsertBy(s[0], SortBy(s[1..], le), le)
  }

  lemma {:induction false} InsertBySorted<T(!new)>(x: T, s: seq<T>, le: (T, T) -> bool)
    requires TotalPreorder(le)
    requires SortedBy(s, le)
    ensures SortedBy(InsertBy(x, s, le), le)
  {
    var r := InsertBy(x, s, le);
    if s == [] {
    } else if le(x, s[0]) {
      forall i, j | 0 <= i < j < |r| ensures le(r[i], r[j]) {
        if i == 0 && j > 1 {
          assert le(s[0], s[j - 1]);
        }
      }
    } else {
      var rest := InsertBy(x, s[1..], le);
      InsertBySorted(x, s[1..], le);
      assert le(s[0], x);
      forall i, j | 0 <= i < j < |r| ensures le(r[i], r[j]) {
        if i == 0 {
          var y := rest[j - 1];
          assert y in multiset(rest);
          if y != x {
            assert y in multiset(s[1..]);
            var k :| 0 <= k < |s[1..]| && s[1..][k] == y;
            assert s[k + 1] == y;
          }
        } else {
          assert r[i] == rest[i - 1] && r[j] == rest[j - 1];
        }
      }
    }
  }

  lemma {:induction false} SortBySorted<T(!new)>(s: seq<T>, le: (T, T) -> bool)
    requires TotalPreorder(le)
    ensures SortedBy(SortBy(s, le), le)
  {
    if s != [] {
      SortBySorted(s[1..], le);
      InsertBySorted(s[0], SortBy(s[1..], le), le);
    }
  }
}
