/** `DataFrame.nlargest(n, column)` with its default `keep='first'`: the `n`
    rows with the largest values in the column, in decreasing order of the
    value; among equal values the row that comes first in the table is
    taken first. The selection works on row positions, so that ties are
    resolved by position. */
module Ranking {
  import opened Records

  /** Row `i` is ranked no later than row `j`: a larger value, or an equal
      value and an earlier (or the same) position. This is a total order on
      the positions of `keys`. */
  predicate Precedes(keys: seq<real>, i: nat, j: nat)
  {
    i < |keys| && j < |keys| && (keys[i] > keys[j] || (keys[i] == keys[j] && i <= j))
  }

  /** Every candidate is a position of `keys`. */
  predicate InRange(keys: seq<real>, cand: seq<nat>)
  {
    forall k :: 0 <= k < |cand| ==> cand[k] < |keys|
  }

  predicate Distinct(s: seq<nat>)
  {
    forall a, b :: 0 <= a < b < |s| ==> s[a] != s[b]
  }

  /** The positions 0, 1, ..., n - 1. */
  function Positions(n: nat): (r: seq<nat>)
    ensures |r| == n
    ensures forall k :: 0 <= k < n ==> r[k] == k
  {
    seq(n, k => k)
  }

  /** The place, among the candidates, of the one ranked first. */
  function ArgBest(keys: seq<real>, cand: seq<nat>): (p: nat)
    requires |cand| > 0 && InRange(keys, cand)
    ensures p < |cand|
    ensures forall q :: 0 <= q < |cand| ==> Precedes(keys, cand[p], cand[q])
  {
    if |cand| == 1 then 0
    else
      var p' := ArgBest(keys, cand[1..]);
      if Precedes(keys, cand[0], cand[1 + p']) then 0 else 1 + p'
  }

  /** The candidates without the one at place `p`. */
  function Without(cand: seq<nat>, p: nat): (rest: seq<nat>)
    requires p < |cand|
    ensures |rest| == |cand| - 1
    ensures forall x :: x in rest ==> x in cand
    ensures forall x :: x in cand && x != cand[p] ==> x in rest
    ensures Distinct(cand) ==> Distinct(rest) && cand[p] !in rest
  {
    var rest := cand[..p] + cand[p + 1..];
    assert forall k :: 0 <= k < |rest| ==> rest[k] == if k < p then cand[k] else cand[k + 1];
    assert forall x :: x in cand && x != cand[p] ==> x in rest by {
      forall x | x in cand && x != cand[p] ensures x in rest {
        var k :| 0 <= k < |cand| && cand[k] == x;
        if k < p { assert rest[k] == x; } else { assert rest[k - 1] == x; }
      }
    }
    rest
  }

  /** Repeatedly take the first-ranked candidate, at most `n` times. */
  function Select(keys: seq<real>, n: nat, cand: seq<nat>): (r: seq<nat>)
    requires InRange(keys, cand)
    ensures InRange(keys, r)
    decreases n
  {
    if n == 0 || |cand| == 0 then []
    else
      var p := ArgBest(keys, cand);
      [cand[p]] + Select(keys, n - 1, Without(cand, p))
  }

  /** What the selection promises: as many positions as asked for (or all of
      them), taken from the candidates, ranked in order, and every candidate
      left out ranked after every one taken. */
  lemma {:induction false} SelectSpec(keys: seq<real>, n: nat, cand: seq<nat>)
    requires InRange(keys, cand)
    ensures var r := Select(keys, n, cand);
            && |r| == (if n < |cand| then n else |cand|)
            && (forall x :: x in r ==> x in cand)
            && (forall a, b :: 0 <= a < b < |r| ==> Precedes(keys, r[a], r[b]))
            && (forall a, x :: 0 <= a < |r| && x in cand && x !in r ==> Precedes(keys, r[a], x))
            && (Distinct(cand) ==> Distinct(r))
    decreases n
  {
    if n != 0 && |cand| != 0 {
      var p := ArgBest(keys, cand);
      var rest := Without(cand, p);
      SelectSpec(keys, n - 1, rest);
      var r := Select(keys, n, cand);
      var r' := Select(keys, n - 1, rest);
      assert r == [cand[p]] + r';
      forall a, b | 0 <= a < b < |r| ensures Precedes(keys, r[a], r[b]) {
        if a == 0 {
          assert r[b] == r'[b - 1] && r'[b - 1] in rest;
        }
      }
      forall a, x | 0 <= a < |r| && x in cand && x !in r ensures Precedes(keys, r[a], x) {
        if a > 0 {
          assert r[a] == r'[a - 1];
        }
      }
    }
  }

  /** The positions `nlargest(n, ...)` returns for a column `keys`. */
  function NLargestPositions(n: nat, keys: seq<real>): (r: seq<nat>)
    ensures |r| == (if n < |keys| then n else |keys|)
    ensures forall k :: 0 <= k < |r| ==> r[k] < |keys|
    ensures Distinct(r)
    ensures forall a, b :: 0 <= a < b < |r| ==> keys[r[a]] >= keys[r[b]]
    ensures forall a, b :: 0 <= a < b < |r| && keys[r[a]] == keys[r[b]] ==> r[a] < r[b]
    ensures forall j, a :: 0 <= j < |keys| && j !in r && 0 <= a < |r| ==> Precedes(keys, r[a], j)
  {
    var all := Positions(|keys|);
    assert InRange(keys, all);
    SelectSpec(keys, n, all);
    var r := Select(keys, n, all);
    assert forall k :: 0 <= k < |r| ==> r[k] in r;
    assert forall j :: 0 <= j < |keys| ==> j in all by {
      forall j | 0 <= j < |keys| ensures j in all { assert all[j] == j; }
    }
    r
  }

  /** The rows at the given positions, in the order of the positions. */
  function Pick(rows: seq<Record>, pos: seq<nat>): (r: seq<Record>)
    requires forall k :: 0 <= k < |pos| ==> pos[k] < |rows|
    ensures |r| == |pos|
    ensures forall k :: 0 <= k < |pos| ==> r[k] == rows[pos[k]]
  {
    seq(|pos|, k requires 0 <= k < |pos| => rows[pos[k]])
  }

  /** `rows.nlargest(n, c)` on a table that carries the KPI columns. */
  function NLargest(n: nat, rows: seq<Record>, c: KpiColumn): (top: seq<Record>)
    requires HasKpi(rows)
    ensures |top| == (if n < |rows| then n else |rows|)
    ensures HasKpi(top)
    ensures forall a, b :: 0 <= a < b < |top| ==>
              KpiValue(top[a].kpi.value, c) >= KpiValue(top[b].kpi.value, c)
    ensures forall k :: 0 <= k < |top| ==> top[k] in rows
  {
    var pos := NLargestPositions(n, Column(rows, c));
    Pick(rows, pos)
  }

  /** No row left out of `nlargest(n, c)` has a value above the smallest one
      taken; one left out with an equal value comes later in the table than
      every row taken with that value. */
  lemma NLargestExcludesSmaller(n: nat, rows: seq<Record>, c: KpiColumn, j: nat)
    requires HasKpi(rows) && 0 < n && j < |rows|
    requires NLargest(n, rows, c) != []
    ensures var pos := NLargestPositions(n, Column(rows, c));
            var top := NLargest(n, rows, c);
            j !in pos ==>
              && KpiValue(rows[j].kpi.value, c) <= KpiValue(top[|top| - 1].kpi.value, c)
              && forall k :: 0 <= k < |top| && KpiValue(top[k].kpi.value, c) == KpiValue(rows[j].kpi.value, c)
                   ==> pos[k] < j
  {
    var keys := Column(rows, c);
    var pos := NLargestPositions(n, keys);
    if j !in pos {
      assert Precedes(keys, pos[|pos| - 1], j);
      forall k | 0 <= k < |pos| ensures Precedes(keys, pos[k], j) {}
    }
  }

  /** The rows `nlargest` returns occur in the table at least as often as in
      the result: it never returns a row twice unless the table holds it twice. */
  lemma NLargestIsSubmultiset(n: nat, rows: seq<Record>, c: KpiColumn)
    requires HasKpi(rows)
    ensures multiset(NLargest(n, rows, c)) <= multiset(rows)
  {
    var keys := Column(rows, c);
    var all := Positions(|rows|);
    assert InRange(keys, all);
    SelectPicksSubmultiset(rows, keys, n, all);
    assert Pick(rows, all) == rows;
  }

  /** The rows at the selected positions are a sub-multiset of the rows at
      the candidate positions. */
  lemma {:induction false} SelectPicksSubmultiset(rows: seq<Record>, keys: seq<real>, n: nat, cand: seq<nat>)
    requires |keys| == |rows| && InRange(keys, cand)
    ensures multiset(Pick(rows, Select(keys, n, cand))) <= multiset(Pick(rows, cand))
    decreases n
  {
    if n != 0 && |cand| != 0 {
      var p := ArgBest(keys, cand);
      var rest := Without(cand, p);
      var r, r' := Select(keys, n, cand), Select(keys, n - 1, rest);
      assert r == [cand[p]] + r';
      var picked, picked' := Pick(rows, r), Pick(rows, r');
      assert picked == [rows[cand[p]]] + picked';
      assert multiset(picked) == multiset{rows[cand[p]]} + multiset(picked');
      SelectPicksSubmultiset(rows, keys, n - 1, rest);
      PickWithout(rows, cand, p);
    }
  }

  /** Removing one candidate removes its row from the picked rows. */
  lemma PickWithout(rows: seq<Record>, cand: seq<nat>, p: nat)
    requires p < |cand| && forall k :: 0 <= k < |cand| ==> cand[k] < |rows|
    ensures multiset(Pick(rows, cand)) == multiset(Pick(rows, Without(cand, p))) + multiset{rows[cand[p]]}
  {
    var before, after := cand[..p], cand[p + 1..];
    assert cand == before + [cand[p]] + after;
    assert Without(cand, p) == before + after;
    assert Pick(rows, cand) == Pick(rows, before) + [rows[cand[p]]] + Pick(rows, after);
    assert Pick(rows, Without(cand, p)) == Pick(rows, before) + Pick(rows, after);
  }
}
