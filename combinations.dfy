/*
 * The coordinate combinations VariableSelector enumerates: every way of picking
 * one value from each selectable dimension, first dimension outermost.
 *
 * `Combinations` follows allCoordCombinations / coordCombinationsHelper (extend
 * every combination so far by each value of the next dimension); `Tuples` is
 * the independent head-first reference definition, and the lemmas below prove
 * the two equal and state what the combinations are.
 */
module Combinations {
  import opened Dimensions

  type Combination = seq<string>

  /** `a` followed by each member of `bs` in turn. */
  function Row(a: Combination, bs: seq<Combination>): (r: seq<Combination>)
    ensures |r| == |bs| && forall j :: 0 <= j < |bs| ==> r[j] == a + bs[j]
  {
    seq(|bs|, j requires 0 <= j < |bs| => a + bs[j])
  }

  /** Every member of `heads` extended by every member of `tails`, `heads` outermost. */
  function Cross(heads: seq<Combination>, tails: seq<Combination>): seq<Combination>
  {
    if |heads| == 0 then [] else Row(heads[0], tails) + Cross(heads[1..], tails)
  }

  /** One one-value combination per value. */
  function Singles(values: seq<string>): (r: seq<Combination>)
    ensures |r| == |values| && forall j :: 0 <= j < |values| ==> r[j] == [values[j]]
  {
    seq(|values|, j requires 0 <= j < |values| => [values[j]])
  }

  /** The value lists of the dimensions, in order. */
  function ValueLists(dims: seq<Dimension>): (r: seq<seq<string>>)
    ensures |r| == |dims| && forall i :: 0 <= i < |dims| ==> r[i] == dims[i].values
  {
    seq(|dims|, i requires 0 <= i < |dims| => dims[i].values)
  }

  /** coordCombinationsHelper: extend by each remaining dimension in turn. */
  function CombinationsHelper(remaining: seq<Dimension>, combos: seq<Combination>): seq<Combination>
    decreases |remaining|
  {
    if |remaining| == 0 then combos
    else CombinationsHelper(remaining[1..], Cross(combos, Singles(remaining[0].values)))
  }

  /** allCoordCombinations: no dimensions give no combinations at all. */
  function Combinations(dims: seq<Dimension>): seq<Combination>
  {
    if |dims| == 0 then [] else CombinationsHelper(dims[1..], Singles(dims[0].values))
  }

  /** The reference: all tuples, first position outermost; one empty tuple for no lists. */
  function Tuples(lists: seq<seq<string>>): seq<Combination>
  {
    if |lists| == 0 then [[]] else Cross(Singles(lists[0]), Tuples(lists[1..]))
  }

  /** The number of tuples: the product of the list lengths. */
  function Product(lists: seq<seq<string>>): nat
  {
    if |lists| == 0 then 1 else |lists[0]| * Product(lists[1..])
  }

  // ---------------------------------------------------------------------------
  // Algebra of Cross
  // ---------------------------------------------------------------------------

  lemma {:induction false} RowConcat(a: Combination, xs: seq<Combination>, ys: seq<Combination>)
    ensures Row(a, xs + ys) == Row(a, xs) + Row(a, ys)
  {
  }

  lemma {:induction false} RowRow(c: Combination, s: Combination, ts: seq<Combination>)
    ensures Row(c, Row(s, ts)) == Row(c + s, ts)
  {
    forall j | 0 <= j < |ts|
      ensures Row(c, Row(s, ts))[j] == Row(c + s, ts)[j]
    {
      assert c + (s + ts[j]) == (c + s) + ts[j];
    }
  }

  lemma {:induction false} CrossConcat(xs: seq<Combination>, ys: seq<Combination>, ts: seq<Combination>)
    ensures Cross(xs + ys, ts) == Cross(xs, ts) + Cross(ys, ts)
    decreases |xs|
  {
    if |xs| == 0 {
      assert xs + ys == ys;
    } else {
      assert (xs + ys)[0] == xs[0] && (xs + ys)[1..] == xs[1..] + ys;
      CrossConcat(xs[1..], ys, ts);
    }
  }

  lemma {:induction false} CrossRow(c: Combination, ss: seq<Combination>, ts: seq<Combination>)
    ensures Cross(Row(c, ss), ts) == Row(c, Cross(ss, ts))
    decreases |ss|
  {
    if |ss| > 0 {
      var r := Row(c, ss);
      assert r[0] == c + ss[0] && r[1..] == Row(c, ss[1..]);
      CrossRow(c, ss[1..], ts);
      calc {
        Cross(r, ts);
        Row(c + ss[0], ts) + Cross(Row(c, ss[1..]), ts);
        Row(c + ss[0], ts) + Row(c, Cross(ss[1..], ts));
        { RowRow(c, ss[0], ts); }
        Row(c, Row(ss[0], ts)) + Row(c, Cross(ss[1..], ts));
        { RowConcat(c, Row(ss[0], ts), Cross(ss[1..], ts)); }
        Row(c, Cross(ss, ts));
      }
    }
  }

  lemma {:induction false} CrossAssoc(cs: seq<Combination>, ss: seq<Combination>, ts: seq<Combination>)
    ensures Cross(Cross(cs, ss), ts) == Cross(cs, Cross(ss, ts))
    decreases |cs|
  {
    if |cs| > 0 {
      calc {
        Cross(Cross(cs, ss), ts);
        Cross(Row(cs[0], ss) + Cross(cs[1..], ss), ts);
        { CrossConcat(Row(cs[0], ss), Cross(cs[1..], ss), ts); }
        Cross(Row(cs[0], ss), ts) + Cross(Cross(cs[1..], ss), ts);
        { CrossRow(cs[0], ss, ts); CrossAssoc(cs[1..], ss, ts); }
        Row(cs[0], Cross(ss, ts)) + Cross(cs[1..], Cross(ss, ts));
      }
    }
  }

  lemma {:induction false} CrossUnit(cs: seq<Combination>)
    ensures Cross(cs, [[]]) == cs
    decreases |cs|
  {
    if |cs| > 0 {
      CrossUnit(cs[1..]);
      assert cs[0] + [] == cs[0];
      assert Row(cs[0], [[]]) == [cs[0]];
    }
  }

  lemma {:induction false} CrossLength(ss: seq<Combination>, ts: seq<Combination>)
    ensures |Cross(ss, ts)| == |ss| * |ts|
    decreases |ss|
  {
    if |ss| > 0 {
      CrossLength(ss[1..], ts);
      assert |ss| * |ts| == |ts| + (|ss| - 1) * |ts|;
    }
  }

  /** Entry i * |ts| + j pairs the i-th of `ss` with the j-th of `ts`. */
  lemma {:induction false} CrossIndex(ss: seq<Combination>, ts: seq<Combination>, i: nat, j: nat)
    requires i < |ss| && j < |ts|
    ensures i * |ts| + j < |Cross(ss, ts)| && Cross(ss, ts)[i * |ts| + j] == ss[i] + ts[j]
    decreases i
  {
    var n := |ts|;
    var r := Row(ss[0], ts);
    var rest := Cross(ss[1..], ts);
    assert Cross(ss, ts) == r + rest;
    if i == 0 {
      assert Cross(ss, ts)[j] == r[j];
    } else {
      CrossIndex(ss[1..], ts, i - 1, j);
      var k := (i - 1) * n + j;
      assert k < |rest| && rest[k] == ss[i] + ts[j];
      MulStep(i, n);
      assert i * n + j == n + k;
      assert Cross(ss, ts)[n + k] == rest[k];
    }
  }

  lemma {:induction false} MulStep(i: nat, n: nat)
    requires i > 0
    ensures i * n == n + (i - 1) * n
  {
  }

  lemma {:induction false} CrossMember(ss: seq<Combination>, ts: seq<Combination>, u: Combination)
    ensures u in Cross(ss, ts) <==> exists i, j :: 0 <= i < |ss| && 0 <= j < |ts| && u == ss[i] + ts[j]
    decreases |ss|
  {
    if |ss| > 0 {
      CrossMember(ss[1..], ts, u);
      if u in Cross(ss, ts) {
        if u in Row(ss[0], ts) {
          var j :| 0 <= j < |ts| && Row(ss[0], ts)[j] == u;
          assert u == ss[0] + ts[j];
        } else {
          assert u in Cross(ss[1..], ts);
          var i, j :| 0 <= i < |ss| - 1 && 0 <= j < |ts| && u == ss[1..][i] + ts[j];
          assert u == ss[i + 1] + ts[j];
        }
      }
      if exists i, j :: 0 <= i < |ss| && 0 <= j < |ts| && u == ss[i] + ts[j] {
        var i, j :| 0 <= i < |ss| && 0 <= j < |ts| && u == ss[i] + ts[j];
        if i == 0 {
          assert Row(ss[0], ts)[j] == u;
        } else {
          assert u == ss[1..][i - 1] + ts[j];
        }
      }
    }
  }

  // ---------------------------------------------------------------------------
  // What the combinations are
  // ---------------------------------------------------------------------------

  lemma {:induction false} HelperIsCross(remaining: seq<Dimension>, combos: seq<Combination>)
    ensures CombinationsHelper(remaining, combos) == Cross(combos, Tuples(ValueLists(remaining)))
    decreases |remaining|
  {
    if |remaining| == 0 {
      CrossUnit(combos);
    } else {
      var lists := ValueLists(remaining);
      assert lists[0] == remaining[0].values && lists[1..] == ValueLists(remaining[1..]);
      HelperIsCross(remaining[1..], Cross(combos, Singles(remaining[0].values)));
      CrossAssoc(combos, Singles(remaining[0].values), Tuples(lists[1..]));
    }
  }

  /**
   * For at least one dimension, the Java enumeration builds exactly the tuples of the
   * dimensions' value lists; for none it builds an empty list, not one empty tuple.
   */
  lemma {:induction false} CombinationsAreTuples(dims: seq<Dimension>)
    ensures |dims| == 0 ==> Combinations(dims) == [] && Tuples(ValueLists(dims)) == [[]]
    ensures |dims| > 0 ==> Combinations(dims) == Tuples(ValueLists(dims))
  {
    if |dims| > 0 {
      var lists := ValueLists(dims);
      assert lists[0] == dims[0].values && lists[1..] == ValueLists(dims[1..]);
      HelperIsCross(dims[1..], Singles(dims[0].values));
    }
  }

  /** As many tuples as the product of the list lengths. */
  lemma {:induction false} TuplesCount(lists: seq<seq<string>>)
    ensures |Tuples(lists)| == Product(lists)
    decreases |lists|
  {
    if |lists| > 0 {
      TuplesCount(lists[1..]);
      CrossLength(Singles(lists[0]), Tuples(lists[1..]));
    }
  }

  /** A tuple is exactly one value from each list, position i from list i. */
  lemma {:induction false} TuplesMember(lists: seq<seq<string>>, u: Combination)
    ensures u in Tuples(lists) <==> |u| == |lists| && forall i :: 0 <= i < |lists| ==> u[i] in lists[i]
    decreases |lists|
  {
    if |lists| > 0 {
      var rest := Tuples(lists[1..]);
      CrossMember(Singles(lists[0]), rest, u);
      if |u| > 0 {
        TuplesMember(lists[1..], u[1..]);
      }
      if u in Tuples(lists) {
        var i, j :| 0 <= i < |lists[0]| && 0 <= j < |rest| && u == [lists[0][i]] + rest[j];
        assert u[1..] == rest[j];
        forall k | 0 <= k < |lists|
          ensures u[k] in lists[k]
        {
          if k > 0 { assert u[k] == u[1..][k - 1]; }
        }
      }
      if |u| == |lists| && forall k :: 0 <= k < |lists| ==> u[k] in lists[k] {
        forall k | 0 <= k < |lists| - 1
          ensures u[1..][k] in lists[1..][k]
        {
          assert u[1..][k] == u[k + 1];
        }
        assert u[1..] in rest;
        var i :| 0 <= i < |lists[0]| && lists[0][i] == u[0];
        var j :| 0 <= j < |rest| && rest[j] == u[1..];
        assert u == Singles(lists[0])[i] + rest[j];
      }
    }
  }

  /**
   * First list outermost: with P tuples of the other lists, tuple i * P + j is the
   * i-th value of the first list followed by the j-th tuple of the others.
   */
  lemma {:induction false} FirstOutermost(lists: seq<seq<string>>, i: nat, j: nat)
    requires |lists| > 0 && i < |lists[0]| && j < |Tuples(lists[1..])|
    ensures |Tuples(lists[1..])| == Product(lists[1..])
    ensures i * |Tuples(lists[1..])| + j < |Tuples(lists)|
    ensures Tuples(lists)[i * |Tuples(lists[1..])| + j] == [lists[0][i]] + Tuples(lists[1..])[j]
  {
    TuplesCount(lists[1..]);
    CrossIndex(Singles(lists[0]), Tuples(lists[1..]), i, j);
  }

  /** Every combination has one value per dimension, the i-th drawn from dimension i. */
  lemma {:induction false} CombinationMember(dims: seq<Dimension>, u: Combination)
    ensures u in Combinations(dims) <==>
              |dims| > 0 && |u| == |dims| && forall i :: 0 <= i < |dims| ==> u[i] in dims[i].values
  {
    CombinationsAreTuples(dims);
    TuplesMember(ValueLists(dims), u);
  }

  /** The number of combinations: the product of the value counts (none for no dimensions). */
  lemma {:induction false} CombinationCount(dims: seq<Dimension>)
    ensures |Combinations(dims)| == if |dims| == 0 then 0 else Product(ValueLists(dims))
  {
    CombinationsAreTuples(dims);
    TuplesCount(ValueLists(dims));
  }
}
