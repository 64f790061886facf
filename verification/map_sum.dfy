/**
 * Sums of a non-negative weight over the values of a map, the measure in
 * which a content record's sales counter and revenue total are compared with
 * the payment records that reference it, and over the values a filtering
 * query lists.
 */
module MapSum {
  import opened StringOrder

  /** Some key of a non-empty map; which one does not matter to any sum. */
  ghost function SomeKey<V>(m: map<string, V>): (k: string)
    requires |m| > 0
    ensures k in m
  {
    assert m.Keys != {} by {
      assert |m.Keys| == |m|;
    }
    var k :| k in m;
    k
  }

  /** The sum of `w` over all values of `m`. */
  ghost function SumOver<V>(m: map<string, V>, w: V -> nat): nat
    decreases |m|
  {
    if |m| == 0 then 0
    else
      var k := SomeKey(m);
      w(m[k]) + SumOver(m - {k}, w)
  }

  /** Any entry can be split off a sum, whichever key the definition happens to pick. */
  lemma {:induction false} SumOverRemove<V>(m: map<string, V>, k: string, w: V -> nat)
    requires k in m
    ensures SumOver(m, w) == w(m[k]) + SumOver(m - {k}, w)
    decreases |m|
  {
    var j := SomeKey(m);
    if j != k {
      assert m - {j} - {k} == m - {k} - {j};
      SumOverRemove(m - {j}, k, w);
      SumOverRemove(m - {k}, j, w);
    }
  }

  lemma UpdateThenRemove<V>(m: map<string, V>, k: string, v: V)
    ensures m[k := v] - {k} == m - {k}
    ensures k !in m ==> m - {k} == m
  {
  }

  /** Storing `v` under `k` adds `w(v)` and drops the weight of any value it replaces. */
  lemma SumOverUpdate<V>(m: map<string, V>, k: string, v: V, w: V -> nat)
    ensures SumOver(m[k := v], w) + (if k in m then w(m[k]) else 0) == SumOver(m, w) + w(v)
  {
    UpdateThenRemove(m, k, v);
    SumOverRemove(m[k := v], k, w);
    if k in m {
      SumOverRemove(m, k, w);
    }
  }

  /** A sum of weights that are all zero is zero. */
  lemma {:induction false} SumOverZero<V>(m: map<string, V>, w: V -> nat)
    requires forall k | k in m :: w(m[k]) == 0
    ensures SumOver(m, w) == 0
    decreases |m|
  {
    if |m| > 0 {
      SumOverZero(m - {SomeKey(m)}, w);
    }
  }

  /** The sum of `w` over the elements of `vs`. */
  function SeqSum<V>(vs: seq<V>, w: V -> nat): nat
  {
    if vs == [] then 0 else w(vs[0]) + SeqSum(vs[1..], w)
  }

  /** Weights that agree on every element give the same sum. */
  lemma {:induction false} SeqSumAgree<V>(vs: seq<V>, w1: V -> nat, w2: V -> nat)
    requires forall v | v in vs :: w1(v) == w2(v)
    ensures SeqSum(vs, w1) == SeqSum(vs, w2)
    decreases |vs|
  {
    if vs != [] {
      assert forall v | v in vs[1..] :: v in vs;
      SeqSumAgree(vs[1..], w1, w2);
    }
  }

  /** A weight that is one on every element sums to the length. */
  lemma {:induction false} SeqSumCount<V>(vs: seq<V>, w: V -> nat)
    requires forall v | v in vs :: w(v) == 1
    ensures SeqSum(vs, w) == |vs|
    decreases |vs|
  {
    if vs != [] {
      assert forall v | v in vs[1..] :: v in vs;
      SeqSumCount(vs[1..], w);
    }
  }

  /** Filtering keys looks at a map only under those keys. */
  lemma {:induction false} MatchingOnlyReads<V>(m1: map<string, V>, m2: map<string, V>,
                                                ks: seq<string>, p: V -> bool)
    requires forall k | k in ks :: k in m1 && k in m2 && m1[k] == m2[k]
    ensures Matching(m1, ks, p) == Matching(m2, ks, p)
    decreases |ks|
  {
    if ks != [] {
      assert forall k | k in ks[1..] :: k in ks;
      MatchingOnlyReads(m1, m2, ks[1..], p);
    }
  }

  /** The keys of a non-empty map, in order: its least key, then the keys of the rest. */
  lemma InOrderSplit<V>(m: map<string, V>, k: string)
    requires m.Keys != {} && k == Least(m.Keys)
    ensures InOrder(m.Keys) == [k] + InOrder((m - {k}).Keys)
  {
    assert (m - {k}).Keys == m.Keys - {k};
  }

  /** The keys a filter keeps: the least key if its value passes, then those it keeps of the rest. */
  lemma SelectedKeysSplit<V>(m: map<string, V>, p: V -> bool, k: string)
    requires m.Keys != {} && k == Least(m.Keys)
    ensures SelectedKeys(m, p) == (if p(m[k]) then [k] else []) + SelectedKeys(m - {k}, p)
  {
    var later := InOrder((m - {k}).Keys);
    InOrderSplit(m, k);
    MatchingFirst(m, k, later, p);
    MatchingOnlyReads(m, m - {k}, later, p);
  }

  /** Filtering `[k] + ks` keeps `k` if its value passes, then what it keeps of `ks`. */
  lemma MatchingFirst<V>(m: map<string, V>, k: string, ks: seq<string>, p: V -> bool)
    requires k in m && forall j | j in ks :: j in m
    ensures Matching(m, [k] + ks, p) == (if p(m[k]) then [k] else []) + Matching(m, ks, p)
  {
    assert ([k] + ks)[1..] == ks;
  }

  /** Looking up keys the two maps agree on gives the same values. */
  lemma ValuesAtAgree<V>(m1: map<string, V>, m2: map<string, V>, ks: seq<string>)
    requires forall k | k in ks :: k in m1 && k in m2 && m1[k] == m2[k]
    ensures ValuesAt(m1, ks) == ValuesAt(m2, ks)
  {
  }

  /** What a filtering query lists, as values looked up under its keys. */
  lemma SelectIsValuesAt<V(!new)>(m: map<string, V>, p: V -> bool)
    ensures Select(m, p) == ValuesAt(m, SelectedKeys(m, p))
  {
  }

  /** A filtering query lists the least entry if it passes, then what it lists of the rest. */
  lemma SelectSplitAt<V(!new)>(m: map<string, V>, p: V -> bool, k: string)
    requires m.Keys != {} && k == Least(m.Keys)
    ensures Select(m, p) == (if p(m[k]) then [m[k]] else []) + Select(m - {k}, p)
  {
    var tail := SelectedKeys(m - {k}, p);
    var pre := if p(m[k]) then [k] else [];
    SelectedKeysSplit(m, p, k);
    SelectIsValuesAt(m, p);
    SelectIsValuesAt(m - {k}, p);
    ValuesAtAgree(m, m - {k}, tail);
    ValuesAtAppend(m, pre, tail);
    assert ValuesAt(m, pre) == if p(m[k]) then [m[k]] else [];
  }

  /** A non-empty map has an entry that a filtering query lists first, if at all. */
  lemma SelectSplit<V(!new)>(m: map<string, V>, p: V -> bool)
    requires m.Keys != {}
    ensures exists k :: k in m && Select(m, p) == (if p(m[k]) then [m[k]] else []) + Select(m - {k}, p)
  {
    SelectSplitAt(m, p, Least(m.Keys));
  }

  lemma ValuesAtAppend<V>(m: map<string, V>, ks1: seq<string>, ks2: seq<string>)
    requires forall k | k in ks1 + ks2 :: k in m
    ensures ValuesAt(m, ks1 + ks2) == ValuesAt(m, ks1) + ValuesAt(m, ks2)
  {
  }

  /** Listing `v` or leaving it out adds `w(v)` to a sum, when leaving it out means `w(v)` is zero. */
  lemma SeqSumFirst<V>(v: V, keep: bool, vs: seq<V>, w: V -> nat)
    requires keep || w(v) == 0
    ensures SeqSum((if keep then [v] else []) + vs, w) == w(v) + SeqSum(vs, w)
  {
    if keep {
      assert ([v] + vs)[1..] == vs;
    } else {
      assert [] + vs == vs;
    }
  }

  /** An empty map lists nothing and sums to zero. */
  lemma SelectSumEmpty<V(!new)>(m: map<string, V>, p: V -> bool, w: V -> nat)
    requires m.Keys == {}
    ensures SeqSum(Select(m, p), w) == 0 == SumOver(m, w)
  {
    assert InOrder(m.Keys) == [];
    assert |m| == 0 by {
      assert |m.Keys| == |m|;
    }
  }

  /** A weight that is zero wherever a filter fails stays so on a smaller map. */
  lemma ZeroOffFilterRemove<V>(m: map<string, V>, p: V -> bool, w: V -> nat, k: string)
    requires forall j | j in m && !p(m[j]) :: w(m[j]) == 0
    ensures forall j | j in m - {k} && !p((m - {k})[j]) :: w((m - {k})[j]) == 0
  {
    forall j | j in m - {k} && !p((m - {k})[j])
      ensures w((m - {k})[j]) == 0
    {
      assert (m - {k})[j] == m[j];
    }
  }

  /** One step of `SelectSum`: the entry under `k` is listed first or has weight zero. */
  lemma SumStep<V>(m: map<string, V>, p: V -> bool, w: V -> nat, k: string,
                   listed: seq<V>, listedRest: seq<V>)
    requires k in m && (p(m[k]) || w(m[k]) == 0)
    requires listed == (if p(m[k]) then [m[k]] else []) + listedRest
    requires SeqSum(listedRest, w) == SumOver(m - {k}, w)
    ensures SeqSum(listed, w) == SumOver(m, w)
  {
    SumOverRemove(m, k, w);
    SeqSumFirst(m[k], p(m[k]), listedRest, w);
  }

  /**
   * Summing `w` over what a filtering query lists gives the sum over the
   * whole map, when `w` is zero on every value the filter drops.
   */
  lemma {:induction false} SelectSum<V(!new)>(m: map<string, V>, p: V -> bool, w: V -> nat)
    requires forall k | k in m && !p(m[k]) :: w(m[k]) == 0
    ensures SeqSum(Select(m, p), w) == SumOver(m, w)
    decreases |m|
  {
    if m.Keys == {} {
      SelectSumEmpty(m, p, w);
    } else {
      SelectSplit(m, p);
      var k :| k in m && Select(m, p) == (if p(m[k]) then [m[k]] else []) + Select(m - {k}, p);
      ZeroOffFilterRemove(m, p, w, k);
      SelectSum(m - {k}, p, w);
      SumStep(m, p, w, k, Select(m, p), Select(m - {k}, p));
    }
  }
}
