/**
 * Key order of the canister's stable maps.
 *
 * Both maps are B-trees keyed by `String`; iterating them visits the keys in
 * ascending `Ord` order, which for Rust strings is byte-wise over UTF-8 and so
 * the same as comparing code points one by one. This module defines that
 * order on `string`, the ascending sequence of a key set, and the two
 * iterator pipelines the queries use: keep the entries whose value passes a
 * test (`filter` + `map` + `collect`) and ask whether any entry passes it
 * (`any`).
 */
module StringOrder {

  /** `a` sorts strictly before `b`: lexicographic on code points, a proper prefix first. */
  predicate Below(a: string, b: string)
  {
    if |a| == 0 then |b| > 0
    else if |b| == 0 then false
    else if a[0] == b[0] then Below(a[1..], b[1..])
    else a[0] < b[0]
  }

  lemma {:induction false} BelowIrreflexive(a: string)
    ensures !Below(a, a)
  {
    if |a| > 0 {
      BelowIrreflexive(a[1..]);
    }
  }

  lemma {:induction false} BelowTransitive(a: string, b: string, c: string)
    requires Below(a, b) && Below(b, c)
    ensures Below(a, c)
  {
    if |a| > 0 && |b| > 0 && |c| > 0 && a[0] == b[0] && b[0] == c[0] {
      BelowTransitive(a[1..], b[1..], c[1..]);
    }
  }

  lemma {:induction false} BelowTotal(a: string, b: string)
    requires a != b
    ensures Below(a, b) || Below(b, a)
  {
    if |a| > 0 && |b| > 0 && a[0] == b[0] {
      assert a == [a[0]] + a[1..] && b == [b[0]] + b[1..];
      BelowTotal(a[1..], b[1..]);
    }
  }

  lemma BelowAsymmetric(a: string, b: string)
    requires Below(a, b)
    ensures !Below(b, a)
  {
    if Below(b, a) {
      BelowTransitive(a, b, a);
      BelowIrreflexive(a);
    }
  }

  /** Every element of `ks` sorts strictly before every later one. */
  predicate Increasing(ks: seq<string>)
  {
    forall i, j | 0 <= i < j < |ks| :: Below(ks[i], ks[j])
  }

  /** `k` is the first key of `s` in iteration order. */
  predicate IsLeast(k: string, s: set<string>)
  {
    k in s && forall j | j in s :: j == k || Below(k, j)
  }

  lemma {:induction false} LeastExists(s: set<string>)
    requires s != {}
    ensures exists k :: IsLeast(k, s)
    decreases |s|
  {
    var x :| x in s;
    var rest := s - {x};
    if rest == {} {
      assert s == {x};
      assert IsLeast(x, s);
    } else {
      LeastExists(rest);
      var y :| IsLeast(y, rest);
      if Below(x, y) {
        forall j | j in s
          ensures j == x || Below(x, j)
        {
          if j != x && j != y {
            BelowTransitive(x, y, j);
          }
        }
        assert IsLeast(x, s);
      } else {
        BelowTotal(x, y);
        assert IsLeast(y, s);
      }
    }
  }

  lemma LeastUnique(s: set<string>)
    ensures forall a, b :: IsLeast(a, s) && IsLeast(b, s) ==> a == b
  {
    forall a, b | IsLeast(a, s) && IsLeast(b, s)
      ensures a == b
    {
      if a != b {
        BelowAsymmetric(a, b);
      }
    }
  }

  /** The first key of a non-empty key set. */
  function Least(s: set<string>): (k: string)
    requires s != {}
    ensures IsLeast(k, s)
  {
    LeastExists(s);
    LeastUnique(s);
    var k :| k in s && IsLeast(k, s);
    k
  }

  /** The keys of `s` in the order a B-tree iterator visits them. */
  function InOrder(s: set<string>): (ks: seq<string>)
    ensures Increasing(ks)
    ensures |ks| == |s|
    ensures forall k :: k in ks <==> k in s
    decreases |s|
  {
    if s == {} then []
    else
      var k := Least(s);
      var rest := InOrder(s - {k});
      assert forall i | 0 <= i < |rest| :: Below(k, rest[i]) by {
        forall i | 0 <= i < |rest|
          ensures Below(k, rest[i])
        {
          assert rest[i] in s - {k};
        }
      }
      [k] + rest
  }

  /** The keys of `ks`, in their order, whose value in `m` passes `p`. */
  function Matching<V>(m: map<string, V>, ks: seq<string>, p: V -> bool): (r: seq<string>)
    requires forall k | k in ks :: k in m
    ensures forall k :: k in r <==> k in ks && p(m[k])
    ensures Increasing(ks) ==> Increasing(r)
  {
    if ks == [] then []
    else
      var rest := Matching(m, ks[1..], p);
      if p(m[ks[0]]) then
        assert Increasing(ks) ==> forall i | 0 <= i < |rest| :: Below(ks[0], rest[i]) by {
          if Increasing(ks) {
            forall i | 0 <= i < |rest|
              ensures Below(ks[0], rest[i])
            {
              assert rest[i] in rest && rest[i] in ks[1..];
              var j :| 0 <= j < |ks[1..]| && ks[1..][j] == rest[i];
              assert ks[j + 1] == rest[i];
            }
          }
        }
        [ks[0]] + rest
      else rest
  }

  /** The values of `m` whose key is in `ks`, in the order of `ks`. */
  function ValuesAt<V>(m: map<string, V>, ks: seq<string>): seq<V>
    requires forall k | k in ks :: k in m
  {
    seq(|ks|, i requires 0 <= i < |ks| => m[ks[i]])
  }

  /** The keys of `m`, ascending, whose value passes `p`. */
  function SelectedKeys<V>(m: map<string, V>, p: V -> bool): (ks: seq<string>)
    ensures Increasing(ks)
    ensures forall k :: k in ks <==> k in m && p(m[k])
  {
    Matching(m, InOrder(m.Keys), p)
  }

  /**
   * `iter().filter(p).map(value).collect()` over a map iterated in key order:
   * it holds exactly the stored values that pass `p`.
   */
  function Select<V(==,!new)>(m: map<string, V>, p: V -> bool): (r: seq<V>)
    ensures forall v :: v in r <==> v in m.Values && p(v)
  {
    var ks := SelectedKeys(m, p);
    var r := ValuesAt(m, ks);
    assert forall v :: v in r <==> v in m.Values && p(v) by {
      forall v | v in r
        ensures v in m.Values && p(v)
      {
        var i :| 0 <= i < |r| && r[i] == v;
        assert ks[i] in ks;
      }
      forall v | v in m.Values && p(v)
        ensures v in r
      {
        var k :| k in m && m[k] == v;
        assert k in ks;
        var i :| 0 <= i < |ks| && ks[i] == k;
        assert r[i] == v;
      }
    }
    r
  }

  /** `iter().any(p)` over the keys `ks` of a map. */
  function Any<V>(m: map<string, V>, ks: seq<string>, p: V -> bool): (b: bool)
    requires forall k | k in ks :: k in m
    ensures b <==> exists k :: k in ks && p(m[k])
  {
    if ks == [] then false
    else
      assert forall k :: k in ks <==> k == ks[0] || k in ks[1..];
      p(m[ks[0]]) || Any(m, ks[1..], p)
  }

  /**
   * What a filtering query returns: the values, in ascending key order, of
   * exactly the entries that pass the test.
   */
  lemma SelectSpec<V(!new)>(m: map<string, V>, p: V -> bool)
    ensures |Select(m, p)| == |SelectedKeys(m, p)|
    ensures forall i | 0 <= i < |Select(m, p)| ::
              SelectedKeys(m, p)[i] in m && Select(m, p)[i] == m[SelectedKeys(m, p)[i]]
              && p(Select(m, p)[i])
    ensures forall k | k in m && p(m[k]) :: m[k] in Select(m, p)
  {
    var r := Select(m, p);
    forall k | k in m && p(m[k])
      ensures m[k] in r
    {
      assert m[k] in m.Values;
    }
  }

  /** A filtering query that no entry passes returns nothing. */
  lemma {:induction false} MatchingNone<V>(m: map<string, V>, ks: seq<string>, p: V -> bool)
    requires forall k | k in ks :: k in m && !p(m[k])
    ensures Matching(m, ks, p) == []
  {
    if ks != [] {
      MatchingNone(m, ks[1..], p);
    }
  }
}
