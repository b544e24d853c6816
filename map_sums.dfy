/** Sums of integer maps over a set of keys, in no particular key order.
    A Java hash map is iterated in an unspecified order; these sums are what
    such an iteration accumulates, whatever the order. */
module MapSums {
  import opened StatsTypes

  /** Sum of `Get(m, k)` over the keys in `keys` (a missing key adds 0). */
  ghost function SumOver(m: map<string, int>, keys: set<string>): int
    decreases keys
  {
    if keys == {} then 0
    else
      var k :| k in keys;
      Get(m, k) + SumOver(m, keys - {k})
  }

  /** Any key may be taken out first: the sum does not depend on the order. */
  lemma {:induction false} SumOverRemove(m: map<string, int>, keys: set<string>, k: string)
    requires k in keys
    ensures SumOver(m, keys) == Get(m, k) + SumOver(m, keys - {k})
    decreases keys
  {
    var j :| j in keys && SumOver(m, keys) == Get(m, j) + SumOver(m, keys - {j});
    if j != k {
      SumOverRemove(m, keys - {j}, k);
      SumOverRemove(m, keys - {k}, j);
      assert keys - {j} - {k} == keys - {k} - {j};
    }
  }

  lemma SumOverAdd(m: map<string, int>, keys: set<string>, k: string)
    requires k !in keys
    ensures SumOver(m, keys + {k}) == SumOver(m, keys) + Get(m, k)
  {
    SumOverRemove(m, keys + {k}, k);
    assert keys + {k} - {k} == keys;
  }

  /** Two maps that agree on `keys` have the same sum over `keys`. */
  lemma {:induction false} SumOverAgree(a: map<string, int>, b: map<string, int>, keys: set<string>)
    requires forall k :: k in keys ==> Get(a, k) == Get(b, k)
    ensures SumOver(a, keys) == SumOver(b, keys)
    decreases keys
  {
    if keys != {} {
      var k :| k in keys;
      SumOverRemove(a, keys, k);
      SumOverRemove(b, keys, k);
      SumOverAgree(a, b, keys - {k});
    }
  }

  /** Keys whose value is 0 do not change a sum. */
  lemma {:induction false} SumOverZeros(m: map<string, int>, keys: set<string>, extra: set<string>)
    requires forall k :: k in extra ==> Get(m, k) == 0
    ensures SumOver(m, keys + extra) == SumOver(m, keys)
    decreases extra
  {
    if extra <= keys {
      assert keys + extra == keys;
    } else {
      var k :| k in extra && k !in keys;
      var rest := extra - {k};
      SumOverZeros(m, keys, rest);
      SumOverAdd(m, keys + rest, k);
      assert keys + rest + {k} == keys + extra;
    }
  }

  /** A sum of pointwise sums is the sum of the two sums. */
  lemma {:induction false} SumOverPointwise(a: map<string, int>, b: map<string, int>, c: map<string, int>, keys: set<string>)
    requires forall k :: k in keys ==> Get(c, k) == Get(a, k) + Get(b, k)
    ensures SumOver(c, keys) == SumOver(a, keys) + SumOver(b, keys)
    decreases keys
  {
    if keys != {} {
      var k :| k in keys;
      SumOverRemove(a, keys, k);
      SumOverRemove(b, keys, k);
      SumOverRemove(c, keys, k);
      SumOverPointwise(a, b, c, keys - {k});
    }
  }

  /** A sum of values that are never negative is never negative. */
  lemma {:induction false} SumOverNonNegative(m: map<string, int>, keys: set<string>)
    requires forall k :: k in keys ==> Get(m, k) >= 0
    ensures SumOver(m, keys) >= 0
    decreases keys
  {
    if keys != {} {
      var k :| k in keys;
      SumOverRemove(m, keys, k);
      SumOverNonNegative(m, keys - {k});
    }
  }
}
