/** Writing a sequence of entries into a keyed object one after another, the
    way `forEach((x) => { obj[key(x)] = val(x) })` does: keys accumulate and,
    of two entries with the same key, the later one is what remains. */
module LastWins {

  /** Assigns `val(x)` to `key(x)` for every `x` of `xs`, first to last. */
  function Upsert<T, K, V>(m: map<K, V>, xs: seq<T>, key: T -> K, val: T -> V): map<K, V>
    decreases |xs|
  {
    if |xs| == 0 then m
    else Upsert(m, xs[..|xs| - 1], key, val)[key(xs[|xs| - 1]) := val(xs[|xs| - 1])]
  }

  /** The keys the entries of `xs` carry. */
  function KeysOf<T, K>(xs: seq<T>, key: T -> K): set<K>
  {
    set i | 0 <= i < |xs| :: key(xs[i])
  }

  /** `xs[i]` is the last entry of `xs` with its key. */
  ghost predicate IsLastWith<T, K>(xs: seq<T>, i: int, key: T -> K)
  {
    && 0 <= i < |xs|
    && forall j :: i < j < |xs| ==> key(xs[j]) != key(xs[i])
  }

  /** Appending one entry adds exactly its key. */
  lemma KeysOfSnoc<T, K>(xs: seq<T>, key: T -> K)
    requires |xs| > 0
    ensures KeysOf(xs, key) == KeysOf(xs[..|xs| - 1], key) + {key(xs[|xs| - 1])}
  {
    var init := xs[..|xs| - 1];
    forall k | k in KeysOf(xs, key)
      ensures k in KeysOf(init, key) + {key(xs[|xs| - 1])}
    {
      var i :| 0 <= i < |xs| && key(xs[i]) == k;
      if i < |xs| - 1 {
        assert init[i] == xs[i];
      }
    }
    forall k | k in KeysOf(init, key)
      ensures k in KeysOf(xs, key)
    {
      var i :| 0 <= i < |init| && key(init[i]) == k;
      assert xs[i] == init[i];
    }
  }

  /** The keys after the writes are the keys before plus the keys written. */
  lemma {:induction false} UpsertKeys<T, K, V>(m: map<K, V>, xs: seq<T>, key: T -> K, val: T -> V)
    ensures Upsert(m, xs, key, val).Keys == m.Keys + KeysOf(xs, key)
    decreases |xs|
  {
    if |xs| == 0 {
      assert KeysOf(xs, key) == {};
    } else {
      UpsertKeys(m, xs[..|xs| - 1], key, val);
      KeysOfSnoc(xs, key);
    }
  }

  /** Every key written holds the value of the last entry with that key. */
  lemma {:induction false} UpsertLastWins<T, K, V>(m: map<K, V>, xs: seq<T>, key: T -> K, val: T -> V, i: int)
    requires IsLastWith(xs, i, key)
    ensures key(xs[i]) in Upsert(m, xs, key, val)
    ensures Upsert(m, xs, key, val)[key(xs[i])] == val(xs[i])
    decreases |xs|
  {
    var n := |xs| - 1;
    if i < n {
      var init := xs[..n];
      assert init[i] == xs[i];
      assert IsLastWith(init, i, key) by {
        forall j | i < j < |init|
          ensures key(init[j]) != key(init[i])
        {
          assert init[j] == xs[j];
        }
      }
      UpsertLastWins(m, init, key, val, i);
      assert key(xs[n]) != key(xs[i]);
    }
  }

  /** A key no entry writes keeps the value it had before. */
  lemma {:induction false} UpsertKeepsUnwritten<T, K, V>(m: map<K, V>, xs: seq<T>, key: T -> K, val: T -> V, k: K)
    requires k in m
    requires k !in KeysOf(xs, key)
    ensures k in Upsert(m, xs, key, val)
    ensures Upsert(m, xs, key, val)[k] == m[k]
    decreases |xs|
  {
    if |xs| > 0 {
      KeysOfSnoc(xs, key);
      UpsertKeepsUnwritten(m, xs[..|xs| - 1], key, val, k);
    }
  }

  /** The three facts above, for every index and key at once. */
  lemma UpsertCharacterised<T, K, V>(m: map<K, V>, xs: seq<T>, key: T -> K, val: T -> V)
    ensures Upsert(m, xs, key, val).Keys == m.Keys + KeysOf(xs, key)
    ensures forall i | IsLastWith(xs, i, key) ::
              key(xs[i]) in Upsert(m, xs, key, val) && Upsert(m, xs, key, val)[key(xs[i])] == val(xs[i])
    ensures forall k | k in m && k !in KeysOf(xs, key) ::
              k in Upsert(m, xs, key, val) && Upsert(m, xs, key, val)[k] == m[k]
  {
    UpsertKeys(m, xs, key, val);
    forall i | IsLastWith(xs, i, key)
      ensures key(xs[i]) in Upsert(m, xs, key, val) && Upsert(m, xs, key, val)[key(xs[i])] == val(xs[i])
    {
      UpsertLastWins(m, xs, key, val, i);
    }
    forall k | k in m && k !in KeysOf(xs, key)
      ensures k in Upsert(m, xs, key, val) && Upsert(m, xs, key, val)[k] == m[k]
    {
      UpsertKeepsUnwritten(m, xs, key, val, k);
    }
  }

  /** Every key written has a last entry carrying it. */
  lemma {:induction false} LastWithExists<T, K>(xs: seq<T>, key: T -> K, k: K)
    requires k in KeysOf(xs, key)
    ensures exists i :: IsLastWith(xs, i, key) && key(xs[i]) == k
    decreases |xs|
  {
    var n := |xs| - 1;
    if key(xs[n]) == k {
      assert IsLastWith(xs, n, key);
    } else {
      var init := xs[..n];
      KeysOfSnoc(xs, key);
      LastWithExists(init, key, k);
      var i :| IsLastWith(init, i, key) && key(init[i]) == k;
      assert init[i] == xs[i];
      assert IsLastWith(xs, i, key) by {
        forall j | i < j < |xs|
          ensures key(xs[j]) != key(xs[i])
        {
          if j < n { assert init[j] == xs[j]; }
        }
      }
    }
  }

  /** Writing the same entries a second time changes nothing. */
  lemma UpsertIdempotent<T, K, V>(m: map<K, V>, xs: seq<T>, key: T -> K, val: T -> V)
    ensures Upsert(Upsert(m, xs, key, val), xs, key, val) == Upsert(m, xs, key, val)
  {
    var once := Upsert(m, xs, key, val);
    var twice := Upsert(once, xs, key, val);
    UpsertCharacterised(m, xs, key, val);
    UpsertCharacterised(once, xs, key, val);
    forall k | k in twice
      ensures twice[k] == once[k]
    {
      if k in KeysOf(xs, key) {
        LastWithExists(xs, key, k);
        var i :| IsLastWith(xs, i, key) && key(xs[i]) == k;
      }
    }
  }

  /** Two maps that agree away from `k` and at `k` are equal. */
  lemma EqualOffAndAt<K, V>(a: map<K, V>, b: map<K, V>, k: K)
    requires a - {k} == b - {k}
    requires k in a && k in b && a[k] == b[k]
    ensures a == b
  {
    forall x | x in a
      ensures x in b && a[x] == b[x]
    {
      if x != k {
        assert x in a - {k};
      }
    }
    forall x | x in b
      ensures x in a
    {
      if x != k {
        assert x in b - {k};
      }
    }
  }

  /** Two sets that agree away from `k` and both hold `k` are equal. */
  lemma SetEqualOffAndAt<K>(a: set<K>, b: set<K>, k: K)
    requires a - {k} == b - {k}
    requires k in a && k in b
    ensures a == b
  {
    forall x | x in a
      ensures x in b
    {
      if x != k {
        assert x in a - {k};
      }
    }
    forall x | x in b
      ensures x in a
    {
      if x != k {
        assert x in b - {k};
      }
    }
  }
}
