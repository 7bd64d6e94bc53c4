/** Sequences of GetOrAdd calls. For delegates that do not call back into
    the same cache, the cache's single lock makes every call atomic, so
    concurrent callers see the same table as some sequence of calls, one
    after another. (The lock is re-entrant: a delegate that calls GetOrAdd on
    the same cache runs its nested call inside the outer one, which is not a
    sequence of whole calls and is not covered.) A run folds Step over such a
    sequence; each call carries its own delegate, so a delegate that behaves
    differently from call to call is covered too. */
module Serialised {
  import opened Cache

  /** One GetOrAdd call: its arguments and the two readings of the clock. */
  datatype Call<!K, V> = Call(key: K, func: K -> Outcome<V>, ttl: int, nowCheck: int, nowWrite: int)

  /** The table after a run, with what each call returned and whether each
      call invoked its delegate. */
  datatype Trace<K, V> = Trace(cache: map<K, Entry<V>>, results: seq<Outcome<V>>, computed: seq<bool>)

  /** The calls one after another, starting from the table `m`. */
  function Run<K, V>(m: map<K, Entry<V>>, calls: seq<Call<K, V>>): (t: Trace<K, V>)
    ensures |t.results| == |calls| && |t.computed| == |calls|
    // Nothing is ever evicted.
    ensures m.Keys <= t.cache.Keys
    // Every key in the final table was there at the start or was asked for.
    ensures forall k :: k in t.cache ==> k in m || exists i :: 0 <= i < |calls| && calls[i].key == k
    // A call that returned leaves its key in the final table.
    ensures forall i :: 0 <= i < |calls| && t.results[i].Returned? ==> calls[i].key in t.cache
    decreases |calls|
  {
    if calls == [] then Trace(m, [], [])
    else
      var c := calls[0];
      var s := Step(m, c.key, c.func, c.ttl, c.nowCheck, c.nowWrite);
      var rest := Run(s.cache, calls[1..]);
      assert forall k :: k in rest.cache && k !in m ==> exists i :: 0 <= i < |calls| && calls[i].key == k by {
        forall k | k in rest.cache && k !in m
          ensures exists i :: 0 <= i < |calls| && calls[i].key == k
        {
          if k !in s.cache {
            var j :| 0 <= j < |calls| - 1 && calls[1..][j].key == k;
            assert calls[j + 1].key == k;
          } else {
            assert calls[0].key == k;
          }
        }
      }
      Trace(rest.cache, [s.result] + rest.results, [s.computed] + rest.computed)
  }

  /** Every entry of `m` holds what `f` returns for its key. */
  ghost predicate Memoises<K, V>(m: map<K, Entry<V>>, f: K -> Outcome<V>)
  {
    forall k :: k in m ==> f(k) == Returned(m[k].result)
  }

  /** The cache is transparent for a deterministic delegate: if every entry
      was produced by `f` and every call's delegate agrees with `f` on the
      call's key, each call returns exactly what `f` would (value or
      exception) and the table still only holds values of `f`. */
  lemma {:induction false} RunIsTransparent<K, V>(m: map<K, Entry<V>>, calls: seq<Call<K, V>>,
                                                  f: K -> Outcome<V>)
    requires Memoises(m, f)
    requires forall i :: 0 <= i < |calls| ==> calls[i].func(calls[i].key) == f(calls[i].key)
    ensures Memoises(Run(m, calls).cache, f)
    ensures forall i :: 0 <= i < |calls| ==> Run(m, calls).results[i] == f(calls[i].key)
    decreases |calls|
  {
    if calls != [] {
      var c := calls[0];
      var s := Step(m, c.key, c.func, c.ttl, c.nowCheck, c.nowWrite);
      assert Memoises(s.cache, f);
      assert s.result == f(c.key);
      RunIsTransparent(s.cache, calls[1..], f);
      var t := Run(m, calls);
      forall i | 0 <= i < |calls|
        ensures t.results[i] == f(calls[i].key)
      {
        if i > 0 {
          assert calls[1..][i - 1] == calls[i];
        }
      }
    }
  }

  /** Calls on a key whose entry is fresh at every one of their check times
      are all hits: none invokes its delegate, each returns the stored value,
      and the table is left as it was. */
  lemma {:induction false} HitsLeaveCacheAlone<K, V>(m: map<K, Entry<V>>, key: K, calls: seq<Call<K, V>>)
    requires key in m
    requires forall i :: 0 <= i < |calls| ==> calls[i].key == key && calls[i].nowCheck < m[key].expires
    ensures Run(m, calls).cache == m
    ensures forall i :: 0 <= i < |calls| ==>
              !Run(m, calls).computed[i] && Run(m, calls).results[i] == Returned(m[key].result)
    decreases |calls|
  {
    if calls != [] {
      HitsLeaveCacheAlone(m, key, calls[1..]);
      var t := Run(m, calls);
      forall i | 0 <= i < |calls|
        ensures !t.computed[i] && t.results[i] == Returned(m[key].result)
      {
        if i > 0 {
          assert calls[1..][i - 1] == calls[i];
        }
      }
    }
  }

  /** Callers that the lock queues on one cold (absent or stale) key, all of
      them checking before the first caller's write time plus ttl, share one
      computation when the first caller's delegate returns: only the first
      call invokes the delegate, and every caller receives the first call's
      value. (If that delegate throws, nothing is stored and the next queued
      caller computes again; see `Cache.FailureIsNotCached`.) */
  lemma {:induction false} SameKeyComputesOnce<K, V>(m: map<K, Entry<V>>, key: K, calls: seq<Call<K, V>>)
    requires |calls| > 0
    requires forall i :: 0 <= i < |calls| ==> calls[i].key == key
    requires StateOf(m, key, calls[0].nowCheck) != Live
    requires calls[0].func(key).Returned?
    requires forall i :: 1 <= i < |calls| ==> calls[i].nowCheck < calls[0].nowWrite + calls[0].ttl
    ensures forall i :: 0 <= i < |calls| ==> (Run(m, calls).computed[i] <==> i == 0)
    ensures forall i :: 0 <= i < |calls| ==> Run(m, calls).results[i] == calls[0].func(key)
  {
    var c := calls[0];
    var s := Step(m, key, c.func, c.ttl, c.nowCheck, c.nowWrite);
    assert s.cache[key] == Entry(c.func(key).value, c.nowWrite + c.ttl);
    var rest := calls[1..];
    forall i | 0 <= i < |rest|
      ensures rest[i].key == key && rest[i].nowCheck < s.cache[key].expires
    {
      assert rest[i] == calls[i + 1];
    }
    HitsLeaveCacheAlone(s.cache, key, rest);
  }
}
