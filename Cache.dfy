/** The memoising cache `FunctionCache<TKey, TResult>`: a table from keys to
    computed results, each with an absolute expiration time. Its one operation,
    GetOrAdd, returns the stored result while it is fresh and otherwise calls
    the user's delegate and stores what it returns.

    Times are integer ticks (as `DateTime` and `TimeSpan` are). The two reads of
    the wall clock in GetOrAdd become two parameters: `nowCheck` for the
    freshness test and `nowWrite` for the expiration of a new entry. */
module Cache {

  /** How a call of the user's delegate, or of GetOrAdd itself, completes:
      with a value, or with an exception that propagates to the caller. */
  datatype Outcome<V> = Returned(value: V) | Threw

  /** A cached item: the delegate's result and the tick at which it expires. */
  datatype Entry<V> = Entry(result: V, expires: int)

  /** The freshness test of GetOrAdd: the clock is strictly before the
      expiration time, so an entry is already stale at its expiration tick. */
  predicate Fresh<V>(e: Entry<V>, now: int)
  {
    now < e.expires
  }

  /** The state of one key at a given time. It is never stored: it follows
      from the table and the clock. */
  datatype KeyState = Absent | Live | Stale

  function StateOf<K, V>(m: map<K, Entry<V>>, key: K, now: int): (st: KeyState)
  {
    if key !in m then Absent
    else if Fresh(m[key], now) then Live
    else Stale
  }

  /** What one GetOrAdd call leaves behind: the new table, what the caller
      gets, and whether the delegate was invoked. */
  datatype StepResult<K, V> = StepResult(cache: map<K, Entry<V>>, result: Outcome<V>, computed: bool)

  /** One GetOrAdd call on the table `m`, as a function of its inputs. */
  function Step<K, V>(m: map<K, Entry<V>>, key: K, func: K -> Outcome<V>, ttl: int,
                      nowCheck: int, nowWrite: int): (s: StepResult<K, V>)
    // A hit returns the stored result, does not call the delegate and changes nothing.
    ensures key in m && Fresh(m[key], nowCheck) ==>
              !s.computed && s.result == Returned(m[key].result) && s.cache == m
    // A miss (absent or stale) calls the delegate once and passes on what it gives.
    ensures !(key in m && Fresh(m[key], nowCheck)) ==> s.computed && s.result == func(key)
    // A computed value is stored with expiration nowWrite + ttl, overwriting any stale entry.
    ensures s.computed && func(key).Returned? ==>
              s.cache == m[key := Entry(func(key).value, nowWrite + ttl)]
    // An exception from the delegate leaves the table exactly as it was.
    ensures s.result.Threw? ==> s.cache == m
    // Every other key keeps its entry.
    ensures forall k :: k in m && k != key ==> k in s.cache && s.cache[k] == m[k]
    // Nothing is evicted: the key set only ever grows, by `key`.
    ensures s.cache.Keys == if s.result.Returned? then m.Keys + {key} else m.Keys
    // After a call that returns, the table holds the returned value under `key`.
    ensures s.result.Returned? ==> key in s.cache && s.cache[key].result == s.result.value
  {
    if key in m && Fresh(m[key], nowCheck) then
      StepResult(m, Returned(m[key].result), false)
    else
      match func(key)
      case Threw => StepResult(m, Threw, true)
      case Returned(v) => StepResult(m[key := Entry(v, nowWrite + ttl)], Returned(v), true)
  }

  /** The cache object. Its dictionary is the `cache` field, updated in place. */
  class FunctionCache<K(==), V> {
    var cache: map<K, Entry<V>>

    /** A new cache holds no entries. */
    constructor ()
      ensures cache == map[]
    {
      cache := map[];
    }

    /** GetOrAdd, run as one atomic step (the lock makes it so for a delegate
        that does not call back into this cache). `computed`
        tells whether `func` was invoked; `Threw` is an exception of `func`
        passing through to the caller. */
    method GetOrAdd(key: K, func: K -> Outcome<V>, expirationTime: int, nowCheck: int, nowWrite: int)
      returns (r: Outcome<V>, computed: bool)
      modifies this
      ensures var s := Step(old(cache), key, func, expirationTime, nowCheck, nowWrite);
              cache == s.cache && r == s.result && computed == s.computed
    {
      if key in cache && Fresh(cache[key], nowCheck) {
        r, computed := Returned(cache[key].result), false;
        return;
      }
      computed := true;
      r := func(key);
      if r.Returned? {
        cache := cache[key := Entry(r.value, nowWrite + expirationTime)];
      }
    }
  }

  /** An entry whose expiration time is at or before the check time is stale:
      the call recomputes, and a value it stores expires relative to the new
      write time. This includes the boundary tick itself. */
  lemma ExpiredRecomputes<K, V>(m: map<K, Entry<V>>, key: K, func: K -> Outcome<V>, ttl: int,
                                nowCheck: int, nowWrite: int)
    requires key in m && m[key].expires <= nowCheck
    ensures var s := Step(m, key, func, ttl, nowCheck, nowWrite);
            s.computed && s.result == func(key) &&
            (func(key).Returned? ==> s.cache[key] == Entry(func(key).value, nowWrite + ttl))
  {
  }

  /** A second call on the same key whose check time is before the first
      call's write time plus ttl is a hit: it returns the same value, leaves
      the table alone, and the delegate has run once in total. */
  lemma SecondCallHits<K, V>(m: map<K, Entry<V>>, key: K,
                             func1: K -> Outcome<V>, ttl1: int, check1: int, write1: int,
                             func2: K -> Outcome<V>, ttl2: int, check2: int, write2: int)
    requires StateOf(m, key, check1) != Live
    requires func1(key).Returned?
    requires check2 < write1 + ttl1
    ensures var s1 := Step(m, key, func1, ttl1, check1, write1);
            var s2 := Step(s1.cache, key, func2, ttl2, check2, write2);
            s1.computed && !s2.computed && s2.result == s1.result == func1(key) &&
            s2.cache == s1.cache
  {
  }

  /** Time alone moves a key only from Live to Stale: a stale key stays stale
      and an absent key stays absent as the clock advances. */
  lemma AgingIsMonotone<K, V>(m: map<K, Entry<V>>, key: K, t: int, t': int)
    requires t <= t'
    ensures StateOf(m, key, t) == Stale ==> StateOf(m, key, t') == Stale
    ensures StateOf(m, key, t) == Absent <==> StateOf(m, key, t') == Absent
    ensures StateOf(m, key, t') == Live ==> StateOf(m, key, t) == Live
  {
  }

  /** The transitions of a key under one call: a miss that returns makes the
      key Live until nowWrite + ttl and Stale from then on; a hit or an
      exception leaves the key's state at every time as it was. */
  lemma StepTransitions<K, V>(m: map<K, Entry<V>>, key: K, func: K -> Outcome<V>, ttl: int,
                              nowCheck: int, nowWrite: int, t: int)
    ensures var s := Step(m, key, func, ttl, nowCheck, nowWrite);
            (s.computed && s.result.Returned? ==>
               StateOf(s.cache, key, t) == if t < nowWrite + ttl then Live else Stale) &&
            (!s.computed || s.result.Threw? ==> StateOf(s.cache, key, t) == StateOf(m, key, t))
  {
  }

  /** Keys do not interfere: a call on `key` does not change the state of any
      other key at any time. */
  lemma OtherKeysUnaffected<K, V>(m: map<K, Entry<V>>, key: K, func: K -> Outcome<V>, ttl: int,
                                  nowCheck: int, nowWrite: int, other: K, t: int)
    requires other != key
    ensures StateOf(Step(m, key, func, ttl, nowCheck, nowWrite).cache, other, t) == StateOf(m, other, t)
  {
  }

  /** With a ttl of zero or less, the entry just written is already stale at
      any later check, so the next call on the key recomputes. (If the
      delegate threw instead, the key stays as stale as it was.) The clock
      readings are taken in order: check1, then write1, then check2. */
  lemma NonPositiveTtlAlwaysMisses<K, V>(m: map<K, Entry<V>>, key: K,
                                         func1: K -> Outcome<V>, ttl1: int, check1: int, write1: int,
                                         func2: K -> Outcome<V>, ttl2: int, check2: int, write2: int)
    requires ttl1 <= 0 && check1 <= write1 <= check2
    requires Step(m, key, func1, ttl1, check1, write1).computed
    ensures var s1 := Step(m, key, func1, ttl1, check1, write1);
            Step(s1.cache, key, func2, ttl2, check2, write2).computed
  {
  }

  /** A delegate that throws on a miss stores nothing, so the next call on
      the key (at a later check time) invokes the delegate again rather than
      returning a stale or missing value. */
  lemma FailureIsNotCached<K, V>(m: map<K, Entry<V>>, key: K,
                                 func1: K -> Outcome<V>, ttl1: int, check1: int, write1: int,
                                 func2: K -> Outcome<V>, ttl2: int, check2: int, write2: int)
    requires check1 <= check2
    requires Step(m, key, func1, ttl1, check1, write1).result.Threw?
    ensures var s1 := Step(m, key, func1, ttl1, check1, write1);
            s1.computed && Step(s1.cache, key, func2, ttl2, check2, write2).computed
  {
  }
}
