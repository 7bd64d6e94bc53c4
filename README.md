# FunctionCache in Dafny

This project models `FunctionCache<TKey, TResult>`. It is a memoising cache
of function results, and each entry has a time-to-live. Its one operation,
`GetOrAdd(key, func, expirationTime)`, does the following under a lock:

- It looks up `key`.
- If an entry exists and the clock is strictly before its expiration time, it
  returns the stored result (a hit).
- Otherwise it calls `func(key)` once. It stores the result with expiration
  "now + ttl", overwriting any stale entry, and returns the result (a miss).

Entries are never deleted. A stale entry stays in the table until its key is
requested again.

Files:

- `Cache.dfy` (module `Cache`): the entry datatype, the freshness test, the
  per-key state (Absent, Live, Stale), the specification function `Step`
  (one call as a function of the table), the class `FunctionCache` whose
  `cache` map field is updated in place by `GetOrAdd`, and lemmas about one
  or two calls.
- `Serialised.dfy` (module `Serialised`): sequences of calls as the lock
  orders them, with inductive lemmas. These cover memoisation correctness
  for a deterministic delegate, and queued callers on one cold key sharing
  one computation.
- `Program.dfy` (module `Program`): the demonstration in `Main`, as a client
  method over the class.

Modelling choices:

- Time is integer ticks, as `DateTime` and `TimeSpan` are. The source reads
  the clock twice, once for the freshness test and once for the new
  expiration. These reads are two parameters, `nowCheck` and `nowWrite`. The
  method does not require them to be ordered, because the code does not
  depend on their order. The lemmas that relate times across calls state the
  order they need.
- The delegate is a function value `K -> Outcome<V>`. `Threw` stands for an
  exception from `func`. Such an exception passes to the caller before the
  write, so the table is left unchanged. `GetOrAdd` returns the same
  `Outcome`.
- `GetOrAdd` also returns `computed`, which says whether `func` was invoked.
  This stands for the delegate's observable side effects.
- The TTL is any integer, because a `TimeSpan` may be negative or zero.

## Model

| member | source | states |
|---|---|---|
| Cache.Step | AntonyukLab7-3/Program.cs:20-40 | One call on a table. On a hit (key present and check time strictly before its expiration), it returns the stored result, does not invoke the delegate and leaves the table unchanged. On a miss, it invokes the delegate once and returns its outcome. A returned value is stored under the key with expiration write time + ttl. An exception leaves the table unchanged. Other keys keep their entries. The key set becomes the old set plus the key, so nothing is evicted. After a call that returns, the table holds the returned value. |
| Cache.FunctionCache.constructor | AntonyukLab7-3/Program.cs:6 | A new cache has an empty table. |
| Cache.FunctionCache.GetOrAdd | AntonyukLab7-3/Program.cs:20-40 | The in-place update. The new `cache` field, the result and whether the delegate ran are exactly those `Step` gives for the old table. |
| Cache.ExpiredRecomputes | AntonyukLab7-3/Program.cs:24-37 | An entry whose expiration is at or before the check time, including exactly at it, is recomputed. The new entry's expiration is the new write time + ttl. |
| Cache.SecondCallHits | AntonyukLab7-3/Program.cs:24-37 | After a miss that returns, a second call on the key that checks before write time + ttl is a hit. It returns the same value and leaves the table unchanged, so the delegate ran once in total. |
| Cache.AgingIsMonotone | AntonyukLab7-3/Program.cs:24 | As the clock advances without calls, a Stale key stays Stale and an Absent key stays Absent. A key Live at a later time was Live earlier. |
| Cache.StepTransitions | AntonyukLab7-3/Program.cs:24-35 | Per-key state machine. A miss that returns makes the key Live before write time + ttl and Stale from then on. A hit or an exception leaves the key's state unchanged at every time. |
| Cache.OtherKeysUnaffected | AntonyukLab7-3/Program.cs:35 | A call on one key leaves the state of every other key unchanged at every time. |
| Cache.NonPositiveTtlAlwaysMisses | AntonyukLab7-3/Program.cs:24-35 | With ttl <= 0, the call after a miss recomputes when the clock readings are ordered. |
| Cache.FailureIsNotCached | AntonyukLab7-3/Program.cs:32-35 | A delegate that throws stores nothing, so a later call on the same key invokes the delegate again. |
| Serialised.Run | AntonyukLab7-3/Program.cs:22-39 | A sequence of calls in lock order gives one result and one computed flag per call. Start keys are never evicted. Every final key was present at the start or was requested. Every call that returned leaves its key in the final table. |
| Serialised.RunIsTransparent | AntonyukLab7-3/Program.cs:20-40 | Memoisation correctness. Suppose every stored entry holds `f` of its key and every call's delegate agrees with `f` on the call's key. Then every call returns exactly `f(key)`, value or exception, and the table still holds only values of `f`. |
| Serialised.HitsLeaveCacheAlone | AntonyukLab7-3/Program.cs:24-28 | Calls on a key whose entry is fresh at each check time are all hits. None invokes a delegate, each returns the stored value, and the table is unchanged. |
| Serialised.SameKeyComputesOnce | AntonyukLab7-3/Program.cs:22-37 | Callers queued by the lock on a cold key, checking before the first write time + ttl, share one computation when the first caller's delegate returns. Only the first call invokes the delegate, and all receive its value. If that delegate throws, nothing is stored and the next queued caller computes again (see `Cache.FailureIsNotCached`). |
| Program.LengthCacheScenario | AntonyukLab7-3/Program.cs:45-70 | The demonstration with a 5-second ttl on "apple" and a 6-second sleep before the third call. The first and third calls compute, the second is served from the cache, and all three return 5. |

## Left out

- The `lock` is left out. Each `GetOrAdd` is one atomic method. Concurrency is
  represented only by sequences of calls in lock order (`Serialised`).
  Threads and blocking are not modelled.
- Delegates that re-enter the same cache are not modelled. The C# `lock` is
  re-entrant, so a delegate can call `GetOrAdd` on the same instance from the
  same thread (recursive memoisation). The nested call runs inside the outer
  one, between the call of `func` and the write of `cache[key]`, so it is not
  serialised. The delegate here is a pure function `K -> Outcome<V>` that
  cannot touch the table. Hence `Step`'s "every other key keeps its entry",
  `OtherKeysUnaffected` and the atomicity behind `Serialised` hold only for
  delegates that do not re-enter the cache.
- `DateTime.Now` is replaced by the tick parameters `nowCheck` and
  `nowWrite`. The `ArgumentOutOfRangeException` that `DateTime.Add` throws
  when the new expiration leaves the `DateTime` range is not modelled.
  Expirations are unbounded integers.
- C# exception propagation is reduced to the value `Threw`. The exception's
  type and payload are not kept.
- The delegate's side effects, such as the `Console.WriteLine` in
  `calculateLength`, are not modelled. Only the `computed` flag records that
  the delegate ran.
- `Main`'s console output and `Thread.Sleep(6000)` are not modelled. The sleep
  becomes the scenario's precondition that the third check is at least six
  seconds after the second.
- `Dictionary` hashing and equality are not modelled. The table is a Dafny
  `map` over a type with equality.
- A null key is not modelled. `Dictionary.TryGetValue` rejects a null key
  with an `ArgumentNullException` on every call, before `func` runs, when the
  key type is a nullable reference type. The model's key type has no null.
- Aliasing of results is not modelled. `V` stands for the stored value or
  reference itself, and a hit returns the stored `TResult` as it is. When
  `TResult` is a mutable reference type, a caller that changes the returned
  object also changes what later hits return. The model does not capture
  this: `RunIsTransparent`'s "returns exactly `f(key)`" is equality of the
  stored value or reference, not of the object's contents.
- `CalculateLength` counts characters, where C#'s `string.Length` counts
  UTF-16 code units. The two agree on the key "apple" of the demonstration.
