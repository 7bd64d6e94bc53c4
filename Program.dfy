/** The demonstration program: a cache of string lengths with a five-second
    time-to-live, called three times on "apple", with a six-second sleep
    before the third call. Console output is not modelled; whether the
    delegate ran on a call stands for whether it logged a line. */
module Program {
  import opened Cache

  /** Ticks per second, as `TimeSpan` counts them (one tick is 100 ns). */
  const TicksPerSecond: int := 10_000_000

  /** The delegate of the demonstration: the length of the key, counted in
      characters (C# counts UTF-16 code units; the two agree on "apple"). */
  function CalculateLength(s: string): (r: Outcome<int>)
  {
    Returned(|s|)
  }

  /** The three calls of the demonstration. `check_i` and `write_i` are the
      clock readings of call i. The second call starts after the first has
      written and before its entry expires; the third starts at least six
      seconds after the second. The first and third calls compute, the second
      is served from the cache, and all three return 5. */
  method LengthCacheScenario(check1: int, write1: int, check2: int, write2: int, check3: int, write3: int)
    returns (length1: Outcome<int>, length2: Outcome<int>, length3: Outcome<int>,
             calculated1: bool, calculated2: bool, calculated3: bool)
    requires write1 <= check2 < write1 + 5 * TicksPerSecond
    requires check2 + 6 * TicksPerSecond <= check3
    ensures length1 == Returned(5) && length2 == Returned(5) && length3 == Returned(5)
    ensures calculated1 && !calculated2 && calculated3
  {
    var lengthCache := new FunctionCache<string, int>();
    length1, calculated1 := lengthCache.GetOrAdd("apple", CalculateLength, 5 * TicksPerSecond, check1, write1);
    length2, calculated2 := lengthCache.GetOrAdd("apple", CalculateLength, 5 * TicksPerSecond, check2, write2);
    length3, calculated3 := lengthCache.GetOrAdd("apple", CalculateLength, 5 * TicksPerSecond, check3, write3);
  }
}
