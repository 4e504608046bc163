/** The frame counter of `showFrameRate`: the static `count` is incremented on
    every call, and when it reaches 32 a rate is reported and it restarts at 0. */
module FrameRate {

  /** The new `count` after one call: `++count`, and 0 once that reaches 32. */
  function NextCount(count: int): (r: int)
    ensures 0 <= count < 32 ==> 0 <= r < 32 && r == (count + 1) % 32
    ensures r == 0 || r == count + 1
  {
    if count + 1 >= 32 then 0 else count + 1
  }

  /** `count` after `n` calls, starting from its initial value 0. */
  function CountAfter(n: nat): (r: int)
    ensures 0 <= r < 32
    decreases n
  {
    if n == 0 then 0 else NextCount(CountAfter(n - 1))
  }

  /** After `n` calls the counter holds `n mod 32`. */
  lemma {:induction false} CountAfterIsMod(n: nat)
    ensures CountAfter(n) == n % 32
    decreases n
  {
    if n > 0 {
      CountAfterIsMod(n - 1);
      var q := (n - 1) / 32;
      assert n - 1 == 32 * q + (n - 1) % 32;
      if (n - 1) % 32 == 31 {
        assert n == 32 * (q + 1);
      } else {
        assert n == 32 * q + ((n - 1) % 32 + 1);
      }
    }
  }

  /** Call number `n` (counting from 1) reports a rate and resets the counter
      exactly when `n` is a multiple of 32; every other call adds one. */
  lemma Wraps(n: nat)
    requires 1 <= n
    ensures CountAfter(n) == 0 <==> n % 32 == 0
    ensures CountAfter(n) != 0 ==> CountAfter(n) == CountAfter(n - 1) + 1
  {
    CountAfterIsMod(n);
    CountAfterIsMod(n - 1);
  }

  /** The static state of `showFrameRate`; `calls` counts the calls so far. */
  class FrameCounter {
    var count: int
    ghost var calls: nat

    ghost predicate Valid()
      reads this
    {
      0 <= count < 32 && count == CountAfter(calls)
    }

    /** `static int count=0;` */
    constructor ()
      ensures Valid() && count == 0 && calls == 0
    {
      count := 0;
      calls := 0;
    }

    /** One call of `showFrameRate`; `sample` tells whether this call reached 32
        frames (where the source prints the rate and restarts its clock). */
    method ShowFrameRate() returns (sample: bool)
      requires Valid()
      modifies this
      ensures Valid()
      ensures calls == old(calls) + 1
      ensures count == NextCount(old(count))
      ensures sample <==> calls % 32 == 0
      ensures sample <==> count == 0
    {
      count := count + 1;
      calls := calls + 1;
      sample := count >= 32;
      if sample {
        count := 0;
      }
      Wraps(calls);
    }
  }
}
