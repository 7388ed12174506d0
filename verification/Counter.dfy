/** `AtomicU32`, as the program uses it: a shared count of failures that wraps around. */
module Counters {

  const U32 := 0x1_0000_0000

  class Counter {
    var value: nat

    ghost predicate Valid()
      reads this
    {
      value < U32
    }

    constructor ()
      ensures Valid() && value == 0
    {
      value := 0;
    }

    method FetchAdd(n: nat)
      requires Valid()
      modifies this
      ensures Valid()
      ensures value == (old(value) + n) % U32
    {
      value := (value + n) % U32;
    }
  }

  /** Adding one at a time, with wrap-around, is adding up and wrapping around once. */
  lemma {:induction false} AddWraps(a: nat, b: nat, c: nat)
    ensures ((a + b) % U32 + c) % U32 == (a + b + c) % U32
  {
  }
}
