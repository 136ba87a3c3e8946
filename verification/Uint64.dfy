/** Unsigned 64-bit arithmetic. */
module Uint64 {
  const UINT64: nat := 0x1_0000_0000_0000_0000
  const MAX_UINT64: nat := UINT64 - 1

  /** 64-bit wrap-around. */
  function Wrap(x: int): (r: nat)
    ensures r < UINT64
    ensures 0 <= x < UINT64 ==> r == x
    decreases if x < 0 then UINT64 - x else x
  {
    if x < 0 then Wrap(x + UINT64) else if x >= UINT64 then Wrap(x - UINT64) else x
  }

  lemma WrapPeriodic(x: int)
    ensures Wrap(x + UINT64) == Wrap(x)
  {
  }

  /** Wrapping part of a sum early makes no difference. */
  lemma {:induction false} WrapAdd(x: int, y: int)
    ensures Wrap(Wrap(x) + y) == Wrap(x + y)
    decreases if x < 0 then UINT64 - x else x
  {
    if x < 0 {
      WrapAdd(x + UINT64, y);
      WrapPeriodic(x + y);
    } else if x >= UINT64 {
      WrapAdd(x - UINT64, y);
      WrapPeriodic(x + y - UINT64);
    }
  }
}
