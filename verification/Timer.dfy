/** The wrapping clocks of platforms/timer.h. */
module Timer {
  const WRAP16 := 0x1_0000
  const WRAP32 := 0x1_0000_0000

  type u16 = x: int | 0 <= x < WRAP16
  type u32 = x: int | 0 <= x < WRAP32

  /** TIMER_DIFF_16: unsigned difference modulo 2^16. */
  function Diff16(a: u16, b: u16): u16 {
    (a - b) % WRAP16
  }

  /** TIMER_DIFF_32: unsigned difference modulo 2^32. */
  function Diff32(a: u32, b: u32): u32 {
    (a - b) % WRAP32
  }

  /** The (int32_t) cast of an unsigned 32-bit value. */
  function Signed32(x: u32): int {
    if x < 0x8000_0000 then x else x - WRAP32
  }

  /** However many times the 16-bit clock wrapped between two real instants, the
      difference it shows never exceeds the real time that passed. */
  lemma Diff16NeverExceedsReal(earlier: nat, later: nat)
    requires earlier <= later
    ensures Diff16(later % WRAP16, earlier % WRAP16) <= later - earlier
    ensures later - earlier < WRAP16 ==> Diff16(later % WRAP16, earlier % WRAP16) == later - earlier
  {
    var d := later - earlier;
    var k := later / WRAP16 - earlier / WRAP16;
    assert later % WRAP16 - earlier % WRAP16 == d - k * WRAP16;
    assert (d - k * WRAP16) % WRAP16 == d % WRAP16;
  }

  /** The signed 32-bit difference recovers the real difference of two instants that
      are less than half a wrap apart. */
  lemma {:induction false} SignedDiff32Exact(a: nat, b: nat)
    requires -0x8000_0000 <= a - b < 0x8000_0000
    ensures Signed32(Diff32(a % WRAP32, b % WRAP32)) == a - b
  {
    var d := a - b;
    var k := a / WRAP32 - b / WRAP32;
    assert a % WRAP32 - b % WRAP32 == d - k * WRAP32;
    assert (d - k * WRAP32) % WRAP32 == d % WRAP32;
  }
}
