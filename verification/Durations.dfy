// Seconds to nanoseconds without overflow (internal/auth/auth.go).
module Durations {
  const SECOND := 1_000_000_000
  const MAX_INT64 := 0x7fff_ffff_ffff_ffff

  // The wrap-around of int64 addition.
  function Wrap64(n: int): (w: int)
    ensures -0x8000_0000_0000_0000 <= w <= MAX_INT64 && (w - n) % 0x1_0000_0000_0000_0000 == 0
    ensures -0x8000_0000_0000_0000 <= n <= MAX_INT64 ==> w == n
  {
    var m := n % 0x1_0000_0000_0000_0000;
    if m > MAX_INT64 then m - 0x1_0000_0000_0000_0000 else m
  }

  // The product with one second, saturated: never negative, never wrapped.
  function SafeDuration(seconds: int): (d: nat)
    ensures seconds <= 0 ==> d == 0
    ensures seconds > 0 && seconds * 1_000_000_000 <= 0x7fff_ffff_ffff_ffff ==> d == seconds * 1_000_000_000
    ensures seconds > 0 && seconds * 1_000_000_000 > 0x7fff_ffff_ffff_ffff ==> d == 0x7fff_ffff_ffff_ffff
  {
    if seconds <= 0 then 0
    else if seconds > MAX_INT64 / SECOND then MAX_INT64
    else seconds * SECOND
  }
}
