/** Time spans in nanoseconds, with the saturating addition that accumulates timeouts. */
module Durations {

  /** The largest span: all seconds of 64 bits and 999999999 nanoseconds. */
  const DURATION_MAX: nat := 18446744073709551615999999999

  const SECOND: nat := 1000000000

  type Duration = d: nat | d <= DURATION_MAX

  function SaturatingAdd(a: Duration, b: Duration): Duration {
    if a + b <= DURATION_MAX then a + b else DURATION_MAX
  }

  /** `k` timeouts of length `d`, accumulated one at a time. */
  function Repeated(k: nat, d: Duration): Duration {
    if k == 0 then 0 else SaturatingAdd(Repeated(k - 1, d), d)
  }

  lemma RepeatedOnceMore(k: nat, d: Duration)
    ensures Repeated(k + 1, d) == if k == 0 then d else SaturatingAdd(Repeated(k, d), d)
  {
    assert Repeated(0, d) == 0;
  }

  /** `k` times a span, or the largest span there is: 64 bits of seconds and a billion less one. */
  function Times(k: nat, d: Duration): Duration {
    if k * d <= 0xFFFF_FFFF_FFFF_FFFF * 1_000_000_000 + 999_999_999 then k * d
    else 0xFFFF_FFFF_FFFF_FFFF * 1_000_000_000 + 999_999_999
  }

  /** Accumulated timeouts are their number times their length, or the largest span if that is shorter. */
  lemma {:induction false} RepeatedIsMultiple(k: nat, d: Duration)
    ensures Repeated(k, d) == Times(k, d)
  {
    if k > 0 {
      RepeatedIsMultiple(k - 1, d);
      assert k * d == (k - 1) * d + d;
    }
  }
}
