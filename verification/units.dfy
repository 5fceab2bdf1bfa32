/**
 * Machine integers and the time unit of the compaction threshold.
 *
 * The threshold is documented in seconds, while a chunk's `InhabitedTime`
 * is counted in ticks (20 per second). The engine multiplies the threshold
 * by 20 and the region processor divides it by 20 again, so there is no
 * net conversion: ticks are compared with the configured number itself.
 */
module Units {
  import opened Wrappers

  /** 2^64: the engine targets 64-bit hosts, where `usize` and `u64` coincide. */
  const USIZE_MODULUS: nat := 0x1_0000_0000_0000_0000

  type USize = n: nat | n < USIZE_MODULUS

  const TICKS_PER_SECOND: nat := 20

  /**
   * The freed space is the size before minus the size after, a `u64`
   * subtraction that must not underflow: when both sizes are known, the
   * world did not grow.
   */
  predicate SizesOrdered(sizeBefore: Option<nat>, sizeAfter: Option<nat>)
  {
    sizeBefore.Some? && sizeAfter.Some? ==> sizeAfter.value <= sizeBefore.value
  }

  /**
   * The value handed to the region processor: the configured threshold
   * times 20, as a release build computes it, wrapping modulo 2^64.
   */
  function ScaleThreshold(seconds: USize): (ticks: USize)
    ensures seconds * TICKS_PER_SECOND < USIZE_MODULUS ==> ticks / TICKS_PER_SECOND == seconds
    ensures seconds * TICKS_PER_SECOND < USIZE_MODULUS ==> ticks == seconds * TICKS_PER_SECOND
  {
    (seconds * TICKS_PER_SECOND) % USIZE_MODULUS
  }

  /**
   * The cutoff the region processor compares `InhabitedTime` against: the
   * value it was handed divided by 20, remainder discarded.
   */
  function Cutoff(ticks: USize): (seconds: nat)
    ensures seconds * TICKS_PER_SECOND <= ticks < (seconds + 1) * TICKS_PER_SECOND
  {
    ticks / TICKS_PER_SECOND
  }

  /**
   * A threshold whose tick count does not fit in a `usize` wraps to a
   * smaller cutoff: fewer chunks qualify than the seconds requested.
   */
  lemma ThresholdOverflow(seconds: USize)
    requires seconds * TICKS_PER_SECOND >= USIZE_MODULUS
    ensures Cutoff(ScaleThreshold(seconds)) < seconds
  {
    assert ScaleThreshold(seconds) < seconds * TICKS_PER_SECOND;
  }
}
