/**
 * The delay between two polls of one accessory (src/platformAccessory.ts,
 * `startPolling`): a 60 s base plus `Math.floor(Math.random() * 10000) + 5000`.
 * The random draw is a parameter `u` in [0, 1).
 */
module Polling {
  /** Base poll interval in milliseconds. */
  const BasePollingInterval: int := 60000

  /** The jitter: a whole number of milliseconds from 5000 to 14999, ten thousand values in all. */
  function RandomInterval(u: real): (j: int)
    requires 0.0 <= u < 1.0
    ensures 5000 <= j <= 14999
  {
    (u * 10000.0).Floor + 5000
  }

  /** The delay after which the next poll is scheduled. */
  function NextPollDelay(u: real): (d: int)
    requires 0.0 <= u < 1.0
    ensures 65000 <= d <= 74999
    ensures d - BasePollingInterval == RandomInterval(u)
  {
    BasePollingInterval + RandomInterval(u)
  }

  /** Every jitter in the range is drawn by some `u`, so the range is exact. */
  lemma EveryJitterIsDrawn(j: int)
    requires 5000 <= j <= 14999
    ensures var u := (j - 5000) as real / 10000.0; 0.0 <= u < 1.0 && RandomInterval(u) == j
  {
  }

  /** The jitter can exceed the ten seconds the source's comment mentions, by almost five seconds. */
  lemma JitterExceedsTenSeconds()
    ensures RandomInterval(0.9999) == 14999
    ensures NextPollDelay(0.9999) == 74999
  {
  }
}
