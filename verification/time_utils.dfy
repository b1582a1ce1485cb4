/**
 * Submission-window check and timestamp difference (src/utils/time_utils.cpp).
 * Timestamps are milliseconds; the window is compared in whole seconds, after
 * integer division of both timestamps by 1000.
 */
module TimeUtils {
  import opened Common

  /**
   * `is_time_valid`: the submission second lies in
   * [start second, start second + t_slot + max_delay].
   */
  function IsTimeValid(tStart: u64, tSlot: u32, submitTime: u64, maxDelay: u32): bool
  {
    var startSec := tStart / 1000;
    var submitSec := submitTime / 1000;
    submitSec >= startSec && submitSec <= startSec + tSlot + maxDelay
  }

  /**
   * The same window stated in milliseconds: a submission is valid exactly when it is
   * no earlier than the start of the second containing t_start, and earlier than the
   * end of the second t_slot + max_delay seconds after it.
   */
  lemma WindowInMilliseconds(tStart: u64, tSlot: u32, submitTime: u64, maxDelay: u32)
    ensures IsTimeValid(tStart, tSlot, submitTime, maxDelay)
        <==> (tStart / 1000) * 1000 <= submitTime < (tStart / 1000 + tSlot + maxDelay + 1) * 1000
  {
  }

  /** Submitting at the start time is always in the window. */
  lemma SubmitAtStartIsValid(tStart: u64, tSlot: u32, maxDelay: u32)
    ensures IsTimeValid(tStart, tSlot, tStart, maxDelay)
  {
  }

  /** Submitting one second before the start (when there is one) is never in the window. */
  lemma OneSecondEarlyIsInvalid(tStart: u64, tSlot: u32, maxDelay: u32)
    requires tStart >= 1000
    ensures !IsTimeValid(tStart, tSlot, tStart - 1000, maxDelay)
  {
  }

  /** A larger delay tolerance only widens the window. */
  lemma WindowMonotoneInDelay(tStart: u64, tSlot: u32, submitTime: u64, d1: u32, d2: u32)
    requires d1 <= d2
    requires IsTimeValid(tStart, tSlot, submitTime, d1)
    ensures IsTimeValid(tStart, tSlot, submitTime, d2)
  {
  }

  /** `time_diff_seconds`: the whole seconds in the distance between two timestamps. */
  function TimeDiffSeconds(t1: u64, t2: u64): (d: u64)
    ensures d * 1000 <= (if t1 >= t2 then t1 - t2 else t2 - t1) < (d + 1) * 1000
  {
    if t1 < t2 then (t2 - t1) / 1000 else (t1 - t2) / 1000
  }

  /** The difference is symmetric and zero on equal timestamps. */
  lemma TimeDiffSymmetric(t1: u64, t2: u64)
    ensures TimeDiffSeconds(t1, t2) == TimeDiffSeconds(t2, t1)
    ensures TimeDiffSeconds(t1, t1) == 0
  {
  }
}
