/**
 * Reputation-driven slot length and the slot-timer state
 * (src/core/proof_generator/time_slot.cpp).
 *
 * The slot length is T = T_MIN + (T_MAX − T_MIN) · (1 − rep) seconds, truncated to an
 * integer: higher reputation gives shorter slots. Reputation values are modelled as
 * reals; the floating-point rounding of the source is not.
 */
module TimeSlot {
  import opened Common

  /** The formula before truncation, with no clamping of rep. */
  function SlotFormula(rep: real): real
  {
    T_MIN as real + (T_MAX - T_MIN) as real * (1.0 - rep)
  }

  /** Conversion of a floating value to an integer type: truncation toward zero. */
  function Trunc(x: real): int
  {
    if x >= 0.0 then x.Floor else -((-x).Floor)
  }

  /**
   * The truncated formula without clamping, as the proof builder and the single
   * verifier compute it; for rep in [0, 1] it is a slot length in [T_MIN, T_MAX].
   */
  function FormulaSlot(rep: real): (len: int)
    ensures 0.0 <= rep <= 1.0 ==> T_MIN <= len <= T_MAX
    ensures 0.0 <= rep <= 1.0 ==> len as real <= SlotFormula(rep) < len as real + 1.0
    ensures SlotRepresentable(rep) ==> 0 <= len < U32_LIMIT
  {
    Trunc(SlotFormula(rep))
  }

  /**
   * The reputations whose unclamped formula converts to `uint32` with a defined result:
   * the value truncated toward zero must lie in [0, 2^32). This holds for roughly
   * −49882 < rep < 1.0035, well beyond [0, 1].
   */
  predicate SlotRepresentable(rep: real)
  {
    -1.0 < SlotFormula(rep) < U32_LIMIT as real
  }

  /**
   * `calculate_slot_length`: rep is first clamped into [MIN_REP, MAX_REP]; full
   * reputation gives T_MIN, zero reputation gives T_MAX.
   */
  function CalculateSlotLength(rep: real): (len: u32)
    ensures T_MIN <= len <= T_MAX
    ensures rep >= MAX_REP ==> len == T_MIN
    ensures rep <= MIN_REP ==> len == T_MAX
    ensures MIN_REP <= rep <= MAX_REP ==> len == FormulaSlot(rep)
  {
    FormulaSlot(ClampRep(rep))
  }

  /** Higher reputation never lengthens the slot. */
  lemma SlotLengthNonIncreasing(rep1: real, rep2: real)
    requires rep1 <= rep2
    ensures CalculateSlotLength(rep1) >= CalculateSlotLength(rep2)
  {
    var c1, c2 := ClampRep(rep1), ClampRep(rep2);
    assert c1 <= c2;
    assert SlotFormula(c2) <= SlotFormula(c1);
  }

  /** Reputation 0.5 gives 300 + 86100 · 0.5 = 43350 seconds. */
  lemma SlotLengthAtHalf()
    ensures CalculateSlotLength(0.5) == 43350
  {
    assert SlotFormula(0.5) == 43350.0;
  }

  // ---------------------------------------------------------------------------
  // Slot-timer state (the timer thread itself is not modelled)
  // ---------------------------------------------------------------------------

  datatype TimeSlot = TimeSlot(rep: real, slotId: u64, slotLength: u32, running: bool)

  /** The state invariant: the stored length is the one the stored reputation gives. */
  predicate Valid(s: TimeSlot)
  {
    s.slotLength == CalculateSlotLength(s.rep)
  }

  /** `TimeSlot(initial_rep)`: slot 0, not running, length from the initial reputation. */
  function NewTimeSlot(initialRep: real): (s: TimeSlot)
    ensures Valid(s) && s.slotId == 0 && !s.running && s.rep == initialRep
    ensures T_MIN <= s.slotLength <= T_MAX
  {
    TimeSlot(initialRep, 0, CalculateSlotLength(initialRep), false)
  }

  /** `update_reputation`: stores the new reputation and recomputes the length; the slot id is kept. */
  function UpdateReputation(s: TimeSlot, newRep: real): (s': TimeSlot)
    ensures Valid(s') && s'.rep == newRep
    ensures s'.slotId == s.slotId && s'.running == s.running
  {
    s.(rep := newRep, slotLength := CalculateSlotLength(newRep))
  }

  /** `get_current_slot_id`. */
  function CurrentSlotId(s: TimeSlot): u64
  {
    s.slotId
  }

  /** `get_current_slot_length`: on a valid state, a length in [T_MIN, T_MAX] fixed by the reputation. */
  function CurrentSlotLength(s: TimeSlot): (len: u32)
    requires Valid(s)
    ensures T_MIN <= len <= T_MAX
    ensures len == CalculateSlotLength(s.rep)
  {
    s.slotLength
  }
}
