/**
 * The caffeine-mode value model: the timer selection, its duration, and the
 * three-field state record exchanged between instances. The wall clock is the
 * parameter `now` (seconds since the Unix epoch).
 */
module State {
  import opened Wrappers
  import opened Numeric

  /** The four timer choices offered to the user. */
  datatype TimerSelection = Infinity | OneHour | TwoHours | Manual

  /**
   * The label shown in the status line. No label starts with 'C', so a status
   * line that begins with a label never reads "Caffeine is off".
   */
  function Label(sel: TimerSelection): (l: string)
    ensures |l| > 0 && l[0] != 'C'
  {
    match sel
    case Infinity => "Infinity"
    case OneHour => "1 Hour"
    case TwoHours => "2 Hours"
    case Manual => "Manual"
  }

  /** No two selections share a label. */
  lemma LabelInjective(a: TimerSelection, b: TimerSelection)
    requires Label(a) == Label(b)
    ensures a == b
  {
    assert Label(a)[0] == Label(b)[0];
  }

  /**
   * The length of a timer in seconds; `None` means no bound. A manual timer
   * without a number of minutes has no bound either.
   */
  function DurationSecs(sel: TimerSelection, manualMins: Option<U64>): (r: Option<U64>)
    ensures r.None? <==> sel == Infinity || (sel == Manual && manualMins.None?)
    ensures sel == OneHour ==> r == Some(3600)
    ensures sel == TwoHours ==> r == Some(7200)
    ensures sel == Manual && manualMins.Some? && manualMins.value < U32_BOUND ==>
              r == Some(manualMins.value * 60)
  {
    match sel
    case Infinity => None
    case OneHour => Some(3600)
    case TwoHours => Some(7200)
    case Manual => if manualMins.Some? then Some(WrappingMul(manualMins.value, 60)) else None
  }

  /** The wire value of "no expiry" in `expiryTs`. */
  const NO_EXPIRY: I64 := -1

  /**
   * The state every instance mirrors. `selection` and `expiryTs` matter only
   * when `active`; `expiryTs` is an absolute Unix time or NO_EXPIRY.
   */
  datatype CaffeineState = CaffeineState(active: bool, selection: TimerSelection, expiryTs: I64)

  /** The canonical inactive state. */
  function Inactive(): (s: CaffeineState)
    ensures !IsActive(s) && s.selection == Infinity && s.expiryTs == NO_EXPIRY
  {
    CaffeineState(false, Infinity, NO_EXPIRY)
  }

  /**
   * An active state for `sel`, expiring at `expiry` (a `u64` stored as `i64`),
   * or never when `expiry` is `None`.
   */
  function Active(sel: TimerSelection, expiry: Option<U64>): (s: CaffeineState)
    ensures IsActive(s) && s.selection == sel
    ensures expiry.None? ==> s.expiryTs == NO_EXPIRY
    ensures expiry.Some? ==> I64ToU64(s.expiryTs) == expiry.value
    ensures expiry.Some? && expiry.value < I64_BOUND ==> s.expiryTs == expiry.value
  {
    CaffeineState(true, sel, if expiry.Some? then U64ToI64(expiry.value) else NO_EXPIRY)
  }

  /** Whether caffeine mode is on: the `active` field as it is. */
  predicate IsActive(s: CaffeineState)
    ensures IsActive(s) <==> s.active
  {
    s.active
  }

  /**
   * The sentinel is reached exactly when there is no expiry, or when the expiry
   * is the largest `u64`, whose `i64` reinterpretation is -1 as well.
   */
  lemma ActiveSentinel(sel: TimerSelection, expiry: Option<U64>)
    ensures Active(sel, expiry).expiryTs == NO_EXPIRY <==>
              expiry.None? || expiry.value == U64_BOUND - 1
  {
    if expiry.Some? && expiry.value != U64_BOUND - 1 {
      assert I64ToU64(Active(sel, expiry).expiryTs) == expiry.value;
    }
  }

  /**
   * Seconds left before expiry, read fresh against `now`: `None` for an
   * inactive state or one without expiry, otherwise the time to expiry
   * clamped at zero.
   */
  function RemainingSecs(s: CaffeineState, now: U64): (r: Option<U64>)
    ensures r.None? <==> !s.active || s.expiryTs == NO_EXPIRY
    ensures r.Some? ==> (r.value == 0 <==> I64ToU64(s.expiryTs) <= now)
    ensures r.Some? && r.value > 0 ==> now + r.value == I64ToU64(s.expiryTs)
  {
    if !s.active || s.expiryTs == NO_EXPIRY then None
    else
      var ts := I64ToU64(s.expiryTs);
      if ts > now then Some(ts - now) else Some(0)
  }

  /** The remaining time never grows as the clock advances. */
  lemma RemainingNonIncreasing(s: CaffeineState, earlier: U64, later: U64)
    requires earlier <= later
    ensures RemainingSecs(s, earlier).Some? <==> RemainingSecs(s, later).Some?
    ensures RemainingSecs(s, later).Some? ==>
              RemainingSecs(s, later).value <= RemainingSecs(s, earlier).value
  {
  }

  /** Once the clock reaches the expiry the remaining time is exactly zero, never negative. */
  lemma RemainingClampsAtZero(sel: TimerSelection, t: U64, now: U64)
    requires t != U64_BOUND - 1 && t <= now
    ensures RemainingSecs(Active(sel, Some(t)), now) == Some(0)
  {
    ActiveSentinel(sel, Some(t));
  }

  /**
   * Round trip: an expiry stored by Active is read back by RemainingSecs as
   * the distance from `now`.
   */
  lemma RemainingRoundTrip(sel: TimerSelection, t: U64, now: U64)
    requires t < I64_BOUND && now <= t
    ensures RemainingSecs(Active(sel, Some(t)), now) == Some(t - now)
  {
  }

  /** An inactive state has no remaining time, whatever the clock says. */
  lemma InactiveHasNoRemaining(s: CaffeineState, now: U64)
    requires !IsActive(s)
    ensures RemainingSecs(s, now) == None
  {
  }
}
