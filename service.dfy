/**
 * The coordination service: the single owner of the shared caffeine state. It
 * decodes SetState requests, drives the backend, stores the new state and
 * emits a StateChanged signal carrying it.
 */
module Service {
  import opened Wrappers
  import opened Numeric
  import opened Decimal
  import opened State
  import opened Backend

  /** The selection index of a SetState request: 0, 1 and 2 are the fixed timers, anything else is manual. */
  function DecodeSelection(idx: U32): (sel: TimerSelection)
    ensures sel == Infinity <==> idx == 0
    ensures sel == OneHour <==> idx == 1
    ensures sel == TwoHours <==> idx == 2
    ensures sel == Manual <==> idx >= 3
  {
    match idx
    case 0 => Infinity
    case 1 => OneHour
    case 2 => TwoHours
    case _ => Manual
  }

  /** A requested number of minutes of zero stands for "none given". */
  function ManualMinutes(mins: U32): (m: Option<U64>)
    ensures m.None? <==> mins == 0
    ensures m.Some? ==> m.value == mins
  {
    if mins > 0 then Some(mins) else None
  }

  /** The absolute expiry `now + duration`, absent for an unbounded timer. */
  function ExpiryAfter(duration: Option<U64>, now: U64): (e: Option<U64>)
    ensures e.None? <==> duration.None?
    ensures duration.Some? && now + duration.value < U64_BOUND ==> e == Some(now + duration.value)
  {
    if duration.Some? then Some(WrappingAdd(now, duration.value)) else None
  }

  /** The reason handed to the portal with an inhibit request. */
  function Reason(sel: TimerSelection, mins: U32): (reason: string)
    ensures |reason| > 13 && reason[..13] == "User enabled "
    ensures sel == Manual <==> |reason| > 35
  {
    match sel
    case Infinity => "User enabled infinity caffeine mode"
    case OneHour => "User enabled 1-hour caffeine timer"
    case TwoHours => "User enabled 2-hour caffeine timer"
    case Manual => "User enabled " + DecimalString(mins) + "-minute caffeine timer"
  }

  /** The portal is told which timer was chosen, and for a manual timer how many minutes were asked for. */
  lemma ReasonDetermines(a: TimerSelection, m: U32, b: TimerSelection, n: U32)
    requires Reason(a, m) == Reason(b, n)
    ensures a == b
    ensures a == Manual ==> m == n
  {
    var r := Reason(a, m);
    if a == Manual {
      assert b == Manual;
      var dm, dn := DecimalString(m), DecimalString(n);
      assert |dm| == |dn|;
      assert r[13..13 + |dm|] == dm;
      assert Reason(b, n)[13..13 + |dn|] == dn;
      DecimalInjective(m, n);
    } else {
      assert b != Manual;
    }
  }

  /** The state an accepted SetState(true, idx, mins) request stores, with the clock at `now`. */
  function RequestedState(idx: U32, mins: U32, now: U64): (s: CaffeineState)
    ensures IsActive(s) && s.selection == DecodeSelection(idx)
  {
    var sel := DecodeSelection(idx);
    Active(sel, ExpiryAfter(DurationSecs(sel, ManualMinutes(mins)), now))
  }

  /** A clock far enough from the `i64` limit that no timer can overflow it. */
  predicate ClockInRange(now: U64) {
    now < I64_BOUND - U32_BOUND * 60
  }

  /**
   * The expiry a request stores: none for Infinity and for a manual timer of
   * zero minutes, otherwise `now` plus one hour, two hours or the minutes asked for.
   */
  lemma RequestedExpiry(idx: U32, mins: U32, now: U64)
    requires ClockInRange(now)
    ensures var s := RequestedState(idx, mins, now);
      && (s.expiryTs == NO_EXPIRY <==> idx == 0 || (idx >= 3 && mins == 0))
      && (idx == 1 ==> s.expiryTs == now + 3600)
      && (idx == 2 ==> s.expiryTs == now + 7200)
      && (idx >= 3 && mins > 0 ==> s.expiryTs == now + mins * 60)
  {
  }

  /**
   * Read at the moment it is stored, the remaining time of a requested state is
   * the duration of the chosen timer.
   */
  lemma RequestedRemaining(idx: U32, mins: U32, now: U64)
    requires ClockInRange(now)
    ensures RemainingSecs(RequestedState(idx, mins, now), now)
              == DurationSecs(DecodeSelection(idx), ManualMinutes(mins))
  {
    var sel := DecodeSelection(idx);
    var d := DurationSecs(sel, ManualMinutes(mins));
    if d.Some? {
      RemainingRoundTrip(sel, now + d.value, now);
    }
  }

  /** The service object: the backend it drives, the stored state and the signals it has emitted. */
  class CaffeineService {
    const backend: CaffeineBackend
    var state: CaffeineState
    /** The StateChanged signals emitted so far, oldest first. */
    var signals: seq<CaffeineState>

    /** The stored state is active exactly when the backend holds an inhibit handle. */
    ghost predicate Valid()
      reads this, backend
    {
      state.active <==> backend.inhibitHandle.Some?
    }

    constructor (backend: CaffeineBackend, initial: CaffeineState)
      ensures this.backend == backend && state == initial && signals == []
      ensures Valid() <==> (initial.active <==> backend.inhibitHandle.Some?)
    {
      this.backend := backend;
      state := initial;
      signals := [];
    }

    /**
     * SetState(active, selectionIdx, manualMins). Deactivating releases the
     * backend and always stores the inactive state. Activating asks the backend
     * to inhibit; if that fails the request is dropped with the state unchanged
     * and no signal. Every stored state is emitted once as StateChanged. The
     * reply is always success.
     */
    method SetState(active: bool, selectionIdx: U32, manualMins: U32, now: U64) returns (ok: bool)
      modifies this, backend, backend.portal
      ensures ok
      ensures old(Valid()) ==> Valid()
      ensures !active ==>
                && state == Inactive()
                && signals == old(signals) + [Inactive()]
                && backend.inhibitHandle == None
                && backend.portal.inhibitLog == old(backend.portal.inhibitLog)
                && (old(backend.inhibitHandle).None? ==> backend.portal.closeLog == old(backend.portal.closeLog))
                && (old(backend.inhibitHandle).Some? ==>
                      |backend.portal.closeLog| == |old(backend.portal.closeLog)| + 1
                      && backend.portal.closeLog[|backend.portal.closeLog| - 1].handle == old(backend.inhibitHandle).value)
      ensures active ==> backend.portal.closeLog == old(backend.portal.closeLog)
      ensures active && backend.inhibitHandle.Some? ==>
                state == RequestedState(selectionIdx, manualMins, now) && signals == old(signals) + [state]
      ensures active && backend.inhibitHandle.None? ==> state == old(state) && signals == old(signals)
      ensures active && old(backend.inhibitHandle).Some? ==>
                backend.inhibitHandle == old(backend.inhibitHandle)
                && backend.portal.inhibitLog == old(backend.portal.inhibitLog)
      ensures active && old(backend.inhibitHandle).None? ==>
                backend.portal.inhibitLog == old(backend.portal.inhibitLog)
                || backend.portal.inhibitLog == old(backend.portal.inhibitLog)
                     + [InhibitCall(Reason(DecodeSelection(selectionIdx), manualMins), backend.inhibitHandle)]
      ensures active && old(backend.inhibitHandle).None? && backend.inhibitHandle.Some? ==>
                backend.portal.inhibitLog == old(backend.portal.inhibitLog)
                  + [InhibitCall(Reason(DecodeSelection(selectionIdx), manualMins), backend.inhibitHandle)]
    {
      var newState: CaffeineState;
      if active {
        var selection := DecodeSelection(selectionIdx);
        var duration := DurationSecs(selection, ManualMinutes(manualMins));
        var expiry := ExpiryAfter(duration, now);
        var reason := Reason(selection, manualMins);
        var r := backend.Inhibit(reason);
        if r.Err? {
          return true;
        }
        newState := Active(selection, expiry);
      } else {
        var _ := backend.Uninhibit();
        newState := Inactive();
      }
      state := newState;
      signals := signals + [newState];
      ok := true;
    }

    /** GetState(): the stored state, read without touching the backend. */
    method GetState() returns (s: CaffeineState)
      ensures s == state
    {
      s := state;
    }
  }
}
