/**
 * How the pieces meet in one applet instance: the choice between owning the
 * service and being a plain client, the expiry round trip from a timer tick to
 * the broadcast inactive state, and what a manual timer request turns into.
 */
module Session {
  import opened Wrappers
  import opened Numeric
  import opened Decimal
  import opened State
  import opened Backend
  import opened Service
  import opened App

  /**
   * The instance that claims the well-known bus name owns a fresh service with
   * an empty backend slot and the inactive state; the others own none.
   */
  method ResolveRole(claimed: bool, portal: Portal) returns (owner: Option<CaffeineService>)
    ensures owner.Some? <==> claimed
    ensures owner.Some? ==>
              && fresh(owner.value) && fresh(owner.value.backend)
              && owner.value.Valid()
              && owner.value.state == Inactive() && owner.value.signals == []
              && owner.value.backend.inhibitHandle == None && owner.value.backend.portal == portal
  {
    if claimed {
      var backend := new CaffeineBackend(portal);
      var service := new CaffeineService(backend, Inactive());
      owner := Some(service);
    } else {
      owner := None;
    }
  }

  /**
   * Expiry: a tick that finds no time left sends SetState(false) through the
   * proxy; the service releases the inhibition, stores and broadcasts the
   * inactive state, and the applet that receives it stops ticking.
   */
  method ExpiryDeactivates(app: AppModel, service: CaffeineService, now: U64)
    requires app.proxy.Some? && TickExpired(app.caffeineState, now)
    modifies app, service, service.backend, service.backend.portal
    ensures service.state == Inactive() && service.signals == old(service.signals) + [Inactive()]
    ensures service.backend.inhibitHandle == None
    ensures app.caffeineState == Inactive() && !app.TimerSubscribed()
    ensures app.selectedTimer == old(app.selectedTimer) && app.manualInput == old(app.manualInput)
  {
    var tick := app.Update(TimerTick, now);
    var call := app.Update(tick.message, now);
    var _ := service.SetState(call.active, call.selectionIdx, call.manualMins, now);
    var broadcast := service.signals[|service.signals| - 1];
    var _ := app.Update(StateChanged(broadcast), now);
    var _ := app.Update(Hover(false), now);
  }

  /**
   * A manual timer whose text reads zero ("0", "00", ...) is sent as zero
   * minutes and activates caffeine mode with no expiry: no countdown, no tick
   * that ever fires, and a status line without remaining time.
   */
  lemma ManualZeroRunsWithoutExpiry(input: string, now: U64)
    requires AllDigits(input) && input != [] && DigitsValue(input) == 0
    ensures var enc := EncodeSelection(Manual, input);
            var s := RequestedState(enc.0, enc.1, now);
            && enc == (3, 0)
            && s.selection == Manual && s.expiryTs == NO_EXPIRY
            && RemainingSecs(s, now) == None
            && !TickExpired(s, now)
            && StatusText(s, now) == "Manual mode active"
  {
    ManualFallback(input);
  }

  /** Empty manual text falls back to thirty minutes: the stored expiry is `now + 1800`. */
  lemma EmptyInputRunsThirtyMinutes(now: U64)
    requires ClockInRange(now)
    ensures var enc := EncodeSelection(Manual, "");
            var s := RequestedState(enc.0, enc.1, now);
            && enc == (3, 30)
            && s.expiryTs == now + 1800
            && RemainingSecs(s, now) == Some(1800)
  {
    var enc := EncodeSelection(Manual, "");
    RequestedExpiry(enc.0, enc.1, now);
    RequestedRemaining(enc.0, enc.1, now);
  }
}
