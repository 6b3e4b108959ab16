/**
 * The panel applet's client side: its model fields, the update function that
 * reacts to each message, the timer-subscription condition and the arithmetic
 * of the status line. Asynchronous work is returned as a Task value.
 */
module App {
  import opened Wrappers
  import opened Numeric
  import opened Decimal
  import opened State
  import opened Service

  /** Identifies a window (the popup or the applet's main window). */
  type WindowId = nat

  /** The client handle to the coordination service on the session bus. */
  datatype ManagerProxy = ManagerProxy(connection: nat)

  /** The messages the applet reacts to. */
  datatype Message =
    | SelectTimer(selection: TimerSelection)
    | ManualInputChanged(value: string)
    | ToggleCaffeine
    | SetState(active: bool)
    | TimerTick
    | PopupClosed(id: WindowId)
    | TogglePopup
    | Surface
    | Hover(hovered: bool)
    | DBusReady(proxy: Option<ManagerProxy>)
    | StateChanged(state: CaffeineState)

  /** The follow-up work update hands back to the runtime. */
  datatype Task =
    | NoTask
      /** Deliver `message` to update next. */
    | Dispatch(message: Message)
      /** Call SetState on the service; completes with Hover(false). */
    | RemoteSetState(via: ManagerProxy, active: bool, selectionIdx: U32, manualMins: U32)
      /** Call GetState on the service; completes with StateChanged(state), or Hover(false) on error. */
    | FetchState(via: ManagerProxy)
      /** Ask the compositor for a popup anchored to the main window. */
    | OpenPopup(parent: WindowId)
      /** Pass a surface action through to the runtime. */
    | SurfaceAction

  /**
   * Rust's `str::parse::<u32>`: an optional leading '+', then one or more ASCII
   * digits denoting a value below 2^32.
   */
  function ParseU32(s: string): (r: Option<U32>)
    ensures s == [] ==> r.None?
    ensures AllDigits(s) && s != [] ==> (r.Some? <==> DigitsValue(s) < U32_BOUND)
    ensures AllDigits(s) && r.Some? ==> r.value == DigitsValue(s)
  {
    if s == [] then None
    else
      var digits := if s[0] == '+' then s[1..] else s;
      if digits == [] || !AllDigits(digits) then None
      else if DigitsValue(digits) < U32_BOUND then Some(DigitsValue(digits))
      else None
  }

  /** Parsing reads back every formatted `u32`. */
  lemma ParseFormatted(n: U32)
    ensures ParseU32(DecimalString(n)) == Some(n)
  {
    DecimalRoundTrip(n);
  }

  /** The minutes a manual timer sends: the parsed text, or 30 when it does not parse. */
  function ManualMinutesFromInput(input: string): (mins: U32)
    ensures ParseU32(input).Some? ==> mins == ParseU32(input).value
    ensures ParseU32(input).None? ==> mins == 30
  {
    match ParseU32(input)
    case Some(v) => v
    case None => 30
  }

  /** The (selection index, minutes) pair a SetState request carries; the service decodes it back. */
  function EncodeSelection(sel: TimerSelection, manualInput: string): (r: (U32, U32))
    ensures DecodeSelection(r.0) == sel
    ensures sel != Manual ==> r.1 == 0
    ensures sel == Manual ==> r.1 == ManualMinutesFromInput(manualInput)
  {
    match sel
    case Infinity => (0, 0)
    case OneHour => (1, 0)
    case TwoHours => (2, 0)
    case Manual => (3, ManualMinutesFromInput(manualInput))
  }

  /**
   * On digit-only text the fallback to 30 minutes happens exactly when the text
   * is empty or too large for a `u32`; "0" is sent as zero minutes.
   */
  lemma ManualFallback(input: string)
    requires AllDigits(input)
    ensures ParseU32(input).None? <==> input == [] || DigitsValue(input) >= U32_BOUND
    ensures input != [] && DigitsValue(input) < U32_BOUND ==>
              EncodeSelection(Manual, input) == (3, DigitsValue(input))
    ensures input == [] ==> EncodeSelection(Manual, input) == (3, 30)
  {
  }

  /** The text "0" parses to zero, not to the fallback. */
  lemma ZeroIsNotFallback()
    ensures EncodeSelection(Manual, "0") == (3, 0)
  {
    assert DigitsValue("0") == 0 by {
      assert "0"[..0] == [];
    }
  }

  /** A timer tick asks for deactivation exactly when the state is active and no time remains. */
  function TickExpired(s: CaffeineState, now: U64): (fire: bool)
    ensures fire <==> IsActive(s) && s.expiryTs != NO_EXPIRY && I64ToU64(s.expiryTs) <= now
  {
    match RemainingSecs(s, now)
    case Some(remaining) => remaining == 0 && IsActive(s)
    case None => false
  }

  /** The unit the status line counts in. */
  datatype TimeUnit = Hours | Minutes | Seconds

  /** Whole hours and leftover whole minutes of `secs`. */
  function HoursMinutes(secs: U64): (hm: (nat, nat))
    ensures hm.1 < 60
    ensures hm.0 * 3600 + hm.1 * 60 <= secs < hm.0 * 3600 + hm.1 * 60 + 60
  {
    (secs / 3600, (secs % 3600) / 60)
  }

  /** Hours from one hour up, minutes from one minute up, seconds below that. */
  function StatusUnit(secs: U64): (u: TimeUnit)
    ensures u == Hours <==> secs >= 3600
    ensures u == Minutes <==> 60 <= secs < 3600
    ensures u == Seconds <==> secs < 60
  {
    var hm := HoursMinutes(secs);
    if hm.0 > 0 then Hours else if hm.1 > 0 then Minutes else Seconds
  }

  /** The status line of the popup, computed from the cached state at `now`. */
  function StatusText(s: CaffeineState, now: U64): (text: string)
    ensures |text| > 0
  {
    if !IsActive(s) then "Caffeine is off"
    else
      var caption := Label(s.selection);
      match RemainingSecs(s, now)
      case None => caption + " mode active"
      case Some(secs) =>
        var hm := HoursMinutes(secs);
        match StatusUnit(secs)
        case Hours => caption + " - " + DecimalString(hm.0) + "h " + DecimalString(hm.1) + "m remaining"
        case Minutes => caption + " - " + DecimalString(hm.1) + "m remaining"
        case Seconds => caption + " - " + DecimalString(secs) + "s remaining"
  }

  /** The status line says caffeine is off exactly when the state is inactive. */
  lemma StatusOffExactlyWhenInactive(s: CaffeineState, now: U64)
    ensures StatusText(s, now) == "Caffeine is off" <==> !IsActive(s)
  {
    if IsActive(s) {
      var caption := Label(s.selection);
      assert StatusText(s, now)[0] == caption[0];
    }
  }

  /** Everything update reads and writes. */
  datatype AppView = AppView(
    selectedTimer: TimerSelection,
    manualInput: string,
    caffeineState: CaffeineState,
    popup: Option<WindowId>,
    proxy: Option<ManagerProxy>,
    isHovered: bool)

  /** The applet's model. */
  class AppModel {
    var selectedTimer: TimerSelection
    var manualInput: string
    var caffeineState: CaffeineState
    var popup: Option<WindowId>
    var proxy: Option<ManagerProxy>
    var isHovered: bool
    /** The applet's main window, as the runtime core reports it. */
    const mainWindow: Option<WindowId>

    /** The manual-minutes text only ever holds ASCII digits. */
    ghost predicate Valid()
      reads this
    {
      AllDigits(manualInput)
    }

    ghost function View(): AppView
      reads this
    {
      AppView(selectedTimer, manualInput, caffeineState, popup, proxy, isHovered)
    }

    /** The initial model: Infinity selected, "30" minutes typed, inactive, no popup, no proxy. */
    constructor Init(mainWindow: Option<WindowId>)
      ensures Valid() && this.mainWindow == mainWindow
      ensures View() == AppView(Infinity, "30", Inactive(), None, None, false)
    {
      selectedTimer := Infinity;
      manualInput := "30";
      caffeineState := Inactive();
      popup := None;
      proxy := None;
      isHovered := false;
      this.mainWindow := mainWindow;
    }

    /** The one-second tick runs while the cached state is active, with or without an expiry. */
    function TimerSubscribed(): (b: bool)
      reads this
      ensures b <==> caffeineState.active
    {
      IsActive(caffeineState)
    }

    /** React to one message: update the fields and return the follow-up task. */
    method Update(msg: Message, now: U64) returns (task: Task)
      modifies this
      ensures old(Valid()) ==> Valid()
      ensures msg.DBusReady? && msg.proxy.Some? ==>
                View() == old(View()).(proxy := msg.proxy) && task == FetchState(msg.proxy.value)
      ensures msg.DBusReady? && msg.proxy.None? ==> View() == old(View()) && task == NoTask
      ensures msg.SelectTimer? ==> View() == old(View()).(selectedTimer := msg.selection) && task == NoTask
      ensures msg.ManualInputChanged? ==>
                task == NoTask
                && View() == if AllDigits(msg.value) then old(View()).(manualInput := msg.value) else old(View())
      ensures msg.ToggleCaffeine? ==>
                View() == old(View()) && task == Dispatch(SetState(!old(caffeineState).active))
      ensures msg.SetState? ==>
                View() == old(View())
                && task == if old(proxy).None? then NoTask
                           else
                             var enc := EncodeSelection(old(selectedTimer), old(manualInput));
                             RemoteSetState(old(proxy).value, msg.active, enc.0, enc.1)
      ensures msg.StateChanged? ==> View() == old(View()).(caffeineState := msg.state) && task == NoTask
      ensures msg.TimerTick? ==>
                View() == old(View())
                && task == if TickExpired(old(caffeineState), now) then Dispatch(SetState(false)) else NoTask
      ensures msg.PopupClosed? ==>
                task == NoTask
                && View() == if old(popup) == Some(msg.id) then old(View()).(popup := None) else old(View())
      ensures msg.TogglePopup? ==>
                View() == old(View()) && task == if mainWindow.Some? then OpenPopup(mainWindow.value) else NoTask
      ensures msg.Surface? ==> View() == old(View()) && task == SurfaceAction
      ensures msg.Hover? ==> View() == old(View()).(isHovered := msg.hovered) && task == NoTask
    {
      task := NoTask;
      match msg
      case DBusReady(p) =>
        if p.Some? {
          proxy := p;
          task := FetchState(p.value);
        }
      case SelectTimer(selection) =>
        selectedTimer := selection;
      case ManualInputChanged(value) =>
        if AllDigits(value) {
          manualInput := value;
        }
      case ToggleCaffeine =>
        task := Dispatch(SetState(!IsActive(caffeineState)));
      case SetState(active) =>
        if proxy.Some? {
          var enc := EncodeSelection(selectedTimer, manualInput);
          task := RemoteSetState(proxy.value, active, enc.0, enc.1);
        }
      case StateChanged(newState) =>
        caffeineState := newState;
      case TimerTick =>
        if TickExpired(caffeineState, now) {
          task := Dispatch(SetState(false));
        }
      case PopupClosed(id) =>
        if popup == Some(id) {
          popup := None;
        }
      case TogglePopup =>
        if mainWindow.Some? {
          task := OpenPopup(mainWindow.value);
        }
      case Surface =>
        task := SurfaceAction;
      case Hover(hovered) =>
        isHovered := hovered;
    }
  }

  /**
   * The tick subscription covers every state a tick can act on, and a state
   * without expiry keeps the subscription alive while no tick ever fires.
   */
  lemma TicksOnlyWhileSubscribed(s: CaffeineState, now: U64)
    ensures TickExpired(s, now) ==> IsActive(s)
    ensures s.expiryTs == NO_EXPIRY ==> !TickExpired(s, now)
  {
  }
}
