/**
 * The inhibition slot: at most one outstanding idle-inhibit request held from
 * the desktop portal, acquired and released idempotently.
 */
module Backend {
  import opened Wrappers

  /** An outstanding inhibit request granted by the portal; closing it ends the inhibition. */
  datatype Handle = Handle(id: nat)

  /** One inhibit request made to the portal, and the handle it granted, if any. */
  datatype InhibitCall = InhibitCall(reason: string, granted: Option<Handle>)

  /** One attempt to close a handle, and whether it succeeded. */
  datatype CloseCall = CloseCall(handle: Handle, closed: bool)

  /**
   * The desktop portal's idle-inhibit facility, a foreign service. Each call may
   * succeed or fail; which one is not up to the caller. The ghost logs record
   * every call made to it.
   */
  class Portal {
    ghost var proxyLog: seq<bool>
    ghost var inhibitLog: seq<InhibitCall>
    ghost var closeLog: seq<CloseCall>
    var issued: nat

    constructor ()
      ensures proxyLog == [] && inhibitLog == [] && closeLog == [] && issued == 0
    {
      proxyLog, inhibitLog, closeLog := [], [], [];
      issued := 0;
    }

    /** Create a proxy to the portal; reports whether that worked. */
    method NewProxy() returns (ok: bool)
      modifies this
      ensures proxyLog == old(proxyLog) + [ok]
      ensures inhibitLog == old(inhibitLog) && closeLog == old(closeLog) && issued == old(issued)
    {
      ok :| true;
      proxyLog := proxyLog + [ok];
    }

    /** Ask for idle inhibition; on success a new handle is granted. */
    method Inhibit(reason: string) returns (granted: Option<Handle>)
      modifies this
      ensures granted.Some? ==> granted.value == Handle(old(issued)) && issued == old(issued) + 1
      ensures granted.None? ==> issued == old(issued)
      ensures inhibitLog == old(inhibitLog) + [InhibitCall(reason, granted)]
      ensures proxyLog == old(proxyLog) && closeLog == old(closeLog)
    {
      var ok: bool :| true;
      if ok {
        granted := Some(Handle(issued));
        issued := issued + 1;
      } else {
        granted := None;
      }
      inhibitLog := inhibitLog + [InhibitCall(reason, granted)];
    }

    /** Close a granted handle; reports whether that worked. */
    method Close(h: Handle) returns (ok: bool)
      modifies this
      ensures closeLog == old(closeLog) + [CloseCall(h, ok)]
      ensures proxyLog == old(proxyLog) && inhibitLog == old(inhibitLog) && issued == old(issued)
    {
      ok :| true;
      closeLog := closeLog + [CloseCall(h, ok)];
    }
  }

  /** Why a backend operation failed. */
  datatype BackendError = ProxyUnavailable | InhibitRejected | CloseFailed

  /** The slot holding the current inhibit handle, if any. */
  class CaffeineBackend {
    var inhibitHandle: Option<Handle>
    const portal: Portal

    /** A backend starts with an empty slot. */
    constructor (portal: Portal)
      ensures inhibitHandle == None && this.portal == portal
    {
      inhibitHandle := None;
      this.portal := portal;
    }

    /**
     * Inhibit idle. With a handle already held this succeeds without contacting
     * the portal. Otherwise it creates a proxy and asks for inhibition, and
     * stores the handle only if both steps succeed.
     */
    method Inhibit(reason: string) returns (r: Result<(), BackendError>)
      modifies this, portal
      ensures portal.closeLog == old(portal.closeLog)
      ensures old(inhibitHandle).Some? ==>
                r == Ok(()) && inhibitHandle == old(inhibitHandle)
                && portal.proxyLog == old(portal.proxyLog)
                && portal.inhibitLog == old(portal.inhibitLog)
                && portal.issued == old(portal.issued)
      ensures old(inhibitHandle).None? ==> (r.Ok? <==> inhibitHandle.Some?)
      ensures old(inhibitHandle).None? && r == Err(ProxyUnavailable) ==>
                portal.proxyLog == old(portal.proxyLog) + [false]
                && portal.inhibitLog == old(portal.inhibitLog)
      ensures old(inhibitHandle).None? && r != Err(ProxyUnavailable) ==>
                portal.proxyLog == old(portal.proxyLog) + [true]
                && portal.inhibitLog == old(portal.inhibitLog) + [InhibitCall(reason, inhibitHandle)]
      ensures r.Err? ==> r.error != CloseFailed
    {
      if inhibitHandle.Some? {
        return Ok(());
      }
      var proxyOk := portal.NewProxy();
      if !proxyOk {
        return Err(ProxyUnavailable);
      }
      var granted := portal.Inhibit(reason);
      if granted.None? {
        return Err(InhibitRejected);
      }
      inhibitHandle := granted;
      r := Ok(());
    }

    /**
     * Release the inhibition. The handle is taken out of the slot before it is
     * closed, so the slot is empty afterwards whether or not closing works.
     */
    method Uninhibit() returns (r: Result<(), BackendError>)
      modifies this, portal
      ensures inhibitHandle == None
      ensures portal.proxyLog == old(portal.proxyLog) && portal.inhibitLog == old(portal.inhibitLog)
      ensures portal.issued == old(portal.issued)
      ensures old(inhibitHandle).None? ==> r == Ok(()) && portal.closeLog == old(portal.closeLog)
      ensures old(inhibitHandle).Some? ==>
                portal.closeLog == old(portal.closeLog) + [CloseCall(old(inhibitHandle).value, r.Ok?)]
      ensures r.Err? ==> r.error == CloseFailed
    {
      var held := inhibitHandle;
      inhibitHandle := None;
      if held.Some? {
        var closed := portal.Close(held.value);
        r := if closed then Ok(()) else Err(CloseFailed);
      } else {
        r := Ok(());
      }
    }
  }

  /**
   * Two inhibits in a row: once the first has succeeded the second asks the
   * portal for nothing, so the pair never obtains two grants.
   */
  method InhibitTwice(b: CaffeineBackend, first: string, second: string)
    returns (r1: Result<(), BackendError>, r2: Result<(), BackendError>)
    modifies b, b.portal
    ensures old(b.inhibitHandle).Some? ==>
              r1.Ok? && r2.Ok? && b.portal.inhibitLog == old(b.portal.inhibitLog)
    ensures r1.Ok? ==> r2.Ok? && |b.portal.inhibitLog| <= |old(b.portal.inhibitLog)| + 1
    ensures r1.Ok? ==> b.inhibitHandle.Some?
    ensures |b.portal.inhibitLog| <= |old(b.portal.inhibitLog)| + 2
    ensures forall i, j :: |old(b.portal.inhibitLog)| <= i < j < |b.portal.inhibitLog| ==>
              b.portal.inhibitLog[i].granted.None? || b.portal.inhibitLog[j].granted.None?
  {
    r1 := b.Inhibit(first);
    r2 := b.Inhibit(second);
  }

  /** Two releases in a row close the portal handle at most once, and the second always succeeds. */
  method UninhibitTwice(b: CaffeineBackend) returns (r1: Result<(), BackendError>, r2: Result<(), BackendError>)
    modifies b, b.portal
    ensures r2 == Ok(()) && b.inhibitHandle == None
    ensures |b.portal.closeLog| <= |old(b.portal.closeLog)| + 1
    ensures old(b.inhibitHandle).None? ==> r1 == Ok(()) && b.portal.closeLog == old(b.portal.closeLog)
  {
    r1 := b.Uninhibit();
    r2 := b.Uninhibit();
  }
}
