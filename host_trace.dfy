// Runs of the host interface: the ordered work queue applies one handler
// after another, so a run is a fold of the step functions over a list of
// events. The lemmas here are about whole runs.
module HostTrace {
  import opened Bytes
  import opened HostIf

  /** One unit of work: a user request, a timer that fired, or a firmware event. */
  datatype Event =
    | ScanEv(v: nat, r: ScanReq, ch: seq<byte>, sendRes: int)
    | ScanCompleteEv(v: nat)
    | ScanTimerEv(v: nat, sendRes: int)
    | JoinEv(v: nat, bssid: Option<seq<byte>>, ies: Option<seq<byte>>, allocOk: bool, sendRes: int)
    | ConnectTimeoutEv(v: nat)
    | ConnectCancelEv(v: nat)
    | AsyncInfoEv(v: nat, status: byte, assocStatus: Option<nat>)
    | DisconnectEv(v: nat, sendRes: int)
    | RemainOnChanEv(v: nat, roc: Roc, allocOk: bool, sendRes: int)
    | ListenExpiredEv(v: nat, cookie: nat, allocOk: bool, sendRes: int)
    | InitEv(v: nat, allocOk: bool)
    | DeinitEv(v: nat)

  /**
   * The device after one event. An event naming no interface, or one whose
   * handler would dereference a missing driver, leaves the device as it was.
   */
  function Apply(d: Dev, e: Event): Dev
  {
    if e.v >= |d.vifs| then d
    else match e
      case ScanEv(v, r, ch, sendRes) =>
        if Live(d, v) && ValidScanReq(r) then ScanStep(d, v, r, ch, sendRes).dev else d
      case ScanCompleteEv(v) => if Live(d, v) then ScanCompleteStep(d, v).dev else d
      case ScanTimerEv(v, sendRes) => ScanTimerStep(d, v, sendRes).dev
      case JoinEv(v, bssid, ies, allocOk, sendRes) =>
        if Live(d, v) then JoinStep(d, v, bssid, ies, allocOk, sendRes).dev else d
      case ConnectTimeoutEv(v) => ConnectTimeoutStep(d, v).dev
      case ConnectCancelEv(v) => if Live(d, v) then ConnectCancelStep(d, v).dev else d
      case AsyncInfoEv(v, status, assocStatus) => AsyncInfoStep(d, v, status, assocStatus).dev
      case DisconnectEv(v, sendRes) => if Live(d, v) then DisconnectStep(d, v, sendRes).dev else d
      case RemainOnChanEv(v, roc, allocOk, sendRes) => RemainOnChanStep(d, v, roc, allocOk, sendRes).dev
      case ListenExpiredEv(v, cookie, allocOk, sendRes) => ListenExpiredStep(d, v, cookie, allocOk, sendRes).dev
      case InitEv(v, allocOk) => InitStep(d, v, allocOk).dev
      case DeinitEv(v) => DeinitStep(d, v).dev
  }

  function Run(d: Dev, evs: seq<Event>): Dev
    decreases |evs|
  {
    if evs == [] then d else Run(Apply(d, evs[0]), evs[1..])
  }

  /** No interface is SCANNING. */
  predicate NoScanning(d: Dev) { !AnyScanning(d.vifs) }

  /** The logs only grow, and the interface list keeps its length and indices. */
  predicate Extends(d: Dev, e: Dev)
  {
    |e.vifs| == |d.vifs| && d.sent <= e.sent && d.notices <= e.notices
    && forall i :: 0 <= i < |d.vifs| ==> e.vifs[i].idx == d.vifs[i].idx
  }

  /**
   * A handler that changed only interface `v`, left it not SCANNING and only
   * appended to the logs keeps every interface out of SCANNING.
   */
  lemma OneVifChanged(d: Dev, e: Dev, v: nat)
    requires NoScanning(d) && OthersUnchanged(d, e, v)
    requires d.sent <= e.sent && d.notices <= e.notices
    requires !ScanningVif(e.vifs[v])
    ensures NoScanning(e) && Extends(d, e)
  {
  }

  lemma ScanDoneKeeps(d: Dev, v: nat, ev: ScanEvent, sendRes: int)
    requires NoScanning(d) && v < |d.vifs|
    ensures var e := ScanDoneStep(d, v, ev, sendRes).dev; NoScanning(e) && Extends(d, e)
  {
    if Live(d, v) {
      assert !ScanningVif(d.vifs[v]);
      OneVifChanged(d, ScanDoneStep(d, v, ev, sendRes).dev, v);
    }
  }

  lemma ScanTimerKeeps(d: Dev, v: nat, sendRes: int)
    requires NoScanning(d) && v < |d.vifs|
    ensures var e := ScanTimerStep(d, v, sendRes).dev; NoScanning(e) && Extends(d, e)
  {
    if Live(d, v) {
      var d1 := SetDrv(d, v, DrvAt(d, v).(scanTimer := None));
      assert !ScanningVif(d.vifs[v]);
      OneVifChanged(d, d1, v);
      ScanDoneKeeps(d1, v, ScanEventAborted, sendRes);
    }
  }

  lemma AsyncInfoKeeps(d: Dev, v: nat, status: byte, assocStatus: Option<nat>)
    requires NoScanning(d) && v < |d.vifs|
    ensures var e := AsyncInfoStep(d, v, status, assocStatus).dev; NoScanning(e) && Extends(d, e)
  {
    if Live(d, v) && DrvAt(d, v).connCb {
      var drv := DrvAt(d, v);
      assert !ScanningVif(d.vifs[v]);
      var e := AsyncInfoStep(d, v, status, assocStatus).dev;
      if drv.state != ExternalAuth && drv.state != WaitingConnResp && drv.state != Connected
         && status == MacStatusDisconnected && drv.scanCb {
        var d1 := SetDrv(d, v, drv.(scanTimer := None));
        OneVifChanged(d, d1, v);
        ScanDoneKeeps(d1, v, ScanEventAborted, 0);
      } else if drv.state != ExternalAuth && drv.state != WaitingConnResp && status != MacStatusDisconnected {
      } else if drv.state != ExternalAuth && drv.state != WaitingConnResp && drv.state != Connected {
        assert e == d;
      } else {
        OneVifChanged(d, e, v);
      }
    }
  }

  lemma ScanKeeps(d: Dev, ev: Event)
    requires NoScanning(d) && ev.ScanEv?
    ensures NoScanning(Apply(d, ev)) && Extends(d, Apply(d, ev))
  {
    var e := Apply(d, ev);
    var v := ev.v;
    if v < |d.vifs| && Live(d, v) {
      assert !ScanningVif(d.vifs[v]);
      if ValidScanReq(ev.r) && !ScanBusy(d, v) { OneVifChanged(d, e, v); }
    }
  }

  lemma JoinKeeps(d: Dev, ev: Event)
    requires NoScanning(d) && ev.JoinEv?
    ensures NoScanning(Apply(d, ev)) && Extends(d, Apply(d, ev))
  {
    var e := Apply(d, ev);
    var v := ev.v;
    if v < |d.vifs| && Live(d, v) {
      assert !ScanningVif(d.vifs[v]);
      var j := JoinStep(d, v, ev.bssid, ev.ies, ev.allocOk, ev.sendRes);
      assert e == j.dev;
      assert DrvAt(j.dev, v).state != Scanning by {
        if j.ret == 0 {} else {}
      }
      OneVifChanged(d, e, v);
    }
  }

  lemma DisconnectKeeps(d: Dev, ev: Event)
    requires NoScanning(d) && ev.DisconnectEv?
    ensures NoScanning(Apply(d, ev)) && Extends(d, Apply(d, ev))
  {
    var e := Apply(d, ev);
    var v := ev.v;
    if v < |d.vifs| && Live(d, v) {
      assert !ScanningVif(d.vifs[v]);
      assert AbortScanningFrom(d, 0) == d;
      OneVifChanged(d, e, v);
    }
  }

  lemma RemainOnChanKeeps(d: Dev, ev: Event)
    requires NoScanning(d) && ev.RemainOnChanEv?
    ensures NoScanning(Apply(d, ev)) && Extends(d, Apply(d, ev))
  {
    var e := Apply(d, ev);
    var v := ev.v;
    if v < |d.vifs| && Live(d, v) {
      assert !ScanningVif(d.vifs[v]);
      if !ScanBusy(d, v) && ev.allocOk { OneVifChanged(d, e, v); }
    }
  }

  lemma UserRequestKeeps(d: Dev, ev: Event)
    requires NoScanning(d) && (ev.ScanEv? || ev.JoinEv? || ev.DisconnectEv? || ev.RemainOnChanEv?)
    ensures NoScanning(Apply(d, ev)) && Extends(d, Apply(d, ev))
  {
    if ev.ScanEv? { ScanKeeps(d, ev); }
    else if ev.JoinEv? { JoinKeeps(d, ev); }
    else if ev.DisconnectEv? { DisconnectKeeps(d, ev); }
    else { RemainOnChanKeeps(d, ev); }
  }

  lemma DeviceEventKeeps(d: Dev, ev: Event)
    requires NoScanning(d) && (ev.ScanCompleteEv? || ev.ScanTimerEv? || ev.ConnectTimeoutEv? || ev.AsyncInfoEv?)
    ensures NoScanning(Apply(d, ev)) && Extends(d, Apply(d, ev))
  {
    var e := Apply(d, ev);
    if ev.v < |d.vifs| {
      var v := ev.v;
      if Live(d, v) {
        assert !ScanningVif(d.vifs[v]);
      }
      match ev {
        case ScanCompleteEv(_) =>
          if Live(d, v) { OneVifChanged(d, e, v); }
        case ScanTimerEv(_, sendRes) => ScanTimerKeeps(d, v, sendRes);
        case ConnectTimeoutEv(_) =>
          if Live(d, v) { OneVifChanged(d, e, v); }
        case AsyncInfoEv(_, status, assocStatus) => AsyncInfoKeeps(d, v, status, assocStatus);
      }
    }
  }

  lemma LifecycleKeeps(d: Dev, ev: Event)
    requires NoScanning(d) && (ev.ListenExpiredEv? || ev.InitEv? || ev.DeinitEv? || ev.ConnectCancelEv?)
    ensures NoScanning(Apply(d, ev)) && Extends(d, Apply(d, ev))
  {
    var e := Apply(d, ev);
    if ev.v < |d.vifs| {
      var v := ev.v;
      if Live(d, v) {
        assert !ScanningVif(d.vifs[v]);
      }
      match ev {
        case ListenExpiredEv(_, cookie, allocOk, sendRes) =>
          if Live(d, v) && DrvAt(d, v).state == P2pListen && allocOk { OneVifChanged(d, e, v); }
        case InitEv(_, allocOk) =>
          if allocOk { OneVifChanged(d, e, v); }
        case DeinitEv(_) =>
          if Live(d, v) { OneVifChanged(d, e, v); }
        case ConnectCancelEv(_) =>
          if Live(d, v) { OneVifChanged(d, e, v); }
      }
    }
  }

  /** One handler never makes an interface SCANNING and never shrinks the logs. */
  lemma ApplyKeepsNoScanning(d: Dev, ev: Event)
    requires NoScanning(d)
    ensures NoScanning(Apply(d, ev)) && Extends(d, Apply(d, ev))
  {
    if ev.ScanEv? || ev.JoinEv? || ev.DisconnectEv? || ev.RemainOnChanEv? {
      UserRequestKeeps(d, ev);
    } else if ev.ScanCompleteEv? || ev.ScanTimerEv? || ev.ConnectTimeoutEv? || ev.AsyncInfoEv? {
      DeviceEventKeeps(d, ev);
    } else {
      LifecycleKeeps(d, ev);
    }
  }

  /**
   * No handler assigns SCANNING: from a device where no interface is
   * SCANNING, every run keeps it so, keeps the interface list, and only
   * appends to the WID and callback logs.
   */
  lemma {:induction false} RunNeverScanning(d: Dev, evs: seq<Event>)
    requires NoScanning(d)
    ensures NoScanning(Run(d, evs)) && Extends(d, Run(d, evs))
    decreases |evs|
  {
    if evs != [] {
      ApplyKeepsNoScanning(d, evs[0]);
      RunNeverScanning(Apply(d, evs[0]), evs[1..]);
    }
  }

  /**
   * Consequently the SCANNING tests are dead in every reachable device: a
   * join is never refused for a scan in progress, and the first loop of a
   * disconnect does nothing.
   */
  lemma {:induction false} ScanningTestsAreDead(d: Dev, evs: seq<Event>, v: nat, sendRes: int)
    requires NoScanning(d)
    requires Live(Run(d, evs), v)
    ensures var e := Run(d, evs);
      ConnectWidStep(e, v, sendRes).ret != EBUSY || sendRes == EBUSY
    ensures AbortScanningFrom(Run(d, evs), 0) == Run(d, evs)
  {
    RunNeverScanning(d, evs);
  }

  /**
   * A pending scan does not block a join: the join is accepted while the scan
   * callback stays registered, and the scan's completion then moves the
   * interface out of WAITING_CONN_RESP to IDLE or CONNECTED, so the
   * firmware's later CONNECTED status is ignored and no connection result
   * is delivered.
   */
  lemma JoinOverriddenByScanCompletion(d: Dev, v: nat, ies: Option<seq<byte>>, assocStatus: Option<nat>)
    requires Live(d, v) && NoScanning(d)
    requires DrvAt(d, v).scanCb && DrvAt(d, v).connCb && DrvAt(d, v).conn.authType != AuthSae
    requires IsZeroMac(DrvAt(d, v).assocBssid)
    ensures var j := JoinStep(d, v, None, ies, true, 0);
      j.ret == 0 && DrvAt(j.dev, v).state == WaitingConnResp && DrvAt(j.dev, v).scanCb
      && var c := ScanCompleteStep(j.dev, v);
         DrvAt(c.dev, v).state == Idle && DrvAt(c.dev, v).connectTimer
         && AsyncInfoStep(c.dev, v, MacStatusConnected, assocStatus).dev == c.dev
  {
    var j := JoinStep(d, v, None, ies, true, 0);
    JoinAcceptedDuringScan(d, v, ies);
    var c := ScanCompleteStep(j.dev, v);
    assert DrvAt(c.dev, v).state == RestState(DrvAt(j.dev, v).assocBssid) == Idle;
    assert DrvAt(c.dev, v) == DrvAt(j.dev, v).(state := Idle, scanCb := false, scanTimer := None);
    assert DrvAt(c.dev, v).connCb;
  }

  /** With no interface SCANNING a join goes out and keeps the pending scan's callback. */
  lemma JoinAcceptedDuringScan(d: Dev, v: nat, ies: Option<seq<byte>>)
    requires Live(d, v) && NoScanning(d)
    requires DrvAt(d, v).scanCb && DrvAt(d, v).connCb && DrvAt(d, v).conn.authType != AuthSae
    requires IsZeroMac(DrvAt(d, v).assocBssid)
    ensures var j := JoinStep(d, v, None, ies, true, 0);
      j.ret == 0 && DrvAt(j.dev, v).state == WaitingConnResp && DrvAt(j.dev, v).connectTimer
      && DrvAt(j.dev, v).scanCb && DrvAt(j.dev, v).connCb && IsZeroMac(DrvAt(j.dev, v).assocBssid)
  {
    var drv := DrvAt(d, v);
    var drv1 := if ies.Some? then drv.(reqIes := ies, reqIesLen := |ies.value|) else drv;
    var d1 := SetDrv(d, v, drv1);
    SameStatesScanning(d, d1, v);
    assert drv.(conn := drv.conn) == drv;
  }
}
