// The driver object: the interface list and the two logs as fields that the
// handlers update in place, one statement at a time, as the C code updates
// hif_drv. Each handler is proved to leave exactly the device its step
// function in HostIf describes; the encoder handlers lay their WID values
// into heap buffers through the cursor methods.
module Driver {
  import opened Bytes
  import opened Wids
  import opened HostIf
  import ScanEncoding
  import StationEncoding
  import ConfigEncoding

  class Wilc {
    var vifs: seq<Vif>
    var sent: seq<Packet>
    var notices: seq<Notice>

    function Abs(): Dev
      reads this
    {
      Dev(vifs, sent, notices)
    }

    /** A device whose interfaces carry the given indices and no driver yet. */
    constructor(idxs: seq<int>)
      ensures |vifs| == |idxs| && sent == [] && notices == []
      ensures forall i :: 0 <= i < |idxs| ==> vifs[i] == Vif(idxs[i], false, None)
    {
      vifs := seq(|idxs|, i requires 0 <= i < |idxs| => Vif(idxs[i], false, None));
      sent := [];
      notices := [];
    }

    // ---- primitive updates ----

    method PutDrv(v: nat, drv: Drv)
      requires v < |vifs|
      modifies this
      ensures Abs() == SetDrv(old(Abs()), v, drv)
    {
      vifs := vifs[v := vifs[v].(drv := Some(drv))];
    }

    /** wilc_send_config_pkt(WILC_SET_CFG): the packet goes to the log. */
    method Emit(v: nat, wids: seq<Wid>)
      modifies this
      ensures Abs() == Send(old(Abs()), v, wids)
    {
      sent := sent + [Packet(v, wids)];
    }

    /** A user callback fires. */
    method Fire(n: Notice)
      modifies this
      ensures Abs() == Notify(old(Abs()), n)
    {
      notices := notices + [n];
    }

    // ---- the interface-list walks ----

    /** The walk of wilc_scan and handle_remain_on_chan: is any live interface neither IDLE nor CONNECTED? */
    method AnyBusy() returns (busy: bool)
      ensures busy <==> exists i :: 0 <= i < |vifs| && Unsettled(vifs[i])
    {
      var i := 0;
      while i < |vifs|
        invariant 0 <= i <= |vifs|
        invariant forall j :: 0 <= j < i ==> !Unsettled(vifs[j])
      {
        var vf := vifs[i];
        if vf.drv.Some? && vf.drv.value.state != Idle && vf.drv.value.state != Connected {
          return true;
        }
        i := i + 1;
      }
      return false;
    }

    /** The walk of wilc_send_connect_wid: is any live interface SCANNING? */
    method AnyScanningNow() returns (scanning: bool)
      ensures scanning <==> exists i :: 0 <= i < |vifs| && ScanningVif(vifs[i])
    {
      var i := 0;
      while i < |vifs|
        invariant 0 <= i <= |vifs|
        invariant forall j :: 0 <= j < i ==> !ScanningVif(vifs[j])
      {
        var vf := vifs[i];
        if vf.drv.Some? && vf.drv.value.state == Scanning {
          return true;
        }
        i := i + 1;
      }
      return false;
    }

    // ---- scan ----

    method ScanDone(v: nat, ev: ScanEvent, sendRes: int) returns (ret: int)
      requires v < |vifs|
      modifies this
      ensures Step(Abs(), ret) == ScanDoneStep(old(Abs()), v, ev, sendRes)
    {
      ret := 0;
      if vifs[v].drv.None? {
        return;
      }
      var drv := vifs[v].drv.value;
      if ev == ScanEventDone {
        drv := drv.(state := RestState(drv.assocBssid));
        PutDrv(v, drv);
      } else {
        PutDrv(v, drv);
        Emit(v, [AbortScanWid()]);
        if sendRes != 0 {
          ret := EFAULT;
        }
      }
      if drv.scanCb {
        PutDrv(v, drv.(scanCb := false));
        Fire(ScanNotice(v, ev));
      }
    }

    /** wilc_scan; the channel list is rebased in place before it is sent. */
    method Scan(v: nat, r: ScanReq, ch: array<byte>, sendRes: int) returns (ret: int)
      requires Live(Abs(), v) && ValidScanReq(r)
      modifies this, ch
      ensures Step(Abs(), ret) == ScanStep(old(Abs()), v, r, old(ch[..]), sendRes)
      ensures ch[..] == if ScanBusy(old(Abs()), v) then old(ch[..]) else ScanEncoding.Rebased(old(ch[..]))
    {
      var busy := AnyBusy();
      if busy || vifs[v].connecting {
        return EBUSY;
      }
      var wids: seq<Wid> := [];
      if |r.ssids| > 0 && r.ssidAllocOk {
        var size := ScanEncoding.SsidProbeSizeAsWritten(r.ssids);
        assert size == ScanEncoding.SsidProbeSize(r.ssids);
        var buf := new byte[size];
        ScanEncoding.FillSsidProbe(buf, r.ssids);
        assert buf[..] == ScanEncoding.SsidProbeValue(r.ssids) by {
          assert buf[..] == buf[..size];
        }
        wids := [Wid(SsidProbeReq, buf[..], size)];
      }
      wids := wids + [Sized(InfoElementProbe, r.ie), Sized(ScanType, [r.scanType])];
      var timeout := ScanTimeoutMs;
      if r.scanType == PassiveScan && r.duration > 0 {
        wids := wids + [Sized(PassiveScanTime, LE16(r.duration))];
        timeout := U32(r.duration * ch.Length + 500);
      }
      ScanEncoding.RebaseChannels(ch);
      wids := wids + [Sized(ScanChannelList, ch[..]), Sized(StartScanReq, [r.source])];
      var drv := vifs[v].drv.value.(scanCb := true);
      assert wids == ScanWids(r, ScanEncoding.Rebased(old(ch[..])));
      assert !ScanBusy(old(Abs()), v);
      PutDrv(v, drv);
      Emit(v, wids);
      if sendRes != 0 {
        assert Abs() == ScanStep(old(Abs()), v, r, old(ch[..]), sendRes).dev;
        return sendRes;
      }
      PutDrv(v, drv.(scanTimer := Some(timeout)));
      return 0;
    }

    /** handle_scan_timer. */
    method ScanTimer(v: nat, sendRes: int) returns (ret: int)
      requires v < |vifs|
      modifies this
      ensures Step(Abs(), ret) == ScanTimerStep(old(Abs()), v, sendRes)
    {
      if vifs[v].drv.Some? {
        PutDrv(v, vifs[v].drv.value.(scanTimer := None));
      }
      ret := ScanDone(v, ScanEventAborted, sendRes);
    }

    /** handle_scan_complete. */
    method ScanComplete(v: nat) returns (ret: int)
      requires Live(Abs(), v)
      modifies this
      ensures Step(Abs(), ret) == ScanCompleteStep(old(Abs()), v)
    {
      PutDrv(v, vifs[v].drv.value.(scanTimer := None));
      ret := ScanDone(v, ScanEventDone, 0);
    }

    // ---- join ----

    method ConnectWid(v: nat, sendRes: int) returns (ret: int)
      requires Live(Abs(), v)
      modifies this
      ensures Step(Abs(), ret) == ConnectWidStep(old(Abs()), v, sendRes)
    {
      var drv := vifs[v].drv.value;
      var scanning := AnyScanningNow();
      if scanning {
        PutDrv(v, drv.(reqIes := None));
        return EBUSY;
      }
      Emit(v, ConnectWids(drv));
      if sendRes != 0 {
        PutDrv(v, drv.(reqIes := None));
        return sendRes;
      }
      if drv.conn.authType == AuthSae {
        PutDrv(v, drv.(state := ExternalAuth));
      } else {
        PutDrv(v, drv.(state := WaitingConnResp));
      }
      return 0;
    }

    /** wilc_set_join_req. */
    method Join(v: nat, bssid: Option<seq<byte>>, ies: Option<seq<byte>>, allocOk: bool, sendRes: int) returns (ret: int)
      requires Live(Abs(), v)
      modifies this
      ensures Step(Abs(), ret) == JoinStep(old(Abs()), v, bssid, ies, allocOk, sendRes)
    {
      var drv := vifs[v].drv.value;
      if bssid.Some? {
        drv := drv.(conn := drv.conn.(bssid := bssid.value));
      }
      if ies.Some? {
        drv := drv.(reqIesLen := |ies.value|);
        if !allocOk {
          PutDrv(v, drv.(reqIes := None));
          return ENOMEM;
        }
        drv := drv.(reqIes := ies);
      }
      PutDrv(v, drv);
      ret := ConnectWid(v, sendRes);
      if ret != 0 {
        return;
      }
      PutDrv(v, vifs[v].drv.value.(connectTimer := true));
    }

    /** handle_connect_cancel. */
    method ConnectCancel(v: nat) returns (ret: int)
      requires Live(Abs(), v)
      modifies this
      ensures Step(Abs(), ret) == ConnectCancelStep(old(Abs()), v)
    {
      var drv := vifs[v].drv.value;
      if drv.connCb {
        Fire(DisconnNotice(v));
      }
      PutDrv(v, drv.(assocBssid := ZeroMac(), reqIesLen := 0, reqIes := None, state := Idle));
      return 0;
    }

    /** handle_connect_timeout. */
    method ConnectTimeout(v: nat) returns (ret: int)
      requires v < |vifs|
      modifies this
      ensures Step(Abs(), ret) == ConnectTimeoutStep(old(Abs()), v)
    {
      ret := 0;
      if vifs[v].drv.None? {
        return;
      }
      var drv := vifs[v].drv.value.(state := Idle, connectTimer := false);
      PutDrv(v, drv);
      if drv.connCb {
        Fire(ConnRespNotice(v, MacStatusDisconnected));
      }
      Emit(v, [DisconnectWid()]);
      PutDrv(v, drv.(reqIes := None, reqIesLen := 0));
    }

    // ---- firmware MAC status ----

    /** host_int_parse_assoc_resp_info. */
    method ParseAssocResp(v: nat, status: byte, assocStatus: Option<nat>) returns (ret: int)
      requires Live(Abs(), v)
      modifies this
      ensures Step(Abs(), ret) == ParseAssocRespStep(old(Abs()), v, status, assocStatus)
    {
      var drv := vifs[v].drv.value;
      var st := drv.connStatus;
      if status == MacStatusConnected && assocStatus.Some? {
        st := assocStatus.value;
      }
      var ok := status == MacStatusConnected && st == StatusSuccess;
      var drv1 := drv.(connStatus := st, connectTimer := false);
      PutDrv(v, drv1);
      Fire(ConnRespNotice(v, status));
      var drv2 := drv1.(respIes := None, respIesLen := 0, reqIes := None, reqIesLen := 0);
      if ok {
        drv2 := drv2.(assocBssid := drv.conn.bssid, state := Connected);
      } else {
        drv2 := drv2.(state := Idle);
      }
      PutDrv(v, drv2);
      return 0;
    }

    /** host_int_handle_disconnect. */
    method HandleDisconnect(v: nat) returns (ret: int)
      requires Live(Abs(), v)
      modifies this
      ensures Step(Abs(), ret) == HandleDisconnectStep(old(Abs()), v)
    {
      var drv := vifs[v].drv.value;
      if drv.scanCb {
        PutDrv(v, drv.(scanTimer := None));
        var _ := ScanDone(v, ScanEventAborted, 0);
      }
      var drv1 := vifs[v].drv.value;
      if drv1.connCb {
        Fire(DisconnNotice(v));
      }
      PutDrv(v, drv1.(assocBssid := ZeroMac(), reqIesLen := 0, reqIes := None, state := Idle));
      return 0;
    }

    /** handle_rcvd_gnrl_async_info. */
    method AsyncInfo(v: nat, status: byte, assocStatus: Option<nat>) returns (ret: int)
      requires v < |vifs|
      modifies this
      ensures Step(Abs(), ret) == AsyncInfoStep(old(Abs()), v, status, assocStatus)
    {
      if vifs[v].drv.None? || !vifs[v].drv.value.connCb {
        return 0;
      }
      var drv := vifs[v].drv.value;
      if drv.state == ExternalAuth {
        PutDrv(v, drv.(state := WaitingConnResp));
        Fire(ExternalAuthNotice(v));
        return 0;
      }
      if drv.state == WaitingConnResp {
        ret := ParseAssocResp(v, status, assocStatus);
        return;
      }
      if status == MacStatusDisconnected {
        if drv.state == Connected {
          ret := HandleDisconnect(v);
          return;
        }
        if drv.scanCb {
          PutDrv(v, drv.(scanTimer := None));
          ret := ScanDone(v, ScanEventAborted, 0);
          return;
        }
      }
      return 0;
    }

    // ---- user disconnect ----

    /** The first loop of wilc_disconnect. */
    method AbortScanning()
      modifies this
      ensures Abs() == AbortScanningFrom(old(Abs()), 0)
    {
      var i := 0;
      while i < |vifs|
        invariant 0 <= i <= |vifs| == |old(vifs)|
        invariant AbortScanningFrom(Abs(), i) == AbortScanningFrom(old(Abs()), 0)
        decreases |vifs| - i
      {
        if ScanningVif(vifs[i]) {
          PutDrv(i, vifs[i].drv.value.(scanTimer := None));
          var _ := ScanDone(i, ScanEventAborted, 0);
        }
        i := i + 1;
      }
    }

    /** wilc_disconnect. */
    method Disconnect(v: nat, sendRes: int) returns (ret: int)
      requires Live(Abs(), v)
      modifies this
      ensures Step(Abs(), ret) == DisconnectStep(old(Abs()), v, sendRes)
    {
      AbortScanning();
      Emit(v, [DisconnectWid()]);
      if sendRes != 0 {
        return sendRes;
      }
      var drv := vifs[v].drv.value;
      if drv.scanCb {
        PutDrv(v, drv.(scanTimer := None, scanCb := false));
        Fire(ScanNotice(v, ScanEventAborted));
      }
      var drv3 := vifs[v].drv.value;
      if drv3.connCb {
        if drv3.state == WaitingConnResp || drv3.state == ExternalAuth {
          PutDrv(v, drv3.(connectTimer := false));
          Fire(ConnRespNotice(v, MacStatusDisconnected));
        } else if drv3.state == Connected {
          Fire(DisconnNotice(v));
        }
      }
      var drv4 := vifs[v].drv.value;
      PutDrv(v, drv4.(state := Idle, assocBssid := ZeroMac(), reqIesLen := 0, reqIes := None, connCb := false));
      return 0;
    }

    // ---- remain on channel ----

    /** handle_remain_on_chan. */
    method RemainOnChan(v: nat, roc: Roc, allocOk: bool, sendRes: int) returns (ret: int)
      requires v < |vifs|
      modifies this
      ensures Step(Abs(), ret) == RemainOnChanStep(old(Abs()), v, roc, allocOk, sendRes)
    {
      if vifs[v].drv.None? {
        return EFAULT;
      }
      var busy := AnyBusy();
      if busy || vifs[v].connecting {
        return EBUSY;
      }
      if !allocOk {
        return ENOMEM;
      }
      var drv := vifs[v].drv.value;
      Emit(v, [RemainOnChanWid(true, U8(roc.ch) as byte)]);
      if sendRes != 0 {
        return EBUSY;
      }
      PutDrv(v, drv.(roc := roc, state := P2pListen));
      return 0;
    }

    /** wilc_handle_roc_expired. */
    method RocExpired(v: nat, cookie: nat, allocOk: bool, sendRes: int) returns (ret: int)
      requires Live(Abs(), v)
      modifies this
      ensures Step(Abs(), ret) == RocExpiredStep(old(Abs()), v, cookie, allocOk, sendRes)
    {
      var drv := vifs[v].drv.value;
      if drv.state != P2pListen {
        return 0;
      }
      if !allocOk {
        return ENOMEM;
      }
      Emit(v, [RemainOnChanWid(false, FalseFirmwareChannel)]);
      if sendRes != 0 {
        return EINVAL;
      }
      if drv.roc.expiredCb {
        Fire(RocExpiredNotice(v, cookie));
      }
      PutDrv(v, drv.(state := RestState(drv.assocBssid)));
      return 0;
    }

    /** wilc_listen_state_expired. */
    method ListenExpired(v: nat, cookie: nat, allocOk: bool, sendRes: int) returns (ret: int)
      requires v < |vifs|
      modifies this
      ensures Step(Abs(), ret) == ListenExpiredStep(old(Abs()), v, cookie, allocOk, sendRes)
    {
      if vifs[v].drv.None? {
        return EFAULT;
      }
      ret := RocExpired(v, cookie, allocOk, sendRes);
    }

    // ---- init and teardown ----

    /** wilc_init. */
    method Init(v: nat, allocOk: bool) returns (ret: int)
      requires v < |vifs|
      modifies this
      ensures Step(Abs(), ret) == InitStep(old(Abs()), v, allocOk)
    {
      if !allocOk {
        return ENOMEM;
      }
      PutDrv(v, InitialDrv());
      return 0;
    }

    /** wilc_deinit. */
    method Deinit(v: nat) returns (ret: int)
      requires v < |vifs|
      modifies this
      ensures Step(Abs(), ret) == DeinitStep(old(Abs()), v)
    {
      if vifs[v].drv.None? {
        return EFAULT;
      }
      if vifs[v].drv.value.scanCb {
        Fire(ScanNotice(v, ScanEventAborted));
      }
      vifs := vifs[v := vifs[v].(drv := None)];
      return 0;
    }

    // ---- encoders ----

    /**
     * handle_add_station (with `id` AddSta) and handle_edit_station (EditSta):
     * `prior` is what the freshly allocated buffer held; nothing is sent when
     * the allocation fails.
     */
    method SendStation(v: nat, id: WidId, p: StationEncoding.StaParam, prior: seq<byte>, allocOk: bool, sendRes: int)
      requires StationEncoding.ValidStaParam(p) && |prior| == StationEncoding.AddStaLength + |p.rates|
      requires id == AddSta || id == EditSta
      modifies this
      ensures var n := |p.rates|; var slot := StationEncoding.HtSlotOffset(n);
        Abs() == if !allocOk then old(Abs())
          else Send(old(Abs()), v, [Wid(id, StationEncoding.StaRecord(p, prior[slot..slot + StationEncoding.HtCapLen]),
                                        StationEncoding.AddStaLength + n)])
    {
      if !allocOk {
        return;
      }
      var size := StationEncoding.AddStaLength + |p.rates|;
      var buf := new byte[size];
      forall k | 0 <= k < size {
        buf[k] := prior[k];
      }
      assert buf[..] == prior;
      StationEncoding.PackStaParam(buf, p);
      assert buf[..] == buf[..size];
      Emit(v, [Wid(id, buf[..], size)]);
    }

    /**
     * handle_set_mcast_filter: a buffer of the declared size whose tail beyond
     * the written bytes keeps what it held (`prior`).
     */
    method SetMcastFilter(v: nat, enabled: nat, cnt: nat, list: Option<seq<byte>>, prior: seq<byte>, allocOk: bool, sendRes: int)
      requires enabled < 0x1_0000_0000 && cnt < 0x1_0000_0000
      requires list.Some? ==> |list.value| == cnt * EthAlen
      requires |prior| == ConfigEncoding.McastSize(cnt)
      modifies this
      ensures var w := ConfigEncoding.McastWritten(enabled, cnt, list);
        Abs() == if !allocOk then old(Abs())
          else Send(old(Abs()), v, [Wid(SetupMulticastFilter, w + prior[|w|..], ConfigEncoding.McastSize(cnt))])
    {
      if !allocOk {
        return;
      }
      var size := ConfigEncoding.McastSize(cnt);
      var buf := new byte[size];
      forall k | 0 <= k < size {
        buf[k] := prior[k];
      }
      assert buf[..] == prior;
      ConfigEncoding.FillMcast(buf, enabled, cnt, list);
      ghost var w := ConfigEncoding.McastWritten(enabled, cnt, list);
      assert buf[..] == buf[..|w|] + buf[|w|..];
      Emit(v, [Wid(SetupMulticastFilter, buf[..], size)]);
    }

    /** wilc_add_beacon. */
    method AddBeaconWid(v: nat, b: ConfigEncoding.Beacon, allocOk: bool, sendRes: int) returns (ret: int)
      requires ConfigEncoding.ValidBeacon(b)
      modifies this
      ensures !allocOk ==> ret == ENOMEM && Abs() == old(Abs())
      ensures allocOk ==>
        (ret == sendRes && Abs() == Send(old(Abs()), v, [Sized(AddBeacon, ConfigEncoding.BeaconValue(b))]))
    {
      if !allocOk {
        return ENOMEM;
      }
      var buf := new byte[|b.head| + |b.tail| + 16];
      ConfigEncoding.FillBeacon(buf, b);
      Emit(v, [Wid(AddBeacon, buf[..], buf.Length)]);
      return sendRes;
    }

    /**
     * wilc_del_allstation: nothing is sent when no slot holds a station;
     * otherwise the first count * 6 + 1 bytes of the slot-preserving struct.
     */
    method DelAllStation(v: nat, macs: seq<seq<byte>>, sendRes: int) returns (ret: int)
      requires StationEncoding.AllMacs(macs) && |macs| < 0x100
      modifies this
      ensures StationEncoding.NonZeroCount(macs) == 0 ==> ret == 0 && Abs() == old(Abs())
      ensures StationEncoding.NonZeroCount(macs) > 0 ==>
        (ret == sendRes && Abs() == Send(old(Abs()), v, [Sized(DelAllSta, StationEncoding.DelAllStaAsWritten(macs))]))
    {
      var st := new byte[1 + |macs| * EthAlen];
      var count := StationEncoding.FillDelAllSta(st, macs);
      if count == 0 {
        return 0;
      }
      var size := count * EthAlen + 1;
      assert st[..size] == StationEncoding.DelAllStaAsWritten(macs);
      Emit(v, [Wid(DelAllSta, st[..size], size)]);
      return sendRes;
    }

    /** wilc_set_operation_mode. */
    method SetOperationModeWid(v: nat, index: int, mode: byte, ifcId: byte, sendRes: int) returns (ret: int)
      modifies this
      ensures ret == sendRes
      ensures Abs() == Send(old(Abs()), v, [Wid(SetOperationMode, ConfigEncoding.OperationModeValue(index, mode, ifcId), 5)])
    {
      var value := LE32(U32(index)) + [ConfigEncoding.OperationModeByte(mode, ifcId)];
      Emit(v, [Wid(SetOperationMode, value, 5)]);
      return sendRes;
    }

    /** wilc_hif_set_cfg: one u16 WID per requested parameter, in flag order. */
    method SetCfg(v: nat, c: ConfigEncoding.CfgParam, sendRes: int) returns (ret: int)
      requires ConfigEncoding.ValidCfg(c)
      modifies this
      ensures ret == sendRes
      ensures Abs() == Send(old(Abs()), v, ConfigEncoding.CfgWids(c))
    {
      var wids: seq<Wid> := [];
      if c.retryShort {
        wids := wids + [Sized(ShortRetryLimit, LE16(c.shortRetryLimit))];
      }
      assert wids == ConfigEncoding.CfgEntry(c, ConfigEncoding.RetryShortFlag);
      ghost var w1 := wids;
      if c.retryLong {
        wids := wids + [Sized(LongRetryLimit, LE16(c.longRetryLimit))];
      }
      assert wids == w1 + ConfigEncoding.CfgEntry(c, ConfigEncoding.RetryLongFlag);
      ghost var w2 := wids;
      if c.frag {
        wids := wids + [Sized(FragThreshold, LE16(c.fragThreshold))];
      }
      assert wids == w2 + ConfigEncoding.CfgEntry(c, ConfigEncoding.FragFlag);
      ghost var w3 := wids;
      if c.rts {
        wids := wids + [Sized(RtsThreshold, LE16(c.rtsThreshold))];
      }
      assert wids == w3 + ConfigEncoding.CfgEntry(c, ConfigEncoding.RtsFlag);
      CfgWidsUnfold(c);
      Emit(v, wids);
      return sendRes;
    }
  }

  /** The WID list of wilc_hif_set_cfg, written out flag by flag. */
  lemma CfgWidsUnfold(c: ConfigEncoding.CfgParam)
    requires ConfigEncoding.ValidCfg(c)
    ensures ConfigEncoding.CfgWids(c)
      == ConfigEncoding.CfgEntry(c, ConfigEncoding.RetryShortFlag) + ConfigEncoding.CfgEntry(c, ConfigEncoding.RetryLongFlag)
         + ConfigEncoding.CfgEntry(c, ConfigEncoding.FragFlag) + ConfigEncoding.CfgEntry(c, ConfigEncoding.RtsFlag)
  {
    var f0 := ConfigEncoding.FlagOrder;
    var f1 := [ConfigEncoding.RetryLongFlag, ConfigEncoding.FragFlag, ConfigEncoding.RtsFlag];
    var f2 := [ConfigEncoding.FragFlag, ConfigEncoding.RtsFlag];
    var f3 := [ConfigEncoding.RtsFlag];
    assert f0[1..] == f1 && f1[1..] == f2 && f2[1..] == f3 && f3[1..] == [];
    assert ConfigEncoding.CfgWidsFor(c, f3) == ConfigEncoding.CfgEntry(c, ConfigEncoding.RtsFlag) + ConfigEncoding.CfgWidsFor(c, []);
    assert ConfigEncoding.CfgWidsFor(c, f2) == ConfigEncoding.CfgEntry(c, ConfigEncoding.FragFlag) + ConfigEncoding.CfgWidsFor(c, f3);
    assert ConfigEncoding.CfgWidsFor(c, f1) == ConfigEncoding.CfgEntry(c, ConfigEncoding.RetryLongFlag) + ConfigEncoding.CfgWidsFor(c, f2);
    assert ConfigEncoding.CfgWidsFor(c, f0) == ConfigEncoding.CfgEntry(c, ConfigEncoding.RetryShortFlag) + ConfigEncoding.CfgWidsFor(c, f1);
  }
}
