// The per-interface connection state machine of the host interface. Every
// handler the driver's single ordered work queue runs is one atomic step on a
// device record: the interface list, the log of configuration packets sent to
// the firmware, and the log of user callbacks fired. The transport's result
// and allocation outcomes are inputs.
module HostIf {
  import opened Bytes
  import opened Wids
  import ScanEncoding

  // Error returns of the driver (negated errno values).
  const EBUSY: int := -16
  const EFAULT: int := -14
  const ENOMEM: int := -12
  const EINVAL: int := -22

  /** WILC_HIF_SCAN_TIMEOUT_MS and WILC_HIF_CONNECT_TIMEOUT_MS. */
  const ScanTimeoutMs: nat := 5000
  const ConnectTimeoutMs: nat := 9500

  /** WILC_FALSE_FRMWR_CHANNEL: the channel sent when leaving the listen state. */
  const FalseFirmwareChannel: byte := 100

  // Values of firmware enumerations declared in the driver's headers; the
  // model only compares against them.
  const MacStatusDisconnected: byte := 0
  const MacStatusConnected: byte := 1
  /** WLAN_STATUS_SUCCESS of an IEEE 802.11 association response. */
  const StatusSuccess: nat := 0
  /** WILC_FW_AUTH_SAE: the firmware's authentication type for SAE. */
  const AuthSae: byte := 7
  const PassiveScan: byte := 0

  /** hif_drv->hif_state. */
  datatype HifState = Idle | Scanning | WaitingConnResp | ExternalAuth | Connected | P2pListen

  datatype ScanEvent = ScanEventDone | ScanEventAborted

  /** The join attributes held in conn_info by the caller before a join. */
  datatype ConnAttr = ConnAttr(bssid: seq<byte>, mfpType: byte, security: byte, authType: byte, param: seq<byte>)

  /** remain_on_ch: the granted channel, its cookie and whether an expiry callback is registered. */
  datatype Roc = Roc(ch: nat, cookie: nat, expiredCb: bool)

  /**
   * struct host_if_drv. `scanCb` and `connCb` say whether
   * usr_scan_req.scan_result and conn_info.conn_result are registered;
   * `scanTimer` is the pending scan timer with its timeout in milliseconds.
   */
  datatype Drv = Drv(
    state: HifState,
    assocBssid: seq<byte>,
    scanCb: bool,
    connCb: bool,
    conn: ConnAttr,
    connStatus: nat,
    reqIes: Option<seq<byte>>, reqIesLen: nat,
    respIes: Option<seq<byte>>, respIesLen: nat,
    scanTimer: Option<nat>,
    connectTimer: bool,
    roc: Roc)

  /** struct wilc_vif: its index, its connecting flag and its host-interface driver, if any. */
  datatype Vif = Vif(idx: int, connecting: bool, drv: Option<Drv>)

  /** One wilc_send_config_pkt(WILC_SET_CFG) call made on behalf of the interface at position `vif`. */
  datatype Packet = Packet(vif: nat, wids: seq<Wid>)

  /** A user callback fired by a handler. */
  datatype Notice =
    | ScanNotice(vif: nat, ev: ScanEvent)
    | ConnRespNotice(vif: nat, status: byte)
    | DisconnNotice(vif: nat)
    | ExternalAuthNotice(vif: nat)
    | RocExpiredNotice(vif: nat, cookie: nat)

  datatype Dev = Dev(vifs: seq<Vif>, sent: seq<Packet>, notices: seq<Notice>)

  /** A handler's outcome: the new device and its return value. */
  datatype Step = Step(dev: Dev, ret: int)

  // ---- helpers ----

  predicate Live(d: Dev, v: nat) { v < |d.vifs| && d.vifs[v].drv.Some? }

  function DrvAt(d: Dev, v: nat): Drv
    requires Live(d, v)
  {
    d.vifs[v].drv.value
  }

  function SetDrv(d: Dev, v: nat, drv: Drv): (r: Dev)
    requires v < |d.vifs|
    ensures Live(r, v) && DrvAt(r, v) == drv && |r.vifs| == |d.vifs|
    ensures r.sent == d.sent && r.notices == d.notices
    ensures r.vifs[v].idx == d.vifs[v].idx && r.vifs[v].connecting == d.vifs[v].connecting
    ensures forall i :: 0 <= i < |d.vifs| && i != v ==> r.vifs[i] == d.vifs[i]
  {
    d.(vifs := d.vifs[v := d.vifs[v].(drv := Some(drv))])
  }

  function Send(d: Dev, v: nat, wids: seq<Wid>): Dev
  {
    d.(sent := d.sent + [Packet(v, wids)])
  }

  function Notify(d: Dev, n: Notice): Dev
  {
    d.(notices := d.notices + [n])
  }

  /** Every interface other than `v` is as it was. */
  predicate OthersUnchanged(d: Dev, e: Dev, v: nat)
  {
    |e.vifs| == |d.vifs| && v < |d.vifs| && e.vifs[v].idx == d.vifs[v].idx
    && e.vifs[v].connecting == d.vifs[v].connecting
    && forall i :: 0 <= i < |d.vifs| && i != v ==> e.vifs[i] == d.vifs[i]
  }

  lemma OthersUnchangedTrans(d: Dev, e: Dev, f: Dev, v: nat)
    requires OthersUnchanged(d, e, v) && OthersUnchanged(e, f, v)
    ensures OthersUnchanged(d, f, v)
  {
  }

  /** Changing one live interface's driver without changing its state leaves AnyScanning as it was. */
  lemma SameStatesScanning(d: Dev, e: Dev, v: nat)
    requires Live(d, v) && OthersUnchanged(d, e, v) && Live(e, v) && DrvAt(e, v).state == DrvAt(d, v).state
    ensures AnyScanning(e.vifs) == AnyScanning(d.vifs)
  {
    if AnyScanning(d.vifs) {
      var i :| 0 <= i < |d.vifs| && ScanningVif(d.vifs[i]);
      assert ScanningVif(e.vifs[i]);
    }
    if AnyScanning(e.vifs) {
      var i :| 0 <= i < |e.vifs| && ScanningVif(e.vifs[i]);
      assert ScanningVif(d.vifs[i]);
    }
  }

  predicate Settled(s: HifState) { s == Idle || s == Connected }

  predicate Unsettled(vf: Vif) { vf.drv.Some? && !Settled(vf.drv.value.state) }

  predicate ScanningVif(vf: Vif) { vf.drv.Some? && vf.drv.value.state == Scanning }

  /** Some live interface is neither IDLE nor CONNECTED. */
  predicate AnyUnsettled(vifs: seq<Vif>) { exists i :: 0 <= i < |vifs| && Unsettled(vifs[i]) }

  /** Some live interface is SCANNING. */
  predicate AnyScanning(vifs: seq<Vif>) { exists i :: 0 <= i < |vifs| && ScanningVif(vifs[i]) }

  /** The state a finished scan or listen period returns to. */
  function RestState(assocBssid: seq<byte>): HifState
  {
    if IsZeroMac(assocBssid) then Idle else Connected
  }

  /** The one-octet WID_ABORT_RUNNING_SCAN and WID_DISCONNECT records. */
  function AbortScanWid(): Wid { Sized(AbortRunningScan, [1]) }
  function DisconnectWid(): Wid { Sized(Disconnect, [0]) }

  /** The two-octet WID_REMAIN_ON_CHAN value: the listen flag, then the channel. */
  function RemainOnChanWid(listen: bool, ch: byte): Wid
  {
    Sized(RemainOnChan, [if listen then 1 else 0, ch])
  }

  // ---- handle_scan_done ----

  /**
   * handle_scan_done: DONE settles the state by the associated BSSID, ABORTED
   * asks the firmware to abort; a registered scan callback then fires once
   * and is cleared.
   */
  function ScanDoneStep(d: Dev, v: nat, ev: ScanEvent, sendRes: int): (s: Step)
    requires v < |d.vifs|
    ensures !Live(d, v) ==> s == Step(d, 0)
    ensures Live(d, v) ==>
      var drv := DrvAt(d, v);
      OthersUnchanged(d, s.dev, v) && Live(s.dev, v)
      && DrvAt(s.dev, v) == drv.(state := if ev == ScanEventDone then RestState(drv.assocBssid) else drv.state,
                                 scanCb := false)
      && s.dev.sent == d.sent + (if ev == ScanEventAborted then [Packet(v, [AbortScanWid()])] else [])
      && s.dev.notices == d.notices + (if drv.scanCb then [ScanNotice(v, ev)] else [])
      && s.ret == (if ev == ScanEventAborted && sendRes != 0 then EFAULT else 0)
  {
    if !Live(d, v) then Step(d, 0)
    else
      var drv := DrvAt(d, v);
      var drv1 := if ev == ScanEventDone then drv.(state := RestState(drv.assocBssid)) else drv;
      var d1 := SetDrv(d, v, drv1);
      var d2 := if ev == ScanEventAborted then Send(d1, v, [AbortScanWid()]) else d1;
      var ret := if ev == ScanEventAborted && sendRes != 0 then EFAULT else 0;
      var d3 := if drv.scanCb then Notify(SetDrv(d2, v, drv1.(scanCb := false)), ScanNotice(v, ev)) else d2;
      Step(d3, ret)
  }

  // ---- wilc_scan ----

  /** The parts of cfg80211_scan_request and the scan arguments the driver reads. */
  datatype ScanReq = ScanReq(source: byte, scanType: byte, ssids: seq<seq<byte>>, ie: seq<byte>,
                             duration: nat, ssidAllocOk: bool)

  /**
   * A request the driver handles as intended: beyond these SSIDs the u8
   * `valuesize` wraps and the fill loop writes past its buffer.
   */
  predicate ValidScanReq(r: ScanReq)
  {
    ScanEncoding.ValidSsids(r.ssids) && ScanEncoding.SsidBytes(r.ssids) < 0x100 && r.duration < 0x1_0000
  }

  /** The WID list wilc_scan sends, over the already rebased channel list. */
  function ScanWids(r: ScanReq, rebased: seq<byte>): seq<Wid>
    requires ValidScanReq(r)
  {
    (if |r.ssids| > 0 && r.ssidAllocOk
     then [Wid(SsidProbeReq, ScanEncoding.SsidProbeValue(r.ssids), ScanEncoding.SsidProbeSizeAsWritten(r.ssids))]
     else [])
    + [Sized(InfoElementProbe, r.ie), Sized(ScanType, [r.scanType])]
    + (if r.scanType == PassiveScan && r.duration > 0 then [Sized(PassiveScanTime, LE16(r.duration))] else [])
    + [Sized(ScanChannelList, rebased), Sized(StartScanReq, [r.source])]
  }

  /** Within the admitted requests the u8 SSID size does not wrap: every WID a scan sends declares exactly its value's length. */
  lemma ScanWidsExact(r: ScanReq, rebased: seq<byte>)
    requires ValidScanReq(r)
    ensures forall w :: w in ScanWids(r, rebased) ==> w.size == |w.val|
  {
    ScanEncoding.SsidProbeSizeAsWrittenExact(r.ssids);
  }

  /** The scan timer period: the passive dwell over every channel plus 500 ms, or the default. */
  function ScanTimeout(r: ScanReq, channels: nat): nat
  {
    if r.scanType == PassiveScan && r.duration > 0 then U32(r.duration * channels + 500) else ScanTimeoutMs
  }

  /** A scan is refused while any live interface is busy or this one is connecting. */
  predicate ScanBusy(d: Dev, v: nat)
    requires v < |d.vifs|
  {
    AnyUnsettled(d.vifs) || d.vifs[v].connecting
  }

  /**
   * wilc_scan. A refused scan changes nothing. Otherwise the scan callback is
   * registered before the WIDs go out, and stays registered when sending
   * fails; the scan timer is armed only on success.
   */
  function ScanStep(d: Dev, v: nat, r: ScanReq, ch: seq<byte>, sendRes: int): (s: Step)
    requires Live(d, v) && ValidScanReq(r)
    ensures ScanBusy(d, v) ==> s == Step(d, EBUSY)
    ensures !ScanBusy(d, v) ==>
      OthersUnchanged(d, s.dev, v) && Live(s.dev, v)
      && s.dev.sent == d.sent + [Packet(v, ScanWids(r, ScanEncoding.Rebased(ch)))]
      && s.dev.notices == d.notices
      && s.ret == sendRes
      && DrvAt(s.dev, v) == DrvAt(d, v).(scanCb := true,
           scanTimer := if sendRes == 0 then Some(ScanTimeout(r, |ch|)) else DrvAt(d, v).scanTimer)
  {
    if ScanBusy(d, v) then Step(d, EBUSY)
    else
      var drv := DrvAt(d, v).(scanCb := true);
      var d1 := Send(SetDrv(d, v, drv), v, ScanWids(r, ScanEncoding.Rebased(ch)));
      if sendRes != 0 then Step(d1, sendRes)
      else Step(SetDrv(d1, v, drv.(scanTimer := Some(ScanTimeout(r, |ch|)))), 0)
  }

  // ---- wilc_send_connect_wid / wilc_set_join_req ----

  function ReqIesBytes(drv: Drv): seq<byte>
  {
    if drv.reqIes.Some? then drv.reqIes.value else []
  }

  /** The five WIDs of a join request. */
  function ConnectWids(drv: Drv): seq<Wid>
  {
    [Sized(SetMfp, [drv.conn.mfpType]),
     Wid(InfoElementAssociate, ReqIesBytes(drv), drv.reqIesLen),
     Sized(Mode11i, [drv.conn.security]),
     Sized(AuthType, [drv.conn.authType]),
     Sized(JoinReqExtended, drv.conn.param)]
  }

  /**
   * wilc_send_connect_wid: refused while any interface is SCANNING; on any
   * failure the association request IEs are released and the state is kept;
   * on success the interface waits for SAE authentication or for the
   * connection response.
   */
  function ConnectWidStep(d: Dev, v: nat, sendRes: int): (s: Step)
    requires Live(d, v)
    ensures OthersUnchanged(d, s.dev, v) && Live(s.dev, v) && s.dev.notices == d.notices
    ensures AnyScanning(d.vifs) ==>
      s == Step(SetDrv(d, v, DrvAt(d, v).(reqIes := None)), EBUSY)
    ensures !AnyScanning(d.vifs) ==>
      s.dev.sent == d.sent + [Packet(v, ConnectWids(DrvAt(d, v)))]
      && s.ret == (if sendRes != 0 then sendRes else 0)
      && DrvAt(s.dev, v) == if sendRes != 0 then DrvAt(d, v).(reqIes := None)
         else DrvAt(d, v).(state := if DrvAt(d, v).conn.authType == AuthSae then ExternalAuth else WaitingConnResp)
  {
    var drv := DrvAt(d, v);
    if AnyScanning(d.vifs) then Step(SetDrv(d, v, drv.(reqIes := None)), EBUSY)
    else
      var d1 := Send(d, v, ConnectWids(drv));
      if sendRes != 0 then Step(SetDrv(d1, v, drv.(reqIes := None)), sendRes)
      else Step(SetDrv(d1, v, drv.(state := if drv.conn.authType == AuthSae then ExternalAuth else WaitingConnResp)), 0)
  }

  /**
   * The tail of wilc_set_join_req: the join request goes out and the connect
   * timer is armed only when it did.
   */
  function SendJoinStep(d: Dev, v: nat, sendRes: int): (s: Step)
    requires Live(d, v)
    ensures OthersUnchanged(d, s.dev, v) && Live(s.dev, v) && s.dev.notices == d.notices
    ensures s.ret == 0 ==>
      DrvAt(s.dev, v) == DrvAt(d, v).(connectTimer := true,
        state := if DrvAt(d, v).conn.authType == AuthSae then ExternalAuth else WaitingConnResp)
      && !AnyScanning(d.vifs)
    ensures s.ret != 0 ==> DrvAt(s.dev, v) == DrvAt(d, v).(reqIes := None)
    ensures DrvAt(s.dev, v).conn == DrvAt(d, v).conn
    ensures !AnyScanning(d.vifs) ==>
      s.ret == (if sendRes != 0 then sendRes else 0)
      && s.dev.sent == d.sent + [Packet(v, ConnectWids(DrvAt(d, v)))]
    ensures AnyScanning(d.vifs) ==> s.ret == EBUSY && s.dev.sent == d.sent
  {
    var c := ConnectWidStep(d, v, sendRes);
    if c.ret != 0 then c
    else Step(SetDrv(c.dev, v, DrvAt(c.dev, v).(connectTimer := true)), 0)
  }

  /** The driver record after wilc_set_join_req stored the BSSID and the copied IEs. */
  function Recorded(drv: Drv, bssid: Option<seq<byte>>, ies: Option<seq<byte>>): Drv
  {
    var drv0 := drv.(conn := if bssid.Some? then drv.conn.(bssid := bssid.value) else drv.conn);
    if ies.Some? then drv0.(reqIes := ies, reqIesLen := |ies.value|) else drv0
  }

  /**
   * wilc_set_join_req: records the BSSID and a copy of the IEs, then sends the
   * join request. A failed copy of the IEs ends the join with ENOMEM before
   * anything is sent.
   */
  function JoinStep(d: Dev, v: nat, bssid: Option<seq<byte>>, ies: Option<seq<byte>>, allocOk: bool, sendRes: int): (s: Step)
    requires Live(d, v)
    ensures OthersUnchanged(d, s.dev, v) && Live(s.dev, v) && s.dev.notices == d.notices
    ensures ies.Some? && !allocOk ==> s.ret == ENOMEM && s.dev.sent == d.sent && DrvAt(s.dev, v).reqIes.None?
    ensures s.ret == 0 ==>
      DrvAt(s.dev, v).state == (if DrvAt(d, v).conn.authType == AuthSae then ExternalAuth else WaitingConnResp)
      && DrvAt(s.dev, v).connectTimer && !AnyScanning(d.vifs)
      && DrvAt(s.dev, v).reqIes == (if ies.Some? then ies else DrvAt(d, v).reqIes)
    ensures s.ret != 0 ==>
      DrvAt(s.dev, v).state == DrvAt(d, v).state && DrvAt(s.dev, v).connectTimer == DrvAt(d, v).connectTimer
      && DrvAt(s.dev, v).reqIes.None?
    ensures DrvAt(s.dev, v).conn == (if bssid.Some? then DrvAt(d, v).conn.(bssid := bssid.value) else DrvAt(d, v).conn)
    ensures (ies.None? || allocOk) ==>
      (AnyScanning(d.vifs) ==> s.ret == EBUSY && s.dev.sent == d.sent)
      && (!AnyScanning(d.vifs) ==>
            s.ret == (if sendRes != 0 then sendRes else 0)
            && s.dev.sent == d.sent + [Packet(v, ConnectWids(Recorded(DrvAt(d, v), bssid, ies)))])
  {
    var drv := DrvAt(d, v);
    var drv0 := drv.(conn := if bssid.Some? then drv.conn.(bssid := bssid.value) else drv.conn);
    if ies.Some? && !allocOk then Step(SetDrv(d, v, drv0.(reqIes := None, reqIesLen := |ies.value|)), ENOMEM)
    else RecordedJoinStep(d, v, bssid, ies, sendRes)
  }

  /** wilc_set_join_req once the BSSID and the IEs are recorded: the join request goes out over the updated record. */
  function RecordedJoinStep(d: Dev, v: nat, bssid: Option<seq<byte>>, ies: Option<seq<byte>>, sendRes: int): (s: Step)
    requires Live(d, v)
    ensures OthersUnchanged(d, s.dev, v) && Live(s.dev, v) && s.dev.notices == d.notices
    ensures s.ret == 0 ==>
      DrvAt(s.dev, v) == Recorded(DrvAt(d, v), bssid, ies).(connectTimer := true,
        state := if DrvAt(d, v).conn.authType == AuthSae then ExternalAuth else WaitingConnResp)
      && !AnyScanning(d.vifs)
    ensures s.ret != 0 ==> DrvAt(s.dev, v) == Recorded(DrvAt(d, v), bssid, ies).(reqIes := None)
    ensures AnyScanning(d.vifs) ==> s.ret == EBUSY && s.dev.sent == d.sent
    ensures !AnyScanning(d.vifs) ==>
      s.ret == (if sendRes != 0 then sendRes else 0)
      && s.dev.sent == d.sent + [Packet(v, ConnectWids(Recorded(DrvAt(d, v), bssid, ies)))]
  {
    var drv1 := Recorded(DrvAt(d, v), bssid, ies);
    assert drv1.state == DrvAt(d, v).state && drv1.conn.authType == DrvAt(d, v).conn.authType;
    var d1 := SetDrv(d, v, drv1);
    SameStatesScanning(d, d1, v);
    var s := SendJoinStep(d1, v, sendRes);
    OthersUnchangedTrans(d, d1, s.dev, v);
    s
  }

  // ---- handle_connect_cancel ----

  /**
   * handle_connect_cancel: a registered connect callback hears a disconnect
   * notice, and the interface returns to IDLE with no associated BSSID and no
   * request IEs.
   */
  function ConnectCancelStep(d: Dev, v: nat): (s: Step)
    requires Live(d, v)
    ensures OthersUnchanged(d, s.dev, v) && Live(s.dev, v) && s.ret == 0 && s.dev.sent == d.sent
    ensures DrvAt(s.dev, v) == DrvAt(d, v).(state := Idle, assocBssid := ZeroMac(), reqIes := None, reqIesLen := 0)
    ensures s.dev.notices == d.notices + (if DrvAt(d, v).connCb then [DisconnNotice(v)] else [])
  {
    var drv := DrvAt(d, v);
    var d1 := if drv.connCb then Notify(d, DisconnNotice(v)) else d;
    Step(SetDrv(d1, v, drv.(assocBssid := ZeroMac(), reqIesLen := 0, reqIes := None, state := Idle)), 0)
  }

  // ---- handle_connect_timeout ----

  /**
   * handle_connect_timeout: the connect timer fired. The interface returns to
   * IDLE, a registered connect callback hears DISCONNECTED, the firmware is
   * told to disconnect (a send failure is only logged) and the request IEs
   * are released.
   */
  function ConnectTimeoutStep(d: Dev, v: nat): (s: Step)
    requires v < |d.vifs|
    ensures s.ret == 0
    ensures !Live(d, v) ==> s.dev == d
    ensures Live(d, v) ==>
      OthersUnchanged(d, s.dev, v) && Live(s.dev, v)
      && DrvAt(s.dev, v) == DrvAt(d, v).(state := Idle, connectTimer := false, reqIes := None, reqIesLen := 0)
      && s.dev.sent == d.sent + [Packet(v, [DisconnectWid()])]
      && s.dev.notices == d.notices + (if DrvAt(d, v).connCb then [ConnRespNotice(v, MacStatusDisconnected)] else [])
  {
    if !Live(d, v) then Step(d, 0)
    else
      var drv := DrvAt(d, v).(state := Idle, connectTimer := false);
      var d1 := SetDrv(d, v, drv);
      var d2 := if drv.connCb then Notify(d1, ConnRespNotice(v, MacStatusDisconnected)) else d1;
      var d3 := Send(d2, v, [DisconnectWid()]);
      Step(SetDrv(d3, v, drv.(reqIes := None, reqIesLen := 0)), 0)
  }

  // ---- handle_rcvd_gnrl_async_info and its helpers ----

  /**
   * host_int_parse_assoc_resp_info. `assocStatus` is the status code of the
   * association response the driver fetches from the firmware, or None when
   * that query fails or returns nothing (conn_info.status then keeps its
   * previous value).
   */
  function ParseAssocRespStep(d: Dev, v: nat, status: byte, assocStatus: Option<nat>): (s: Step)
    requires Live(d, v)
    ensures OthersUnchanged(d, s.dev, v) && Live(s.dev, v) && s.dev.sent == d.sent && s.ret == 0
    ensures s.dev.notices == d.notices + [ConnRespNotice(v, status)]
    ensures var drv, e := DrvAt(d, v), DrvAt(s.dev, v);
      var ok := status == MacStatusConnected && e.connStatus == StatusSuccess;
      !e.connectTimer && e.reqIes.None? && e.reqIesLen == 0 && e.respIes.None? && e.respIesLen == 0
      && e.state == (if ok then Connected else Idle)
      && e.assocBssid == (if ok then drv.conn.bssid else drv.assocBssid)
      && e.connStatus == (if status == MacStatusConnected && assocStatus.Some? then assocStatus.value else drv.connStatus)
      && e == drv.(state := e.state, assocBssid := e.assocBssid, connStatus := e.connStatus, connectTimer := false,
                   reqIes := None, reqIesLen := 0, respIes := None, respIesLen := 0)
  {
    var drv := DrvAt(d, v);
    var st := if status == MacStatusConnected && assocStatus.Some? then assocStatus.value else drv.connStatus;
    var ok := status == MacStatusConnected && st == StatusSuccess;
    var drv1 := drv.(connStatus := st, connectTimer := false);
    var d1 := Notify(SetDrv(d, v, drv1), ConnRespNotice(v, status));
    var drv2 := drv1.(assocBssid := if ok then drv.conn.bssid else drv.assocBssid,
                      state := if ok then Connected else Idle,
                      respIes := None, respIesLen := 0, reqIes := None, reqIesLen := 0);
    Step(SetDrv(d1, v, drv2), 0)
  }

  /**
   * host_int_handle_disconnect: the firmware reports the link lost. A pending
   * scan is aborted, a registered connect callback is told, and the
   * interface returns to IDLE with no associated BSSID.
   */
  function HandleDisconnectStep(d: Dev, v: nat): (s: Step)
    requires Live(d, v)
    ensures OthersUnchanged(d, s.dev, v) && Live(s.dev, v) && s.ret == 0
    ensures var drv, e := DrvAt(d, v), DrvAt(s.dev, v);
      e == drv.(state := Idle, assocBssid := ZeroMac(), reqIes := None, reqIesLen := 0,
                scanCb := false, scanTimer := if drv.scanCb then None else drv.scanTimer)
      && s.dev.sent == d.sent + (if drv.scanCb then [Packet(v, [AbortScanWid()])] else [])
      && s.dev.notices == d.notices + (if drv.scanCb then [ScanNotice(v, ScanEventAborted)] else [])
           + (if drv.connCb then [DisconnNotice(v)] else [])
  {
    var drv := DrvAt(d, v);
    var d1 := if drv.scanCb then ScanDoneStep(SetDrv(d, v, drv.(scanTimer := None)), v, ScanEventAborted, 0).dev else d;
    var drv1 := DrvAt(d1, v);
    var d2 := if drv1.connCb then Notify(d1, DisconnNotice(v)) else d1;
    Step(SetDrv(d2, v, drv1.(assocBssid := ZeroMac(), reqIesLen := 0, reqIes := None, state := Idle)), 0)
  }

  /**
   * handle_rcvd_gnrl_async_info: a MAC status from the firmware. Dropped
   * without a registered connect callback; EXTERNAL_AUTH hands SAE to user
   * space and waits for the connection response; WAITING_CONN_RESP completes
   * the connection attempt; DISCONNECTED tears down a connection or aborts a
   * pending scan.
   */
  function AsyncInfoStep(d: Dev, v: nat, status: byte, assocStatus: Option<nat>): (s: Step)
    requires v < |d.vifs|
    ensures s.ret == 0
    ensures !Live(d, v) || !DrvAt(d, v).connCb ==> s.dev == d
    ensures Live(d, v) && DrvAt(d, v).connCb ==>
      var drv := DrvAt(d, v);
      OthersUnchanged(d, s.dev, v) && Live(s.dev, v)
      && (drv.state == ExternalAuth ==>
            DrvAt(s.dev, v) == drv.(state := WaitingConnResp) && s.dev.sent == d.sent
            && s.dev.notices == d.notices + [ExternalAuthNotice(v)])
      && (drv.state == WaitingConnResp ==> s == ParseAssocRespStep(d, v, status, assocStatus))
      && (drv.state == Connected && status == MacStatusDisconnected ==> s == HandleDisconnectStep(d, v))
      && (drv.state != ExternalAuth && drv.state != WaitingConnResp && drv.state != Connected
          && status == MacStatusDisconnected && drv.scanCb ==>
            s == ScanDoneStep(SetDrv(d, v, drv.(scanTimer := None)), v, ScanEventAborted, 0))
      && ((drv.state != ExternalAuth && drv.state != WaitingConnResp && drv.state != Connected
           && status == MacStatusDisconnected && !drv.scanCb) ==> s.dev == d)
      && (drv.state != ExternalAuth && drv.state != WaitingConnResp && status != MacStatusDisconnected ==> s.dev == d)
  {
    if !Live(d, v) || !DrvAt(d, v).connCb then Step(d, 0)
    else
      var drv := DrvAt(d, v);
      if drv.state == ExternalAuth then
        Step(Notify(SetDrv(d, v, drv.(state := WaitingConnResp)), ExternalAuthNotice(v)), 0)
      else if drv.state == WaitingConnResp then ParseAssocRespStep(d, v, status, assocStatus)
      else if status == MacStatusDisconnected then
        if drv.state == Connected then HandleDisconnectStep(d, v)
        else if drv.scanCb then ScanDoneStep(SetDrv(d, v, drv.(scanTimer := None)), v, ScanEventAborted, 0)
        else Step(d, 0)
      else Step(d, 0)
  }

  // ---- wilc_disconnect ----

  /**
   * The first loop of wilc_disconnect: every live interface found SCANNING
   * has its scan timer cancelled and its scan aborted, from position `i` on.
   */
  function AbortScanningFrom(d: Dev, i: nat): (e: Dev)
    requires i <= |d.vifs|
    ensures |e.vifs| == |d.vifs|
    ensures forall k :: 0 <= k < |d.vifs| ==>
      (e.vifs[k].idx == d.vifs[k].idx && e.vifs[k].connecting == d.vifs[k].connecting
       && (e.vifs[k].drv.Some? <==> d.vifs[k].drv.Some?))
    ensures !AnyScanning(d.vifs) ==> e == d
    decreases |d.vifs| - i
  {
    if i == |d.vifs| then d
    else if ScanningVif(d.vifs[i]) then
      AbortScanningFrom(ScanDoneStep(SetDrv(d, i, DrvAt(d, i).(scanTimer := None)), i, ScanEventAborted, 0).dev, i + 1)
    else AbortScanningFrom(d, i + 1)
  }

  /**
   * wilc_disconnect. When WID_DISCONNECT cannot be sent the interface is left
   * as it was after the scan-abort loop. Otherwise a pending scan is
   * reported ABORTED once, an attempt in progress hears a DISCONNECTED
   * connection response and an established link a disconnect notice, and the
   * interface ends IDLE with no BSSID, no request IEs and no connect callback.
   */
  function DisconnectStep(d: Dev, v: nat, sendRes: int): (s: Step)
    requires Live(d, v)
    ensures !AnyScanning(d.vifs) ==> OthersUnchanged(d, s.dev, v)
    ensures Live(s.dev, v)
    ensures var d1 := AbortScanningFrom(d, 0);
      sendRes != 0 ==> s == Step(Send(d1, v, [DisconnectWid()]), sendRes)
    ensures var d1 := AbortScanningFrom(d, 0); var drv, e := DrvAt(d1, v), DrvAt(s.dev, v);
      sendRes == 0 ==>
        s.ret == 0 && e.state == Idle && IsZeroMac(e.assocBssid) && e.reqIes.None? && e.reqIesLen == 0
        && !e.connCb && !e.scanCb
        && e == drv.(state := Idle, assocBssid := ZeroMac(), reqIes := None, reqIesLen := 0, connCb := false,
                     scanCb := false, scanTimer := if drv.scanCb then None else drv.scanTimer,
                     connectTimer := if drv.connCb && (drv.state == WaitingConnResp || drv.state == ExternalAuth)
                                     then false else drv.connectTimer)
        && s.dev.sent == d1.sent + [Packet(v, [DisconnectWid()])]
        && s.dev.notices == d1.notices
             + (if drv.scanCb then [ScanNotice(v, ScanEventAborted)] else [])
             + (if !drv.connCb then []
                else if drv.state == WaitingConnResp || drv.state == ExternalAuth then [ConnRespNotice(v, MacStatusDisconnected)]
                else if drv.state == Connected then [DisconnNotice(v)] else [])
  {
    var d1 := AbortScanningFrom(d, 0);
    var d2 := Send(d1, v, [DisconnectWid()]);
    if sendRes != 0 then Step(d2, sendRes)
    else
      var drv := DrvAt(d2, v);
      var d3 := if drv.scanCb then Notify(SetDrv(d2, v, drv.(scanTimer := None, scanCb := false)), ScanNotice(v, ScanEventAborted)) else d2;
      var drv3 := DrvAt(d3, v);
      var d4 :=
        if !drv3.connCb then d3
        else if drv3.state == WaitingConnResp || drv3.state == ExternalAuth then
          Notify(SetDrv(d3, v, drv3.(connectTimer := false)), ConnRespNotice(v, MacStatusDisconnected))
        else if drv3.state == Connected then Notify(d3, DisconnNotice(v))
        else d3;
      var drv4 := DrvAt(d4, v);
      Step(SetDrv(d4, v, drv4.(state := Idle, assocBssid := ZeroMac(), reqIesLen := 0, reqIes := None, connCb := false)), 0)
  }

  // ---- remain on channel ----

  /**
   * handle_remain_on_chan: the listen period is granted only when every live
   * interface is IDLE or CONNECTED and this one is not connecting; a grant
   * sends [1, ch] and enters P2P_LISTEN. A failed send reports busy.
   */
  function RemainOnChanStep(d: Dev, v: nat, roc: Roc, allocOk: bool, sendRes: int): (s: Step)
    requires v < |d.vifs|
    ensures !Live(d, v) ==> s == Step(d, EFAULT)
    ensures Live(d, v) && ScanBusy(d, v) ==> s == Step(d, EBUSY)
    ensures Live(d, v) && !ScanBusy(d, v) && !allocOk ==> s == Step(d, ENOMEM)
    ensures Live(d, v) && !ScanBusy(d, v) && allocOk ==>
      OthersUnchanged(d, s.dev, v) && Live(s.dev, v) && s.dev.notices == d.notices
      && s.dev.sent == d.sent + [Packet(v, [RemainOnChanWid(true, U8(roc.ch) as byte)])]
      && (sendRes != 0 ==> s.ret == EBUSY && DrvAt(s.dev, v) == DrvAt(d, v))
      && (sendRes == 0 ==> s.ret == 0 && DrvAt(s.dev, v) == DrvAt(d, v).(roc := roc, state := P2pListen))
  {
    if !Live(d, v) then Step(d, EFAULT)
    else if AnyUnsettled(d.vifs) then Step(d, EBUSY)
    else if d.vifs[v].connecting then Step(d, EBUSY)
    else if !allocOk then Step(d, ENOMEM)
    else
      var d1 := Send(d, v, [RemainOnChanWid(true, U8(roc.ch) as byte)]);
      if sendRes != 0 then Step(d1, EBUSY)
      else Step(SetDrv(d1, v, DrvAt(d, v).(roc := roc, state := P2pListen)), 0)
  }

  /**
   * wilc_handle_roc_expired: only a listening interface acts. It sends
   * [0, 100], tells a registered expiry callback and returns to IDLE or
   * CONNECTED by its associated BSSID. In any other state nothing changes.
   */
  function RocExpiredStep(d: Dev, v: nat, cookie: nat, allocOk: bool, sendRes: int): (s: Step)
    requires Live(d, v)
    ensures DrvAt(d, v).state != P2pListen ==> s == Step(d, 0)
    ensures DrvAt(d, v).state == P2pListen && !allocOk ==> s == Step(d, ENOMEM)
    ensures DrvAt(d, v).state == P2pListen && allocOk ==>
      var drv := DrvAt(d, v);
      OthersUnchanged(d, s.dev, v) && Live(s.dev, v)
      && s.dev.sent == d.sent + [Packet(v, [RemainOnChanWid(false, FalseFirmwareChannel)])]
      && (sendRes != 0 ==> s.ret == EINVAL && DrvAt(s.dev, v) == drv && s.dev.notices == d.notices)
      && (sendRes == 0 ==>
            (s.ret == 0 && DrvAt(s.dev, v) == drv.(state := RestState(drv.assocBssid))
             && s.dev.notices == d.notices + (if drv.roc.expiredCb then [RocExpiredNotice(v, cookie)] else [])))
  {
    var drv := DrvAt(d, v);
    if drv.state != P2pListen then Step(d, 0)
    else if !allocOk then Step(d, ENOMEM)
    else
      var d1 := Send(d, v, [RemainOnChanWid(false, FalseFirmwareChannel)]);
      if sendRes != 0 then Step(d1, EINVAL)
      else
        var d2 := if drv.roc.expiredCb then Notify(d1, RocExpiredNotice(v, cookie)) else d1;
        Step(SetDrv(d2, v, drv.(state := RestState(drv.assocBssid))), 0)
  }

  /** wilc_listen_state_expired: refuses an interface without a driver, then runs the expiry. */
  function ListenExpiredStep(d: Dev, v: nat, cookie: nat, allocOk: bool, sendRes: int): (s: Step)
    requires v < |d.vifs|
    ensures !Live(d, v) ==> s == Step(d, EFAULT)
    ensures Live(d, v) ==> s == RocExpiredStep(d, v, cookie, allocOk, sendRes)
  {
    if !Live(d, v) then Step(d, EFAULT) else RocExpiredStep(d, v, cookie, allocOk, sendRes)
  }

  // ---- init and teardown ----

  /** The driver state wilc_init leaves: zeroed, IDLE, nothing registered. */
  function InitialDrv(): (drv: Drv)
    ensures drv.state == Idle && IsZeroMac(drv.assocBssid) && !drv.scanCb && !drv.connCb
  {
    Drv(Idle, ZeroMac(), false, false, ConnAttr(ZeroMac(), 0, 0, 0, []), 0,
        None, 0, None, 0, None, false, Roc(0, 0, false))
  }

  /** wilc_init: attaches a fresh IDLE driver, or fails without memory. */
  function InitStep(d: Dev, v: nat, allocOk: bool): (s: Step)
    requires v < |d.vifs|
    ensures !allocOk ==> s == Step(d, ENOMEM)
    ensures allocOk ==>
      (s.ret == 0 && OthersUnchanged(d, s.dev, v) && Live(s.dev, v)
       && DrvAt(s.dev, v) == InitialDrv() && s.dev.sent == d.sent && s.dev.notices == d.notices)
  {
    if !allocOk then Step(d, ENOMEM) else Step(SetDrv(d, v, InitialDrv()), 0)
  }

  /**
   * wilc_deinit: cancels the timers, reports a pending scan ABORTED and frees
   * the driver.
   */
  function DeinitStep(d: Dev, v: nat): (s: Step)
    requires v < |d.vifs|
    ensures !Live(d, v) ==> s == Step(d, EFAULT)
    ensures Live(d, v) ==>
      s.ret == 0 && !Live(s.dev, v) && |s.dev.vifs| == |d.vifs| && s.dev.sent == d.sent
      && s.dev.vifs[v] == d.vifs[v].(drv := None)
      && (forall i :: 0 <= i < |d.vifs| && i != v ==> s.dev.vifs[i] == d.vifs[i])
      && s.dev.notices == d.notices + (if DrvAt(d, v).scanCb then [ScanNotice(v, ScanEventAborted)] else [])
  {
    if !Live(d, v) then Step(d, EFAULT)
    else
      var d1 := if DrvAt(d, v).scanCb then Notify(d, ScanNotice(v, ScanEventAborted)) else d;
      Step(d1.(vifs := d1.vifs[v := d1.vifs[v].(drv := None)]), 0)
  }

  // ---- timer and firmware events that end a scan ----

  /** handle_scan_timer: the scan timer fired, so the scan is aborted. */
  function ScanTimerStep(d: Dev, v: nat, sendRes: int): (s: Step)
    requires v < |d.vifs|
    ensures !Live(d, v) ==> s.dev == d
    ensures Live(d, v) ==> s == ScanDoneStep(SetDrv(d, v, DrvAt(d, v).(scanTimer := None)), v, ScanEventAborted, sendRes)
  {
    if !Live(d, v) then ScanDoneStep(d, v, ScanEventAborted, sendRes)
    else ScanDoneStep(SetDrv(d, v, DrvAt(d, v).(scanTimer := None)), v, ScanEventAborted, sendRes)
  }

  /** handle_scan_complete: the firmware finished the scan; the timer is cancelled. */
  function ScanCompleteStep(d: Dev, v: nat): (s: Step)
    requires Live(d, v)
    ensures s == ScanDoneStep(SetDrv(d, v, DrvAt(d, v).(scanTimer := None)), v, ScanEventDone, 0)
    ensures var e := DrvAt(s.dev, v); e.state == RestState(DrvAt(d, v).assocBssid) && !e.scanCb && e.scanTimer.None?
  {
    ScanDoneStep(SetDrv(d, v, DrvAt(d, v).(scanTimer := None)), v, ScanEventDone, 0)
  }
}
