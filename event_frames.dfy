// The three firmware event receivers: each finds the interface named by the
// frame's trailing index and, when that interface can take it, extracts the
// fields its handler needs and queues the work. A frame the driver would read
// past the end of is reported as OutOfFrame: the receivers check no length.
module EventFrames {
  import opened Bytes
  import opened HostIf
  import VifIndex

  /** What a receiver does with a frame. */
  datatype Rx<T> = OutOfFrame | Dropped | Queued(vif: nat, msg: T)

  /** The network-info work item: frame length, signal strength and a copy of the management frame. */
  datatype NetInfo = NetInfo(frameLen: nat, rssi: byte, mgmt: seq<byte>)

  /** vif->idx of every interface in the list. */
  function Idxs(vifs: seq<Vif>): (r: seq<int>)
    ensures |r| == |vifs| && forall i :: 0 <= i < |vifs| ==> r[i] == vifs[i].idx
  {
    seq(|vifs|, i requires 0 <= i < |vifs| => vifs[i].idx)
  }

  /**
   * The interface index at the end of a frame: the last four octets read
   * little-endian into a signed 32-bit int.
   */
  function FrameVifId(buf: seq<byte>): (id: Option<int>)
    ensures id.None? <==> |buf| < 4
    ensures id.Some? ==> -0x8000_0000 <= id.value < 0x8000_0000
  {
    if |buf| < 4 then None
    else
      var u := GetLE32(buf, |buf| - 4);
      Some(if u >= 0x8000_0000 then u - 0x1_0000_0000 else u)
  }

  /** Where a frame goes before its body is read. */
  datatype Dest = FrameTooShort | NoReceiver | Receiver(vif: nat)

  /** The interface the frame's trailing index names, provided it has a driver. */
  function Destination(vifs: seq<Vif>, buf: seq<byte>): (r: Dest)
    ensures r == FrameTooShort <==> |buf| < 4
    ensures r.Receiver? ==>
      r.vif < |vifs| && vifs[r.vif].drv.Some?
      && VifIndex.VifFromIdx(Idxs(vifs), FrameVifId(buf).value) == Some(r.vif)
  {
    match FrameVifId(buf)
    case None => FrameTooShort
    case Some(id) =>
      match VifIndex.VifFromIdx(Idxs(vifs), id)
      case None => NoReceiver
      case Some(p) => if vifs[p].drv.None? then NoReceiver else Receiver(p)
  }

  /**
   * wilc_network_info_received. The length field at offset 6 counts the
   * management frame plus one and is narrowed to 16 bits after the
   * subtraction; the signal strength is at offset 8 and the frame starts at
   * offset 9. `allocOk` is whether the work item is allocated, `queueOk`
   * whether the frame copy and the enqueue succeed.
   */
  function NetworkInfoReceived(vifs: seq<Vif>, buf: seq<byte>, allocOk: bool, queueOk: bool): (r: Rx<NetInfo>)
    ensures r.Queued? ==>
      Destination(vifs, buf) == Receiver(r.vif) && allocOk && queueOk
      && |buf| >= 9 && r.msg.frameLen == (GetLE16(buf, 6) + 0xFFFF) % 0x10000
      && 9 + r.msg.frameLen <= |buf| && r.msg.mgmt == buf[9..9 + r.msg.frameLen]
      && r.msg.rssi == buf[8]
    ensures (Destination(vifs, buf).Receiver? && allocOk && queueOk && |buf| >= 9
             && 9 + (GetLE16(buf, 6) + 0xFFFF) % 0x10000 <= |buf|) ==> r.Queued?
    ensures r.OutOfFrame? ==> |buf| < 4 || |buf| < 9 || 9 + (GetLE16(buf, 6) + 0xFFFF) % 0x10000 > |buf|
  {
    match Destination(vifs, buf)
    case FrameTooShort => OutOfFrame
    case NoReceiver => Dropped
    case Receiver(p) =>
      if !allocOk then Dropped
      else if |buf| < 9 then OutOfFrame
      else
        var frameLen := (GetLE16(buf, 6) - 1) % 0x10000;
        if 9 + frameLen > |buf| then OutOfFrame
        else if !queueOk then Dropped
        else Queued(p, NetInfo(frameLen, buf[8], buf[9..9 + frameLen]))
  }

  /**
   * wilc_gnrl_async_info_received: dropped unless the interface has a
   * connect callback registered; the MAC status is at offset 7.
   */
  function AsyncInfoReceived(vifs: seq<Vif>, buf: seq<byte>, allocOk: bool, queueOk: bool): (r: Rx<byte>)
    ensures r.Queued? ==>
      Destination(vifs, buf) == Receiver(r.vif) && vifs[r.vif].drv.value.connCb
      && allocOk && queueOk && |buf| >= 8 && r.msg == buf[7]
    ensures (Destination(vifs, buf).Receiver? && vifs[Destination(vifs, buf).vif].drv.value.connCb
             && allocOk && queueOk && |buf| >= 8) ==> r.Queued?
    ensures r.OutOfFrame? ==> |buf| < 8
  {
    match Destination(vifs, buf)
    case FrameTooShort => OutOfFrame
    case NoReceiver => Dropped
    case Receiver(p) =>
      if !vifs[p].drv.value.connCb || !allocOk then Dropped
      else if |buf| < 8 then OutOfFrame
      else if !queueOk then Dropped
      else Queued(p, buf[7])
  }

  /**
   * wilc_scan_complete_received: queues the scan-complete work only for an
   * interface with a scan callback registered; that work reports DONE.
   */
  function ScanCompleteReceived(vifs: seq<Vif>, buf: seq<byte>, allocOk: bool, queueOk: bool): (r: Rx<ScanEvent>)
    ensures r.Queued? <==>
      Destination(vifs, buf).Receiver? && vifs[Destination(vifs, buf).vif].drv.value.scanCb && allocOk && queueOk
    ensures r.Queued? ==> r.vif == Destination(vifs, buf).vif && r.msg == ScanEventDone
    ensures r.OutOfFrame? <==> |buf| < 4
  {
    match Destination(vifs, buf)
    case FrameTooShort => OutOfFrame
    case NoReceiver => Dropped
    case Receiver(p) =>
      if vifs[p].drv.value.scanCb && allocOk && queueOk then Queued(p, ScanEventDone) else Dropped
  }

  // ---- frames as the firmware builds them ----

  /** A frame ending in the little-endian index `id` of its interface. */
  lemma {:induction false} FrameVifIdOfTrailer(body: seq<byte>, id: nat)
    requires id < 0x8000_0000
    ensures FrameVifId(body + LE32(id)) == Some(id)
  {
    var buf := body + LE32(id);
    assert buf[|buf| - 4..|buf|] == LE32(id);
    GetLE32OfLE32(buf, |buf| - 4, id);
  }

  /**
   * Round trip for a well-formed network-info frame: a six-octet header, the
   * length field (frame length plus one), the signal strength, the
   * management frame, any padding, and the firmware index of a live
   * interface. The receiver queues exactly that frame for that interface.
   */
  lemma NetworkInfoRoundTrip(vifs: seq<Vif>, p: nat, hdr: seq<byte>, rssi: byte, mgmt: seq<byte>, pad: seq<byte>)
    requires VifIndex.WellIndexed(Idxs(vifs)) && p < |vifs| && vifs[p].drv.Some?
    requires |hdr| == 6 && |mgmt| + 1 < 0x1_0000
    ensures var buf := hdr + LE16(|mgmt| + 1) + [rssi] + mgmt + pad + LE32(VifIndex.GetVifIdx(vifs[p].idx));
      NetworkInfoReceived(vifs, buf, true, true) == Queued(p, NetInfo(|mgmt|, rssi, mgmt))
  {
    var id := VifIndex.GetVifIdx(vifs[p].idx);
    var body := hdr + LE16(|mgmt| + 1) + [rssi] + mgmt + pad;
    var buf := body + LE32(id);
    FrameVifIdOfTrailer(body, id);
    VifIndex.VifIdxRoundTrip(Idxs(vifs), p);
    assert Destination(vifs, buf) == Receiver(p);
    assert buf[6..8] == LE16(|mgmt| + 1);
    GetLE16OfLE16(buf, 6, |mgmt| + 1);
    assert buf[9..9 + |mgmt|] == mgmt;
  }

  /** Round trip for a general async frame: the MAC status at offset 7 reaches the handler. */
  lemma AsyncInfoRoundTrip(vifs: seq<Vif>, p: nat, hdr: seq<byte>, status: byte, rest: seq<byte>)
    requires VifIndex.WellIndexed(Idxs(vifs)) && p < |vifs| && vifs[p].drv.Some? && vifs[p].drv.value.connCb
    requires |hdr| == 7
    ensures var buf := hdr + [status] + rest + LE32(VifIndex.GetVifIdx(vifs[p].idx));
      AsyncInfoReceived(vifs, buf, true, true) == Queued(p, status)
  {
    var id := VifIndex.GetVifIdx(vifs[p].idx);
    var body := hdr + [status] + rest;
    FrameVifIdOfTrailer(body, id);
    VifIndex.VifIdxRoundTrip(Idxs(vifs), p);
    assert (body + LE32(id))[7] == status;
  }
}
