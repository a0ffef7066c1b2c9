// The configuration records ("WIDs") the host sends to the firmware, and the
// cursor primitive every encoder uses to lay bytes into a heap buffer.
module Wids {
  import opened Bytes

  /** The WID identifiers this model emits. */
  datatype WidId =
    | SsidProbeReq | InfoElementProbe | ScanType | PassiveScanTime | ScanChannelList | StartScanReq
    | AbortRunningScan
    | SetMfp | InfoElementAssociate | Mode11i | AuthType | JoinReqExtended
    | Disconnect | RemainOnChan
    | AddSta | EditSta | SetupMulticastFilter | AddBeacon | DelAllSta | SetOperationMode
    | ShortRetryLimit | LongRetryLimit | FragThreshold | RtsThreshold

  /** One `struct wid`: its identifier, the bytes behind `val`, and the declared `size`. */
  datatype Wid = Wid(id: WidId, val: seq<byte>, size: nat)

  /** A WID whose declared size covers exactly the bytes behind its value. */
  function Sized(id: WidId, val: seq<byte>): (w: Wid)
    ensures w.id == id && w.val == val && w.size == |val|
  { Wid(id, val, |val|) }

  /**
   * memcpy(cur_byte, src, n); cur_byte += n: writes `src` at `pos` and
   * returns the advanced cursor; every other byte of the buffer is kept.
   */
  method Put(buf: array<byte>, pos: nat, src: seq<byte>) returns (next: nat)
    requires pos + |src| <= buf.Length
    modifies buf
    ensures next == pos + |src|
    ensures buf[..next] == old(buf[..pos]) + src && buf[next..] == old(buf[next..])
  {
    forall k | 0 <= k < |src| {
      buf[pos + k] := src[k];
    }
    next := pos + |src|;
    assert buf[..] == old(buf[..pos]) + src + old(buf[next..]) by {
      forall k | 0 <= k < buf.Length
        ensures buf[..][k] == (old(buf[..pos]) + src + old(buf[next..]))[k]
      {
        if k < pos {
        } else if k < next {
        } else {
        }
      }
    }
    assert buf[..next] == buf[..][..next];
    assert buf[next..] == buf[..][next..];
  }
}
