// The scan request payloads of wilc_scan: the WID_SSID_PROBE_REQ value built
// with a cursor over a heap buffer, and the in-place rebasing of the channel
// list to the firmware's zero-based channel numbers.
module ScanEncoding {
  import opened Bytes
  import Wids

  /** IEEE80211_MAX_SSID_LEN. */
  const MaxSsidLen: nat := 32

  predicate ValidSsids(ssids: seq<seq<byte>>)
  {
    forall i :: 0 <= i < |ssids| ==> |ssids[i]| <= MaxSsidLen
  }

  /** The sum of (ssid_len + 1) over the probed SSIDs, without truncation. */
  function SsidBytes(ssids: seq<seq<byte>>): nat
  {
    if ssids == [] then 0 else |ssids[0]| + 1 + SsidBytes(ssids[1..])
  }

  /** Each SSID as a length octet followed by its bytes, in request order. */
  function SsidRecords(ssids: seq<seq<byte>>): seq<byte>
    requires ValidSsids(ssids)
  {
    if ssids == [] then [] else [|ssids[0]| as byte] + ssids[0] + SsidRecords(ssids[1..])
  }

  /** The WID_SSID_PROBE_REQ value: the SSID count octet, then the records. */
  function SsidProbeValue(ssids: seq<seq<byte>>): seq<byte>
    requires ValidSsids(ssids)
  {
    [U8(|ssids|) as byte] + SsidRecords(ssids)
  }

  /** The buffer and WID size the driver computes: `valuesize` is a u8, so the sum wraps. */
  function SsidProbeSizeAsWritten(ssids: seq<seq<byte>>): nat
  {
    U8(SsidBytes(ssids)) + 1
  }

  /** The buffer and WID size that holds the whole value. */
  function SsidProbeSize(ssids: seq<seq<byte>>): nat
  {
    SsidBytes(ssids) + 1
  }

  lemma {:induction false} SsidRecordsLength(ssids: seq<seq<byte>>)
    requires ValidSsids(ssids)
    ensures |SsidRecords(ssids)| == SsidBytes(ssids)
  {
    if ssids != [] {
      SsidRecordsLength(ssids[1..]);
    }
  }

  /** The value fills exactly the corrected buffer size. */
  lemma SsidProbeValueFits(ssids: seq<seq<byte>>)
    requires ValidSsids(ssids)
    ensures |SsidProbeValue(ssids)| == SsidProbeSize(ssids)
  {
    SsidRecordsLength(ssids);
  }

  /** The u8 size agrees with the value's length exactly when the sum stays below 256. */
  lemma SsidProbeSizeAsWrittenExact(ssids: seq<seq<byte>>)
    requires ValidSsids(ssids)
    ensures SsidProbeSizeAsWritten(ssids) == |SsidProbeValue(ssids)| <==> SsidBytes(ssids) < 256
  {
    SsidProbeValueFits(ssids);
  }

  lemma {:induction false} SsidBytesUniform(n: nat, s: seq<byte>)
    ensures SsidBytes(seq(n, _ => s)) == n * (|s| + 1)
  {
    if n > 0 {
      assert seq(n, _ => s)[1..] == seq(n - 1, _ => s);
      SsidBytesUniform(n - 1, s);
    }
  }

  /**
   * Eight SSIDs of 32 bytes: the driver allocates and declares 9 bytes
   * while its cursor writes 265.
   */
  lemma SsidProbeSizeWraps()
    ensures var ssids := seq(8, _ => seq(32, _ => 0x41 as byte));
      ValidSsids(ssids) && SsidProbeSizeAsWritten(ssids) == 9 && |SsidProbeValue(ssids)| == 265
  {
    var ssids := seq(8, _ => seq(32, _ => 0x41 as byte));
    SsidBytesUniform(8, seq(32, _ => 0x41 as byte));
    SsidProbeValueFits(ssids);
  }

  /** Reads `n` length-prefixed SSID records; returns them with the unread rest. */
  function ParseSsidRecords(s: seq<byte>, n: nat): Option<(seq<seq<byte>>, seq<byte>)>
    decreases n
  {
    if n == 0 then Some(([], s))
    else if |s| == 0 || |s| < 1 + s[0] as nat then None
    else
      match ParseSsidRecords(s[1 + s[0] as nat..], n - 1)
      case None => None
      case Some((rest, tail)) => Some(([s[1..1 + s[0] as nat]] + rest, tail))
  }

  /** What the firmware reads out of a WID_SSID_PROBE_REQ value. */
  function ParseSsidProbe(v: seq<byte>): Option<seq<seq<byte>>>
  {
    if |v| == 0 then None
    else match ParseSsidRecords(v[1..], v[0] as nat)
      case Some((ssids, tail)) => if tail == [] then Some(ssids) else None
      case None => None
  }

  lemma {:induction false} ParseSsidRecordsRoundTrip(ssids: seq<seq<byte>>, tail: seq<byte>)
    requires ValidSsids(ssids)
    ensures ParseSsidRecords(SsidRecords(ssids) + tail, |ssids|) == Some((ssids, tail))
  {
    if ssids != [] {
      var s := SsidRecords(ssids) + tail;
      var n := |ssids[0]|;
      assert s == [n as byte] + ssids[0] + (SsidRecords(ssids[1..]) + tail);
      assert s[0] as nat == n && |s| >= 1 + n;
      assert s[1..1 + n] == ssids[0];
      assert s[1 + n..] == SsidRecords(ssids[1..]) + tail;
      ParseSsidRecordsRoundTrip(ssids[1..], tail);
      assert ParseSsidRecords(s[1 + n..], |ssids| - 1) == Some((ssids[1..], tail));
      assert [ssids[0]] + ssids[1..] == ssids;
      assert ParseSsidRecords(s, |ssids|) == Some(([s[1..1 + n]] + ssids[1..], tail));
    } else {
      assert SsidRecords(ssids) + tail == tail;
    }
  }

  /** The firmware recovers exactly the probed SSIDs, in order. */
  lemma SsidProbeRoundTrip(ssids: seq<seq<byte>>)
    requires ValidSsids(ssids) && |ssids| < 256
    ensures ParseSsidProbe(SsidProbeValue(ssids)) == Some(ssids)
  {
    ParseSsidRecordsRoundTrip(ssids, []);
    assert SsidProbeValue(ssids)[1..] == SsidRecords(ssids) + [];
  }

  lemma {:induction false} SsidRecordsSnoc(ssids: seq<seq<byte>>, s: seq<byte>)
    requires ValidSsids(ssids) && |s| <= MaxSsidLen
    ensures ValidSsids(ssids + [s])
    ensures SsidRecords(ssids + [s]) == SsidRecords(ssids) + [|s| as byte] + s
    ensures SsidBytes(ssids + [s]) == SsidBytes(ssids) + |s| + 1
  {
    if ssids != [] {
      assert (ssids + [s])[1..] == ssids[1..] + [s];
      SsidRecordsSnoc(ssids[1..], s);
    } else {
      assert [s][1..] == [];
    }
  }

  /**
   * The SSID loop of wilc_scan: the count octet, then for each SSID its
   * length and bytes, written through an advancing cursor.
   */
  method FillSsidProbe(buf: array<byte>, ssids: seq<seq<byte>>)
    requires ValidSsids(ssids) && buf.Length >= SsidProbeSize(ssids)
    modifies buf
    ensures buf[..SsidProbeSize(ssids)] == SsidProbeValue(ssids)
  {
    buf[0] := U8(|ssids|) as byte;
    var pos := 1;
    var i := 0;
    while i < |ssids|
      invariant 0 <= i <= |ssids|
      invariant pos == 1 + SsidBytes(ssids[..i]) <= SsidProbeSize(ssids)
      invariant buf[..pos] == [U8(|ssids|) as byte] + SsidRecords(ssids[..i])
    {
      SsidRecordsSnoc(ssids[..i], ssids[i]);
      assert ssids[..i + 1] == ssids[..i] + [ssids[i]];
      SsidBytesSplit(ssids, i + 1);
      ghost var before := buf[..pos];
      buf[pos] := |ssids[i]| as byte;
      assert buf[..pos + 1] == before + [|ssids[i]| as byte];
      var next := Wids.Put(buf, pos + 1, ssids[i]);
      assert buf[..next] == buf[..pos + 1] + ssids[i];
      pos := next;
      i := i + 1;
    }
    assert ssids[..i] == ssids;
  }

  lemma {:induction false} SsidBytesSplit(ssids: seq<seq<byte>>, k: nat)
    requires k <= |ssids|
    ensures SsidBytes(ssids[..k]) <= SsidBytes(ssids)
  {
    if k > 0 {
      assert ssids[..k][1..] == ssids[1..][..k - 1];
      SsidBytesSplit(ssids[1..], k - 1);
    }
  }

  /** The firmware numbers channels from 0; the driver's list numbers them from 1. */
  function Rebased(ch: seq<byte>): (r: seq<byte>)
  {
    seq(|ch|, i requires 0 <= i < |ch| => if ch[i] > 0 then ch[i] - 1 else ch[i])
  }

  /** The loop over ch_freq_list in wilc_scan, which rewrites the caller's list in place. */
  method RebaseChannels(ch: array<byte>)
    modifies ch
    ensures ch[..] == Rebased(old(ch[..]))
    ensures forall i :: 0 <= i < ch.Length ==>
      (old(ch[i]) == 0 ==> ch[i] == 0) && (old(ch[i]) > 0 ==> ch[i] as int == old(ch[i]) as int - 1)
  {
    var i := 0;
    while i < ch.Length
      invariant 0 <= i <= ch.Length
      invariant forall k :: 0 <= k < i ==> ch[k] == Rebased(old(ch[..]))[k]
      invariant forall k :: i <= k < ch.Length ==> ch[k] == old(ch[k])
    {
      if ch[i] > 0 {
        ch[i] := ch[i] - 1;
      }
      i := i + 1;
    }
  }
}
