// The remaining fixed-layout WID values: the multicast filter of
// handle_set_mcast_filter, the beacon of wilc_add_beacon, the operation-mode
// record of wilc_set_operation_mode and the WID list of wilc_hif_set_cfg.
module ConfigEncoding {
  import opened Bytes
  import opened Wids

  // ---- WID_SETUP_MULTICAST_FILTER ----

  /** sizeof(struct wilc_set_multicast) on a 64-bit kernel: two u32 fields and a pointer. */
  const McastHeaderLen: nat := 16

  /** The WID size the driver declares for `cnt` addresses. */
  function McastSize(cnt: nat): nat { McastHeaderLen + cnt * EthAlen }

  /**
   * The bytes the driver writes at the head of its buffer: LE32 enabled,
   * LE32 cnt, then the address list when there is one and cnt is non-zero.
   */
  function McastWritten(enabled: nat, cnt: nat, list: Option<seq<byte>>): (w: seq<byte>)
    requires enabled < 0x1_0000_0000 && cnt < 0x1_0000_0000
    requires list.Some? ==> |list.value| == cnt * EthAlen
    ensures |w| <= McastSize(cnt)
  {
    LE32(enabled) + LE32(cnt) + (if cnt > 0 && list.Some? then list.value else [])
  }

  /** How the firmware reads the filter: enabled, the count, and that many addresses. */
  function ParseMcast(v: seq<byte>): Option<(nat, seq<byte>)>
  {
    if |v| < 8 then None
    else
      var cnt := GetLE32(v, 4);
      if |v| < 8 + cnt * EthAlen then None else Some((GetLE32(v, 0), v[8..8 + cnt * EthAlen]))
  }

  /** The flag and the address list survive, whatever follows them in the buffer. */
  lemma McastRoundTrip(enabled: nat, list: seq<byte>, rest: seq<byte>)
    requires enabled < 0x1_0000_0000 && |list| % EthAlen == 0
    requires |list| / EthAlen < 0x1_0000_0000
    ensures ParseMcast(McastWritten(enabled, |list| / EthAlen, Some(list)) + rest) == Some((enabled, list))
  {
    var cnt := |list| / EthAlen;
    var v := McastWritten(enabled, cnt, Some(list)) + rest;
    assert v[..4] == LE32(enabled) && v[4..8] == LE32(cnt);
    GetLE32OfLE32(v, 0, enabled);
    GetLE32OfLE32(v, 4, cnt);
    assert v[8..8 + cnt * EthAlen] == list;
  }

  /**
   * The cursor writes of handle_set_mcast_filter into a buffer of the
   * declared size; the bytes after what it writes keep their old contents.
   */
  method FillMcast(buf: array<byte>, enabled: nat, cnt: nat, list: Option<seq<byte>>)
    requires enabled < 0x1_0000_0000 && cnt < 0x1_0000_0000
    requires list.Some? ==> |list.value| == cnt * EthAlen
    requires buf.Length == McastSize(cnt)
    modifies buf
    ensures var w := McastWritten(enabled, cnt, list);
      buf[..|w|] == w && buf[|w|..] == old(buf[|w|..])
  {
    var cur := Put(buf, 0, LE32(enabled));
    cur := Put(buf, cur, LE32(cnt));
    if cnt > 0 && list.Some? {
      cur := Put(buf, cur, list.value);
    }
  }

  // ---- WID_ADD_BEACON ----

  datatype Beacon = Beacon(interval: nat, dtimPeriod: nat, head: seq<byte>, tail: seq<byte>)

  predicate ValidBeacon(b: Beacon)
  {
    b.interval < 0x1_0000_0000 && b.dtimPeriod < 0x1_0000_0000
    && |b.head| < 0x1_0000_0000 && |b.tail| < 0x1_0000_0000
  }

  /** LE32 interval, LE32 DTIM period, LE32 head length, head, LE32 tail length, tail. */
  function BeaconValue(b: Beacon): (v: seq<byte>)
    requires ValidBeacon(b)
    ensures |v| == |b.head| + |b.tail| + 16
  {
    LE32(b.interval) + LE32(b.dtimPeriod) + LE32(|b.head|) + b.head + LE32(|b.tail|) + b.tail
  }

  function ParseBeacon(v: seq<byte>): Option<Beacon>
  {
    if |v| < 12 then None
    else
      var hl := GetLE32(v, 8);
      if |v| < 16 + hl then None
      else
        var tl := GetLE32(v, 12 + hl);
        if |v| != 16 + hl + tl then None
        else Some(Beacon(GetLE32(v, 0), GetLE32(v, 4), v[12..12 + hl], v[16 + hl..]))
  }

  /** The firmware recovers the interval, the DTIM period, the head and the tail. */
  lemma BeaconRoundTrip(b: Beacon)
    requires ValidBeacon(b)
    ensures ParseBeacon(BeaconValue(b)) == Some(b)
  {
    var v := BeaconValue(b);
    var hl := |b.head|;
    assert v[..4] == LE32(b.interval) && v[4..8] == LE32(b.dtimPeriod) && v[8..12] == LE32(hl);
    GetLE32OfLE32(v, 0, b.interval);
    GetLE32OfLE32(v, 4, b.dtimPeriod);
    GetLE32OfLE32(v, 8, hl);
    assert v[12..12 + hl] == b.head;
    assert v[12 + hl..16 + hl] == LE32(|b.tail|);
    GetLE32OfLE32(v, 12 + hl, |b.tail|);
    assert v[16 + hl..] == b.tail;
  }

  /** The cursor writes of wilc_add_beacon into its zeroed buffer of the declared size. */
  method FillBeacon(buf: array<byte>, b: Beacon)
    requires ValidBeacon(b) && buf.Length == |b.head| + |b.tail| + 16
    modifies buf
    ensures buf[..] == BeaconValue(b)
  {
    var cur := Put(buf, 0, LE32(b.interval));
    ghost var done := buf[..cur];
    cur := Put(buf, cur, LE32(b.dtimPeriod));
    done := done + LE32(b.dtimPeriod);
    cur := Put(buf, cur, LE32(|b.head|));
    done := done + LE32(|b.head|);
    cur := Put(buf, cur, b.head);
    done := done + b.head;
    cur := Put(buf, cur, LE32(|b.tail|));
    done := done + LE32(|b.tail|);
    assert buf[..cur] == done;
    cur := Put(buf, cur, b.tail);
    assert buf[..] == buf[..cur];
  }

  // ---- WID_SET_OPERATION_MODE ----

  /** drv.mode = ifc_id | (mode << 1), stored in a u8. */
  function ModeBits(mode: bv8, ifcId: bv8): bv8
  {
    ifcId | (mode << 1)
  }

  function OperationModeByte(mode: byte, ifcId: byte): byte
  {
    ModeBits(mode as bv8, ifcId as bv8) as byte
  }

  /** struct wilc_drv_handler: LE32 handler index, then the mode octet. */
  function OperationModeValue(index: int, mode: byte, ifcId: byte): (v: seq<byte>)
    ensures |v| == 5
  {
    LE32(U32(index)) + [OperationModeByte(mode, ifcId)]
  }

  /**
   * For an interface id of 0 or 1 the firmware recovers the id from bit 0 and
   * the low seven bits of the mode from bits 1 to 7.
   */
  lemma OperationModeDecodes(mode: bv8, ifcId: bv8)
    requires ifcId < 2
    ensures ModeBits(mode, ifcId) & 1 == ifcId
    ensures ModeBits(mode, ifcId) >> 1 == mode & 0x7F
  {
  }

  // ---- wilc_hif_set_cfg ----

  /** The parameter bits of cfg_param_attr.flag that the driver tests. */
  datatype CfgFlag = RetryShortFlag | RetryLongFlag | FragFlag | RtsFlag

  datatype CfgParam = CfgParam(
    retryShort: bool, retryLong: bool, frag: bool, rts: bool,
    shortRetryLimit: nat, longRetryLimit: nat, fragThreshold: nat, rtsThreshold: nat)

  predicate ValidCfg(c: CfgParam)
  {
    c.shortRetryLimit < 0x1_0000 && c.longRetryLimit < 0x1_0000
    && c.fragThreshold < 0x1_0000 && c.rtsThreshold < 0x1_0000
  }

  /** Whether `flag` is set in cfg_param_attr.flag. */
  predicate Requested(c: CfgParam, flag: CfgFlag)
  {
    match flag
    case RetryShortFlag => c.retryShort
    case RetryLongFlag => c.retryLong
    case FragFlag => c.frag
    case RtsFlag => c.rts
  }

  /** The WID a flag requests. */
  function FlagWid(flag: CfgFlag): WidId
  {
    match flag
    case RetryShortFlag => ShortRetryLimit
    case RetryLongFlag => LongRetryLimit
    case FragFlag => FragThreshold
    case RtsFlag => RtsThreshold
  }

  /** The parameter a flag requests. */
  function FlagValue(c: CfgParam, flag: CfgFlag): nat
  {
    match flag
    case RetryShortFlag => c.shortRetryLimit
    case RetryLongFlag => c.longRetryLimit
    case FragFlag => c.fragThreshold
    case RtsFlag => c.rtsThreshold
  }

  /** A u16 WID carrying the parameter when its flag is set, otherwise nothing. */
  function CfgEntry(c: CfgParam, flag: CfgFlag): seq<Wid>
    requires ValidCfg(c)
  {
    if Requested(c, flag) then [Sized(FlagWid(flag), LE16(FlagValue(c, flag)))] else []
  }

  /** The order in which wilc_hif_set_cfg tests the flags. */
  const FlagOrder: seq<CfgFlag> := [RetryShortFlag, RetryLongFlag, FragFlag, RtsFlag]

  function CfgWidsFor(c: CfgParam, flags: seq<CfgFlag>): seq<Wid>
    requires ValidCfg(c)
  {
    if flags == [] then [] else CfgEntry(c, flags[0]) + CfgWidsFor(c, flags[1..])
  }

  /** The WID list of wilc_hif_set_cfg. */
  function CfgWids(c: CfgParam): seq<Wid>
    requires ValidCfg(c)
  {
    CfgWidsFor(c, FlagOrder)
  }

  /** How the firmware reads a u16 WID out of a list: the first WID with that id. */
  function LookupU16(wids: seq<Wid>, id: WidId): Option<nat>
  {
    if wids == [] then None
    else if wids[0].id == id && |wids[0].val| == 2 then Some(GetLE16(wids[0].val, 0))
    else LookupU16(wids[1..], id)
  }

  lemma {:induction false} CfgWidsForLookup(c: CfgParam, flags: seq<CfgFlag>, f: CfgFlag)
    requires ValidCfg(c)
    requires forall i, j :: 0 <= i < j < |flags| ==> flags[i] != flags[j]
    ensures |CfgWidsFor(c, flags)| <= |flags|
    ensures LookupU16(CfgWidsFor(c, flags), FlagWid(f))
      == if f in flags && Requested(c, f) then Some(FlagValue(c, f)) else None
  {
    if flags != [] {
      var g := flags[0];
      var rest := CfgWidsFor(c, flags[1..]);
      CfgWidsForLookup(c, flags[1..], f);
      if Requested(c, g) {
        var w := CfgEntry(c, g) + rest;
        assert w[0] == Sized(FlagWid(g), LE16(FlagValue(c, g)));
        GetLE16OfLE16(w[0].val, 0, FlagValue(c, g));
        assert w[1..] == rest;
        if g == f {
          assert f !in flags[1..] by {
            forall j | 1 <= j < |flags| ensures flags[j] != f { }
          }
        }
      } else {
        assert CfgEntry(c, g) + rest == rest;
      }
      assert f in flags <==> f == g || f in flags[1..] by {
        assert flags == [g] + flags[1..];
      }
    }
  }

  /**
   * The list fits the driver's four-entry array, and the firmware finds in it
   * exactly the requested parameters, each with its value.
   */
  lemma CfgWidsExact(c: CfgParam, f: CfgFlag)
    requires ValidCfg(c)
    ensures |CfgWids(c)| <= 4
    ensures LookupU16(CfgWids(c), FlagWid(f)) == if Requested(c, f) then Some(FlagValue(c, f)) else None
  {
    CfgWidsForLookup(c, FlagOrder, f);
    assert f in FlagOrder by { match f { case _ => } }
  }
}
