// The station records of the access-point side: the WID_ADD_STA/WID_EDIT_STA
// record packed by wilc_hif_pack_sta_param, and the WID_DEL_ALL_STA value
// of wilc_del_allstation.
module StationEncoding {
  import opened Bytes
  import Wids

  /** sizeof(struct ieee80211_ht_cap). */
  const HtCapLen: nat := 26

  /** WILC_ADD_STA_LENGTH: the fixed part of a station record, rates excluded. */
  const AddStaLength: nat := 40

  /** struct add_sta_param: `ht` is present exactly when ht_supported is set. */
  datatype StaParam = StaParam(
    bssid: seq<byte>, aid: nat, rates: seq<byte>, ht: Option<seq<byte>>, flagsMask: nat, flagsSet: nat)

  predicate ValidStaParam(p: StaParam)
  {
    IsMac(p.bssid) && p.aid < 0x1_0000 && |p.rates| < 0x100
    && (p.ht.Some? ==> |p.ht.value| == HtCapLen)
    && p.flagsMask < 0x1_0000 && p.flagsSet < 0x1_0000
  }

  /** Offset of the HT capability slot inside a record carrying `n` rates. */
  function HtSlotOffset(n: nat): nat { 10 + n }

  /**
   * The record: bssid, LE16 aid, the rate count and rates, the HT flag, the
   * HT capability slot, LE16 flags_mask and LE16 flags_set. The slot is
   * written only for an HT station; otherwise it keeps the bytes `stale`
   * that the freshly allocated buffer held.
   */
  function StaRecord(p: StaParam, stale: seq<byte>): (r: seq<byte>)
    requires ValidStaParam(p) && |stale| == HtCapLen
    ensures |r| == AddStaLength + |p.rates|
  {
    p.bssid + LE16(p.aid) + [|p.rates| as byte] + p.rates
    + [if p.ht.Some? then 1 else 0] + (if p.ht.Some? then p.ht.value else stale)
    + LE16(p.flagsMask) + LE16(p.flagsSet)
  }

  /** How the firmware reads a station record back. */
  function ParseStaRecord(s: seq<byte>): Option<StaParam>
  {
    if |s| < AddStaLength then None
    else
      var n := s[8] as nat;
      if |s| != AddStaLength + n || s[9 + n] > 1 then None
      else Some(StaParam(s[..6], GetLE16(s, 6), s[9..9 + n],
                         if s[9 + n] == 1 then Some(s[10 + n..10 + n + HtCapLen]) else None,
                         GetLE16(s, 36 + n), GetLE16(s, 38 + n)))
  }

  /** Every field survives the trip, whatever the unwritten HT slot held. */
  lemma StaRecordRoundTrip(p: StaParam, stale: seq<byte>)
    requires ValidStaParam(p) && |stale| == HtCapLen
    ensures ParseStaRecord(StaRecord(p, stale)) == Some(p)
  {
    var s := StaRecord(p, stale);
    var n := |p.rates|;
    assert s[8] as nat == n;
    assert s[..6] == p.bssid;
    assert s[6..8] == LE16(p.aid);
    GetLE16OfLE16(s, 6, p.aid);
    assert s[9..9 + n] == p.rates;
    assert s[9 + n] == if p.ht.Some? then 1 else 0;
    assert p.ht.Some? ==> s[10 + n..10 + n + HtCapLen] == p.ht.value;
    assert s[36 + n..38 + n] == LE16(p.flagsMask);
    assert s[38 + n..40 + n] == LE16(p.flagsSet);
    GetLE16OfLE16(s, 36 + n, p.flagsMask);
    GetLE16OfLE16(s, 38 + n, p.flagsSet);
  }

  /**
   * wilc_hif_pack_sta_param: fills the first AddStaLength + |rates| bytes of
   * `buf` through an advancing cursor.
   */
  method PackStaParam(buf: array<byte>, p: StaParam)
    requires ValidStaParam(p) && buf.Length >= AddStaLength + |p.rates|
    modifies buf
    ensures buf[..AddStaLength + |p.rates|]
      == StaRecord(p, old(buf[HtSlotOffset(|p.rates|)..HtSlotOffset(|p.rates|) + HtCapLen]))
    ensures buf[AddStaLength + |p.rates|..] == old(buf[AddStaLength + |p.rates|..])
  {
    var n := |p.rates|;
    ghost var tail := buf[9 + n..];
    var cur := PackStaHead(buf, p);
    ghost var head := buf[..cur];
    assert buf[9 + n..] == tail;
    assert tail[1..1 + HtCapLen] == old(buf[10 + n..10 + n + HtCapLen]);
    assert tail[31 + n - n..] == old(buf[40 + n..]);
    ghost var slot := tail[1..1 + HtCapLen];
    PackStaTail(buf, p, cur);
    ghost var mid := [if p.ht.Some? then 1 else 0] + (if p.ht.Some? then p.ht.value else slot)
      + LE16(p.flagsMask) + LE16(p.flagsSet);
    assert buf[9 + n..40 + n] == mid;
    assert buf[..9 + n] == head;
    assert buf[..40 + n] == buf[..9 + n] + buf[9 + n..40 + n];
    assert StaRecord(p, slot) == head + mid;
  }

  /** The bssid, the LE16 aid, the rate count and the rates. */
  method PackStaHead(buf: array<byte>, p: StaParam) returns (cur: nat)
    requires ValidStaParam(p) && buf.Length >= AddStaLength + |p.rates|
    modifies buf
    ensures cur == 9 + |p.rates|
    ensures buf[..cur] == p.bssid + LE16(p.aid) + [|p.rates| as byte] + p.rates
    ensures buf[cur..] == old(buf[9 + |p.rates|..])
  {
    ghost var rest := buf[9 + |p.rates|..];
    cur := Wids.Put(buf, 0, p.bssid);
    ghost var done := buf[..cur];
    assert buf[9 + |p.rates|..] == rest by { assert buf[9 + |p.rates|..] == buf[cur..][9 + |p.rates| - cur..]; }
    cur := Wids.Put(buf, cur, LE16(p.aid));
    done := done + LE16(p.aid);
    assert buf[9 + |p.rates|..] == rest by { assert buf[9 + |p.rates|..] == buf[cur..][9 + |p.rates| - cur..]; }
    cur := Wids.Put(buf, cur, [|p.rates| as byte] + p.rates);
    assert buf[..cur] == done + ([|p.rates| as byte] + p.rates);
  }

  /** The HT flag, the HT capability slot (written only for an HT station) and the two flag words. */
  method PackStaTail(buf: array<byte>, p: StaParam, pos: nat)
    requires ValidStaParam(p) && pos == 9 + |p.rates| && buf.Length >= AddStaLength + |p.rates|
    modifies buf
    ensures buf[..pos] == old(buf[..pos])
    ensures buf[pos..pos + 31] == [if p.ht.Some? then 1 else 0]
      + (if p.ht.Some? then p.ht.value else old(buf[pos + 1..pos + 1 + HtCapLen]))
      + LE16(p.flagsMask) + LE16(p.flagsSet)
    ensures buf[pos + 31..] == old(buf[pos + 31..])
  {
    ghost var slot := buf[pos + 1..pos + 1 + HtCapLen];
    ghost var rest := buf[pos + 31..];
    ghost var pre := buf[..pos];
    ghost var ht := [if p.ht.Some? then 1 else 0] + (if p.ht.Some? then p.ht.value else slot);
    var cur := PackHtSlot(buf, p, pos);
    ghost var b1 := buf[..cur];
    cur := Wids.Put(buf, cur, LE16(p.flagsMask));
    ghost var b2 := buf[..cur];
    assert b2 == b1 + LE16(p.flagsMask);
    assert buf[pos + 31..] == rest by { assert buf[pos + 31..] == buf[cur..][2..]; }
    cur := Wids.Put(buf, cur, LE16(p.flagsSet));
    assert buf[..cur] == pre + ht + LE16(p.flagsMask) + LE16(p.flagsSet);
    assert buf[..pos] == pre by { assert buf[..pos] == buf[..cur][..pos]; }
    assert buf[pos..cur] == buf[..cur][pos..];
  }

  /** The HT flag and, for an HT station, the capability; otherwise the slot keeps its bytes. */
  method PackHtSlot(buf: array<byte>, p: StaParam, pos: nat) returns (cur: nat)
    requires ValidStaParam(p) && pos + 31 <= buf.Length
    modifies buf
    ensures cur == pos + 1 + HtCapLen
    ensures buf[..cur] == old(buf[..pos]) + [if p.ht.Some? then 1 else 0]
      + (if p.ht.Some? then p.ht.value else old(buf[pos + 1..pos + 1 + HtCapLen]))
    ensures buf[cur..] == old(buf[cur..])
  {
    if p.ht.Some? {
      cur := Wids.Put(buf, pos, [1] + p.ht.value);
    } else {
      ghost var slot := buf[pos + 1..pos + 1 + HtCapLen];
      ghost var pre := buf[..pos];
      var next := Wids.Put(buf, pos, [0]);
      cur := next + HtCapLen;
      assert buf[next..cur] == slot by { assert buf[next..cur] == buf[next..][..HtCapLen]; }
      assert buf[..cur] == buf[..next] + buf[next..cur];
      assert buf[cur..] == buf[next..][HtCapLen..];
    }
  }

  // ---- WID_DEL_ALL_STA ----

  predicate AllMacs(macs: seq<seq<byte>>) { forall i :: 0 <= i < |macs| ==> IsMac(macs[i]) }

  /** The number of slots holding a non-zero address (`assoc_sta`). */
  function NonZeroCount(macs: seq<seq<byte>>): (c: nat)
    ensures c <= |macs|
  {
    if macs == [] then 0 else (if IsZeroMac(macs[0]) then 0 else 1) + NonZeroCount(macs[1..])
  }

  /** The addresses in slot order. */
  function Concat(macs: seq<seq<byte>>): seq<byte>
  {
    if macs == [] then [] else macs[0] + Concat(macs[1..])
  }

  /** The non-zero addresses, in slot order. */
  function NonZeroMacs(macs: seq<seq<byte>>): seq<seq<byte>>
  {
    if macs == [] then [] else (if IsZeroMac(macs[0]) then [] else [macs[0]]) + NonZeroMacs(macs[1..])
  }

  /**
   * struct wilc_del_all_sta as filled by wilc_del_allstation: the count octet,
   * then every slot, where a zero slot stays zero and a non-zero address stays
   * at its own slot index.
   */
  function DelAllStaStruct(macs: seq<seq<byte>>): seq<byte>
  {
    [U8(NonZeroCount(macs)) as byte] + Concat(macs)
  }

  /** The bytes the driver sends: the first count * 6 + 1 bytes of the struct. */
  function DelAllStaAsWritten(macs: seq<seq<byte>>): seq<byte>
    requires AllMacs(macs)
  {
    ConcatLength(macs);
    DelAllStaStruct(macs)[..NonZeroCount(macs) * EthAlen + 1]
  }

  /** The value the firmware can read every station from: the count, then the non-zero addresses. */
  function DelAllStaValue(macs: seq<seq<byte>>): seq<byte>
  {
    [U8(NonZeroCount(macs)) as byte] + Concat(NonZeroMacs(macs))
  }

  /** How the firmware reads the value: a count, then that many addresses. */
  function ParseDelAllSta(v: seq<byte>): Option<seq<seq<byte>>>
  {
    if |v| == 0 || |v| != 1 + v[0] as nat * EthAlen then None
    else Some(Chunks(v[1..]))
  }

  function Chunks(s: seq<byte>): seq<seq<byte>>
    decreases |s|
  {
    if |s| < EthAlen then [] else [s[..EthAlen]] + Chunks(s[EthAlen..])
  }

  lemma {:induction false} ConcatLength(macs: seq<seq<byte>>)
    requires AllMacs(macs)
    ensures |Concat(macs)| == |macs| * EthAlen
  {
    if macs != [] {
      ConcatLength(macs[1..]);
    }
  }

  lemma {:induction false} NonZeroMacsProps(macs: seq<seq<byte>>)
    requires AllMacs(macs)
    ensures |NonZeroMacs(macs)| == NonZeroCount(macs)
    ensures AllMacs(NonZeroMacs(macs))
    ensures forall i :: 0 <= i < |NonZeroMacs(macs)| ==> !IsZeroMac(NonZeroMacs(macs)[i])
  {
    if macs != [] {
      NonZeroMacsProps(macs[1..]);
    }
  }

  lemma {:induction false} ChunksConcat(macs: seq<seq<byte>>)
    requires AllMacs(macs)
    ensures Chunks(Concat(macs)) == macs
  {
    if macs != [] {
      ConcatLength(macs[1..]);
      assert Concat(macs)[..EthAlen] == macs[0];
      assert Concat(macs)[EthAlen..] == Concat(macs[1..]);
      ChunksConcat(macs[1..]);
      assert [macs[0]] + macs[1..] == macs;
    }
  }

  /** The firmware reads back exactly the non-zero addresses, in slot order. */
  lemma DelAllStaValueRoundTrip(macs: seq<seq<byte>>)
    requires AllMacs(macs) && |macs| < 0x100
    ensures ParseDelAllSta(DelAllStaValue(macs)) == Some(NonZeroMacs(macs))
  {
    NonZeroMacsProps(macs);
    ConcatLength(NonZeroMacs(macs));
    ChunksConcat(NonZeroMacs(macs));
    assert DelAllStaValue(macs)[1..] == Concat(NonZeroMacs(macs));
  }

  /** When the occupied slots are the lowest ones, the driver's bytes are exactly the value. */
  lemma {:induction false} DelAllStaAsWrittenWhenPacked(macs: seq<seq<byte>>, k: nat)
    requires AllMacs(macs) && k <= |macs|
    requires forall i :: 0 <= i < k ==> !IsZeroMac(macs[i])
    requires forall i :: k <= i < |macs| ==> IsZeroMac(macs[i])
    ensures DelAllStaAsWritten(macs) == DelAllStaValue(macs)
  {
    PackedSlots(macs, k);
    ConcatLength(macs[..k]);
    assert macs == macs[..k] + macs[k..];
    ConcatAppend(macs[..k], macs[k..]);
    ConcatLength(macs);
    assert Concat(macs)[..k * EthAlen] == Concat(macs[..k]);
  }

  lemma {:induction false} PackedSlots(macs: seq<seq<byte>>, k: nat)
    requires AllMacs(macs) && k <= |macs|
    requires forall i :: 0 <= i < k ==> !IsZeroMac(macs[i])
    requires forall i :: k <= i < |macs| ==> IsZeroMac(macs[i])
    ensures NonZeroCount(macs) == k && NonZeroMacs(macs) == macs[..k]
  {
    if macs != [] {
      if k == 0 {
        PackedSlots(macs[1..], 0);
      } else {
        PackedSlots(macs[1..], k - 1);
        assert [macs[0]] + macs[1..][..k - 1] == macs[..k];
      }
    }
  }

  lemma {:induction false} ConcatAppend(a: seq<seq<byte>>, b: seq<seq<byte>>)
    ensures Concat(a + b) == Concat(a) + Concat(b)
  {
    if a != [] {
      assert (a + b)[1..] == a[1..] + b;
      ConcatAppend(a[1..], b);
    } else {
      assert a + b == b;
    }
  }

  /**
   * One station in the second of two slots: the driver announces one station
   * but sends the empty first slot, so the firmware reads the zero address
   * instead of the station.
   */
  lemma DelAllStaAsWrittenLosesStation(m: seq<byte>)
    requires IsMac(m) && !IsZeroMac(m)
    ensures var macs := [ZeroMac(), m];
      ParseDelAllSta(DelAllStaAsWritten(macs)) == Some([ZeroMac()])
      && ParseDelAllSta(DelAllStaValue(macs)) == Some([m])
  {
    var macs := [ZeroMac(), m];
    assert macs[1..] == [m];
    assert macs[1..][1..] == [];
    assert !IsZeroMac(macs[1]) && IsZeroMac(macs[0]);
    assert NonZeroCount(macs) == 1;
    assert Concat(macs[1..]) == m + Concat([]);
    assert Concat(macs) == ZeroMac() + m;
    var w := DelAllStaAsWritten(macs);
    assert w == [1] + ZeroMac();
    assert w[1..] == ZeroMac();
    assert Chunks(w[1..][EthAlen..]) == [];
    assert w[1..][..EthAlen] == ZeroMac();
    assert Chunks(w[1..]) == [ZeroMac()];
    assert NonZeroMacs(macs[1..]) == [m] + NonZeroMacs([]);
    assert NonZeroMacs(macs) == [m];
    DelAllStaValueRoundTrip(macs);
  }

  /**
   * The slot loop of wilc_del_allstation over a zeroed struct: counts the
   * non-zero addresses and copies each into its own slot.
   */
  method FillDelAllSta(st: array<byte>, macs: seq<seq<byte>>) returns (count: nat)
    requires AllMacs(macs) && |macs| < 0x100 && st.Length == 1 + |macs| * EthAlen
    modifies st
    ensures count == NonZeroCount(macs)
    ensures st[..] == DelAllStaStruct(macs)
  {
    forall k | 0 <= k < st.Length {
      st[k] := 0;
    }
    count := 0;
    var i := 0;
    while i < |macs|
      invariant 0 <= i <= |macs|
      invariant count == NonZeroCount(macs[..i]) <= i
      invariant st[1..1 + i * EthAlen] == Concat(macs[..i])
      invariant forall k :: 1 + i * EthAlen <= k < st.Length ==> st[k] == 0
    {
      SlotStep(macs, i);
      if !IsZeroMac(macs[i]) {
        AppendMac(st, i, macs[i]);
        count := count + 1;
      } else {
        ZeroSlot(st, i, macs[i]);
      }
      i := i + 1;
    }
    assert macs[..i] == macs;
    ghost var body := st[1..];
    st[0] := U8(count) as byte;
    assert st[1..] == body;
    assert st[..] == [st[0]] + st[1..];
  }

  /** A zero address needs no copy: the zeroed slot already holds it. */
  lemma ZeroSlot(st: array<byte>, i: nat, m: seq<byte>)
    requires IsMac(m) && IsZeroMac(m) && 1 + (i + 1) * EthAlen <= st.Length
    requires forall k :: 1 + i * EthAlen <= k < st.Length ==> st[k] == 0
    ensures st[1..1 + (i + 1) * EthAlen] == st[1..1 + i * EthAlen] + m
  {
    ZeroMacIsZero(m);
    assert st[1 + i * EthAlen..1 + (i + 1) * EthAlen] == m;
    assert st[1..1 + (i + 1) * EthAlen] == st[1..1 + i * EthAlen] + st[1 + i * EthAlen..1 + (i + 1) * EthAlen];
  }

  /** One slot more of the struct: the slot's address follows the earlier slots, zero or not. */
  lemma SlotStep(macs: seq<seq<byte>>, i: nat)
    requires AllMacs(macs) && i < |macs|
    ensures NonZeroCount(macs[..i + 1]) == NonZeroCount(macs[..i]) + (if IsZeroMac(macs[i]) then 0 else 1)
    ensures Concat(macs[..i + 1]) == Concat(macs[..i]) + macs[i]
  {
    assert macs[..i + 1] == macs[..i] + [macs[i]];
    CountSnoc(macs[..i], macs[i]);
    ConcatAppend(macs[..i], [macs[i]]);
    assert Concat([macs[i]]) == macs[i] by { assert [macs[i]][1..] == []; }
  }

  /**
   * The corrected slot loop: each non-zero address is appended after the
   * ones already taken, so the count and the addresses the firmware reads
   * agree.
   */
  method FillDelAllStaPacked(st: array<byte>, macs: seq<seq<byte>>) returns (count: nat)
    requires AllMacs(macs) && |macs| < 0x100 && st.Length == 1 + |macs| * EthAlen
    modifies st
    ensures count == NonZeroCount(macs) && 1 + count * EthAlen <= st.Length
    ensures st[..1 + count * EthAlen] == DelAllStaValue(macs)
  {
    count := 0;
    var i := 0;
    while i < |macs|
      invariant 0 <= i <= |macs|
      invariant count == NonZeroCount(macs[..i]) <= i
      invariant st[1..1 + count * EthAlen] == Concat(NonZeroMacs(macs[..i]))
    {
      PackedStep(macs, i);
      if !IsZeroMac(macs[i]) {
        AppendMac(st, count, macs[i]);
        count := count + 1;
      }
      i := i + 1;
    }
    assert macs[..i] == macs;
    ghost var body := st[1..1 + count * EthAlen];
    st[0] := U8(count) as byte;
    assert st[1..1 + count * EthAlen] == body;
    assert st[..1 + count * EthAlen] == [st[0]] + st[1..1 + count * EthAlen];
  }

  /** Writes one address after the `count` already taken, keeping those. */
  method AppendMac(st: array<byte>, count: nat, m: seq<byte>)
    requires IsMac(m) && 1 + (count + 1) * EthAlen <= st.Length
    modifies st
    ensures st[1..1 + (count + 1) * EthAlen] == old(st[1..1 + count * EthAlen]) + m
    ensures forall k :: 1 + (count + 1) * EthAlen <= k < st.Length ==> st[k] == old(st[k])
  {
    ghost var before := st[..1 + count * EthAlen];
    var next := Wids.Put(st, 1 + count * EthAlen, m);
    assert st[..next] == before + m;
    assert st[1..next] == before[1..] + m;
  }

  /** One slot more: the count and the packed addresses grow by the slot's address when it is not zero. */
  lemma PackedStep(macs: seq<seq<byte>>, i: nat)
    requires AllMacs(macs) && i < |macs|
    ensures NonZeroCount(macs[..i + 1]) == NonZeroCount(macs[..i]) + (if IsZeroMac(macs[i]) then 0 else 1)
    ensures Concat(NonZeroMacs(macs[..i + 1]))
      == Concat(NonZeroMacs(macs[..i])) + (if IsZeroMac(macs[i]) then [] else macs[i])
  {
    assert macs[..i + 1] == macs[..i] + [macs[i]];
    CountSnoc(macs[..i], macs[i]);
    NonZeroMacsSnoc(macs[..i], macs[i]);
    if !IsZeroMac(macs[i]) {
      ConcatAppend(NonZeroMacs(macs[..i]), [macs[i]]);
      assert Concat([macs[i]]) == macs[i] by { assert [macs[i]][1..] == []; }
    } else {
      assert NonZeroMacs(macs[..i]) + [] == NonZeroMacs(macs[..i]);
    }
  }

  lemma {:induction false} NonZeroMacsSnoc(macs: seq<seq<byte>>, m: seq<byte>)
    ensures NonZeroMacs(macs + [m]) == NonZeroMacs(macs) + (if IsZeroMac(m) then [] else [m])
  {
    if macs != [] {
      assert (macs + [m])[1..] == macs[1..] + [m];
      NonZeroMacsSnoc(macs[1..], m);
    } else {
      assert [m][1..] == [];
    }
  }

  lemma ZeroMacIsZero(m: seq<byte>)
    requires IsMac(m) && IsZeroMac(m)
    ensures m == ZeroMac()
  {
  }

  lemma {:induction false} CountSnoc(macs: seq<seq<byte>>, m: seq<byte>)
    ensures NonZeroCount(macs + [m]) == NonZeroCount(macs) + (if IsZeroMac(m) then 0 else 1)
  {
    if macs != [] {
      assert (macs + [m])[1..] == macs[1..] + [m];
      CountSnoc(macs[1..], m);
    } else {
      assert [m][1..] == [];
    }
  }
}
