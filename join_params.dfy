// The parts of wilc_parse_join_bss_param that the join request carries to
// the firmware: the supported-rates field merged from the Supported Rates and
// Extended Supported Rates elements, and the cipher and AKM suite slots. The
// element contents are inputs: locating the elements is not modelled.
module JoinParams {
  import opened Bytes

  /** WILC_MAX_RATES_SUPPORTED. */
  const MaxRatesSupported: nat := 12

  function Min(a: nat, b: nat): nat { if a < b then a else b }

  /** memcpy(&buf[pos], src, |src|) on a value. */
  function Overlay(buf: seq<byte>, pos: nat, src: seq<byte>): (r: seq<byte>)
    requires pos + |src| <= |buf|
    ensures |r| == |buf|
  {
    buf[..pos] + src + buf[pos + |src|..]
  }

  /** The number of Supported Rates element rates the driver keeps (`rates_len`). */
  function RatesLen(rates: Option<seq<byte>>): nat
  {
    if rates.Some? then Min(|rates.value|, MaxRatesSupported) else 0
  }

  /** param->supp_rates after the Supported Rates element copy, over a zeroed structure. */
  function RatesStage(rates: Option<seq<byte>>): (r: seq<byte>)
    requires rates.Some? ==> |rates.value| < 0x100
    ensures |r| == MaxRatesSupported + 1
  {
    var zero := seq(MaxRatesSupported + 1, _ => 0 as byte);
    var rl := RatesLen(rates);
    if rates.Some? then Overlay(zero[0 := rl as byte], 1, rates.value[..rl]) else zero
  }

  /**
   * param->supp_rates after both element copies: a count octet followed by
   * MaxRatesSupported rate slots. `rates` and `ext` are the bodies of the
   * Supported Rates and Extended Supported Rates elements when present.
   */
  function SuppRates(rates: Option<seq<byte>>, ext: Option<seq<byte>>): (r: seq<byte>)
    requires rates.Some? ==> |rates.value| < 0x100
    requires ext.Some? ==> |ext.value| < 0x100
    ensures |r| == MaxRatesSupported + 1
  {
    var rl := RatesLen(rates);
    var s1 := RatesStage(rates);
    if rl < MaxRatesSupported && ext.Some? then
      var count: nat := if |ext.value| > MaxRatesSupported - rl then MaxRatesSupported
                        else s1[0] as nat + |ext.value|;
      Overlay(s1[0 := count as byte], rl + 1, ext.value[..count - rl])
    else s1
  }

  function Body(e: Option<seq<byte>>): seq<byte> { if e.Some? then e.value else [] }

  lemma RatesStageProps(rates: Option<seq<byte>>)
    requires rates.Some? ==> |rates.value| < 0x100
    ensures var s1 := RatesStage(rates); var rl := RatesLen(rates);
      s1[0] as nat == rl && s1[1..1 + rl] == Body(rates)[..rl]
      && forall i :: 1 + rl <= i < |s1| ==> s1[i] == 0
  {
  }

  /**
   * The firmware's rate set is the first MaxRatesSupported rates of the
   * Supported Rates element followed by the Extended Supported Rates element,
   * prefixed by its count, with the unused slots zero.
   */
  lemma SuppRatesTakesFirstRates(rates: Option<seq<byte>>, ext: Option<seq<byte>>)
    requires rates.Some? ==> |rates.value| < 0x100
    requires ext.Some? ==> |ext.value| < 0x100
    ensures var all := Body(rates) + Body(ext);
      var n := Min(|all|, MaxRatesSupported);
      var r := SuppRates(rates, ext);
      r[0] as nat == n && r[1..1 + n] == all[..n]
      && forall i :: 1 + n <= i < |r| ==> r[i] == 0
  {
    RatesStageProps(rates);
    if RatesLen(rates) < MaxRatesSupported && ext.Some? {
      MergedRates(rates, ext.value);
    } else {
      UnmergedRates(rates, ext);
    }
  }

  /** The Extended Supported Rates copy, when there is room left for it. */
  lemma MergedRates(rates: Option<seq<byte>>, ext: seq<byte>)
    requires rates.Some? ==> |rates.value| < 0x100
    requires |ext| < 0x100 && RatesLen(rates) < MaxRatesSupported
    ensures var all := Body(rates) + ext;
      var n := Min(|all|, MaxRatesSupported);
      var r := SuppRates(rates, Some(ext));
      r[0] as nat == n && r[1..1 + n] == all[..n]
      && forall i :: 1 + n <= i < |r| ==> r[i] == 0
  {
    var all := Body(rates) + ext;
    var n := Min(|all|, MaxRatesSupported);
    var rl := RatesLen(rates);
    RatesStageProps(rates);
    MergedShape(rates, ext);
    var t := RatesStage(rates)[0 := n as byte];
    OverlayAfterPrefix(t, Body(rates), ext[..n - rl]);
    PrefixOfConcat(Body(rates), ext, n);
  }

  /** Writing `e` right after the prefix `b` of a count-prefixed zero-padded array. */
  lemma OverlayAfterPrefix(t: seq<byte>, b: seq<byte>, e: seq<byte>)
    requires 1 + |b| + |e| <= |t| && t[1..1 + |b|] == b
    requires forall i :: 1 + |b| <= i < |t| ==> t[i] == 0
    ensures var r := Overlay(t, 1 + |b|, e);
      r[0] == t[0] && r[1..1 + |b| + |e|] == b + e
      && forall i :: 1 + |b| + |e| <= i < |r| ==> r[i] == 0
  {
    var r := Overlay(t, 1 + |b|, e);
    OverlayProps(t, 1 + |b|, e);
    assert r[0] == r[..1 + |b|][0];
    assert r[1..1 + |b|] == r[..1 + |b|][1..];
    assert r[1..1 + |b| + |e|] == r[1..1 + |b|] + r[1 + |b|..1 + |b| + |e|];
  }

  lemma PrefixOfConcat(a: seq<byte>, b: seq<byte>, k: nat)
    requires |a| <= k <= |a| + |b|
    ensures (a + b)[..k] == a + b[..k - |a|]
  {
  }

  /** In the merge case the count is min(|rates| + |ext|, MaxRatesSupported) and the copy follows the first stage. */
  lemma MergedShape(rates: Option<seq<byte>>, ext: seq<byte>)
    requires rates.Some? ==> |rates.value| < 0x100
    requires |ext| < 0x100 && RatesLen(rates) < MaxRatesSupported
    ensures var rl := RatesLen(rates); var n := Min(|Body(rates) + ext|, MaxRatesSupported);
      rl == |Body(rates)| && rl <= n
      && SuppRates(rates, Some(ext)) == Overlay(RatesStage(rates)[0 := n as byte], rl + 1, ext[..n - rl])
  {
    RatesStageProps(rates);
  }

  lemma OverlayProps(buf: seq<byte>, pos: nat, src: seq<byte>)
    requires pos + |src| <= |buf|
    ensures var r := Overlay(buf, pos, src);
      r[..pos] == buf[..pos] && r[pos..pos + |src|] == src
      && forall i :: pos + |src| <= i < |buf| ==> r[i] == buf[i]
  {
  }

  /** No Extended Supported Rates copy: the structure is the first stage. */
  lemma UnmergedRates(rates: Option<seq<byte>>, ext: Option<seq<byte>>)
    requires rates.Some? ==> |rates.value| < 0x100
    requires ext.Some? ==> |ext.value| < 0x100
    requires !(RatesLen(rates) < MaxRatesSupported && ext.Some?)
    ensures var all := Body(rates) + Body(ext);
      var n := Min(|all|, MaxRatesSupported);
      var r := SuppRates(rates, ext);
      r[0] as nat == n && r[1..1 + n] == all[..n]
      && forall i :: 1 + n <= i < |r| ==> r[i] == 0
  {
    var all := Body(rates) + Body(ext);
    var n := Min(|all|, MaxRatesSupported);
    var rl := RatesLen(rates);
    RatesStageProps(rates);
    assert SuppRates(rates, ext) == RatesStage(rates);
    if rl < MaxRatesSupported {
      assert rl == |Body(rates)| && Body(ext) == [] && all == Body(rates);
    } else {
      assert all[..n] == Body(rates)[..rl];
    }
  }

  // ---- cipher and AKM suites ----

  /** The three-slot suite arrays hold at most this many suites. */
  const SuiteSlots: nat := 3

  /**
   * The suite array after memset(0xFF) and, when an RSN or WPA element was
   * found, the copy loop over the first suites (each truncated to its low octet).
   */
  function Suites(found: bool, src: seq<nat>): (r: seq<byte>)
    ensures |r| == SuiteSlots
  {
    seq(SuiteSlots, i requires 0 <= i < SuiteSlots =>
      if found && i < |src| then (src[i] % 0x100) as byte else 0xFF)
  }

  /**
   * memset(suites, 0xFF, 3), then, for a network with RSN or WPA, the loop
   * `for (i = 0; i < n && i < 3; i++) suites[i] = src[i] & 0xFF`.
   */
  method FillSuites(suites: array<byte>, found: bool, src: seq<nat>)
    requires suites.Length == SuiteSlots
    modifies suites
    ensures suites[..] == Suites(found, src)
  {
    forall k | 0 <= k < SuiteSlots {
      suites[k] := 0xFF;
    }
    if found {
      var i := 0;
      while i < |src| && i < SuiteSlots
        invariant 0 <= i <= SuiteSlots && i <= |src|
        invariant forall k :: 0 <= k < i ==> suites[k] as int == src[k] % 0x100
        invariant forall k :: i <= k < SuiteSlots ==> suites[k] == 0xFF
      {
        suites[i] := (src[i] % 0x100) as byte;
        i := i + 1;
      }
    }
  }

  /** mode_802_11i: 2 when an RSN element is present, else 1 for a WPA element, else 0. */
  function Mode80211i(wpaIe: bool, rsnIe: bool): (m: byte)
    ensures m != 0 <==> wpaIe || rsnIe
    ensures rsnIe ==> m == 2
    ensures wpaIe && !rsnIe ==> m == 1
  {
    if rsnIe then 2 else if wpaIe then 1 else 0
  }
}
