// Bytes, MAC addresses and the little-endian integer codecs used by the
// driver's put_unaligned_le16/le32 and get_unaligned_le16/le32 calls.
module Bytes {

  /** A value that may be absent: a NULL pointer, a missing element. */
  datatype Option<T> = None | Some(value: T)

  /** One octet of a firmware buffer. */
  newtype byte = x: int | 0 <= x < 256

  /** ETH_ALEN: the length of a MAC address. */
  const EthAlen: nat := 6

  predicate IsMac(m: seq<byte>) { |m| == EthAlen }

  /** is_zero_ether_addr / memcmp against an all-zero address. */
  predicate IsZeroMac(m: seq<byte>) { forall i :: 0 <= i < |m| ==> m[i] == 0 }

  /** eth_zero_addr: the all-zero MAC address. */
  function ZeroMac(): (m: seq<byte>)
    ensures IsMac(m) && IsZeroMac(m)
  { [0, 0, 0, 0, 0, 0] }

  /** Truncation of an unbounded integer to a C u8. */
  function U8(x: int): (r: nat)
    ensures r < 0x100 && (0 <= x < 0x100 ==> r == x)
  { x % 0x100 }

  /** Truncation of an unbounded integer to a C u32. */
  function U32(x: int): (r: nat)
    ensures r < 0x1_0000_0000 && (0 <= x < 0x1_0000_0000 ==> r == x)
  { x % 0x1_0000_0000 }

  /** put_unaligned_le16: least significant octet first. */
  function LE16(v: nat): (s: seq<byte>)
    requires v < 0x1_0000
    ensures |s| == 2 && s[0] as int == v % 256 && s[1] as int == v / 256
  { [(v % 256) as byte, (v / 256) as byte] }

  /** get_unaligned_le16 at offset `off`; the inverse of LE16. */
  function GetLE16(s: seq<byte>, off: nat): (v: nat)
    requires off + 2 <= |s|
    ensures v < 0x1_0000
    ensures LE16(v) == s[off..off + 2]
  {
    var v := s[off] as nat + 256 * s[off + 1] as nat;
    assert LE16(v)[0] == s[off] && LE16(v)[1] == s[off + 1];
    v
  }

  /** put_unaligned_le32: least significant octet first. */
  function LE32(v: nat): (s: seq<byte>)
    requires v < 0x1_0000_0000
    ensures |s| == 4
  { LE16(v % 0x1_0000) + LE16(v / 0x1_0000) }

  /** get_unaligned_le32 at offset `off`; the inverse of LE32. */
  function GetLE32(s: seq<byte>, off: nat): (v: nat)
    requires off + 4 <= |s|
    ensures v < 0x1_0000_0000
    ensures LE32(v) == s[off..off + 4]
  {
    var lo, hi := GetLE16(s, off), GetLE16(s, off + 2);
    var v := lo + 0x1_0000 * hi;
    assert v % 0x1_0000 == lo && v / 0x1_0000 == hi;
    assert s[off..off + 4] == s[off..off + 2] + s[off + 2..off + 4];
    v
  }

  lemma GetLE16OfLE16(s: seq<byte>, off: nat, v: nat)
    requires v < 0x1_0000 && off + 2 <= |s| && s[off..off + 2] == LE16(v)
    ensures GetLE16(s, off) == v
  {
    assert s[off] == s[off..off + 2][0] && s[off + 1] == s[off..off + 2][1];
  }

  lemma GetLE32OfLE32(s: seq<byte>, off: nat, v: nat)
    requires v < 0x1_0000_0000 && off + 4 <= |s| && s[off..off + 4] == LE32(v)
    ensures GetLE32(s, off) == v
  {
    var lo, hi := v % 0x1_0000, v / 0x1_0000;
    assert s[off..off + 2] == s[off..off + 4][..2] == LE16(lo);
    assert s[off + 2..off + 4] == s[off..off + 4][2..] == LE16(hi);
    GetLE16OfLE16(s, off, lo);
    GetLE16OfLE16(s, off + 2, hi);
  }
}
