/**
 * Address codec of the nRF24L01-to-nRF52 radio driver.
 *
 * An nRF24L01 address is handed over least significant byte first; the nRF52
 * radio wants each 32-bit BASE/PREFIX register word with every byte
 * bit-mirrored and the byte order reversed. The driver does this with a
 * mask-and-shift network (`bytewise_bit_swap`) followed by the ARM byte-reverse
 * instruction `__REV` (`addr_conv`).
 */
module AddressCodec {

  /** Bit k (0 is the least significant) of a byte. */
  predicate Bit(b: bv8, k: nat)
    requires k < 8
  {
    (b >> k) & 1 == 1
  }

  /** Byte lane i (0 is the least significant) of a register word. */
  function Lane(w: bv32, i: bv8): bv8
    requires i < 4
  {
    ((w >> (8 * i)) & 0xFF) as bv8
  }

  /**
   * Reference definition of the bit-mirror of one byte, written bit by bit:
   * output bit 7 is input bit 0, output bit 6 is input bit 1, and so on.
   */
  function Mirror(b: bv8): (m: bv8)
    ensures forall k :: 0 <= k < 8 ==> (Bit(m, k) <==> Bit(b, 7 - k))
  {
    ((b & 0x01) << 7) | ((b & 0x02) << 5) | ((b & 0x04) << 3) | ((b & 0x08) << 1)
    | ((b & 0x10) >> 1) | ((b & 0x20) >> 3) | ((b & 0x40) >> 5) | ((b & 0x80) >> 7)
  }

  /** Mirroring a byte twice gives the byte back. */
  lemma MirrorInvolution(b: bv8)
    ensures Mirror(Mirror(b)) == b
  {
  }

  /**
   * `bytewise_bit_swap`: packs four bytes little-endian into a word and mirrors
   * every byte in place with a three-stage swap network (nibbles, bit pairs,
   * single bits). Only p[0..4] is read.
   */
  function BytewiseBitSwap(p: seq<bv8>): (r: bv32)
    requires |p| >= 4
    ensures Lane(r, 0) == Mirror(p[0]) && Lane(r, 1) == Mirror(p[1])
    ensures Lane(r, 2) == Mirror(p[2]) && Lane(r, 3) == Mirror(p[3])
  {
    var inp: bv32 := ((p[3] as bv32) << 24) | ((p[2] as bv32) << 16) | ((p[1] as bv32) << 8) | (p[0] as bv32);
    var s1 := ((inp & 0xF0F0F0F0) >> 4) | ((inp & 0x0F0F0F0F) << 4);
    var s2 := ((s1 & 0xCCCCCCCC) >> 2) | ((s1 & 0x33333333) << 2);
    ((s2 & 0xAAAAAAAA) >> 1) | ((s2 & 0x55555555) << 1)
  }

  /** `__REV`: the ARM instruction that reverses the four byte lanes of a word. */
  function Rev(w: bv32): (r: bv32)
    ensures Lane(r, 0) == Lane(w, 3) && Lane(r, 1) == Lane(w, 2)
    ensures Lane(r, 2) == Lane(w, 1) && Lane(r, 3) == Lane(w, 0)
  {
    (w >> 24) | ((w >> 8) & 0x0000FF00) | ((w << 8) & 0x00FF0000) | (w << 24)
  }

  /** A register word is the concatenation of its four byte lanes. */
  lemma LanesMakeWord(w: bv32)
    ensures w == ((Lane(w, 3) as bv32) << 24) | ((Lane(w, 2) as bv32) << 16)
                 | ((Lane(w, 1) as bv32) << 8) | (Lane(w, 0) as bv32)
  {
  }

  /**
   * `addr_conv`: converts four address bytes in nRF24L01 order into the
   * nRF52 register word: mirror(p[0]) lands in the top lane, mirror(p[3]) in
   * the bottom lane.
   */
  function AddrConv(p: seq<bv8>): (r: bv32)
    requires |p| >= 4
    ensures Lane(r, 3) == Mirror(p[0]) && Lane(r, 2) == Mirror(p[1])
    ensures Lane(r, 1) == Mirror(p[2]) && Lane(r, 0) == Mirror(p[3])
  {
    Rev(BytewiseBitSwap(p))
  }

  /** The register word as one expression: mirror(p[0])<<24 | mirror(p[1])<<16 | mirror(p[2])<<8 | mirror(p[3]). */
  lemma AddrConvWord(p: seq<bv8>)
    requires |p| >= 4
    ensures AddrConv(p) == ((Mirror(p[0]) as bv32) << 24) | ((Mirror(p[1]) as bv32) << 16)
                           | ((Mirror(p[2]) as bv32) << 8) | (Mirror(p[3]) as bv32)
  {
    LanesMakeWord(AddrConv(p));
  }

  /** Inverse of AddrConv: recovers the four nRF24L01-order bytes from a register word. */
  function AddrUnconv(w: bv32): seq<bv8>
  {
    [Mirror(Lane(w, 3)), Mirror(Lane(w, 2)), Mirror(Lane(w, 1)), Mirror(Lane(w, 0))]
  }

  /** Decoding an encoded address gives the four bytes back. */
  lemma DecodeEncode(p: seq<bv8>)
    requires |p| >= 4
    ensures AddrUnconv(AddrConv(p)) == p[..4]
  {
    MirrorInvolution(p[0]);
    MirrorInvolution(p[1]);
    MirrorInvolution(p[2]);
    MirrorInvolution(p[3]);
    assert AddrUnconv(AddrConv(p)) == [p[0], p[1], p[2], p[3]];
  }

  /** Encoding a decoded register word gives the word back. */
  lemma EncodeDecode(w: bv32)
    ensures AddrConv(AddrUnconv(w)) == w
  {
    MirrorInvolution(Lane(w, 0));
    MirrorInvolution(Lane(w, 1));
    MirrorInvolution(Lane(w, 2));
    MirrorInvolution(Lane(w, 3));
  }

  /** Two addresses that differ in one of their first four bytes give different register words. */
  lemma AddrConvInjective(p: seq<bv8>, q: seq<bv8>)
    requires |p| >= 4 && |q| >= 4
    requires AddrConv(p) == AddrConv(q)
    ensures p[..4] == q[..4]
  {
    DecodeEncode(p);
    DecodeEncode(q);
  }

  /**
   * The prefix byte the driver computes as `addr_conv(a) >> 24`: it is the
   * mirror of the first byte and nothing else, so bytes a[1..4] (left
   * uninitialised by some callers) do not influence it.
   */
  function Prefix(a: seq<bv8>): (r: bv32)
    requires |a| >= 4
    ensures r < 256
    ensures r == Mirror(a[0]) as bv32
  {
    AddrConv(a) >> 24
  }

  /** Two byte arrays that agree on their first byte yield the same prefix. */
  lemma PrefixIgnoresTail(a: seq<bv8>, b: seq<bv8>)
    requires |a| >= 4 && |b| >= 4
    requires a[0] == b[0]
    ensures Prefix(a) == Prefix(b)
  {
  }
}
