/**
 * Pipe addressing: how the driver places a pipe's address into the nRF52
 * BASE0/BASE1/PREFIX0/PREFIX1 registers. Logical address 0 (the writing
 * pipe) uses BASE0 and byte lane 0 of PREFIX0; logical addresses 1 to 7
 * (reading pipes 0 to 6) share BASE1 and use lanes 1 to 3 of PREFIX0 and
 * lanes 0 to 3 of PREFIX1.
 */
module Pipes {
  import opened AddressCodec

  /**
   * The read-modify-write the driver performs on a prefix register:
   * `w &= ~(0xFF << (8 * lane)); w |= b << (8 * lane);`
   */
  function SetLane(w: bv32, lane: bv8, b: bv32): bv32
    requires lane < 4
  {
    (w & !(0xFF << (8 * lane))) | (b << (8 * lane))
  }

  /** Reading back one lane after SetLane: the written lane holds the new byte, every other lane its old one. */
  lemma SetLaneAt(w: bv32, lane: bv8, b: bv32, k: bv8)
    requires lane < 4 && b < 256 && k < 4
    ensures Lane(SetLane(w, lane, b), k) == if k == lane then b as bv8 else Lane(w, k)
  {
  }

  /** SetLane writes exactly one byte lane. */
  lemma SetLaneOnlyThatLane(w: bv32, lane: bv8, b: bv32)
    requires lane < 4 && b < 256
    ensures Lane(SetLane(w, lane, b), lane) == b as bv8
    ensures forall k: bv8 :: k < 4 && k != lane ==> Lane(SetLane(w, lane, b), k) == Lane(w, k)
  {
    forall k: bv8 | k < 4
      ensures Lane(SetLane(w, lane, b), k) == if k == lane then b as bv8 else Lane(w, k)
    {
      SetLaneAt(w, lane, b, k);
    }
  }

  /** Prefix byte of logical address `pipe`: AP0-AP3 live in PREFIX0, AP4-AP7 in PREFIX1. */
  function PipePrefix(prefix0: bv32, prefix1: bv32, pipe: bv8): bv8
    requires pipe < 8
  {
    if pipe < 4 then Lane(prefix0, pipe) else Lane(prefix1, pipe - 4)
  }

  /**
   * Writing the prefix lane of one logical address (lane `pipe` of PREFIX0
   * for addresses 0 to 3, lane `pipe - 4` of PREFIX1 for 4 to 7) changes
   * the prefix of that address only.
   */
  lemma PipePrefixIsolation(prefix0: bv32, prefix1: bv32, pipe: bv8, b: bv32)
    requires pipe < 8 && b < 256
    ensures var p0 := if pipe < 4 then SetLane(prefix0, pipe, b) else prefix0;
            var p1 := if pipe < 4 then prefix1 else SetLane(prefix1, pipe - 4, b);
            && PipePrefix(p0, p1, pipe) == b as bv8
            && forall k: bv8 :: k < 8 && k != pipe ==> PipePrefix(p0, p1, k) == PipePrefix(prefix0, prefix1, k)
  {
    var p0 := if pipe < 4 then SetLane(prefix0, pipe, b) else prefix0;
    var p1 := if pipe < 4 then prefix1 else SetLane(prefix1, pipe - 4, b);
    forall k: bv8 | k < 8
      ensures PipePrefix(p0, p1, k) == if k == pipe then b as bv8 else PipePrefix(prefix0, prefix1, k)
    {
      if pipe < 4 && k < 4 {
        SetLaneAt(prefix0, pipe, b, k);
      } else if pipe >= 4 && k >= 4 {
        SetLaneAt(prefix1, pipe - 4, b, k - 4);
      }
    }
  }

  /** The writing pipe's form of the update, `w &= 0xFFFFFF00; w |= b;`, writes lane 0 only. */
  lemma LowLaneWrite(w: bv32, b: bv32)
    requires b < 256
    ensures Lane((w & 0xFFFFFF00) | b, 0) == b as bv8
    ensures Lane((w & 0xFFFFFF00) | b, 1) == Lane(w, 1)
    ensures Lane((w & 0xFFFFFF00) | b, 2) == Lane(w, 2)
    ensures Lane((w & 0xFFFFFF00) | b, 3) == Lane(w, 3)
  {
  }

  /** Byte i of a 64-bit address, as `(uint8_t)(address >> 8 * i)` computes it. */
  function AddressByte(address: bv64, i: bv8): bv8
    requires i < 8
  {
    ((address >> (8 * i)) & 0xFF) as bv8
  }

  /** `baseArray` of the uint64_t overloads: bytes 1 to 4 of the address. */
  function BaseBytes(address: bv64): seq<bv8>
  {
    [AddressByte(address, 1), AddressByte(address, 2), AddressByte(address, 3), AddressByte(address, 4)]
  }

  /**
   * `prefixArray` of the uint64_t overloads: byte 0 of the address; the
   * three following bytes are left uninitialised by the source and are zero
   * here (Prefix does not read them, see AddressCodec.PrefixIgnoresTail).
   */
  function PrefixBytes(first: bv8): seq<bv8>
  {
    [first, 0, 0, 0]
  }

  /**
   * The uint64_t and the byte-array overloads compute the same BASE word and
   * the same prefix byte when the byte array holds the address's bytes
   * least significant first.
   */
  lemma OverloadsAgree(address: bv64, bytes: seq<bv8>)
    requires |bytes| >= 5
    requires bytes[0] == AddressByte(address, 0) && bytes[1] == AddressByte(address, 1)
    requires bytes[2] == AddressByte(address, 2) && bytes[3] == AddressByte(address, 3)
    requires bytes[4] == AddressByte(address, 4)
    ensures AddrConv(BaseBytes(address)) == AddrConv(bytes[1..5])
    ensures Prefix(PrefixBytes(AddressByte(address, 0))) == Prefix(PrefixBytes(bytes[0]))
    ensures Prefix(PrefixBytes(AddressByte(address, 0))) == Prefix(bytes)
  {
    assert BaseBytes(address) == bytes[1..5];
  }
}
