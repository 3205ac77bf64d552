/**
 * The in-memory packet layout shared by the driver and the radio's EasyDMA:
 * `radioData` is 34 bytes, a length byte, a packet-id byte (the S1 field)
 * and 32 payload bytes. On receive the driver repacks it into the 33-byte
 * `rxBuffer`: the length byte, then the 32 payload bytes.
 */
module Framing {

  /** Size of `radioData`: `32 + 2`. */
  const FrameSize := 34
  /** PACKET_PAYLOAD_MAXSIZE: the payload bytes a frame carries. */
  const PayloadMax := 32
  /** Size of `rxBuffer`: the length byte and the payload. */
  const RxSize := 33

  /**
   * The packet id `write` stores: `((old + 1) % 4) << 1`. The source adds in
   * int; adding in a byte wraps 255 + 1 to 0, which leaves the remainder
   * modulo 4 unchanged (NextPidIntArithmetic). The result is always one of
   * 0, 2, 4, 6.
   */
  function NextPid(pid: bv8): (next: bv8)
    ensures next == 0 || next == 2 || next == 4 || next == 6
  {
    ((pid + 1) % 4) << 1
  }

  /** NextPid agrees with the source's int arithmetic for every byte. */
  lemma NextPidIntArithmetic(pid: bv8)
    ensures NextPid(pid) as int == ((pid as int + 1) % 4) * 2
  {
  }

  /** The packet id after n consecutive writes starting from `pid`. */
  function PidAfter(pid: bv8, n: nat): bv8
  {
    if n == 0 then pid else NextPid(PidAfter(pid, n - 1))
  }

  /**
   * The packet id does not cycle: 6 is a fixed point and every id reaches it
   * in at most three writes (0 -> 2 -> 6, 4 -> 2 -> 6, odd ids in one more step).
   */
  lemma {:induction false} PidSettles(pid: bv8, n: nat)
    requires n >= 3
    ensures PidAfter(pid, n) == 6
  {
    if n == 3 {
      var p1 := PidAfter(pid, 1);
      var p2 := PidAfter(pid, 2);
      assert p2 == NextPid(p1);
      assert p1 == 0 || p1 == 2 || p1 == 4 || p1 == 6;
    } else {
      PidSettles(pid, n - 1);
      assert PidAfter(pid, n) == NextPid(6);
    }
  }

  /** From an even id (what `write` itself produces) two writes suffice to reach 6. */
  lemma {:induction false} EvenPidSettles(pid: bv8, n: nat)
    requires pid % 2 == 0 && n >= 2
    ensures PidAfter(pid, n) == 6
  {
    if n == 2 {
      assert PidAfter(pid, 1) == NextPid(pid);
    } else {
      EvenPidSettles(pid, n - 1);
      assert PidAfter(pid, n) == NextPid(6);
    }
  }

  /**
   * The frame `write(buf, len)` leaves in `radioData`, given the frame that
   * was there before: length byte, next packet id, `len` payload bytes from
   * `buf`, zero padding up to 34 bytes.
   */
  function WriteFrame(frame: seq<bv8>, buf: seq<bv8>, len: bv8): (r: seq<bv8>)
    requires |frame| == FrameSize && len as int <= PayloadMax && len as int <= |buf|
    ensures |r| == FrameSize
    ensures r[0] == len && r[1] == NextPid(frame[1])
    ensures r[2..2 + len] == buf[..len]
    ensures forall i :: 2 + len as int <= i < FrameSize ==> r[i] == 0
  {
    [len, NextPid(frame[1])] + buf[..len] + seq(PayloadMax - len as int, _ => 0)
  }

  /** `rxBuffer` as `available` fills it from a received frame: the length byte, then the 32 payload bytes. */
  function RxView(frame: seq<bv8>): seq<bv8>
    requires |frame| == FrameSize
  {
    [frame[0]] + frame[2..]
  }

  /** The payload size a receiver reports: `min(32, length byte)`. */
  function PayloadSize(lengthByte: bv8): (size: bv8)
    ensures size as int <= PayloadMax
    ensures size == lengthByte || (lengthByte as int > PayloadMax && size as int == PayloadMax)
  {
    if lengthByte < 32 then lengthByte else 32
  }

  /**
   * The frame `write` built, when it is what `available` finds in
   * `radioData`, reads back intact from `rxBuffer`: the reported payload
   * size is `len`, rxBuffer[1..1+len] is the payload and the rest of
   * rxBuffer is zero. (Over the air only `len` payload bytes travel, so a
   * receiver's tail is whatever its own buffer held; see the README.)
   */
  lemma WriteReceiveRoundTrip(frame: seq<bv8>, buf: seq<bv8>, len: bv8)
    requires |frame| == FrameSize && len as int <= PayloadMax && len as int <= |buf|
    ensures |RxView(WriteFrame(frame, buf, len))| == RxSize
    ensures PayloadSize(RxView(WriteFrame(frame, buf, len))[0]) == len
    ensures RxView(WriteFrame(frame, buf, len))[1..1 + len] == buf[..len]
    ensures forall i :: 1 + len as int <= i < RxSize ==> RxView(WriteFrame(frame, buf, len))[i] == 0
  {
    var f := WriteFrame(frame, buf, len);
    var v := RxView(f);
    assert forall i :: 1 <= i < RxSize ==> v[i] == f[i + 1];
    assert v[1..1 + len] == f[2..2 + len];
  }

  /** The duplicate test of `available`: same packet id and same first payload byte as the last delivered frame. */
  predicate IsDuplicate(pid: bv8, firstByte: bv8, lastPid: bv8, lastFirstByte: bv8)
  {
    pid == lastPid && firstByte == lastFirstByte
  }

  /**
   * Consequence of the settling packet id: once a sender's frames carry id
   * 6, two consecutive frames whose payloads start with the same byte carry
   * the same (id, first byte) pair, so a receiver that delivered the first
   * drops the second as a duplicate, however the rest of the payload differs.
   */
  lemma SettledIdRepeatsPair(frame: seq<bv8>, buf1: seq<bv8>, len1: bv8, buf2: seq<bv8>, len2: bv8)
    requires |frame| == FrameSize && NextPid(frame[1]) == 6
    requires 0 < len1 as int <= PayloadMax && len1 as int <= |buf1|
    requires 0 < len2 as int <= PayloadMax && len2 as int <= |buf2|
    requires buf1[0] == buf2[0]
    ensures var f1 := WriteFrame(frame, buf1, len1);
            var f2 := WriteFrame(f1, buf2, len2);
            IsDuplicate(f2[1], f2[2], f1[1], f1[2])
  {
    var f1 := WriteFrame(frame, buf1, len1);
    var f2 := WriteFrame(f1, buf2, len2);
    assert f1[2] == f1[2..2 + len1][0] == buf1[0];
    assert f2[2] == f2[2..2 + len2][0] == buf2[0];
  }
}
