/**
 * The `nrf_to_nrf` driver object: an nRF24L01-style API on top of the nRF52
 * RADIO peripheral. The object owns the 34-byte packet buffer the radio
 * transmits from and receives into (`radioData`), the 33-byte receive
 * buffer handed to the application (`rxBuffer`), the per-pipe auto-ack
 * table and the duplicate trackers (`lastPacketCounter`, `lastData`, which
 * the source keeps as file-scope globals).
 */
module Driver {
  import opened AddressCodec
  import opened Pipes
  import opened Framing
  import opened Peripheral

  /** ED_RSSISCALE of `sample_ed`. */
  const EdRssiScale := 4

  /**
   * The conversion `sample_ed` applies to an EDSAMPLE reading:
   * `(uint8_t)(val > 63 ? 255 : val * ED_RSSISCALE)`, the IEEE 802.15.4
   * energy-detect scale. The cast keeps the value modulo 256.
   */
  function EdLevel(val: int): (level: int)
    ensures 0 <= level < 256
    ensures val > 63 ==> level == 255
    ensures 0 <= val <= 63 ==> level == val * EdRssiScale
    ensures val < 0 ==> level == (val * EdRssiScale) % 256
  {
    if val > 63 then 255 else (val * EdRssiScale) % 256
  }

  /** A stronger reading never gives a lower energy level. */
  lemma EdLevelMonotone(a: int, b: int)
    requires 0 <= a <= b
    ensures EdLevel(a) <= EdLevel(b)
  {
  }

  /**
   * What opening reading address `pipe` does to the registers: BASE1 (shared
   * by all reading addresses) becomes `base`, the prefix lane of `pipe`
   * becomes `prefix`, every other prefix lane keeps its value, and `pipe` is
   * enabled in RXADDRESSES. No other register changes.
   */
  ghost predicate ReadingAddressSet(before: Registers, after: Registers, pipe: bv8, base: bv32, prefix: bv8)
    requires pipe < 8
  {
    && after.base1 == base
    && PipePrefix(after.prefix0, after.prefix1, pipe) == prefix
    && (forall k: bv8 :: k < 8 && k != pipe ==>
          PipePrefix(after.prefix0, after.prefix1, k) == PipePrefix(before.prefix0, before.prefix1, k))
    && after.rxAddresses == before.rxAddresses | (1 << pipe)
    && after.base0 == before.base0 && after.txAddress == before.txAddress
    && after.frequency == before.frequency
    && after.eventsCrcOk == before.eventsCrcOk && after.rxMatch == before.rxMatch
  }

  /**
   * What opening the writing pipe does to the registers: BASE0 becomes
   * `base`, lane 0 of PREFIX0 (logical address 0) becomes `prefix`, the
   * upper three lanes of PREFIX0 keep their values and TXADDRESS selects
   * logical address 0. No other register changes.
   */
  ghost predicate WritingAddressSet(before: Registers, after: Registers, base: bv32, prefix: bv8)
  {
    && after.base0 == base
    && Lane(after.prefix0, 0) == prefix
    && Lane(after.prefix0, 1) == Lane(before.prefix0, 1)
    && Lane(after.prefix0, 2) == Lane(before.prefix0, 2)
    && Lane(after.prefix0, 3) == Lane(before.prefix0, 3)
    && after.txAddress == 0
    && after.base1 == before.base1 && after.prefix1 == before.prefix1
    && after.rxAddresses == before.rxAddresses && after.frequency == before.frequency
    && after.eventsCrcOk == before.eventsCrcOk && after.rxMatch == before.rxMatch
  }

  /** The register writes of `openWritingPipe` establish WritingAddressSet. */
  lemma WritingUpdateSetsAddress(before: Registers, base: bv32, prefix: bv32)
    requires prefix < 256
    ensures WritingAddressSet(before, before.(base0 := base, prefix0 := (before.prefix0 & 0xFFFFFF00) | prefix, txAddress := 0),
                              base, prefix as bv8)
  {
    LowLaneWrite(before.prefix0, prefix);
  }

  /** ReadingAddressSet fixes the whole register state: two states it allows are equal. */
  lemma ReadingAddressSetDetermined(before: Registers, a1: Registers, a2: Registers, pipe: bv8, base: bv32, prefix: bv8)
    requires pipe < 8
    requires ReadingAddressSet(before, a1, pipe, base, prefix)
    requires ReadingAddressSet(before, a2, pipe, base, prefix)
    ensures a1 == a2
  {
    forall k: bv8 | k < 8
      ensures PipePrefix(a1.prefix0, a1.prefix1, k) == PipePrefix(a2.prefix0, a2.prefix1, k)
    {
    }
    assert Lane(a1.prefix0, 0) == PipePrefix(a1.prefix0, a1.prefix1, 0);
    assert Lane(a1.prefix0, 1) == PipePrefix(a1.prefix0, a1.prefix1, 1);
    assert Lane(a1.prefix0, 2) == PipePrefix(a1.prefix0, a1.prefix1, 2);
    assert Lane(a1.prefix0, 3) == PipePrefix(a1.prefix0, a1.prefix1, 3);
    assert Lane(a1.prefix1, 0) == PipePrefix(a1.prefix0, a1.prefix1, 4);
    assert Lane(a1.prefix1, 1) == PipePrefix(a1.prefix0, a1.prefix1, 5);
    assert Lane(a1.prefix1, 2) == PipePrefix(a1.prefix0, a1.prefix1, 6);
    assert Lane(a1.prefix1, 3) == PipePrefix(a1.prefix0, a1.prefix1, 7);
    LanesMakeWord(a1.prefix0);
    LanesMakeWord(a2.prefix0);
    LanesMakeWord(a1.prefix1);
    LanesMakeWord(a2.prefix1);
  }

  /** WritingAddressSet fixes the whole register state: two states it allows are equal. */
  lemma WritingAddressSetDetermined(before: Registers, a1: Registers, a2: Registers, base: bv32, prefix: bv8)
    requires WritingAddressSet(before, a1, base, prefix)
    requires WritingAddressSet(before, a2, base, prefix)
    ensures a1 == a2
  {
    LanesMakeWord(a1.prefix0);
    LanesMakeWord(a2.prefix0);
  }

  /**
   * The uint64_t and byte-array overloads of `openReadingPipe` leave the
   * same registers behind when the byte array holds the address's bytes,
   * least significant first.
   */
  lemma ReadingOverloadsSameState(before: Registers, after64: Registers, afterBytes: Registers,
                                  pipe: bv8, address: bv64, bytes: seq<bv8>)
    requires pipe < 8 && |bytes| >= 5
    requires bytes[0] == AddressByte(address, 0) && bytes[1] == AddressByte(address, 1)
    requires bytes[2] == AddressByte(address, 2) && bytes[3] == AddressByte(address, 3)
    requires bytes[4] == AddressByte(address, 4)
    requires ReadingAddressSet(before, after64, pipe, AddrConv(BaseBytes(address)), Mirror(AddressByte(address, 0)))
    requires ReadingAddressSet(before, afterBytes, pipe, AddrConv(bytes[1..5]), Mirror(bytes[0]))
    ensures after64 == afterBytes
  {
    OverloadsAgree(address, bytes);
    ReadingAddressSetDetermined(before, after64, afterBytes, pipe, AddrConv(bytes[1..5]), Mirror(bytes[0]));
  }

  /** Likewise for the two overloads of `openWritingPipe`. */
  lemma WritingOverloadsSameState(before: Registers, after64: Registers, afterBytes: Registers,
                                  address: bv64, bytes: seq<bv8>)
    requires |bytes| >= 5
    requires bytes[0] == AddressByte(address, 0) && bytes[1] == AddressByte(address, 1)
    requires bytes[2] == AddressByte(address, 2) && bytes[3] == AddressByte(address, 3)
    requires bytes[4] == AddressByte(address, 4)
    requires WritingAddressSet(before, after64, AddrConv(BaseBytes(address)), Mirror(AddressByte(address, 0)))
    requires WritingAddressSet(before, afterBytes, AddrConv(bytes[1..5]), Mirror(bytes[0]))
    ensures after64 == afterBytes
  {
    OverloadsAgree(address, bytes);
    WritingAddressSetDetermined(before, after64, afterBytes, AddrConv(bytes[1..5]), Mirror(bytes[0]));
  }

  /** Register values `begin` programs. */
  const DefaultBase0: bv32 := 0xE7E7E7E7
  const DefaultBase1: bv32 := 0x43434343
  const DefaultPrefix0: bv32 := 0x23C343E7
  const DefaultPrefix1: bv32 := 0x13E363A3

  /**
   * `begin`'s register constants in nRF52 form: logical address 0 is
   * E7:E7:E7:E7:E7 and logical address k (1 to 7) is (C1 + k):C2:C2:C2:C2,
   * first byte first. Addresses 0 to 5 are the nRF24L01 reset addresses of
   * its pipes 0 to 5; 6 and 7 (prefixes C7 and C8) continue the pattern.
   */
  lemma BeginDefaultsAreNrf24Addresses()
    ensures DefaultBase0 == AddrConv([0xE7, 0xE7, 0xE7, 0xE7])
    ensures PipePrefix(DefaultPrefix0, DefaultPrefix1, 0) == Mirror(0xE7)
    ensures DefaultBase1 == AddrConv([0xC2, 0xC2, 0xC2, 0xC2])
    ensures forall k: bv8 :: 1 <= k < 8 ==> PipePrefix(DefaultPrefix0, DefaultPrefix1, k) == Mirror(0xC1 + k)
  {
    assert AddrConv([0xE7, 0xE7, 0xE7, 0xE7]) == DefaultBase0 by {
      AddrConvWord([0xE7, 0xE7, 0xE7, 0xE7]);
    }
    assert AddrConv([0xC2, 0xC2, 0xC2, 0xC2]) == DefaultBase1 by {
      AddrConvWord([0xC2, 0xC2, 0xC2, 0xC2]);
    }
  }

  class NrfToNrf {
    /** The RADIO peripheral (NRF_RADIO). */
    const radio: Radio
    /** `uint8_t radioData[32 + 2]`: the buffer PACKETPTR points at. */
    const radioData: array<bv8>
    /** The application-facing receive buffer: length byte, then payload. */
    const rxBuffer: array<bv8>
    /** Auto-ack enable flag of each of the 8 logical addresses. */
    const acksPerPipe: array<bool>
    var rxFifoAvailable: bool
    var failureDetected: bool
    /** Packet id of the last frame `available` delivered. */
    var lastPacketCounter: bv8
    /** First payload byte of the last frame `available` delivered. */
    var lastData: bv8

    ghost predicate Valid()
      reads this
    {
      radioData.Length == FrameSize && rxBuffer.Length == RxSize && acksPerPipe.Length == 8
      && radioData != rxBuffer
    }

    /** `nrf_to_nrf()`: auto-ack is enabled on all eight pipes. */
    constructor (radio: Radio)
      ensures Valid() && this.radio == radio
      ensures fresh(radioData) && fresh(rxBuffer) && fresh(acksPerPipe)
      ensures forall i :: 0 <= i < 8 ==> acksPerPipe[i]
      ensures forall i :: 0 <= i < FrameSize ==> radioData[i] == 0
      ensures forall i :: 0 <= i < RxSize ==> rxBuffer[i] == 0
      ensures !rxFifoAvailable && !failureDetected
      ensures lastPacketCounter == 0 && lastData == 0
    {
      this.radio := radio;
      radioData := new bv8[FrameSize](_ => 0);
      rxBuffer := new bv8[RxSize](_ => 0);
      acksPerPipe := new bool[8];
      rxFifoAvailable := false;
      failureDetected := false;
      lastPacketCounter, lastData := 0, 0;
      new;
      for i := 0 to 8
        modifies acksPerPipe
        invariant forall k :: 0 <= k < i ==> acksPerPipe[k]
      {
        acksPerPipe[i] := true;
      }
    }

    /**
     * The address part of `begin`: the nRF24L01 default addresses, pipe 0
     * enabled for receive, TXADDRESS 0, channel 0x4C; then the radio is
     * enabled for transmit and started on the current packet buffer.
     */
    method Begin() returns (ok: bool)
      requires Valid()
      modifies radio
      ensures ok
      ensures radio.Regs() == old(radio.Regs()).(base0 := DefaultBase0, base1 := DefaultBase1,
                prefix0 := DefaultPrefix0, prefix1 := DefaultPrefix1,
                rxAddresses := 1, txAddress := 0, frequency := 0x4C)
      ensures radio.direction == Tx && radio.tasks == old(radio.tasks) + [TaskTxEn, TaskStart]
      ensures radio.sent == old(radio.sent) + [Transmission(0, radioData[..])]
    {
      radio.base0 := DefaultBase0;
      radio.base1 := DefaultBase1;
      radio.prefix0 := DefaultPrefix0;
      radio.prefix1 := DefaultPrefix1;
      radio.rxAddresses := 1;
      radio.txAddress := 0;
      radio.frequency := 0x4C;
      radio.EnableTx();
      radio.Start(radioData[..]);
      ok := true;
    }

    /** `acksEnabled(pipe)`: whether auto-ack is on for logical address `pipe`. */
    function AcksEnabled(pipe: bv8): (enabled: bool)
      reads this, acksPerPipe
      requires Valid() && pipe < 8
      ensures enabled <==> acksPerPipe[pipe]
    {
      acksPerPipe[pipe]
    }

    /** `setChannel`: FREQUENCY takes the channel number; nothing else changes. */
    method SetChannel(channel: bv8)
      modifies radio
      ensures radio.Regs() == old(radio.Regs()).(frequency := channel as bv32)
      ensures radio.direction == old(radio.direction)
      ensures radio.tasks == old(radio.tasks) && radio.sent == old(radio.sent)
    {
      radio.frequency := channel as bv32;
    }

    /**
     * `startListening`: disable the radio, clear EVENTS_CRCOK, enable it for
     * receive and start reception. Addresses are untouched.
     */
    method StartListening()
      modifies radio
      ensures radio.Regs() == old(radio.Regs()).(eventsCrcOk := false)
      ensures radio.direction == Rx
      ensures radio.tasks == old(radio.tasks) + [TaskDisable, TaskRxEn, TaskStart]
      ensures radio.sent == old(radio.sent)
    {
      radio.Disable();
      radio.eventsCrcOk := false;
      radio.EnableRx();
      radio.Start(radioData[..]);
    }

    /**
     * `stopListening`: disable the radio, select logical address 0 for
     * transmit and enable the radio for transmit (nothing is sent yet).
     */
    method StopListening()
      modifies radio
      ensures radio.Regs() == old(radio.Regs()).(txAddress := 0)
      ensures radio.direction == Tx
      ensures radio.tasks == old(radio.tasks) + [TaskDisable, TaskTxEn]
      ensures radio.sent == old(radio.sent)
    {
      radio.Disable();
      radio.txAddress := 0;
      radio.EnableTx();
    }

    /**
     * `write(buf, len, multicast)`: frame the payload into `radioData` and
     * start the radio on it. `multicast` has no effect, and the result is
     * always true: no acknowledgement is awaited.
     */
    method Write(buf: seq<bv8>, len: bv8, multicast: bool := false) returns (ok: bool)
      requires Valid()
      requires len as int <= PayloadMax && len as int <= |buf|
      modifies radioData, radio
      ensures ok
      ensures radioData[..] == WriteFrame(old(radioData[..]), buf, len)
      ensures radio.Regs() == old(radio.Regs()) && radio.direction == old(radio.direction)
      ensures radio.tasks == old(radio.tasks) + [TaskStart]
      ensures radio.sent == old(radio.sent) + radio.Emitted(radioData[..])
    {
      radioData[0] := len;
      radioData[1] := NextPid(radioData[1]);
      forall i | 2 <= i < FrameSize {
        radioData[i] := 0;
      }
      forall i | 0 <= i < len as int {
        radioData[2 + i] := buf[i];
      }
      ghost var expected := WriteFrame(old(radioData[..]), buf, len);
      assert forall i :: 2 <= i < 2 + len as int ==> expected[i] == expected[2..2 + len][i - 2];
      assert radioData[..] == expected;
      radio.Start(radioData[..]);
      ok := true;
    }

    /** The copy step of `available`: the length byte and the 32 payload bytes of `radioData` into `rxBuffer`. */
    method CopyToRxBuffer()
      requires Valid()
      modifies rxBuffer
      ensures rxBuffer[..] == RxView(radioData[..])
    {
      forall i | 1 <= i < RxSize {
        rxBuffer[i] := radioData[i + 1];
      }
      rxBuffer[0] := radioData[0];
    }

    /**
     * The acknowledgement branch of `available`: switch to transmit, send an
     * empty frame on the logical address the packet arrived on, put back the
     * TXADDRESS value saved after `stopListening` (which has already zeroed
     * it, so TXADDRESS ends at 0) and resume listening.
     */
    method SendAck()
      requires Valid()
      modifies radioData, radio
      ensures radioData[..] == WriteFrame(old(radioData[..]), [], 0)
      ensures radio.sent == old(radio.sent) + [Transmission(old(radio.rxMatch), radioData[..])]
      ensures radio.tasks == old(radio.tasks) + [TaskDisable, TaskTxEn, TaskStart, TaskDisable, TaskRxEn, TaskStart]
      ensures radio.direction == Rx
      ensures radio.Regs() == old(radio.Regs()).(eventsCrcOk := false, txAddress := 0)
    {
      StopListening();
      var txAddress := radio.txAddress;
      radio.txAddress := radio.rxMatch;
      var acked := Write([], 0);
      radio.txAddress := txAddress;
      StartListening();
    }

    /**
     * The duplicate filter of `available`: a frame whose packet id and first
     * payload byte equal the last delivered frame's is reported as not new;
     * either way the pair becomes the one remembered.
     */
    method TrackPacket(packetCtr: bv8, packetData: bv8) returns (isNew: bool)
      modifies this
      ensures isNew <==> !IsDuplicate(packetCtr, packetData, old(lastPacketCounter), old(lastData))
      ensures lastPacketCounter == packetCtr && lastData == packetData
      ensures rxFifoAvailable == old(rxFifoAvailable) && failureDetected == old(failureDetected)
    {
      if packetCtr == lastPacketCounter && packetData == lastData {
        return false;
      }
      lastPacketCounter := packetCtr;
      lastData := packetData;
      return true;
    }

    /**
     * `available`: when a packet with a good CRC has arrived, copy it to
     * `rxBuffer`, acknowledge it if its pipe has auto-ack on, and report
     * whether it is new (its packet id and first payload byte differ from
     * the last delivered frame's).
     */
    method Available() returns (isNew: bool)
      requires Valid() && radio.rxMatch < 8
      modifies this, radioData, rxBuffer, radio
      ensures failureDetected == old(failureDetected)
      ensures !old(radio.eventsCrcOk) ==>
                !isNew && unchanged(this, radioData, rxBuffer, radio)
      ensures old(radio.eventsCrcOk) ==>
                && rxBuffer[..] == RxView(old(radioData[..]))
                && rxFifoAvailable
                && !radio.eventsCrcOk
                && (isNew <==> !IsDuplicate(old(radioData[1]), old(radioData[2]), old(lastPacketCounter), old(lastData)))
                && lastPacketCounter == old(radioData[1]) && lastData == old(radioData[2])
      ensures old(radio.eventsCrcOk) && old(acksPerPipe[radio.rxMatch as int]) ==>
                && radioData[..] == WriteFrame(old(radioData[..]), [], 0)
                && radio.sent == old(radio.sent) + [Transmission(old(radio.rxMatch), radioData[..])]
                && radio.tasks == old(radio.tasks) + [TaskDisable, TaskTxEn, TaskStart, TaskDisable, TaskRxEn, TaskStart]
                && radio.direction == Rx
                && radio.Regs() == old(radio.Regs()).(eventsCrcOk := false, txAddress := 0)
      ensures old(radio.eventsCrcOk) && !old(acksPerPipe[radio.rxMatch as int]) ==>
                && radioData[..] == old(radioData[..])
                && radio.sent == old(radio.sent) && radio.tasks == old(radio.tasks)
                && radio.direction == old(radio.direction)
                && radio.Regs() == old(radio.Regs()).(eventsCrcOk := false)
    {
      if radio.eventsCrcOk {
        radio.eventsCrcOk := false;
        CopyToRxBuffer();
        rxFifoAvailable := true;
        var packetCtr := radioData[1];
        var packetData := radioData[2];
        if AcksEnabled(radio.rxMatch as bv8) {
          SendAck();
        }
        isNew := TrackPacket(packetCtr, packetData);
      } else {
        isNew := false;
      }
    }

    /** `read(buf, len)`: copy `len` payload bytes out of `rxBuffer`, then restart the radio. */
    method Read(buf: array<bv8>, len: bv8)
      requires Valid()
      requires len as int <= PayloadMax && len as int <= buf.Length && buf != rxBuffer
      modifies buf, radio
      ensures buf[..len] == rxBuffer[1..1 + len]
      ensures buf[len..] == old(buf[len..])
      ensures unchanged(rxBuffer)
      ensures radio.Regs() == old(radio.Regs()) && radio.direction == old(radio.direction)
      ensures radio.tasks == old(radio.tasks) + [TaskStart]
      ensures radio.sent == old(radio.sent) + radio.Emitted(radioData[..])
    {
      forall i | 0 <= i < len as int {
        buf[i] := rxBuffer[1 + i];
      }
      radio.Start(radioData[..]);
    }

    /** `getDynamicPayloadSize`: the received length byte, capped at 32. */
    function GetDynamicPayloadSize(): (size: bv8)
      reads this, rxBuffer
      requires Valid()
      ensures size as int <= PayloadMax
      ensures rxBuffer[0] as int <= PayloadMax ==> size == rxBuffer[0]
      ensures rxBuffer[0] as int > PayloadMax ==> size as int == PayloadMax
    {
      PayloadSize(rxBuffer[0])
    }

    /** Shared by both `openReadingPipe` overloads: commit `base` and `prefix` for logical address `pipe`. */
    method CommitReadingAddress(pipe: bv8, base: bv32, prefix: bv32)
      requires pipe < 8 && prefix < 256
      modifies radio
      ensures ReadingAddressSet(old(radio.Regs()), radio.Regs(), pipe, base, prefix as bv8)
      ensures radio.direction == old(radio.direction)
      ensures radio.tasks == old(radio.tasks) && radio.sent == old(radio.sent)
    {
      PipePrefixIsolation(radio.prefix0, radio.prefix1, pipe, prefix);
      if pipe < 4 {
        // logical addresses 0 to 3 are in PREFIX0
        radio.base1 := base;
        radio.prefix0 := SetLane(radio.prefix0, pipe, prefix);
      } else {
        radio.base1 := base;
        radio.prefix1 := SetLane(radio.prefix1, pipe - 4, prefix);
      }
      radio.rxAddresses := radio.rxAddresses | (1 << pipe);
    }

    /**
     * `openReadingPipe(child, uint64_t address)`: reading pipe `child` is
     * logical address child + 1 (the byte wraps, so child 255 is logical
     * address 0). BASE1 gets bytes 1 to 4 of the address, the pipe's prefix
     * lane gets byte 0.
     */
    method OpenReadingPipe(child: bv8, address: bv64)
      requires child < 7 || child == 0xFF
      modifies radio
      ensures ReadingAddressSet(old(radio.Regs()), radio.Regs(), child + 1,
                                AddrConv(BaseBytes(address)), Mirror(AddressByte(address, 0)))
      ensures radio.direction == old(radio.direction)
      ensures radio.tasks == old(radio.tasks) && radio.sent == old(radio.sent)
    {
      var pipe := child + 1;
      var base := AddrConv(BaseBytes(address));
      var prefix := Prefix(PrefixBytes(AddressByte(address, 0)));
      CommitReadingAddress(pipe, base, prefix);
    }

    /** `openReadingPipe(child, const uint8_t* address)`: as above with the address given as 5 bytes, first byte first. */
    method OpenReadingPipeBytes(child: bv8, address: seq<bv8>)
      requires child < 7 || child == 0xFF
      requires |address| >= 5
      modifies radio
      ensures ReadingAddressSet(old(radio.Regs()), radio.Regs(), child + 1,
                                AddrConv(address[1..5]), Mirror(address[0]))
      ensures radio.direction == old(radio.direction)
      ensures radio.tasks == old(radio.tasks) && radio.sent == old(radio.sent)
    {
      var pipe := child + 1;
      var base := AddrConv(address[1..]);
      var prefix := Prefix(PrefixBytes(address[0]));
      CommitReadingAddress(pipe, base, prefix);
    }

    /** Shared by both `openWritingPipe` overloads: commit `base` and `prefix` for logical address 0 and transmit on it. */
    method CommitWritingAddress(base: bv32, prefix: bv32)
      requires prefix < 256
      modifies radio
      ensures WritingAddressSet(old(radio.Regs()), radio.Regs(), base, prefix as bv8)
      ensures radio.direction == old(radio.direction)
      ensures radio.tasks == old(radio.tasks) && radio.sent == old(radio.sent)
    {
      ghost var before := radio.Regs();
      WritingUpdateSetsAddress(before, base, prefix);
      var p0 := radio.prefix0 & 0xFFFFFF00;
      p0 := p0 | prefix;
      radio.base0, radio.prefix0, radio.txAddress := base, p0, 0;
      assert radio.Regs() == before.(base0 := base, prefix0 := (before.prefix0 & 0xFFFFFF00) | prefix, txAddress := 0);
    }

    /** `openWritingPipe(uint64_t address)`: BASE0 gets bytes 1 to 4 of the address, PREFIX0's low lane byte 0. */
    method OpenWritingPipe(address: bv64)
      modifies radio
      ensures WritingAddressSet(old(radio.Regs()), radio.Regs(),
                                AddrConv(BaseBytes(address)), Mirror(AddressByte(address, 0)))
      ensures radio.direction == old(radio.direction)
      ensures radio.tasks == old(radio.tasks) && radio.sent == old(radio.sent)
    {
      var base := AddrConv(BaseBytes(address));
      var prefix := Prefix(PrefixBytes(AddressByte(address, 0)));
      CommitWritingAddress(base, prefix);
    }

    /** `openWritingPipe(const uint8_t* address)`: as above with the address given as 5 bytes, first byte first. */
    method OpenWritingPipeBytes(address: seq<bv8>)
      requires |address| >= 5
      modifies radio
      ensures WritingAddressSet(old(radio.Regs()), radio.Regs(), AddrConv(address[1..5]), Mirror(address[0]))
      ensures radio.direction == old(radio.direction)
      ensures radio.tasks == old(radio.tasks) && radio.sent == old(radio.sent)
    {
      var base := AddrConv(address[1..]);
      var prefix := Prefix(address);
      CommitWritingAddress(base, prefix);
    }

    /** `txStandBy()`: a stub that reports success and touches nothing. */
    method TxStandBy() returns (ok: bool)
      ensures ok
    {
      ok := true;
    }

    /** `txStandBy(timeout, startTx)`: a stub that reports success and touches nothing. */
    method TxStandByTimeout(timeout: bv32, startTx: bool := false) returns (ok: bool)
      ensures ok
    {
      ok := true;
    }
  }
}
