# nrf_to_nrf: a verified model of the register-level protocol logic

`nrf_to_nrf` is an Arduino driver that gives the nRF52 on-chip 2.4 GHz radio
the API of the nRF24L01 transceiver library, so that an nRF52 board can talk
to nRF24L01 nodes. This project models what the driver does to the radio's
registers and to its own packet buffers, and proves properties of that model
in Dafny.

The model is split into five modules:

- `AddressCodec` (address_codec.dfy) covers `bytewise_bit_swap`, `__REV` and
  `addr_conv`. These turn four nRF24L01-order address bytes into one nRF52
  BASE/PREFIX register word: every byte is bit-mirrored and the byte order is
  reversed. `Mirror` is a bit-by-bit reference definition of the mirror.
  `AddrUnconv` is the inverse of `addr_conv`; the model proves both round trips.
- `Pipes` (pipes.dfy) covers the byte-lane read-modify-write on PREFIX0 and
  PREFIX1, the byte extraction the `uint64_t` overloads do, and the map from
  logical address to prefix lane.
- `Framing` (framing.dfy) covers the 34-byte `radioData` frame: a length byte,
  the packet-id byte, then 32 payload bytes. It also covers the packet id
  `write` computes, the 33-byte `rxBuffer` view `available` builds, the
  `min(32, len)` payload size, and the duplicate test.
- `Peripheral` (peripheral.dfy) is the nRF52 RADIO as a class:
  - the registers the driver touches, as fields: BASE0, BASE1, PREFIX0,
    PREFIX1, RXADDRESSES, TXADDRESS, FREQUENCY, EVENTS_CRCOK, RXMATCH;
  - the direction the radio is enabled in;
  - a log of the tasks the driver triggers;
  - a log of the packets put on the air.

  Each spin-wait on an `EVENTS_*` register is taken to have completed.
- `Driver` (driver.dfy) is the class `nrf_to_nrf` as the class `NrfToNrf`.
  - It holds `radioData`, `rxBuffer` and `acksPerPipe` as arrays.
  - It holds `rxFifoAvailable` and `failureDetected` as fields.
  - It holds the duplicate trackers `lastPacketCounter` and `lastData` as
    fields too; the source keeps them as file-scope globals.
  - The radio is passed to the constructor, standing in for the global
    `NRF_RADIO`.
  - Every state-changing operation is a method whose contract states the
    whole new register state, the new buffer contents, and which tasks were
    triggered and which packets were sent.

Three behaviours of the source are easy to misread; the model follows the
code as written:

- **TXADDRESS after an acknowledgement.** `available`'s acknowledgement detour
  reads TXADDRESS only after `stopListening` has already set it to 0
  (src/nrf_to_nrf.cpp:178-182). So the "restore" writes 0, not the value from
  before the detour. `Driver.NrfToNrf.Available` states exactly that. The two
  agree whenever TXADDRESS was already 0. That is always true in practice:
  `begin`, `stopListening` and `openWritingPipe` set it to 0, and no other
  operation leaves it anywhere else.
- **The packet id.** `((id + 1) % 4) << 1` does not cycle through the ids. It
  reaches 6 and then stays there (`Framing.PidSettles`,
  `Framing.EvenPidSettles`). Once it has settled, the duplicate filter drops
  every frame whose first payload byte repeats the previous one
  (`Framing.SettledIdRepeatsPair`).
- **Child 255.** `openReadingPipe` with child 255 wraps the byte
  `child + 1` to 0. It then writes logical address 0's prefix lane, but BASE1
  rather than BASE0. The model allows this input and does the same.

## Model

| member | source | states |
|---|---|---|
| AddressCodec.Mirror | src/nrf_to_nrf.cpp:13-20 | output bit k of the mirror is input bit 7 - k, for every k |
| AddressCodec.MirrorInvolution | src/nrf_to_nrf.cpp:13-20 | mirroring a byte twice gives the byte back |
| AddressCodec.BytewiseBitSwap | src/nrf_to_nrf.cpp:31-55 | byte lane i of the result is the mirror of p[i], for i = 0..3 |
| AddressCodec.Rev | src/nrf_to_nrf.cpp:61 | byte lane i of the result is lane 3 - i of the input |
| AddressCodec.AddrConv | src/nrf_to_nrf.cpp:58-62 | lane 3 holds mirror(p[0]), lane 2 mirror(p[1]), lane 1 mirror(p[2]), lane 0 mirror(p[3]) |
| AddressCodec.AddrConvWord | src/nrf_to_nrf.cpp:58-62 | addr_conv(p) = mirror(p[0])<<24 \| mirror(p[1])<<16 \| mirror(p[2])<<8 \| mirror(p[3]) |
| AddressCodec.DecodeEncode | src/nrf_to_nrf.cpp:58-62 | AddrUnconv recovers the four address bytes from addr_conv's word |
| AddressCodec.EncodeDecode | src/nrf_to_nrf.cpp:58-62 | every register word is addr_conv of the bytes AddrUnconv gives, so addr_conv is onto |
| AddressCodec.AddrConvInjective | src/nrf_to_nrf.cpp:58-62 | two addresses whose first four bytes differ give different register words |
| AddressCodec.Prefix | src/nrf_to_nrf.cpp:304-307 | `addr_conv(a) >> 24` is below 256 and equals mirror(a[0]) |
| AddressCodec.PrefixIgnoresTail | src/nrf_to_nrf.cpp:304-307 | the prefix does not depend on a[1..4], which the uint64_t overloads leave uninitialised |
| Pipes.SetLaneAt | src/nrf_to_nrf.cpp:309-317 | after `w &= ~(0xFF << 8l); w \|= b << 8l`, lane l holds b and every other lane keeps its byte |
| Pipes.SetLaneOnlyThatLane | src/nrf_to_nrf.cpp:309-317 | the same, for all other lanes at once |
| Pipes.PipePrefixIsolation | src/nrf_to_nrf.cpp:309-317 | writing the prefix lane of logical address c (PREFIX0 lane c if c < 4, else PREFIX1 lane c - 4) changes that address's prefix to b and no other address's prefix |
| Pipes.LowLaneWrite | src/nrf_to_nrf.cpp:337-338 | `w &= 0xFFFFFF00; w \|= b` sets lane 0 to b and keeps lanes 1 to 3 |
| Pipes.OverloadsAgree | src/nrf_to_nrf.cpp:292-307 | when bytes[i] is byte i of the 64-bit address, both overloads compute the same BASE word and the same prefix |
| Framing.NextPid | src/nrf_to_nrf.cpp:205 | the packet id written is always 0, 2, 4 or 6 |
| Framing.NextPidIntArithmetic | src/nrf_to_nrf.cpp:205 | the byte computation equals the source's int computation ((id + 1) mod 4) * 2 for every id byte |
| Framing.PidSettles | src/nrf_to_nrf.cpp:205 | after three or more writes the packet id is 6, whatever it started at |
| Framing.EvenPidSettles | src/nrf_to_nrf.cpp:205 | from an even id, after two or more writes the packet id is 6 |
| Framing.WriteFrame | src/nrf_to_nrf.cpp:203-208 | the frame is 34 bytes: the length byte, the next packet id, buf[..len], then zeros |
| Framing.PayloadSize | src/nrf_to_nrf.cpp:250-253 | the result is at most 32; it is the length byte when that is at most 32, otherwise 32 |
| Framing.WriteReceiveRoundTrip | src/nrf_to_nrf.cpp:167-173 | when the frame write built is what available finds in radioData, the copy in rxBuffer reports payload size len, carries buf[..len] at rxBuffer[1..1+len], and has zeros after it |
| Framing.SettledIdRepeatsPair | src/nrf_to_nrf.cpp:186-188 | once the id has settled at 6, two consecutive frames whose payloads start with the same byte carry the same (id, first byte) pair, so the second counts as a duplicate |
| Peripheral.Radio.Disable | src/nrf_to_nrf.cpp:223-226 | TASKS_DISABLE leaves the radio disabled, appends the task, and changes no register |
| Peripheral.Radio.EnableRx | src/nrf_to_nrf.cpp:229-232 | TASKS_RXEN enables the radio for receive, appends the task, and changes no register |
| Peripheral.Radio.EnableTx | src/nrf_to_nrf.cpp:241-244 | TASKS_TXEN enables the radio for transmit, appends the task, and changes no register |
| Peripheral.Radio.Start | src/nrf_to_nrf.cpp:210-213 | TASKS_START sends the packet on TXADDRESS when enabled for transmit, and sends nothing otherwise |
| Driver.EdLevel | src/nrf_to_nrf.cpp:151-161 | readings above 63 give 255; readings 0 to 63 give 4 times the reading; negative readings give 4 times the reading mod 256, as the uint8_t cast does; the result is always a byte |
| Driver.EdLevelMonotone | src/nrf_to_nrf.cpp:161 | a stronger non-negative reading never gives a lower level |
| Driver.WritingUpdateSetsAddress | src/nrf_to_nrf.cpp:336-339 | the three register writes of openWritingPipe establish WritingAddressSet |
| Driver.ReadingAddressSetDetermined | src/nrf_to_nrf.cpp:309-318 | the registers after openReadingPipe are fully determined by the registers before, the pipe, the base and the prefix |
| Driver.WritingAddressSetDetermined | src/nrf_to_nrf.cpp:336-339 | the registers after openWritingPipe are fully determined by the registers before, the base and the prefix |
| Driver.ReadingOverloadsSameState | src/nrf_to_nrf.cpp:292-367 | the uint64_t and byte-array overloads of openReadingPipe leave identical registers when the bytes are the address's bytes, least significant first |
| Driver.WritingOverloadsSameState | src/nrf_to_nrf.cpp:321-382 | the same for the two overloads of openWritingPipe |
| Driver.BeginDefaultsAreNrf24Addresses | src/nrf_to_nrf.cpp:124-127 | begin's BASE and PREFIX constants, converted back by addr_conv, are E7:E7:E7:E7:E7 for address 0 and (C1 + k):C2:C2:C2:C2 for address k, 1 to 7; addresses 0 to 5 are the nRF24L01 reset addresses, and 6 and 7 continue the pattern |
| Driver.NrfToNrf.constructor | src/nrf_to_nrf.cpp:88-93 | auto-ack is on for all eight pipes (the constructor's loop); the buffers have their sizes (src/nrf_to_nrf.h:19); the zero contents and flags are the static-storage assumption in Left out |
| Driver.NrfToNrf.Begin | src/nrf_to_nrf.cpp:124-147 | BASE0/1 and PREFIX0/1 take the defaults, RXADDRESSES is 1, TXADDRESS is 0, FREQUENCY is 0x4C; then TXEN and START are triggered, sending radioData on address 0; it returns true |
| Driver.NrfToNrf.AcksEnabled | src/nrf_to_nrf.cpp:390-395 | true exactly when auto-ack is on for the pipe |
| Driver.NrfToNrf.SetChannel | src/nrf_to_nrf.cpp:258-261 | FREQUENCY becomes the channel; nothing else changes |
| Driver.NrfToNrf.StartListening | src/nrf_to_nrf.cpp:222-233 | EVENTS_CRCOK is cleared and no other register changes; the tasks are DISABLE, RXEN, START; the radio ends enabled for receive; nothing is sent |
| Driver.NrfToNrf.StopListening | src/nrf_to_nrf.cpp:235-247 | TXADDRESS becomes 0 and no other register changes; the tasks are DISABLE, TXEN; the radio ends enabled for transmit; nothing is sent |
| Driver.NrfToNrf.Write | src/nrf_to_nrf.cpp:203-220 | radioData becomes WriteFrame of its old contents; one START, which sends the new frame when the radio is enabled for transmit; registers unchanged; returns true whatever multicast is |
| Driver.NrfToNrf.CopyToRxBuffer | src/nrf_to_nrf.cpp:171-172 | rxBuffer becomes the length byte followed by radioData[2..34] |
| Driver.NrfToNrf.SendAck | src/nrf_to_nrf.cpp:177-184 | radioData becomes the empty frame; exactly one packet goes out, on the logical address the frame arrived on; the tasks are DISABLE, TXEN, START, DISABLE, RXEN, START; EVENTS_CRCOK is clear and TXADDRESS ends at 0 |
| Driver.NrfToNrf.TrackPacket | src/nrf_to_nrf.cpp:186-193 | reports new exactly when the (id, first byte) pair differs from the remembered one; the remembered pair ends as this pair (when it was equal, that is no change) |
| Driver.NrfToNrf.Available | src/nrf_to_nrf.cpp:167-196 | with EVENTS_CRCOK clear: false, nothing changes. With it set: the flag is cleared; rxBuffer holds the frame as received, taken before the acknowledgement overwrites radioData; the result is true exactly when the frame is not a duplicate; the trackers hold its pair. With ack on: one empty frame is sent on RXMATCH and TXADDRESS ends at 0. With ack off: nothing is sent and radioData is untouched. failureDetected never changes |
| Driver.NrfToNrf.Read | src/nrf_to_nrf.cpp:198-201 | buf[..len] becomes rxBuffer[1..1+len]; the rest of buf and all of rxBuffer are unchanged; one START |
| Driver.NrfToNrf.GetDynamicPayloadSize | src/nrf_to_nrf.cpp:250-253 | min(32, length byte): the received length byte when that is at most 32, and 32 when it is larger |
| Driver.NrfToNrf.CommitReadingAddress | src/nrf_to_nrf.cpp:309-318 | ReadingAddressSet holds: BASE1 is the base, only the pipe's prefix lane changes (to the prefix), the pipe's bit is set in RXADDRESSES, no other register changes |
| Driver.NrfToNrf.OpenReadingPipe | src/nrf_to_nrf.cpp:292-319 | for logical address child + 1 (a byte, so 255 wraps to 0), BASE1 becomes addr_conv of bytes 1 to 4 and the prefix lane becomes mirror(byte 0); everything else as in ReadingAddressSet |
| Driver.NrfToNrf.OpenReadingPipeBytes | src/nrf_to_nrf.cpp:342-367 | the same, with BASE1 from address[1..5] and the prefix mirror(address[0]) |
| Driver.NrfToNrf.CommitWritingAddress | src/nrf_to_nrf.cpp:336-339 | WritingAddressSet holds: BASE0 is the base, lane 0 of PREFIX0 is the prefix, lanes 1 to 3 are unchanged, TXADDRESS is 0, no other register changes |
| Driver.NrfToNrf.OpenWritingPipe | src/nrf_to_nrf.cpp:321-340 | BASE0 becomes addr_conv of bytes 1 to 4 of the address, PREFIX0 lane 0 becomes mirror(byte 0), TXADDRESS is 0; BASE1, PREFIX1 and RXADDRESSES are unchanged |
| Driver.NrfToNrf.OpenWritingPipeBytes | src/nrf_to_nrf.cpp:369-382 | the same, with BASE0 from address[1..5] and the prefix mirror(address[0]) |
| Driver.NrfToNrf.TxStandBy | src/nrf_to_nrf.cpp:384 | returns true and changes no state |
| Driver.NrfToNrf.TxStandByTimeout | src/nrf_to_nrf.cpp:385 | returns true and changes no state, whatever the timeout |

## Left out

- Clock start-up, DCDC power, PCNF0/PCNF1, CRC configuration, MODE, MODECNF0, TXPOWER and SHORTS in `clock_initialization` and `begin`. This is peripheral bring-up with no protocol content. `Driver.NrfToNrf.Begin` keeps only the address, RXADDRESSES, TXADDRESS and FREQUENCY writes, and the final TXEN/START.
- The spin-waits on `EVENTS_*` registers. Each task method returns in the state reached once the awaited event has fired, and their termination is not modelled.
- The EVENTS_DISABLED, EVENTS_RXREADY, EVENTS_TXREADY, EVENTS_READY and EVENTS_END registers. They are only cleared and polled around the spin-waits, so they are not fields of the model.
- `enableDynamicPayloads` and `disableDynamicPayloads`. Their values depend on vendor `RADIO_PCNF*_Pos` constants that are not part of this model, and PCNF0/PCNF1 are not modelled.
- `writeFast`. It passes `&buf`, so it frames the bytes of the pointer variable rather than the payload. Those bytes are not visible at the level of this model.
- `setRetries`, both `setAutoAck` overloads and `isValid`. They are empty stubs or constant `true` and touch no state. `acksPerPipe` is therefore only ever written by the constructor.
- `delayMicroseconds(25)` in `available` (timing only), and the EDSAMPLE hardware read in `sample_ed`. `Driver.EdLevel` takes the reading as a parameter.
- The bytes `prefixArray[1..4]` that the `uint64_t` overloads leave uninitialised. The model fills them with zeros, and `AddressCodec.PrefixIgnoresTail` shows that the result does not depend on them.
- `Driver.NrfToNrf.constructor`: the model's constructor also zeroes `radioData` and `rxBuffer`, clears `failureDetected` and `rxFifoAvailable`, and sets the trackers to 0. The source's constructor does none of this; it only fills `acksPerPipe`. The buffers and flags read 0 only for an object with static storage, and that is assumed here.
- The duplicate trackers: the source's `lastPacketCounter` and `lastData` are globals, zeroed once at program start and shared by every object (src/nrf_to_nrf.cpp:164-165). The model keeps them per object and resets them when an object is built, so it does not capture two driver objects sharing them.
- `Peripheral.Radio.PowerOn`: the register values before `begin` are taken as zero. This is an assumption about the hardware, not something the driver sets.
- `Driver.NrfToNrf.Write`: `buf` is a sequence value, so the model does not capture a caller passing `radioData` itself (aliasing).
- What a receiver's `radioData` holds past the payload. `begin` selects a dynamic length field (src/nrf_to_nrf.cpp:119-121), so only `len` payload bytes travel on the air. `available` still copies all 32 (src/nrf_to_nrf.cpp:171), so the tail of a receiver's `rxBuffer` holds whatever its own `radioData` held before. `Framing.WriteReceiveRoundTrip` only covers the frame that is actually in `radioData`.
- The radio filling `radioData` with a received frame and setting EVENTS_CRCOK and RXMATCH. This is hardware behaviour; `Available` takes whatever frame and flags are present.
- Encryption, retransmission and timeouts, ACK payloads, and discarding oversized payloads. None of them exist in this code.
- Concurrency with the radio's EasyDMA while a transmission is in progress. Each task is taken to finish before the next statement runs.
