# eZ430-RF2500 wireless sensor demos, modelled in Dafny

The repository is a set of MSP430F2274 applications for the eZ430-RF2500
board. They are end devices that measure temperature, supply voltage,
acceleration or a magnetometer and send the results over SimpliciTI or
raw MRFI. One access point forwards what it receives to a serial port.
There are also two flash test programs. Most of each file programs
peripheral registers or calls the closed radio stack. This project models
the sequential logic inside that glue and proves what it computes:

- **Sensor conversions** (`conversion.dfy`, `ctypes.dfy`). The raw ADC10
  count becomes tenths of a degree, `((r - 673) * 4230) / 1024` with C's
  truncating division, plus the factory offset at 0x10F4 unless that word
  reads 0xFFFF. The voltage is `(r * 25) / 512`. The 16-bit `int` and the
  8-bit `uint8_t` wrap explicitly.
- **Fixed-layout packets** (`simpleif.dfy`, `wsm.dfy`, `cablesbroken.dfy`,
  `accelspectra.dfy`, `magflash.dfy`). These are the 3-, 9- and 10-byte
  measurement messages, the 4-byte-header accelerometer spectra and the
  magnetometer packets, each with a decoder and a round-trip lemma.
- **The acknowledged transmit path** (`ackretry.dfy`, `radio.dfy`). This
  covers `sendPacket`, `sendBestEffort` and `sendWithAckReq` with
  `missedAcks`, `noAck`, rounds of `MISSES_IN_A_ROW` attempts and the ping
  under `FREQUENCY_AGILITY`. The demos copy this path from one another, so
  one model is parametrised by where each copy writes `missedAcks` and by
  whether it clears the measurement semaphore.
- **Work loops and bursts** (`wsm.dfy`, `cablesbroken.dfy`,
  `accelspectra.dfy`, `simpleifspectra.dfy`, `simpleif.dfy`). The
  semaphores the timer and radio interrupts raise, the sequence numbers,
  the three-packet spectra burst and the access point's loop.
- **Buffer chunking.** The slices of the spectra buffer, the 255-sample
  DTC blocks of `getFieldDTC`, and the flash sample buffer with
  `segAddress`, `saveSample`/`readSample`, `oneSpectrum` and
  `transmitSpectrum` (`sampleflash.dfy`, `magflash.dfy`).
- **Accelerometer SPI** (`spi.dfy`, `accelalarm.dfy`, `accelwsm.dfy`).
  Chip select and byte transfers form a trace. The model covers the
  read/burst bits in the address byte, the address checks, and the packing
  of a sample, both `lsb | msb << 8` and bits 9..2.
- **Stores** (`settings.dfy`, `flashtest.dfy`). The nine-variable settings
  save/load and the 16 KB write-then-verify flash test.
- **`createRandomAddress`** (`randomaddress.dfy`). The VLO rejection loop
  and the big-endian write of the address.

The radio stack, the ADC readings, the SPI bytes received, the VLO random
words and interrupt arrivals are inputs: functions from a call number to a
value. Calls into the stack are recorded as a log.

Where a comment and the code disagree, the model follows the code. There
are two such places:

- In `IARworkspace/ez430-rf2500_wsm_cables_broken/Applications/main_ED.c`,
  the packet layout drawn at lines 382-387 is not the one lines 389-398
  build.
- In `IARworkspace/ez430-rf2500_wsm_accel_alarm/Applications/accel.c`,
  lines 111-114 say the burst bit is set for a register read. Line 115
  sets only the read bit.

`MAX_APP_PAYLOAD` is defined outside the files modelled here, so it is a
parameter (`maxPayload`). The message layout comments imply 50.

## Model

| member | source | states |
|---|---|---|
| Conversion.TempTenths | IARworkspace/ez430-rf2500_wsm_cables_broken/Applications/main_ED.c:366-368 | the raw temperature in tenths of a degree lies in -2780..1445 and is `(r - 673) * 4230 / 1024` truncated toward zero, on either side of 673 |
| Conversion.TempMonotone | IARworkspace/ez430-rf2500_wsm_cables_broken/Applications/main_ED.c:368 | a higher diode reading never gives a lower temperature |
| Conversion.DegC | IARworkspace/ez430-rf2500_wsm_cables_broken/Applications/main_ED.c:367-372 | an offset word of 0xFFFF is ignored; any other offset is added, the sum wrapping in the 16-bit `int` and exact when it fits |
| Conversion.MinusOneOffsetIgnored | IARworkspace/ez430-rf2500_wsm/Applications/main_ED.c:312-315 | a calibrated offset of -1 is stored as 0xFFFF and is therefore never applied |
| Conversion.SmallOffsetExact | IARworkspace/simpleif/Applications/main_AP.c:146-150 | an offset between -1400 and 1400 is applied exactly to any 10-bit reading, with no wrap |
| Conversion.VoltTenths | IARworkspace/simpleif/Applications/main_AP.c:152-153 | the voltage is `r * 25 / 512` truncated and, for a 10-bit reading, lies in 0..49 |
| Conversion.VoltMonotone | IARworkspace/simpleif/Applications/main_ED.c:176-177 | a higher reading never gives a lower voltage |
| CTypes.DivTrunc | IARworkspace/ez430-rf2500_wsm_cables_broken/Applications/main_ED.c:368 | C division by a positive divisor truncates toward zero: the remainder takes the sign of the dividend |
| CTypes.S16 | IARworkspace/ez430-rf2500_wsm_cables_broken/Applications/main_ED.c:359 | conversion to the 16-bit `int` is congruent modulo 2^16 and the identity on values that fit |
| CTypes.LE16OfBytes | IARworkspace/ez430-rf2500_wsm/Applications/main_ED.c:331-339 | the `& 0xFF` and `(>> 8) & 0xFF` bytes of any value read back little-endian give the value modulo 2^16 |
| CTypes.Low10OfBytes | IARworkspace/ez430-rf2500_wsm/Applications/main_ED.c:335-336 | `x & 0xFF` and `(x >> 8) & 0x3` together hold exactly the low 10 bits of `x` |
| CTypes.S16RoundTrip | IARworkspace/simpleif/Applications/main_AP.c:156-157 | a signed 16-bit temperature survives the trip through its two bytes |
| CTypes.WordRoundTrip | IARworkspace/ez430-rf2500_wsm/Applications/main_ED.c:333-334 | a 16-bit word survives the trip through its two bytes |
| CTypes.CopyInto | CCSworkspace/eZ430-RF2500_WSM_accel_spectra/Applications/main_ED.c:331 | `memcpy` into `dst` at `at` writes exactly `src` there and leaves the rest of `dst` unchanged |
| Simpleif.SampleRoundTrip | IARworkspace/simpleif/Applications/main_AP.c:156-158 | bytes 0-1 of the 3-byte message read back as the corrected temperature; byte 2 is the voltage, at most 49 |
| Simpleif.FieldsRoundTrip | IARworkspace/simpleif/Applications/main_ED.c:178-180 | a 16-bit temperature and a voltage in 0..49 survive their byte encoding |
| Simpleif.TakeSample | IARworkspace/simpleif/Applications/main_ED.c:129-181 | `takeSample` writes the 3-byte message (temperature low, high, voltage) into `msg[0..3)` and nothing else |
| Simpleif.Hub.constructor | IARworkspace/simpleif/Applications/main_AP.c:26-27 | both work-loop semaphores start at 0 |
| Simpleif.Hub.RxComplete | IARworkspace/simpleif/Applications/main_AP.c:182-185 | a receive completion adds one (`uint8_t`) to `sPktSem` and one to the packets arrived, keeping `sPktSem` = unhandled mod 256 |
| Simpleif.Hub.TimerTick | IARworkspace/simpleif/Applications/main_AP.c:174-177 | the timer sets the self-measure flag to 1 and changes nothing else |
| Simpleif.Hub.LoopIteration | IARworkspace/simpleif/Applications/main_AP.c:69-106 | one pass handles a packet only if `sPktSem` is non-zero, then decrements it and forwards the payload's first 3 bytes; it reports the hub's sample iff the flag was set, and it always leaves the flag at 0 |
| Simpleif.PendingDecrement | IARworkspace/simpleif/Applications/main_AP.c:74-88 | decrementing a non-zero `sPktSem` for one handled packet keeps it equal to the number still waiting, mod 256 |
| Simpleif.PendingWrapsAt256 | IARworkspace/simpleif/Applications/main_AP.c:184 | 256 unhandled arrivals wrap `sPktSem` to 0, so the loop handles none of them |
| Simpleif.EndDevice.constructor | IARworkspace/simpleif/Applications/main_ED.c:27 | the end device starts with the semaphore at 1, so its first pass takes a sample |
| Simpleif.MeasureCalls | IARworkspace/simpleif/Applications/main_ED.c:94-117 | a measurement transmits the message; with `TIMER` it takes 4 radio calls (wake, transmit, idle, sleep), without it 1 |
| Simpleif.SampleAndSendIteration | IARworkspace/simpleif/Applications/main_ED.c:68-127 | with `TIMER` a pass measures only when the semaphore is set and then clears it; without `TIMER` every pass measures; each packet has payload length 3 and holds the message |
| Simpleif.Passes | IARworkspace/simpleif/Applications/main_ED.c:77-125 | without `TIMER` the semaphore never changes; with it, every pass leaves the semaphore at 0: a measuring pass clears it and a pass that does not measure found it 0 |
| Simpleif.MeasureTransmitsOnce | IARworkspace/simpleif/Applications/main_ED.c:94-117 | each measurement puts exactly one frame on air |
| Simpleif.PassesTransmit | IARworkspace/simpleif/Applications/main_ED.c:68-127 | without `TIMER` every pass transmits; with it the device transmits at most once per timer interrupt, plus once for a semaphore already set at the start |
| Simpleif.SampleAndSend | IARworkspace/simpleif/Applications/main_ED.c:68-127 | `sampleAndSend` wakes the radio once before its loop, then n passes add the calls and leave the semaphore of the reference `Passes` |
| Simpleif.ForwardedSampleDecodes | IARworkspace/simpleif/Applications/main_AP.c:81-86 | what the access point forwards from an end device's packet decodes to that device's temperature and voltage |
| Mrfi.BuildPayload | IARworkspace/simpleif/Applications/main_ED.c:190-197 | the packet's length is `len`, its payload is exactly `msg[0..len)`, and its source is the device's own 4-byte address |
| Mrfi.SourceAsWritten | IARworkspace/simpleif/Applications/main_ED.c:188-197 | as written, the source address is `MRFI_ADDR_SIZE` bytes read from low data memory through the NULL `sMyAddr`, whichever device sends |
| Mrfi.BuildPayloadAsWritten | IARworkspace/simpleif_accel_spectra/Applications/main_ED.c:291-298 | as written, the payload is right and the source is the low-memory bytes |
| Mrfi.MissedAddress | IARworkspace/simpleif_accel_spectra/Applications/main_ED.c:291-297 | a 4-byte device address that differs from the as-written source for the given low memory |
| Mrfi.BuildersDisagree | IARworkspace/simpleif/Applications/main_ED.c:188-197 | on the same message the intended and the as-written builder give the same payload, but only the intended one names the device whose address is `myAddr` |
| Radio.BestEffortCallsAt | IARworkspace/ez430-rf2500_wsm/Applications/main_ED.c:361-372 | the k-th best-effort send is wake, `SMPL_SendOpt` without ACK request, sleep, at positions 3k to 3k+2 |
| Radio.BestEffortSnoc | IARworkspace/ez430-rf2500_wsm/Applications/main_ED.c:366-372 | one more best-effort send appends exactly its three calls |
| Radio.Link.SendOpt | IARworkspace/ez430-rf2500_wsm/Applications/main_ED.c:407 | the n-th `SMPL_SendOpt` returns the n-th oracle status and is logged with its frame and option |
| Radio.Link.Ping | IARworkspace/ez430-rf2500_wsm/Applications/main_ED.c:444 | the n-th `SMPL_Ping` returns the n-th ping oracle status and is logged |
| AckRetry.Stamp | IARworkspace/ez430-rf2500_wsm/Applications/main_ED.c:406 | stamping keeps the message length and whether the variant stamps it |
| AckRetry.StampOnlyMissedByte | IARworkspace/ez430-rf2500_wsm_cables_broken/Applications/main_ED.c:552-554 | before each attempt only the missed-ack byte may change, and only in a message the variant stamps (cables_broken: self-measure messages only) |
| AckRetry.StampTwice | CCSworkspace/eZ430-RF2500_WSM_accel_spectra/Applications/main_ED.c:399 | stamping again overwrites the earlier stamp |
| AckRetry.CountNoAckAll | IARworkspace/ez430-rf2500_wsm_cables_broken/Applications/main_ED.c:565-576 | the `noAck` count of n answers is at most n, and equals n exactly when every answer is `SMPL_NO_ACK` |
| AckRetry.MissedAfterStep | IARworkspace/ez430-rf2500_wsm/Applications/main_ED.c:417-428 | each answer adds 1 to both `noAck` and `missedAcks` (mod 256) if it is `SMPL_NO_ACK`, and 0 otherwise |
| AckRetry.ProgressStep | IARworkspace/ez430-rf2500_wsm/Applications/main_ED.c:400-429 | an unacknowledged attempt advances the round's counters by what its answer adds |
| AckRetry.RoundFromNoSuccess | IARworkspace/ez430-rf2500_wsm/Applications/main_ED.c:400-429 | a round whose remaining answers contain no success makes every remaining attempt and returns the fifth status |
| AckRetry.RoundFromSuccess | IARworkspace/ez430-rf2500_wsm/Applications/main_ED.c:407-415 | a round ends at its first `SMPL_SUCCESS`, with `missedAcks` reset to 0 |
| AckRetry.FirstSuccess | IARworkspace/ez430-rf2500_wsm/Applications/main_ED.c:407 | an answer list with a success has a first success |
| AckRetry.RoundAcked | IARworkspace/ez430-rf2500_wsm_cables_broken/Applications/main_ED.c:546-564 | the first acknowledged attempt ends the round, with `missedAcks` 0 and attempts = its index + 1 |
| AckRetry.RoundNotAcked | IARworkspace/ez430-rf2500_wsm_cables_broken/Applications/main_ED.c:546-577 | a round without acknowledgement makes 5 attempts, returns the last status, and counts only the `SMPL_NO_ACK`s |
| AckRetry.RoundShape | IARworkspace/ez430-rf2500_wsm/Applications/main_ED.c:400-429 | every round makes 1 to 5 attempts and returns its last status, with the last stamp being that attempt's `missedAcks`; an acked round resets `missedAcks`; `noAck` = 5 means 5 unacked attempts |
| AckRetry.RoundAckedIff | IARworkspace/ez430-rf2500_wsm/Applications/main_ED.c:407-416 | a round ends acknowledged iff one of its five answers is `SMPL_SUCCESS` |
| AckRetry.RoundAllMissed | IARworkspace/ez430-rf2500_wsm/Applications/main_ED.c:431 | `noAck` reaches `MISSES_IN_A_ROW` iff all five answers are `SMPL_NO_ACK` |
| AckRetry.RoundsStep | IARworkspace/ez430-rf2500_wsm/Applications/main_ED.c:395-457 | one pass of `while (!done)` either ends the loop with the final outcome or leaves a state from which the loop reaches the same outcome and calls |
| AckRetry.RoundsStepLast | IARworkspace/ez430-rf2500_wsm/Applications/main_ED.c:452-456 | the pass that ends the loop produces that round's outcome and calls |
| AckRetry.RoundsStepNext | IARworkspace/ez430-rf2500_wsm/Applications/main_ED.c:444-447 | after a successful ping the loop continues from the new state to the same final outcome |
| AckRetry.AttemptedInit | IARworkspace/ez430-rf2500_wsm/Applications/main_ED.c:397-400 | before the first attempt the round state is empty |
| AckRetry.AttemptedStep | IARworkspace/ez430-rf2500_wsm/Applications/main_ED.c:406-428 | an unacknowledged attempt appends its stamped frame and advances `noAck` and `missedAcks` |
| AckRetry.AttemptedAcked | IARworkspace/ez430-rf2500_wsm/Applications/main_ED.c:407-415 | an acked attempt ends the round with the reference round's outcome and frames |
| AckRetry.AttemptedExhausted | IARworkspace/ez430-rf2500_wsm/Applications/main_ED.c:400-429 | five unacked attempts end the round with the reference round's outcome and frames |
| AckRetry.Frames | IARworkspace/ez430-rf2500_wsm/Applications/main_ED.c:406-407 | one stamped frame per attempt |
| AckRetry.RoundsCalls | IARworkspace/ez430-rf2500_wsm/Applications/main_ED.c:395-457 | the loop makes exactly one call per send and per ping of the outcome |
| AckRetry.SingleRound | IARworkspace/ez430-rf2500_wsm_cables_broken/Applications/main_ED.c:579-604 | without `FREQUENCY_AGILITY` the function returns after one round, with its last status and no ping |
| AckRetry.SingleRoundCalls | IARworkspace/ez430-rf2500_wsm_cables_broken/Applications/main_ED.c:541-605 | without `FREQUENCY_AGILITY` the calls are the frames of that one round |
| AckRetry.RoundsResult | IARworkspace/ez430-rf2500_wsm/Applications/main_ED.c:395-465 | however many rounds run, the returned status is that of the last attempt, and an acknowledged send leaves `missedAcks` at 0 |
| AckRetry.RoundsPings | IARworkspace/ez430-rf2500_wsm/Applications/main_ED.c:437-450 | pings happen only with `FREQUENCY_AGILITY`, and none after the first failing one |
| AckRetry.RoundsLast | IARworkspace/ez430-rf2500_wsm/Applications/main_ED.c:431-456 | the loop ends after a round that is acked, fails otherwise, or is followed by a failed ping; the outcome and calls are that round's |
| AckRetry.RoundsNext | IARworkspace/ez430-rf2500_wsm/Applications/main_ED.c:444-447 | a round followed by a successful ping is that round plus the loop from the state it leaves |
| AckRetry.Device.constructor | IARworkspace/ez430-rf2500_wsm/Applications/main_ED.c:142-144 | `missedAcks` and the semaphore start at 0 |
| AckRetry.Device.SendBestEffort | IARworkspace/ez430-rf2500_wsm/Applications/main_ED.c:361-378 | `sendBestEffort`: wake, one unacknowledged send, sleep; the status is the oracle's; the semaphore is cleared only in the wsm copy |
| AckRetry.Device.StampMissed | IARworkspace/ez430-rf2500_wsm_cables_broken/Applications/main_ED.c:552-554 | writes `missedAcks` at the variant's position, guarded by the message type where the variant is |
| AckRetry.Device.Attempt | IARworkspace/ez430-rf2500_wsm/Applications/main_ED.c:406-407 | one stamped attempt sends the reference frame and returns the oracle's status |
| AckRetry.Device.TryRound | IARworkspace/ez430-rf2500_wsm/Applications/main_ED.c:399-429 | the `for (misses ...)` loop produces the reference round: status, `noAck`, `missedAcks`, the frames sent and the final message |
| AckRetry.Device.RoundThenPing | IARworkspace/ez430-rf2500_wsm/Applications/main_ED.c:396-456 | one pass of the outer loop, proved against `Rounds`/`RoundsCalls` |
| AckRetry.Device.RetryRounds | IARworkspace/ez430-rf2500_wsm/Applications/main_ED.c:394-457 | the whole retry loop equals the reference `Rounds` outcome and `RoundsCalls` log |
| AckRetry.Device.SendWithAckReq | IARworkspace/ez430-rf2500_wsm/Applications/main_ED.c:381-466 | `sendWithAckReq`: wake, the retry rounds, sleep; the semaphore is cleared in the wsm and accel_spectra copies only |
| AckRetry.Device.SendPacket | IARworkspace/ez430-rf2500_wsm/Applications/main_ED.c:344-359 | `sendPacket` takes the acknowledged path only with `APP_AUTO_ACK` and `ackflag`, else best effort |
| Wsm.EncodeWsm | IARworkspace/ez430-rf2500_wsm/Applications/main_ED.c:331-339 | 9-byte packet with byte 5 at most 3 and the missed-ack byte 0 |
| Wsm.DecodeWsm | IARworkspace/ez430-rf2500_wsm/Applications/main_ED.c:324-329 | the pressure decoded from a packet with byte 5 at most 3 is below 1024 |
| Wsm.WsmRoundTrip | IARworkspace/ez430-rf2500_wsm/Applications/main_ED.c:331-339 | decoding gives back temperature, voltage, the low 10 bits of pressure, `seqno` mod 2^16 and missed-acks 0 |
| Wsm.RunSeqnos | IARworkspace/ez430-rf2500_wsm/Applications/main_ED.c:249-263 | `run` sends packets numbered 1, 2, 3, … in order, and `seqno` is always one more than the number sent |
| Wsm.SemClearedAfterWake | IARworkspace/ez430-rf2500_wsm/Applications/main_ED.c:255-263 | after every wake-up of `run` the semaphore is 0 |
| Wsm.MeasuresIffTimer | IARworkspace/ez430-rf2500_wsm/Applications/main_ED.c:256-261 | from the second wake-up on, a packet goes out exactly when the timer caused the wake-up |
| Wsm.FirstWakeAfterWrap | IARworkspace/ez430-rf2500_wsm/Applications/main_ED.c:509 | a semaphore of 255 from joining wraps to 0 on the timer tick, so that wake-up sends nothing |
| Wsm.SelfMeasure | IARworkspace/ez430-rf2500_wsm/Applications/main_ED.c:265-342 | `selfMeasure` sends exactly the encoded packet best effort and clears the semaphore |
| Wsm.WakeStep | IARworkspace/ez430-rf2500_wsm/Applications/main_ED.c:255-261 | one method step of `run` matches one `Wake` of the reference run |
| Wsm.WakeUp | IARworkspace/ez430-rf2500_wsm/Applications/main_ED.c:255-261 | one wake-up of `run` moves the device from state `st` to `Wake(st)` |
| Wsm.Run | IARworkspace/ez430-rf2500_wsm/Applications/main_ED.c:249-263 | after n wake-ups the calls are the best-effort sends of the reference run's packets and the semaphore is the reference's |
| CablesBroken.EncodeSelfMeasure | IARworkspace/ez430-rf2500_wsm_cables_broken/Applications/main_ED.c:389-398 | 10-byte packet of type 0 with missed-acks 0 and byte 7 at most 3 |
| CablesBroken.DecodeSelfMeasure | IARworkspace/ez430-rf2500_wsm_cables_broken/Applications/main_ED.c:391-398 | the external reading decoded from a packet with byte 7 at most 3 is below 1024 |
| CablesBroken.SelfMeasureRoundTrip | IARworkspace/ez430-rf2500_wsm_cables_broken/Applications/main_ED.c:389-398 | decoding returns temperature, voltage, the low 10 bits of ext and `seqno` mod 2^16 |
| CablesBroken.SelfMeasureFrameFields | IARworkspace/ez430-rf2500_wsm_cables_broken/Applications/main_ED.c:357-401 | the access point reads the corrected temperature, the raw voltage count and ext 0 |
| CablesBroken.SelfMeasure | IARworkspace/ez430-rf2500_wsm_cables_broken/Applications/main_ED.c:357-401 | `selfMeasure` makes exactly one best-effort send of the packet and leaves the semaphore and `missedAcks` unchanged |
| CablesBroken.RunFrames | IARworkspace/ez430-rf2500_wsm_cables_broken/Applications/main_ED.c:311-331 | `run` produces one packet per wake-up |
| CablesBroken.RunFrameAt | IARworkspace/ez430-rf2500_wsm_cables_broken/Applications/main_ED.c:321-323 | the k-th packet of `run` is the k-th measurement with sequence number k+1 |
| CablesBroken.RunFrameFields | IARworkspace/ez430-rf2500_wsm_cables_broken/Applications/main_ED.c:313-323 | the k-th packet decodes to the k-th readings with sequence number (k+1) mod 2^16 |
| CablesBroken.Run | IARworkspace/ez430-rf2500_wsm_cables_broken/Applications/main_ED.c:311-331 | every wake-up measures and sends, since `TRANSMIT_PERIOD_SECS` is 1; the calls are the best-effort sends of `RunFrames` |
| CablesBroken.FieldHeaderAsWrittenIsZero | IARworkspace/ez430-rf2500_wsm_cables_broken/Applications/main_ED.c:350 | the header byte as written is always 0, unlike the intended one |
| CablesBroken.FieldHeader | IARworkspace/ez430-rf2500_wsm_cables_broken/Applications/main_ED.c:338-343 | the intended header byte holds the sequence number in bits 7..3 and the channel in bits 2..0 |
| CablesBroken.WordBytes | IARworkspace/ez430-rf2500_wsm_cables_broken/Applications/main_ED.c:351 | a sample array is laid out as 2 bytes per sample |
| CablesBroken.WordBytesAppend | IARworkspace/ez430-rf2500_wsm_cables_broken/Applications/main_ED.c:351 | the byte image of concatenated samples is the concatenation of the images |
| CablesBroken.FieldFrameAsWritten | IARworkspace/ez430-rf2500_wsm_cables_broken/Applications/main_ED.c:345-353 | as written, every packet is 50 bytes: type, header and 48 bytes copied from memory at `buf + i`, whatever the buffer holds |
| CablesBroken.FieldFrameReadsPastBuffer | IARworkspace/ez430-rf2500_wsm_cables_broken/Applications/main_ED.c:351 | as written, the packet depends on memory past the 12-byte `dtcbuf` |
| CablesBroken.Channel | IARworkspace/ez430-rf2500_wsm_cables_broken/Applications/main_ED.c:348 | channel i holds `NUM_MAG_SAMPLES` samples |
| CablesBroken.FieldFrame | IARworkspace/ez430-rf2500_wsm_cables_broken/Applications/main_ED.c:345-353 | the intended packet is `sizeof(msg)` = 50 bytes long, with the channel's 2·`NUM_MAG_SAMPLES` sample bytes right after the 2 header bytes |
| CablesBroken.FieldFrames | IARworkspace/ez430-rf2500_wsm_cables_broken/Applications/main_ED.c:347-354 | one packet per channel |
| CablesBroken.FieldPayloadsCover | IARworkspace/ez430-rf2500_wsm_cables_broken/Applications/main_ED.c:347-354 | the payloads of the intended packets, in order, are exactly the buffer's bytes |
| CablesBroken.SendChannel | IARworkspace/ez430-rf2500_wsm_cables_broken/Applications/main_ED.c:335-353 | one pass of the loop sends the whole 50-byte `msg`: the intended packet for channel i, the stack bytes after the samples left as they were |
| CablesBroken.SendField | IARworkspace/ez430-rf2500_wsm_cables_broken/Applications/main_ED.c:333-355 | `sendField` (intended) sends `NUM_MAG_CHANNELS` best-effort 50-byte packets, the intended ones, in channel order, each ending with the stack buffer's original bytes |
| CablesBroken.SumAppend | IARworkspace/ez430-rf2500_wsm_cables_broken/Applications/main_ED.c:461-484 | block counts add across concatenation |
| CablesBroken.BlocksShape | IARworkspace/ez430-rf2500_wsm_cables_broken/Applications/main_ED.c:461-484 | every DTC block is at most 255, all but the last are full, and they sum to the channel's samples |
| CablesBroken.PrefixSumsSnoc | IARworkspace/ez430-rf2500_wsm_cables_broken/Applications/main_ED.c:476-482 | each new block starts where the previous one ended |
| CablesBroken.SumRepeat | IARworkspace/ez430-rf2500_wsm_cables_broken/Applications/main_ED.c:450-484 | the blocks of all channels sum to channels × samples |
| CablesBroken.GetFieldDtc | IARworkspace/ez430-rf2500_wsm_cables_broken/Applications/main_ED.c:436-491 | `getFieldDTC` programs each channel's blocks in order, each at the running offset, and `bufoffset` ends at 6 × `NUM_MAG_SAMPLES` |
| CablesBroken.ChannelDtc | IARworkspace/ez430-rf2500_wsm_cables_broken/Applications/main_ED.c:461-484 | the inner loop programs exactly `Blocks(n)` and advances `bufoffset` by n, terminating |
| AccelSpectra.SliceBound | CCSworkspace/eZ430-RF2500_WSM_accel_spectra/Applications/main_ED.c:331 | slice i of the buffer ends inside it |
| AccelSpectra.Slice | CCSworkspace/eZ430-RF2500_WSM_accel_spectra/Applications/main_ED.c:331 | each slice is `APP_PAYLOAD_LEN` bytes |
| AccelSpectra.SlicesDisjoint | CCSworkspace/eZ430-RF2500_WSM_accel_spectra/Applications/main_ED.c:316-331 | slices of different iterations are in order and do not overlap |
| AccelSpectra.SlicesCover | CCSworkspace/eZ430-RF2500_WSM_accel_spectra/Applications/main_ED.c:117-118 | the three slices are the whole `ACCEL_BUFFER_LEN` buffer, in order |
| AccelSpectra.SpectraFrame | CCSworkspace/eZ430-RF2500_WSM_accel_spectra/Applications/main_ED.c:326-331 | header is type 0, missed-acks 0, axis, seqno; data is the slice |
| AccelSpectra.BurstCount | CCSworkspace/eZ430-RF2500_WSM_accel_spectra/Applications/main_ED.c:305-329 | `seqno` is one more than the packets built, and no more packets are built than iterations |
| AccelSpectra.BurstOrdered | CCSworkspace/eZ430-RF2500_WSM_accel_spectra/Applications/main_ED.c:316-337 | the iterations that built a packet are increasing and distinct, so no slice is sent twice |
| AccelSpectra.EveryTickSends | CCSworkspace/eZ430-RF2500_WSM_accel_spectra/Applications/main_ED.c:316-337 | when the timer wakes every iteration, all three slots send in order |
| AccelSpectra.FirstSlotSent | CCSworkspace/eZ430-RF2500_WSM_accel_spectra/Applications/main_ED.c:322-324 | a burst started with the semaphore raised sends slot 0, except when the tick wraps 255 to 0 |
| AccelSpectra.BurstFrames | CCSworkspace/eZ430-RF2500_WSM_accel_spectra/Applications/main_ED.c:316-337 | one packet per building iteration |
| AccelSpectra.BurstFrameAt | CCSworkspace/eZ430-RF2500_WSM_accel_spectra/Applications/main_ED.c:326-331 | packet j has type 0, missed-acks 0, the axis, seqno j+1 and the slice of its slot |
| AccelSpectra.BurstSlotStep | CCSworkspace/eZ430-RF2500_WSM_accel_spectra/Applications/main_ED.c:318-336 | one loop iteration matches one reference `BurstStep` |
| AccelSpectra.SendSlot | CCSworkspace/eZ430-RF2500_WSM_accel_spectra/Applications/main_ED.c:326-333 | a slot sends exactly its frame best effort, leaving the semaphore and `missedAcks` unchanged |
| AccelSpectra.BurstStart | CCSworkspace/eZ430-RF2500_WSM_accel_spectra/Applications/main_ED.c:305 | before the loop nothing has been sent and `seqno` is 1 |
| AccelSpectra.BurstIteration | CCSworkspace/eZ430-RF2500_WSM_accel_spectra/Applications/main_ED.c:317-336 | one iteration moves the device by `BurstStep` |
| AccelSpectra.SendMessage | CCSworkspace/eZ430-RF2500_WSM_accel_spectra/Applications/main_ED.c:303-338 | `sendMessage` leaves the semaphore and calls of the reference burst, and `missedAcks` unchanged |
| AccelSpectra.RunWake | CCSworkspace/eZ430-RF2500_WSM_accel_spectra/Applications/main_ED.c:264-301 | one `run` wake-up sends a burst and clears the semaphore iff it reached `MEASURE_GAP_SECS` (15) |
| AccelSpectra.FullBurstCarriesBuffer | CCSworkspace/eZ430-RF2500_WSM_accel_spectra/Applications/main_ED.c:316-337 | with a tick every second the 3 packets carry the whole buffer, in order, numbered 1 to 3 |
| SimpleifSpectra.Node.constructor | IARworkspace/simpleif_accel_spectra/Applications/main_ED.c:143 | the semaphore starts at 0 |
| SimpleifSpectra.MrfiSendsAt | IARworkspace/simpleif_accel_spectra/Applications/main_ED.c:300-315 | frame k is transmitted between a wake-up and idle/sleep, at positions 4k to 4k+3 |
| SimpleifSpectra.MrfiSendsSnoc | IARworkspace/simpleif_accel_spectra/Applications/main_ED.c:300-315 | one more frame appends its four calls |
| SimpleifSpectra.SendPacket | IARworkspace/simpleif_accel_spectra/Applications/main_ED.c:300-315 | `sendPacket` wakes the radio, transmits the packet, idles and sleeps |
| SimpleifSpectra.SendSlot | IARworkspace/simpleif_accel_spectra/Applications/main_ED.c:275-283 | slot i transmits the spectra frame of slice i from the device's own address (the intended source) |
| SimpleifSpectra.BurstSlotStep | IARworkspace/simpleif_accel_spectra/Applications/main_ED.c:267-286 | one loop iteration matches one reference `BurstStep` |
| SimpleifSpectra.BurstStart | IARworkspace/simpleif_accel_spectra/Applications/main_ED.c:253 | nothing sent at first, seqno 1 |
| SimpleifSpectra.BurstIteration | IARworkspace/simpleif_accel_spectra/Applications/main_ED.c:266-286 | one iteration moves the node by `BurstStep` |
| SimpleifSpectra.SendMessage | IARworkspace/simpleif_accel_spectra/Applications/main_ED.c:251-288 | `sendMessage` leaves the semaphore and radio calls of the reference burst |
| SimpleifSpectra.RunWake | IARworkspace/simpleif_accel_spectra/Applications/main_ED.c:212-249 | one `run` wake-up sends a burst and clears the semaphore iff it reached 15 |
| SimpleifSpectra.FullBurstOnAir | IARworkspace/simpleif_accel_spectra/Applications/main_ED.c:265-287 | with a tick every second, packet k on air is slice k with seqno k+1 from the device's own address (the intended source) |
| Spi.TransfersSnoc | IARworkspace/ez430-rf2500_wsm_accel_alarm/Applications/accel.c:163-185 | one event adds a transfer iff it is a byte shift; chip select is idle iff the last CS event was high |
| Spi.RegAccessShape | IARworkspace/ez430-rf2500_wsm_accel_alarm/Applications/accel.c:157-186 | `spiRegAccess` shifts exactly two bytes and leaves chip select high |
| Spi.SpiBus.Transfer | IARworkspace/ez430-rf2500_wsm_accel_alarm/Applications/accel.c:167-182 | a transfer shifts one byte out and returns the oracle byte shifted in |
| Spi.SpiRegAccess | IARworkspace/ez430-rf2500_wsm/Applications/accel.c:148-186 | CS high, CS low, address byte, value byte, CS high; the result is the byte received on the second transfer |
| AccelAlarm.AddrBytes | IARworkspace/ez430-rf2500_wsm_accel_alarm/Applications/accel.c:107-135 | a read address byte has the read bit, not the burst bit, and the address; a write address has the read bit clear |
| AccelAlarm.CmdStrobe | IARworkspace/ez430-rf2500_wsm_accel_alarm/Applications/accel.c:62-94 | one byte between CS low and high; returns the byte received |
| AccelAlarm.ReadReg | IARworkspace/ez430-rf2500_wsm_accel_alarm/Applications/accel.c:107-116 | sends the address with the read bit 0x80 set, then the dummy byte, returning the byte received on the second transfer |
| AccelAlarm.WriteReg | IARworkspace/ez430-rf2500_wsm_accel_alarm/Applications/accel.c:130-135 | sends the address unchanged, then the value |
| AccelAlarm.InitWrite | IARworkspace/ez430-rf2500_wsm_accel_alarm/Applications/accel.c:41-48 | each init write shifts two bytes and leaves CS high |
| AccelAlarm.Init | IARworkspace/ez430-rf2500_wsm_accel_alarm/Applications/accel.c:21-49 | `accelInit` writes its eight register/value pairs in order: 16 transfers, CS high at the end |
| AccelAlarm.Pack16RoundTrip | IARworkspace/ez430-rf2500_wsm_accel_alarm/Applications/accel.c:233-239 | the low byte of a packed sample is the first byte read and the high byte the second |
| AccelAlarm.Top8IsBits9To2 | IARworkspace/ez430-rf2500_wsm_accel_alarm/Applications/accel.c:366-373 | the packed byte is bits 9..2 of the 10-bit sample |
| AccelAlarm.ReadSample16 | IARworkspace/ez430-rf2500_wsm_accel_alarm/Applications/accel.c:224-241 | one `accelSpiReadData` sample: burst read of two bytes, packed low first |
| AccelAlarm.ReadData | IARworkspace/ez430-rf2500_wsm_accel_alarm/Applications/accel.c:205-246 | `buf[i]` = lsb + 256·msb for i < samples, nothing else changes, 3 transfers per sample |
| AccelAlarm.ReadSample8 | IARworkspace/ez430-rf2500_wsm_accel_alarm/Applications/accel.c:280-291 | one `accelSpiReadDataBytes` sample: read bit only, one byte |
| AccelAlarm.ReadDataBytes | IARworkspace/ez430-rf2500_wsm_accel_alarm/Applications/accel.c:261-296 | `buf[i]` is the byte read after the address with the read bit set, for i < samples, nothing else changes |
| AccelAlarm.ReadIntSource | IARworkspace/ez430-rf2500_wsm_accel_alarm/Applications/accel.c:341-351 | one poll reads `INT_SOURCE` and returns its value |
| AccelAlarm.WaitDataReady | IARworkspace/ez430-rf2500_wsm_accel_alarm/Applications/accel.c:340-354 | the wait polls until `DATA_READY`: every earlier poll lacked it, the last had it |
| AccelAlarm.ReadSample2 | IARworkspace/ez430-rf2500_wsm_accel_alarm/Applications/accel.c:338-375 | a sample is read only after a poll shows `DATA_READY`, and stores bits 9..2 |
| AccelAlarm.SamplesOkAt | IARworkspace/ez430-rf2500_wsm_accel_alarm/Applications/accel.c:334-376 | every stored sample was read right after a complete wait |
| AccelAlarm.SampleSnoc | IARworkspace/ez430-rf2500_wsm_accel_alarm/Applications/accel.c:334-376 | appending one sample extends the run's events and validity |
| AccelAlarm.StoreSample2 | IARworkspace/ez430-rf2500_wsm_accel_alarm/Applications/accel.c:358-373 | one loop iteration stores sample i in `buf[i]` and no later cell |
| AccelAlarm.ReadDataBytes2 | IARworkspace/ez430-rf2500_wsm_accel_alarm/Applications/accel.c:311-380 | every `buf[i]`, i < samples, is bits 9..2 of a sample read after `DATA_READY`; nothing else changes |
| AccelWsm.ReadAddrBytes | IARworkspace/ez430-rf2500_wsm/Applications/accel.c:105-114 | every address the read check admits keeps its 6 bits and gains both the read and the burst bit |
| AccelWsm.CmdStrobe | IARworkspace/ez430-rf2500_wsm/Applications/accel.c:63-92 | only 0x30..0x3D pass; one byte between CS low and high |
| AccelWsm.ReadReg | IARworkspace/ez430-rf2500_wsm/Applications/accel.c:105-114 | sends the address with the burst bit 0x40 and the read bit 0x80 set, then the dummy byte; returns the second byte received |
| AccelWsm.WriteRegAsWritten | IARworkspace/ez430-rf2500_wsm/Applications/accel.c:128-133 | callable only for the addresses the assertion admits as written (at most 0x2E, or 0x3E); the address byte goes out unchanged, followed by the value |
| AccelWsm.WriteAddrBits | IARworkspace/ez430-rf2500_wsm/Applications/accel.c:130-132 | every admitted write address has both top bits clear |
| AccelWsm.InitWriteRejected | IARworkspace/ez430-rf2500_wsm/Applications/accel.c:44-49 | the `INT_MAP` write of `accelInit` fails the address assertion as written, while the five writes before it pass |
| AccelWsm.Init | IARworkspace/ez430-rf2500_wsm/Applications/accel.c:21-50 | CS made an output and driven high, then the six writes in order: 12 transfers, CS high at the end |
| RandomAddress.HighMask | IARworkspace/ez430-rf2500_wsm/Applications/main_ED.c:476 | `rand & 0xFF00` is the high byte times 256 |
| RandomAddress.RejectedIffHighByte | IARworkspace/ez430-rf2500_wsm/Applications/main_ED.c:472-476 | a word is rejected iff its high byte is 0x00 or 0xFF |
| RandomAddress.AddressBytes | IARworkspace/ez430-rf2500_wsm/Applications/main_ED.c:485-488 | the address is 4 bytes |
| RandomAddress.AddressBytesRoundTrip | IARworkspace/ez430-rf2500_wsm/Applications/main_ED.c:485-488 | the address holds both words big-endian, and its first byte is neither 0x00 nor 0xFF once accepted |
| RandomAddress.CreateRandomAddress | IARworkspace/ez430-rf2500_wsm/Applications/main_ED.c:469-492 | every draw before the accepted one is rejected; the accepted word and the next are written big-endian |
| SampleFlash.SegAddress | CCSworkspace/eZ430-RF2500_WSM_mag/Applications/flash.c:39-43 | `segAddress(s)` = 0x8000 + 512·s for s < 32 |
| SampleFlash.SegmentsLayout | CCSworkspace/eZ430-RF2500_WSM_mag/Applications/flash.c:39-43 | the segments are disjoint, 512 bytes apart, inside [0x8000, 0xC000) |
| SampleFlash.SegAddressWraps | CCSworkspace/eZ430-RF2500_WSM_mag/Applications/flash.c:39-43 | the 16-bit computation wraps: segment s + 128 names the same address as s |
| SampleFlash.SampleIndexBijective | CCSworkspace/eZ430-RF2500_WSM_mag/Applications/flash.c:118-149 | (segno, i) ↦ segno·512 + i is a bijection onto 0..16383 |
| SampleFlash.SampleStore.SaveSample | CCSworkspace/eZ430-RF2500_WSM_mag/Applications/flash.c:76-79 | `saveSample` changes exactly one byte |
| SampleFlash.SampleStore.ReadSample | CCSworkspace/eZ430-RF2500_WSM_mag/Applications/flash.c:88-91 | `readSample` returns the stored byte |
| SampleFlash.SaveThenRead | CCSworkspace/flashtest/Applications/flash.c:61-76 | reading a saved sample gives the value, and other indices keep theirs |
| MagFlash.Trim | CCSworkspace/eZ430-RF2500_WSM_mag/Applications/flash.c:146 | the stored byte is the reading divided by 4 |
| MagFlash.TrimKeepsTop8 | CCSworkspace/eZ430-RF2500_WSM_mag/Applications/flash.c:146 | the stored byte is the top 8 of the 10 bits |
| MagFlash.OneSpectrum | CCSworkspace/eZ430-RF2500_WSM_mag/Applications/flash.c:101-194 | conversion k ends up at index k, trimmed, for every k < 16384 |
| MagFlash.NumPacketsFit | CCSworkspace/eZ430-RF2500_WSM_mag/Applications/flash.c:25-27 | `NUM_PACKETS` packets of `REAL_PAYLOAD_SIZE` fit the buffer, and one more would not |
| MagFlash.MagHeader | CCSworkspace/eZ430-RF2500_WSM_mag/Applications/flash.c:209-212 | the header is 4 bytes |
| MagFlash.MagHeaderFields | CCSworkspace/eZ430-RF2500_WSM_mag/Applications/flash.c:209-212 | type 1, missed-acks 0, seqno 0 |
| MagFlash.OffIsProduct | CCSworkspace/eZ430-RF2500_WSM_mag/Applications/flash.c:216 | the packet start by repeated addition is `r * i` |
| MagFlash.OffMono | CCSworkspace/eZ430-RF2500_WSM_mag/Applications/flash.c:214-216 | later packets start no earlier |
| MagFlash.TransmitReadsPastBuffer | CCSworkspace/eZ430-RF2500_WSM_mag/Applications/flash.c:214-217 | with payload 50 the loop as written reads index 16384 at packet 46, byte 8 |
| MagFlash.FillAsWritten | CCSworkspace/eZ430-RF2500_WSM_mag/Applications/flash.c:215-217 | as written, bytes 4..r-1 are read from `base + j` |
| MagFlash.StridePacketAsWritten | CCSworkspace/eZ430-RF2500_WSM_mag/Applications/flash.c:214-217 | as written, packet i reads from `NUM_PACKETS * i` |
| MagFlash.StrideLoopAsWritten | CCSworkspace/eZ430-RF2500_WSM_mag/Applications/flash.c:214-219 | as written, only the last packet's bytes remain in `msg` |
| MagFlash.TransmitSpectrumAsWritten | CCSworkspace/eZ430-RF2500_WSM_mag/Applications/flash.c:196-220 | as written, the header is right; bytes 4..45 hold the last packet's reads; bytes 46.. are never written |
| MagFlash.MagPacket | CCSworkspace/eZ430-RF2500_WSM_mag/Applications/flash.c:214-218 | the intended packet is header + r bytes |
| MagFlash.PacketizedSnoc | CCSworkspace/eZ430-RF2500_WSM_mag/Applications/flash.c:214-219 | appending the next intended packet keeps the list intended |
| MagFlash.MagPacketsCover | CCSworkspace/eZ430-RF2500_WSM_mag/Applications/flash.c:214-219 | the intended packets carry the buffer in order, without gaps |
| MagFlash.TransmitCoversBuffer | CCSworkspace/eZ430-RF2500_WSM_mag/Applications/flash.c:196-220 | sending `NUM_PACKETS` intended packets covers all but the last `16384 % r` bytes |
| MagFlash.FillPacket | CCSworkspace/eZ430-RF2500_WSM_mag/Applications/flash.c:215-217 | intended inner loop: `msg[4 + j]` = `buf[base + j]`, header kept |
| MagFlash.PacketBound | CCSworkspace/eZ430-RF2500_WSM_mag/Applications/flash.c:214 | packet i of n lies inside the buffer |
| MagFlash.PacketLoop | CCSworkspace/eZ430-RF2500_WSM_mag/Applications/flash.c:214-219 | intended loop: packet i holds bytes r·i .. r·i + r − 1 |
| MagFlash.TransmitSpectrum | CCSworkspace/eZ430-RF2500_WSM_mag/Applications/flash.c:196-220 | intended `transmitSpectrum`: `NUM_PACKETS` packets carrying the buffer in order |
| FlashTest.PatternOfSegmentByte | CCSworkspace/flashtest/Applications/flash.c:110-134 | `(unsigned char) i` stored at segno·512 + i equals the verify phase's `i & 0xff` |
| FlashTest.WritePhase | CCSworkspace/flashtest/Applications/flash.c:96-124 | every index 0..16383 holds its pattern after the write phase |
| FlashTest.VerifySegment | CCSworkspace/flashtest/Applications/flash.c:132-140 | checking one segment keeps the error/location invariant |
| FlashTest.VerifyPhase | CCSworkspace/flashtest/Applications/flash.c:126-149 | `error` = 0 iff every byte matches; if 1, (`seg`, `sbval`) is the last mismatch and `isval` the byte read there |
| FlashTest.FlashTest | CCSworkspace/flashtest/Applications/flash.c:86-151 | after write then verify, `error`, `seg`, `sbval` and `isval` are all 0 |
| Settings.Bump | IARworkspace/flashtest/Applications/main_ED.c:160-161 | a pass increments `variable1` and decrements `variable2` mod 256, others unchanged |
| Settings.BumpNMoves | IARworkspace/flashtest/Applications/main_ED.c:148-167 | after k passes `variable1` is +k and `variable2` −k mod 256; the other seven are unchanged |
| Settings.BumpPeriod | IARworkspace/flashtest/Applications/main_ED.c:148-167 | after any multiple of 256 passes the settings are back where they started |
| Settings.BumpKeepsSum | IARworkspace/flashtest/Applications/main_ED.c:160-161 | `variable1 + variable2` mod 256 is invariant |
| Settings.Store.constructor | IARworkspace/flashtest/Applications/main_ED.c:46-54 | the locals start at 0 |
| Settings.Store.SaveSettings | IARworkspace/flashtest/Applications/main_ED.c:90-104 | each persistent variable takes its local value |
| Settings.Store.LoadSettings | IARworkspace/flashtest/Applications/main_ED.c:113-124 | each local variable takes its persistent value |
| Settings.Store.MainLoopIteration | IARworkspace/flashtest/Applications/main_ED.c:154-164 | one pass: flash becomes `Bump(flash)`, locals equal it |
| Settings.SaveThenLoad | IARworkspace/flashtest/Applications/main_ED.c:90-124 | save then load leaves the locals as they were |
| Settings.LoadThenSave | IARworkspace/flashtest/Applications/main_ED.c:90-124 | load then save leaves the flash as it was |
| Settings.RunLoop | IARworkspace/flashtest/Applications/main_ED.c:148-167 | k passes leave `BumpN(flash, k)` in both copies |

## Left out

- Interrupt service routines and low-power sleep are not modelled as code. A timer tick or a radio wake-up is a boolean input for each wake-up, and the `uint8_t` increment the timer ISR performs is part of `Wsm.Wake`, `AccelSpectra.Raised` and `Simpleif.Hub.TimerTick`.
- The SimpliciTI and MRFI stacks are outside the sources modelled. `SMPL_SendOpt` and `SMPL_Ping` return statuses from input functions, and each call is appended to a log. The result of `MRFI_Transmit` only lights an LED, so it is not modelled.
- LEDs, busy-wait delays, clock calibration, port and timer set-up, and the flash controller registers are hardware programming with no effect on the values modelled. This covers `flashInit`, `flashEraseSegment`, `FLASH_UNLOCK`/`FLASH_LOCK` and the block-write variant of `oneSpectrum`. A segment erase before a write is therefore not modelled.
- ADC10 conversions, the bytes the accelerometer shifts back over SPI and the VLO random words are inputs. `BSP_ASSERT` conditions become preconditions.
- The serial output of the access point (`transmitData` and its formatting) becomes `Simpleif.Report` entries holding the bytes it would format.
- The join, link and initialisation sequences of `main` (`SMPL_Init`, `SMPL_Link`, `SMPL_Join`, `BSP_Init`) are not modelled. The model starts with the state they leave.
- `getField` is called only from line 327 of the cables_broken end device, which is commented out, so it is not modelled. `sendField` and `getFieldDTC` are dead code too (the `sendField` call at line 328 is commented out and nothing calls `getFieldDTC`), but their logic is modelled. Every `sendPacket` call in the demos passes `ackflag` 0 (IARworkspace/ez430-rf2500_wsm/Applications/main_ED.c:341, IARworkspace/ez430-rf2500_wsm_cables_broken/Applications/main_ED.c:353 and :400, CCSworkspace/eZ430-RF2500_WSM_accel_spectra/Applications/main_ED.c:333), so `sendWithAckReq` and its retry loop are unreachable as built; `AckRetry` models them for the code as written. Nothing calls `createRandomAddress` (IARworkspace/ez430-rf2500_wsm/Applications/main_ED.c:469-492); `RandomAddress` models it all the same. The Y and Z axes of the spectra demos are likewise unused. The accelerometer read that fills the spectra buffer before `sendMessage` is a parameter of `AccelSpectra.RunWake` and `SimpleifSpectra.RunWake`.
- The `memset` at the start of `getFieldDTC` (line 441) clears `MAG_BUFFER_LEN` = 6 bytes, only half of the 12-byte `dtcbuf`. It is not modelled: `CablesBroken.GetFieldDtc` follows the DTC block layout, not the buffer contents, and the DTC transfers overwrite every sample.
- The 32-bit `seqno` of `run` is an unbounded `nat`. Only its low 16 bits reach a packet, and that truncation is modelled.
- AckRetry.Device.SendWithAckReq: under `FREQUENCY_AGILITY` the C loop only ends at a ping that fails, so the model takes a ghost `stop`, a ping index whose answer is not `SMPL_SUCCESS`. Endless runs are not modelled.
- AckRetry.Device.RetryRounds, AckRetry.Device.RoundThenPing, AckRetry.Device.SendPacket: the same ghost `stop` as `SendWithAckReq`.
- AccelAlarm.WaitDataReady: the wait ends only if `DATA_READY` eventually comes, so it requires `EventuallyReady`. A sensor that never becomes ready is not modelled.
- AccelAlarm.ReadDataBytes2: requires `DATA_READY` to eventually come for every wait, for the same reason.
- RandomAddress.CreateRandomAddress: the do-while loop ends only if some VLO word is acceptable, so the model requires one at a ghost index `bound`.
- MagFlash.TransmitSpectrumAsWritten: requires that the reads stay inside `samplebuf`, which the C code does not check. `MagFlash.TransmitReadsPastBuffer` shows the 50-byte payload violates it.
- CablesBroken.GetFieldDtc: assumes the six channels fit 0x7FFF samples, so the 16-bit `bufoffset` never wraps.
- CablesBroken.Run: states the calls made, not the final value of `sMeasureSem`. With a period of 1 every wake-up sends, whatever that value is.
- SimpleifSpectra.SendMessage, SimpleifSpectra.SendSlot, SimpleifSpectra.RunWake: require `MAX_APP_PAYLOAD` below 256, the range of `buildPayload`'s `uint8_t` length.
- SimpleifSpectra.SendSlot, SimpleifSpectra.BurstIteration, SimpleifSpectra.SendMessage, SimpleifSpectra.RunWake, SimpleifSpectra.FullBurstOnAir, Simpleif.SampleAndSendIteration, Simpleif.SampleAndSend: send from the device's own address, the intended source. As written, `buildPayload` (IARworkspace/simpleif_accel_spectra/Applications/main_ED.c:291-297 and IARworkspace/simpleif/Applications/main_ED.c:188-194) copies it through the NULL `sMyAddr`; see the last row of Findings.
- Mrfi.BuildPayload: requires the device's own address to be `MRFI_ADDR_SIZE` bytes. This is the intended behaviour. The code as written copies from the NULL `sMyAddr`, which is modelled by `Mrfi.BuildPayloadAsWritten`.
- MagFlash.FillAsWritten, MagFlash.StridePacketAsWritten, MagFlash.StrideLoopAsWritten, MagFlash.FillPacket, MagFlash.PacketLoop, MagFlash.TransmitSpectrum: assume the stack buffer `msg` is a different object from `samplebuf`, which C guarantees for a local array.
- The `segAddress` result is only used by the erase routine, which is not modelled. Its 16-bit wrap is stated (`SampleFlash.SegAddress`, `SampleFlash.SegAddressWraps`) but nothing writes through it.

## Findings

| source | as written | input that shows it | evidently intended | confidence | as-written member | corrected member |
|---|---|---|---|---|---|---|
| IARworkspace/ez430-rf2500_wsm_cables_broken/Applications/main_ED.c:350 | `((seqno++ & 0x1f) << 3) & (i & 0x7)`: the two operands occupy disjoint bits, so the header byte is always 0 | seqno 1, channel 1 gives 0 instead of 0x09 | a bitwise OR in place of the AND: sequence number in bits 7..3, channel in bits 2..0 | not executed | CablesBroken.FieldHeaderAsWrittenIsZero | CablesBroken.FieldHeader |
| IARworkspace/ez430-rf2500_wsm_cables_broken/Applications/main_ED.c:351 | `memcpy` of 48 bytes from `buf + i * NUM_MAG_SAMPLES`, while `dtcbuf` is 12 bytes long | any channel: two memories with the same `dtcbuf` but different bytes after it give different packets | copy the channel's own `2 * NUM_MAG_SAMPLES` bytes after the header; the packet stays `sizeof(msg)` = 50 bytes and its other bytes keep what `msg` held | not executed | CablesBroken.FieldFrameReadsPastBuffer | CablesBroken.FieldPayloadsCover |
| IARworkspace/ez430-rf2500_wsm/Applications/accel.c:49 | `accelInit` writes `INT_MAP` (0x2F), which `accelSpiWriteReg`'s assertion at line 130 (address at most 0x2E or 0x3E) rejects | the sixth write of `accelInit`, address 0x2F | check against the accelerometer's register range, up to 0x39 | not executed | AccelWsm.InitWriteRejected | AccelWsm.Init |
| CCSworkspace/eZ430-RF2500_WSM_mag/Applications/flash.c:216 | read index `NUM_PACKETS * i + j` | `MAX_APP_PAYLOAD` 50, packet 46, byte 8 reads index 16384, past `samplebuf` | stride `REAL_PAYLOAD_SIZE * i` from the start of the data | not executed | MagFlash.TransmitReadsPastBuffer | MagFlash.TransmitCoversBuffer |
| IARworkspace/simpleif/Applications/main_ED.c:188 | `sMyAddr` is NULL and never set, so `buildPayload` copies the source address from data memory 0x0000-0x0003; the same holds at IARworkspace/simpleif_accel_spectra/Applications/main_ED.c:291 | two end devices with addresses 01 02 03 04 and 05 06 07 08 send the same source address, so one of them is named wrongly | copy the device's own address | not executed | Mrfi.BuildersDisagree | Mrfi.BuildPayload |
