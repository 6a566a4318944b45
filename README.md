# Bit-banged SPI master engine, modelled and verified in Dafny

This project models the software SPI master in `Src/spi.c` and `Inc/spi.h`. The engine runs
SPI mode 0 (clock polarity 0, clock phase 0) by toggling four general-purpose pins: clock
(`sck`), data out (`mosi`), data in (`miso`) and slave select (`ss`). It does so through
three injected primitives, `set_pin_high`, `set_pin_low` and `read_pin`.

- `spi_init` stores the configuration, clears the counters and the completion flag, and drives
  clock low, select high and data out low.
- `spi_transmit_bit` makes one clock pulse that latches a bit on data out.
- `spi_receive_bit` makes a second, separate clock pulse and then samples data in.
- `spi_transfer_byte` asserts select, runs bits 7 down to 0 (a transmit, then a receive, for
  each), ORs each sampled bit into the result, and deasserts select.
- `spi_transaction` refuses a length over `SPI_MAX_BUFFER_SIZE` (256) before touching any pin.
  Otherwise it transfers `tx_data[i]` into `rx_data[i]` for each index in order.

The model has these modules:

- `SpiTypes` (`spi_types.dfy`): the header's constants, `SpiConfig`, and the `SpiContext`
  class.
- `Pins` (`pins.dfy`): a recording pin bank, class `PinBank`. It replaces the three pin
  primitives. Every operation is appended to `trace`, and every value returned by a read is
  appended to `answers`. Reads come from a `ReadSource`: either `Scripted` (a script of
  values, then 0 once the script is used up) or `Loopback` (a wire from a driven pin). The
  source's default `read_pin`, which always returns 0, is `DefaultReads`. `levels` holds the
  level each pin is currently driven to. `Valid()` states that the levels agree with the
  trace and that a scripted bank answers from its script in order.
- `SpiSpec` (`spi_spec.dfy`): the pin-event trace of each operation (`InitTrace`,
  `TransmitTrace`, `ReceiveTrace`, `BitLoopTrace`, `ByteTrace`, `TransactionTrace`) and the
  byte assembled from raw reads (`Pack`), as pure functions, with the lemmas about `Pack`.
- `Spi` (`spi.dfy`): the engine as methods over a `SpiContext`, a `PinBank` and byte arrays.
  Each method is proved to extend the pin trace by exactly the `SpiSpec` trace and to produce
  the result that `Pack` gives from its reads.
- `SpiProperties` (`spi_properties.dfy`): properties of those traces. These cover the exact
  shape of a byte, event counts, MSB-first order on data out, mode-0 adjacency of edges and
  samples, line levels after each operation, and how transactions compose.
- `SpiScenarios` (`spi_scenarios.dfy`): whole sessions with the demonstration program's pin
  numbers. They cover default reads, a loopback wire, an in-place buffer, two transactions in
  a row, and an oversized length.

The transfer operations take the context without modifying it. Their frames name only the pin
bank and the result array, so repeated transactions see the same context. The result array
may be the data array itself, or an array separate from it. The contracts that promise the data is
unchanged are guarded by `txData != rxData`, and `SpiScenarios.InPlaceLoopbackSession` covers
the aliased case.

Behaviour of the code that a reader of a mode-0 master might not expect, modelled as written:

- A read returns a byte (`uint8_t`), which `spi_receive_bit` compares with zero. It is not a
  boolean level.
- `spi_transaction` reports an oversized length by returning `false`. It has no error value.
- Neither `spi_transaction` nor any other operation sets `transmission_complete` or touches
  `tx_length`, `rx_length` or `current_bit`. Only `spi_init` clears them.
- After each byte the clock rests high, not at its idle level low (`SpiProperties.ByteEndLevels`).
  Each bit has two clock pulses (`SpiProperties.BitTraceCounts`), as written.

## Model

| member | source | states |
|---|---|---|
| SpiTypes.SpiContext.constructor | Inc/spi.h:22-30 | a context holds a configuration, the three counters and the flag, and two distinct buffers of exactly 256 bytes each |
| Pins.PinBank.constructor | Src/spi.c:6-20 | a fresh pin bank has an empty trace, no reads, no driven pins and a chosen read source |
| Pins.PinBank.SetHigh | Src/spi.c:7-10 | set_pin_high appends High(p) to the trace and records p as driven high, nothing else changes |
| Pins.PinBank.SetLow | Src/spi.c:12-15 | set_pin_low appends Low(p) to the trace and records p as driven low, nothing else changes |
| Pins.PinBank.ReadPin | Src/spi.c:17-20 | read_pin appends Read(p), and returns and records the next script value (0 once the script is exhausted, the default binding) or the level of the loopback pin |
| Pins.LastLevelIsLastDriven | Src/spi.c:7-15 | the current level of a pin is the last level the trace drove it to, and low if it was never driven |
| Pins.LastLevelSnoc | Src/spi.c:7-15 | a write to p sets p's level, and any other event leaves it |
| Pins.DrivenLevelsAppend | Src/spi.c:7-15 | the levels driven on a pin by two traces in a row are the levels of the first followed by those of the second |
| Pins.CountAppend | Src/spi.c:7-20 | event counts add up over concatenated traces |
| Pins.CountOnAppend | Src/spi.c:7-20 | per-pin event counts add up over concatenated traces |
| SpiSpec.MaskValues | Src/spi.c:73 | the mask of bit k is 1 << k, the eight values 0x01 to 0x80 |
| SpiSpec.OrBit | Src/spi.c:75 | a bit of x OR y is set iff it is set in x or in y |
| SpiSpec.MaskBit | Src/spi.c:73-75 | the mask of bit j has bit k set iff j = k |
| SpiSpec.PackSnoc | Src/spi.c:74-76 | one more read, at bit position 7 - (reads so far), ORs in that bit iff the read is nonzero |
| SpiSpec.PackSnocBit | Src/spi.c:74-76 | after one more read bit k is set iff it was set before, or this read is read 7 - k and nonzero |
| SpiSpec.PackBits | Src/spi.c:68-77 | bit k of the assembled byte is set iff read 7 - k happened and was nonzero; every other bit is clear |
| SpiSpec.BitsDetermine | Src/spi.c:68-77 | two bytes with the same eight bits are equal |
| SpiSpec.PackZeros | Src/spi.c:17-20 | reads that all return 0, as the default read_pin does, assemble the byte 0 |
| SpiSpec.PackLoopback | Src/spi.c:72-76 | reads echoing the transmitted bits MSB first assemble exactly the transmitted byte |
| SpiSpec.LoopbackSamplesStep | Src/spi.c:72-76 | a loopback read of bit k extends the echoed samples of bits 7 down to k + 1 by that bit |
| SpiSpec.BitLoopStep | Src/spi.c:72-77 | iteration n of the bit loop appends the transmit and receive traces of bit 7 - n |
| SpiSpec.ByteLoopTracePrefix | Src/spi.c:87-89 | the trace of the first n transaction iterations depends only on the first n bytes |
| SpiSpec.TransactionTraceSnoc | Src/spi.c:87-89 | one more byte extends a transaction's trace by exactly that byte's trace |
| Spi.Init | Src/spi.c:30-40 | spi_init stores the configuration, zeroes tx_length, rx_length and current_bit, clears the flag, and emits exactly Low(sck), High(ss), Low(mosi) |
| Spi.TransmitBit | Src/spi.c:42-55 | spi_transmit_bit emits exactly Low(sck), then High(mosi) or Low(mosi) for the bit, then High(sck); it makes no read and leaves data out at the bit |
| Spi.ReceiveBit | Src/spi.c:57-65 | spi_receive_bit emits exactly Low(sck), High(sck), Read(miso), and returns true iff the value read is nonzero; a loopback read returns the level driven before the call |
| Spi.ExchangeBit | Src/spi.c:73-76 | one iteration of the byte loop: transmit bit k, then receive, with one new read; a loopback from data out reads back bit k |
| Spi.ShiftBits | Src/spi.c:72-77 | the loop emits the eight bit traces from bit 7 to bit 0, makes exactly eight reads, and returns the byte Pack assembles from them; a loopback reads back the bits of tx MSB first |
| Spi.TransferByte | Src/spi.c:67-82 | spi_transfer_byte emits ByteTrace (select low, the bit loop, select high) and returns Pack of its eight reads; under loopback it returns tx, and under the default reads it returns 0 |
| Spi.DefaultReadsLast | Src/spi.c:17-20 | with the default read_pin the byte assembled from the last eight reads is 0 |
| Spi.DefaultReadsZero | Src/spi.c:17-20 | with the default read_pin every byte of a transaction assembles to 0 |
| Spi.ByteReadsExtend | Src/spi.c:87-89 | eight more reads leave the reads of the earlier bytes as they were and are the reads of the next byte |
| Spi.TransferAt | Src/spi.c:88 | the loop body: rx_data[i] becomes the transfer of tx_data[i], no other result entry changes, and tx_data is untouched unless it is the result array |
| Spi.TransferNext | Src/spi.c:87-89 | one loop iteration takes the transaction state after i bytes to the state after i + 1 bytes |
| Spi.Transaction | Src/spi.c:84-92 | spi_transaction accepts iff length <= 256. A refusal has no pin activity and leaves rx_data as it was. An acceptance emits TransactionTrace of the data, makes 8 reads per byte, sets each rx_data[i] to the byte assembled from byte i's reads (tx_data[i] under loopback, 0 under the default reads), and leaves later entries and, when distinct, tx_data unchanged |
| SpiProperties.BitStream | Src/spi.c:72-73 | the bits a transaction sends: 8 per byte, bytes in index order, each MSB first |
| SpiProperties.BitLoopTraceSlices | Src/spi.c:72-77 | the bit loop's trace is six events per iteration, and iteration k is the transmit and receive of bit 7 - k |
| SpiProperties.ByteTraceShape | Src/spi.c:67-82 | a byte's trace has 50 events: Low(ss) first, High(ss) last, and in between, for k = 0 to 7, the bit trace of bit 7 - k |
| SpiProperties.CountCons | Src/spi.c:7-20 | counting over a trace that starts with one event |
| SpiProperties.CountThree | Src/spi.c:42-65 | the counts and driven levels of a three-event trace, as in a transmit or receive |
| SpiProperties.BitTraceCounts | Src/spi.c:42-65 | with distinct pins one bit has two rising and two falling clock edges, one sample of data in, one write of the bit to data out, and nothing on select |
| SpiProperties.CountAtMostCountOn | Src/spi.c:7-20 | an event never occurs more often than all events on its pin |
| SpiProperties.BitLoopCounts | Src/spi.c:72-77 | the first n iterations have 2n rising and 2n falling clock edges, n samples and no select events, and write bits 7 down to 8 - n to data out |
| SpiProperties.ByteTraceSplit | Src/spi.c:70-79 | counts over a byte's trace are the select events plus the bit loop's counts |
| SpiProperties.ByteTraceCounts | Src/spi.c:67-82 | with distinct pins a byte touches select exactly twice (one Low, one High), has 16 rising and 16 falling clock edges and 8 reads of data in, and writes the bits of tx MSB first to data out |
| SpiProperties.MosiOf0x55 | Src/spi.c:72-73 | the byte 0x55 puts 0, 1, 0, 1, 0, 1, 0, 1 on data out |
| SpiProperties.ByteTraceAt | Src/spi.c:72-77 | event r of iteration k is at position 1 + 6k + r of the byte's trace |
| SpiProperties.ByteTraceMode0At | Src/spi.c:42-65 | at each position of a byte's trace, a sample comes right after a rising clock edge, and a data-out write sits between a falling and a rising edge |
| SpiProperties.ByteTraceMode0 | Src/spi.c:42-65 | across a whole byte, data in is sampled only right after a rising edge, and data out changes only while the clock is low, right before it rises (mode 0, as in Inc/spi.h) |
| SpiProperties.InitIdleLevels | Src/spi.c:37-39 | after spi_init the clock is at its mode-0 idle level (low, clock polarity 0), select is high and data out is low, whatever happened before |
| SpiProperties.ByteEndLevels | Src/spi.c:70-79 | after spi_transfer_byte select is high and the clock rests high, not at its idle level |
| SpiProperties.TransactionTraceAppend | Src/spi.c:84-92 | sending a then b emits what sending a followed by b emits, and an empty transaction emits nothing |
| SpiProperties.TransactionTraceSlices | Src/spi.c:87-89 | an accepted n-byte transaction emits 50n events, and the i-th group of 50 is byte i's trace |
| SpiProperties.TransactionCounts | Src/spi.c:87-89 | with distinct pins an n-byte transaction touches select 2n times, has 16n rising and 16n falling clock edges and 8n reads, and sends BitStream of the data on data out |
| SpiProperties.TransactionEndLevels | Src/spi.c:84-92 | after a non-empty accepted transaction select is high and the clock rests high |
| SpiScenarios.NewArray | Src/spi.c:128 | a fresh array holds the given bytes |
| SpiScenarios.Open | Src/spi.c:116-126 | a fresh context and bank after spi_init with the demonstration pins: the trace is exactly the init trace |
| SpiScenarios.Send | Src/spi.c:84-92 | one transaction from fresh arrays: accepted iff within capacity, the data echoed under loopback, zeros under the default reads |
| SpiScenarios.DefaultReadsSession | Src/spi.c:107-133 | with the default read_pin every received byte is 0, and the trace is the init trace followed by 50 events per byte |
| SpiScenarios.LoopbackSession | Src/spi.c:127-133 | over a loopback wire the demonstration bytes 0x55, 0xAA, 0x12, 0x34 come back unchanged |
| SpiScenarios.InPlaceLoopbackSession | Src/spi.c:84-92 | with the data array also the result array, loopback overwrites each byte with itself |
| SpiScenarios.BackToBackSession | Src/spi.c:84-92 | two transactions on one context emit the init trace followed by the trace of both byte sequences, and leave clock and select high |
| SpiScenarios.OversizeSession | Src/spi.c:85 | a length of 300, expressible in uint16_t, is refused with no pin activity after init and the result array untouched |

## Left out

- `spi_delay` (Src/spi.c:23-28) is a busy-wait with no effect on the pins or the data, so it is modelled as doing nothing. The clock frequency only sizes that delay; it is the constant `ClockFrequency` and nothing else uses it.
- The default `set_pin_high` and `set_pin_low` print a message. That output is not modelled; the pin bank records the event instead. The default `read_pin` is kept only as `DefaultReads`.
- A real hardware binding, physical timing and electrical levels are not modelled. Reads come from a `ReadSource` given when the bank is created.
- `create_test_data`, `create_context` and `main` (Src/spi.c:94-160) are allocation wrappers and a demonstration program. Allocation lifetime, the leaks and the printing are not modelled. The demonstration's pins and data appear in `SpiScenarios`.
- `Spi.Transaction`: the data and result buffers are either the same array or disjoint arrays. Two C pointers that overlap at an offset (say `rx_data == tx_data + 1`, where each received byte overwrites the next byte to send) are not modelled. The caller must also supply at least `length` bytes in each buffer, so the unchecked out-of-bounds accesses of the C code for a short buffer are not modelled.
- The four pins are not required to differ, as in the source. Lemmas that need distinct pins say so in their preconditions (`PinsDistinct`, or the one inequality they use).
- `Spi.ExchangeBit`, `Spi.ShiftBits`, `Spi.TransferAt` and `Spi.TransferNext` are not separate functions in the source. They are the loop body and loop of `spi_transfer_byte`, and the loop body and one iteration of `spi_transaction`, split out so each proof stays small.
- Pin numbers are the integers 0 to 255 (`uint8_t`). Bytes and raw read values are `bv8`. The loop counters (`int8_t` from 7 down to -1, `uint16_t` up to at most 256) never wrap, so they are plain bounded integers.
