# TinyCLR port drivers in Dafny

A model of three peripheral drivers of the TinyCLR ports, each with the
properties its code promises proved about it:

- **LPC24 UART** (`Targets/LPC24/LPC24_USART.cpp`). Each port has a transmit
  ring and a receive ring of bytes, with Count/In/Out indices updated in
  place. The model covers:
  - `Write` and `Read`, which copy into and out of the rings;
  - the two halves of the port interrupt: `ReceiveData` fills the receive
    ring from the hardware FIFO, and `TransmitData` empties the transmit
    ring into THR;
  - the classification of line errors;
  - `SetActiveSettings`, which validates and encodes the baud rate, the
    data bits, the stop bits, the parity and the handshake;
  - `Acquire`, `Release`, `Flush` and `Reset`.

  Modules: `UartRing`, `UartLine`, `UartReceive`, `Lpc24Uart`.
- **STM32F4 GPIO** (`Targets/STM32F4/STM32F4_GPIO.cpp`). The model covers:
  - the per-pin reservation, drive-mode and debounce tables;
  - the 16 external interrupt lines, with their bindings in `g_int_state`,
    their owners in SYSCFG EXTICR, and their enable, pending and edge bits
    in EXTI;
  - the bit-field writes of `Pin_Config`;
  - the ISR's debounce rule;
  - the demultiplexers of the shared vectors for lines 5-9 and 10-15.

  Modules: `GpioRegisters`, `GpioLines`, `Stm32f4Gpio`.
- **AT91 I2C** (`Targets/AT91SAM9RL64/AT91_I2C.cpp`). The model covers:
  - the derivation of the TWI clock divisors from the bus speed and the
    peripheral clock;
  - the Read, Write and WriteRead master transactions, whose status waits
    each have a budget of 2000000 polls;
  - `Acquire` and `Release`.

  Modules: `I2cClock`, `At91I2c`.

`Hal` holds the shared result codes, the `Byte` type and a few arithmetic
facts.

**Common conventions**
- Each provider call and each interrupt is one atomic step.
- Register traffic is kept in the fields a driver reads back, or in a
  log of accesses, in order.
- Callbacks are an event log.
- Time is a parameter: a tick count `now`, a ticks-per-millisecond rate,
  and a count of polls for each status wait.
- Code whose source is not in these files is a parameter or a field. This
  covers the pin helpers, the clock controllers and the interrupt
  controllers.

## Model

| member | source | states |
|---|---|---|
| UartRing.Wrap | Targets/LPC24/LPC24_USART.cpp:169-170 | the driver's reset-to-0 at the end of the ring is the index modulo the ring size |
| UartRing.Window | Targets/LPC24/LPC24_USART.cpp:19-30 | the queued contents of a ring hold exactly `count` bytes |
| UartRing.WindowIsDoubledSlice | Targets/LPC24/LPC24_USART.cpp:582-590 | the queued contents equal the slice `[out, out + count)` of the buffer laid out twice, so reading from `out` with wrap-around visits the slots in ring order |
| UartRing.WindowPush | Targets/LPC24/LPC24_USART.cpp:616-624 | storing at the write index `(out + count) mod size` and counting one more appends exactly that byte to the queued contents |
| UartRing.WindowPop | Targets/LPC24/LPC24_USART.cpp:582-590 | the byte at `out` is the oldest queued one, and advancing `out` with wrap-around while counting one fewer removes exactly it |
| UartLine.ClassifyPicksHighestPriority | Targets/LPC24/LPC24_USART.cpp:229-238 | at most one error per LSR snapshot; none exactly when PE, FE, RXFE and OE are all clear; otherwise the error of highest priority among those present (parity 0x04, then framing 0x08 or 0x80, then overrun 0x02) |
| UartLine.Classify | Targets/LPC24/LPC24_USART.cpp:229-238 | no error exactly when none of the bits 0x8E (OE, PE, FE, RXFE) is set; an error found is always parity, framing or overrun, never ReceiveFull |
| UartLine.ErrorEvents | Targets/LPC24/LPC24_USART.cpp:140-143 | one error event exactly when a handler is registered and the snapshot has an error, and no event otherwise |
| UartLine.SetFieldValueWritesOnlyField | Targets/LPC24/LPC24_USART.cpp:49-55 | when the shifted value fits the mask, `setFieldValue` sets the masked bits to it and keeps every other bit |
| UartLine.Baud9600 | Targets/LPC24/LPC24_USART.cpp:334 | 9600 baud selects peripheral clock 0, FDR 0xC7 and divisor 0x4A |
| UartLine.FormulaDivisorIsLargestFit | Targets/LPC24/LPC24_USART.cpp:352-356 | a rate off the table uses FDR 0x10 and the divisor `clock / (baud * 16)`: the largest divisor whose `divisor * baud * 16` stays within the clock |
| UartLine.DivisorLatchRoundTrip | Targets/LPC24/LPC24_USART.cpp:364-365 | the DLL and DLM bytes together give back any 16-bit divisor |
| UartLine.WordLengthSelect | Targets/LPC24/LPC24_USART.cpp:372-376 | `dataBits - 5` fits the WLS field of LCR |
| UartReceive.Store | Targets/LPC24/LPC24_USART.cpp:158-173 | storing one byte either keeps the ring as it was or, for a clean byte while the ring is not full, appends exactly that byte; it raises at most one event |
| UartReceive.Drain | Targets/LPC24/LPC24_USART.cpp:155-187 | the corrected loop only appends: the queued bytes stay a prefix of the result, and a ring within capacity stays within capacity |
| UartReceive.StoreStep | Targets/LPC24/LPC24_USART.cpp:158-173 | one store: a byte with PE, OE or FE set is dropped silently; a clean byte is dropped with one ReceiveFull event (if a handler is registered) when the ring is full; otherwise it is appended, with one DataReceived(1) event (if a handler is registered) |
| UartReceive.ErrorEventsAreLineErrors | Targets/LPC24/LPC24_USART.cpp:176-186 | the error reported after the LSR refresh is never ReceiveFull or DataReceived |
| UartReceive.DrainKeepsPrefix | Targets/LPC24/LPC24_USART.cpp:155-187 | the drain loop keeps the queued bytes and appends as many accepted bytes as fit, in arrival order |
| UartReceive.DrainAnnouncesStored | Targets/LPC24/LPC24_USART.cpp:165-173 | the loop raises one DataReceived(1) per stored byte when a data handler is registered, and none otherwise |
| UartReceive.DrainAnnouncesDropped | Targets/LPC24/LPC24_USART.cpp:159-160 | the loop raises one ReceiveFull per accepted byte it could not store when an error handler is registered, and none otherwise |
| UartReceive.DrainIsBoundedFifo | Targets/LPC24/LPC24_USART.cpp:155-187 | the receive ring is a bounded FIFO that drops and never overwrites: the result is the old contents plus the first `min(room, accepted)` accepted bytes, with matching DataReceived and ReceiveFull counts |
| UartReceive.StepAsWritten | Targets/LPC24/LPC24_USART.cpp:156-186 | one iteration of the loop as written only appends to the ring and never takes it beyond capacity |
| UartReceive.DrainAsWritten | Targets/LPC24/LPC24_USART.cpp:155-187 | whenever the loop as written ends within the iteration bound, the queued bytes are a prefix of the result and a ring within capacity stays within capacity |
| UartReceive.AsWrittenSpinsWhenFull | Targets/LPC24/LPC24_USART.cpp:159-162 | the loop as written never ends once a clean byte meets a full ring while the entry snapshot shows data ready, whatever the FIFO holds and for any iteration bound |
| UartReceive.AsWrittenAgreesWithRoom | Targets/LPC24/LPC24_USART.cpp:155-187 | when the ring has room for every queued byte, the loop as written ends with exactly what the corrected loop computes |
| Lpc24Uart.UartController.constructor | Targets/LPC24/LPC24_USART.cpp:19-41 | a zero-initialised port: empty rings of the configured sizes, closed, no handshake, no handlers |
| Lpc24Uart.UartController.ErrorEvent | Targets/LPC24/LPC24_USART.cpp:140-143 | the error callback is delivered exactly when a handler is registered |
| Lpc24Uart.UartController.Acquire | Targets/LPC24/LPC24_USART.cpp:247-284 | ArgumentInvalid, changing nothing, for a port past the controller table; otherwise both rings are emptied and the port is powered |
| Lpc24Uart.UartController.Release | Targets/LPC24/LPC24_USART.cpp:468-522 | always Success, with both rings empty and the port closed, without handshake and unpowered; on an open port the interrupts and LCR are cleared, and auto flow control too when handshaking was on |
| Lpc24Uart.UartController.Write | Targets/LPC24/LPC24_USART.cpp:596-633 | NotAvailable when closed and Busy with one TransmitFull event when the ring is full, both leaving the ring and `length` unchanged; otherwise it appends exactly `min(room, length)` bytes in order, reports that count, and arms THRE iff it copied a byte |
| Lpc24Uart.UartController.Read | Targets/LPC24/LPC24_USART.cpp:571-594 | NotAvailable and nothing changed when closed; otherwise the oldest `min(count, length)` bytes are delivered in order and removed from the front of the ring |
| Lpc24Uart.UartController.ReceiveData | Targets/LPC24/LPC24_USART.cpp:145-190 | with RDA interrupts enabled and data signalled by LSR or IIR, the ring becomes what the corrected drain computes (old contents plus the accepted bytes that fit; see the first Findings row); otherwise nothing changes |
| Lpc24Uart.UartController.DrainFifo | Targets/LPC24/LPC24_USART.cpp:155-187 | the in-place loop over the ring array leaves the contents and the events that the corrected `Drain` defines (first Findings row) |
| Lpc24Uart.UartController.StoreReceived | Targets/LPC24/LPC24_USART.cpp:156-173 | one in-place store leaves the contents and events that `Store` defines |
| Lpc24Uart.UartController.TransmitData | Targets/LPC24/LPC24_USART.cpp:191-218 | on TEMT or THRE: with bytes queued, sends exactly the oldest one and removes it; with none, disables THRE and leaves the ring; otherwise nothing changes |
| Lpc24Uart.UartController.InterruptHandler | Targets/LPC24/LPC24_USART.cpp:220-244 | the entry snapshot's error is reported first, before any receive event; with RDA interrupts disabled, the receive ring is unchanged and only that error is logged |
| Lpc24Uart.UartController.TxBufferEmptyInterruptEnable | Targets/LPC24/LPC24_USART.cpp:524-536 | THREIE is set to the request, and enabling forces the port interrupt |
| Lpc24Uart.UartController.Flush | Targets/LPC24/LPC24_USART.cpp:555-569 | NotAvailable and nothing changed when closed; otherwise the transmit ring ends empty, with every queued byte sent in order |
| Lpc24Uart.UartController.ProgramBaudRate | Targets/LPC24/LPC24_USART.cpp:326-369 | the clock selection, DLL, DLM and FDR take the rate's configuration, and LCR and both interrupt enables are cleared |
| Lpc24Uart.UartController.EncodeLineFormat | Targets/LPC24/LPC24_USART.cpp:371-434 | accepts exactly the supported data-bit, stop-bit and parity combinations, and then leaves LCR as their encoding |
| Lpc24Uart.UartController.SetActiveSettings | Targets/LPC24/LPC24_USART.cpp:316-466 | Success iff the configuration is supported on the port; the baud registers are written in every case; NotSupported keeps the open, handshake, auto-flow and port-interrupt flags and leaves both interrupt enables cleared (they are cleared before validation); Success encodes LCR, enables auto flow for RequestToSend, arms both interrupts and opens the port |
| Lpc24Uart.UartController.ApplyLineSettings | Targets/LPC24/LPC24_USART.cpp:371-463 | the validation after the baud rate: accepts exactly the supported configurations, and only then opens the port; a rejection leaves the open, handshake, auto-flow and interrupt flags as they were |
| Lpc24Uart.UartController.ApplyHandshake | Targets/LPC24/LPC24_USART.cpp:436-448 | accepts exactly None, and RequestToSend on port 2 (no XOnXOff mode anywhere); RequestToSend sets auto RTS/CTS and the handshake flag; a rejection changes nothing |
| Lpc24Uart.UartController.EnableLine | Targets/LPC24/LPC24_USART.cpp:456-463 | the port interrupt is enabled, THRE and RDA are armed, and the port is open |
| Lpc24Uart.UartController.SetErrorReceivedHandler | Targets/LPC24/LPC24_USART.cpp:639-645 | registers or clears the error handler; always Success |
| Lpc24Uart.UartController.SetDataReceivedHandler | Targets/LPC24/LPC24_USART.cpp:647-653 | registers or clears the data handler; always Success |
| Lpc24Uart.Reset | Targets/LPC24/LPC24_USART.cpp:691-695 | every port of the table ends closed with both rings empty |
| GpioRegisters.LineOf | Targets/STM32F4/STM32F4_GPIO.cpp:215 | the bit number of a pin is below 16 |
| GpioRegisters.PortOf | Targets/STM32F4/STM32F4_GPIO.cpp:214 | the port number of a pin below 256 is below 16 |
| GpioRegisters.SetField2IsLocal | Targets/STM32F4/STM32F4_GPIO.cpp:217-218 | a clear-and-or of a pin's 2-bit field sets that field and leaves every other pin's field |
| GpioRegisters.SetNibbleIsLocal | Targets/STM32F4/STM32F4_GPIO.cpp:230-233 | a clear-and-or of a 4-bit slot sets that slot and leaves every other slot |
| GpioRegisters.SetBitIsLocal | Targets/STM32F4/STM32F4_GPIO.cpp:242-248 | setting or clearing a pin's bit changes that bit only |
| GpioRegisters.SameAfWord | Targets/STM32F4/STM32F4_GPIO.cpp:230-232 | two lines in the same AFR word share a slot only if they are the same line |
| GpioRegisters.SetAfSetsField | Targets/STM32F4/STM32F4_GPIO.cpp:240 | the AFR write sets the pin's alternate-function field |
| GpioRegisters.SetAfKeepsSameWord | Targets/STM32F4/STM32F4_GPIO.cpp:240 | the AFR write leaves the other fields of the same word |
| GpioRegisters.SetAfKeepsOtherWord | Targets/STM32F4/STM32F4_GPIO.cpp:240 | the AFR write leaves the other AFR word |
| GpioRegisters.PullCode | Targets/STM32F4/STM32F4_GPIO.cpp:219-224 | the pull code fits the 2-bit PUPDR field |
| GpioRegisters.PinConfigSetsModeFields | Targets/STM32F4/STM32F4_GPIO.cpp:237-239 | Pin_Config sets the pin's MODER, PUPDR and OSPEEDR (very high speed) fields and leaves every other pin's fields |
| GpioRegisters.PinConfigSetsOutputType | Targets/STM32F4/STM32F4_GPIO.cpp:242-248 | Pin_Config makes the pin open-drain iff bit 0 of `alternate` is set, leaves the other pins' output types, and never touches IDR or ODR |
| GpioRegisters.PinConfigSetsFunction | Targets/STM32F4/STM32F4_GPIO.cpp:233-240 | Pin_Config sets the pin's alternate function to bits 4-7 of `alternate` and leaves every other pin's |
| GpioRegisters.WriteLevelIsLocal | Targets/STM32F4/STM32F4_GPIO.cpp:313-318 | Write drives exactly the pin's ODR bit to the level, and changes no other register |
| GpioRegisters.OutputKeepsLevel | Targets/STM32F4/STM32F4_GPIO.cpp:382-384 | switching to Output first drives the level the pin was reading, then selects push-pull output mode without pull |
| GpioRegisters.InputSetsPull | Targets/STM32F4/STM32F4_GPIO.cpp:388-391 | switching to an input mode selects input mode with the mode's pull and leaves ODR |
| GpioRegisters.AlternateModeFits | Targets/STM32F4/STM32F4_GPIO.cpp:261-267 | the mode EnableAlternatePin selects fits MODER, and is analog or alternate whenever the low nibble of `alternate` is set |
| GpioRegisters.ExtiIndex | Targets/STM32F4/STM32F4_GPIO.cpp:156 | a line's EXTICR word index is below 4 |
| GpioRegisters.ExtiSlot | Targets/STM32F4/STM32F4_GPIO.cpp:155 | a line's slot in its EXTICR word is below 4 |
| GpioRegisters.MaskedMatchMeansNibble | Targets/STM32F4/STM32F4_GPIO.cpp:165 | the driver's masked comparison holds exactly when the line's EXTICR field names the port |
| GpioRegisters.ExtiClaim | Targets/STM32F4/STM32F4_GPIO.cpp:169 | the claimed EXTICR table keeps its four words |
| GpioRegisters.ExtiSlotsDiffer | Targets/STM32F4/STM32F4_GPIO.cpp:155-157 | distinct lines in one EXTICR word occupy distinct slots |
| GpioRegisters.ExtiClaimIsLocal | Targets/STM32F4/STM32F4_GPIO.cpp:169 | after the claim the pin's port owns its line, and every other line keeps its owner |
| GpioLines.Sub64 | Targets/STM32F4/STM32F4_GPIO.cpp:91 | the uint64 difference of tick counts is below 2^64 |
| GpioLines.IsrStep | Targets/STM32F4/STM32F4_GPIO.cpp:85-101 | the ISR samples the level; without a handler it dispatches nothing; with debounce 0 it always dispatches; otherwise it dispatches iff `now - last >= window`, moving the watermark only then |
| GpioLines.DebounceSuppressesBounce | Targets/STM32F4/STM32F4_GPIO.cpp:89-101 | after an edge dispatched at t1, an edge within the window is suppressed and keeps the watermark, and the next edge a full window after t1 is dispatched again |
| GpioLines.ElapsedAcrossWrap | Targets/STM32F4/STM32F4_GPIO.cpp:91 | the unsigned subtraction measures elapsed ticks across a wrap of the 64-bit counter |
| GpioLines.PendingLines | Targets/STM32F4/STM32F4_GPIO.cpp:134-139 | the serviced lines all lie in the vector's range |
| GpioLines.PendingLinesMembers | Targets/STM32F4/STM32F4_GPIO.cpp:134 | a line is serviced iff it lies in the range with both its PR and IMR bits set |
| GpioLines.PendingLinesAscending | Targets/STM32F4/STM32F4_GPIO.cpp:135-139 | lines are serviced in strictly ascending order, each at most once |
| GpioLines.DebounceRoundTrip | Targets/STM32F4/STM32F4_GPIO.cpp:407-416 | a window set in milliseconds reads back as the same milliseconds, and a window below 10000 ms reads back below 10000, so the int32 result never truncates |
| Stm32f4Gpio.LineNum | Targets/STM32F4/STM32F4_GPIO.cpp:153 | `pin & 0x0F` indexes the 16-line table |
| Stm32f4Gpio.LineEventsSnoc | Targets/STM32F4/STM32F4_GPIO.cpp:137 | servicing one more line appends exactly that line's handler calls |
| Stm32f4Gpio.ServicedLinesAt | Targets/STM32F4/STM32F4_GPIO.cpp:136-139 | a line's binding takes its ISR step iff the line lies in the serviced range and is pending and enabled; all other lines are unchanged |
| Stm32f4Gpio.RangeEventsAreLineEvents | Targets/STM32F4/STM32F4_GPIO.cpp:136-139 | the handler calls of a demultiplexer pass are those of the pending lines, in ascending order |
| Stm32f4Gpio.ClearedFlagsAt | Targets/STM32F4/STM32F4_GPIO.cpp:87 | exactly the pending and enabled lines of the range have their PR flags cleared |
| Stm32f4Gpio.GpioController.constructor | Targets/STM32F4/STM32F4_GPIO.cpp:37-40 | zeroed tables: no pin reserved, every mode Input, every window 0, every line idle and masked |
| Stm32f4Gpio.GpioController.AcquirePin | Targets/STM32F4/STM32F4_GPIO.cpp:323-338 | NotFound past the last pin, SharingViolation for a reserved pin, otherwise the pin alone becomes reserved |
| Stm32f4Gpio.GpioController.ReleasePin | Targets/STM32F4/STM32F4_GPIO.cpp:340-353 | NotFound and nothing changed past the last pin; otherwise only the pin's reservation is cleared and only its drive mode becomes Input, its port is reconfigured as SetDriveMode(Input) does (input mode with no pull), and its interrupt is disabled when its port owns the line |
| Stm32f4Gpio.GpioController.IsDriveModeSupported | Targets/STM32F4/STM32F4_GPIO.cpp:355-368 | true exactly for a pin below MaxPins in Output, Input, InputPullUp or InputPullDown; never for the open-drain or open-source modes |
| Stm32f4Gpio.GpioController.GetDriveMode | Targets/STM32F4/STM32F4_GPIO.cpp:370-372 | the recorded mode of a pin is always one IsDriveModeSupported accepts for it: the table starts at Input and only SetDriveMode and ReleasePin change it, each keeping every entry supported |
| Stm32f4Gpio.GpioController.ReacquireAfterRelease | Targets/STM32F4/STM32F4_GPIO.cpp:331-347 | Release and then Acquire of a pin in range both succeed, whatever the pin's state before |
| Stm32f4Gpio.GpioController.Read | Targets/STM32F4/STM32F4_GPIO.cpp:293-305 | ArgumentOutOfRange past the last pin; otherwise the pin's IDR bit |
| Stm32f4Gpio.GpioController.Write | Targets/STM32F4/STM32F4_GPIO.cpp:307-321 | ArgumentOutOfRange and nothing changed past the last pin; otherwise only the pin's ODR bit changes |
| Stm32f4Gpio.GpioController.PinConfigure | Targets/STM32F4/STM32F4_GPIO.cpp:213-249 | only the pin's own port changes, as `PinConfig` describes |
| Stm32f4Gpio.GpioController.DisableInterrupt | Targets/STM32F4/STM32F4_GPIO.cpp:195-209 | when the pin's port owns its line, the line is masked and its handler dropped; otherwise nothing changes; always true |
| Stm32f4Gpio.GpioController.EnableOutputPin | Targets/STM32F4/STM32F4_GPIO.cpp:278-286 | for a pin in range: the initial level is driven, then the pin is configured as a push-pull output and its interrupt is disabled; otherwise nothing changes |
| Stm32f4Gpio.GpioController.EnableInputPin | Targets/STM32F4/STM32F4_GPIO.cpp:288-291 | the pin becomes an input with the resistor's pull, and its interrupt is disabled when its port owns the line |
| Stm32f4Gpio.GpioController.SetDriveMode | Targets/STM32F4/STM32F4_GPIO.cpp:374-405 | NotFound past the last pin; NotSupported, changing nothing, for the open-drain and open-source modes; Success iff IsDriveModeSupported, then the mode is recorded and the port reconfigured |
| Stm32f4Gpio.GpioController.EnableAlternatePin | Targets/STM32F4/STM32F4_GPIO.cpp:259-276 | ArgumentOutOfRange and nothing changed past the last pin; otherwise the pin is configured in the selected mode and its interrupt is disabled |
| Stm32f4Gpio.GpioController.GetDebounceTimeout | Targets/STM32F4/STM32F4_GPIO.cpp:407-409 | the stored window in whole milliseconds, always below 10000 |
| Stm32f4Gpio.GpioController.SetDebounceTimeout | Targets/STM32F4/STM32F4_GPIO.cpp:411-421 | NotFound past the last pin; WrongType, changing nothing, outside 1..9999 ms; otherwise only the pin's window changes, to the converted ticks |
| Stm32f4Gpio.GpioController.HookLine | Targets/STM32F4/STM32F4_GPIO.cpp:165-187 | routes the line to the pin's port unless it already is, binds the pin, handler, debounce snapshot and watermark, arms both edges, clears the pending flag and enables the line |
| Stm32f4Gpio.GpioController.SetValueChangedHandler | Targets/STM32F4/STM32F4_GPIO.cpp:152-194 | with a handler: SharingViolation, changing nothing, iff another port owns the enabled line; otherwise the line is bound and enabled. Without one: the line is masked and unbound only when the pin's port owns it |
| Stm32f4Gpio.GpioController.ClearPending | Targets/STM32F4/STM32F4_GPIO.cpp:183-185 | the re-check loop ends with the line's pending flag cleared, whatever number of re-latches occurs |
| Stm32f4Gpio.GpioController.Isr | Targets/STM32F4/STM32F4_GPIO.cpp:73-105 | the line's binding and the handler log change as `IsrStep` defines, and the pending flag is cleared |
| Stm32f4Gpio.GpioController.ServiceLine | Targets/STM32F4/STM32F4_GPIO.cpp:137-138 | one step of the demultiplexer extends the serviced range by one line |
| Stm32f4Gpio.GpioController.Service | Targets/STM32F4/STM32F4_GPIO.cpp:132-150 | runs the ISR exactly for the pending and enabled lines of the range, in ascending order, clearing exactly their flags and logging their handler calls in that order |
| Stm32f4Gpio.GpioController.Interrupt5 | Targets/STM32F4/STM32F4_GPIO.cpp:132-140 | the above for lines 5 to 9 |
| Stm32f4Gpio.GpioController.Interrupt10 | Targets/STM32F4/STM32F4_GPIO.cpp:142-150 | the above for lines 10 to 15 |
| Stm32f4Gpio.GpioController.Reset | Targets/STM32F4/STM32F4_GPIO.cpp:427-434 | every reservation is dropped, every pin's window is the 20 ms default, and every line is masked |
| I2cClock.RateKhz | Targets/AT91SAM9RL64/AT91_I2C.cpp:215-220 | a rate exists exactly for FastMode and StandardMode, and it is positive and at most MAX_CLK_RATE |
| I2cClock.Trunc8 | Targets/AT91SAM9RL64/AT91_I2C.cpp:255-256 | the uint8_t store keeps values below 256 and always fits a byte |
| I2cClock.LeastExponent | Targets/AT91SAM9RL64/AT91_I2C.cpp:242-247 | the loop's exponent lies between its start and 8, and a value at most 7 brings the target into 8 bits |
| I2cClock.LeastExponentIsLeast | Targets/AT91SAM9RL64/AT91_I2C.cpp:245-246 | no smaller exponent brings the target into 8 bits |
| I2cClock.ClockDivisors | Targets/AT91SAM9RL64/AT91_I2C.cpp:222-253 | both stored divisors fit in a byte |
| I2cClock.ScaledDivisors | Targets/AT91SAM9RL64/AT91_I2C.cpp:231-252 | both divisors of the general branch fit in a byte |
| I2cClock.HalvedIsQuotient | Targets/AT91SAM9RL64/AT91_I2C.cpp:243-249 | halving k times, as the loop does, equals dividing by `2^k`, as the recomputation does |
| I2cClock.TargetBounded | Targets/AT91SAM9RL64/AT91_I2C.cpp:236 | from MIN_CLK_RATE (line 208) up, the target `(pclk/2000)/rate` is below 32644 |
| I2cClock.SevenHalvingsFit | Targets/AT91SAM9RL64/AT91_I2C.cpp:242-247 | any target below 2^15 fits in 8 bits after seven halvings |
| I2cClock.ExponentFits | Targets/AT91SAM9RL64/AT91_I2C.cpp:242-247 | when seven halvings suffice, the loop exits by its break, with an exponent at most 7 |
| I2cClock.RestoresTarget | Targets/AT91SAM9RL64/AT91_I2C.cpp:236-239 | adding the constant back in uint32 restores the target |
| I2cClock.ScaledExponentFits | Targets/AT91SAM9RL64/AT91_I2C.cpp:236-252 | for targets below 2^15 the exponent is at most 7, and it is 0 exactly when the reduced target already fits in 8 bits |
| I2cClock.ScaledExponentLeast | Targets/AT91SAM9RL64/AT91_I2C.cpp:242-247 | the chosen exponent brings the target into 8 bits and no smaller positive exponent does |
| I2cClock.ScaledDivisorsExact | Targets/AT91SAM9RL64/AT91_I2C.cpp:249-251 | the primary divisor is the reduced target halved once per unit of the exponent |
| I2cClock.GeneralDivisors | Targets/AT91SAM9RL64/AT91_I2C.cpp:231-253 | in the general branch the target is below 32644, the divisors are the scaled ones, and the exponent is at most 7 |
| I2cClock.GeneralClockRate | Targets/AT91SAM9RL64/AT91_I2C.cpp:236-251 | in the general branch the primary divisor is `((pclk/2000)/rate - 4) / 2^exponent` |
| I2cClock.SupportedSpeedExponentFits | Targets/AT91SAM9RL64/AT91_I2C.cpp:215-253 | for both supported speeds and any peripheral clock, the exponent fits the 3-bit CKDIV field |
| I2cClock.Halvings | Targets/AT91SAM9RL64/AT91_I2C.cpp:240-247 | the halving loop stops at the least exponent (8 when it runs out), with the power equal to `2^min(exponent, 7)` |
| I2cClock.ScaleTarget | Targets/AT91SAM9RL64/AT91_I2C.cpp:233-252 | the driver's general-branch computation yields the scaled divisors of the target |
| I2cClock.DeriveClockDivisors | Targets/AT91SAM9RL64/AT91_I2C.cpp:222-253 | the driver's three-branch computation yields `ClockDivisors`: (255, 7) below MIN_CLK_RATE, exponent 0 at MAX_CLK_RATE and above, and the scaled divisors otherwise |
| At91I2c.FirstLate | Targets/AT91SAM9RL64/AT91_I2C.cpp:77-95 | the first wait that uses up its budget: every earlier wait is in time, and the one found is late |
| At91I2c.Transferred | Targets/AT91SAM9RL64/AT91_I2C.cpp:77-95 | at most the requested length; fewer only when the last byte counted is the first whose wait ran out |
| At91I2c.ReadStepProtocol | Targets/AT91SAM9RL64/AT91_I2C.cpp:78-88 | one received byte carries exactly that byte, and issues STOP iff it is the last byte |
| At91I2c.ReadBytesProtocol | Targets/AT91SAM9RL64/AT91_I2C.cpp:77-95 | a read trace carries exactly the received bytes in order, and issues one STOP iff it reaches the last byte |
| At91I2c.ReadBytesStopsBeforeLast | Targets/AT91SAM9RL64/AT91_I2C.cpp:78-88 | STOP comes just before the wait for the last byte |
| At91I2c.WriteBytesProtocol | Targets/AT91SAM9RL64/AT91_I2C.cpp:143-160 | a write trace carries exactly the sent bytes in order, and issues no STOP |
| At91I2c.OpenBusPins | Targets/AT91SAM9RL64/AT91_I2C.cpp:270-271 | succeeds iff both pins are free and distinct, and then reserves both; otherwise reserves nothing |
| At91I2c.OpenBusPinsAsWritten | Targets/AT91SAM9RL64/AT91_I2C.cpp:270-271 | as written, succeeds iff both pins are free and distinct, and then reserves both; on failure SDA ends reserved whenever it was free before, even though SCL was not opened |
| At91I2c.AsWrittenLeaksSda | Targets/AT91SAM9RL64/AT91_I2C.cpp:270-271 | as written, a failed SCL open leaves SDA reserved, and every later Acquire fails on it; the corrected opening reserves nothing and succeeds once SCL is free |
| At91I2c.AcquireReleaseRestoresPins | Targets/AT91SAM9RL64/AT91_I2C.cpp:306-307 | closing both bus pins in Release after a successful Acquire gives back exactly the reservations held before |
| At91I2c.I2cController.constructor | Targets/AT91SAM9RL64/AT91_I2C.cpp:18-29 | a zero-initialised configuration, not initialised |
| At91I2c.I2cController.SetActiveSettings | Targets/AT91SAM9RL64/AT91_I2C.cpp:211-260 | NotSupported, changing nothing, for an unknown speed; otherwise Success, with the address stored and the divisors of the speed's rate |
| At91I2c.I2cController.Poll | Targets/AT91SAM9RL64/AT91_I2C.cpp:82-86 | a bounded wait leaves `timeout - delay` polls of budget, or 0 when the flag comes too late |
| At91I2c.I2cController.ReceiveBytes | Targets/AT91SAM9RL64/AT91_I2C.cpp:77-95 | the byte loop moves `Transferred` bytes in order into the buffer, leaves the rest of the buffer, and keeps a budget iff all its waits were in time |
| At91I2c.I2cController.ReadTransaction | Targets/AT91SAM9RL64/AT91_I2C.cpp:53-118 | the bytes moved are `Transferred` (at most `length`); FullTransfer iff every wait was in time, and Success iff FullTransfer; the received bytes land in order; the bus sees setup, the byte trace, the TXCOMP wait, and always MSDIS |
| At91I2c.I2cController.SendBytes | Targets/AT91SAM9RL64/AT91_I2C.cpp:143-160 | the byte loop sends `Transferred` bytes in order and keeps a budget iff all its waits were in time |
| At91I2c.I2cController.WriteTransaction | Targets/AT91SAM9RL64/AT91_I2C.cpp:120-196 | the bytes moved are `Transferred`; FullTransfer iff every wait (the bytes, TXRDY and TXCOMP) was in time, and Success iff FullTransfer; the bus sees setup, the sent bytes, then TXRDY, STOP and TXCOMP, and always MSDIS |
| At91I2c.I2cController.WriteReadTransaction | Targets/AT91SAM9RL64/AT91_I2C.cpp:198-205 | the read runs only after a full write; when skipped, the read length and buffer are left as passed; Success iff the last phase run was a full transfer |
| At91I2c.I2cController.Acquire | Targets/AT91SAM9RL64/AT91_I2C.cpp:265-283 | no effect when initialised; otherwise the pins are opened with the corrected `OpenBusPins` (second Findings row): SharingViolation, reserving nothing, when a pin cannot be opened, and else both pins reserved, the clock on, the mode register loaded and the controller initialised |
| At91I2c.I2cController.Release | Targets/AT91SAM9RL64/AT91_I2C.cpp:285-311 | always a software reset and always Success, after which the controller is not initialised; an initialised controller also turns the clock off, disables the master and its interrupts, and frees both pins |

## Left out

- Provider registration (the three `GetApi` functions), the NotImplemented
  stubs and the empty `SetPinChangedHandler` of the UART, and the forwarding
  IRQ wrappers of the GPIO: they only register function addresses or return constants.
- Interrupt masking, global locks, the interrupt controllers (activation,
  enable, disable, VIC forced interrupt): every provider call and every
  interrupt is one atomic step, and the UART's forced interrupt and enable
  are booleans.
- Time: `*_Time_Delay` is one poll step, `GetCurrentTicks` is a `now`
  parameter, and `MillisecondsToTicks` is multiplication by a
  ticks-per-millisecond parameter.
- Headers and chip helpers are not part of this model: buffer sizes, the
  port count and the peripheral clocks are parameters. The pin helpers,
  `LPC24_Uart_PinConfiguration` beyond its two interrupt enables, and the
  PCLKSEL, PCONP and PMC writes are fields or are omitted. The register
  bit layouts of TWI_CWGR and TWI_MMR are fields of the logged accesses.
- The UART FIFO control write (FCR) and the RTS/CTS pin configuration
  are left out, because nothing the driver reads back depends on them.
  MCR is kept only as the auto-flow flag. `LPC24_Uart_TxHandshakeEnabledState`
  always returns true and is inlined.
- `LPC24_Uart_RxBufferFullInterruptEnable` is folded into the `rdaIE`
  flag that SetActiveSettings and Release set.
- Lpc24Uart.UartController.SetActiveSettings: requires that a rate off the
  table has a nonzero `baudRate * 16` in uint32_t; the driver divides by it
  unchecked. The LCR value left after a rejected configuration is not
  stated.
- Lpc24Uart.UartController.ReceiveData: runs the corrected receive loop of
  the first Findings row, which reads LSR again after dropping a byte on a
  full ring. The driver's loop skips that read. The two agree whenever the
  ring has room for every byte in the FIFO (UartReceive.AsWrittenAgreesWithRoom).
  On a full ring the driver either spins forever (stale LSR shows data)
  or stops after one ReceiveFull (stale LSR shows none), where the model
  drains on; DrainFifo and InterruptHandler inherit this.
- Lpc24Uart.UartController.DrainFifo: is the corrected loop of the first
  Findings row, not the loop as written; UartReceive.DrainAsWritten is the
  as-written form, related to it by AsWrittenAgreesWithRoom.
- Lpc24Uart.UartController.InterruptHandler: states the ordering of the
  entry error and the RDA-disabled case only. Its receive half is the
  corrected loop, as for ReceiveData. The receive and transmit
  halves are stated in full on ReceiveData and TransmitData, and the
  transmit half depends on no receive state.
- Lpc24Uart.UartController.Flush: each wait step stands for one transmit
  interrupt. The wait has no timeout, so the model assumes the interrupts
  keep coming and does not state liveness.
- UartReceive.DrainAsWritten: the loop as written is bounded by a fuel
  count (None when it runs out), because it need not terminate.
- Stm32f4Gpio.GpioController.Service: the do-while of the demultiplexers
  becomes a while loop over the remaining pending lines. A first pass with
  nothing pending does nothing in either form.
- `STM32F4_Gpio_GetPinCount` returns the constant `MaxPins`, which the
  model has as a function. `STM32F4_Gpio_Interrupt0`..`4` each call the ISR
  for one line, which `Isr` models.
- Stm32f4Gpio.GpioController.Reset: the re-registration of the seven EXTI
  vectors is left out (interrupt-controller wiring).
- At91I2c.I2cController.Acquire: opens the bus pins with the corrected
  `OpenBusPins` of the second Findings row, so a failed Acquire reserves
  nothing. The driver as written (`OpenBusPinsAsWritten`) leaves SDA
  reserved when SCL cannot be opened.
- `AT91_Gpio_OpenPin`, `ClosePin` and `ConfigurePin` are not part of this
  model. A pin is taken to open only when nobody holds it, and to be
  reserved until it is closed.
- `AT91_I2c_Reset` only calls Release, which is modelled. The
  `AT91_Interrupt_Disable` call of Release is left out with the other
  interrupt-controller calls.
- At91I2c.I2cController.ReadTransaction and WriteTransaction: a wait's
  outcome comes from the `delays` parameter. The model states the outcome
  per wait, not the tick-by-tick timing.

## Findings

| source | as written | input that shows it | evidently intended | confidence | as-written member | corrected member |
|---|---|---|---|---|---|---|
| Targets/LPC24/LPC24_USART.cpp:159-162 | on a full receive ring, `continue` jumps to the loop test with the LSR snapshot it did not refresh | a clean byte arrives while the ring is full and the entry LSR has RDR set: the test keeps seeing RDR, so the interrupt handler never returns | drop the byte, then read LSR again as on the store path, so the loop ends when the FIFO is empty | not executed | UartReceive.AsWrittenSpinsWhenFull | UartReceive.DrainIsBoundedFifo |
| Targets/AT91SAM9RL64/AT91_I2C.cpp:270-271 | when SDA opens but SCL does not, Acquire returns SharingViolation and leaves SDA reserved | SCL reserved by another driver and SDA free: SDA stays reserved by nobody, and after SCL is freed every later Acquire still fails | close SDA again when SCL cannot be opened, so a failed Acquire reserves nothing | not executed | At91I2c.AsWrittenLeaksSda | At91I2c.OpenBusPins |
