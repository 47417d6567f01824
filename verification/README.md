# Register-level drivers: model and proofs

This project models five Linux drivers in which software state must agree with hardware registers
over arbitrary runs, and proves what they promise.

- **BCM2835 I2C master** (`I2cDivider`, `I2cSpec`, `I2cProofs`, `I2cLimits`, `I2cFailures`,
  `I2cHandshake`, `I2cAnswers`, `I2cDriver`): a transfer
  of several messages driven by an interrupt handler, with repeated START (section 3.1.10 of NXP
  UM10204). Every read of a register may return anything, within three assumptions: TXW is reported
  only while the last write of the control register had READ clear, RXR and RXD only while it had
  READ set, and interrupts arrive only between a start and its completion. DONE may be reported at
  any time.
- **BCM2835 pin controller** (`PinctrlSpec`, `PinctrlProofs`, `PinctrlPaths`, `PinctrlFsel`,
  `PinctrlDemux`, `PinctrlEvents`, `PinctrlDtMap`, `PinctrlDriver`): interrupt types and their fast paths, function
  select, interrupt demultiplexing and the device-tree map builder.
- **Memory-mapped GPIO** (`BgpioSpec`, `BgpioProofs`, `BgpioModes`, `BgpioRuns`,
  `BgpioChips`, `BgpioDriver`): shadow registers,
  bulk updates, and the simulation of one configuration by another.
- **Northstar2 multiplexer** (`Ns2Spec`, `Ns2Proofs`, `Ns2Conf`, `Ns2Table`, `Ns2Driver`): the log in which the
  first configuration of a multiplexer wins, and packed pin parameters.
- **iProc GPIO** (`IprocSpec`, `IprocProofs`, `IprocConf`, `IprocBits`, `IprocDisable`,
  `IprocIrq`, `IprocDriver`): bit-sliced drive strength, the disable list and the interrupt scan.

Each driver has three layers. A `Spec` module gives its state and operations as values and
functions. Proof modules state what these functions mean, over whole runs and at every register
write. A `Driver` module has the driver's own form, a class with the driver's fields, arrays and
loops; each method is proved to be the corresponding step of the specification. The list of
register writes is part of the state, so that claims about intermediate states can be made.
`I2cAnswers`, `I2cHandshake`, `PinctrlEvents`, `BgpioChips`, `Ns2Table` and `IprocBits` look at the drivers
from outside: they speak of register addresses, bits, status words and the resources of a chip, and not
of the functions by which the drivers compute them.
`Words` defines C's bit operators on words of any width and characterises them bit by bit.

Where a driver does not keep a promise, the code is modelled as it is, the exact condition is proved,
and a lemma shows the failure from a state that the driver can reach:

- `OptimalIff`: the divider is optimal unless the sum in DIV_ROUND_UP wraps (`WrapExample`).
- `FaithfulIff`: I2C success is real unless a message before the last is empty (`EmptyMessageIsLost`).
- `NoFalseFailure`, `FalseFailureIff`: a transfer that moved every byte is reported as a failure exactly
  when its last interrupt shows an error, lacks DONE, or leaves a byte in the FIFO; this can happen for
  every accepted request without an empty message before the last (`FailureAfterAll`).
- `HandlerFitsIff`: a refused interrupt type still replaces the flow handler (`RefusedTypeMisfits`).
- `SetSparesIff`, `BulkIsIterated`, `AlwaysCoherentIff`: a set or an empty bulk update writes out the
  whole shadow, which is stale after initialisation with unreadable registers (`SetTurnsAnotherLow`,
  `EmptyUpdateTurnsLow`).
- `RunGet`, `FlipAnswers`: `bgpio_get_set` takes inputs for outputs when the direction register is
  inverted (`HighInputReadsLow`).
- `ExclusiveIff`: a PWM group shares its pin with a group of another multiplexer; some run accepts both.
- `StrengthSteadyIff`, `OutputSteadyIff`: pads pass through states that are neither the old nor the
  new one (`StrengthDips`, `OutputGlitch`).

## Model

| member | source | states |
|---|---|---|
| I2cDivider.OptimalIff | source/device-driver/i2c/i2c-bcm2835.c:85-103 | for every positive 32-bit clock and rate, the driver accepts exactly the least even divider at which the bus is not too fast, and reports an error exactly when that divider does not fit, if and only if the sum inside DIV_ROUND_UP does not wrap or no divider fits anyway |
| I2cDivider.WrapExample | source/device-driver/i2c/i2c-bcm2835.c:89-103 | at a core clock of 250 MHz, a rate for which the wrapping sum rejects a divider (2) that is encodable and best |
| I2cDivider.DividerIsLeastEven | source/device-driver/i2c/i2c-bcm2835.c:89-103 | the divider is the rounded-up quotient made even; it is refused exactly when it exceeds 0xFFFE or the sum wraps |
| I2cDivider.DelaysFit | source/device-driver/i2c/i2c-bcm2835.c:107-121 | both edge delays lie between 1 and half the divider and can be unpacked from the delay word without loss |
| I2cProofs.NoFalseSuccess | source/device-driver/i2c/i2c-bcm2835.c:203-302 | for any hardware, start state and number of interrupts, if no message but the last is empty: a transfer reported as successful started every message in order, put the concatenation of all write buffers into the FIFO, filled a final read buffer with exactly the bytes read from the FIFO, and left none there |
| I2cLimits.FaithfulIff | source/device-driver/i2c/i2c-bcm2835.c:203-302 | success means that everything was moved, whatever the hardware does, exactly when no message but the last is empty (or the request is refused before it starts) |
| I2cLimits.EmptyMessageIsLost | source/device-driver/i2c/i2c-bcm2835.c:217-233 | for every list with an empty message before the last there is a hardware run that is reported as success although later messages were never started |
| I2cLimits.SuccessIsAttainable | source/device-driver/i2c/i2c-bcm2835.c:203-302 | every accepted transfer without an empty message before the last is reported as success by some hardware run, so the promise is not kept by never reporting success |
| I2cFailures.NoFalseFailure | source/device-driver/i2c/i2c-bcm2835.c:203-302 | a transfer that completes with both counters at zero has moved every byte, and is reported as success exactly when the interrupt that ended it showed no error, showed DONE, and, for a read, left nothing in the FIFO |
| I2cFailures.FailureAfterAll | source/device-driver/i2c/i2c-bcm2835.c:231-254 | every accepted transfer without an empty message before the last is reported as EIO by some hardware run that starts every message, writes every byte and fills the read buffer: the handler takes TXW or RXR with nothing left for an error |
| I2cFailures.FalseFailureIff | source/device-driver/i2c/i2c-bcm2835.c:203-302 | a bus error can be reported although every byte was moved exactly when the request is accepted, has a message and none but the last is empty |
| I2cFailures.MovedIffDone | source/device-driver/i2c/i2c-bcm2835.c:125-255 | a stopped transfer has moved every byte exactly when no message and no byte is left by the driver's own count |
| I2cFailures.NeverPassed | source/device-driver/i2c/i2c-bcm2835.c:231-245 | in no run does the driver get past an empty message that is not the last |
| I2cFailures.FailureIffBlamed | source/device-driver/i2c/i2c-bcm2835.c:203-266 | when the handler stops a transfer with nothing left to move, the error word it leaves is non-zero exactly for an error in the status, a missing DONE, or a byte left behind a read |
| I2cProofs.TransferKeeps | source/device-driver/i2c/i2c-bcm2835.c:125-255 | if no message but the last is empty, at every interrupt boundary of every run cursor, remaining count, messages left, buffers, FIFO reads and bus writes agree on how much has moved, and a message that has a successor still has bytes to move; at the end the transfer has stopped with nothing left or an error |
| I2cProofs.IsrKeeps | source/device-driver/i2c/i2c-bcm2835.c:203-266 | one interrupt keeps byte conservation or stops the transfer, and stops it without error only when nothing is left of the last message |
| I2cProofs.FillMoves | source/device-driver/i2c/i2c-bcm2835.c:125-138 | filling the FIFO moves a prefix of what remains: the cursor, the counter and the bus trace advance together |
| I2cProofs.DrainMoves | source/device-driver/i2c/i2c-bcm2835.c:140-153 | draining the FIFO stores the bytes read, in order, at the cursor and nowhere else |
| I2cProofs.StartMoves | source/device-driver/i2c/i2c-bcm2835.c:168-192 | starting the next message after a finished write continues the bus sentence and selects the direction of that message |
| I2cProofs.XferGrammar | source/device-driver/i2c/i2c-bcm2835.c:155-192 | however a transfer ends, its writes are the divider, a beginning of the sentence (address, length, control, bytes) for each message in order, and the stop of the controller; a refused transfer writes nothing |
| I2cProofs.StartWordBits | source/device-driver/i2c/i2c-bcm2835.c:170-191 | the control word that starts a message asks for exactly the direction, the interrupts and, on the last message, the DONE interrupt |
| I2cProofs.ErrorReported | source/device-driver/i2c/i2c-bcm2835.c:208-214 | an acknowledge or clock-stretch error in the status ends the transfer at once, is recorded as it is and moves no byte; no other interrupt records such an error |
| I2cProofs.FifoBytesOfUpto | source/device-driver/i2c/i2c-bcm2835.c:125-192 | the FIFO bytes of completed messages are the concatenation of their write buffers, so each start is followed by exactly as many bytes as it announced |
| I2cLimits.IntdOnlyOnLast | source/device-driver/i2c/i2c-bcm2835.c:172-191 | within the sentence of the messages, the interrupt on DONE is requested by the start of the last message and by no other write |
| I2cLimits.IntdOnce | source/device-driver/i2c/i2c-bcm2835.c:85-302 | of all the writes of a transfer, however it ends, divider, closing and timeout writes included, only the start of the last message requests the interrupt on DONE |
| I2cHandshake.FifoNeverOverrun | source/device-driver/i2c/i2c-bcm2835.c:125-153 | with a controller whose TXD and RXD tell the truth, whatever the size and speed of its FIFO, no transfer writes a byte that does not fit or reads a byte that is not there |
| I2cHandshake.XferObeys | source/device-driver/i2c/i2c-bcm2835.c:125-153 | in every transfer each byte written to the FIFO answers a status read of its own that showed TXD, and each byte taken from it one that showed RXD |
| I2cHandshake.FillObeys | source/device-driver/i2c/i2c-bcm2835.c:125-138 | filling writes one byte for each status read that shows TXD, and stops at the first that does not or when nothing is left |
| I2cHandshake.DrainObeys | source/device-driver/i2c/i2c-bcm2835.c:140-153 | draining reads one byte for each status read that shows RXD, and stops at the first that does not or when nothing is left |
| I2cAnswers.XferAnswer | source/device-driver/i2c/i2c-bcm2835.c:268-309 | which answer a transfer gives: EOPNOTSUPP exactly for a read that is not last, EINVAL for a divider that does not fit, ETIMEDOUT when the handler has not ended it, EREMOTEIO and EIO by bits 8 and 9 of the status at the last interrupt |
| I2cAnswers.DeclinedIff | source/device-driver/i2c/i2c-bcm2835.c:203-257 | the handler declines an interrupt exactly when its status shows neither ERR, CLKT nor DONE, nor TXW during a write or RXR during a read |
| I2cAnswers.DelayFields | source/device-driver/i2c/i2c-bcm2835.c:105-122 | a sixteenth of the divider, at least 1, is the falling-edge delay in the upper half of the delay word, a quarter of it the rising-edge delay in the lower half; the divider is written first |
| I2cAnswers.WordValues | source/device-driver/i2c/i2c-bcm2835.c:32-51 | the control words that start a message and the words that stop the controller and clear its status, as numbers |
| I2cAnswers.StartAddresses | source/device-driver/i2c/i2c-bcm2835.c:189-191 | address, length and control word of a message go to registers 0xc, 0x8 and 0x0 in this order |
| I2cDriver.I2cDev.SetDivider | source/device-driver/i2c/i2c-bcm2835.c:85-123 | writes divider and delays, or nothing on an invalid divider |
| I2cDriver.I2cDev.FillTxfifo | source/device-driver/i2c/i2c-bcm2835.c:125-138 | moves bytes while the controller accepts them, as `FillObeys` says of the function it refines |
| I2cDriver.I2cDev.DrainRxfifo | source/device-driver/i2c/i2c-bcm2835.c:140-153 | stores bytes in the caller's buffer while the controller has some; no buffer but those of read messages changes |
| I2cDriver.I2cDev.StartTransfer | source/device-driver/i2c/i2c-bcm2835.c:168-192 | starts the current message, or nothing when none is left |
| I2cDriver.I2cDev.WaitForCompletion | source/device-driver/i2c/i2c-bcm2835.c:292-293 | interrupts are served until the transfer completes or the wait times out |
| I2cDriver.I2cDev.Isr | source/device-driver/i2c/i2c-bcm2835.c:203-266 | the whole handler, with its result, also when there is no message yet |
| I2cDriver.I2cDev.Xfer | source/device-driver/i2c/i2c-bcm2835.c:268-302 | the whole transfer, on messages that may share buffers; a result of "all messages" means that all bytes were moved if no message but the last is empty, and what a final read received is in the caller's own buffer |
| PinctrlProofs.RunKeeps | source/device-driver/pinctrl/pinctrl-bcm2835.c:424-612 | after any run of enable, disable, set_type, acknowledge and function select, an enabled pin has exactly the detectors of its recorded type and a disabled pin has none |
| PinctrlProofs.SetTypeEnabledEffect | source/device-driver/pinctrl/pinctrl-bcm2835.c:517-585 | set_type on an enabled pin ends with the detectors of the new type on every path, and changes no other pin |
| PinctrlProofs.DisableEffect | source/device-driver/pinctrl/pinctrl-bcm2835.c:480-495 | disabling removes the detectors of the recorded type from the pin and touches no other pin |
| PinctrlProofs.ConfigEffect | source/device-driver/pinctrl/pinctrl-bcm2835.c:424-463 | configuring switches the detectors of the recorded type on or off for one pin only |
| PinctrlPaths.FastRefinesSlow | source/device-driver/pinctrl/pinctrl-bcm2835.c:465-585 | set_type on an enabled pin leaves the same types, handlers, enable map and detect registers as disable, set_type, enable |
| PinctrlPaths.FastKeepsEvent | source/device-driver/pinctrl/pinctrl-bcm2835.c:480-585 | the one observable difference of the two paths: the slow one drops an event latched for the pin, the fast one keeps it, and neither touches other events |
| PinctrlPaths.SetTypeSteady | source/device-driver/pinctrl/pinctrl-bcm2835.c:528-570 | at every register write inside set_type the active detectors are within the old type or within the new one, an edge wanted by both stays on, and all other pins are as before |
| PinctrlPaths.HandlerFitsIff | source/device-driver/pinctrl/pinctrl-bcm2835.c:587-612 | after set_type the flow handler fits the recorded type exactly when the type was valid or its edge bits agree with the type that was kept: a refused type still replaces the handler |
| PinctrlPaths.RefusedTypeMisfits | source/device-driver/pinctrl/pinctrl-bcm2835.c:587-612 | a pin set to rising edge that is asked for both levels at once gets EINVAL, keeps its type and loses its edge handler |
| PinctrlFsel.FselSetEffect | source/device-driver/pinctrl/pinctrl-bcm2835.c:274-315 | function select reads back, and every other pin keeps its function |
| PinctrlFsel.RunGentle | source/device-driver/pinctrl/pinctrl-bcm2835.c:286-315 | in the write trace of any run, from any state, no pin goes from one non-input function straight to another |
| PinctrlDemux.DispatchExact | source/device-driver/pinctrl/pinctrl-bcm2835.c:370-422 | a host interrupt dispatches each pin of its group that is pending and enabled in the state in which its bank is read exactly once, in ascending order, and no other pin |
| PinctrlDemux.DispatchUndisturbed | source/device-driver/pinctrl/pinctrl-bcm2835.c:370-422 | while handlers run between the reads of the banks and each makes calls for its own pin only, the pins dispatched are exactly those of the group that were pending and enabled when the interrupt arrived |
| PinctrlDemux.StepEnabled | source/device-driver/pinctrl/pinctrl-bcm2835.c:465-495 | only enable and disable change the enable map, and only for their own pin |
| PinctrlDemux.MasksPartition | source/device-driver/pinctrl/pinctrl-bcm2835.c:405-418 | the bank masks of the three host interrupts partition the 54 pins |
| PinctrlDemux.StepPending | source/device-driver/pinctrl/pinctrl-bcm2835.c:465-621 | an operation takes back exactly the pending event of its own pin, and only when it disables the pin or acknowledges the event |
| PinctrlEvents.RunLatches | source/device-driver/pinctrl/pinctrl-bcm2835.c:424-612 | after any run of calls for any pins, the controller latches an event for a pin exactly when its last enable or disable was an enable and its level does what the bits of its last accepted type ask for: rising, falling, high, low |
| PinctrlEvents.SetTypeRecords | source/device-driver/pinctrl/pinctrl-bcm2835.c:497-612 | set_type accepts exactly the types 0, 1, 2, 3, 4 and 8 and records those |
| PinctrlEvents.DisableQuiets | source/device-driver/pinctrl/pinctrl-bcm2835.c:480-495 | disabling first switches the detectors off, so that nothing more is latched, and then clears the event with its last write |
| PinctrlEvents.FselBits | source/device-driver/pinctrl/pinctrl-bcm2835.c:274-315 | function select writes the three bits of the pin in register pin / 10 and no other bit, and nothing when the pin has the function |
| PinctrlDriver.Bcm2835Pinctrl.constructor | source/device-driver/pinctrl/pinctrl-bcm2835.c:1007-1025 | after probe no detector is on, no event is pending, no pin is enabled, every type is none |
| PinctrlDriver.Bcm2835Pinctrl.GpioIrqConfig | source/device-driver/pinctrl/pinctrl-bcm2835.c:438-463 | rewrites the detect registers of the recorded type |
| PinctrlDriver.Bcm2835Pinctrl.IrqEnable | source/device-driver/pinctrl/pinctrl-bcm2835.c:465-478 | enables the pin; agreement of driver and hardware is kept |
| PinctrlDriver.Bcm2835Pinctrl.IrqDisable | source/device-driver/pinctrl/pinctrl-bcm2835.c:480-495 | disables the pin and clears its event; agreement is kept |
| PinctrlDriver.Bcm2835Pinctrl.IrqAck | source/device-driver/pinctrl/pinctrl-bcm2835.c:614-621 | clears the event of the pin; agreement is kept |
| PinctrlDriver.Bcm2835Pinctrl.SetTypeOfDisabled | source/device-driver/pinctrl/pinctrl-bcm2835.c:497-514 | records a valid type and refuses any other |
| PinctrlDriver.Bcm2835Pinctrl.SetTypeOfEnabled | source/device-driver/pinctrl/pinctrl-bcm2835.c:517-585 | takes the fast path when one edge of two changes and the slow one otherwise |
| PinctrlDriver.Bcm2835Pinctrl.IrqSetType | source/device-driver/pinctrl/pinctrl-bcm2835.c:587-612 | the locked section, with the choice of the flow handler; agreement is kept |
| PinctrlDriver.Bcm2835Pinctrl.FselGet | source/device-driver/pinctrl/pinctrl-bcm2835.c:274-284 | reads the function of a pin |
| PinctrlDriver.Bcm2835Pinctrl.FselSetTo | source/device-driver/pinctrl/pinctrl-bcm2835.c:286-315 | sets the function of a pin, through input where needed; interrupt settings are kept |
| PinctrlDriver.Bcm2835Pinctrl.HandleBank | source/device-driver/pinctrl/pinctrl-bcm2835.c:370-385 | calls the handlers of the masked, pending, enabled pins of a bank, in order; each may call back into the driver, and agreement of driver and hardware is kept |
| PinctrlDriver.Bcm2835Pinctrl.IrqHandler | source/device-driver/pinctrl/pinctrl-bcm2835.c:387-422 | finds the group of the host interrupt and serves its banks, the second one as the handlers of the first left it; agreement is kept |
| PinctrlDtMap.NodeToMap | source/device-driver/pinctrl/pinctrl-bcm2835.c:728-824 | on success the map has for each pin, in order, its function and then its pull, each the shared value or the pin's own, and exactly the map and its configurations were allocated; on every error all that was allocated has been freed, each block once; the result is that of the first failing check |
| PinctrlDtMap.InRangeIff | source/device-driver/pinctrl/pinctrl-bcm2835.c:770-824 | with enough memory the builder succeeds exactly when every pin cell is below 54, every function cell below 8 and every pull cell at most 2, shared or not |
| PinctrlDtMap.FirstFailure | source/device-driver/pinctrl/pinctrl-bcm2835.c:770-824 | an error is that of the first pin that is out of range or finds no memory for its pull, and all pins before it passed |
| PinctrlDtMap.ConsistentIff | source/device-driver/pinctrl/pinctrl-bcm2835.c:741-766 | the checks before the allocation pass exactly when pins are given, one of the two properties is, and each has no cell, one cell or one a pin |
| PinctrlDtMap.WantedMapsEach | source/device-driver/pinctrl/pinctrl-bcm2835.c:780-812 | entry by entry: which function and which pull a pin gets, from shared cells or its own, as the unpacking macros read them |
| PinctrlDtMap.FreeMap | source/device-driver/pinctrl/pinctrl-bcm2835.c:671-681 | frees every configuration of a map exactly once, then the map, and nothing else |
| PinctrlDtMap.MapFunc | source/device-driver/pinctrl/pinctrl-bcm2835.c:683-700 | appends one function entry or refuses the function and appends nothing |
| PinctrlDtMap.MapPull | source/device-driver/pinctrl/pinctrl-bcm2835.c:702-726 | appends one pull entry with its own fresh configuration, or fails and leaves the map and the heap as they were |
| PinctrlDtMap.PackUnpacks | source/device-driver/pinctrl/pinctrl-bcm2835.c:78-80 | parameter and argument of a packed configuration come back from it |
| BgpioProofs.BulkIsIterated | source/device-driver/gpio/gpio-mmio.c:159-270 | a bulk set leaves the same shadow as single sets of the masked pins in any order, and the same outputs exactly when a pin is selected or the shadow was coherent |
| BgpioProofs.MasksPartition | source/device-driver/gpio/gpio-mmio.c:204-224 | set mask and clear mask are disjoint, cover exactly the masked pins, and follow their values |
| BgpioProofs.RunCoherent | source/device-driver/gpio/gpio-mmio.c:159-355 | over any run from a coherent state the shadows equal what the controller drives |
| BgpioProofs.StepCoherent | source/device-driver/gpio/gpio-mmio.c:159-355 | an operation that writes a register makes its shadow coherent, whatever it was before |
| BgpioProofs.LevelBeforeDirection | source/device-driver/gpio/gpio-mmio.c:311-355 | direction_output drives the level first and turns the pin to output with the last write |
| BgpioProofs.DirectionReadsBack | source/device-driver/gpio/gpio-mmio.c:291-361 | get_direction reports what the last direction call asked for, and other pins keep their direction |
| BgpioProofs.GetReadsBack | source/device-driver/gpio/gpio-mmio.c:140-148 | on a chip whose output register can be read, an output reads as the level it was given and an input as its pin |
| BgpioProofs.StepSized | source/device-driver/gpio/gpio-mmio.c:129-355 | no operation writes a word wider than the registers |
| BgpioModes.MirrorRun | source/device-driver/gpio/gpio-mmio.c:129-138 | for any run the chip with reversed bit order has every shadow, register and written word reversed |
| BgpioModes.MirrorAnswers | source/device-driver/gpio/gpio-mmio.c:129-153 | both bit orders answer get and get_direction alike |
| BgpioModes.FlipRun | source/device-driver/gpio/gpio-mmio.c:291-355 | for any run the chip with an input-direction register has the complemented direction words and is otherwise the same |
| BgpioModes.FlipAnswers | source/device-driver/gpio/gpio-mmio.c:140-153 | get_direction answers alike for both polarities; get does so exactly when it does not consult the direction shadow or latch and level agree |
| BgpioModes.DriveAlikeRun | source/device-driver/gpio/gpio-mmio.c:159-270 | a data register, a separate output register and a set/clear pair drive the same levels and directions in any run |
| BgpioRuns.RunDirection | source/device-driver/gpio/gpio-mmio.c:291-361 | after any run, from any state, get_direction reports what the last direction call on that pin asked for; a pin that was never turned keeps its direction until some pin is turned and then takes that of the shadow |
| BgpioRuns.RunLevel | source/device-driver/gpio/gpio-mmio.c:159-355 | after any run, from any state, the latch of a pin holds the last level that a set, a bulk set or direction_output gave it; a pin that was given none keeps its level until the first write for any pin and then takes that of the shadow |
| BgpioRuns.RunGet | source/device-driver/gpio/gpio-mmio.c:140-153 | what get answers after any run, from any state: the level of the pin, or its latch where the chip reads its output register and the direction bit of the shadow is set, which is for outputs with an output-direction register and for inputs with an input-direction register |
| BgpioRuns.LevelKnown | source/device-driver/gpio/gpio-mmio.c:159-355 | from a right output shadow, or once the pin was given a level, the latch follows the calls alone |
| BgpioRuns.DirectionKnown | source/device-driver/gpio/gpio-mmio.c:291-361 | from a right direction shadow, or once the pin was turned, its direction follows the calls alone |
| BgpioRuns.GetKnown | source/device-driver/gpio/gpio-mmio.c:140-153 | so does what get answers, for a pin that was turned and given a level, whatever the shadows were at first |
| BgpioRuns.AlwaysCoherentIff | source/device-driver/gpio/gpio-mmio.c:509-551 | whatever the registers hold at bgpio_init and whatever is called then, the shadows are what is driven, exactly on the chips whose shadowed registers can be read back; a chip with a single input/output register is not among them, because it reads the levels of its input pins, which need not be what its latch holds |
| BgpioRuns.SetSparesIff | source/device-driver/gpio/gpio-mmio.c:159-202 | setting one pin leaves the output of another alone exactly when the shadow was right for that other pin |
| BgpioRuns.SetTurnsAnotherLow | source/device-driver/gpio/gpio-mmio.c:180-197 | right after bgpio_init with an unreadable output register, setting pin 1 turns pin 0 from high to low |
| BgpioRuns.EmptyUpdateTurnsLow | source/device-driver/gpio/gpio-mmio.c:226-270 | right after bgpio_init with an unreadable output register, a bulk update that selects no pin turns an output from high to low |
| BgpioRuns.HighInputReadsLow | source/device-driver/gpio/gpio-mmio.c:140-148 | right after bgpio_init with an inverted direction register, get_set answers low for an input whose pin is high |
| BgpioChips.DirectionBit | source/device-driver/gpio/gpio-mmio.c:291-361 | after any run from bgpio_init a set bit is an output in a "dirout" register and an input in a "dirin" register, and the bit of a pin is what the last direction call on it asked for |
| BgpioChips.FirstDirection | source/device-driver/gpio/gpio-mmio.c:474-507 | the same for the first call on a pin, from the registers alone |
| BgpioChips.WithoutDirection | source/device-driver/gpio/gpio-mmio.c:272-289 | a chip without a direction register ignores direction_input, and refuses direction_output exactly when it was declared to have no output |
| BgpioChips.GivesIff | source/device-driver/gpio/gpio-mmio.c:155-270 | which calls give a pin a level, by the registers and flags of the chip |
| BgpioChips.SetWrites | source/device-driver/gpio/gpio-mmio.c:155-202 | a single set writes the bit of the pin to the set or the clear register when there are both, and otherwise the whole word to the output register that there is |
| BgpioChips.SetMultipleWrites | source/device-driver/gpio/gpio-mmio.c:204-270 | a bulk set writes the bits to set and then the bits to clear, each only if there are any, or the whole word once |
| BgpioChips.GetReads | source/device-driver/gpio/gpio-mmio.c:140-153 | get reads the output instead of the pin exactly when the chip was told to read its output register, can, and the direction bit is set |
| BgpioChips.SupportedIff | source/device-driver/gpio/gpio-mmio.c:360-507 | which widths, byte orders and registers are supported |
| BgpioDriver.GpioChip.Init | source/device-driver/gpio/gpio-mmio.c:509-551 | accepts exactly the supported combinations and starts from what the registers read |
| BgpioDriver.GpioChip.SetPin | source/device-driver/gpio/gpio-mmio.c:155-202 | one pin, in each of the four ways to drive outputs |
| BgpioDriver.GpioChip.MultipleGetMasks | source/device-driver/gpio/gpio-mmio.c:204-224 | computes both masks, and clears the handled pins from the caller's mask in place |
| BgpioDriver.GpioChip.SetMultiplePins | source/device-driver/gpio/gpio-mmio.c:226-270 | a bulk update in each of the three ways |
| BgpioDriver.GpioChip.DirInput | source/device-driver/gpio/gpio-mmio.c:272-339 | turns a pin to input in each direction mode |
| BgpioDriver.GpioChip.DirOutput | source/device-driver/gpio/gpio-mmio.c:277-355 | turns a pin to output in each direction mode, or refuses |
| BgpioDriver.GpioChip.GetDirection | source/device-driver/gpio/gpio-mmio.c:305-361 | reads the direction bit of the pin with the polarity of the register |
| BgpioDriver.GpioChip.GetPin | source/device-driver/gpio/gpio-mmio.c:140-153 | reads the latch where the direction bit of the pin is set and the chip reads its output register, and the level of the pin otherwise |
| Ns2Proofs.ExclusiveIff | source/device-driver/pinctrl/pinctrl-ns2-mux.c:313-446 | two groups that share a pin can both be accepted in some run exactly when one of them is a PWM group |
| Ns2Proofs.NeverBoth | source/device-driver/pinctrl/pinctrl-ns2-mux.c:571-611 | in no run are two distinct non-PWM groups that share a pin both accepted |
| Ns2Proofs.AcceptedHeld | source/device-driver/pinctrl/pinctrl-ns2-mux.c:571-634 | an accepted group still holds its multiplexer at the end of the run |
| Ns2Proofs.RunAgrees | source/device-driver/pinctrl/pinctrl-ns2-mux.c:571-634 | after any run the hardware field of a configured entry holds the logged alternative and all other bits are as they were at probe |
| Ns2Proofs.RunWrites | source/device-driver/pinctrl/pinctrl-ns2-mux.c:583-634 | a configured entry never changes again, and there are exactly as many register writes as newly configured entries |
| Ns2Proofs.MuxSetEffect | source/device-driver/pinctrl/pinctrl-ns2-mux.c:571-634 | a request configures its free entry with one write, or changes nothing; it is refused exactly when the entry holds another alternative |
| Ns2Proofs.FieldsDisjoint | source/device-driver/pinctrl/pinctrl-ns2-mux.c:982-1027 | the fields of two log entries never overlap |
| Ns2Proofs.KeysUnique | source/device-driver/pinctrl/pinctrl-ns2-mux.c:982-1027 | no two log entries have the same key |
| Ns2Proofs.SlotMatches | source/device-driver/pinctrl/pinctrl-ns2-mux.c:389-446 | every group of the table has a log entry with its key, a mask of the width of its field and an alternative that fits |
| Ns2Proofs.TableRow | source/device-driver/pinctrl/pinctrl-ns2-mux.c:313-446 | every pin has one multiplexer apart from PWM, and its alternative determines the non-PWM group |
| Ns2Conf.PutParamEffect | source/device-driver/pinctrl/pinctrl-ns2-mux.c:659-819 | writing one parameter of one pin changes that parameter of that pin and nothing else |
| Ns2Conf.RoundTrip | source/device-driver/pinctrl/pinctrl-ns2-mux.c:841-961 | every accepted configuration reads back (slew and input-enable as 0 or 1) |
| Ns2Conf.OneBias | source/device-driver/pinctrl/pinctrl-ns2-mux.c:841-873 | exactly one of the three bias queries is answered with yes, whatever the register holds |
| Ns2Conf.ConfigSetEffect | source/device-driver/pinctrl/pinctrl-ns2-mux.c:901-961 | a list takes effect up to the first refused configuration, the last value of each parameter winning, and succeeds exactly when none is refused |
| Ns2Conf.RunEffect | source/device-driver/pinctrl/pinctrl-ns2-mux.c:901-961 | after any run of calls for any pins, each parameter of each pin holds what the accepted configurations of the calls for that pin leave, the last one winning |
| Ns2Conf.ParamsApart | source/device-driver/pinctrl/pinctrl-ns2-mux.c:182-307 | the fields of different pins or parameters do not overlap |
| Ns2Table.TableMatches | source/device-driver/pinctrl/pinctrl-ns2-mux.c:251-306 | register and shift of each of the four parameters of each of the 56 pins are those of its row in the pin table |
| Ns2Table.PutBits | source/device-driver/pinctrl/pinctrl-ns2-mux.c:659-819 | writing a parameter changes the bits that the table gives it and no other bit of any register |
| Ns2Table.ConfBits | source/device-driver/pinctrl/pinctrl-ns2-mux.c:901-961 | what each accepted configuration makes of each bit of each register, by the rows of the table |
| Ns2Table.QueryBits | source/device-driver/pinctrl/pinctrl-ns2-mux.c:841-899 | what each query answers, in terms of the same bits |
| Ns2Table.StrengthAcceptedIff | source/device-driver/pinctrl/pinctrl-ns2-mux.c:795-806 | the even strengths from 2 to 16 mA are accepted, and no other |
| Ns2Table.ReportedIsAccepted | source/device-driver/pinctrl/pinctrl-ns2-mux.c:795-839 | whatever a strength query reports can be set |
| Ns2Table.GroupPins | source/device-driver/pinctrl/pinctrl-ns2-mux.c:313-446 | apart from PWM a group has exactly the pins that its multiplexer gives it |
| Ns2Table.PwmGroups | source/device-driver/pinctrl/pinctrl-ns2-mux.c:319-330 | each PWM group is one pin and one bit of the second block, and shares its pin with the groups of one other multiplexer |
| Ns2Driver.Ns2Pinctrl.MuxLogInit | source/device-driver/pinctrl/pinctrl-ns2-mux.c:982-1027 | allocates the log and fills in its nineteen keys, none configured, or fails with ENOMEM and leaves no log |
| Ns2Driver.Ns2Pinctrl.PinmuxSet | source/device-driver/pinctrl/pinctrl-ns2-mux.c:571-634 | the search of the log and the field update |
| Ns2Driver.Ns2Pinctrl.PinmuxEnable | source/device-driver/pinctrl/pinctrl-ns2-mux.c:636-657 | selects a group of the table or refuses the index; an index equal to the size of the table is let through to whatever lies behind the table |
| Ns2Driver.Ns2Pinctrl.PinSetEnable | source/device-driver/pinctrl/pinctrl-ns2-mux.c:659-681 | sets the input-enable bit of the pin's row in the table, which is active low, and no other bit of any register |
| Ns2Driver.Ns2Pinctrl.PinGetEnable | source/device-driver/pinctrl/pinctrl-ns2-mux.c:683-703 | reads the bit of the pin with the same polarity |
| Ns2Driver.Ns2Pinctrl.PinSetSlew | source/device-driver/pinctrl/pinctrl-ns2-mux.c:705-727 | sets the slew bit of the pin's row in the table to 0 or 1, and no other bit of any register |
| Ns2Driver.Ns2Pinctrl.PinSetPull | source/device-driver/pinctrl/pinctrl-ns2-mux.c:746-770 | sets the two pull bits of the pin's row, one for each flag, and no other bit |
| Ns2Driver.Ns2Pinctrl.PinGetPull | source/device-driver/pinctrl/pinctrl-ns2-mux.c:772-793 | decodes the pull field |
| Ns2Driver.Ns2Pinctrl.PinSetStrength | source/device-driver/pinctrl/pinctrl-ns2-mux.c:795-819 | sets an even strength between 2 and 16 mA in the three drive bits of the pin's row, refuses any other |
| Ns2Driver.Ns2Pinctrl.PinConfigGet | source/device-driver/pinctrl/pinctrl-ns2-mux.c:841-899 | answers each kind of query, and refuses pins without a register |
| Ns2Driver.Ns2Pinctrl.PinConfigSet | source/device-driver/pinctrl/pinctrl-ns2-mux.c:901-961 | applies a list, and refuses pins without a register |
| IprocConf.StrengthEffect | source/device-driver/pinctrl/pinctrl-iproc-gpio.c:494-567 | a valid strength reads back from every pin that shares its bits, all other pins keep theirs, and no register below the drive registers changes |
| IprocConf.StrengthPath | source/device-driver/pinctrl/pinctrl-iproc-gpio.c:519-529 | after n of the three writes a pin has the n low bits of the new level and the high bits of the old one |
| IprocConf.StrengthSteadyIff | source/device-driver/pinctrl/pinctrl-iproc-gpio.c:519-529 | the pad keeps to the old or the new strength throughout exactly when at most one bit of the level changes |
| IprocConf.StrengthDips | source/device-driver/pinctrl/pinctrl-iproc-gpio.c:519-529 | on the way from 8 mA to 10 mA the pad drives 2 mA |
| IprocConf.RunEffect | source/device-driver/pinctrl/pinctrl-iproc-gpio.c:619-669 | after any run each pin holds what the accepted configurations that concern it leave, in order |
| IprocConf.ConfigSetEffect | source/device-driver/pinctrl/pinctrl-iproc-gpio.c:619-669 | a list takes effect up to the first refusal and succeeds exactly when there is none; other pins change only in a shared strength |
| IprocConf.RoundTrip | source/device-driver/pinctrl/pinctrl-iproc-gpio.c:569-669 | every accepted configuration reads back |
| IprocConf.OneBias | source/device-driver/pinctrl/pinctrl-iproc-gpio.c:569-603 | exactly one of the three bias queries is answered with yes, whatever the registers hold, unless one is disabled |
| IprocConf.PullSteady | source/device-driver/pinctrl/pinctrl-iproc-gpio.c:461-481 | a change of pull passes through no third pull at any register write, and no other pad changes |
| IprocConf.OutputSteadyIff | source/device-driver/pinctrl/pinctrl-iproc-gpio.c:342-356 | direction_output enables the driver before it writes the level: the pin goes straight to its new state exactly when it was an output already or the data register held the level |
| IprocConf.OutputGlitch | source/device-driver/pinctrl/pinctrl-iproc-gpio.c:329-356 | a pin that drove high, was turned to input and is to drive low drives high first |
| IprocConf.IrqTypeReadsBack | source/device-driver/pinctrl/pinctrl-iproc-gpio.c:242-292 | a valid type is what the three registers then say for that pin and no other; an invalid one changes nothing |
| IprocBits.StrengthAcceptedIff | source/device-driver/pinctrl/pinctrl-iproc-gpio.c:494-505 | the eight even strengths from 2 to 16 mA are accepted, and no other; a refused one changes nothing |
| IprocBits.ReportedIsAccepted | source/device-driver/pinctrl/pinctrl-iproc-gpio.c:494-567 | whatever strength is read from any pin can be set on any other |
| IprocBits.StrengthWritten | source/device-driver/pinctrl/pinctrl-iproc-gpio.c:507-529 | an accepted strength is written as the number of its steps above 2 mA, bit j into the j-th drive register |
| IprocBits.StrengthRead | source/device-driver/pinctrl/pinctrl-iproc-gpio.c:534-567 | the strength read back is 2 mA for each step of the number in the three drive bits |
| IprocBits.AcceptedIff | source/device-driver/pinctrl/pinctrl-iproc-gpio.c:619-669 | which configurations are accepted: the four known kinds unless the board has switched the kind off, and of the strengths the even ones up to 16 mA; a refused one changes nothing |
| IprocBits.ConfBits | source/device-driver/pinctrl/pinctrl-iproc-gpio.c:461-532 | what an accepted configuration leaves in the resistor registers and the drive registers, bit by bit |
| IprocBits.QueryBits | source/device-driver/pinctrl/pinctrl-iproc-gpio.c:569-617 | what each query answers in terms of the same bits; a kind that is switched off is not answered |
| IprocBits.OutputBits | source/device-driver/pinctrl/pinctrl-iproc-gpio.c:342-356 | direction_output changes the output-enable and the level bit of the pin and of no other |
| IprocBits.TypeFires | source/device-driver/pinctrl/pinctrl-iproc-gpio.c:242-292 | after set_type the interrupt of the pin fires exactly when an event of its type is due |
| IprocProofs.SetBitEffect | source/device-driver/pinctrl/pinctrl-iproc-gpio.c:135-157 | setting a bit is seen by that register and that pin alone |
| IprocProofs.SlicesBit | source/device-driver/pinctrl/pinctrl-iproc-gpio.c:553-560 | bit i of the strength read back is the bit of the pin in the i-th register |
| IprocDisable.ListedExact | source/device-driver/pinctrl/pinctrl-iproc-gpio.c:384-437 | a parameter is on the disable list exactly when its bit is in the mask, and at most once |
| IprocDisable.ListedBits | source/device-driver/pinctrl/pinctrl-iproc-gpio.c:384-389 | bits 0 to 3 of a mask switch off drive strength, bias disable, pull up and pull down |
| IprocDisable.OnlyStrengthDisabled | source/device-driver/pinctrl/pinctrl-iproc-gpio.c:738-740 | the board without drive strength refuses that parameter and no other |
| IprocIrq.HandledExact | source/device-driver/pinctrl/pinctrl-iproc-gpio.c:159-189 | each pin whose status bit is set is handled exactly once, in ascending order over any number of banks, and no other pin is |
| IprocIrq.AlwaysClearedFirst | source/device-driver/pinctrl/pinctrl-iproc-gpio.c:173-185 | every handler call comes right after the clearing of its own interrupt |
| IprocIrq.BanksCoverIff | source/device-driver/pinctrl/pinctrl-iproc-gpio.c:779 | for a 32-bit number of pins the computed number of banks covers them all exactly when rounding up does not wrap |
| IprocIrq.ScanCovers | source/device-driver/pinctrl/pinctrl-iproc-gpio.c:778-779 | for every number of pins that a gpio_chip can hold, the scan calls the handler of each pin exactly when its status bit is set, and reads exactly the banks that have a pin |
| IprocDriver.IprocGpio.SetBit | source/device-driver/pinctrl/pinctrl-iproc-gpio.c:135-148 | rewrites one bit of a bank register |
| IprocDriver.IprocGpio.GetBit | source/device-driver/pinctrl/pinctrl-iproc-gpio.c:150-157 | reads the bit of the pin in a bank register |
| IprocDriver.IprocGpio.SetPull | source/device-driver/pinctrl/pinctrl-iproc-gpio.c:461-481 | the pull of a pad |
| IprocDriver.IprocGpio.GetPull | source/device-driver/pinctrl/pinctrl-iproc-gpio.c:483-492 | reads the pull of a pad |
| IprocDriver.IprocGpio.SetStrength | source/device-driver/pinctrl/pinctrl-iproc-gpio.c:494-532 | writes the three slices, in either register block |
| IprocDriver.IprocGpio.GetStrength | source/device-driver/pinctrl/pinctrl-iproc-gpio.c:534-567 | collects the three slices |
| IprocDriver.IprocGpio.DirectionOutput | source/device-driver/pinctrl/pinctrl-iproc-gpio.c:342-356 | enables the driver, then writes the level |
| IprocDriver.IprocGpio.IrqSetType | source/device-driver/pinctrl/pinctrl-iproc-gpio.c:242-292 | writes the three type registers or refuses |
| IprocDriver.IprocGpio.ParamIsDisabled | source/device-driver/pinctrl/pinctrl-iproc-gpio.c:391-404 | finds a parameter on the list exactly when it is there |
| IprocDriver.IprocGpio.DisableMapCreate | source/device-driver/pinctrl/pinctrl-iproc-gpio.c:406-437 | counts, allocates and fills the list, or fails without one |
| IprocDriver.IprocGpio.PinConfigGet | source/device-driver/pinctrl/pinctrl-iproc-gpio.c:569-617 | answers each kind of query unless it is disabled |
| IprocDriver.IprocGpio.PinConfigSet | source/device-driver/pinctrl/pinctrl-iproc-gpio.c:619-669 | applies a list up to the first refusal |
| IprocDriver.IprocGpio.IrqHandler | source/device-driver/pinctrl/pinctrl-iproc-gpio.c:159-189 | the scan, as a sequence of clears and handler calls |

## Left out

- Probe and remove plumbing, clocks, interrupt domains, registration with the kernel's frameworks,
  logging and delays: calls into code that is not part of this model. The initial register and field
  values that probe establishes are modelled.
- Locks: each locked section is one step. The memory model and lock implementation are not modelled.
- I2C after a timeout: an interrupt that arrives late finds a stale message; `Xfer` ends at the
  timeout. `Isr` may be called at any time that `Valid` holds, also before the first transfer, but not
  after a transfer of no messages, which leaves the driver with a pointer behind which there is none.
- I2C message lengths: the length of a message is the length of its buffer, and buffers hold bytes;
  the 16-bit width of the length field is not modelled. Messages may share buffers.
- Register reads with side effects other than those of the I2C FIFO and status: none of the modelled
  registers has any.
- `bcm2835_gpio_irq_handler`: the handlers of the pins are any calls into this driver. An event that
  the controller latches while handlers run is covered by `DispatchExact`, not by the class. For iProc
  the status of each bank is whatever it reads when its turn comes.
- BCM2835 pulls (`bcm2835_pinconf_set`), pin free and direction callbacks: straight-line writes that
  would add easy members.
- `bgpio_get_set` on a chip without a separate output register reads through a null address in the
  driver; here it reads the latch. The output register of a set/clear pair reads as the latch.
- `bgpio_request` and platform-device parsing of `gpio-mmio.c`: one comparison and plumbing.
- `ns2_pinmux_enable` with an index equal to the size of its table: what lies behind the table is a
  parameter. The function index has no effect beyond its check.
- BCM2835 names of groups, pins and functions in the device-tree map: numbers stand for them.
- iProc mask, unmask, acknowledge, set and get: each is one bit of one register, as `SetBitEffect`
  states for all of them.
- `i2c-foo.c`, `i2c-foo2.c`, `gpio-lpc32xx.c`, `gpio-foo*.c`, `pinctrl-my.c`, the character, proc,
  platform and hello modules and the socket programs: duplicates, single-bit writes, incomplete code
  or plumbing.
