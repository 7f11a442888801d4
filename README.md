# nucleo-shared drivers, modelled in Dafny

This project models the core of a small driver stack for STM32F4 boards. The stack provides:

- a byte and record ring buffer, and an event queue built on it;
- an interrupt-driven UART transmitter;
- two I2C master engines:
  - a queued one (`platforms/stm32f411/i2c.c`);
  - an older single-transaction one (`i2c/i2c.c`);
- two SPI masters:
  - a blocking one (`spi/spi.c`);
  - a queued interrupt-driven one (`platforms/stm32f4xx/spi.c`, compiled out in the source);
- two GPIO/EXTI drivers:
  - the platform one (`platforms/stm32f4xx/gpio.c`);
  - the older `gpio/gpio.c`;
- a `printf`-like logger, a line-oriented command shell, and an ESP8266 AT-command response parser.

Peripheral registers are modelled as follows:

- Control registers are bit-vector fields (`bv32`) updated exactly as the C code updates them.
- Status and data registers that the hardware changes are input streams. The `k`-th read of SR or DR returns the `k`-th element, so every branch of every interrupt handler is reachable.
- Writes the driver makes to a data register are recorded, in order, in a trace log.
- Calls the driver makes through registered function pointers (completion callbacks, pre/post hooks, EXTI handlers, CLI command handlers) are also recorded in the trace.

Each engine has a pure specification and an imperative model:

1. The specification is a datatype of its state plus one function per handler step.
2. Lemmas about that specification state what the engine promises. For example:
   - bytes leave in order;
   - a receive stores exactly the bytes read;
   - a transfer completes exactly when both counts reach zero.
3. The imperative model is a class whose fields are the driver's variables.
4. Its methods are proved to move the class's abstract state exactly as the specification step says.

The ring buffer implements `buffer/buffer.c`. Its storage is an array of records. The `start`/`end` indices are kept as byte offsets that are multiples of the record size, as in the C code. The abstract contents are the records from `start` up to `end`.

## Model

| member | source | states |
|---|---|---|
| Ring.Buffer.constructor | buffer/buffer.c:21-32 | a created buffer is empty, keeps the overwrite flag, and has one slot fewer than its storage |
| Ring.Buffer.Capacity | buffer/buffer.c:34-37 | the capacity is the number of slots minus the one always left free |
| Ring.Buffer.Count | buffer/buffer.c:45-59 | the byte-offset arithmetic divided by the record size is exactly the number of queued records |
| Ring.Buffer.IsEmpty | buffer/buffer.c:16-19 | true exactly when no record is queued |
| Ring.Buffer.IsFull | buffer/buffer.c:11-14 | true exactly when as many records are queued as the capacity allows |
| Ring.Buffer.Clear | buffer/buffer.c:39-43 | afterwards nothing is queued; storage, sizes and overwrite flag unchanged |
| Ring.Buffer.Put | buffer/buffer.c:61-78 | the acceptance flag and new contents are those of the queue operation Enqueue: appended when there is room, refused when full without overwrite, oldest dropped first when full with overwrite |
| Ring.Buffer.Get | buffer/buffer.c:80-95 | succeeds exactly when something is queued; then returns the oldest record and leaves the rest in order; otherwise the destination value is returned untouched and nothing changes |
| Ring.Buffer.Front | platforms/stm32f411/i2c.c:494-503 | the record at the head of the queue, left queued; none when empty |
| Ring.Buffer.ReplaceFront | platforms/stm32f411/i2c.c:505-718 | the handler's writes through the head pointer replace the oldest record and leave the others |
| Ring.EnqueueBounded | buffer/buffer.c:61-78 | a put never exceeds the capacity, is accepted exactly when there is room or overwrite is on, and an accepted record is the newest one |
| Ring.EnqueueAllFifo | buffer/buffer.c:61-78 | puts into a queue that never fills append the records in order (first in, first out) |
| Ring.EnqueueAllOverwrite | buffer/buffer.c:61-78 | with overwrite on, any sequence of puts leaves exactly the newest capacity records of everything put |
| Ring.OverwriteOne | buffer/buffer.c:65-75 | one put with overwrite keeps the newest capacity records |
| Ring.NewestAppend | buffer/buffer.c:61-78 | trimming to the newest n and then appending more trims the same as appending first |
| Ring.Window | buffer/buffer.c:49-56 | the queued records are the slots from the head, wrapping round the storage |
| Ring.SlotsAreSlots | buffer/buffer.c:11-19 | offsets that are multiples of the record size name distinct slots, so comparing offsets compares slots |
| Ring.NextSlot | buffer/buffer.c:6-9 | NextIndex on the offset of slot k is the offset of slot k+1, wrapping to slot 0 |
| Ring.CountIsSlots | buffer/buffer.c:45-59 | BufferCount's two branches, divided by the record size, give the slot distance from head to tail |
| Ring.PutSlots | buffer/buffer.c:61-78 | writing at the tail and advancing tail (and head when full) changes the queued window as Enqueue with overwrite says; full means capacity records are queued |
| Ring.WindowUpdate | buffer/buffer.c:74-75 | writing the slot after the window extends the window by that record |
| Ring.WindowDrop | buffer/buffer.c:91-92 | advancing the head drops exactly the oldest record |
| EventQueue.EventQueue.Init | event/event.c:7-13 | the queue starts empty |
| EventQueue.EventQueue.Enqueue | event/event.c:15-20 | always accepted; the queue holds the 15 newest events posted, oldest first |
| EventQueue.EventQueue.Dequeue | event/event.c:22-27 | the oldest event is returned and removed; false with nothing changed when the queue is empty |
| EventQueue.KeepsNewest | event/event.c:8-19 | any sequence of posts to an empty queue leaves exactly the 15 newest events in posting order |
| Uart.EnableTxe | uart/uart.c:186-191 | TXEIE set, TCIE as it was |
| Uart.TxeToTc | uart/uart.c:193-205 | TXEIE cleared and TCIE set |
| Uart.DisableTc | uart/uart.c:207-212 | TCIE cleared, TXEIE as it was |
| Uart.InitCr1 | uart/uart.c:130-149 | transmitter, receiver and USART enabled, 8 data bits, no parity, oversampling by 16, every other CR1 bit kept |
| Uart.InitCr2 | uart/uart.c:142-143 | one stop bit, every other CR2 bit kept |
| Uart.Sent | uart/uart.c:222 | the bytes written to DR, in order, taken from the register trace |
| Uart.SentSnoc | uart/uart.c:222 | a DR write adds exactly its byte to what was sent; other operations add nothing |
| Uart.StartStep | uart/uart.c:214-231 | UartStart keeps the queue within capacity and the transmit flags consistent |
| Uart.WriteStep | uart/uart.c:170-184 | UartWrite keeps the queue within capacity and the transmit flags consistent |
| Uart.OnTxe | uart/uart.c:262-273 | the TX branch keeps the invariant and reads SR once |
| Uart.OnTc | uart/uart.c:277-285 | the TC branch keeps the invariant |
| Uart.InterruptStep | uart/uart.c:257-286 | UartOnInterrupt keeps the invariant |
| Uart.Initial | uart/uart.c:95-97 | after UartInit nothing is transmitting, completed, queued or sent |
| Uart.StartKeepsOrder | uart/uart.c:214-231 | what has been sent followed by what is queued never changes across UartStart |
| Uart.InterruptKeepsOrder | uart/uart.c:257-286 | the interrupt handler neither loses, duplicates nor reorders bytes |
| Uart.TxeKeepsOrder | uart/uart.c:262-273 | the TX branch moves the oldest queued byte to DR and nothing else |
| Uart.TcKeepsOrder | uart/uart.c:277-285 | the TC branch sends nothing and keeps the queue |
| Uart.WriteAppends | uart/uart.c:170-184 | while the queue has room, UartWrite adds its bytes after everything sent or queued, in order |
| Uart.WriteKeepsNewest | uart/uart.c:172-175 | on overflow the queue keeps the newest capacity bytes |
| Uart.WriteStarts | uart/uart.c:177-183 | a write starts a transmission only when none runs: the first byte goes to DR with TXE enabled, isTransmitting set and isTransmitCompeted cleared, or, with nothing queued, the transmission is over at once; a running transmission is only fed |
| Uart.TxeThenTc | uart/uart.c:262-285 | TXE with TXEIE sends the next byte or switches TXE off and TC on; TC with TCIE clears TC, switches TCIE off and ends the transmission; without the flag and enable bit nothing but the SR read happens |
| Uart.NotIdleAfterInit | uart/uart.c:288-291 | UartIdle is false straight after UartInit |
| Uart.CompletedOnlyAtEnd | uart/uart.c:228-229 | a TXE interrupt never reports completion; the TC interrupt does only when TC is flagged and TCIE set |
| Uart.StrandedAfterTc | uart/uart.c:177-183 | a byte written after the queue emptied but before TC fires is stranded: TC reports completion with the byte still queued and TXEIE off |
| Uart.UartIrq.constructor | uart/uart.c:14-16 | no object registered, not initialised |
| Uart.UartIrq.Dispatch | uart/uart.c:160-168 | the interrupt vector runs UartOnInterrupt on the object registered for that UART |
| Uart.UartPort.Init | uart/uart.c:89-158 | flags cleared, CR1/CR2 configured, BRR programmed, queue created empty with overwrite over the storage, object registered |
| Uart.UartPort.Write | uart/uart.c:170-184 | the new transmitter state is WriteStep of the old one |
| Uart.UartPort.PutAll | uart/uart.c:172-175 | the loop of BufferPut calls leaves the queue as the sequence of overwrite puts says |
| Uart.UartPort.Start | uart/uart.c:214-231 | the new state is StartStep of the old one |
| Uart.UartPort.OnInterrupt | uart/uart.c:257-286 | the new state is InterruptStep of the old one |
| Uart.UartPort.TxPart | uart/uart.c:262-273 | the new state is OnTxe of the old one |
| Uart.UartPort.TcPart | uart/uart.c:277-285 | the new state is OnTc of the old one |
| Uart.EnqueueAllSnoc | uart/uart.c:172-175 | one more put extends the run of puts |
| Log.StrLen | lib/services/log/log.c:26-33 | strlen: the length is the position of the first NUL, every character before it is not NUL |
| Log.MessageWhole | lib/services/log/log.c:24-36 | a string shorter than 256 characters without a NUL is sent whole after the current level's prefix |
| Log.Item | lib/services/log/log.c:121-184 | one format item consumes at least one format character and at most one argument, and what follows still fits its arguments |
| Log.ByteChar | lib/services/log/log.c:154-158 | the int argument of %c narrowed to char: below 256, equal to the argument modulo 256, the argument itself when it is a byte |
| Log.CharNarrowed | lib/services/log/log.c:154-158 | "%c" sends one character, the low 8 bits of its int argument, so x and x + 256 print the same |
| Log.ItemString | lib/services/log/log.c:147-152 | %s sends the prefix and the string and reads one argument |
| Log.RenderChar | lib/services/log/log.c:179-184 | a character other than '%' is sent as it is and reads no argument |
| Log.Verbatim | lib/services/log/log.c:119-185 | a format without conversions is sent exactly as written |
| Log.Escape | lib/services/log/log.c:161-176 | %% sends '%', % CR and % LF send CR LF, an unknown conversion sends '?' |
| Log.StringGetsPrefix | lib/services/log/log.c:147-152 | "%s" sends the current level's prefix followed by the string |
| Log.UnsignedAsSigned | lib/services/log/log.c:133-137 | %u goes through an int32_t cast, so 0xFFFFFFFF prints as "-1" |
| Log.DigitsRoundTrip | lib/services/log/log.c:82-90 | the decimal digits printed read back as the number |
| Log.DigitsCanonical | lib/services/log/log.c:82-85 | every character of a magnitude is a digit, and only 0 starts with '0' |
| Log.DecSign | lib/services/log/log.c:76-80 | a '-' is sent exactly for negative values, and the rest is the magnitude's digits |
| Log.NibblesValue | lib/services/log/log.c:58-61 | the nibbles the loop extracts, high first, have the value of the low bits of the number |
| Log.DropZerosValue | lib/services/log/log.c:58-66 | dropping leading zero nibbles keeps the value |
| Log.HexRoundTrip | lib/services/log/log.c:43-68 | the intended hex output is "0x" followed by digits that read back as the 32-bit value |
| Log.HexAsWrittenCollides | lib/services/log/log.c:63-66 | as written, every '0' digit is skipped, so 0x10 and 0x1 both print "0x1" |
| Log.HexKeepsInnerZero | lib/services/log/log.c:58-66 | the corrected output prints 0x10 as "0x10" and 0x1 as "0x1" |
| Log.HexAsWrittenNoZero | lib/services/log/log.c:58-66 | as written, no digit after "0x" of a non-zero value is '0' |
| Log.PrintHex | lib/services/log/log.c:43-68 | the loop as written, from bit 28 down: "0x", "00" for zero, then every digit that is not '0', high to low |
| Log.PrintHexIntended | lib/services/log/log.c:43-68 | the same loop sending from the first non-zero nibble on: the intended hex string, which reads back as the value |
| Log.PrintDec | lib/services/log/log.c:70-91 | the sign, the digits stored backwards in the 12-character buffer and sent in reverse give the decimal text of the value |
| Log.StoreDigits | lib/services/log/log.c:82-85 | the do-while leaves the digits of the value in the buffer, least significant first, between 1 and 12 of them |
| Log.SendBackwards | lib/services/log/log.c:87-90 | the while (i--) loop sends the stored characters from the last to the first |
| Log.PrintMessage | lib/services/log/log.c:24-36 | the prefix when it is not empty, then the message up to its NUL, its length taken as a uint8_t |
| Log.PrintItem | lib/services/log/log.c:121-184 | one turn of LogPrint's loop sends what its item prints and advances format and arguments as the item says |
| Log.Format | lib/services/log/log.c:119-185 | the loop sends the rendering of the whole format with its arguments |
| Log.Logger.constructor | lib/services/log/log.c:8 | the level starts at LOG_LEVEL_DEBUG and nothing has been sent |
| Log.Logger.SetLevel | lib/services/log/log.c:102-107 | the given level is stored |
| Log.Logger.Print | lib/services/log/log.c:109-188 | the rendered format is appended to the output; nothing at LOG_LEVEL_NONE |
| Cli.SplitLine | lib/services/cli/cli.c:17-42 | the walk up to the NUL turns exactly the whitespace into NULs and returns the first maxArgs token starts, in order, with their count |
| Cli.SplitStep | lib/services/cli/cli.c:23-39 | one step of the walk: whitespace adds no start, a character after whitespace or at the start adds its position while fewer than maxArgs are recorded, any other character adds nothing |
| Cli.StartsExact | lib/services/cli/cli.c:23-39 | a position is recorded exactly when it is a non-whitespace character at the start of the line or after whitespace |
| Cli.StartsIncrease | lib/services/cli/cli.c:34 | token starts are recorded in increasing order |
| Cli.WordIsToken | lib/services/cli/cli.c:25-27 | after the walk, the C string at a token start is exactly the token: the characters up to the next whitespace or the end of the line |
| Cli.RunChars | lib/services/cli/cli.c:25-30 | a token holds neither whitespace nor NUL and ends at whitespace or at the end of the line |
| Cli.TokenShape | lib/services/cli/cli.c:17-42 | every argv string is non-empty and free of whitespace |
| Cli.Copied | lib/services/cli/cli.c:80-82 | the corrected copy is exactly the 64-character line buffer |
| Cli.CopiedHasNul | lib/services/cli/cli.c:82-84 | the corrected copy always holds a NUL inside the buffer |
| Cli.CopiedTerminated | lib/services/cli/cli.c:82 | the corrected copy ends in NUL and its C string is the source's, cut at 63 characters |
| Cli.StrnCopy | lib/services/cli/cli.c:82 | strncpy with 63: the characters up to the source's NUL, padded with NUL, fill the first 63 places; the last place is untouched |
| Cli.CopyAsWritten | lib/services/cli/cli.c:80-82 | as written, buff[63] keeps whatever the stack left in it |
| Cli.CopyLine | lib/services/cli/cli.c:80-82 | the corrected copy: strncpy followed by a NUL at buff[63] gives the terminated line |
| Cli.UnterminatedCopy | lib/services/cli/cli.c:82-84 | as written, a 63-character line leaves buff without any NUL whenever buff[63] was not NUL, so SplitLine walks past the buffer |
| Cli.LongLineReachesCopy | lib/services/cli/cli.c:56-67 | 63 characters followed by CR reach CliProcessLine with all 63 kept, so the unterminated copy is reachable from the receive handler |
| Cli.Words | lib/services/cli/cli.c:82-84 | one argv string for each recorded token start |
| Cli.FirstMatch | lib/services/cli/cli.c:91-99 | the index of a matching command, or the number of commands when none matches |
| Cli.FirstMatchExact | lib/services/cli/cli.c:91-99 | the search finds a command whose name is the first word, and no earlier command has that name |
| Cli.FirstMatchAt | lib/services/cli/cli.c:91-99 | the first index whose name matches, with none before it, is the search's result |
| Cli.UnknownMessage | lib/services/cli/cli.c:101 | an unknown command is reported as "Unknown command: ", the level's prefix, the word and CR LF |
| Cli.BlankLineIgnored | lib/services/cli/cli.c:86-89 | a blank or empty line changes nothing: no handler call, no output |
| Cli.NonBlankLineHandled | lib/services/cli/cli.c:84-101 | a line with a non-whitespace character yields at least one argument, so it goes to a handler or to the report |
| Cli.Registered | lib/services/cli/cli.c:104-114 | a command is appended while fewer than ten are registered; otherwise the list is unchanged |
| Cli.RegisterKeepsFirst | lib/services/cli/cli.c:104-114 | a later registration never takes a name away from the command registered first with it |
| Cli.EchoRender | lib/services/cli/cli.c:54 | LogPrint("%c") sends the character narrowed to 8 bits, which for a received byte is the byte itself, except at LOG_LEVEL_NONE |
| Cli.NewLineRender | lib/services/cli/cli.c:58 | LogPrint("\r\n") sends CR LF, except at LOG_LEVEL_NONE |
| Cli.Echo | lib/services/cli/cli.c:52-54 | every received byte is echoed first, as its character narrowed to 8 bits, before anything else the handler sends for it |
| Cli.ProcessExtends | lib/services/cli/cli.c:76-102 | processing a line only appends to the output |
| Cli.FedBound | lib/services/cli/cli.c:64-67 | the pending line never holds more than 63 characters |
| Cli.KeepsFirst | lib/services/cli/cli.c:64-67 | without an end of line, the first 63 received characters are kept and the rest dropped |
| Cli.Shell.constructor | lib/services/cli/cli.c:11-15 | no command registered, the line index at 0, no handler called |
| Cli.Shell.RegisterCommand | lib/services/cli/cli.c:104-114 | the command list becomes Registered of the old list |
| Cli.Shell.ProcessLine | lib/services/cli/cli.c:76-102 | handler calls and output are those Process gives for the line: nothing for a blank line, the first matching command with argc and argv, otherwise the unknown-command report |
| Cli.Shell.Receive | lib/services/cli/cli.c:50-67 | one byte moves the shell's state as Fed says: echo, then either the end of the line or storage while room remains |
| Cli.Shell.EndLine | lib/services/cli/cli.c:56-63 | CR LF sent, the line terminated and processed, the index back at 0 |
| Cli.Shell.OnUartRxCompleted | lib/services/cli/cli.c:44-69 | the state after the received bytes is that of feeding them one by one |
| Cli.Tokenise | lib/services/cli/cli.c:80-84 | the copy and SplitLine give argc and the argv strings of the line |
| Cli.WordsAt | lib/services/cli/cli.c:93-95 | one C string per argv offset, each read at its offset |
| Cli.FindCommand | lib/services/cli/cli.c:91-99 | the strcmp loop stops at the first registered command named like the first word, or runs past the end |
| Common.Chars | lib/drivers/esp8266/esp8266.c:30 | each byte becomes the character with its code, and the length is kept |
| Esp.SearchFinds | lib/drivers/esp8266/esp8266.c:65-83 | the strstr scan reports a match exactly when the keyword occurs somewhere in the text |
| Esp.ParsePriority | lib/drivers/esp8266/esp8266.c:63-89 | each result is returned exactly when its keyword occurs in the C string and no keyword tested before it does; Unknown exactly when none occurs |
| Esp.OkWins | lib/drivers/esp8266/esp8266.c:65-68 | "OK" anywhere in the C string gives OK, whatever else the response says |
| Esp.StopsAtNul | lib/drivers/esp8266/esp8266.c:63-89 | text after the terminator never affects the result |
| Esp.LedOffIsOff | lib/drivers/esp8266/esp8266.c:77-84 | "LED_OFF" is classified LED_OFF although LED_ON is tested first |
| Esp.CleanText | lib/drivers/esp8266/esp8266.c:28-30 | a terminated text is read back whole |
| Esp.Driver.constructor | lib/drivers/esp8266/esp8266.c:9-11 | a 128-byte response buffer, no handler, nothing sent or reported |
| Esp.Driver.RegisterResponseHandler | lib/drivers/esp8266/esp8266.c:58-61 | the new handler replaces the old one |
| Esp.Driver.SendCommand | lib/drivers/esp8266/esp8266.c:50-56 | two writes to the UART: the command with its length taken as a uint8_t, then CR LF |
| Esp.Driver.OnUartReceiveCompleted | lib/drivers/esp8266/esp8266.c:15-41 | a response shorter than 128 bytes is drained in order into the buffer, terminated, classified and reported to the handler when one is registered; a longer one is left queued and nothing happens |
| Esp.Notify | lib/drivers/esp8266/esp8266.c:32-35 | one handler call when a handler is registered, none otherwise |
| Esp.Drain | lib/drivers/esp8266/esp8266.c:23-26 | the BufferGet loop moves exactly the queued bytes, in order, into the buffer and empties the queue, the rest of the buffer untouched |
| I2cTypes.AddressWrite | platforms/stm32f411/i2c.c:517 | the address byte of a write: the 7-bit address in bits 7-1, R/W bit clear |
| I2cTypes.AddressRead | platforms/stm32f411/i2c.c:521 | the address byte of a read: the 7-bit address in bits 7-1, R/W bit set |
| I2cTypes.BytesRead | platforms/stm32f411/i2c.c:535-717 | the bytes a register trace read from DR, in order |
| I2cTypes.BytesWritten | platforms/stm32f411/i2c.c:664-678 | the data bytes a register trace wrote to DR, in order |
| I2cTypes.BytesReadAppend | platforms/stm32f411/i2c.c:535-717 | the bytes read by two trace pieces are those of the first then the second |
| I2cTypes.BytesWrittenAppend | platforms/stm32f411/i2c.c:664-678 | the bytes written by two trace pieces are those of the first then the second |
| I2cTypes.Calls | platforms/stm32f411/i2c.c:593-603 | the callbacks a trace invoked with their contexts, in order |
| I2cTypes.CallsAppend | platforms/stm32f411/i2c.c:593-603 | the calls of two trace pieces are those of the first then the second |
| I2cTypes.AddrReceive | i2c/i2c.c:418-454 | on ADDR in a master receive (section 18.3.3 of RM0383): ADDR is always cleared; STOP follows it exactly for 0 or 1 byte; ACK is on exactly for 3 or more bytes; POS is set exactly for 2; nothing else changes and no data moves |
| I2cClock.AhbCode | platforms/stm32f411/i2c.c:174 | the HPRE field, below 16 |
| I2cClock.Apb1Code | platforms/stm32f411/i2c.c:175 | the PPRE1 field, below 8 |
| I2cClock.AhbDivisor | platforms/stm32f411/i2c.c:201-208 | a power of two, 1 exactly for codes below 8 |
| I2cClock.Apb1Divisor | platforms/stm32f411/i2c.c:210-217 | a power of two, 1 exactly for codes below 4 |
| I2cClock.SystemClock | platforms/stm32f411/i2c.c:158-199 | HSI 16 MHz, HSE 8 MHz, PLL 0 as the query returns; never above 16 MHz |
| I2cClock.Pclk1 | platforms/stm32f411/i2c.c:168-222 | dividing by the AHB divisor and then by the APB1 divisor is one division by their product, and never exceeds the system clock |
| I2cClock.DivideTwice | platforms/stm32f411/i2c.c:219 | two successive integer divisions equal one division by the product |
| I2cClock.FrequencyField | platforms/stm32f411/i2c.c:224-232 | CR2 FREQ receives PCLK1 in whole MHz, masked to six bits |
| I2cClock.SpeedFactor | platforms/stm32f411/i2c.c:328-346 | the period factor of each mode is positive: 2 standard, 3 fast, 25 fast with duty |
| I2cClock.CcrValue | platforms/stm32f411/i2c.c:321-362 | the programmed CCR fits the 12-bit field |
| I2cClock.CcrIsLargestFastEnough | platforms/stm32f411/i2c.c:321-362 | when neither the minimum nor the mask intervenes, CCR is the largest value whose SCL period is no longer than the requested one |
| I2cClock.InitCcr | platforms/stm32f411/i2c.c:414-429 | after I2C_Clock, I2C_Mode and I2C_Duty: CCR in its field, FS set exactly in fast mode, DUTY as configured |
| I2cClock.RiseTime | platforms/stm32f411/i2c.c:234-263 | TRISE is at least 1, and at most 63 in fast mode |
| I2cClock.RiseTimeCoversMaxRise | platforms/stm32f411/i2c.c:234-263 | TRISE is one more than the maximum rise time in PCLK1 periods: 1000 ns standard, 300 ns fast rounded down, unless capped at 63 |
| I2cClock.FrequencyMHz | i2c/i2c.c:170-220 | PCLK1 in whole MHz truncated to a uint8_t |
| I2cClock.RiseTimeSingle | i2c/i2c.c:240-247 | (frequency + 1) masked to six bits |
| I2cClock.RiseTimeSingleIgnoresTruncation | i2c/i2c.c:170-247 | the written rise time is (PCLK1 in MHz + 1) modulo 64 whatever the uint8_t truncation did |
| I2cSingle.Submit | i2c/i2c.c:747-797 | submitting keeps the engine invariant: the event interrupt is on only with a transaction set |
| I2cSingle.OnSb | i2c/i2c.c:401-407 | SB moves no data and keeps the transaction |
| I2cSingle.OnAddr | i2c/i2c.c:409-455 | ADDR moves no data and keeps the transaction |
| I2cSingle.OnBtf | i2c/i2c.c:457-515 | BTF keeps the invariant and leaves the reads RXNE may need |
| I2cSingle.OnTxe | i2c/i2c.c:531-545 | TXE keeps the invariant |
| I2cSingle.OnRxne | i2c/i2c.c:547-569 | RXNE keeps the invariant |
| I2cSingle.Early | i2c/i2c.c:398-515 | SB, ADDR and BTF in order keep the invariant |
| I2cSingle.Late | i2c/i2c.c:531-569 | TXE and RXNE in order keep the invariant |
| I2cSingle.Handle | i2c/i2c.c:394-570 | the event handler keeps the invariant |
| I2cSingle.Reads | i2c/i2c.c:705-710 | one DR read per byte, in order |
| I2cSingle.ReadsAppend | i2c/i2c.c:705-710 | reads of two byte runs are the reads of the first then the second |
| I2cSingle.ReceiveCtl | i2c/i2c.c:694-736 | after the blocking receive ACK is on, and POS is cleared again exactly when the receive set it |
| I2cSingle.SingleEngine.Init | i2c/i2c.c:283-349 | software reset, FREQ from RCC_GetFrequency masked to 6 bits, ACK on, standard mode with CCR overwritten to 80, TRISE from the same frequency, peripheral enabled, interrupts off, no transaction |
| I2cSingle.SingleEngine.Deinit | i2c/i2c.c:351-377 | peripheral disabled and not initialised, every other setting kept |
| I2cSingle.SingleEngine.SubmitAs | i2c/i2c.c:747-797 | the returned state and new engine are those of Submit |
| I2cSingle.SingleEngine.MasterTransmitIT | i2c/i2c.c:747-771 | Submit for a transmit |
| I2cSingle.SingleEngine.MasterReceiveIT | i2c/i2c.c:773-797 | Submit for a receive |
| I2cSingle.SingleEngine.Read | i2c/i2c.c:556-557 | one byte from DR appended to the receive buffer, one fewer expected |
| I2cSingle.SingleEngine.SbPhase | i2c/i2c.c:401-407 | the engine moves as OnSb says |
| I2cSingle.SingleEngine.AddrPhase | i2c/i2c.c:409-455 | the engine moves as OnAddr says |
| I2cSingle.SingleEngine.BtfPhase | i2c/i2c.c:457-515 | the engine moves as OnBtf says |
| I2cSingle.SingleEngine.EarlyPhases | i2c/i2c.c:398-515 | the engine moves as Early says |
| I2cSingle.SingleEngine.LatePhases | i2c/i2c.c:531-569 | the engine moves as Late says |
| I2cSingle.SingleEngine.IrqEventHandler | i2c/i2c.c:394-570 | the engine moves as Handle says; clock settings untouched |
| I2cSingle.SingleEngine.MasterReceive | i2c/i2c.c:617-737 | with every wait satisfied, exactly len bytes from DR land in order in the caller's buffer and the rest of it is untouched; the register actions are START, the read address, the ADDR policy, the byte-count reads, ACK on |
| I2cSingle.SingleEngine.ReceiveFinish | i2c/i2c.c:735-736 | ACK enabled again |
| I2cSingle.SingleEngine.ReceiveAddress | i2c/i2c.c:626-703 | START, the address with R/W set, and the ADDR policy for the byte count |
| I2cSingle.SingleEngine.ReceiveAll | i2c/i2c.c:649-733 | the data phase stores exactly len bytes in order and leaves the control bits as each case leaves them |
| I2cSingle.SingleEngine.ReceiveOne | i2c/i2c.c:662-667 | one byte read after the STOP already requested |
| I2cSingle.SingleEngine.ReceiveTwo | i2c/i2c.c:683-694 | STOP, two reads, POS cleared |
| I2cSingle.SingleEngine.ReceiveLoop | i2c/i2c.c:705-710 | every byte but the last three read in order |
| I2cSingle.SingleEngine.ReceiveLastThree | i2c/i2c.c:713-732 | ACK off, read N-2, STOP, read N-1 and N |
| I2cSingleRuns.HandleStep | i2c/i2c.c:394-570 | a handler call advances the transaction, goes idle only when it is finished, logs exactly the bytes it moves, and neither disables an interrupt nor calls back |
| I2cSingleRuns.Run | i2c/i2c.c:394-570 | any run of handler calls keeps the invariant |
| I2cSingleRuns.RunAdvances | i2c/i2c.c:394-570 | the properties of one handler call hold for any run of calls |
| I2cSingleRuns.ReceiveStoresExactly | i2c/i2c.c:547-569 | a receive that went idle stored exactly its rxLen bytes, the first ones DR delivered, in order, and wrote nothing |
| I2cSingleRuns.TransmitSendsExactly | i2c/i2c.c:531-545 | a transmit that went idle wrote exactly its txLen bytes to DR, in order, and read nothing |
| I2cSingleRuns.ZeroLengthReceiveNeverIdles | i2c/i2c.c:421-425 | a zero-byte receive issues STOP on ADDR but stays busy for good |
| I2cSingleRuns.IdleIsFinal | i2c/i2c.c:469-502 | completion neither disables the event interrupt nor calls back, and an idle transaction stays exactly as it is |
| I2cSingleRuns.SbSendsStoredAddress | i2c/i2c.c:401-407 | on SB the stored devAddress is written as it is, whatever the state |
| I2cSingleRuns.EarlyAfterSb | i2c/i2c.c:398-515 | ADDR and BTF after SB carry on from the state SB left |
| I2cSingleRuns.SubmitOutcomes | i2c/i2c.c:747-797 | a busy transaction comes back with its own state and no effect; an idle one is stored with its address shifted and R/W set for its direction, interrupts on and START requested, replacing any transaction in flight |
| I2cSingleRuns.ResubmitShiftsAgain | i2c/i2c.c:760 | the address is encoded in the caller's transaction, so submitting 0x50 twice sends 0xA0 and then 0x40 |
| I2cSingleRuns.ReceiveReadsExactly | i2c/i2c.c:617-737 | the blocking receive reads exactly len bytes, writes none and calls nothing |
| I2cSingleRuns.ReceiveStopsOnce | i2c/i2c.c:617-737 | the blocking receive requests STOP exactly once for every byte count |
| I2cSingleRuns.Cons | i2c/i2c.c:394-570 | what one register action followed by others reads, writes and calls |
| I2cQueued.Submit | platforms/stm32f411/i2c.c:895-945 | submitting keeps the engine invariant: the queue within capacity, a current transaction at its head, every queued transaction busy |
| I2cQueued.OnSb | platforms/stm32f411/i2c.c:510-523 | SB moves no data and keeps the transaction |
| I2cQueued.AddressByte | platforms/stm32f411/i2c.c:515-522 | the 7-bit address in bits 7-1, R/W set exactly when the transaction is not a transmit |
| I2cQueued.OnAddr | platforms/stm32f411/i2c.c:525-572 | ADDR moves no data and keeps the transaction |
| I2cQueued.OnBtf | platforms/stm32f411/i2c.c:574-648 | BTF keeps the working invariant and leaves the read RXNE may need |
| I2cQueued.OnTxe | platforms/stm32f411/i2c.c:664-678 | TXE keeps the working invariant |
| I2cQueued.OnRxne | platforms/stm32f411/i2c.c:680-717 | RXNE keeps the working invariant |
| I2cQueued.Finish | platforms/stm32f411/i2c.c:505-718 | writing the working copy back into the head slot keeps the engine invariant |
| I2cQueued.Early | platforms/stm32f411/i2c.c:507-648 | SB, ADDR and BTF in order keep the working invariant |
| I2cQueued.Late | platforms/stm32f411/i2c.c:664-717 | TXE and RXNE in order keep the working invariant |
| I2cQueued.Handle | platforms/stm32f411/i2c.c:490-718 | the event handler keeps the engine invariant |
| I2cQueued.Worked | platforms/stm32f411/i2c.c:505-717 | the working state after every enabled phase keeps the working invariant |
| I2cQueued.Begin | platforms/stm32f411/i2c.c:494-503 | the queue head becomes (or stays) the current transaction |
| I2cQueued.I2cEngine.Init | platforms/stm32f411/i2c.c:364-442 | FREQ, CCR and TRISE programmed from PCLK1, ACK as configured, interrupts off, an empty queue over the storage with no overwrite, no current transaction, peripheral enabled and initialised, I2C_1 recorded for its vector |
| I2cQueued.I2cEngine.Deinit | platforms/stm32f411/i2c.c:444-470 | peripheral disabled and not initialised, everything else kept |
| I2cQueued.I2cEngine.SubmitAs | platforms/stm32f411/i2c.c:895-945 | the result, the caller's transaction and the new engine are those of Submit |
| I2cQueued.I2cEngine.MasterTransmitIT | platforms/stm32f411/i2c.c:895-919 | Submit for a transmit |
| I2cQueued.I2cEngine.MasterReceiveIT | platforms/stm32f411/i2c.c:921-945 | Submit for a receive |
| I2cQueued.I2cEngine.Read | platforms/stm32f411/i2c.c:687-688 | one byte from DR appended to the working copy's buffer |
| I2cQueued.I2cEngine.CompleteCurrent | platforms/stm32f411/i2c.c:593-603 | idle, no current transaction, interrupts off, the head dequeued and finished, the callback called when set |
| I2cQueued.I2cEngine.SbPhase | platforms/stm32f411/i2c.c:510-523 | the engine moves as OnSb says |
| I2cQueued.I2cEngine.AddrPhase | platforms/stm32f411/i2c.c:525-572 | the engine moves as OnAddr says |
| I2cQueued.I2cEngine.BtfPhase | platforms/stm32f411/i2c.c:574-648 | the engine moves as OnBtf says |
| I2cQueued.I2cEngine.TxePhase | platforms/stm32f411/i2c.c:664-678 | the engine moves as OnTxe says |
| I2cQueued.I2cEngine.RxnePhase | platforms/stm32f411/i2c.c:680-717 | the engine moves as OnRxne says |
| I2cQueued.I2cEngine.EarlyPhases | platforms/stm32f411/i2c.c:507-648 | the engine moves as Early says |
| I2cQueued.I2cEngine.LatePhases | platforms/stm32f411/i2c.c:664-717 | the engine moves as Late says |
| I2cQueued.I2cEngine.IrqEventHandler | platforms/stm32f411/i2c.c:490-718 | the engine moves as Handle says; clock settings and the queue storage kept |
| I2cQueued.I2cEngine.Drive | platforms/stm32f411/i2c.c:505-718 | once the head is current, the enabled phases run on it and the result is written back |
| I2cQueued.I2cEngine.WriteBack | platforms/stm32f411/i2c.c:505-718 | a transaction still current is stored back into the head slot |
| I2cQueued.IrqTable.constructor | platforms/stm32f411/i2c.c:15 | no handle recorded |
| I2cQueued.IrqTable.I2c1EventIrq | platforms/stm32f411/i2c.c:472-475 | the vector runs the event handler on the recorded I2C_1 handle |
| I2cQueuedRuns.HandleStep | platforms/stm32f411/i2c.c:490-718 | a handler call on a non-empty queue either completes the head (removed, finished, having moved its bytes) or leaves it current at the front, the rest of the queue untouched |
| I2cQueuedRuns.RunUntilDone | platforms/stm32f411/i2c.c:490-718 | any run of handler calls up to the head's completion keeps the invariant |
| I2cQueuedRuns.RunHead | platforms/stm32f411/i2c.c:490-718 | over any run of calls the head stays at the front until it completes as the one transaction removed, having moved exactly its bytes |
| I2cQueuedRuns.ReceiveStoresExactly | platforms/stm32f411/i2c.c:680-717 | a completed receive stored exactly its rxLen bytes, the first ones DR delivered, in order, and wrote nothing |
| I2cQueuedRuns.TransmitSendsExactly | platforms/stm32f411/i2c.c:664-678 | a completed transmit wrote exactly its txLen bytes to DR, in order, and read nothing |
| I2cQueuedRuns.ZeroLengthReceiveNeverCompletes | platforms/stm32f411/i2c.c:535-541 | a zero-byte receive issues STOP but never completes, blocking the queue |
| I2cQueuedRuns.DisabledHandlerOnlyFetches | platforms/stm32f411/i2c.c:494-513 | with the event interrupt disabled the handler only makes the head current |
| I2cQueuedRuns.CompletionStallsQueue | platforms/stm32f411/i2c.c:593-603 | a completion switches every interrupt off even with more work queued, so no later handler call makes progress until the next submit |
| I2cQueuedRuns.SubmitOutcomes | platforms/stm32f411/i2c.c:895-945 | Error exactly when not initialised, with no effect; QueueFull exactly when the queue is full, the caller's state already set; otherwise the transaction joins the tail, interrupts on and START requested |
| I2cQueuedRuns.SubmitsQueueInOrder | platforms/stm32f411/i2c.c:907 | transactions are queued in submission order while there is room |
| I2cQueuedRuns.SbSendsAddress | platforms/stm32f411/i2c.c:510-523 | on SB the first action is the address byte, R/W set exactly for a receive |
| I2cQueuedRuns.AfterSb | platforms/stm32f411/i2c.c:525-717 | everything after SB in the same call only appends to the trace |
| I2cQueuedRuns.EarlyAfterSb | platforms/stm32f411/i2c.c:525-648 | ADDR and BTF after SB carry on from the state SB left |
| Spi.Cpol | spi/spi.c:179-186 | CPOL set exactly when asked, every other bit kept |
| Spi.Cpha | spi/spi.c:188-195 | CPHA set exactly when asked, every other bit kept |
| Spi.Mode | spi/spi.c:175-196 | CPOL set exactly for CPOL_1, CPHA exactly for CPHA_1, every other CR1 bit kept |
| Spi.Format | spi/spi.c:198-226 | master, software slave management with SSI high; LSBFIRST, RXONLY, DFF, CRCEN, CRCNEXT and BIDIMODE clear; every other bit kept |
| Spi.Br | spi/spi.c:273-274 | the BR field, at most 7 |
| Spi.SetBr | spi/spi.c:273-274 | the BR field holds the code written, every other bit kept |
| Spi.BrCode | spi/spi.c:274 | the code as a register word with the same value |
| Spi.BrOfSetBr | spi/spi.c:273-274 | reading back the BR field gives the code written |
| Spi.Enable | spi/spi.c:306-311 | SPE set, every other bit kept |
| Spi.Disable | spi/spi.c:313-318 | SPE cleared, every other bit kept |
| Spi.ApbDivisor | spi/spi.c:239-246 | at least 1, and 1 exactly for codes below 4 |
| Spi.PpreCode | spi/spi.c:238 | the PPRE2 or PPRE1 field, below 8 |
| Spi.PeripheralClock | spi/spi.c:234-263 | SystemCoreClock divided by the divisor of the SPI's APB bus (APB2 for SPI1, SPI4 and SPI5), never above it |
| Spi.BrBits | spi/spi.c:265-271 | the fewest halvings that bring the prescaler to at most 2, capped at 7 |
| Spi.LeastFrom | spi/spi.c:267-271 | the search for the fewest halvings from k on finds the least one, capped at 7 |
| Spi.Prescale | spi/spi.c:265-271 | the halving loop computes BrBits |
| Spi.SpeedBelowHalfAgain | spi/spi.c:265-276 | unless the prescaler is capped, the frequency returned is below one and a half times the one requested |
| Spi.SpeedCanExceedRequest | spi/spi.c:265-276 | the bus can run faster than requested: 16 MHz with 6 MHz requested gives 8 MHz |
| Spi.Wait | spi/spi.c:320-332 | never more delays than the timeout allows |
| Spi.WaitFindsFlag | spi/spi.c:320-332 | the wait succeeds exactly when one of the timeout + 1 SR reads shows the flag in the wanted state, stops at the first such read, and otherwise delays exactly timeout times |
| Spi.WaitStopsOnFlag | spi/spi.c:322 | a wait that succeeds stopped on a read showing the flag |
| Spi.WaitFrom | spi/spi.c:320-332 | a wait is determined by what the polls showed |
| Spi.WaitFlagTimeout | spi/spi.c:320-332 | the poll loop returns what Wait describes |
| Spi.WaitOn | spi/spi.c:320-332 | SR read at most tmax + 1 times with one delay between reads, nothing else touched, the last read showing the flag on success |
| Spi.ByteStep | spi/spi.c:119-141 | one pass reads DR exactly once; on success the byte is written and then DR read; a timeout clears the overrun, with or without the write before |
| Spi.Finish | spi/spi.c:144-154 | on success BSY was last seen clear and nothing else happened; on a timeout DR is read once to clear the overrun |
| Spi.TransferFrom | spi/spi.c:119-154 | the number of bytes exchanged is at most the size, and all of them on success |
| Spi.TransferExact | spi/spi.c:119-149 | a transfer that succeeds exchanged every byte: each written in order, each followed by the read of the next DR value, and nothing else |
| Spi.TransferEndsIdle | spi/spi.c:144-149 | every transfer reads SR, and one that succeeds last saw BSY clear |
| Spi.TimeoutAtOnce | spi/spi.c:121-124 | a transfer that fails in its first wait has exchanged nothing |
| Spi.TransferTimeout | spi/spi.c:151-154 | a transfer that times out exchanged the bytes before the failing wait, perhaps wrote the next, then read DR once to clear the overrun |
| Spi.DrRun | spi/spi.c:135 | n consecutive DR values |
| Spi.Exchange | spi/spi.c:126-139 | two register actions per byte exchanged |
| Spi.Outgoing | spi/spi.c:126 | the transmit buffer's bytes, or 0xFF for every byte without one |
| Spi.SpiPort.constructor | spi/spi.c:34-42 | not initialised, nothing read yet, the 100 us wait limit |
| Spi.SpiPort.Init | spi/spi.c:34-99 | CR1 gets mode, format, the BR code for the requested speed and SPE; the overrun is cleared; initialised; returns the frequency programmed |
| Spi.SpiPort.Speed | spi/spi.c:228-277 | BR from the halving loop, and the programmed frequency pclk / 2^(BR + 1) |
| Spi.SpiPort.Deinit | spi/spi.c:101-106 | not initialised, SPE cleared |
| Spi.SpiPort.Await | spi/spi.c:320-332 | the port moves as WaitOn says |
| Spi.SpiPort.ClearOverrun | spi/spi.c:334-344 | DR read and discarded, then SR read |
| Spi.SpiPort.ReadDr | spi/spi.c:135-139 | the next DR value, logged |
| Spi.SpiPort.ExchangeByte | spi/spi.c:119-141 | the port moves as ByteStep says; the byte read is the next DR value |
| Spi.SpiPort.FinishWait | spi/spi.c:144-154 | the port moves as Finish says |
| Spi.SpiPort.Store | spi/spi.c:135 | only the indexed byte changes |
| Spi.SpiPort.TransferByte | spi/spi.c:119-142 | one pass keeps the loop state: bytes still to send in place, bytes received stored in order; a timeout ends the transfer where TransferFrom says |
| Spi.SpiPort.Transfer | spi/spi.c:108-155 | false with nothing touched when not initialised; otherwise the exchange TransferFrom describes, sending the transmit buffer or 0xFF, and storing in the receive buffer exactly the bytes received, in order, the rest of it untouched |
| SpiQueued.Dec32 | platforms/stm32f4xx/spi.c:433 | `rxLen--` on a 32-bit counter: one less, and zero wraps to 2^32 - 1 |
| SpiQueued.Pending | platforms/stm32f4xx/spi.c:461-464 | exactly txLen bytes are still to send |
| SpiQueued.Submit | platforms/stm32f4xx/spi.c:190-210 | the engine invariant (queue within capacity, every transaction well formed) is kept |
| SpiQueued.Receive | platforms/stm32f4xx/spi.c:430-438 | a receive keeps the transaction well formed, only extends the trace and leaves the queue alone |
| SpiQueued.Complete | platforms/stm32f4xx/spi.c:440-456 | a completion keeps the invariant, only extends the trace and leaves the queue alone |
| SpiQueued.OnRxne | platforms/stm32f4xx/spi.c:428-457 | the RXNE branch keeps the invariant, only extends the trace and leaves the queue alone |
| SpiQueued.OnTxe | platforms/stm32f4xx/spi.c:459-466 | the TXE branch keeps the invariant, only extends the trace and leaves the queue alone |
| SpiQueued.OnOvr | platforms/stm32f4xx/spi.c:468-472 | the OVR branch keeps the invariant, only extends the trace and leaves the queue alone |
| SpiQueued.Settle | platforms/stm32f4xx/spi.c:426 | a transaction still live stays current; the engine invariant holds |
| SpiQueued.Drive | platforms/stm32f4xx/spi.c:426-472 | the handler with a current transaction keeps the engine invariant |
| SpiQueued.Start | platforms/stm32f4xx/spi.c:411-424 | the queue head becomes current and the invariant is kept |
| SpiQueued.Handle | platforms/stm32f4xx/spi.c:403-473 | the whole handler keeps the engine invariant |
| SpiQueued.SubmitOutcome | platforms/stm32f4xx/spi.c:190-210 | SPI_ERROR exactly when not initialised and SPI_QUEUE_FULL exactly when the queue is full, both touching nothing; on SPI_OK the transaction joins the end of the queue and RXNEIE then TXEIE are set |
| SpiQueued.IdleHandlerStops | platforms/stm32f4xx/spi.c:407-416 | with nothing current and nothing queued the handler only switches TXEIE and RXNEIE off, in that order |
| SpiQueued.DriveKeepsQueue | platforms/stm32f4xx/spi.c:426-472 | with a transaction current the handler leaves the queue and the initialised flag alone |
| SpiQueued.ExtendsTrans | platforms/stm32f4xx/spi.c:403-473 | trace extension is transitive |
| SpiQueued.DriveExtendsTrace | platforms/stm32f4xx/spi.c:426-472 | a handler call only appends to the register and callback trace |
| SpiQueued.StartRunsPreHook | platforms/stm32f4xx/spi.c:409-424 | with nothing current the handler takes the queue head, runs its pre hook with its context before anything else, and leaves the rest of the queue |
| SpiQueued.ReceiveStoresOnlyWithBuffer | platforms/stm32f4xx/spi.c:428-438 | DR is read once; the byte is stored and rxLen counted down, wrapping at zero, only when there is a receive buffer |
| SpiQueued.CompletionOrder | platforms/stm32f4xx/spi.c:440-456 | TXEIE off, RXNEIE off, postTransaction(NULL), then onTransactionDone(context), in that order; nothing current afterwards and the transaction finished |
| SpiQueued.TxeSendsNext | platforms/stm32f4xx/spi.c:459-466 | the TXE branch either does nothing or writes the first pending byte once, leaving the rest pending and the receive side alone |
| SpiQueued.CompletesWhenBothCountsZero | platforms/stm32f4xx/spi.c:428-456 | a transaction completes in a handler call exactly when RXNE fires with its interrupt enabled and both counts are then zero; the completed one is the current one |
| SpiQueued.NullRxNeverCompletes | platforms/stm32f4xx/spi.c:428-440 | a transaction with bytes to receive but no receive buffer never completes and its rxLen never changes |
| SpiQueued.RxLenWraps | platforms/stm32f4xx/spi.c:433-440 | with rxLen already 0 and a byte still to send, the next byte received wraps rxLen to 2^32 - 1 and the transaction stays current |
| SpiQueued.IrqTable.constructor | platforms/stm32f4xx/spi.c:43 | no handle recorded yet |
| SpiQueued.IrqTable.Dispatch | platforms/stm32f4xx/spi.c:539-562 | SPIx_IRQHandler runs the handler of the handle recorded for that SPI, as Handle says |
| SpiQueued.SpiEngine.Init | platforms/stm32f4xx/spi.c:45-128 | CR1 gets mode, format, the BR code for the requested speed and SPE; overrun cleared; empty queue over the storage given; nothing current; initialised; the handle recorded for its SPI |
| SpiQueued.SpiEngine.Deinit | platforms/stm32f4xx/spi.c:130-139 | not initialised, nothing current, SPE cleared, nothing else changed |
| SpiQueued.SpiEngine.TransferIT | platforms/stm32f4xx/spi.c:190-210 | the result and new state are those of Submit |
| SpiQueued.SpiEngine.Transfer | platforms/stm32f4xx/spi.c:141-188 | the blocking transfer as Spi.TransferFrom describes, leaving the queue, the current transaction and the interrupt enables alone |
| SpiQueued.SpiEngine.IrqHandler | platforms/stm32f4xx/spi.c:403-473 | the new state is Handle of the old |
| SpiQueued.SpiEngine.TakeNext | platforms/stm32f4xx/spi.c:407-424 | a transaction is taken exactly when the queue is not empty, as Start; otherwise both interrupts go off |
| SpiQueued.SpiEngine.DriveCurrent | platforms/stm32f4xx/spi.c:426-472 | the new state is Drive of the old |
| SpiQueued.SpiEngine.RxnePhase | platforms/stm32f4xx/spi.c:428-457 | the new state is OnRxne of the old |
| SpiQueued.SpiEngine.ReceiveByte | platforms/stm32f4xx/spi.c:430-438 | the new state is Receive of the old |
| SpiQueued.SpiEngine.CompleteWith | platforms/stm32f4xx/spi.c:440-456 | the new state is Complete of the old |
| SpiQueued.SpiEngine.TxePhase | platforms/stm32f4xx/spi.c:459-466 | the new state is OnTxe of the old |
| SpiQueued.SpiEngine.OvrPhase | platforms/stm32f4xx/spi.c:468-472 | the new state is OnOvr of the old |
| GpioRegs.ModeCode | platforms/stm32f4xx/gpio.c:137 | the 2-bit MODER code of a mode |
| GpioRegs.PullCode | platforms/stm32f4xx/gpio.c:129 | the 2-bit PUPDR code of a pull setting |
| GpioRegs.Update2 | platforms/stm32f4xx/gpio.c:116-138 | clear-then-OR of a pin's 2-bit field leaves the field holding the value written |
| GpioRegs.Update2Other | platforms/stm32f4xx/gpio.c:116-138 | another pin's 2-bit field keeps its value |
| GpioRegs.Update2Others | platforms/stm32f4xx/gpio.c:116-138 | every other pin's 2-bit field keeps its value |
| GpioRegs.Update4 | platforms/stm32f4xx/gpio.c:160-165 | clear-then-OR of a 4-bit field leaves it holding the value written |
| GpioRegs.Update4Other | platforms/stm32f4xx/gpio.c:160-165 | another 4-bit field keeps its value |
| GpioRegs.Update4Others | platforms/stm32f4xx/gpio.c:160-165 | every other 4-bit field keeps its value |
| GpioRegs.UpdateBit | platforms/stm32f4xx/gpio.c:267-273 | clear-then-maybe-set leaves the bit equal to the flag |
| GpioRegs.UpdateBitOther | platforms/stm32f4xx/gpio.c:267-273 | another bit keeps its value |
| GpioRegs.UpdateBitOthers | platforms/stm32f4xx/gpio.c:267-273 | every other bit keeps its value |
| GpioRegs.AckOne | platforms/stm32f4xx/gpio.c:228 | writing one line's bit to PR (rc_w1) clears that line and no other |
| GpioRegs.ClearUnset | platforms/stm32f4xx/gpio.c:368-371 | clearing a bit that is not set leaves the register as it was |
| GpioRegs.DriveOne | platforms/stm32f4xx/gpio.c:140-153 | writing one pin's set or reset bit to BSRR (section 8.4.7 of RM0383) drives that pin's ODR bit high or low and no other |
| GpioRegs.Port.constructor | platforms/stm32f4xx/gpio.c:25-34 | a register block of the given port |
| GpioRegs.Port.WriteBsrr | platforms/stm32f4xx/gpio.c:147-151 | BSRR holds the word written and ODR takes its effect; nothing else changes |
| GpioRegs.Exti.WritePr | platforms/stm32f4xx/gpio.c:228 | PR loses exactly the bits written as 1 |
| GpioRegs.Exti.Ack | platforms/stm32f4xx/gpio.c:368-371 | writing the line's mask clears exactly that pending line |
| GpioRegs.Syscfg.constructor | platforms/stm32f4xx/gpio.c:359-360 | four EXTICR registers |
| GpioRegs.Syscfg.Route | platforms/stm32f4xx/gpio.c:351-360 | EXTICR[pin / 4] gets the port value in field pin % 4, the other registers and fields kept |
| GpioRegs.RouteOne | platforms/stm32f4xx/gpio.c:351-360 | a route changes the port of exactly the routed line |
| GpioF4.StrengthCode | platforms/stm32f4xx/gpio.c:121 | the 2-bit OSPEEDR code of a strength |
| GpioF4.GetPinIndex | platforms/stm32f4xx/gpio.c:52-57 | the low nibble of the pin name, below 16 |
| GpioF4.PortNibble | platforms/stm32f4xx/gpio.c:40-47 | the port nibble of a pin name, at most 5 |
| GpioF4.NameRoundTrip | platforms/stm32f4xx/gpio.c:36-57 | decoding a pin name gives back the port and the pin it was built from |
| GpioF4.NoPort | platforms/stm32f4xx/gpio.c:40-50 | exactly the names whose port nibble is above 5 have no port |
| GpioF4.GetExtiLine | platforms/stm32f4xx/gpio.c:59-73 | the scan returns the first index of m_GpioPorts that holds the port |
| GpioF4.ExtiValueListed | platforms/stm32f4xx/gpio.c:25-34 | each port's EXTICR value indexes it in m_GpioPorts |
| GpioF4.ExtiLineOf | platforms/stm32f4xx/gpio.c:25-34 | each port is listed once, so its index is its EXTICR value: its pin-name nibble for A..E, and 7 for H |
| GpioF4.VectorRange | platforms/stm32f4xx/gpio.c:384-417 | each EXTI vector scans a non-empty range of lines below 16 |
| GpioF4.VectorServes | platforms/stm32f4xx/gpio.c:198-214 | the vector a line's interrupt is enabled on is exactly the one whose handler scans that line |
| GpioF4.SetSpeed | platforms/stm32f4xx/gpio.c:116-122 | only the pin's OSPEEDR field changes, to the strength code |
| GpioF4.SetPull | platforms/stm32f4xx/gpio.c:124-130 | only the pin's PUPDR field changes, to the pull code |
| GpioF4.SetMode | platforms/stm32f4xx/gpio.c:132-138 | only the pin's MODER field changes, to the mode code |
| GpioF4.SetState | platforms/stm32f4xx/gpio.c:140-153 | BR written for low and BS for high, and ODR follows |
| GpioF4.SetAlternateFunction | platforms/stm32f4xx/gpio.c:155-166 | the pin's field of AFR[0] or AFR[1] is cleared and then holds the function; nothing else changes |
| GpioF4.LowNibble | platforms/stm32f4xx/gpio.c:165 | `af & 0x0F` keeps a function number below 16 |
| GpioF4.SetEdge | platforms/stm32f4xx/gpio.c:168-196 | the line's RTSR bit is set exactly for rising or both, its FTSR bit exactly for falling or both, every other bit kept |
| GpioF4.SetOutputType | platforms/stm32f4xx/gpio.c:266-273 | the pin's OTYPER bit is set exactly for open-drain, nothing else changes |
| GpioF4.Handle.constructor | platforms/stm32f4xx/gpio.c:238-244 | no handler, no port |
| GpioF4.Init | platforms/stm32f4xx/gpio.c:238-285 | PIN_NC touches nothing; otherwise the handle records the port and pin and the block becomes Initialised |
| GpioF4.Configure | platforms/stm32f4xx/gpio.c:262-273 | speed, pull, mode and output type set as Configured |
| GpioF4.Apply | platforms/stm32f4xx/gpio.c:275-284 | the alternate function selected, or the output driven, as Applied |
| GpioF4.InitSetsPin | platforms/stm32f4xx/gpio.c:238-285 | after GpioInit the pin's speed, pull, mode and output type read back as asked, the alternate function is selected for alternate mode, the level is driven for output mode, and ODR is untouched otherwise |
| GpioF4.AppliedKeeps | platforms/stm32f4xx/gpio.c:275-284 | the last step of GpioInit touches only AFR, BSRR and ODR |
| GpioF4.WithAfKeeps | platforms/stm32f4xx/gpio.c:155-166 | selecting an alternate function touches only AFR |
| GpioF4.WithAfOther | platforms/stm32f4xx/gpio.c:155-166 | selecting one pin's alternate function keeps every other pin's |
| GpioF4.DrivenKeeps | platforms/stm32f4xx/gpio.c:140-153 | a BSRR write touches only BSRR and ODR |
| GpioF4.AppliedSetsPin | platforms/stm32f4xx/gpio.c:275-284 | the alternate function or the level is set as the mode says |
| GpioF4.InitKeepsOthers | platforms/stm32f4xx/gpio.c:238-285 | GpioInit leaves every other pin's speed, pull, mode, output type, output level and alternate function as they were |
| GpioF4.ConfiguredKeepsOthers | platforms/stm32f4xx/gpio.c:262-273 | the configuration steps keep every other pin's fields, ODR and AFR |
| GpioF4.AppliedKeepsOthers | platforms/stm32f4xx/gpio.c:275-284 | the last step keeps every other pin's level and alternate function |
| GpioF4.Write | platforms/stm32f4xx/gpio.c:287-295 | the pin driven to the state given |
| GpioF4.Read | platforms/stm32f4xx/gpio.c:297-309 | 1 exactly when the pin's IDR bit is set, 0 otherwise |
| GpioF4.Toggle | platforms/stm32f4xx/gpio.c:311-328 | the pin driven to the opposite of its ODR bit |
| GpioF4.ToggleFlips | platforms/stm32f4xx/gpio.c:311-328 | a toggle inverts the pin's output bit and keeps every other output bit |
| GpioF4.Scan | platforms/stm32f4xx/gpio.c:339-345 | the scan finds a match exactly when a registered handle already uses the line |
| GpioF4.ClearedLinesBits | platforms/stm32f4xx/gpio.c:216-236 | after a vector's handler exactly the pending lines outside its range are still pending |
| GpioF4.DueAfterClear | platforms/stm32f4xx/gpio.c:222-228 | clearing one line does not change whether another line's handler runs |
| GpioF4.Handlers | platforms/stm32f4xx/gpio.c:230 | the handler of each m_GpioIrq slot, none for an empty slot |
| GpioF4.ExtiLines | platforms/stm32f4xx/gpio.c:216-236 | every pending line of the range is cleared and the others kept, and the handlers run are those of the lines that were pending, in line order |
| GpioF4.LineStep | platforms/stm32f4xx/gpio.c:218-235 | serving one line and moving on is what the handler does for the lines from it |
| GpioF4.Step | platforms/stm32f4xx/gpio.c:218-235 | the loop step keeps what is left to do in step with the whole call |
| GpioF4.ServeLine | platforms/stm32f4xx/gpio.c:220-234 | a pending line is cleared and its handler, if any, runs |
| GpioF4.Prepare | platforms/stm32f4xx/gpio.c:363-371 | line masked, edges as the mode says, pending bit cleared |
| GpioF4.ClearPending | platforms/stm32f4xx/gpio.c:368-371 | the line is no longer pending and no other changes |
| GpioF4.RouteLine | platforms/stm32f4xx/gpio.c:351-360 | the line routed to the handle's port |
| GpioF4.Unmask | platforms/stm32f4xx/gpio.c:381 | only the line's IMR bit set |
| GpioF4.Unmasked | platforms/stm32f4xx/gpio.c:363-381 | masking and unmasking again leaves the line unmasked and every other bit as it was |
| GpioF4.TakenIndexed | platforms/stm32f4xx/gpio.c:339-345 | with each handle stored in its own line's slot, the scan finds a line exactly when its slot is occupied |
| GpioF4.Interrupts.constructor | platforms/stm32f4xx/gpio.c:23 | every slot of m_GpioIrq empty |
| GpioF4.Interrupts.SetInterrupt | platforms/stm32f4xx/gpio.c:330-382 | when the scan finds a registered handle on the same line in any slot, nothing changes; otherwise the handler is stored, the line routed to the port, masked, edges set, pending cleared, registered in its slot and unmasked |
| GpioF4.Interrupts.Register | platforms/stm32f4xx/gpio.c:347-381 | the effects of GpioSetInterrupt past the scan, on any table; a table with each handle in its own slot stays so |
| GpioF4.Interrupts.Wire | platforms/stm32f4xx/gpio.c:351-371 | the EXTICR route, mask, edges and pending bit |
| GpioF4.Interrupts.Store | platforms/stm32f4xx/gpio.c:375 | the handle in the slot of its line, the others kept, on any table; a table with each handle in its own slot stays so |
| GpioF4.Interrupts.Vector | platforms/stm32f4xx/gpio.c:384-417 | each EXTI vector runs the handler of its lines as ExtiLines says, the calls appended in order |
| GpioF4.ExtiCode | platforms/stm32f4xx/gpio.c:353 | each port's EXTICR value as a register field, at most 7 |
| GpioLegacy.SpeedCode | gpio/gpio.c:64 | the 2-bit OSPEEDR code of a speed |
| GpioLegacy.ConfigCode | gpio/gpio.c:86 | the OTYPER bit of a configuration, 0 or 1 |
| GpioLegacy.PortOfAgrees | gpio/gpio.c:28-61 | the high nibble selects the same port as in the platform driver, with no port for nibbles above 5 |
| GpioLegacy.PinIndexOf | gpio/gpio.c:26 | the low nibble of the pin name, below 16 |
| GpioLegacy.ExtiValueOf | gpio/gpio.c:168-196 | the EXTICR value from the high nibble, at most 7, 0 for an unknown nibble |
| GpioLegacy.ExtiValueAgrees | gpio/gpio.c:173-196 | the EXTICR value is the index of the same port in the platform driver's port table |
| GpioLegacy.IrqNumberAgrees | gpio/gpio.c:222-233 | the vector enabled is the platform driver's, and its handler scans the pin's line |
| GpioLegacy.Pin.constructor | gpio/gpio.c:8-16 | an object with no port, pin or handler |
| GpioLegacy.Init | gpio/gpio.c:10-97 | NC touches nothing; otherwise the object records the pin name, index and port and the block becomes Initialised |
| GpioLegacy.Apply | gpio/gpio.c:72-96 | AFR, OTYPER and BSRR as Applied |
| GpioLegacy.OrAlternate | gpio/gpio.c:72-82 | the function OR-ed into AFR[0] or AFR[1] |
| GpioLegacy.OrFieldSame | gpio/gpio.c:76-80 | OR-ing into a 4-bit field gives the old field OR the value |
| GpioLegacy.OrFieldOther | gpio/gpio.c:76-80 | OR-ing a value below 16 into one field leaves the others |
| GpioLegacy.OrBitSame | gpio/gpio.c:86 | OR-ing the configuration sets the OTYPER bit for open-drain and leaves it for push-pull |
| GpioLegacy.OrBitOther | gpio/gpio.c:86 | other OTYPER bits are left |
| GpioLegacy.InitSetsFields | gpio/gpio.c:63-70 | speed, pull and mode fields set whatever the mode |
| GpioLegacy.AppliedKeeps | gpio/gpio.c:72-96 | the last steps touch neither speed, pull, mode nor IDR |
| GpioLegacy.InitAlternate | gpio/gpio.c:72-82 | an alternate-function pin ends with the old field OR the new one; OTYPER and the output are left |
| GpioLegacy.InitOutput | gpio/gpio.c:84-96 | an output pin is driven to the level asked, zero low and anything else high, and its OTYPER bit is the old one OR open-drain |
| GpioLegacy.InitPlain | gpio/gpio.c:72-96 | an input or analog pin keeps AFR, OTYPER and its output |
| GpioLegacy.InitKeepsOthers | gpio/gpio.c:10-97 | GpioInit leaves every other pin's fields, type, level and alternate function as they were |
| GpioLegacy.AppliedKeepsOthers | gpio/gpio.c:72-96 | the last steps keep every other pin's type, level and alternate function |
| GpioLegacy.AfMixes | gpio/gpio.c:72-82 | AF1 re-initialised as AF2 selects AF3, where the platform driver selects AF2 |
| GpioLegacy.TypeSticks | gpio/gpio.c:84-86 | an open-drain pin re-initialised as a push-pull output stays open-drain, where the platform driver makes it push-pull |
| GpioLegacy.Write | gpio/gpio.c:99-116 | NC touches nothing; otherwise BS for a non-zero value and BR for zero |
| GpioLegacy.LowHalfBit | gpio/gpio.c:122-124 | the uint16_t cast of IDR keeps every pin's bit |
| GpioLegacy.Read | gpio/gpio.c:118-127 | 1 exactly when the pin's IDR bit is set, 0 otherwise |
| GpioLegacy.Toggle | gpio/gpio.c:129-143 | the pin driven to the opposite of its ODR bit |
| GpioLegacy.Scan | gpio/gpio.c:155-161 | the scan finds a match exactly when a stored object already uses the line |
| GpioLegacy.OrAckClearsAll | gpio/gpio.c:251 | writing back PR OR a mask to the rc_w1 register clears every pending line |
| GpioLegacy.OrAck | gpio/gpio.c:239 | the read-modify-write of PR that sets one line's bit leaves nothing pending |
| GpioLegacy.SetEdges | gpio/gpio.c:205-220 | RTSR OR-ed for every mode but falling, FTSR for every mode but rising; the default branch arms both edges |
| GpioLegacy.Arm | gpio/gpio.c:202-241 | IMR bit set, edges OR-ed in, PR cleared when the vector was pending |
| GpioLegacy.Slots | gpio/gpio.c:8 | each slot of m_GpioIrq: free, or used with its handler |
| GpioLegacy.Calls | gpio/gpio.c:253-256 | at most one call, the handler when there is one |
| GpioLegacy.NothingPending | gpio/gpio.c:312-342 | with nothing pending a handler call does nothing |
| GpioLegacy.AtMostOne | gpio/gpio.c:312-342 | a handler call of a shared vector runs at most one handler and leaves PR either as it was or empty |
| GpioLegacy.LostLine | gpio/gpio.c:312-326 | with lines 5 and 6 pending EXTI9_5_IRQHandler runs only line 5's handler, where the platform driver runs both |
| GpioLegacy.Interrupts.constructor | gpio/gpio.c:8 | every slot of m_GpioIrq empty |
| GpioLegacy.Interrupts.SetInterrupt | gpio/gpio.c:145-245 | NC or a line already used returns at once touching nothing; otherwise the handler is stored, the line routed, armed, the object stored in its slot and the vector to enable returned |
| GpioLegacy.Interrupts.Register | gpio/gpio.c:163-245 | the effects of GpioSetInterrupt past the early returns |
| GpioLegacy.Interrupts.Wire | gpio/gpio.c:198-241 | EXTICR route and EXTI set-up |
| GpioLegacy.Interrupts.Vector | gpio/gpio.c:247-342 | each EXTI vector behaves as LegacyRun over its lines, with a fault for a free slot |
| GpioLegacy.Lines | gpio/gpio.c:314-325 | the handler loop computes LegacyRun |
| GpioLegacy.Shift | gpio/gpio.c:314-325 | handlers already run stay ahead of those still to run |

## Left out

- ComputeBaudRate (uart/uart.c:29-87): floating-point arithmetic; UartInit's BRR value is not modelled, only the flags and the queue it sets up.
- Clock-enable macros, NVIC priority, enable and clear calls, GpioEnableClocks, SpiGpioInit, SpiClockEnable and the GpioInit calls the bus engines make: register writes with no effect on any modelled state.
- The blocking I2C_MasterTransmit and I2C_MasterReceive of platforms/stm32f411/i2c.c (720-885) and the blocking I2C_MasterTransmit of i2c/i2c.c (572-615): they spin on hardware flags without a bound. Of the blocking receive of i2c/i2c.c only its byte-count policy is modelled (I2cSingle.SingleEngine.MasterReceive), with every wait taken as satisfied.
- The I2C1_EV_IRQHandler of i2c/i2c.c (379-382) only forwards to I2C_IrqEventHandler; I2cSingle.SingleEngine.IrqEventHandler models the two together.
- I2C_Recovery, I2C_IrqErrorHandler and I2C2_ER_IRQHandler in both I2C files: empty stubs.
- ESP_Init (lib/drivers/esp8266/esp8266.c:43-48): UART set-up only.
- UartWrite_IT, UartServiceSend and UartServiceRegisterRxCallback: calls into the UART service, modelled as the logs of what they are handed.
- CliInit (lib/services/cli/cli.c:71-74) and LogIdle (lib/services/log/log.c:190-193): single calls into the UART service.
- Uart.UartPort.Idle: returns the completion flag; what the flag means is stated by Uart.NotIdleAfterInit and Uart.CompletedOnlyAtEnd.
- Interrupt preemption and the `__disable_irq`/`__enable_irq` sections: one handler call is one atomic step.
- DelayUs and the 1 us delays of the wait loops: delays are counted, not timed.
- Header files (buffer/buffer.h, i2c/i2c.h, spi/spi.h, gpio/gpio.h and the others) are not part of this model; the constants used are those the .c files use.
- The ASSERTs of the C code become preconditions; a failed assertion is not modelled.
- GpioLegacy.Pin: the legacy Gpio_t stores mode, type, speed and configuration nowhere that the code reads back, so only the pin name, index, port and handler are kept.
- GpioLegacy.Interrupts.Vector: the NULL dereference of an empty m_GpioIrq slot is reported as a `fault` result and ends the handler call.
- SpiQueued.SpiEngine: the current transaction is a copy held by the engine, not the pointer to the handler's stack-local copy the source stores; the whole file is compiled out (`#if 0`) in the source.
- SpiQueued.Dec32: the width of rxLen is not visible (spi.h is not part of this model); it is taken as 32 bits.
- I2cClock.SystemClock: the PLL source gives 0, as RCC_GetPLLOutputClock of platforms/stm32f411/i2c.c returns; for i2c/i2c.c, whose PLL query returns no value, the PLL clock is a parameter.
- I2cTypes: the queued engine's speed enumeration is used as a divisor; it is modelled as a speed in Hz.
- Log.Format: a lone '%' at the end of the format string, a %d of INT32_MIN and a %u of 2^31 are excluded by the precondition Fits, since the C code reads past the string or negates INT32_MIN there.
- Log.Item, Log.PrintItem, Log.Format, Log.Logger.Print: %x is rendered as intended (Log.Hex, sent by Log.PrintHexIntended); the loop as written is Log.PrintHex, the subject of a finding below.
- Log.PrintDec: requires a value above INT32_MIN, whose negation overflows in the C code.
- The interrupt handler models of both I2C engines and of the UART read at most two data-register values per call and require at least two left in the input stream.
- Cli.Shell.ProcessLine: processes the copy terminated as intended (Cli.CopyLine); the unterminated copy of a line of 63 characters or more is the subject of a finding below.
- platforms/cc3220/gpio.c, platforms/cc32xx/gpio.c, delay/delay.c, the startup code, adxl345/adxl345.c, lib/drivers/led/led.c, lib/services/uart-service.c and logger/logger.c are not part of this model.

## Findings

| source | as written | input that shows it | evidently intended | confidence | as-written member | corrected member |
|---|---|---|---|---|---|---|
| lib/services/log/log.c:58-66 | every '0' nibble is skipped, not only the leading ones | 0x10 prints "0x1", the same as 0x1 | skip only the leading zero nibbles, so 0x10 prints "0x10" | not executed | Log.PrintHex | Log.PrintHexIntended |
| lib/services/cli/cli.c:82 | `strncpy(buff, buffer, 63)` writes no terminator when the line has 63 characters or more | a line of 63 non-blank characters, which the receive handler accepts | buff terminated at index 63 | not executed | Cli.UnterminatedCopy | Cli.CopiedTerminated |
| gpio/gpio.c:72-82 | the alternate function is OR-ed into AFR without clearing the field | a pin set up as AF1 and set up again as AF2 selects AF3 | the field cleared first, as platforms/stm32f4xx/gpio.c does | not executed | GpioLegacy.AfMixes | GpioF4.InitSetsPin |
| gpio/gpio.c:84-86 | the output type is OR-ed into OTYPER and never cleared | an open-drain pin set up again as a push-pull output stays open-drain | the bit cleared first, as platforms/stm32f4xx/gpio.c does | not executed | GpioLegacy.TypeSticks | GpioF4.SetOutputType |
| gpio/gpio.c:312-326 | the read-modify-write of PR writes back every pending bit of the rc_w1 register, clearing every pending line | lines 5 and 6 pending: EXTI9_5_IRQHandler runs only line 5's handler | write the line's mask alone, as platforms/stm32f4xx/gpio.c does, so every pending line is served | not executed | GpioLegacy.LostLine | GpioF4.ExtiLines |
