# Modbus ASCII slave engine, modelled in Dafny

This project models the protocol engine of a small Modbus ASCII slave for an
8-bit microcontroller (`AsciiModbusSlave.cpp` and `AsciiModbusSlave.h`). The
engine frames messages as in section 2.5.2 of the MODBUS over Serial Line
Specification and Implementation Guide V1.02: ':', pairs of upper-case hex
digits, a checksum and CR LF. The checksum is the LRC of section 6.2.1 of the
same guide. The engine serves function 0x03 (Read Holding Registers) and
function 0x06 (Write Single Register) of the MODBUS Application Protocol
V1.1b3, and the exception codes of its section 7.

The model has these parts:

- **Hex codec** (`HexCodec`). It holds `ascii_to_uint8` and `uint8_to_ascii`
  / `UINT8_TO_ASCII`. It also holds the resumable emitter
  `send_bin_as_ascii_char`, a class whose field is the static nibble counter.
- **LRC** (`Lrc`). `calculateLRC` is a method with its loop, proved equal to
  a checksum function. That function is the two's complement of the byte sum.
- **Countdown timer** (`Timer`). It covers `UPDATE_MODBUS_TIMER`,
  `SET_MODBUS_TIMER` and `MODBUS_TIMER_EXPIRED` on `modbus_timer`.
- **Transmit machine**:
  - `TxTable` holds `txs_state_table` with `NEXT_STATE`.
  - `TxModel` holds the thirteen `ftx_*` steps and one `modbus_update` call as
    functions on a snapshot of the machine.
  - `TxFlow` works out what one call does, state by state.
  - `TxFrame`, `ReplyBytes` and `InitialReply` prove what runs of calls send.
  - `TxMachine` is the class that runs it. Its fields are `cur_state`,
    `previous_state`, the static `lrc` and `i`. Each of its methods is proved
    to do what the matching function says.
- **Receive parser**. `RxParser` describes one call of
  `modbus_receive_statemachine` and proves what runs of calls do.
  `RxMachine` is the class with `modbus_rx_state`, `get_hi`, `hi_nibble`,
  `lo_nibble` and the array `rxFrame`.
- **Shared data** (`SlaveData`). It holds the globals `slaveID`,
  `functionCode` and `holding_registers`, and the `txrx` record.

Bytes sent on the UART are a `seq<uint8>` log. `UART_READY_TO_SEND` is a
boolean argument of `ModbusUpdate`. The timer interrupt is a `Tick` the caller
puts between calls. The parser's calls to `exceptionResponse` are a ghost log
of exception codes.

The code is modelled as written. Several of its behaviours differ from a
correct Modbus slave, and the model proves each of them as a lemma:

- A received field keeps only its second hex digit (`CombineKeepsLow`,
  `AddressHighDigitLost`, `HighAddressDigitLost`).
- The received checksum is never compared (`ChecksumIgnored`).
- The terminator states are unreachable (`NoTerminatorFromReset`).
- A complete request is not acted on (`ReadRequestParsed`), and no register is
  written (the postcondition `unchanged(data, data.holdingRegisters)` of
  `ModbusReceiveStatemachine`).
- The reply is sent again after every delay, because `messageReadyToSend` is
  never cleared (`RepliesForever`).
- A function 3 reply with `numRegisters` 0 carries a checksum that does not
  cover the register it sends (`ZeroRegistersUncovered`).

## Model

| member | source | states |
|---|---|---|
| ModbusTypes.ConfigurationLimits | AsciiModbusSlave.h:41-65 | MODBUS_DELAY fits below 255, the register map has at most 255 entries, and hr_ERRORCOUNT is the last index |
| Timer.Decrement | AsciiModbusSlave.h:45 | a tick takes a positive timer down by exactly 1 and leaves 0 at 0, so it never underflows |
| Timer.TimerExpired | AsciiModbusSlave.h:128 | the test is 1 exactly when the timer is 0, and 0 otherwise |
| Timer.AfterTicksValue | AsciiModbusSlave.h:45 | k ticks take d to d - k, stopping at 0 |
| Timer.ExpiresAfterExactly | AsciiModbusSlave.h:127-128 | after the timer is set to d, the expired test holds exactly once d ticks have come |
| Timer.ModbusTimer.constructor | AsciiModbusSlave.cpp:13 | the timer starts at 0 |
| Timer.ModbusTimer.Update | AsciiModbusSlave.h:45 | UPDATE_MODBUS_TIMER leaves the saturating decrement of the old value |
| Timer.ModbusTimer.Set | AsciiModbusSlave.h:127 | SET_MODBUS_TIMER leaves exactly the value given |
| SerialPort.Uart.SendByte | AsciiModbusSlave.h:105 | the byte is appended to the log of sent bytes |
| HexCodec.AsciiToUint8 | AsciiModbusSlave.cpp:336-340 | the result is below 16 exactly for '0'..'9' and 'A'..'F', and 255 for every other byte |
| HexCodec.Uint8ToAscii | AsciiModbusSlave.cpp:326-332 | the result is a hex digit exactly for inputs below 16, and 255 for every input of 16 or more |
| HexCodec.NibbleRoundTrip | AsciiModbusSlave.cpp:328-340 | decoding the digit of a nibble gives the nibble back |
| HexCodec.DigitRoundTrip | AsciiModbusSlave.cpp:328-340 | encoding the value of a hex digit gives the digit back |
| HexCodec.DigitOfValue | AsciiModbusSlave.cpp:326-332 | a value n below 16 is sent as the character at position n of "0123456789ABCDEF": '0'..'9' for 0..9 and 'A'..'F' for 10..15 |
| HexCodec.ValueOfDigit | AsciiModbusSlave.cpp:336-340 | a hex digit decodes to its position in "0123456789ABCDEF": '0'..'9' to 0..9 and 'A'..'F' to 10..15 |
| HexCodec.LowerCaseRejected | AsciiModbusSlave.cpp:336-340 | 'a'..'f' decode to 255 |
| HexCodec.HexDigitAt | AsciiModbusSlave.cpp:479-482 | digit i of a value's n hex digits is nibble n-1-i, most significant first |
| HexCodec.HexDigitsRoundTrip | AsciiModbusSlave.cpp:464-471 | decoding the n hex digits of d gives d modulo 16^n |
| HexCodec.EmitStep | AsciiModbusSlave.cpp:473-489 | one call returns 1 exactly on the last digit and resets the counter to 0; otherwise it returns 0 and counts up; the counter stays below numBits/4 |
| HexCodec.EmitStepDigit | AsciiModbusSlave.cpp:479-482 | the character a call sends is the counter-th hex digit of the value |
| HexCodec.EmitWholeValue | AsciiModbusSlave.cpp:464-489 | numBits/4 calls from a zero counter send all digits most significant first; every call but the last returns 0, the last returns 1, and the counter ends at 0 |
| HexCodec.HexEmitter.constructor | AsciiModbusSlave.cpp:474 | the static nibble counter starts at 0 |
| HexCodec.HexEmitter.SendBinAsAsciiChar | AsciiModbusSlave.cpp:473-489 | send_bin_as_ascii_char sends, counts and returns what one EmitStep says, and logs one byte |
| Lrc.LrcOf | AsciiModbusSlave.cpp:499-514 | the checksum added to the four header bytes and the bytes of the registers gives 0 modulo 256 |
| Lrc.CalculateLrc | AsciiModbusSlave.cpp:499-514 | the loop computes LrcOf over array[start..start+n), given that the run ends inside the array and at index 255 at the latest |
| Lrc.RunSumIsSlice | AsciiModbusSlave.cpp:504-507 | the sum the loop builds up is the byte sum of the register slice |
| Lrc.RegisterBytesSum | AsciiModbusSlave.cpp:505-506 | summing the high and low byte of every register is summing the bytes the registers are sent as |
| Lrc.ChecksumCancels | AsciiModbusSlave.cpp:492-514 | the header bytes, the register bytes and the checksum sum to 0 modulo 256 |
| Lrc.EmptyRunAddsNothing | AsciiModbusSlave.cpp:492-497 | with no array elements only the four header bytes count |
| TxTable.StateAt | AsciiModbusSlave.cpp:111-115 | the transmit state at enum value i has that value and is not mNULL |
| TxTable.RowsDescribeTheirState | AsciiModbusSlave.cpp:128-144 | the table has 13 rows of 3 entries, and every entry of row i has state i as its current state |
| TxTable.NextStateIsSuccessor | AsciiModbusSlave.cpp:43-47 | the NEXT_STATE lookup agrees with the transmit flow on every state and outcome |
| TxTable.NullEntries | AsciiModbusSlave.cpp:130-144 | an entry is mNULL exactly for the branch of every state but mFNCODE and mCHOICE, and the repeat of mTXSTART and mCHOICE |
| TxTable.RepeatStays | AsciiModbusSlave.cpp:130-144 | wherever repeat is defined it stays in the state |
| TxModel.HighBitIsMask | AsciiModbusSlave.cpp:366 | the exception test fnCode >= 0x80 is the mask test fnCode & 0b10000000 |
| TxModel.EnvValidIsReadsInRange | AsciiModbusSlave.cpp:396-433 | the environment the transmit machine accepts is exactly one with hr_ARRAY_SIZE registers where every register the reply reads lies in the array: none on the exception path, dataAddress on the write path (mVALUE and its checksum), dataAddress onwards for Max1(numRegisters) registers for function 3 (mTXREG and its checksum) |
| TxModel.TxStartStep | AsciiModbusSlave.cpp:346-350 | mTXSTART only forwards, sets the timer to MODBUS_DELAY and sends nothing |
| TxModel.ColonStep | AsciiModbusSlave.cpp:352-356 | mCOLON forwards exactly when the timer reads 0, and sends ':' exactly then |
| TxModel.SlaveIdStep | AsciiModbusSlave.cpp:358-361 | mSLAVEID never branches |
| TxModel.FnCodeStep | AsciiModbusSlave.cpp:363-370 | mFNCODE repeats exactly on its first digit, and branches only when the function code has its high bit set |
| TxModel.Fn3OrFn6 | AsciiModbusSlave.cpp:372-375 | mCHOICE never repeats, and forwards exactly for function 3 |
| TxModel.ExceptStep | AsciiModbusSlave.cpp:377-380 | mEXCEPT never branches |
| TxModel.LrcStep | AsciiModbusSlave.cpp:401-419 | mLRC never branches, holds the entry checksum of its previous state afterwards, and keeps the static lrc on its second call |
| TxModel.FinishStep | AsciiModbusSlave.cpp:382-385 | mFINISH changes nothing, never branches, and forwards exactly when messageReadyToSend is 1 |
| TxModel.NumDataStep | AsciiModbusSlave.cpp:386-389 | mNUMDATA never branches |
| TxModel.TxRegStep | AsciiModbusSlave.cpp:421-433 | mTXREG never branches, and while it repeats its index names a register still to send |
| TxModel.TxRegAt | AsciiModbusSlave.cpp:426-432 | sending a digit of the current register never branches; while mTXREG repeats the index names a register still to send, and when it forwards the index has reached Max1(numRegisters) |
| TxModel.DataAddStep | AsciiModbusSlave.cpp:391-394 | mDATAADD never branches |
| TxModel.ValueStep | AsciiModbusSlave.cpp:396-399 | mVALUE never branches |
| TxModel.CrLfStep | AsciiModbusSlave.cpp:435-444 | mCRLF repeats exactly on entry; it sends CR on entry and LF on the call after |
| TxModel.Dispatch | AsciiModbusSlave.cpp:316-317 | no step returns an outcome whose table entry is mNULL; a finished field leaves the nibble counter at 0; at most one byte is appended; defined for every function code, on each path reading only that path's registers |
| TxModel.TxStep | AsciiModbusSlave.cpp:308-324 | modbus_update does nothing unless the UART is ready; otherwise previous_state becomes the state just run; the machine never reaches mNULL, reaches a payload state only on its function code's path, and sends at most one byte |
| TxModel.Tick | AsciiModbusSlave.h:45 | the interrupt decrements only the timer |
| TxModel.Run | AsciiModbusSlave.cpp:308-324 | any number of calls keep the transmit invariant |
| TxFlow.TxStartArms | AsciiModbusSlave.cpp:346-350 | a call in mTXSTART moves to mCOLON with the timer at MODBUS_DELAY |
| TxFlow.ColonWaits | AsciiModbusSlave.cpp:352-356 | while the timer runs, mCOLON sends nothing and stays |
| TxFlow.ColonFires | AsciiModbusSlave.cpp:352-356 | with the timer at 0, mCOLON sends ':' and moves to mSLAVEID |
| TxFlow.ChoiceFollows | AsciiModbusSlave.cpp:372-375 | mCHOICE goes to mNUMDATA for function 3 and to mDATAADD otherwise |
| TxFlow.FinishFollows | AsciiModbusSlave.cpp:382-385 | mFINISH goes to mTXSTART exactly when messageReadyToSend is 1 |
| TxFlow.CrStep | AsciiModbusSlave.cpp:435-439 | entering mCRLF sends CR and stays |
| TxFlow.LfStep | AsciiModbusSlave.cpp:440-444 | the second call in mCRLF sends LF and moves to mFINISH |
| TxFlow.TxStepMoves | AsciiModbusSlave.cpp:315-320 | one call is the current state's step followed by the table lookup |
| TxFlow.TxStepFollowsFlow | AsciiModbusSlave.cpp:346-444 | the table-driven call equals the step worked out state by state, for every state satisfying the invariant |
| TxFlow.FlowDigit | AsciiModbusSlave.cpp:358-399 | a call in a field-sending state sends the next hex digit of its field |
| TxFlow.LrcEntryFlow | AsciiModbusSlave.cpp:401-419 | the first call in mLRC computes the checksum of the path it came from and sends its first digit |
| TxFlow.TxRegEntryFlow | AsciiModbusSlave.cpp:421-433 | the first call in mTXREG restarts at index 0 and sends the first digit of register dataAddress |
| TxFrame.ArmsDelay | AsciiModbusSlave.cpp:346-350 | leaving mFINISH with a message to send reaches mCOLON in two calls, with the timer at MODBUS_DELAY and nothing sent |
| TxFrame.TicksCount | AsciiModbusSlave.h:45 | k interrupts in a row leave the timer after k decrements and change nothing else |
| TxFrame.DelayHoldsColon | AsciiModbusSlave.cpp:352-356 | while fewer interrupts have come than the timer holds, mCOLON holds and no byte goes out, however calls and interrupts interleave |
| TxFrame.HeaderSends | AsciiModbusSlave.cpp:352-370 | ':' and the two digits each of slaveID and fnCode go out, then the exception path or mCHOICE follows |
| TxFrame.ExceptionPayloadSends | AsciiModbusSlave.cpp:377-380 | the exception path sends the two digits of the exception code and enters mLRC |
| TxFrame.ReadPayloadSends | AsciiModbusSlave.cpp:386-389 | the function 3 path sends hex2(numBytes) and max(1, numRegisters) registers of four digits from dataAddress, then enters mLRC |
| TxFrame.WritePayloadSends | AsciiModbusSlave.cpp:391-399 | the path of any other function sends hex4(dataAddress) and hex4 of that register, then enters mLRC |
| TxFrame.TxRegSends | AsciiModbusSlave.cpp:421-433 | mTXREG entered from elsewhere sends max(1, numRegisters) registers, four digits each, and forwards to mLRC |
| TxFrame.PayloadSends | AsciiModbusSlave.cpp:363-399 | whichever path the function code selects, its payload goes out and mLRC is entered from that path's last state |
| TxFrame.LrcSends | AsciiModbusSlave.cpp:401-419 | mLRC entered from a payload state sends the two digits of that path's checksum and goes on to mCRLF |
| TxFrame.CrLfSends | AsciiModbusSlave.cpp:435-444 | mCRLF sends CR, then LF, then moves to mFINISH |
| TxFrame.FrameSends | AsciiModbusSlave.cpp:352-444 | from mCOLON with the delay over, FrameSteps calls send exactly ':', slave, function, payload, checksum digits and CR LF, and stop in mFINISH |
| TxFrame.FrameFromColon | AsciiModbusSlave.cpp:308-324 | the same for n calls of modbus_update with the UART ready |
| TxFrame.OneCycle | AsciiModbusSlave.cpp:382-385 | because messageReadyToSend stays 1, a reply is followed by a new delay and the machine is back in mCOLON with the timer at 0 |
| TxFrame.RepliesForever | AsciiModbusSlave.cpp:382-385 | after n cycles of calls and interrupts exactly n copies of the reply are out |
| ReplyBytes.HexBytesRoundTrip | AsciiModbusSlave.cpp:464-471 | decoding the hex pairs of a byte string gives the bytes back |
| ReplyBytes.ReplyIsHexOfBytes | AsciiModbusSlave.cpp:346-444 | the reply is ':', the hex of its message bytes and checksum, then CR LF |
| ReplyBytes.ReplyRoundTrip | AsciiModbusSlave.cpp:346-444 | reading the reply back gives the message bytes followed by the checksum |
| ReplyBytes.ExceptionChecksum | AsciiModbusSlave.cpp:404-407 | on the exception path the sent bytes and the checksum sum to 0 modulo 256 |
| ReplyBytes.ReadChecksum | AsciiModbusSlave.cpp:408-411 | on the function 3 path with at least one register, the same holds |
| ReplyBytes.WriteChecksum | AsciiModbusSlave.cpp:412-415 | on the path of any other function, the same holds |
| ReplyBytes.ReplyChecksum | AsciiModbusSlave.cpp:401-419 | the reply's message bytes and checksum sum to 0 modulo 256, unless it is a function 3 reply with numRegisters 0 |
| ReplyBytes.ZeroRegistersUncovered | AsciiModbusSlave.cpp:408-433 | a function 3 reply with numRegisters 0 sends one register that its checksum does not cover: the sum is that register's two bytes, not 0 |
| InitialReply.InitialChecksum | AsciiModbusSlave.cpp:60-69 | with the initial globals the checksum is 0x6E |
| InitialReply.InitialFrame | AsciiModbusSlave.cpp:10-12 | with the initial globals the reply is ":0106000134566E" CR LF |
| InitialReply.FirstReply | AsciiModbusSlave.cpp:308-324 | from power-up, two calls arm the delay with nothing sent; MODBUS_DELAY interrupts run it out; FrameSteps more calls send exactly ":0106000134566E" CR LF |
| SlaveData.InitialEnvValid | AsciiModbusSlave.cpp:10-12 | the initial globals satisfy the register-window requirement, and there are hr_ARRAY_SIZE registers |
| SlaveData.Slave.constructor | AsciiModbusSlave.cpp:60-72 | the globals and txrx start at their static initial values |
| SlaveData.Slave.ModbusInit | AsciiModbusSlave.cpp:162-166 | modbus_init changes only slaveID |
| TxMachine.TransmitMachine.constructor | AsciiModbusSlave.cpp:310-311 | both states start at mFINISH, and lrc, i and the nibble counter at 0 |
| TxMachine.TransmitMachine.Tick | AsciiModbusSlave.h:45 | an interrupt between two polls does what TxModel.Tick says |
| TxMachine.TransmitMachine.ModbusUpdate | AsciiModbusSlave.cpp:308-324 | modbus_update leaves the state TxStep gives, keeps the invariant and returns 0, for every function code whose reply reads only registers in the array |
| TxMachine.TransmitMachine.RunState | AsciiModbusSlave.cpp:316-317 | calling the current state's function does what Dispatch says |
| TxMachine.TransmitMachine.BeginDelayTimer | AsciiModbusSlave.cpp:346-350 | does what TxStartStep says |
| TxMachine.TransmitMachine.SendColon | AsciiModbusSlave.cpp:352-356 | does what ColonStep says |
| TxMachine.TransmitMachine.SendAddress | AsciiModbusSlave.cpp:358-361 | does what SlaveIdStep says |
| TxMachine.TransmitMachine.SendFnCode | AsciiModbusSlave.cpp:363-370 | does what FnCodeStep says |
| TxMachine.TransmitMachine.SendException | AsciiModbusSlave.cpp:377-380 | does what ExceptStep says |
| TxMachine.TransmitMachine.WaitUntilNewMsg | AsciiModbusSlave.cpp:382-385 | returns what FinishStep says, changing nothing |
| TxMachine.TransmitMachine.TxNumBytes | AsciiModbusSlave.cpp:386-389 | does what NumDataStep says |
| TxMachine.TransmitMachine.TxDataAddress | AsciiModbusSlave.cpp:391-394 | does what DataAddStep says |
| TxMachine.TransmitMachine.TxDataValue | AsciiModbusSlave.cpp:396-399 | does what ValueStep says |
| TxMachine.TransmitMachine.SendLrc | AsciiModbusSlave.cpp:401-419 | does what LrcStep says |
| TxMachine.TransmitMachine.EntryChecksum | AsciiModbusSlave.cpp:402-415 | recomputes the static lrc by calculateLRC on entry from mEXCEPT, mTXREG or mVALUE, and keeps it otherwise |
| TxMachine.TransmitMachine.SendRegisters | AsciiModbusSlave.cpp:421-433 | does what TxRegStep says: the index restart, then SendCurrentRegister |
| TxMachine.TransmitMachine.SendCurrentRegister | AsciiModbusSlave.cpp:426-432 | does what TxRegAt says, with the uint8 sums for the address and the index |
| TxMachine.TransmitMachine.SendCrLf | AsciiModbusSlave.cpp:435-444 | does what CrLfStep says |
| RxParser.CombineKeepsLow | AsciiModbusSlave.cpp:208 | the stored (uint8)((hi << 8) \| lo) is always lo: the high digit is lost |
| RxParser.FieldDone | AsciiModbusSlave.cpp:205-283 | the second digit of a pair stores its value at the state's index; the terminator states are never entered; the only exceptions added are ILLEGAL_FN from sCOMMAND and ILLEGAL_DATA_ADDRESS from the two address states, both returning to sCOLON |
| RxParser.RxStep | AsciiModbusSlave.cpp:181-305 | ':' at any time leads to sSLAVE_ADDRESS with get_hi set; tab and space change nothing |
| RxParser.FirstDigitRemembered | AsciiModbusSlave.cpp:200-204 | in a field state the first digit of a pair is only remembered |
| RxParser.SecondDigitStored | AsciiModbusSlave.cpp:205-212 | the second digit of a pair stores its own value as the whole field |
| RxParser.InitialReachable | AsciiModbusSlave.cpp:179 | the parser starts among the reachable states |
| RxParser.StepKeepsReachable | AsciiModbusSlave.cpp:268-301 | one call keeps the parser out of sCR, sLF and sEXCEPTION and adds at most one exception, ILLEGAL_FN or ILLEGAL_DATA_ADDRESS |
| RxParser.RunStaysReachable | AsciiModbusSlave.cpp:268-301 | any byte string keeps that |
| RxParser.NoTerminatorFromReset | AsciiModbusSlave.cpp:268-301 | from power-up no byte string reaches sCR or sLF or raises ILLEGAL_DATA_VALUE |
| RxParser.PairDone | AsciiModbusSlave.cpp:200-283 | two ordinary bytes in a field state are read as one field and checked |
| RxParser.FieldChecked | AsciiModbusSlave.cpp:209-283 | checking field k ends the frame as the verdict on the field values says (not for us, ILLEGAL_FN, ILLEGAL_DATA_ADDRESS) or moves to field k+1, changing nothing else |
| RxParser.FrameParsed | AsciiModbusSlave.cpp:181-305 | a ':' and seven digit pairs end in sCOLON; the fields read hold their low digits and the rest of rxFrame is untouched; an exception is added exactly when the verdict raises one |
| RxParser.IdleIgnores | AsciiModbusSlave.cpp:194-199 | in sCOLON every byte but ':' is ignored |
| RxParser.TrailerIgnored | AsciiModbusSlave.cpp:194-199 | bytes other than ':' after a frame that ended in sCOLON change nothing |
| RxParser.ChecksumIgnored | AsciiModbusSlave.cpp:268-283 | two frames that differ only in the checksum pair leave the same state, exceptions and first six fields |
| RxParser.ReadRequestParsed | AsciiModbusSlave.cpp:292-296 | the request ":010300000001FB" CR LF leaves sCOLON, no exception and rxFrame [1,3,0,0,0,1,0xB], and nothing acts on it |
| RxParser.UnknownFunctionRaises | AsciiModbusSlave.cpp:214-230 | function 7 raises ILLEGAL_FN and nothing after it is stored |
| RxParser.HighAddressDigitLost | AsciiModbusSlave.cpp:231-255 | the address "1000" passes the zero test, because only the '0' of "10" is kept |
| RxParser.LowAddressDigitChecked | AsciiModbusSlave.cpp:240-246 | the address "0100" raises ILLEGAL_DATA_ADDRESS |
| RxParser.AddressHighDigitLost | AsciiModbusSlave.cpp:200-212 | ":11" is accepted as slave address 1 |
| RxParser.OtherSlaveIgnored | AsciiModbusSlave.cpp:209-211 | a frame for slave 2 goes back to sCOLON with no exception |
| RxMachine.ReceiveMachine.constructor | AsciiModbusSlave.cpp:177-185 | the parser starts in sCOLON with get_hi 1 and a zeroed rxFrame |
| RxMachine.ReceiveMachine.ExceptionResponse | AsciiModbusSlave.cpp:23 | a call appends its code to the exception log and changes nothing else |
| RxMachine.ReceiveMachine.StoreField | AsciiModbusSlave.cpp:205-283 | storing and checking a field does what FieldDone says |
| RxMachine.ReceiveMachine.ModbusReceiveStatemachine | AsciiModbusSlave.cpp:181-305 | one call does what RxStep says and leaves slaveID, txrx and the holding registers unchanged |

## Left out

- The hardware macros are left out, because they are hardware I/O: UART set-up, receive, pin and NOP (`AsciiModbusSlave.h:82-118`), and the hardware calls of `modbus_init`. `UART_SEND_BYTE` is the byte log, and `UART_READY_TO_SEND` is the boolean argument of `ModbusUpdate`.
- The timer interrupt is asynchronous. It is modelled as a `Tick` the caller interleaves, with no concurrency.
- `exceptionResponse` is declared but defined nowhere. Only its calls are recorded, in a ghost log.
- The table-driven receiver is not modelled, because no driver uses it and its rows sit at the wrong indices. That receiver is `rxs_state_table`, the `frx_*` functions and their entries in `state_fns_array`. The unused `rxst` record is left out too.
- The error count promised by the header is not modelled: `modbus_update` always returns 0.
- Three behaviours are absent from the code, so they are absent from the model: LRC verification on receive (commented out), acting on a complete frame or writing a register, and clearing `messageReadyToSend`. Their absence is proved by lemmas and a postcondition: the lemma `ChecksumIgnored` for the checksum, the lemma `ReadRequestParsed` for a complete frame, the postcondition `unchanged(data, data.holdingRegisters)` of `ModbusReceiveStatemachine` for register writes, and the lemma `RepliesForever` for `messageReadyToSend`.
- The receive function returns a value at `AsciiModbusSlave.cpp:191` although it is declared void. The model returns without a value.
- A reply whose registers lie outside the array is not modelled. For function 3 that means dataAddress + max(1, numRegisters) > hr_ARRAY_SIZE, and on the write path dataAddress >= hr_ARRAY_SIZE. The C code then reads past the array, which has no defined result. `EnvValid` excludes exactly these cases (`EnvValidIsReadsInRange`); the exception path reads no register and is never excluded.
- Changing `txrx` while a reply is being sent is not modelled. The transmit invariant ties the payload states to the path of the function code held at the time, and the index of mTXREG to numRegisters.
- HexCodec.HexEmitter.SendBinAsAsciiChar: it is modelled for widths 8 and 16 only, the two the code uses. Other widths would make the shift negative or too wide.
- RxMachine.ReceiveMachine.ModbusReceiveStatemachine: `get_hi` is a uint8 flag, tested for non-zero as in the code.
