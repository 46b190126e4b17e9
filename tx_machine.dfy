/** The transmit state machine as the program runs it: modbus_update with its
    static cur_state and previous_state, the thirteen ftx_* step functions with
    the static lrc of ftx_mLRC_sendLrc and the static i of
    ftx_mTXREG_sendRegisters (AsciiModbusSlave.cpp:308-324, 346-444). Every
    method is proved to do what the corresponding function of TxModel says, so
    the lemmas of TxFrame and InitialReply apply to its runs. */
module TxMachine {
  import opened ModbusTypes
  import opened HexCodec
  import opened Lrc
  import opened Timer
  import opened SerialPort
  import opened TxTable
  import opened TxModel
  import TxFlow
  import opened SlaveData

  class TransmitMachine {
    /** The static cur_state and previous_state of modbus_update. */
    var curState: TxStateId
    var previousState: TxStateId
    /** The static lrc of ftx_mLRC_sendLrc. */
    var lrc: uint8
    /** The static i of ftx_mTXREG_sendRegisters. */
    var regIndex: uint8

    /** send_bin_as_ascii_char and its static nibble counter. */
    const emitter: HexEmitter
    /** UART_SEND_BYTE */
    const uart: Uart
    /** The global modbus_timer. */
    const timer: ModbusTimer
    /** txrx and the globals it points to. */
    const data: Slave

    /** The record the step functions read. */
    function Env(): TxEnv
      reads data, data.holdingRegisters
    {
      data.Env()
    }

    /** The machine's state as TxModel describes it. */
    function Snap(): TxSnap
      reads this, emitter, timer, uart
    {
      TxSnap(curState, previousState, emitter.nibbleCounter, lrc, regIndex, timer.modbusTimer, uart.sent)
    }

    ghost predicate Valid()
      reads this, emitter, timer, uart, data, data.holdingRegisters
    {
      EnvValid(Env()) && TxInv(Snap(), Env())
    }

    /** The static initialisers: both states at mFINISH, lrc and i at 0, and a
        fresh nibble counter at 0. */
    constructor (data: Slave, uart: Uart, timer: ModbusTimer)
      requires EnvValid(data.Env())
      ensures Valid()
      ensures this.data == data && this.uart == uart && this.timer == timer && fresh(emitter)
      ensures Snap() == TxSnap(MFinish, MFinish, 0, 0, 0, timer.modbusTimer, uart.sent)
    {
      curState, previousState := MFinish, MFinish;
      lrc, regIndex := 0, 0;
      this.data, this.uart, this.timer := data, uart, timer;
      emitter := new HexEmitter();
    }

    /** The timer interrupt: UPDATE_MODBUS_TIMER between two polls. */
    method Tick()
      modifies timer
      ensures Snap() == TxModel.Tick(old(Snap()))
    {
      timer.Update();
    }

    /** modbus_update: when the UART can take a byte, run the current state's
        step with the previous state, record the state just run and follow
        the table. Always returns 0. */
    method ModbusUpdate(uartReadyToSend: bool) returns (r: uint16)
      requires Valid()
      modifies this, emitter, uart, timer
      ensures Valid()
      ensures Snap() == TxStep(old(Snap()), Env(), uartReadyToSend)
      ensures r == 0
    {
      if uartReadyToSend {
        ghost var s := Snap();
        TxFlow.TxStepMoves(s, Env());
        var rc := RunState(previousState);
        NextStateIsSuccessor(curState, rc);
        previousState := curState;
        curState := NextState(curState, rc);
      }
      return 0;
    }

    /** state_fns_array[cur_state](previous_state, &txrx): the step function
        of the current state. */
    method RunState(previous: TxStateId) returns (rc: Outcome)
      requires Valid() && previous == previousState
      modifies this, emitter, uart, timer
      ensures rc == Dispatch(old(Snap()), Env()).rc
      ensures Snap() == Dispatch(old(Snap()), Env()).after
    {
      match curState {
        case MTxStart => rc := BeginDelayTimer(previous);
        case MColon => rc := SendColon(previous);
        case MSlaveId => rc := SendAddress(previous);
        case MFnCode => rc := SendFnCode(previous);
        case MChoice => rc := Fn3OrFn6(Env());
        case MExcept => rc := SendException(previous);
        case MLrc => rc := SendLrc(previous);
        case MFinish => rc := WaitUntilNewMsg(previous);
        case MNumData => rc := TxNumBytes(previous);
        case MTxReg => rc := SendRegisters(previous);
        case MDataAdd => rc := TxDataAddress(previous);
        case MValue => rc := TxDataValue(previous);
        case MCrLf => rc := SendCrLf(previous);
        case MNull => assert false;
      }
    }

    /** ftx_mTXSTART_beginDelayTimer */
    method BeginDelayTimer(previous: TxStateId) returns (rc: Outcome)
      modifies timer
      ensures rc == TxStartStep(previous, old(Snap()), Env()).rc
      ensures Snap() == TxStartStep(previous, old(Snap()), Env()).after
    {
      timer.Set(ModbusDelay);
      return RForward;
    }

    /** ftx_mCOLON_sendColon */
    method SendColon(previous: TxStateId) returns (rc: Outcome)
      modifies uart
      ensures rc == ColonStep(previous, old(Snap()), Env()).rc
      ensures Snap() == ColonStep(previous, old(Snap()), Env()).after
    {
      if TimerExpired(timer.modbusTimer) == 0 {
        return RRepeat;
      }
      uart.SendByte(Colon);
      return RForward;
    }

    /** ftx_mSLAVEID_sendAddress */
    method SendAddress(previous: TxStateId) returns (rc: Outcome)
      requires emitter.nibbleCounter < 2
      modifies emitter, uart
      ensures rc == SlaveIdStep(previous, old(Snap()), Env()).rc
      ensures Snap() == SlaveIdStep(previous, old(Snap()), Env()).after
    {
      var done := emitter.SendBinAsAsciiChar(uart, data.slaveID, 8);
      if done == 1 {
        return RForward;
      }
      return RRepeat;
    }

    /** ftx_mFNCODE_sendFnCode */
    method SendFnCode(previous: TxStateId) returns (rc: Outcome)
      requires emitter.nibbleCounter < 2
      modifies emitter, uart
      ensures rc == FnCodeStep(previous, old(Snap()), Env()).rc
      ensures Snap() == FnCodeStep(previous, old(Snap()), Env()).after
    {
      var done := emitter.SendBinAsAsciiChar(uart, data.functionCode, 8);
      if done == 1 {
        if data.functionCode >= 0x80 {
          return RBranch;
        }
        return RForward;
      }
      return RRepeat;
    }

    /** ftx_mEXCEPT_sendException */
    method SendException(previous: TxStateId) returns (rc: Outcome)
      requires emitter.nibbleCounter < 2
      modifies emitter, uart
      ensures rc == ExceptStep(previous, old(Snap()), Env()).rc
      ensures Snap() == ExceptStep(previous, old(Snap()), Env()).after
    {
      var done := emitter.SendBinAsAsciiChar(uart, data.exception, 8);
      if done == 1 {
        return RForward;
      }
      return RRepeat;
    }

    /** ftx_mFINISH_waitUntilNewMsg */
    method WaitUntilNewMsg(previous: TxStateId) returns (rc: Outcome)
      ensures rc == FinishStep(previous, Snap(), Env()).rc
    {
      if data.messageReadyToSend == 1 {
        return RForward;
      }
      return RRepeat;
    }

    /** ftx_mNUMDATA_txNumBytes */
    method TxNumBytes(previous: TxStateId) returns (rc: Outcome)
      requires emitter.nibbleCounter < 2
      modifies emitter, uart
      ensures rc == NumDataStep(previous, old(Snap()), Env()).rc
      ensures Snap() == NumDataStep(previous, old(Snap()), Env()).after
    {
      var done := emitter.SendBinAsAsciiChar(uart, data.numBytes, 8);
      if done == 1 {
        return RForward;
      }
      return RRepeat;
    }

    /** ftx_mDATAADD_txDataAddress */
    method TxDataAddress(previous: TxStateId) returns (rc: Outcome)
      requires emitter.nibbleCounter < 4
      modifies emitter, uart
      ensures rc == DataAddStep(previous, old(Snap()), Env()).rc
      ensures Snap() == DataAddStep(previous, old(Snap()), Env()).after
    {
      var done := emitter.SendBinAsAsciiChar(uart, data.dataAddress, 16);
      if done == 1 {
        return RForward;
      }
      return RRepeat;
    }

    /** ftx_mVALUE_txDataValue */
    method TxDataValue(previous: TxStateId) returns (rc: Outcome)
      requires EnvValid(Env()) && IsWriteFn(data.functionCode) && emitter.nibbleCounter < 4
      modifies emitter, uart
      ensures rc == ValueStep(previous, old(Snap()), Env()).rc
      ensures Snap() == ValueStep(previous, old(Snap()), Env()).after
    {
      var done := emitter.SendBinAsAsciiChar(uart, data.holdingRegisters[data.dataAddress], 16);
      if done == 1 {
        return RForward;
      }
      return RRepeat;
    }

    /** ftx_mLRC_sendLrc: on entry from one of the three payload states the
        checksum is computed over the bytes that path sent; it is then sent as
        two hex digits. */
    method SendLrc(previous: TxStateId) returns (rc: Outcome)
      requires EnvValid(Env()) && OnPath(MLrc, previous, data.functionCode) && emitter.nibbleCounter < 2
      modifies this, emitter, uart
      ensures curState == old(curState) && previousState == old(previousState) && regIndex == old(regIndex)
      ensures rc == LrcStep(previous, old(Snap()), Env()).rc
      ensures Snap() == LrcStep(previous, old(Snap()), Env()).after
    {
      EntryChecksum(previous);
      var done := emitter.SendBinAsAsciiChar(uart, lrc, 8);
      if done == 1 {
        return RForward;
      }
      return RRepeat;
    }

    /** The first half of ftx_mLRC_sendLrc: the static lrc is recomputed
        when the state is entered from a payload state and kept otherwise. */
    method EntryChecksum(previous: TxStateId)
      requires EnvValid(Env()) && OnPath(MLrc, previous, data.functionCode)
      modifies this
      ensures lrc == EntryLrc(previous, old(lrc), Env())
      ensures curState == old(curState) && previousState == old(previousState) && regIndex == old(regIndex)
    {
      var regs := data.holdingRegisters;
      if previous == MExcept {
        lrc := CalculateLrc(data.slaveID, data.functionCode, data.exception, 0, 0, 0, regs);
      } else if previous == MTxReg {
        lrc := CalculateLrc(data.slaveID, data.functionCode, data.numBytes, 0, data.dataAddress, data.numRegisters, regs);
      } else if previous == MValue {
        lrc := CalculateLrc(data.slaveID, data.functionCode, data.dataAddress, 0, data.dataAddress, 1, regs);
      }
    }

    /** ftx_mTXREG_sendRegisters: the index restarts at 0 unless the previous
        call was in this state; then the current register's next digit goes out. */
    method SendRegisters(previous: TxStateId) returns (rc: Outcome)
      requires EnvValid(Env()) && data.functionCode == 3 && emitter.nibbleCounter < 4
      requires previous == MTxReg ==> regIndex < Max1(data.numRegisters)
      modifies this, emitter, uart
      ensures curState == old(curState) && previousState == old(previousState) && lrc == old(lrc)
      ensures rc == TxRegStep(previous, old(Snap()), Env()).rc
      ensures Snap() == TxRegStep(previous, old(Snap()), Env()).after
    {
      if previous != MTxReg {
        regIndex := 0;
      }
      rc := SendCurrentRegister();
    }

    /** The rest of ftx_mTXREG_sendRegisters: a digit of register i, the
        address and the index being uint8 sums. */
    method SendCurrentRegister() returns (rc: Outcome)
      requires EnvValid(Env()) && data.functionCode == 3 && emitter.nibbleCounter < 4
      requires regIndex < Max1(data.numRegisters)
      modifies this, emitter, uart
      ensures curState == old(curState) && previousState == old(previousState) && lrc == old(lrc)
      ensures rc == TxRegAt(old(Snap()), Env()).rc
      ensures Snap() == TxRegAt(old(Snap()), Env()).after
    {
      var address := (data.dataAddress + regIndex) % 256;
      var done := emitter.SendBinAsAsciiChar(uart, data.holdingRegisters[address], 16);
      if done == 1 {
        regIndex := (regIndex + 1) % 256;
        if regIndex >= data.numRegisters {
          return RForward;
        }
      }
      return RRepeat;
    }

    /** ftx_mCRLF_sendCrLf */
    method SendCrLf(previous: TxStateId) returns (rc: Outcome)
      modifies uart
      ensures rc == CrLfStep(previous, old(Snap()), Env()).rc
      ensures Snap() == CrLfStep(previous, old(Snap()), Env()).after
    {
      if previous != MCrLf {
        uart.SendByte(CarriageReturn);
        return RRepeat;
      }
      uart.SendByte(LineFeed);
      return RForward;
    }
  }
}
