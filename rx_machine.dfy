/** modbus_receive_statemachine as the program runs it, on the globals
    modbus_rx_state and rxFrame and its static get_hi, hi_nibble and
    lo_nibble (AsciiModbusSlave.cpp:169-305). The method is proved to do
    what RxParser.RxStep says, so the lemmas of RxParser apply to its runs. */
module RxMachine {
  import opened ModbusTypes
  import opened HexCodec
  import opened RxParser
  import opened SlaveData

  class ReceiveMachine {
    var modbusRxState: RxStateId
    var getHi: uint8
    var hiNibble: uint8
    var loNibble: uint8
    /** rxFrame[NUMBER_OF_BYTES_IN_RX_FRAME] */
    const rxFrame: array<uint8>
    /** The codes passed to exceptionResponse, which the program declares but
        never defines: only the calls are recorded. */
    ghost var exceptions: seq<uint8>
    /** The globals the parser reads: slaveID. */
    const data: Slave

    ghost predicate Valid()
      reads this
    {
      rxFrame.Length == NumberOfBytesInRxFrame
    }

    /** The parser's state as RxParser describes it. */
    ghost function Snap(): (s: RxSnap)
      reads this, rxFrame
      requires Valid()
      ensures RxShape(s)
    {
      RxSnap(modbusRxState, getHi, hiNibble, loNibble, rxFrame[..], exceptions)
    }

    /** The static initialisers: sCOLON, get_hi = 1, and a zeroed rxFrame. */
    constructor (data: Slave)
      ensures Valid() && fresh(rxFrame) && this.data == data
      ensures Snap() == InitialRx
    {
      modbusRxState := SColon;
      getHi, hiNibble, loNibble := 1, 0, 0;
      rxFrame := new uint8[NumberOfBytesInRxFrame](_ => 0);
      exceptions := [];
      this.data := data;
      new;
      assert rxFrame[..] == [0, 0, 0, 0, 0, 0, 0];
    }

    /** exceptionResponse(exception) */
    ghost method ExceptionResponse(exception: uint8)
      modifies this
      ensures exceptions == old(exceptions) + [exception]
      ensures modbusRxState == old(modbusRxState) && getHi == old(getHi)
      ensures hiNibble == old(hiNibble) && loNibble == old(loNibble)
    {
      exceptions := exceptions + [exception];
    }

    /** The second digit of a pair: store the field and check it. */
    method StoreField(slaveID: uint8)
      requires Valid() && modbusRxState.IsField()
      modifies this, rxFrame
      ensures Valid()
      ensures Snap() == FieldDone(old(Snap()), slaveID)
    {
      var v := Combine(hiNibble, loNibble);
      rxFrame[modbusRxState.Ord()] := v;
      match modbusRxState {
        case SSlaveAddress =>
          // wait for the next frame if it is for another slave
          if v != slaveID {
            modbusRxState := SColon;
          } else {
            modbusRxState := SCommand;
          }
        case SCommand =>
          if v == 3 || v == 6 {
            modbusRxState := SRegAddress1;
          } else {
            ExceptionResponse(IllegalFunction);
            modbusRxState := SColon;
          }
        case SRegAddress1 =>
          if v != 0 {
            ExceptionResponse(IllegalDataAddress);
            modbusRxState := SColon;
          } else {
            modbusRxState := SRegNumOrAddress2;
          }
        case SRegNumOrAddress2 =>
          if v >= HrArraySize {
            ExceptionResponse(IllegalDataAddress);
            modbusRxState := SColon;
          } else {
            modbusRxState := SValue1;
          }
        case SValue1 => modbusRxState := SValue2;
        case SValue2 => modbusRxState := SLrc;
        case SLrc =>
          // the checksum is not compared
          modbusRxState := SColon;
      }
    }

    /** modbus_receive_statemachine(data_in): one received byte. The parser
        writes only its own state, rxFrame and the exception log; slaveID,
        txrx and the holding registers are left alone. */
    method ModbusReceiveStatemachine(dataIn: uint8)
      requires Valid()
      modifies this, rxFrame
      ensures Valid()
      ensures Snap() == RxStep(old(Snap()), data.slaveID, dataIn)
      ensures unchanged(data, data.holdingRegisters)
    {
      // a colon at any stage starts a new frame
      if dataIn == Colon {
        modbusRxState := SColon;
      }
      if dataIn == Tab || dataIn == Space {
        return;
      }
      match modbusRxState {
        case SColon =>
          if dataIn == Colon {
            modbusRxState := SSlaveAddress;
            getHi := 1;
          }
        case SSlaveAddress | SCommand | SRegAddress1 | SRegNumOrAddress2 | SValue1 | SValue2 | SLrc =>
          if getHi != 0 {
            getHi := 0;
            hiNibble := AsciiToUint8(dataIn);
          } else {
            getHi := 1;
            loNibble := AsciiToUint8(dataIn);
            StoreField(data.slaveID);
          }
        case SCr =>
          if dataIn == CarriageReturn {
            modbusRxState := SLf;
          } else {
            modbusRxState := SColon;
            ExceptionResponse(IllegalDataValue);
          }
        case SLf =>
          if dataIn == LineFeed {
            // the received frame is not acted on
            modbusRxState := SColon;
          } else {
            modbusRxState := SColon;
            ExceptionResponse(IllegalDataValue);
          }
        case SException =>
      }
    }
  }
}
