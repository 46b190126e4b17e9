/** The globals the two machines share (slaveID, functionCode,
    holding_registers) and the TXRX record txrx that the transmit machine
    reads them through (AsciiModbusSlave.cpp:10-12, 60-72, 162-166). */
module SlaveData {
  import opened ModbusTypes
  import opened TxModel

  /** The register file as initialised: hr_L_MOTOR_SPEED_SETTING .. hr_ERRORCOUNT. */
  const InitialRegisters: seq<uint16> := [0x0000, 0x3456, 0x0001, 0x0002, 0x0003]

  /** txrx and the globals as the program starts: a reply to function 6 for
      slave 1, naming register 1, is ready to go. */
  const InitialEnv: TxEnv := TxEnv(1, 1, 6, 1, 2, 1, 1, InitialRegisters)

  lemma InitialEnvValid()
    ensures EnvValid(InitialEnv)
    ensures |InitialRegisters| == HrArraySize as int
  {
  }

  class Slave {
    var slaveID: uint8
    var functionCode: uint8
    /** holding_registers[hr_ARRAY_SIZE] */
    var holdingRegisters: array<uint16>
    // The plain fields of txrx (data_in is never read by the transmit machine).
    var messageReadyToSend: uint8
    var exception: uint8
    var numBytes: uint8
    var dataAddress: uint8
    var numRegisters: uint8

    /** What the transmit machine sees through txrx. */
    function Env(): TxEnv
      reads this, holdingRegisters
    {
      TxEnv(messageReadyToSend, slaveID, functionCode, exception, numBytes, dataAddress, numRegisters,
            holdingRegisters[..])
    }

    /** The static initialisers of the globals and of txrx. */
    constructor ()
      ensures Env() == InitialEnv
      ensures holdingRegisters.Length == HrArraySize as int
      ensures fresh(holdingRegisters)
    {
      slaveID := 1;
      functionCode := 6;
      var regs := new uint16[5];
      regs[0], regs[1], regs[2], regs[3], regs[4] := 0x0000, 0x3456, 0x0001, 0x0002, 0x0003;
      holdingRegisters := regs;
      messageReadyToSend := 1;
      exception := 1;
      numBytes := 2;
      dataAddress := 1;
      numRegisters := 1;
    }

    /** modbus_init without the hardware set-up: only the slave address changes. */
    method ModbusInit(slaveIdInit: uint8)
      modifies this
      ensures Env() == old(Env()).(slaveID := slaveIdInit)
      ensures holdingRegisters == old(holdingRegisters)
    {
      slaveID := slaveIdInit;
    }
  }
}
