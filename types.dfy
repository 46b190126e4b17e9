/** Machine integer types, the protocol constants and the holding-register map
    of the Modbus ASCII slave (AsciiModbusSlave.h). */
module ModbusTypes {

  /** uint8_t */
  type uint8 = x: int | 0 <= x < 0x100

  /** uint16_t */
  type uint16 = x: int | 0 <= x < 0x1_0000

  // Exception codes (section 7 of the MODBUS Application Protocol V1.1b3).
  const IllegalFunction: uint8 := 1
  const IllegalDataAddress: uint8 := 2
  const IllegalDataValue: uint8 := 3
  const SlaveDeviceFailure: uint8 := 4

  /** Ticks of the external timer between a request and the start of the reply. */
  const ModbusDelay: uint8 := 20

  // The holding-register map, enum HREG; HrArraySize is the number of registers.
  const HrLMotorSpeedSetting: uint8 := 0
  const HrRMotorSpeedSetting: uint8 := 1
  const HrLMotorSpeedMeasured: uint8 := 2
  const HrRMotorSpeedMeasured: uint8 := 3
  const HrErrorCount: uint8 := 4
  const HrArraySize: uint8 := 5

  // Bytes with a meaning on the wire.
  const Tab: uint8 := 9
  const LineFeed: uint8 := 0x0A
  const CarriageReturn: uint8 := 0x0D
  const Space: uint8 := 32
  const Colon: uint8 := 0x3A

  /** The configuration stays inside what an 8-bit controller can update atomically:
      the delay is below 255, and the register map has at most 255 entries,
      the last index being HrErrorCount. */
  lemma ConfigurationLimits()
    ensures ModbusDelay < 255
    ensures HrArraySize <= 255 && HrErrorCount == HrArraySize - 1
  {
  }
}
