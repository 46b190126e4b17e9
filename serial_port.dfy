/** The transmit side of the UART, reduced to the log of the bytes handed to
    UART_SEND_BYTE. */
module SerialPort {
  import opened ModbusTypes

  class Uart {
    /** Every byte sent so far, oldest first. */
    var sent: seq<uint8>

    constructor ()
      ensures sent == []
    {
      sent := [];
    }

    /** UART_SEND_BYTE: the byte goes out after all earlier ones. */
    method SendByte(b: uint8)
      modifies this
      ensures sent == old(sent) + [b]
    {
      sent := sent + [b];
    }
  }
}
