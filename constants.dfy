/** Protocol constants: coil encodings, request-size limits and exception code bytes. */
module Constants {
  import opened Num

  /** Value of a coil that is ON in a write-single-coil request or reply. */
  const COIL_ON: u16 := 0xFF00
  /** Value of a coil that is OFF in a write-single-coil request or reply. */
  const COIL_OFF: u16 := 0x0000

  const MAX_READ_COILS_COUNT: u16 := 0x07D0
  const MAX_READ_REGISTERS_COUNT: u16 := 0x007D
  const MAX_WRITE_COILS_COUNT: u16 := 0x07B0
  const MAX_WRITE_REGISTERS_COUNT: u16 := 0x007B

  const ILLEGAL_FUNCTION: u8 := 0x01
  const ILLEGAL_DATA_ADDRESS: u8 := 0x02
  const ILLEGAL_DATA_VALUE: u8 := 0x03
  const SERVER_DEVICE_FAILURE: u8 := 0x04
  const ACKNOWLEDGE: u8 := 0x05
  const SERVER_DEVICE_BUSY: u8 := 0x06
  const MEMORY_PARITY_ERROR: u8 := 0x08
  const GATEWAY_PATH_UNAVAILABLE: u8 := 0x0A
  const GATEWAY_TARGET_DEVICE_FAILED_TO_RESPOND: u8 := 0x0B
}
