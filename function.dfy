/**
 * Modbus function codes: the eight standard ones and the user-defined codes
 * 65-72 and 100-110 (sent as "custom function code" requests).
 */
module Function {
  import opened Num
  import opened Wrappers

  const READ_COILS: u8 := 1
  const READ_DISCRETE_INPUTS: u8 := 2
  const READ_HOLDING_REGISTERS: u8 := 3
  const READ_INPUT_REGISTERS: u8 := 4
  const WRITE_SINGLE_COIL: u8 := 5
  const WRITE_SINGLE_REGISTER: u8 := 6
  const WRITE_MULTIPLE_COILS: u8 := 15
  const WRITE_MULTIPLE_REGISTERS: u8 := 16

  /** The user-defined function codes, 65-72 and 100-110. */
  predicate IsCustomCode(b: int) {
    65 <= b <= 72 || 100 <= b <= 110
  }

  type CustomCode = b: u8 | IsCustomCode(b) witness 65

  /**
   * The nineteen `SendCFC<n>` variants are folded into `SendCustomFunctionCode(n)`,
   * whose payload ranges over exactly those nineteen codes.
   */
  datatype FunctionCode =
    | ReadCoils
    | ReadDiscreteInputs
    | ReadHoldingRegisters
    | ReadInputRegisters
    | WriteSingleCoil
    | WriteSingleRegister
    | WriteMultipleCoils
    | WriteMultipleRegisters
    | SendCustomFunctionCode(code: CustomCode)
  {
    /** `self as u8` */
    function Value(): (b: u8)
      ensures b < 0x80
    {
      match this
      case ReadCoils => READ_COILS
      case ReadDiscreteInputs => READ_DISCRETE_INPUTS
      case ReadHoldingRegisters => READ_HOLDING_REGISTERS
      case ReadInputRegisters => READ_INPUT_REGISTERS
      case WriteSingleCoil => WRITE_SINGLE_COIL
      case WriteSingleRegister => WRITE_SINGLE_REGISTER
      case WriteMultipleCoils => WRITE_MULTIPLE_COILS
      case WriteMultipleRegisters => WRITE_MULTIPLE_REGISTERS
      case SendCustomFunctionCode(c) => c
    }

    /** `get_value() | 0x80`, the function byte of an exception reply. */
    function AsError(): (b: u8)
      ensures b >= 0x80 && b == SetHighBit(Value())
    {
      Value() + 0x80
    }
  }

  /** `b | 0x80` on a byte. */
  function SetHighBit(b: u8): (r: u8)
    ensures r >= 0x80
    ensures b >= 0x80 ==> r == b
    ensures b < 0x80 ==> r == b + 0x80
  {
    if b < 0x80 then b + 0x80 else b
  }

  /** The bytes `get` recognises. */
  predicate IsKnownCode(b: int) {
    1 <= b <= 6 || b == 15 || b == 16 || IsCustomCode(b)
  }

  /** `FunctionCode::get`: the variant whose value is `b`, or `None`. */
  function Get(b: u8): (r: Option<FunctionCode>)
    ensures r.Some? <==> IsKnownCode(b)
    ensures r.Some? ==> r.value.Value() == b
  {
    if b == READ_COILS then Some(ReadCoils)
    else if b == READ_DISCRETE_INPUTS then Some(ReadDiscreteInputs)
    else if b == READ_HOLDING_REGISTERS then Some(ReadHoldingRegisters)
    else if b == READ_INPUT_REGISTERS then Some(ReadInputRegisters)
    else if b == WRITE_SINGLE_COIL then Some(WriteSingleCoil)
    else if b == WRITE_SINGLE_REGISTER then Some(WriteSingleRegister)
    else if b == WRITE_MULTIPLE_COILS then Some(WriteMultipleCoils)
    else if b == WRITE_MULTIPLE_REGISTERS then Some(WriteMultipleRegisters)
    else if IsCustomCode(b) then Some(SendCustomFunctionCode(b))
    else None
  }

  /** Every variant is recovered from its byte. */
  lemma GetValue(f: FunctionCode)
    ensures Get(f.Value()) == Some(f)
  {
  }

  /** Distinct variants have distinct bytes. */
  lemma ValueInjective(f: FunctionCode, g: FunctionCode)
    ensures f.Value() == g.Value() <==> f == g
  {
    GetValue(f);
    GetValue(g);
  }

  /** An exception function byte is never mistaken for a function code. */
  lemma GetAsError(f: FunctionCode)
    ensures Get(f.AsError()) == None
  {
  }
}
