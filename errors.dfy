/** The exceptions the protocol engine raises, one constructor per distinct cause. */
module Errors {

  datatype Error =
    | NoVariablesInRange        // read range holds no variable
    | MultipleFunctionCodes     // read range mixes variables of different read codes
    | ByteOutOfRange            // bytes([...]) of a read header: an element outside 0 .. 255
    | EmptyValues               // write list is empty
    | EmptyValue                // a value to write is None
    | NotContinuous             // write list leaves a gap between two variables
    | RangeTooLarge             // write payload over 255 bytes
    | UnsupportedFunctionCode   // chosen write code not accepted by every variable
    | InvalidValue              // no raw word decodes to the value to write
    | NotANumber                // float() or int() of a string
    | PackOutOfRange            // struct.pack_into: word outside the format's range
    | PackOutOfBuffer           // struct.pack_into: buffer too short
    | Truncated                 // struct.unpack_from or buffer[i]: buffer too short
    | UnexpectedValue           // a decoder raised IndexError on a received word
    | UnknownFunctionCode       // FunctionCodes(b) of a byte that is no code
    | CrcMismatch               // received checksum differs from the computed one
    | AddressMismatch           // write acknowledgement echoes another address
}
