/** Machine integer types, the exceptions the library throws, and the
    result wrappers that stand for them in this model. */
module Common {

  /** An unsigned 8-bit value, as produced by the secure random source. */
  type byte = b: int | 0 <= b < 0x100

  /** C#'s `int`. */
  type int32 = x: int | -0x8000_0000 <= x < 0x8000_0000

  /** C#'s `uint`. */
  type uint32 = x: int | 0 <= x < 0x1_0000_0000

  /** The .NET exceptions thrown by the modelled code. */
  datatype Error =
    | InvalidOperation    // System.InvalidOperationException
    | ArgumentNull        // System.ArgumentNullException
    | ArgumentOutOfRange  // System.ArgumentOutOfRangeException
    | IndexOutOfRange     // System.IndexOutOfRangeException
    | NotImplemented      // System.NotImplementedException
    | Overflow            // System.OverflowException (array of negative size)
    | DivideByZero        // System.DivideByZeroException

  /** A value, or the exception that was thrown instead. */
  datatype Result<T> = Ok(value: T) | Err(error: Error)

  /** A reference that may be null. */
  datatype Option<T> = None | Some(value: T)

  /** Unchecked conversion to `int`: keeps the low 32 bits, two's complement. */
  function WrapInt32(x: int): (r: int32)
    ensures (r - x) % 0x1_0000_0000 == 0
    ensures -0x8000_0000 <= x < 0x8000_0000 ==> r == x
  {
    (x + 0x8000_0000) % 0x1_0000_0000 - 0x8000_0000
  }

  /** Unchecked conversion to `uint`: keeps the low 32 bits. */
  function WrapUInt32(x: int): (r: uint32)
    ensures (r - x) % 0x1_0000_0000 == 0
    ensures 0 <= x < 0x1_0000_0000 ==> r == x
  {
    x % 0x1_0000_0000
  }
}
