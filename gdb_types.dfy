/**
 * The debugger-side vocabulary the TriCore layer is written against:
 * target bytes, 64-bit target addresses, the type codes and builtin
 * types it inspects or hands out, and register-cache statuses.
 */
module GdbTypes {

  /** One target byte (gdb_byte). */
  type byte = x: int | 0 <= x < 256

  /** CORE_ADDR is an unsigned 64-bit integer on the host. */
  const ADDR_MODULUS: int := 0x1_0000_0000_0000_0000

  type CoreAddr = x: int | 0 <= x < ADDR_MODULUS

  /** The type codes the return-value and alignment policies look at. */
  datatype TypeCode =
    | TypeCodeInt
    | TypeCodeStruct
    | TypeCodeUnion
    | TypeCodeArray
    | TypeCodePtr
    | TypeCodeFunc
    | TypeCodeFlt
    | TypeCodeEnum
    | TypeCodeBool
    | TypeCodeChar
    | TypeCodeVoid
    | TypeCodeOther

  /** A value type as far as this layer sees it: its code and its length in bytes. */
  datatype Type = Type(code: TypeCode, length: nat)

  /** The builtin types the register callbacks return. */
  datatype BuiltinType =
    | BuiltinInt
    | BuiltinUint32
    | BuiltinUint64
    | BuiltinDataPtr
    | BuiltinFuncPtr
      /** a type named by a target description that is none of the above */
    | DescribedType(tag: string)

  /** A value that may be absent: a null pointer in the source. */
  datatype Option<+T> = None | Some(value: T)

  /** Status of a raw register in a register cache. */
  datatype RegisterStatus = RegUnknown | RegValid | RegUnavailable
}
