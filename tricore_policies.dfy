/**
 * The small, stateless policies the TriCore architecture installs:
 * how values are returned, how integer types are aligned, how frames
 * are aligned, where a function's body starts, and how DWARF register
 * numbers map to the debugger's own.
 */
module TricorePolicies {
  import opened GdbTypes

  /** enum return_value_convention */
  datatype ReturnValueConvention =
    | RegisterConvention
    | StructConvention
    | AbiReturnsAddress
    | AbiPreservesAddress

  /** Unions, arrays and structures. */
  predicate IsAggregate(code: TypeCode)
  {
    code == TypeCodeUnion || code == TypeCodeArray || code == TypeCodeStruct
  }

  /**
   * tricore_return_value: an aggregate longer than 64 bytes is returned
   * through a caller-supplied address, everything else in registers.
   * Nothing is read or written through the value buffers.
   */
  function ReturnValue(valtype: Type): (r: ReturnValueConvention)
    ensures r == AbiReturnsAddress <==> IsAggregate(valtype.code) && valtype.length > 64
    ensures r != AbiReturnsAddress ==> r == RegisterConvention
  {
    if valtype.code == TypeCodeUnion
       || valtype.code == TypeCodeArray
       || valtype.code == TypeCodeStruct
    then
      if valtype.length > 64 then AbiReturnsAddress else RegisterConvention
    else
      RegisterConvention
  }

  /**
   * tricore_type_align: only integers of 1, 2, 4 or 8 bytes may be
   * asked about (anything else trips an assertion).  The alignment is
   * the length, capped at 4.
   */
  function TypeAlign(t: Type): (r: nat)
    requires t.code == TypeCodeInt
    requires t.length == 1 || t.length == 2 || t.length == 4 || t.length == 8
    ensures 0 < r <= 4 && t.length % r == 0
    ensures r == t.length || (r == 4 && t.length > 4)
  {
    if t.length == 1 then 1
    else if t.length == 2 then 2
    else 4
  }

  /** align_down (v, n) for a power of two n: clear the low bits of v. */
  function AlignDown(v: CoreAddr, n: nat): CoreAddr
    requires n > 0
  {
    v - v % n
  }

  /** tricore_frame_align: round down to a 16-byte boundary. */
  function FrameAlign(address: CoreAddr): (r: CoreAddr)
    ensures r <= address && r % 16 == 0 && address - r < 16
  {
    AlignDown(address, 16)
  }

  /** Aligning an aligned address changes nothing. */
  lemma FrameAlignIdempotent(address: CoreAddr)
    ensures FrameAlign(FrameAlign(address)) == FrameAlign(address)
  {
  }

  /** tricore_skip_prologue: no prologue analysis; the body starts at IP. */
  function SkipPrologue(ip: CoreAddr): (r: CoreAddr)
    ensures r == ip
  {
    ip
  }

  /**
   * tricore_dwarf_reg_to_regnum: DWARF numbers 0..31 are the
   * debugger's own; any other number is passed through (the assertion
   * on that path only rejects 0, which the first branch already took).
   */
  function DwarfRegToRegnum(reg: int): (r: int)
    ensures r == reg
  {
    if 0 <= reg < 32 then reg
    else
      assert reg != 0;
      reg
  }

  /** The software breakpoint instruction (tricore_default_breakpoint). */
  const DefaultBreakpoint: seq<byte> := [0x00, 0xA0]
}
