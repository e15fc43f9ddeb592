/**
 * TriCore register numbers.  The hardware numbers are the ones the
 * static target description assigns (gdb/features/tricore.c); the
 * pseudo-register numbers are positions in the pseudo-register name
 * table, counted from the first number after the hardware registers.
 */
module TricoreRegs {

  const TRICORE_D0_REGNUM: nat := 0
  const TRICORE_D15_REGNUM: nat := 15
  const TRICORE_A0_REGNUM: nat := 16
  const TRICORE_A10_REGNUM: nat := 26
  const TRICORE_A15_REGNUM: nat := 31
  const TRICORE_PCX_REGNUM: nat := 34
  const TRICORE_PSW_REGNUM: nat := 35
  const TRICORE_PC_REGNUM: nat := 36
  const TRICORE_BTV_REGNUM: nat := 39
  const TRICORE_BIV_REGNUM: nat := 40

  /** Number of hardware registers. */
  const TRICORE_NUM_REGS: nat := 44

  /** Pseudo-register positions: e0..e14 first, then p0..p14. */
  const TRICORE_E0_REGNUM: nat := 0
  const TRICORE_P0_REGNUM: nat := 8
  const TRICORE_PSEUDO_NUM: nat := 16

  /** The name of the one feature the architecture requires. */
  const TRICORE_CORE_FEATURE: string := "org.gnu.gdb.tricore.core"
}
