/**
 * The static TriCore target description (gdb/features/tricore.c): one
 * feature, org.gnu.gdb.tricore.core, declaring the 44 hardware
 * registers in number order.  The generated initialiser appends them
 * one by one with tdesc_create_reg and then publishes the finished
 * description; since the result is fixed data, it is modelled as a
 * constant built from the names and type tags of those calls.
 */
module TricoreFeatures {
  import opened GdbTypes
  import opened TricoreRegs
  import opened TargetDescriptions

  /** The name argument of each tdesc_create_reg call, in call order. */
  const CoreRegisterNames: seq<string> := [
      "d0", "d1", "d2", "d3", "d4", "d5", "d6", "d7",
      "d8", "d9", "d10", "d11", "d12", "d13", "d14", "d15",
      "a0", "a1", "a2", "a3", "a4", "a5", "a6", "a7",
      "a8", "a9", "a10", "a11", "a12", "a13", "a14", "a15",
      "lcx", "fcx", "pcx", "psw", "pc", "icr", "isp", "btv",
      "biv", "syscon", "pcon0", "dcon0"
    ]

  /** The type argument of each tdesc_create_reg call, in call order. */
  const CoreRegisterTags: seq<string> := [
      "int", "int", "int", "int", "int", "int", "int", "int",
      "int", "int", "int", "int", "int", "int", "int", "int",
      "data_ptr", "data_ptr", "data_ptr", "data_ptr", "data_ptr", "data_ptr", "data_ptr", "data_ptr",
      "data_ptr", "data_ptr", "data_ptr", "data_ptr", "data_ptr", "data_ptr", "data_ptr", "data_ptr",
      "int", "int", "uint32", "uint32", "code_ptr", "int", "int", "code_ptr",
      "code_ptr", "int", "int", "int"
    ]

  /**
   * The registers of the core feature: the i-th call declares register
   * number i, save_restore 1, no group, 32 bits.
   */
  function CoreRegisters(): (regs: seq<TdescReg>)
    ensures |regs| == TRICORE_NUM_REGS
    ensures forall i :: 0 <= i < |regs| ==> regs[i].targetRegnum == i
    ensures forall i :: 0 <= i < |regs| ==> regs[i].bitsize == 32 && regs[i].saveRestore && regs[i].group.None?
    ensures forall i :: 0 <= i < |regs| ==> regs[i].name == CoreRegisterNames[i] && regs[i].typeTag == CoreRegisterTags[i]
    ensures regs[TRICORE_A10_REGNUM].name == "a10" && regs[TRICORE_PC_REGNUM].name == "pc"
    ensures regs[TRICORE_PCX_REGNUM].name == "pcx" && regs[TRICORE_PSW_REGNUM].name == "psw"
  {
    seq(TRICORE_NUM_REGS, i requires 0 <= i < TRICORE_NUM_REGS =>
      TdescReg(CoreRegisterNames[i], i, true, None, 32, CoreRegisterTags[i]))
  }

  /** tdesc_tricore: the description with its single feature. */
  function TdescTricore(): (t: TargetDesc)
    ensures |t.features| == 1
    ensures t.features[0].name == TRICORE_CORE_FEATURE
    ensures t.features[0].registers == CoreRegisters()
  {
    TargetDesc([TdescFeature(TRICORE_CORE_FEATURE, CoreRegisters())])
  }
}
