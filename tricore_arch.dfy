/**
 * The TriCore architecture factory: the static register names and
 * types used when no target description supplies registers, the check
 * of a description against those names, and the construction of the
 * architecture record with its fixed sizes and register numbers.
 */
module TricoreArch {
  import opened GdbTypes
  import opened TricoreRegs
  import opened TargetDescriptions
  import opened TricoreFeatures
  import opened TricorePolicies
  import opened TricorePseudo

  /** tricore_register_names: the name each hardware register must carry. */
  const RegisterNames: seq<string> := [
    "d0", "d1", "d2", "d3", "d4", "d5", "d6", "d7",
    "d8", "d9", "d10", "d11", "d12", "d13", "d14", "d15",
    "a0", "a1", "a2", "a3", "a4", "a5", "a6", "a7",
    "a8", "a9", "a10", "a11", "a12", "a13", "a14", "a15",
    "lcx", "fcx", "pcx", "psw", "pc", "icr", "isp", "btv",
    "biv", "syscon", "pcon0", "dcon0"
  ]

  /** What the architecture is asked for (struct gdbarch_info). */
  datatype GdbarchInfo = GdbarchInfo(targetDesc: Option<TargetDesc>, osabi: nat)

  datatype CallDummyLocation = OnStack | AtEntryPoint

  /** The frame unwinders an architecture tries, in order. */
  datatype Unwinder = Dwarf2Unwinders | TricorePrologueUnwinder

  /**
   * The architecture record: what the set_gdbarch_* calls record.  The
   * callbacks it installs are the functions and methods of this model.
   */
  datatype Gdbarch = Gdbarch(
    info: GdbarchInfo,
    targetDesc: Option<TargetDesc>,
    shortBit: nat,
    intBit: nat,
    longBit: nat,
    longLongBit: nat,
    floatBit: nat,
    doubleBit: nat,
    longDoubleBit: nat,
    ptrBit: nat,
    charSigned: bool,
    breakpoint: seq<byte>,
    haveNonsteppableWatchpoint: bool,
    stackGrowsDown: bool,
    callDummyLocation: CallDummyLocation,
    unwinders: seq<Unwinder>,
    numRegs: nat,
    spRegnum: int,
    pcRegnum: int,
    numPseudoRegs: nat,
    tdescRegs: Option<TdescArchData>)

  /**
   * gdbarch_alloc: a fresh record for the request, remembering the
   * description the request carried; nothing else is set yet.
   */
  function GdbarchAlloc(info: GdbarchInfo): (g: Gdbarch)
    ensures g.info == info && g.targetDesc == info.targetDesc && g.unwinders == [] && g.tdescRegs.None?
  {
    Gdbarch(info, info.targetDesc, 0, 0, 0, 0, 0, 0, 0, 0, false, [], false, false, AtEntryPoint, [],
            0, -1, -1, 0, None)
  }

  /**
   * A record this factory built: 44 hardware registers, and when the
   * recorded description has registers, all 44 bound by name.
   */
  ghost predicate ArchWellFormed(g: Gdbarch)
  {
    && g.numRegs == TRICORE_NUM_REGS
    && (TdescHasRegisters(g.targetDesc) ==>
          && g.tdescRegs.Some?
          && forall i :: 0 <= i < TRICORE_NUM_REGS ==> i in g.tdescRegs.value)
  }

  /**
   * The static branch of tricore_register_type: data registers are
   * int, address registers data pointers, pcx and psw unsigned 32-bit,
   * pc, btv and biv code pointers; a number past the hardware registers
   * is a pseudo-register; anything else is int.
   */
  function StaticRegisterType(numRegs: nat, regnum: int): BuiltinType
    requires 0 <= regnum < numRegs + TRICORE_PSEUDO_NUM
  {
    if TRICORE_D0_REGNUM <= regnum <= TRICORE_D15_REGNUM then BuiltinInt
    else if TRICORE_A0_REGNUM <= regnum <= TRICORE_A15_REGNUM then BuiltinDataPtr
    else if regnum == TRICORE_PSW_REGNUM || regnum == TRICORE_PCX_REGNUM then BuiltinUint32
    else if regnum == TRICORE_PC_REGNUM || regnum == TRICORE_BIV_REGNUM || regnum == TRICORE_BTV_REGNUM
    then BuiltinFuncPtr
    else if regnum >= numRegs then PseudoRegisterType(numRegs, regnum)
    else BuiltinInt
  }

  /**
   * The static types agree with the type tags of the static
   * description, register by register.
   */
  lemma StaticTypesMatchDescription(regnum: nat)
    requires regnum < TRICORE_NUM_REGS
    ensures StaticRegisterType(TRICORE_NUM_REGS, regnum) == TagType(CoreRegisters()[regnum].typeTag)
  {
    var tag := CoreRegisterTags[regnum];
    if regnum < 16 {
      assert tag == "int";
    } else if regnum < 32 {
      assert tag == "data_ptr";
    } else if regnum == 34 || regnum == 35 {
      assert tag == "uint32";
    } else if regnum == 36 || regnum == 39 || regnum == 40 {
      assert tag == "code_ptr";
    } else {
      assert tag == "int";
    }
  }

  /**
   * tricore_register_type: the description's type when the
   * architecture's description has registers; otherwise the static
   * choice, which for the hardware registers is the static
   * description's type.
   */
  function RegisterType(g: Gdbarch, regnum: int): (r: BuiltinType)
    requires ArchWellFormed(g)
    requires 0 <= regnum < g.numRegs + TRICORE_PSEUDO_NUM
    ensures regnum >= g.numRegs ==> r == BuiltinUint64
    ensures TdescHasRegisters(g.targetDesc) && regnum < g.numRegs ==>
              r == TagType(g.tdescRegs.value[regnum].typeTag)
    ensures !TdescHasRegisters(g.targetDesc) && regnum < g.numRegs ==>
              r == TagType(CoreRegisters()[regnum].typeTag)
  {
    if TdescHasRegisters(g.targetDesc) then
      if regnum < g.numRegs then TagType(g.tdescRegs.value[regnum].typeTag)
      else PseudoRegisterType(g.numRegs, regnum)
    else
      var r := StaticRegisterType(g.numRegs, regnum);
      assert regnum < g.numRegs ==> r == TagType(CoreRegisters()[regnum].typeTag) by {
        if regnum < g.numRegs { StaticTypesMatchDescription(regnum); }
      }
      r
  }

  /**
   * tricore_register_name: the description's name when the
   * architecture's description has registers; otherwise the static
   * name table, and the pseudo-register names past it.
   */
  function RegisterName(g: Gdbarch, regnum: int): (r: string)
    requires ArchWellFormed(g)
    requires 0 <= regnum < g.numRegs + TRICORE_PSEUDO_NUM
    ensures regnum >= g.numRegs ==> r == ExpectedPseudoName(regnum - g.numRegs)
    ensures TdescHasRegisters(g.targetDesc) && regnum < g.numRegs ==>
              r == g.tdescRegs.value[regnum].name
    ensures !TdescHasRegisters(g.targetDesc) && regnum < g.numRegs ==>
              r == CoreRegisters()[regnum].name
  {
    if TdescHasRegisters(g.targetDesc) then
      if regnum < g.numRegs then g.tdescRegs.value[regnum].name
      else PseudoRegisterName(g.numRegs, regnum)
    else if regnum < g.numRegs then
      RegisterNamesMatchDescription();
      RegisterNames[regnum]
    else
      PseudoRegisterName(g.numRegs, regnum)
  }

  /** The static name table and the static description agree name for name. */
  lemma RegisterNamesMatchDescription()
    ensures |RegisterNames| == |CoreRegisters()| == TRICORE_NUM_REGS
    ensures forall i :: 0 <= i < TRICORE_NUM_REGS ==> CoreRegisters()[i].name == RegisterNames[i]
  {
    assert RegisterNames == CoreRegisterNames;
  }

  /** Every name the architecture requires is present in the feature. */
  ghost predicate AllRegistersNamed(feature: TdescFeature)
  {
    forall i :: 0 <= i < TRICORE_NUM_REGS ==> FindRegister(feature, RegisterNames[i]).Some?
  }

  /**
   * The validation loop of tricore_gdbarch_init, over a table of
   * required names: ask for every name in turn, even after one is
   * missing, binding each one found to its number; the result is valid
   * only if all were found.
   */
  method NumberedRegisters(feature: TdescFeature, names: seq<string>) returns (valid: bool, data: TdescArchData)
    ensures valid <==> forall i :: 0 <= i < |names| ==> FindRegister(feature, names[i]).Some?
    ensures forall i :: i in data <==> 0 <= i < |names| && FindRegister(feature, names[i]).Some?
    ensures forall i :: i in data ==> data[i] == FindRegister(feature, names[i]).value
    ensures forall i :: i in data ==> data[i] in feature.registers && EqualsIgnoreCase(data[i].name, names[i])
    ensures valid ==> BoundFrom(data, feature, names)
  {
    data := map[];
    valid := true;
    var i := 0;
    while i < |names|
      invariant 0 <= i <= |names|
      invariant valid <==> forall j :: 0 <= j < i ==> FindRegister(feature, names[j]).Some?
      invariant forall j :: j in data <==> 0 <= j < i && FindRegister(feature, names[j]).Some?
      invariant forall j :: j in data ==> data[j] == FindRegister(feature, names[j]).value
      invariant forall j :: j in data ==> data[j] in feature.registers && EqualsIgnoreCase(data[j].name, names[j])
    {
      var step := NumberedRegister(feature, data, i, names[i]);
      data := step.1;
      valid := valid && step.0;
      i := i + 1;
    }
  }

  /** The static description carries every required name. */
  lemma {:induction false} StaticDescriptionValidates()
    ensures TdescHasRegisters(Some(TdescTricore()))
    ensures FindFeature(TdescTricore(), TRICORE_CORE_FEATURE) == Some(TdescTricore().features[0])
    ensures AllRegistersNamed(TdescTricore().features[0])
  {
    var feature := TdescTricore().features[0];
    assert feature.registers != [];
    RegisterNamesMatchDescription();
    forall i | 0 <= i < TRICORE_NUM_REGS
      ensures FindRegister(feature, RegisterNames[i]).Some?
    {
      assert EqualsIgnoreCase(feature.registers[i].name, RegisterNames[i]);
    }
  }

  /** gdbarch_list_lookup_by_info: the first architecture built for the same request. */
  function ListLookupByInfo(arches: seq<Gdbarch>, info: GdbarchInfo): (r: Option<nat>)
    ensures r.None? <==> forall k :: 0 <= k < |arches| ==> arches[k].info != info
    ensures r.Some? ==> r.value < |arches| && arches[r.value].info == info
                        && forall k :: 0 <= k < r.value ==> arches[k].info != info
  {
    if arches == [] then None
    else if arches[0].info == info then Some(0)
    else
      match ListLookupByInfo(arches[1..], info)
      case None => None
      case Some(k) => Some(k + 1)
  }

  /** The description the factory works from: the request's, or the static one. */
  function EffectiveTdesc(info: GdbarchInfo): TargetDesc
  {
    if info.targetDesc.None? then TdescTricore() else info.targetDesc.value
  }

  /** The description is rejected: it has registers but lacks the core feature or a name. */
  ghost predicate Rejected(tdesc: TargetDesc)
  {
    && TdescHasRegisters(Some(tdesc))
    && (|| FindFeature(tdesc, TRICORE_CORE_FEATURE).None?
        || !AllRegistersNamed(FindFeature(tdesc, TRICORE_CORE_FEATURE).value))
  }

  /** The fixed settings of every architecture the factory builds for a request. */
  ghost predicate BuiltFor(g: Gdbarch, info: GdbarchInfo)
  {
    && g.info == info
    && g.targetDesc == info.targetDesc
    && g.shortBit == 16 && g.intBit == 32 && g.longBit == 32 && g.longLongBit == 64
    && g.floatBit == 32 && g.doubleBit == 64 && g.longDoubleBit == 64 && g.ptrBit == 32
    && g.charSigned
    && g.breakpoint == DefaultBreakpoint
    && g.haveNonsteppableWatchpoint
    && g.stackGrowsDown
    && g.callDummyLocation == OnStack
    && g.unwinders == [Dwarf2Unwinders, TricorePrologueUnwinder]
    && g.numRegs == TRICORE_NUM_REGS
    && g.spRegnum == TRICORE_A10_REGNUM
    && g.pcRegnum == TRICORE_PC_REGNUM
    && g.numPseudoRegs == TRICORE_PSEUDO_NUM
    && (g.tdescRegs.Some? <==> TdescHasRegisters(Some(EffectiveTdesc(info))))
    && (g.tdescRegs.Some? ==>
          && FindFeature(EffectiveTdesc(info), TRICORE_CORE_FEATURE).Some?
          && BoundFrom(g.tdescRegs.value, FindFeature(EffectiveTdesc(info), TRICORE_CORE_FEATURE).value, RegisterNames))
  }

  /**
   * Every number of the name table is bound to the register the feature
   * lists under that name.
   */
  ghost predicate BoundFrom(data: TdescArchData, feature: TdescFeature, names: seq<string>)
  {
    forall i :: 0 <= i < |names| ==>
      && i in data
      && FindRegister(feature, names[i]).Some?
      && data[i] == FindRegister(feature, names[i]).value
      && EqualsIgnoreCase(data[i].name, names[i])
  }

  /**
   * tricore_gdbarch_init: reuse an architecture already built for the
   * same request; otherwise check the description (the static one when
   * the request has none) and either refuse (None) or build a record
   * with the TriCore settings.
   */
  method GdbarchInit(info: GdbarchInfo, arches: seq<Gdbarch>) returns (r: Option<Gdbarch>)
    requires forall k :: 0 <= k < |arches| ==> ArchWellFormed(arches[k])
    ensures ListLookupByInfo(arches, info).Some? ==> r == Some(arches[ListLookupByInfo(arches, info).value])
    ensures ListLookupByInfo(arches, info).None? ==>
              (r.None? <==> Rejected(EffectiveTdesc(info)))
              && (r.Some? ==> BuiltFor(r.value, info))
    ensures r.Some? ==> ArchWellFormed(r.value)
  {
    var found := ListLookupByInfo(arches, info);
    if found.Some? {
      return Some(arches[found.value]);
    }
    var tdesc := EffectiveTdesc(info);

    var tdescData: Option<TdescArchData> := None;
    if TdescHasRegisters(Some(tdesc)) {
      var feature := FindFeature(tdesc, TRICORE_CORE_FEATURE);
      if feature.None? {
        return None;
      }
      var valid, data := NumberedRegisters(feature.value, RegisterNames);
      if !valid {
        return None;
      }
      tdescData := Some(data);
    }

    var g := GdbarchAlloc(info);

    // Target data types.
    g := g.(shortBit := 16, intBit := 32, longBit := 32, longLongBit := 64);
    g := g.(floatBit := 32, doubleBit := 64, longDoubleBit := 64);
    g := g.(ptrBit := 32, charSigned := true);

    // Breakpoints, watchpoints, frames and dummy calls.
    g := g.(breakpoint := DefaultBreakpoint, haveNonsteppableWatchpoint := true);
    g := g.(stackGrowsDown := true, callDummyLocation := OnStack);

    // DWARF unwinders first, this architecture's own as the fallback.
    g := g.(unwinders := g.unwinders + [Dwarf2Unwinders]);
    g := g.(unwinders := g.unwinders + [TricorePrologueUnwinder]);

    // Register numbers.
    g := g.(numRegs := TRICORE_NUM_REGS, spRegnum := TRICORE_A10_REGNUM, pcRegnum := TRICORE_PC_REGNUM);
    g := g.(numPseudoRegs := TRICORE_PSEUDO_NUM);

    if tdescData.Some? {
      g := g.(tdescRegs := tdescData);
    }
    r := Some(g);
  }

  /**
   * A request without a description, with nothing built yet, gets a new
   * architecture from the static description: 44 registers, the stack
   * pointer a10 at 26 and the program counter at 36.
   */
  method InitWithoutDescription(osabi: nat) returns (g: Gdbarch)
    ensures g.numRegs == 44 && g.spRegnum == 26 && g.pcRegnum == 36 && g.numPseudoRegs == 16
    ensures g.tdescRegs.Some? && g.targetDesc.None?
    ensures RegisterName(g, g.spRegnum) == "a10" && RegisterName(g, g.pcRegnum) == "pc"
  {
    var info := GdbarchInfo(None, osabi);
    StaticDescriptionValidates();
    var r := GdbarchInit(info, []);
    g := r.value;
  }
}
