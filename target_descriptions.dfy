/**
 * The target-description library, seen from the TriCore layer: a
 * description is a list of named features, each a list of registers.
 * The lookups the architecture calls (tdesc_has_registers,
 * tdesc_find_feature, tdesc_numbered_register) are modelled as plain
 * searches over that value.
 */
module TargetDescriptions {
  import opened GdbTypes

  /** One register as tdesc_create_reg declares it. */
  datatype TdescReg = TdescReg(
    name: string,
    targetRegnum: nat,
    saveRestore: bool,
    group: Option<string>,
    bitsize: nat,
    typeTag: string)

  datatype TdescFeature = TdescFeature(name: string, registers: seq<TdescReg>)

  datatype TargetDesc = TargetDesc(features: seq<TdescFeature>)

  /** Registers bound to architecture numbers while validating (tdesc_arch_data). */
  type TdescArchData = map<nat, TdescReg>

  /** True when some feature of the list declares at least one register. */
  function AnyFeatureHasRegisters(features: seq<TdescFeature>): (r: bool)
    ensures r <==> exists i :: 0 <= i < |features| && features[i].registers != []
  {
    if features == [] then false
    else features[0].registers != [] || AnyFeatureHasRegisters(features[1..])
  }

  /** tdesc_has_registers: a null description has none. */
  function TdescHasRegisters(tdesc: Option<TargetDesc>): (r: bool)
    ensures r <==> tdesc.Some? && exists i :: 0 <= i < |tdesc.value.features| && tdesc.value.features[i].registers != []
  {
    tdesc.Some? && AnyFeatureHasRegisters(tdesc.value.features)
  }

  /** The first feature of the list with exactly this name. */
  function FindFeatureIn(features: seq<TdescFeature>, name: string): (r: Option<TdescFeature>)
    ensures r.None? <==> forall i :: 0 <= i < |features| ==> features[i].name != name
    ensures r.Some? ==> exists i :: 0 <= i < |features| && features[i] == r.value && r.value.name == name
                                    && forall j :: 0 <= j < i ==> features[j].name != name
  {
    if features == [] then None
    else if features[0].name == name then Some(features[0])
    else
      var r := FindFeatureIn(features[1..], name);
      if r.Some? then
        ghost var i :| 0 <= i < |features[1..]| && features[1..][i] == r.value && r.value.name == name
                       && forall j :: 0 <= j < i ==> features[1..][j].name != name;
        assert features[i + 1] == r.value;
        r
      else r
  }

  /** tdesc_find_feature. */
  function FindFeature(tdesc: TargetDesc, name: string): Option<TdescFeature>
  {
    FindFeatureIn(tdesc.features, name)
  }

  /** ASCII lower-casing, as strcasecmp compares in the C locale. */
  function AsciiLower(c: char): char
  {
    if 'A' <= c <= 'Z' then (c as int + 32) as char else c
  }

  /** strcasecmp (a, b) == 0 */
  predicate EqualsIgnoreCase(a: string, b: string)
  {
    |a| == |b| && forall i :: 0 <= i < |a| ==> AsciiLower(a[i]) == AsciiLower(b[i])
  }

  /** The first register of the list whose name matches, ignoring case. */
  function FindRegisterIn(regs: seq<TdescReg>, name: string): (r: Option<TdescReg>)
    ensures r.None? <==> forall i :: 0 <= i < |regs| ==> !EqualsIgnoreCase(regs[i].name, name)
    ensures r.Some? ==> exists i :: 0 <= i < |regs| && regs[i] == r.value && EqualsIgnoreCase(r.value.name, name)
                                    && forall j :: 0 <= j < i ==> !EqualsIgnoreCase(regs[j].name, name)
  {
    if regs == [] then None
    else if EqualsIgnoreCase(regs[0].name, name) then Some(regs[0])
    else
      var r := FindRegisterIn(regs[1..], name);
      if r.Some? then
        ghost var i :| 0 <= i < |regs[1..]| && regs[1..][i] == r.value && EqualsIgnoreCase(r.value.name, name)
                       && forall j :: 0 <= j < i ==> !EqualsIgnoreCase(regs[1..][j].name, name);
        assert regs[i + 1] == r.value;
        r
      else r
  }

  /** The register of a feature that the name selects (tdesc_find_register_early). */
  function FindRegister(feature: TdescFeature, name: string): Option<TdescReg>
  {
    FindRegisterIn(feature.registers, name)
  }

  /**
   * tdesc_numbered_register: when the feature has a register of that
   * name, bind it to architecture number regno and report success;
   * otherwise leave the bindings as they are and report failure.  The
   * register's own target number is not compared with regno.
   */
  function NumberedRegister(feature: TdescFeature, data: TdescArchData, regno: nat, name: string)
    : (r: (bool, TdescArchData))
    ensures r.0 <==> exists i :: 0 <= i < |feature.registers| && EqualsIgnoreCase(feature.registers[i].name, name)
    ensures r.0 ==> regno in r.1 && EqualsIgnoreCase(r.1[regno].name, name) && r.1[regno] in feature.registers
    ensures forall n :: n != regno ==> (n in r.1 <==> n in data) && (n in data ==> r.1[n] == data[n])
    ensures !r.0 ==> r.1 == data
  {
    match FindRegister(feature, name)
    case Some(reg) => (true, data[regno := reg])
    case None => (false, data)
  }

  /** The builtin type a description's type tag names. */
  function TagType(tag: string): BuiltinType
  {
    if tag == "int" then BuiltinInt
    else if tag == "uint32" then BuiltinUint32
    else if tag == "uint64" then BuiltinUint64
    else if tag == "data_ptr" then BuiltinDataPtr
    else if tag == "code_ptr" then BuiltinFuncPtr
    else DescribedType(tag)
  }
}
