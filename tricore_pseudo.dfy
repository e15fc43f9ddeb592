/**
 * The pseudo-register synthesiser: sixteen 64-bit registers, e0..e14
 * over the data registers and p0..p14 over the address registers, each
 * read and written as two 4-byte halves of a pair of hardware
 * registers held in a register cache.
 *
 * As written, the pair is chosen by bank alone: every e-register uses
 * d0:d1 and every p-register uses a0:a1 (PseudoPairsAlias).
 */
module TricorePseudo {
  import opened GdbTypes
  import opened TricoreRegs

  /** tricore_pseudo_register_names */
  const PseudoRegisterNames: seq<string> := [
    "e0", "e2", "e4", "e6", "e8", "e10", "e12", "e14",
    "p0", "p2", "p4", "p6", "p8", "p10", "p12", "p14"
  ]

  /** Decimal digits of a natural number, most significant first. */
  function DecimalString(n: nat): (s: string)
    ensures |s| >= 1
    decreases n
  {
    if n < 10 then ['0' + n as char]
    else DecimalString(n / 10) + ['0' + (n % 10) as char]
  }

  /**
   * The name a pseudo position is expected to carry: 'e' for the data
   * bank and 'p' for the address bank, followed by the number of the
   * even register that starts its pair.
   */
  function ExpectedPseudoName(k: nat): string
    requires k < TRICORE_PSEUDO_NUM
  {
    [if k < TRICORE_P0_REGNUM then 'e' else 'p'] + DecimalString(2 * (k % TRICORE_P0_REGNUM))
  }

  /**
   * tricore_pseudo_register_name: the number is rebased past the
   * hardware registers and must fall inside the name table.
   */
  function PseudoRegisterName(numRegs: nat, regnum: int): (r: string)
    requires numRegs <= regnum
    requires regnum - numRegs < |PseudoRegisterNames|
    ensures r == ExpectedPseudoName(regnum - numRegs)
  {
    var k := regnum - numRegs;
    PseudoNameTable(k);
    PseudoRegisterNames[k]
  }

  /** Every entry of the name table follows the e/p naming scheme. */
  lemma PseudoNameTable(k: nat)
    requires k < TRICORE_PSEUDO_NUM
    ensures PseudoRegisterNames[k] == ExpectedPseudoName(k)
  {
    assert DecimalString(10) == "10";
    assert DecimalString(12) == "12";
    assert DecimalString(14) == "14";
  }

  /**
   * tricore_pseudo_register_type: every pseudo-register is an unsigned
   * 64-bit integer.
   */
  function PseudoRegisterType(numRegs: nat, regnum: int): (r: BuiltinType)
    requires TRICORE_E0_REGNUM <= regnum - numRegs < TRICORE_PSEUDO_NUM
    ensures r == BuiltinUint64
  {
    BuiltinUint64
  }

  /** The register groups a register can be asked about. */
  datatype Reggroup =
    | GeneralReggroup
    | FloatReggroup
    | SystemReggroup
    | VectorReggroup
    | AllReggroup
    | SaveReggroup
    | RestoreReggroup

  /**
   * tricore_pseudo_register_reggroup_p: a number below the end of the
   * pseudo table belongs to the general group and to no other.
   */
  function PseudoRegisterReggroupP(numRegs: nat, regnum: int, group: Reggroup): (r: bool)
    ensures r <==> regnum - numRegs < TRICORE_PSEUDO_NUM && group == GeneralReggroup
  {
    var k := regnum - numRegs;
    if k < TRICORE_P0_REGNUM then
      group == GeneralReggroup
    else if k < TRICORE_PSEUDO_NUM then
      group == GeneralReggroup
    else
      false
  }

  /**
   * The first hardware register of the pair behind a pseudo-register,
   * as the read and write paths compute it: the bank base only.
   */
  function PseudoPairBase(numRegs: nat, regnum: int): (realnum: nat)
    ensures realnum == TRICORE_D0_REGNUM || realnum == TRICORE_A0_REGNUM
  {
    if regnum - numRegs < TRICORE_P0_REGNUM then TRICORE_D0_REGNUM else TRICORE_A0_REGNUM
  }

  /**
   * Both halves of every pair lie in the bank the pseudo-register
   * belongs to: d0..d15 for the e-registers, a0..a15 for the p-registers.
   */
  lemma PseudoPairInBank(numRegs: nat, regnum: int)
    requires numRegs <= regnum < numRegs + TRICORE_PSEUDO_NUM
    ensures regnum - numRegs < TRICORE_P0_REGNUM ==>
              TRICORE_D0_REGNUM <= PseudoPairBase(numRegs, regnum) && PseudoPairBase(numRegs, regnum) + 1 <= TRICORE_D15_REGNUM
    ensures regnum - numRegs >= TRICORE_P0_REGNUM ==>
              TRICORE_A0_REGNUM <= PseudoPairBase(numRegs, regnum) && PseudoPairBase(numRegs, regnum) + 1 <= TRICORE_A15_REGNUM
  {
  }

  /**
   * Two pseudo-registers of the same bank share one pair: for instance
   * e0 and e2 both read and write d0:d1.
   */
  lemma PseudoPairsAlias(numRegs: nat, regnum1: int, regnum2: int)
    requires numRegs <= regnum1 < numRegs + TRICORE_PSEUDO_NUM
    requires numRegs <= regnum2 < numRegs + TRICORE_PSEUDO_NUM
    ensures PseudoPairBase(numRegs, regnum1) == PseudoPairBase(numRegs, regnum2)
        <==> (regnum1 - numRegs < TRICORE_P0_REGNUM <==> regnum2 - numRegs < TRICORE_P0_REGNUM)
  {
  }

  /** One raw register in the cache: its status and its bytes. */
  datatype RawRegister = RawRegister(status: RegisterStatus, contents: seq<byte>)

  type RegisterMap = map<int, RawRegister>

  /** Every hardware register is present with 4 bytes. */
  ghost predicate WellFormed(regs: RegisterMap)
  {
    forall r :: 0 <= r < TRICORE_NUM_REGS ==> r in regs && |regs[r].contents| == 4
  }

  /** A hardware register's size in bytes: all 44 are 32 bits wide. */
  function RegisterSize(regnum: int): nat
    requires 0 <= regnum < TRICORE_NUM_REGS
  {
    4
  }

  /**
   * What reading the pair at realnum yields: the status of the first
   * half that is not valid, or the eight bytes low half first.
   */
  function PairRead(regs: RegisterMap, realnum: nat): (r: (RegisterStatus, seq<byte>))
    requires WellFormed(regs) && realnum + 1 < TRICORE_NUM_REGS
    ensures r.0 == RegValid <==> regs[realnum].status == RegValid && regs[realnum + 1].status == RegValid
    ensures regs[realnum].status != RegValid ==> r.0 == regs[realnum].status
    ensures regs[realnum].status == RegValid ==> r.0 == regs[realnum + 1].status
    ensures r.0 == RegValid ==> |r.1| == 8 && r.1[..4] == regs[realnum].contents && r.1[4..] == regs[realnum + 1].contents
  {
    var lo := regs[realnum];
    if lo.status != RegValid then (lo.status, [])
    else
      var hi := regs[realnum + 1];
      if hi.status != RegValid then (hi.status, [])
      else (RegValid, lo.contents + hi.contents)
  }

  /** The register map after writing eight bytes to the pair at realnum. */
  function PairWrite(regs: RegisterMap, realnum: nat, value: seq<byte>): (r: RegisterMap)
    requires WellFormed(regs) && realnum + 1 < TRICORE_NUM_REGS && |value| == 8
    ensures WellFormed(r)
    ensures r[realnum] == RawRegister(RegValid, value[..4]) && r[realnum + 1] == RawRegister(RegValid, value[4..])
    ensures forall n :: n != realnum && n != realnum + 1 ==> (n in r <==> n in regs) && (n in regs ==> r[n] == regs[n])
  {
    regs[realnum := RawRegister(RegValid, value[..4])][realnum + 1 := RawRegister(RegValid, value[4..])]
  }

  /** Reading a pair just written gives back the eight bytes written. */
  lemma ReadAfterWrite(regs: RegisterMap, realnum: nat, value: seq<byte>)
    requires WellFormed(regs) && realnum + 1 < TRICORE_NUM_REGS && |value| == 8
    ensures PairRead(PairWrite(regs, realnum, value), realnum) == (RegValid, value)
  {
    assert value[..4] + value[4..] == value;
  }

  /** Writing back what a successful read returned leaves the cache as it was. */
  lemma WriteBackIsNoop(regs: RegisterMap, realnum: nat)
    requires WellFormed(regs) && realnum + 1 < TRICORE_NUM_REGS
    requires PairRead(regs, realnum).0 == RegValid
    ensures PairWrite(regs, realnum, PairRead(regs, realnum).1) == regs
  {
    var value := PairRead(regs, realnum).1;
    var w := PairWrite(regs, realnum, value);
    assert w.Keys == regs.Keys;
    forall n | n in regs ensures w[n] == regs[n] {
      if n == realnum {
        assert w[n] == RawRegister(RegValid, regs[realnum].contents);
      } else if n == realnum + 1 {
        assert w[n] == RawRegister(RegValid, regs[realnum + 1].contents);
      }
    }
  }

  /**
   * The register cache the pseudo-register callbacks read and write.
   * The ghost log records the raw registers read, in order, so that
   * a read that is skipped can be told from one that happened.
   */
  class Regcache {
    var registers: RegisterMap
    ghost var readLog: seq<int>

    ghost predicate Valid()
      reads this
    {
      WellFormed(registers)
    }

    constructor (registers: RegisterMap)
      requires WellFormed(registers)
      ensures Valid() && this.registers == registers && readLog == []
    {
      this.registers := registers;
      readLog := [];
    }

    /**
     * raw_read_part (regnum, 0, 4, buf): the register's status and its
     * four bytes (zeros unless the register is valid).
     */
    method RawReadPart(regnum: int) returns (status: RegisterStatus, buf: seq<byte>)
      requires Valid() && 0 <= regnum < TRICORE_NUM_REGS
      modifies this`readLog
      ensures status == registers[regnum].status && |buf| == 4
      ensures status == RegValid ==> buf == registers[regnum].contents
      ensures readLog == old(readLog) + [regnum]
    {
      status := registers[regnum].status;
      buf := if status == RegValid then registers[regnum].contents else [0, 0, 0, 0];
      readLog := readLog + [regnum];
    }

    /** raw_write_part (regnum, 0, 4, buf): the register now holds buf. */
    method RawWritePart(regnum: int, buf: seq<byte>)
      requires Valid() && 0 <= regnum < TRICORE_NUM_REGS && |buf| == 4
      modifies this`registers
      ensures Valid()
      ensures registers == old(registers)[regnum := RawRegister(RegValid, buf)]
    {
      registers := registers[regnum := RawRegister(RegValid, buf)];
    }
  }

  /**
   * tricore_pseudo_register_read: clear the first four bytes of buf,
   * read the low register, and stop with its status if it is not
   * valid; otherwise read the high register, and stop likewise; when
   * both are valid, buf holds low then high.
   */
  method PseudoRegisterRead(numRegs: nat, regcache: Regcache, regnum: int, buf: array<byte>)
    returns (status: RegisterStatus)
    requires regcache.Valid()
    requires numRegs <= regnum < numRegs + TRICORE_PSEUDO_NUM
    requires buf.Length == 8
    modifies buf, regcache`readLog
    ensures regcache.registers == old(regcache.registers)
    ensures var base := PseudoPairBase(numRegs, regnum);
            && status == PairRead(regcache.registers, base).0
            && (status == RegValid ==> buf[..] == PairRead(regcache.registers, base).1)
            && (status != RegValid ==> buf[..4] == [0, 0, 0, 0] && buf[4..] == old(buf[4..]))
            && regcache.readLog == old(regcache.readLog)
                 + if regcache.registers[base].status == RegValid then [base, base + 1] else [base]
  {
    var k := regnum - numRegs;
    var realnum := if k < TRICORE_P0_REGNUM then TRICORE_D0_REGNUM else TRICORE_A0_REGNUM;

    forall i | 0 <= i < RegisterSize(k) {
      buf[i] := 0;
    }
    var reg0;
    status, reg0 := regcache.RawReadPart(realnum);
    if status != RegValid {
      return;
    }
    var reg1;
    status, reg1 := regcache.RawReadPart(realnum + 1);
    if status != RegValid {
      return;
    }
    forall i | 0 <= i < 4 {
      buf[i] := reg0[i];
    }
    forall i | 0 <= i < 4 {
      buf[i + 4] := reg1[i];
    }
    assert buf[..4] == reg0 && buf[4..] == reg1;
    status := RegValid;
  }

  /**
   * tricore_pseudo_register_write: the first four bytes of buf go to
   * the low register and the next four to the high register; nothing
   * else in the cache changes.
   */
  method PseudoRegisterWrite(numRegs: nat, regcache: Regcache, regnum: int, buf: array<byte>)
    requires regcache.Valid()
    requires numRegs <= regnum < numRegs + TRICORE_PSEUDO_NUM
    requires buf.Length == 8
    modifies regcache`registers
    ensures regcache.Valid()
    ensures regcache.registers == PairWrite(old(regcache.registers), PseudoPairBase(numRegs, regnum), buf[..])
  {
    var k := regnum - numRegs;
    var realnum := if k < TRICORE_P0_REGNUM then TRICORE_D0_REGNUM else TRICORE_A0_REGNUM;

    regcache.RawWritePart(realnum, buf[..4]);
    regcache.RawWritePart(realnum + 1, buf[4..]);
  }

  /**
   * Writing a pseudo-register and then reading it back yields valid
   * status and the eight bytes written.
   */
  method PseudoRegisterRoundTrip(numRegs: nat, regcache: Regcache, regnum: int, value: array<byte>)
    returns (status: RegisterStatus, readBack: array<byte>)
    requires regcache.Valid()
    requires numRegs <= regnum < numRegs + TRICORE_PSEUDO_NUM
    requires value.Length == 8
    modifies regcache
    ensures fresh(readBack)
    ensures status == RegValid && readBack[..] == value[..]
  {
    PseudoRegisterWrite(numRegs, regcache, regnum, value);
    ReadAfterWrite(old(regcache.registers), PseudoPairBase(numRegs, regnum), value[..]);
    readBack := new byte[8];
    status := PseudoRegisterRead(numRegs, regcache, regnum, readBack);
  }
}
