/**
 * Support for calls the debugger injects into the target: the
 * trampoline on the stack that traps when the called function returns,
 * and the argument set-up, which this architecture does not provide.
 */
module TricoreDummy {
  import opened GdbTypes

  /** The TriCore no-op instruction placed at the breakpoint address. */
  const NopInsn: seq<byte> := [0x0D, 0x00, 0x00, 0x00]

  /** Target memory, byte by byte; absent addresses have never been written. */
  type MemoryMap = map<CoreAddr, byte>

  /** The address k bytes past addr, wrapping as 64-bit arithmetic does. */
  function AddrAdd(addr: CoreAddr, k: nat): CoreAddr
    requires k < ADDR_MODULUS
  {
    if addr + k < ADDR_MODULUS then addr + k else addr + k - ADDR_MODULUS
  }

  /** True when a is one of the len addresses from addr on. */
  predicate InWindow(a: CoreAddr, addr: CoreAddr, len: nat)
  {
    exists k :: 0 <= k < len && k < ADDR_MODULUS && AddrAdd(addr, k) == a
  }

  /** Memory after storing data at addr, addr + 1, and so on. */
  function WriteBytes(m: MemoryMap, addr: CoreAddr, data: seq<byte>): MemoryMap
    decreases |data|
  {
    if data == [] then m
    else WriteBytes(m[addr := data[0]], AddrAdd(addr, 1), data[1..])
  }

  /** Stepping one address and then j more is stepping j + 1. */
  lemma AddrAddStep(addr: CoreAddr, j: nat)
    requires j + 1 < ADDR_MODULUS
    ensures AddrAdd(AddrAdd(addr, 1), j) == AddrAdd(addr, j + 1)
  {
  }

  /** The addresses following addr within one window never come back to it. */
  lemma NotInLaterWindow(a: CoreAddr, addr: CoreAddr, len: nat)
    requires 0 < len <= ADDR_MODULUS
    requires a == addr || !InWindow(a, addr, len)
    ensures !InWindow(a, AddrAdd(addr, 1), len - 1)
  {
    forall j | 0 <= j < len - 1 ensures AddrAdd(AddrAdd(addr, 1), j) != a {
      AddrAddStep(addr, j);
      if a != addr {
        assert AddrAdd(addr, j + 1) != a;
      }
    }
  }

  /**
   * Storing at most 2^64 bytes puts the k-th byte at addr + k and
   * leaves every address outside that window as it was.
   */
  lemma {:induction false} WriteBytesSpec(m: MemoryMap, addr: CoreAddr, data: seq<byte>)
    requires |data| <= ADDR_MODULUS
    ensures forall k :: 0 <= k < |data| ==>
              AddrAdd(addr, k) in WriteBytes(m, addr, data) && WriteBytes(m, addr, data)[AddrAdd(addr, k)] == data[k]
    ensures forall a: CoreAddr :: !InWindow(a, addr, |data|) ==>
              (a in WriteBytes(m, addr, data) <==> a in m) && (a in m ==> WriteBytes(m, addr, data)[a] == m[a])
    decreases |data|
  {
    if data != [] {
      var m' := m[addr := data[0]];
      var next := AddrAdd(addr, 1);
      var rest := data[1..];
      WriteBytesSpec(m', next, rest);
      var w := WriteBytes(m, addr, data);
      assert w == WriteBytes(m', next, rest);
      forall k | 0 <= k < |data|
        ensures AddrAdd(addr, k) in w && w[AddrAdd(addr, k)] == data[k]
      {
        if k == 0 {
          NotInLaterWindow(addr, addr, |data|);
        } else {
          AddrAddStep(addr, k - 1);
          assert rest[k - 1] == data[k];
        }
      }
      forall a: CoreAddr | !InWindow(a, addr, |data|)
        ensures (a in w <==> a in m) && (a in m ==> w[a] == m[a])
      {
        assert AddrAdd(addr, 0) == addr;
        NotInLaterWindow(a, addr, |data|);
      }
    }
  }

  /** The target's memory, which the debugger writes through target_write_memory. */
  class TargetMemory {
    var contents: MemoryMap

    constructor (contents: MemoryMap)
      ensures this.contents == contents
    {
      this.contents := contents;
    }

    /** target_write_memory (addr, data, |data|) */
    method WriteMemory(addr: CoreAddr, data: seq<byte>)
      modifies this
      ensures contents == WriteBytes(old(contents), addr, data)
    {
      contents := WriteBytes(contents, addr, data);
    }
  }

  /**
   * tricore_push_dummy_code: reserve 16 bytes below the stack pointer
   * (wrapping as unsigned 64-bit arithmetic does), put a no-op at the
   * new stack pointer, which is also the breakpoint address, and resume
   * at the function's address.
   */
  method PushDummyCode(memory: TargetMemory, sp: CoreAddr, funaddr: CoreAddr)
    returns (newSp: CoreAddr, realPc: CoreAddr, bpAddr: CoreAddr)
    modifies memory
    ensures bpAddr == newSp && realPc == funaddr
    ensures sp >= 16 ==> newSp == sp - 16
    ensures sp < 16 ==> newSp == sp + ADDR_MODULUS - 16
    ensures sp % 16 == 0 ==> newSp % 16 == 0
    ensures forall k :: 0 <= k < |NopInsn| ==>
              AddrAdd(bpAddr, k) in memory.contents && memory.contents[AddrAdd(bpAddr, k)] == NopInsn[k]
    ensures forall a: CoreAddr :: !InWindow(a, bpAddr, |NopInsn|) ==>
              (a in memory.contents <==> a in old(memory.contents))
              && (a in old(memory.contents) ==> memory.contents[a] == old(memory.contents)[a])
  {
    var s := (sp - 16) % ADDR_MODULUS;
    bpAddr := s;
    realPc := funaddr;

    memory.WriteMemory(bpAddr, NopInsn);
    WriteBytesSpec(old(memory.contents), bpAddr, NopInsn);

    newSp := s;
  }

  /**
   * tricore_push_dummy_call: argument passing for injected calls is not
   * implemented and the source aborts, so no caller may reach it.
   */
  method PushDummyCall(sp: CoreAddr) returns (r: CoreAddr)
    requires false
    ensures r == sp
  {
    r := sp;
  }
}
