/**
 * The fallback frame unwinder.  Each frame keeps a slot for this
 * unwinder's cache; the first request fills it with a zero-initialised
 * record holding the frame's pcx value (the previous-context pointer)
 * and a saved-register table with nothing recorded, and every later
 * request returns that same record.
 */
module TricoreFrame {
  import opened GdbTypes

  /** Where a caller's register value can be found (trad_frame_saved_reg). */
  datatype SavedReg =
    | Unknown
    | AtAddr(addr: CoreAddr)
    | InRealReg(regnum: nat)
    | AsValue(value: int)

  /** struct frame_id, reduced to the fields this unwinder sets. */
  datatype FrameId = FrameId(
    stackAddr: CoreAddr, stackValid: bool,
    codeAddr: CoreAddr, codeAddrP: bool,
    specialAddr: CoreAddr, specialAddrP: bool)

  /** An all-zero frame id, as a zero-filled allocation holds. */
  const ZeroFrameId: FrameId := FrameId(0, false, 0, false, 0, false)

  /** frame_id_build_special: stack, code and special address all valid. */
  function FrameIdBuildSpecial(stackAddr: CoreAddr, codeAddr: CoreAddr, specialAddr: CoreAddr): FrameId
  {
    FrameId(stackAddr, true, codeAddr, true, specialAddr, true)
  }

  /** A saved-register table with no entry filled in. */
  function UnknownSavedRegs(n: nat): (regs: seq<SavedReg>)
    ensures |regs| == n && forall i :: 0 <= i < n ==> regs[i] == Unknown
  {
    seq(n, _ => Unknown)
  }

  /** struct tricore_unwind_cache */
  class TricoreUnwindCache {
    var pcx: CoreAddr
    var framePtr: CoreAddr
    var regs: seq<SavedReg>
    var thisId: FrameId

    /** FRAME_OBSTACK_ZALLOC: every field zero. */
    constructor Zalloc()
      ensures pcx == 0 && framePtr == 0 && regs == [] && thisId == ZeroFrameId
    {
      pcx, framePtr, regs, thisId := 0, 0, [], ZeroFrameId;
    }
  }

  /**
   * The parts of a frame this unwinder uses: the value of its pcx
   * register, the number of raw plus pseudo registers, and the cache
   * slot (the frame's prologue_cache, passed around as this_cache).
   */
  class FrameInfo {
    const pcxValue: CoreAddr
    const numCookedRegs: nat
    var prologueCache: TricoreUnwindCache?

    constructor (pcxValue: CoreAddr, numCookedRegs: nat)
      ensures this.pcxValue == pcxValue && this.numCookedRegs == numCookedRegs
      ensures prologueCache == null
    {
      this.pcxValue := pcxValue;
      this.numCookedRegs := numCookedRegs;
      prologueCache := null;
    }

    /** A filled slot holds what the first request built for this frame. */
    ghost predicate Valid()
      reads this, prologueCache
    {
      prologueCache != null ==>
        && prologueCache.pcx == pcxValue
        && prologueCache.framePtr == 0
        && prologueCache.regs == UnknownSavedRegs(numCookedRegs)
    }
  }

  /**
   * tricore_frame_cache: return the frame's cache if there is one;
   * otherwise allocate a zeroed record, give it an empty saved-register
   * table, store it in the slot and record the frame's pcx.
   */
  method FrameCache(frame: FrameInfo) returns (cache: TricoreUnwindCache)
    requires frame.Valid()
    modifies frame
    ensures frame.Valid() && frame.prologueCache == cache
    ensures old(frame.prologueCache) != null ==> cache == old(frame.prologueCache)
    ensures old(frame.prologueCache) == null ==> fresh(cache)
    ensures cache.pcx == frame.pcxValue && cache.framePtr == 0
    ensures cache.regs == UnknownSavedRegs(frame.numCookedRegs)
  {
    if frame.prologueCache != null {
      return frame.prologueCache;
    }
    cache := new TricoreUnwindCache.Zalloc();
    cache.regs := UnknownSavedRegs(frame.numCookedRegs);
    frame.prologueCache := cache;

    cache.pcx := frame.pcxValue;
  }

  /** Asking twice for a frame's cache gives the same record. */
  method FrameCacheTwice(frame: FrameInfo) returns (first: TricoreUnwindCache, second: TricoreUnwindCache)
    requires frame.Valid()
    modifies frame
    ensures first == second && frame.prologueCache == first
  {
    first := FrameCache(frame);
    second := FrameCache(frame);
  }

  /**
   * tricore_frame_this_id: with a zero pcx the id passed in is left as
   * it was (the frame cannot be identified); otherwise it becomes the
   * special id (frame_ptr, pcx, pcx), where frame_ptr is still zero.
   */
  method FrameThisId(frame: FrameInfo, thisId: FrameId) returns (id: FrameId)
    requires frame.Valid()
    modifies frame
    ensures frame.Valid() && frame.prologueCache != null
    ensures frame.pcxValue == 0 ==> id == thisId
    ensures frame.pcxValue != 0 ==> id == FrameIdBuildSpecial(0, frame.pcxValue, frame.pcxValue)
  {
    var cache := FrameCache(frame);
    id := thisId;
    if cache.pcx == 0 {
      return;
    }
    id := FrameIdBuildSpecial(cache.framePtr, cache.pcx, cache.pcx);
  }

  /**
   * tricore_frame_prev_register: the entry of the saved-register table
   * for the register asked about.  This source fills in no entry; the
   * model's table starts with every entry unknown.
   */
  method FramePrevRegister(frame: FrameInfo, prevRegnum: nat) returns (where: SavedReg)
    requires frame.Valid()
    requires prevRegnum < frame.numCookedRegs
    modifies frame
    ensures frame.Valid() && frame.prologueCache != null
    ensures where == Unknown
  {
    var cache := FrameCache(frame);
    where := cache.regs[prevRegnum];
  }
}
