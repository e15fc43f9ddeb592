# TriCore architecture layer of the debugger, in Dafny

This project models the TriCore back end of the debugger: `gdb/tricore-tdep.c` and the static
register description it falls back on, `gdb/features/tricore.c`. It covers:

- **Register catalog.** The static description declares 44 hardware registers, d0..d15, a0..a15 and
  lcx..dcon0, all 32 bits wide and numbered 0..43 in order (`TricoreFeatures`). The architecture's
  own name table must agree with it name for name, and its static type choice must agree with it
  type for type (`TricoreArch`).
- **Description validation and the factory.** `TricoreArch.GdbarchInit` first reuses an
  architecture already built for the same request. Otherwise it substitutes the static description
  when the request has none. It then requires the `org.gnu.gdb.tricore.core` feature and asks for
  all 44 names without stopping at the first one missing. Finally it builds an architecture record
  with the fixed type widths, the breakpoint bytes, the unwinder order and the register numbers
  (sp = a10 = 26, pc = 36, 44 registers, 16 pseudo-registers).
- **Pseudo-registers** (`TricorePseudo`). e0..e14 and p0..p14 are 64-bit values made of two 32-bit
  registers in a register cache. They have a name, a type and a group. Reads stop at the first half
  that is not valid. Writes store the low half, then the high half.
- **Small policies** (`TricorePolicies`): return-value convention, integer alignment, 16-byte frame
  alignment, prologue skipping and the DWARF register mapping.
- **Dummy calls** (`TricoreDummy`). A 4-byte no-op is written 16 bytes below the stack pointer, with
  64-bit wrap-around. Argument passing is a hard failure in the source, so
  `TricoreDummy.PushDummyCall` requires `false`: no caller may reach it.
- **Fallback unwinder** (`TricoreFrame`). Each frame gets a cache record, built once and stored in
  the frame's nullable slot. The frame id is withheld when pcx is zero. Otherwise it is
  (0, pcx, pcx): the frame pointer field is never assigned, so it stays zero.

The pieces the source calls but does not define are modelled at their interface:

- The target-description library (`TargetDescriptions`) is a set of searches over a description
  value.
- The register cache (`TricorePseudo.Regcache`) is a map from register number to a status and
  4 bytes.
- Target memory (`TricoreDummy.TargetMemory`) is a map from address to byte.
- The frame's pcx register is a given value (`TricoreFrame.FrameInfo.pcxValue`).

Points where the code does something other than what it appears to mean; the model follows the
code:

- `tricore_return_value` compares `valtype->length ()` with 64 (gdb/tricore-tdep.c:31).
  `length ()` counts bytes, so the limit is 64 bytes, not 64 bits.
- The pseudo-register names e0, e2 … e14 and p0, p2 … p14 (gdb/tricore-tdep.c:226-229) suggest one
  pair per name: d0:d1, d2:d3 … and a0:a1, a2:a3 …. The read and write pick only the bank base,
  d0 below p0 and a0 from p0 on (gdb/tricore-tdep.c:284-285, 310-311). As written, every
  e-register reads and writes d0:d1, and every p-register reads and writes a0:a1.
  `TricorePseudo.PseudoPairsAlias` proves this.
- `tdesc_numbered_register` only checks that a register of the required name exists; it then binds
  that register to the required number. It does not compare the register's own number in the
  description. The dense numbering of the static description is proved separately, in
  `TricoreFeatures.CoreRegisters`.

## Model

| member | source | states |
|---|---|---|
| `TargetDescriptions.TdescHasRegisters` | gdb/tricore-tdep.c:398 | a description has registers exactly when it is not null and some feature declares at least one register |
| `TargetDescriptions.FindFeatureIn` | gdb/tricore-tdep.c:404-406 | finds a feature exactly when one has the name; the one found is the first such feature |
| `TargetDescriptions.FindRegisterIn` | gdb/tricore-tdep.c:411-412 | finds a register exactly when one matches the name ignoring ASCII case; the one found is the first match |
| `TargetDescriptions.NumberedRegister` | gdb/tricore-tdep.c:411-412 | succeeds exactly when the feature has a register of that name; on success binds a matching register of the feature to the number; changes no other binding; on failure changes nothing |
| `TricoreFeatures.CoreRegisters` | gdb/features/tricore.c:16-59 | exactly 44 registers numbered 0..43 in order, every one 32 bits, save/restore, no group; a10 is number 26, pc 36, pcx 34, psw 35 |
| `TricoreFeatures.TdescTricore` | gdb/features/tricore.c:12-61 | the static description has one feature, named org.gnu.gdb.tricore.core, holding those 44 registers |
| `TricorePolicies.ReturnValue` | gdb/tricore-tdep.c:21-42 | returns-via-address exactly for a union, array or struct longer than 64 bytes; every other type uses the register convention |
| `TricorePolicies.TypeAlign` | gdb/tricore-tdep.c:45-60 | only 1-, 2-, 4- or 8-byte integers are allowed (anything else is the assertion); the alignment divides the length and is the length capped at 4 |
| `TricorePolicies.FrameAlign` | gdb/tricore-tdep.c:74-78 | the result is at most the address, a multiple of 16, and less than 16 below the address |
| `TricorePolicies.FrameAlignIdempotent` | gdb/tricore-tdep.c:74-78 | aligning an aligned address changes nothing |
| `TricorePolicies.SkipPrologue` | gdb/tricore-tdep.c:67-72 | no prologue is skipped: the result is the address given |
| `TricorePolicies.DwarfRegToRegnum` | gdb/tricore-tdep.c:215-224 | every DWARF register number maps to itself, inside and outside 0..31 |
| `TricorePseudo.PseudoNameTable` | gdb/tricore-tdep.c:226-229 | entry k of the name table is 'e' (k < 8) or 'p' (k ≥ 8) followed by the decimal number 2·(k mod 8) |
| `TricorePseudo.PseudoRegisterName` | gdb/tricore-tdep.c:236-243 | for a number rebased into the table, the name follows that e/p even-number scheme |
| `TricorePseudo.PseudoRegisterType` | gdb/tricore-tdep.c:245-252 | every pseudo-register in range is an unsigned 64-bit integer |
| `TricorePseudo.PseudoRegisterReggroupP` | gdb/tricore-tdep.c:254-275 | a register belongs to a group exactly when its rebased number is below 16 and the group is the general group |
| `TricorePseudo.PseudoPairBase` | gdb/tricore-tdep.c:284-285 | the first register of the pair is always d0 or a0 |
| `TricorePseudo.PseudoPairInBank` | gdb/tricore-tdep.c:284-285 | both halves of an e-register's pair lie in d0..d15; both halves of a p-register's pair lie in a0..a15 |
| `TricorePseudo.PseudoPairsAlias` | gdb/tricore-tdep.c:310-311 | two pseudo-registers use the same pair exactly when they are in the same bank |
| `TricorePseudo.PairRead` | gdb/tricore-tdep.c:289-301 | valid exactly when both halves are valid; an invalid low half's status is reported as it is; a valid low half with an invalid high half reports the high half's status; on success the 8 bytes are the low register's 4 bytes, then the high register's |
| `TricorePseudo.PairWrite` | gdb/tricore-tdep.c:313-314 | bytes 0..3 go to the low register and bytes 4..7 to the high register, both now valid; every other register is unchanged |
| `TricorePseudo.ReadAfterWrite` | gdb/tricore-tdep.c:283-314 | reading a pair right after writing 8 bytes to it gives valid status and those 8 bytes |
| `TricorePseudo.WriteBackIsNoop` | gdb/tricore-tdep.c:283-314 | writing back what a successful read returned leaves the cache exactly as it was |
| `TricorePseudo.Regcache.RawReadPart` | gdb/tricore-tdep.c:289 | gives the register's status and 4 bytes (its contents when valid); logs the read; the registers are unchanged |
| `TricorePseudo.Regcache.RawWritePart` | gdb/tricore-tdep.c:313 | the register now holds the 4 bytes and is valid; no other register changes |
| `TricorePseudo.PseudoRegisterRead` | gdb/tricore-tdep.c:277-302 | status is that of the pair read; on success the buffer is the 8 pair bytes; on failure the first 4 bytes are zero and the rest untouched; when the low half is not valid only one raw register is read, otherwise both, low first; the cache is unchanged |
| `TricorePseudo.PseudoRegisterWrite` | gdb/tricore-tdep.c:304-315 | the cache afterwards is the pair write of the buffer's 8 bytes at the bank's pair; nothing else changes |
| `TricorePseudo.PseudoRegisterRoundTrip` | gdb/tricore-tdep.c:277-315 | a write followed by a read of the same pseudo-register returns valid status and the written bytes |
| `TricoreDummy.WriteBytesSpec` | gdb/tricore-tdep.c:96 | a memory write puts byte k at address + k (mod 2^64) and leaves every address outside that window as it was |
| `TricoreDummy.TargetMemory.WriteMemory` | gdb/tricore-tdep.c:96 | memory afterwards is the old memory with the bytes written from the address on |
| `TricoreDummy.PushDummyCall` | gdb/tricore-tdep.c:101-110 | aborts: `requires false`, so no caller can reach it |
| `TricoreDummy.PushDummyCode` | gdb/tricore-tdep.c:80-99 | new sp = breakpoint address = sp − 16, wrapping below 16; resume address = function address; a 16-aligned sp stays 16-aligned; bytes 0D 00 00 00 at the breakpoint address; all other memory unchanged |
| `TricoreFrame.UnknownSavedRegs` | gdb/tricore-tdep.c:139 | a saved-register table of the given size with no entry filled in |
| `TricoreFrame.TricoreUnwindCache.Zalloc` | gdb/tricore-tdep.c:138 | a new cache record has every field zero |
| `TricoreFrame.FrameCache` | gdb/tricore-tdep.c:128-171 | a filled slot is returned as it is; an empty slot gets a fresh record holding the frame's pcx, frame pointer 0 and an empty saved-register table, stored in the slot |
| `TricoreFrame.FrameCacheTwice` | gdb/tricore-tdep.c:135-136 | two requests for the same frame's cache give the same record |
| `TricoreFrame.FrameThisId` | gdb/tricore-tdep.c:173-185 | pcx zero: the id passed in is returned unchanged; otherwise the id is the special id (0, pcx, pcx) |
| `TricoreFrame.FramePrevRegister` | gdb/tricore-tdep.c:187-195 | the saved-register entry for any register is the one in the table, which this source never fills in (unknown in the model) |
| `TricoreArch.GdbarchAlloc` | gdb/tricore-tdep.c:418-419 | a fresh record remembers the request and its description, with no unwinders and no bound registers |
| `TricoreArch.StaticTypesMatchDescription` | gdb/tricore-tdep.c:332-351 | for each of the 44 hardware registers, the static type equals the type tag of the static description (d int, a data_ptr, pcx/psw uint32, pc/btv/biv code_ptr, the rest int) |
| `TricoreArch.RegisterType` | gdb/tricore-tdep.c:326-352 | with description registers, the bound register's type; otherwise the static description's type for a hardware register; uint64 for a pseudo-register |
| `TricoreArch.RegisterNamesMatchDescription` | gdb/tricore-tdep.c:317-324 | the static name table has 44 entries, and the name at i is the name of register i in the static description |
| `TricoreArch.RegisterName` | gdb/tricore-tdep.c:354-364 | with description registers, the bound register's name; otherwise the static name; past the hardware registers, the e/p pseudo name |
| `TricoreArch.NumberedRegisters` | gdb/tricore-tdep.c:409-415 | valid exactly when every required name is found; every index is tried even after a failure, so each name found is bound at its index to the register the feature lists under that name; nothing else is bound |
| `TricoreArch.StaticDescriptionValidates` | gdb/tricore-tdep.c:394-416 | the static description has registers and the core feature, and carries every required name, so validating it succeeds |
| `TricoreArch.ListLookupByInfo` | gdb/tricore-tdep.c:391-393 | finds the first architecture built for an equal request, and finds nothing exactly when none was |
| `TricoreArch.GdbarchInit` | gdb/tricore-tdep.c:384-521 | a found architecture is returned as it is; otherwise no architecture exactly when the description (static one if none given) has registers but lacks the core feature or a required name; a built one has the fixed widths, breakpoint, DWARF-then-TriCore unwinders, 44 registers, sp 26, pc 36, 16 pseudo-registers and, when there are description registers, each of the 44 numbers bound to the register the core feature lists under its name |
| `TricoreArch.InitWithoutDescription` | gdb/tricore-tdep.c:469-473 | a request with no description and nothing built yet gives an architecture with 44 registers, sp 26 named a10, pc 36 named pc |

## Left out

- The gdbarch setters and library hooks are not modelled as calls. These are `gdbarch_alloc`, the
  `set_gdbarch_*` calls, `gdbarch_init_osabi`, the unwinder registration and
  `tdesc_use_registers`. Their effects are fields of the `TricoreArch.Gdbarch` record. The callbacks
  themselves are this model's functions and methods; the record does not store them.
- GdbarchInit: reuse is stated as returning the stored record, which is equal as a value. The
  record is an immutable value here, so pointer identity is not expressed.
- GdbarchInit: the OS ABI hook `gdbarch_init_osabi` has no modelled effect.
- GdbarchInit: `tdesc_use_registers` may number extra description registers after 43. The model
  keeps `numRegs` at 44.
- ListLookupByInfo: the match compares whole request records. The library compares the
  architecture, byte order, OS ABI and description fields.
- The description library's own type rules are not modelled. `TargetDescriptions.TagType` maps the
  tags int, uint32, uint64, data_ptr and code_ptr to builtin types. It keeps every other tag as a
  named type. The library's size-dependent choice for "int" is not modelled.
- Target I/O is not modelled. `raw_read_part` reads the cached status and bytes, and never fetches
  from the target. `raw_write_part` replaces the cached bytes and marks the register valid.
  `target_write_memory` updates a memory map. `get_frame_register_unsigned` is the frame's given
  pcx value.
- The `trad_frame` internals are not modelled; gdb/trad-frame.c is not part of this model. In gdb,
  `trad_frame_alloc_saved_regs` starts each entry as "same register" (the caller's value is the
  register's own). The model simplifies this: every entry starts unknown, and this source fills
  none in. `trad_frame_get_prev_register` is reduced to looking up that entry.
- The `tricore_frame_unwind` structure's name, frame type and default sniffer are not modelled.
  Only its place after the DWARF unwinders is.
- The floating-point formats (`floatformats_ieee_double`) are not modelled.
- The compile hooks `tricore_gcc_target_options` and `tricore_gnu_triplet_regexp` are left out.
  They return constant strings.
- The `_initialize_tricore_tdep` registration is left out.
- The `BP_MANIPULATION` breakpoint template is left out. Only the breakpoint bytes 00 A0 are
  recorded.
- The code disabled by `#if 0` and the commented-out calls are left out.
- PseudoRegisterRead: the source clears `register_size` of the rebased number, which is 4 bytes
  for every rebased pseudo number. The model clears the first 4 bytes.
- The names e2 … e14 and p2 … p14 suggest that distinct pseudo-registers use disjoint pairs. The
  code as written does not do that, and the model does not claim it. `PseudoPairsAlias` proves
  that registers of the same bank share a pair.
- `tricore_push_dummy_call` aborts. It is `TricoreDummy.PushDummyCall` with `requires false`, so
  its `ensures r == sp` (the unreachable `return sp`) says nothing about any call.
- `strcasecmp` is modelled as ASCII case-insensitive comparison. Locale-dependent case folding is
  not modelled.
