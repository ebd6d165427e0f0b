# VirtualSoC: a verified model of the CPU, its memory path and its interrupt path

VirtualSoC is a SystemC virtual platform around an RV32IMAC hart with M, S and U modes. This project
models the hart with its memory path as one state machine, the devices that interrupt it, and the bus,
direct-memory and DMA paths beside it, and proves what holds over every run of them.

How the pieces fit:

- `Rv32`, `Decode`, `Rvc`, `Compressed`: words, field extractors, the decoder and the RVC expander; the
  expander against an independent bit table; a compressed instruction executes as its expansion.
- `Listing`, `Encoding`: the 32-bit decoder against the masks and values of the instruction listings, for
  every word, and its round trip with an assembler.
- `Numbers`, `Arithmetic`, `Instructions`: machine words as integers, and what every register, branch,
  jump, load, store and atomic instruction computes, over integers and bit by bit.
- `Phys`, `Mmu`, `TlbTransparency`, `Paging`, `HartTlb`: byte memory, the Sv32 walk with hardware A/D
  update, the 64-entry TLB with an arbitrary victim, and what the cache can and cannot change, for the MMU
  alone and for the hart.
- `Permissions`: the answer of a translation on the bits of the page-table entry.
- `Csr`, `CsrFile`, `Trap`, `Hart`: the CSR file with its WARL rules, trap entry and return, `execute`,
  and one iteration of `ISS::run` as the function `Hart.Step`. Device and bus-master steps interleave
  with it in `Hart.Run`.
- `CsrRules`, `Delegation`: the CSR instructions, masks and address map bit by bit; interrupt enabling,
  delegation, handler addresses, status stacks and the system instructions on the bits of the registers.
- `Invariants`, `Isolation`, `Nesting`, `Interrupts`, `Atomics`, `Precise`, `Retirement`, `Steps`: theorems
  about `Hart.Step` and `Hart.Run`.
- `Iss`: the same simulator as an object that updates its fields in place, with the loops of the source
  (walk, interrupt scan, run loop); each method is proved to do what the functions of `Hart` do, so the
  theorems are about it too.
- `Masks`, `Plic`, `Clint`, `Platform`: the interrupt controllers as objects, and the whole platform.
- `Bus`, `Memory`, `Dmi`, `Dma`, `Routing`: address routing, RAM, the direct-memory fast path, the DMA
  engine, and the bus's memory as the hart's memory.
- `MulDiv`: the M extension over integers.

Words of the CPU modules are `bv32`, so every sum wraps as `uint32_t` does; the bus, DMA, CLINT and
`MulDiv` modules use integers with the wrap-around written out. What the surroundings decide during a
step is a parameter: the answer of a device to a read (`io`), the evicted TLB entry (`pick`), and the
moments at which devices and other bus masters act (the event sequence of a run).

The functions of `Hart`, `Mmu`, `Csr` and `Trap` that the simulator and the theorems share are themselves
held to rules that do not mention them: `Instructions`, `Listing`, `CsrRules`, `Permissions` and
`Delegation` say what they compute on integers and register bits.

Where the program and its own comments differ, the model follows the program: `cycle`, `time` and
`instret` are said to be gated by `mcounteren` and `scounteren` (src/cpu/csr.cpp:53) and are not; the
BootROM grants read-only direct access (src/mem/bootrom.cpp:69) and the CPU writes through it all the
same.

Four statements one would expect are false of the program. Each has a concrete witness and the exact
condition under which it holds:

- "The user counters are gated": `Csr.CycleIsNotGated`, `Csr.CountersAgreeWithGate`.
- "A store sets D": `Paging.StoreAfterLoadLeavesDClear`, `Paging.StoreDirtiesExactlyOnMiss`.
- "The fast path writes what the bus would write": `Dmi.RomIsWrittenThroughDmi`, `Dmi.FastWriteIsRouted`.
- "A DMA transfer is one copy": `Dma.UnsafeByte`, `Dma.BurstsAreWholeIff`.

Two more are sharpened in the same way: an instruction that traps may already have overwritten rd
(`Precise.RefusedWriteHasChangedRd` and `Precise.FaultingLoadHasClearedRd` are inputs,
`Precise.TrapsArePrecise` says when and with what), and a mapped range that wraps past 2^32 escapes the
overlap test but is never decoded (`Bus.WrappingRangesEscape`, `Bus.ReachableRanges`).

## Model

| member | source | states |
|---|---|---|
| Rvc.HalfwordsDecodeByTable | src/cpu/decode.cpp:231-469 | every one of the 65536 halfwords decodes to the operation, registers and immediate of its row in an independent bit table of section 16.8 of the RISC-V Unprivileged ISA, and to ILLEGAL exactly when the row is reserved (shamt[5]=1 included) |
| Rvc.FieldsOfEncI | src/cpu/decode.cpp:231-262 | immediates and register fields survive encoding by the expander and extraction by the decoder |
| Compressed.TwinsExecuteAlike | src/cpu/execute.cpp:12-311 | for any instruction and state, another length and raw word change only the sequential pc, the link value and the trap value of an illegal instruction |
| Compressed.CompressedExecutesAsExpanded | src/cpu/decode.cpp:451-469 | for every halfword and every hart state, executing decode(ci) and executing the decoded expansion have the same effect on memory, TLB, CSRs, registers, reservation, faults and exceptions, up to those three |
| Decode.OffsetsAreEven | src/cpu/rv32_defs.h:246-265 | whatever the instruction word, a decoded jump or branch offset is even |
| Listing.DecodesByListing | src/cpu/decode.cpp:6-227 | every 32-bit word decodes to an operation if and only if it has that operation's bits in the instruction listings, for all operations |
| Listing.IllegalIffNoRow | src/cpu/decode.cpp:6-227 | a word is illegal if and only if it matches no row, and no word matches two |
| Listing.OperandsByListing | src/cpu/rv32_defs.h:225-265 | registers, CSR number and immediate of every legal word lie where its format puts them, bit by bit, and fields the format lacks are 0 |
| Listing.WordsAreListed | src/cpu/decode.cpp:451-469 | the dispatcher sends words that end in 11 to this decoder unchanged |
| Encoding.EncodeThenDecode | src/cpu/decode.cpp:6-227 | every operation with every operand its format can hold assembles to a word that decodes to exactly it, through the dispatcher too |
| Instructions.RegisterInstruction | src/cpu/execute.cpp:23-126 | LUI, AUIPC and every arithmetic instruction put into rd the sum or difference modulo 2^32, the signed or unsigned comparison, the bitwise combination, the product with or floor quotient by a power of two, or the half of the exact product or quotient and remainder, move to the next instruction and do nothing else; x0 stays 0 |
| Arithmetic.AluObeys | src/cpu/execute.cpp:98-126 | that rule for the value alone, for all operands, shift amounts from the low five bits, zero divisors and overflow included |
| Instructions.BranchInstruction | src/cpu/execute.cpp:41-46 | a branch goes to pc + offset if and only if its comparison of signed or unsigned values holds, and to the next instruction otherwise |
| Instructions.JumpInstruction | src/cpu/execute.cpp:30-39 | JAL and JALR link the address of the next instruction and go to pc + offset, or to rs1 + offset made even |
| Instructions.AlignmentRule | src/cpu/execute.cpp:55-92 | the alignment checks refuse exactly the addresses that are not a multiple of the width |
| Instructions.MisalignedInstruction | src/cpu/execute.cpp:55-150 | a misaligned access raises code 4 if it only reads and 6 if it writes, with its address, before it has done anything |
| Instructions.LoadInstruction | src/cpu/execute.cpp:48-75 | a load puts into rd the signed or unsigned value of the byte, halfword or word at the translated address |
| Instructions.LoadedBytes | src/cpu/iss.cpp:188-214 | the value read from RAM is that of its bytes, lowest address first |
| Instructions.StoreInstruction | src/cpu/execute.cpp:77-96 | a store writes the low bytes of rs2, as many as its width, at the translated address, every other byte stays, and the reservation goes |
| Instructions.LrInstruction | src/cpu/execute.cpp:128-134 | LR.W puts the word into rd and holds a reservation for its address |
| Instructions.AmoInstruction | src/cpu/execute.cpp:148-176 | an AMO returns the old word and leaves in its place the second operand, the sum modulo 2^32, the bitwise combination, or the signed or unsigned minimum or maximum |
| Instructions.AmoObeys | src/cpu/rv32a.h:18-33 | that rule for the nine read-modify-write functions alone |
| Mmu.WalkKeepsRam | src/cpu/mmu.cpp:84-137 | a walk changes nothing in memory but A and D bits of aligned words |
| Mmu.ADUpdatesAreInvisible | src/cpu/mmu.cpp:84-137 | the write-back of one walk changes no other walk's outcome, for any address, access type, privilege, status and root, with shared or recursive tables |
| TlbTransparency.HitIsWalk | src/cpu/mmu.cpp:55-68 | a hit on a current entry gives the fault, cause and address of the walk |
| TlbTransparency.AccessedStays | src/cpu/mmu.cpp:108-116 | a page-table word that has A keeps it through any walk |
| TlbTransparency.TranslateIsPlain | src/cpu/mmu.cpp:49-140 | with a current cache, translate answers like the uncached walk, changes memory like it up to A and D, and leaves the cache current with A set in every live leaf |
| TlbTransparency.WriteKeepsCoherent | src/cpu/mmu.cpp:84-99 | a write that misses the page-table words behind live entries keeps the cache current |
| TlbTransparency.TlbIsTransparent | src/cpu/mmu.cpp:49-144 | over any run of translations, satp writes, fences and memory writes that respects fencing, the cached and the cacheless machine give the same answer to every translation, whatever is evicted |
| TlbTransparency.TlbIsTransparentFromReset | src/cpu/iss.cpp:18-25 | the same from the empty cache, with no hypothesis besides fencing |
| TlbTransparency.TlbIsBounded | src/cpu/mmu.cpp:124-127 | at every point of any run, fenced or not, the cache has at most 64 entries |
| TlbTransparency.TranslateFillsCache | src/cpu/mmu.cpp:124-127 | a translation that succeeds leaves its page cached; nothing else is added or changed, and at most one entry is lost, only when 64 are taken |
| Permissions.PermissionRule | src/cpu/mmu.cpp:20-47 | an access is permitted if and only if: U needs the U bit; S on a U page needs SUM and is no fetch; a fetch needs X, a load R or MXR with X, a store W |
| Permissions.WalkRule | src/cpu/mmu.cpp:73-140 | the walk ends at the valid entry with a permission that VPN[1] and then VPN[0] select, or nowhere |
| Permissions.WalkIsUnique | src/cpu/mmu.cpp:73-140 | these words fix where it ends |
| Permissions.TranslationRule | src/cpu/mmu.cpp:49-140 | with a current cache, by hit or by walk, the result is an address if and only if there is such an entry, it permits the access and a 4 MB entry has PPN[0] = 0; the address has the 12 or 22 offset bits of va and the page number of the entry; otherwise it is the fault of the access type |
| Permissions.AnswerIsUnique | src/cpu/mmu.cpp:118-129 | that fixes the result, address included |
| Permissions.WriteBackRule | src/cpu/mmu.cpp:108-116 | after a walk that succeeds the entry in memory has A, has D if it had it or the access is a store, and is otherwise as it was |
| Permissions.DataPrivilegeRule | src/cpu/iss.cpp:71-75 | data accesses of M-mode under MPRV have the privilege in bits 12:11 of mstatus, all others their own |
| Permissions.DataAccessRule | src/cpu/iss.cpp:27-75 | the same rule for every data access of the hart, with the privilege in MPP under MPRV, and no translation in M or with satp bit 31 clear |
| Permissions.FetchRule | src/cpu/iss.cpp:122-132 | the same rule for its fetches |
| HartTlb.RunReplays | src/cpu/iss.cpp:101-185 | the translations, satp writes, fences and stores of any run of the hart are a run of the MMU that ends in the same memory, satp and cache and gave the same answers |
| HartTlb.HartTlbIsTransparent | src/cpu/iss.cpp:18-59 | so every translation that fetches, loads, stores and atomics of the hart get, over any run that keeps its page tables in RAM and respects fencing, is what a machine without a cache answers, whatever devices do |
| HartTlb.HartTlbIsTransparentFromReset | src/cpu/iss.cpp:93-185 | the same for runs from reset, with nothing assumed of the cache |
| Paging.AccessTranslatesBytewise | src/cpu/mmu.cpp:60-65 | byte k of a naturally aligned access is at the translation of va+k, with the same fault, for 4 KB and 4 MB pages, on hit and on walk |
| Paging.TranslateKeepsWellFormed | src/cpu/mmu.cpp:91-99 | no translation ever caches a page that is writable but not readable |
| Paging.LoadFaultImpliesStoreFault | src/cpu/mmu.cpp:20-47 | where a load faults, a store to the same address faults |
| Paging.FaultChangesNothing | src/cpu/mmu.cpp:88-106 | a translation that faults reports the cause of its access type and leaves memory and cache alone |
| Paging.StoreDirtiesExactlyOnMiss | src/cpu/mmu.cpp:57-66 | after a translated store the leaf is dirty if and only if the page was not cached or was dirty before |
| Paging.StoreAfterLoadLeavesDClear | src/cpu/mmu.cpp:57-66 | a concrete table on which a load and then a store leave D clear |
| Precise.AccessesStayInOnePage | src/cpu/execute.cpp:48-96 | every data access that passes the alignment check stays in one page: byte k lands where va+k translates to, under any privilege and MPRV |
| Precise.TrapsArePrecise | src/cpu/execute.cpp:48-311 | whether an instruction traps, with which cause and value, is decided by the state before it (alignment, the translation of its accesses, whether the CSR read and write are allowed, privilege), and a trapping instruction leaves exactly the named state: registers, memory, cache and reservation |
| Precise.TrapsLeaveTheRest | src/cpu/execute.cpp:48-311 | that state has the pc, privilege and CSRs from before, and every register but rd |
| Precise.TrapStepsArePrecise | src/cpu/iss.cpp:133-160 | the same for whole steps from any reachable state |
| Precise.RefusedWriteHasChangedRd | src/cpu/execute.cpp:178-188 | CSRRW x5, cycle traps with x5 already holding mcycle |
| Precise.FaultingLoadHasClearedRd | src/cpu/iss.cpp:33-37 | LW x5 from an unmapped page traps with x5 already 0 |
| Retirement.StepCounts | src/cpu/iss.cpp:138-152 | a step adds one to both 64-bit counters if and only if it takes no interrupt and does not page-fault; an instruction that raises its own exception counts |
| Retirement.RunCounts | src/cpu/iss.cpp:101-185 | over any run that does not write the counters, both move by the number of instructions retired, modulo 2^64, whatever traps, devices and masters do |
| Retirement.CountersFromReset | src/cpu/csr.h:17-26 | so from reset mcycle and minstret never part and are the number of instructions retired |
| Atomics.AmoFaultIsStoreFault | src/cpu/execute.cpp:148-176 | an AMO page-faults if and only if its store half does; it then reports cause 15 at its address, and memory and cache are exactly those the load half leaves, so no data is written |
| Atomics.AmoStepFaultsAsStore | src/cpu/iss.cpp:138-148 | from any reachable state a step that executes an aligned AMO traps if and only if the store half faults, with cause 15 and the address in rs1 |
| Atomics.AmoIsReadModifyWrite | src/cpu/execute.cpp:148-176 | an AMO that does not fault reads and writes one physical word and returns what it read |
| Atomics.ReservationIsHistory | src/cpu/execute.cpp:77-146 | at every point of every run the reservation is held exactly when the last LR.W, SC.W or store past its alignment check was an LR.W, and for that word |
| Atomics.ScSucceedsByHistory | src/cpu/execute.cpp:135-146 | after any run, an aligned SC.W that the next step executes leaves 0 in rd and stores, page faults included, if and only if the last LR.W, SC.W or store of the run past its alignment check was an LR.W to its word; otherwise it leaves 1, cannot fault and changes no memory |
| Csr.WriteKeepsOk | src/cpu/csr.cpp:79-139 | every accepted CSR write keeps mstatus inside its mask with a legal MPP and both epc registers even |
| Csr.WriteBelowMKeepsMView | src/cpu/csr.cpp:12-139 | below M-mode no write, through any address, changes a machine register or a machine-only bit of mstatus or mie |
| Csr.WriteKeepsHwMip | src/cpu/csr.cpp:104-131 | no write changes the device-driven bits of mip |
| Csr.CountersAlwaysRead | src/cpu/csr.cpp:53-59 | all six user counters read at every privilege, whatever mcounteren and scounteren hold |
| Csr.CountersAgreeWithGate | src/cpu/csr.cpp:53-59 | a counter read agrees with the gated rule of the architecture if and only if the gate is open: mcounteren below M, scounteren below S |
| Csr.CycleIsNotGated | src/cpu/csr.cpp:53-54 | after reset, with both registers 0, U-mode reads cycle |
| Csr.WritesReadBack | src/cpu/csr.cpp:21-139 | every accepted write is read back at the same address as the WARL rule of its register says, through the supervisor views too |
| Csr.LegalStatusIdempotent | src/cpu/csr.cpp:85-91 | a legal status survives being written back, which is what a handler that restores it relies on |
| CsrRules.CsrInstruction | src/cpu/execute.cpp:178-246 | a CSR instruction that is accepted puts the value from before into rd, and offers the register a word whose bits are those of the operand (RW), old or operand (RS), old and not operand (RC), the operand being rs1 or the five-bit field; it reads back by the WARL rule; RS and RC with a zero field write nothing |
| CsrRules.ReadsByAddress | src/cpu/csr.cpp:21-76 | which register every address reads, the views and aliases included, and that no other address exists |
| CsrRules.WritesStayInTheirCell | src/cpu/csr.cpp:79-139 | a write leaves every other register, at any address and privilege, reading as before |
| CsrRules.PrivilegeOfAddress | src/cpu/csr.cpp:12-15 | bits 9:8 of the address are the lowest privilege that may use it |
| CsrRules.StatusBits | src/cpu/csr.cpp:85-91 | which bits of mstatus a write keeps, and that MPP = 2 becomes 0 |
| CsrRules.MergedStatusBits | src/cpu/csr.cpp:113-117 | a write through sstatus replaces SIE, SPIE, SPP, SUM and MXR and no other bit |
| CsrRules.MergedIntBits | src/cpu/csr.cpp:118-122 | a write through sie replaces SSIE, STIE and SEIE and no other bit |
| CsrRules.ShownStatusBits | src/cpu/csr.cpp:62-62 | sstatus shows SIE, SPIE, SPP, SUM and MXR of mstatus and zeros |
| CsrRules.ShownIntBits | src/cpu/csr.cpp:63-72 | sie and sip show bits 1, 5 and 9 and zeros |
| CsrRules.SsipBits | src/cpu/csr.cpp:104-131 | of a write to mip or sip only SSIP is kept |
| CsrRules.MipBits | src/cpu/csr.h:28-35 | a bit of mip is set if and only if a device or software has set it |
| CsrRules.EpcBits | src/cpu/csr.cpp:101-128 | mepc and sepc keep every bit but bit 0 |
| CsrRules.ReadOnlyAddress | src/cpu/csr.cpp:17-19 | addresses with bits 11 and 10 set are read-only |
| CsrFile.RegisterFile.WriteCsr | src/cpu/csr.cpp:79-139 | the switch of the program writes exactly the named register under its rule, refuses exactly what privilege, read-only bits and address refuse, and fires the flush callback exactly for satp |
| CsrFile.RegisterFile.IncMcycle | src/cpu/csr.h:17-21 | the two halves count as one 64-bit counter; the other counter stays |
| CsrFile.RegisterFile.IncMinstret | src/cpu/csr.h:22-26 | the same for minstret |
| CsrFile.RegisterFile.SetHwBit | src/cpu/csr.h:69-75 | the bit takes the given value and no other bit changes |
| CsrFile.TickCounts | src/cpu/iss.cpp:150-152 | a retired instruction adds one to both 64-bit counts |
| Invariants.StepKeepsOk | src/cpu/iss.cpp:101-185 | one iteration of the loop keeps privilege and status legal, pc and epc even, and the TLB bounded and well formed |
| Invariants.RunKeepsOk | src/cpu/iss.cpp:99-185 | so does every run, with devices and bus masters acting anywhere in it |
| Invariants.TranslationIsForUOrS | src/cpu/iss.cpp:62-75 | translation is requested with privilege U or S only, even under MPRV |
| Invariants.ReachableStates | src/cpu/iss.cpp:93-185 | in every state reachable from an even reset pc: privilege is U, S or M, MPP is never 2, mstatus is inside its mask, pc is even (the misaligned-fetch branch is dead), translation is for U or S, the TLB has at most 64 entries |
| Isolation.TrapSavesItsInstruction | src/cpu/trap.cpp:33-79 | every trap of a step, whatever raised it, saves exactly the pc of the instruction that trapped with its cause and value, enters the level and handler that `Delegation.TrapByRegisters` reads off the registers, and leaves the other level's registers alone |
| Isolation.OnlyTrapsEnterM | src/cpu/trap.cpp:37-78 | from below M-mode a step ends in M-mode if and only if it takes a trap that is not delegated |
| Isolation.StepBelowMIsIsolated | src/cpu/execute.cpp:178-284 | a step that stays below M-mode changes no machine register and no machine-only status bit |
| Isolation.RunBelowMIsIsolated | src/cpu/csr.cpp:12-139 | neither does any run that stays below M-mode, counters aside |
| Delegation.DelegationRule | src/cpu/trap.cpp:34-42 | from U and S a trap goes to S if and only if bit k of medeleg (exception code k) or of mideleg (interrupt code k) is set; from M it never does |
| Delegation.HandlerRule | src/cpu/trap.cpp:58-60 | the handler is the base of the vector register, plus 4k exactly for interrupts in mode 1 |
| Delegation.TrapByRegisters | src/cpu/trap.cpp:33-79 | every trap of a step from a reachable state, by the registers before it: level, handler, saved pc, cause, value, and every bit of the new mstatus |
| Delegation.TrapsHaveCodes | src/cpu/iss.cpp:109-160 | every trap of a step has a code below 32, so that rule covers all of them |
| Delegation.EnterSBits | src/cpu/trap.cpp:49-54 | SPIE gets SIE, SIE is cleared, SPP says whether the trap came from S, every other bit stays |
| Delegation.EnterMBits | src/cpu/trap.cpp:66-71 | MPIE gets MIE, MIE is cleared, MPP gets the privilege, every other bit stays |
| Delegation.LeaveMBits | src/cpu/execute.cpp:258-269 | MRET: MIE gets MPIE, MPIE is set, MPP becomes U, every other bit stays |
| Delegation.LeaveSBits | src/cpu/execute.cpp:271-284 | SRET: SIE gets SPIE, SPIE is set, SPP becomes U, every other bit stays |
| Delegation.ActiveRule | src/cpu/trap.cpp:6-21 | a pending enabled line is taken, if delegated, in U, and in S with SIE; if not, below M, and in M with MIE |
| Delegation.InterruptRule | src/cpu/trap.cpp:6-31 | a step takes an interrupt if and only if one of the six lines is so, and then the first of them |
| Delegation.SystemInstruction | src/cpu/execute.cpp:248-299 | which trap ECALL, EBREAK, MRET, SRET, SFENCE.VMA and illegal instructions raise in which privilege under TSR and TVM, and every field of the core after a return |
| Steps.InterruptStep | src/cpu/iss.cpp:109-114 | from a reachable state, with an interrupt open, the step traps with the first of the list and value 0, by the registers before it |
| Steps.FetchFaultStep | src/cpu/iss.cpp:122-132 | with none open, a fetch whose translation fails traps with code 12 and the pc as value |
| Steps.AssembledStep | src/cpu/iss.cpp:133-160 | otherwise, if the word at the translated pc is an assembled instruction, that instruction is executed and retired |
| Nesting.PlayIsRun | src/cpu/iss.cpp:101-185 | a run cut into trap episodes is the run of its events |
| Nesting.ScriptKeepsLevel | src/cpu/trap.cpp:33-79 | a well-nested run, with traps to any depth, ends at the privilege it started at, and below M keeps the machine-only status bits outside MPIE and MPP |
| Nesting.EpisodeIsUndone | src/cpu/execute.cpp:258-284 | MRET or SRET at the end of a handler that put back its epc and status resumes the interrupted pc at the interrupted privilege with every status bit outside MPIE, MPP, SPIE, SPP as it was, whatever nested inside; only a handler in S needs TSR clear |
| Nesting.SretWithTsrTraps | src/cpu/execute.cpp:271-274 | with TSR set, SRET in S-mode traps as illegal, so that condition is needed |
| Nesting.UndoneRestoresEnables | src/cpu/execute.cpp:264-281 | MIE and SIE are among those bits |
| Nesting.EpisodesExist | src/cpu/execute.cpp:248-269 | from U-mode after reset, ECALL and MRET are such an episode, so the hypotheses can be met |
| Interrupts.SelectionIsFirstActive | src/cpu/trap.cpp:22-30 | the selection is 0 exactly when none of the six is active, and otherwise the first active one in the order 11, 3, 7, 9, 1, 5 |
| Interrupts.CheckPending | src/cpu/trap.cpp:6-31 | the scan loop with its early returns computes that selection |
| Interrupts.EntryAgreesWithSelection | src/cpu/trap.cpp:6-43 | the selected interrupt goes to S if and only if it was active through delegation and S was open, to M if and only if it was not delegated and M was open; everything before it in the list was inactive |
| Interrupts.AtMostTwoEntriesInARow | src/cpu/iss.cpp:109-114 | however mip and memory change meanwhile, at most two interrupt entries happen before an instruction is attempted |
| Interrupts.TwoEntriesHappen | src/cpu/iss.cpp:109-114 | two do happen |
| Iss.Simulator.UseLeaf | src/cpu/mmu.cpp:97-130 | permission, alignment, write-back and refill of the leaf case, in place |
| Iss.Simulator.Walk | src/cpu/mmu.cpp:73-140 | the two-level loop leaves the result, memory and cache that Mmu.Translate specifies for a miss |
| Iss.Simulator.TranslateVa | src/cpu/mmu.cpp:49-71 | translate, hits included, refines Mmu.Translate |
| Iss.Simulator.MemRead | src/cpu/iss.cpp:27-42 | the read closure: value, memory, cache and the remembered fault |
| Iss.Simulator.MemWrite | src/cpu/iss.cpp:44-59 | the write closure; a faulting write is dropped |
| Iss.Simulator.EnterTrap | src/cpu/trap.cpp:33-79 | take_trap, field by field, is Trap.TakeTrap |
| Iss.Simulator.DoAmo | src/cpu/execute.cpp:148-176 | read, rd, write in this order, the last fault winning |
| Iss.Simulator.DoCsr | src/cpu/execute.cpp:178-246 | read, rd, write in this order, flushing the TLB for satp |
| Iss.Simulator.DoReturn | src/cpu/execute.cpp:258-284 | MRET and SRET in place, the status field by field, with their refusals |
| Iss.Simulator.ExecuteInstr | src/cpu/execute.cpp:12-311 | the whole switch, in place, is Hart.Execute |
| Iss.Simulator.StepOnce | src/cpu/iss.cpp:101-185 | one iteration of the loop, in place, is Hart.Step |
| Iss.Simulator.RunEvents | src/cpu/iss.cpp:93-186 | the loop, with devices and masters between its turns, is Hart.Run, so every theorem about runs is about it |
| MulDiv.SignedProduct | src/cpu/rv32m.cpp:6-16 | MULH and MUL are the halves of the exact signed product, which fits 64 bits |
| MulDiv.MixedProduct | src/cpu/rv32m.cpp:18-22 | the same for a signed and an unsigned operand |
| MulDiv.UnsignedProduct | src/cpu/rv32m.cpp:24-28 | the same for unsigned operands |
| MulDiv.SignedDivision | src/cpu/rv32m.cpp:30-49 | rs1 = quotient * rs2 + remainder modulo 2^32 for all operands, zero divisor and overflow included, with the remainder's size and sign |
| MulDiv.UnsignedDivision | src/cpu/rv32m.cpp:38-54 | the same for unsigned operands |
| Plic.ClaimRule | src/irq/plic.cpp:38-58 | the claim is the one source that is pending, enabled, not in service and above threshold and beats all others by priority, then by lower number; 0 if and only if there is none |
| Plic.NoClaimBeforeCompletion | src/irq/plic.cpp:78-127 | over any run, between two claims of one source there is a completion of it |
| Plic.ActionableByRegisters | src/irq/plic.cpp:41-48 | a source can be claimed if and only if its bits in PENDING and ENABLE read as 1, its priority register exceeds THRESHOLD, and it is not in service |
| Plic.ClaimsAreSingle | src/irq/plic.cpp:50-57 | a claim clears the pending bit and sets the in-service bit of the claimed source and changes nothing else |
| Plic.WriteThenRead | src/irq/plic.cpp:78-116 | the next read of PENDING, ENABLE, THRESHOLD or a priority returns what was written, three bits of it for the last two, 0 for source 0 |
| Plic.WriteLeavesOthers | src/irq/plic.cpp:78-116 | every other register reads as before |
| Plic.SignalsAreSingle | src/irq/plic.cpp:11-21 | a peripheral changes its own pending bit and no other |
| Plic.CompletionsAreSingle | src/irq/plic.cpp:118-123 | a completion releases the named source and no other, values of 8 and above none |
| Plic.Controller.Evaluate | src/irq/plic.cpp:23-36 | after the scan the reported line is high exactly when a claim would return nonzero |
| Plic.Controller.Drive | src/irq/plic.cpp:11-21 | set_pending sets that source's bit, ignores bad numbers, and keeps the line right |
| Plic.Controller.ClaimBest | src/irq/plic.cpp:38-58 | the loop finds the best source, moves it from pending to in service, and keeps the line right |
| Plic.Controller.WriteRegister | src/irq/plic.cpp:60-125 | each register write has its effect and no other, errors included, and keeps the line right |
| Plic.Controller.ReadRegister | src/irq/plic.cpp:60-131 | reads return the registers; reading the claim register claims the best source |
| Clint.SplitWritesCompose | src/irq/clint.cpp:60-96 | the two 32-bit writes of mtime or mtimecmp, in either order, set the 64-bit value |
| Clint.TicksAdd | src/irq/clint.cpp:20-26 | n ticks move mtime by n modulo 2^64 and change nothing else |
| Clint.WriteThenRead | src/irq/clint.cpp:52-97 | the next read of a register returns what was written, bit 0 of it for msip, and every other register reads as before |
| Clint.Interruptor.Advance | src/irq/clint.cpp:20-32 | a tick advances mtime and the timer line reports mtime >= mtimecmp |
| Clint.Interruptor.WriteRegister | src/irq/clint.cpp:34-104 | each write has its effect, errors included, and both lines report the registers |
| Clint.Interruptor.ReadRegister | src/irq/clint.cpp:34-107 | reads return the register or its half and change nothing |
| Platform.StepKeepsMip | src/cpu/csr.h:28-35 | no step of the hart, whatever it writes, changes a device-driven bit of mip or lets software own more than SSIP |
| Platform.RunKeepsInStep | src/platform/gamingcpu_vp.cpp:70-83 | the wiring keeps the three bits equal to the device conditions over every run |
| Platform.MipTracksDevices | src/platform/gamingcpu_vp.cpp:70-83 | in every reachable state mip.MTIP is mtime >= mtimecmp, mip.MSIP is msip, and mip.MEIP says that the PLIC has an actionable source |
| Bus.OverlapIsSharing | src/bus/tlm_bus.cpp:18-20 | for ranges that are not empty and end below 2^32 the overlap test fires if and only if they share an address |
| Bus.ReachableRanges | src/bus/tlm_bus.cpp:37-46 | a range can be decoded if and only if it is not empty and does not wrap |
| Bus.MapAccepts | src/bus/tlm_bus.cpp:15-35 | a sequence of map calls is accepted if and only if no two of its ranges overlap, in any order; the bus then holds exactly these, sorted and without overlap |
| Bus.DecodeFindsTheRange | src/bus/tlm_bus.cpp:37-46 | after any accepted calls, decode finds the one call that covers the address, and misses if and only if none does |
| Bus.WrappingRangesEscape | src/bus/tlm_bus.cpp:17-20 | two identical ranges ending at 2^32 are both accepted and never decoded |
| Bus.TlmBus.Map | src/bus/tlm_bus.cpp:15-35 | the check loop and the sort, in place |
| Bus.TlmBus.Find | src/bus/tlm_bus.cpp:37-46 | the search loop finds the first containing range |
| Memory.Ram.Read | src/mem/memory.cpp:11-41 | for every address and length: the bytes, a refusal exactly when the wrapped sum exceeds the size, or a stray access exactly when the sum wraps to something small |
| Memory.Ram.Write | src/mem/memory.cpp:11-41 | for every address and length: exactly the addressed bytes replaced, nothing on refusal, and the same stray case |
| Memory.CheckIsExactBelowTop | src/mem/memory.cpp:19-24 | the bounds check is exact below 2^32, and lets an access stray if and only if its sum passes 2^32 with a tail that fits |
| Dmi.MappedBusFits | src/bus/tlm_bus.cpp:15-35 | a bus built by accepted calls, with memories of the mapped sizes, meets the assumptions of the refinement |
| Dmi.FastReadIsRouted | src/cpu/iss.cpp:188-214 | a direct read returns what routing returns if and only if it ends at or below 2^32, or routing strays too |
| Dmi.FastWriteIsRouted | src/cpu/iss.cpp:216-236 | a direct write equals the routed one if and only if it ends at or below 2^32 and the granted target is RAM or holds the bytes already, or routing strays too |
| Dmi.DmiRefinesBusIff | src/cpu/iss.cpp:188-259 | over any interleaving of CPU and bus-master accesses, FENCE.I and invalidations, from any grant, every reply and every memory along the way is the routed one if and only if every CPU access that takes the fast path meets those conditions |
| Dmi.DmiRefinesBus | src/cpu/iss.cpp:188-259 | so a program whose accesses do not pass 2^32 and whose writes spare ROM cannot tell the fast path from the bus, whatever the other masters do |
| Dmi.RomIsWrittenThroughDmi | src/mem/bootrom.cpp:66-77 | after a read of ROM takes a grant, a CPU write changes ROM |
| Dmi.CpuPort.BusRead | src/cpu/iss.cpp:188-214 | bus_read with try_dmi, for every address; it returns the routed bytes exactly under the read condition |
| Dmi.CpuPort.BusWrite | src/cpu/iss.cpp:216-236 | bus_write, for every address; it has the routed effect exactly under the write condition |
| Dmi.CpuPort.InvalidateDmi | src/cpu/iss.cpp:254-259 | afterwards no grant touches the invalidated range |
| Routing.RoutedReadIsLoad | src/cpu/iss.cpp:195-213 | on a bus with one RAM a routed read is the hart's Load of the same bytes, zero where nothing is mapped, unless it strays |
| Routing.RoutedWriteIsStore | src/cpu/iss.cpp:222-235 | and a routed write is the hart's Store |
| Dma.BurstsAreWholeIff | src/dma/dma_engine.cpp:24-55 | for every memory content, the bursts equal one whole-region copy if and only if dst <= src, the regions are disjoint, or the count is at most 256 |
| Dma.UnsafeByte | src/dma/dma_engine.cpp:24-55 | which byte of an unsafe transfer goes wrong, and what it gets |
| Dma.LoopCopiesPrefix | src/dma/dma_engine.cpp:24-57 | on one RAM, for every source, destination and count, exactly the whole-burst prefix that fits is copied, and everything if all fits |
| Dma.SafeTransferIsOneCopy | src/dma/dma_engine.cpp:14-57 | a safe transfer inside RAM is one copy and leaves nothing over |
| Dma.CarryStops | src/dma/dma_engine.cpp:24-57 | on any bus the loop stops at the end or before a burst that is refused or strays, with a whole number of bursts done |
| Dma.CarryIsPrefix | src/dma/dma_engine.cpp:24-57 | on any bus, with RAM, ROM and devices, a transfer that stops after c bytes leaves what a complete transfer of c bytes leaves |
| Dma.TransferWithinRam | src/dma/dma_engine.cpp:24-57 | whatever else is mapped, a transfer inside one RAM completes, moves the bytes as the bursts do, and is one copy if safe |
| Dma.CarryAcross | src/dma/dma_engine.cpp:24-57 | a transfer from ROM or another RAM into RAM is always one copy |
| Dma.NothingGoesIntoRom | src/dma/dma_engine.cpp:49-50 | a transfer into ROM copies nothing |
| Dma.CarryOnOneRam | src/dma/dma_engine.cpp:24-57 | on a bus with one RAM the loop is the closed form above, refusals included |
| Dma.Engine.Burst | src/dma/dma_engine.cpp:25-50 | one turn: read and write, or a refusal that changes nothing |
| Dma.Engine.Transfer | src/dma/dma_engine.cpp:14-60 | the loop over the bus, any targets, its status and its interrupt |

## Left out

- Timing: SystemC scheduling, quanta, `wait` and the wake-up from WFI; devices and masters act as atomic
  steps between iterations of the hart's loop.
- The debugger: halting, single-stepping, `stop_on_ebreak` and the GDB server; an EBREAK always traps.
- `SC_REPORT_*` actions: a fatal report rejects the call, other reports have no effect.
- Device registers other than those of PLIC, CLINT and DMA, and the register file of the DMA engine:
  plain storage.
- Effects of a CPU access on a device: a load sees an arbitrary device answer, and the device's own step
  is a separate event of the platform.
- `DelegBit` reads a shift by 32 or more as not delegated; the program never takes such a cause.
- TlbTransparency.TlbIsTransparent: `io` is one fixed function over the run, because page tables in device
  space that answer differently each time are outside what the walk supports; writes to page-table words
  behind live entries need a fence before the next translation.
- HartTlb.HartTlbIsTransparent: page tables lie in RAM while translation is on; device reads are arbitrary.
- Stray accesses: what a copy outside an array reads or overwrites; the model says exactly when it happens
  and nothing about its bytes.
- Bus.TlmBus.Map: ranges with equal bases keep call order, where the library sort may swap them; on an
  accepted bus only an empty range can share a base.
