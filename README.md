# x6502 instruction-boundary core in Dafny

This project models `src/emu.c` of the x6502 65C02 emulator: the traced memory
accessors `read_byte` and `write_byte`, the operand cursor `read_next_byte` /
`NEXT_BYTE`, and one iteration of `main_loop`. One iteration resets the
transient `emu_flags`, snapshots `pc`, fetches the opcode and dispatches it.
It then resolves `pc` (the length advance only when the handler left `pc`
alone, and the branch offset always). Next come the `handle_io` poll loop,
which clears the dirty bit after every call and repeats while the CPU waits
for an interrupt, and the maskable-interrupt entry. STP ends the loop with
one more `handle_io` and a `finish_io`.

Files and modules:

- `wrappers.dfy` (`Wrappers`): the `Option` type.
- `bus.dfy` (`Bus`): addresses and bytes, the `BusAccess` record the trace sink
  receives, and the `"%04X r %02X\n"` / `"%04X W %02X\n"` line format with a
  parser that inverts it.
- `machine.dfy` (`Machine`): the `cpu` record as a value (`Machine`) and one
  function per step of the loop: `Fetch`, `Execute`, `Retire`, `Sync`,
  `InterruptCheck`, `Halt` and `Iterate`.
- `properties.dfy` (`Properties`): lemmas about memory writes and their trace,
  the cursor, `pc` resolution, the IRQ entry frame and the poll loop.
- `iteration.dfy` (`Iteration`): lemmas about a whole iteration. They cover
  NOP and unknown opcodes, `pc` after a handler, bus-access order, STP, the
  state at the instruction boundary and waiting for an interrupt.
- `cpu.dfy` (`Emu`): class `Cpu`. It holds the `cpu` fields, with memory as an
  `array` of 65536 bytes. Its methods update the fields in place as the C code
  does. `BeginInstruction`, `Dispatch`, `StackPush`, `HandleIo`, `Poll`,
  `SyncIo`, `CheckInterrupt` and `Step` are proved to leave `State()` equal
  to the matching `Machine` function of the old state (`Fetch`, `Retire`,
  `Push`, `Handled`, `Polled`, `Sync`, `InterruptCheck`, `Iterate`), so the
  lemmas about those functions apply to the class. The smaller methods they
  call state their effect as an update of the old state (`ReadOperands`,
  `WriteStores`, `SetRegisters`, `Jump`, `RaiseFlags`, `RunHandler`,
  `FinishIo`, `AdvancePc`) or through their result and their `modifies`
  frame (`ReadByte`, `WriteByte`, `ReadNextByte`).

Modelling decisions:

- Addresses and bytes are integers in their ranges (`Addr`, `Byte`). Every C
  addition that truncates to `uint8_t` or `uint16_t` is written with an
  explicit `% 0x100` or `% 0x10000`. `sr` and `emu_flags` are `bv8` bit fields.
- Opcode handlers live in headers that are not part of this model. Each is
  given as an outcome (`Handler`): how many operand bytes it streams with
  `NEXT_BYTE`, the bytes it writes with `write_byte`, the registers it leaves,
  an optional absolute jump target, its `branch_offset`, and the `emu_flags`
  bits it sets. The dispatch table is a map from opcode to `Handler`. NOP and
  STP cannot be in it, because the switch names both itself.
- `handle_io` is given as an effect (`IoEffect`): bytes the device model
  writes straight into memory, and whether it raises the interrupt line.
  `Step` and `SyncIo` take the effects of the successive calls as a sequence.
- The trace sink is modelled as the log `trace` of `BusAccess` records.
  Calls into the device model are modelled as the log `ioLog`, which records
  the `emu_flags` each `handle_io` call saw.
- Facts from headers that are not part of this model are written as
  constants, and the proofs rely on them:
  - `EMU_FLAG_DIRTY` = 0x01, `EMU_FLAG_WAIT_FOR_INTERRUPT` = 0x02, the
    I flag = 0x04, NOP = 0xEA, STP = 0xDB.
  - `reset_emu_flags` clears every bit.
  - `STACK_PUSH` stores at `0x0100 + sp` and then decrements `sp` within the
    page. The push is untraced.
  - `mem_abs(lo, hi, 0)` is `hi * 256 + lo`.
  - `get_flag(m, FLAG_INTERRUPT)` tests that bit of `sr`.

Behaviour of `src/emu.c` worth noting:

- `write_byte` does not touch `emu_flags`, so it never sets the dirty bit.
  Only a handler's own flag bits (`Handler.setFlags`) can set it, and
  `Emu.Cpu.WriteByte` cannot change `emu_flags`.
- The opcode fetch is one `NEXT_BYTE`, so it produces one trace record.
- Every iteration resets `emu_flags`. A NOP iteration therefore leaves all
  registers and memory unchanged but clears the transient flags
  (`Iteration.NopRetire`).
- An absolute jump still has the branch offset added. A handler that writes
  its own start address into `pc` cannot be told apart from one that does
  not jump, so the length advance applies (`Iteration.JumpToSelfAdvances`).
- STP skips the `pc` update, the poll loop and the interrupt check, but
  `handle_io` is still called once before `finish_io`
  (`Iteration.HaltIteration`).

## Model

| member | source | states |
|---|---|---|
| `Bus.TraceLine` | src/emu.c:10 | the trace line is 10 characters, with blanks at the fifth and seventh, `r` for a read or `W` for a write at the sixth, and a newline at the end |
| `Bus.Hex2` | src/emu.c:10 | `%02X` always gives exactly two digits |
| `Bus.Hex4` | src/emu.c:10 | `%04X` always gives exactly four digits |
| `Bus.DigitValue` | src/emu.c:10 | a character is read as a nibble exactly when it is an upper-case hex digit, and the nibble is below 16 |
| `Bus.DigitRoundTrip` | src/emu.c:10 | every nibble's digit reads back as that nibble |
| `Bus.Hex2RoundTrip` | src/emu.c:10 | every byte's two digits read back as that byte |
| `Bus.Hex2Canonical` | src/emu.c:10 | every accepted two-digit field is the formatting of the byte it reads as |
| `Bus.TraceLineRoundTrip` | src/emu.c:8-20 | a read line and a write line each parse back to exactly the access they record: direction, address and value |
| `Bus.ParsedLineIsTraceLine` | src/emu.c:8-20 | every line the parser accepts is the trace line of the access it parses to, so distinct accesses give distinct lines |
| `Machine.MemAbs` | src/emu.c:101 | the little-endian word has the high byte as its upper 8 bits and the low byte as its lower 8 bits |
| `Machine.StackAddr` | src/emu.c:96-98 | stack slots lie in page 0x0100-0x01FF |
| `Properties.ApplyWritesFrame` | src/emu.c:15-20 | a cell that no write addresses keeps its value |
| `Properties.ApplyWritesLastWins` | src/emu.c:15-20 | a cell holds the value of the last write to it |
| `Properties.ApplyWritesConcat` | src/emu.c:15-20 | writing one sequence of bytes and then another equals writing their concatenation |
| `Properties.StoreTraceAt` | src/emu.c:15-20 | successive `write_byte` calls leave one write record each, in order, with the written address and value |
| `Properties.OffsetStep` | src/emu.c:26 | `pc_offset++` on the 8-bit counter moves the cursor from k uses to k+1 uses |
| `Properties.CursorAddrValue` | src/emu.c:22-26 | while fewer than 256 bytes have been read, the k-th `NEXT_BYTE` reads (pc_start + k) mod 2^16 |
| `Properties.CursorReadsAt` | src/emu.c:22-26 | the cursor's k-th trace record is a read of the k-th cursor address, holding the byte stored there |
| `Properties.CursorReadsSplit` | src/emu.c:22-26 | cursor reads up to some point, followed by the reads after it, are the whole run of reads |
| `Properties.ResolvePcValue` | src/emu.c:82-85 | the resolved `pc` is (pc_start + pc_offset + branch) mod 2^16 when the handler left `pc`, and (pc + branch) mod 2^16 otherwise |
| `Properties.ResolvePcSplit` | src/emu.c:82-85 | the same two cases when the offset comes from an instruction length |
| `Properties.IrqEntryFrame` | src/emu.c:95-103 | IRQ entry stores PC high, PC low and the old `sr` in the three slots below `sp` and leaves every other cell alone. It lowers `sp` by 3 within the page, loads `pc` from 0xFFFE/0xFFFF, sets the I flag and clears the pending request. A, X, Y, `emu_flags` and the trace do not change |
| `Properties.IrqEntryReturnFrame` | src/emu.c:96-98 | three pulls from the new stack pointer give back the old `sr`, the old `pc` and the old stack pointer |
| `Properties.PushesPull` | src/emu.c:96-98 | any three pushed bytes come back from three pulls in reverse order, with the stack pointer restored |
| `Properties.PushPull` | src/emu.c:96 | a pull undoes the push just made |
| `Properties.PushKeepsPull` | src/emu.c:96-98 | a push leaves a pull from any other stack slot unchanged |
| `Properties.InterruptCheckFires` | src/emu.c:95 | the interrupt check changes the state exactly when a request is pending and the I flag is clear, and afterwards no interrupt is eligible |
| `Properties.IrqEntryExample` | src/emu.c:95-103 | with vector 0x8000, `sp` = 0xFF and `pc` = 0x1234: `pc` becomes 0x8000, 0x01FF holds 0x12, 0x01FE holds 0x34, 0x01FD holds `sr`, and `sp` becomes 0xFC |
| `Properties.SyncFromCount` | src/emu.c:87-93 | the poll loop makes at most one call per supplied effect, and none once it stops waiting |
| `Properties.SyncFromFrame` | src/emu.c:87-93 | polling leaves `pc`, the registers, the trace and the fetch bookkeeping unchanged, and keeps `emu_flags` once the dirty bit is clear |
| `Properties.SyncFromMem` | src/emu.c:87-93 | polling changes memory by exactly the device model's writes of the calls made, in order |
| `Properties.SyncFromLog` | src/emu.c:87-93 | once the dirty bit is clear, every further call sees the same flags |
| `Properties.SyncFromIrq` | src/emu.c:87-93 | afterwards a request is pending exactly when one was pending before or a call made raised one |
| `Properties.SyncFromStops` | src/emu.c:87-93 | if some call raises the interrupt, polling stops right after the first such call and the machine no longer waits |
| `Properties.SyncState` | src/emu.c:87-93 | the loop makes between 1 and \|io\| calls and clears the dirty bit while keeping the other flag bits. The first call sees the handler's flags and later calls see them with dirty clear. Memory receives the calls' writes, the request is pending exactly if it was before or a call raised it, and `pc`, registers and trace do not change |
| `Properties.SyncExit` | src/emu.c:92-93 | with the wait flag clear or a request already pending, the loop makes exactly one call. Otherwise it stops right after the first call that raises the interrupt, and it never exits while still waiting if a raise was supplied |
| `Iteration.NopRetire` | src/emu.c:73-76 | NOP and any opcode no handler claims advance `pc` by exactly one (mod 2^16) with one traced fetch. Memory, registers and the pending request do not change |
| `Iteration.NopIteration` | src/emu.c:49-103 | a whole NOP iteration with a quiet device model and no eligible interrupt: `pc` + 1, one fetch record, one `handle_io` call with clear flags, and nothing else changed |
| `Iteration.RetirePc` | src/emu.c:82-85 | after a handler, `pc` is pc_start + length + branch (mod 2^16) unless the handler jumped elsewhere, and then it is target + branch (mod 2^16) |
| `Iteration.JumpToSelfAdvances` | src/emu.c:82-84 | a jump to the instruction's own address retires exactly like no jump, so the length advance applies |
| `Iteration.ExecRetire` | src/emu.c:49-85 | after a handler: memory is the old memory with its stores applied in order, the registers and flag bits are the handler's, and the request and call log are unchanged. The trace is the opcode and operand reads, then the stores |
| `Iteration.ExecTraceRead` | src/emu.c:22-26 | the k-th access of an instruction is the read of its k-th cursor address, (pc_start + k) mod 2^16, and earlier trace stays unchanged |
| `Iteration.ExecTraceStore` | src/emu.c:15-20 | after all reads come the stores, each as a write record with its address and value |
| `Iteration.HaltIteration` | src/emu.c:78-107 | STP: no `pc` resolution, no poll loop and no interrupt check. One fetch record, then one `handle_io` with clear flags and one `finish_io`; status Halted |
| `Iteration.IterateStatus` | src/emu.c:78-79 | the loop halts exactly when the fetched opcode is STP |
| `Iteration.IterationBoundary` | src/emu.c:87-103 | a running iteration ends with the dirty bit clear and no eligible interrupt, and adds no bus access after the handler |
| `Iteration.IterationIoCalls` | src/emu.c:87-93 | a running iteration makes 1 to \|io\| `handle_io` calls. The first sees the instruction's flags and the rest see them with dirty clear |
| `Iteration.StoreSeenByDevice` | src/emu.c:82-93 | after a handler stores a byte and sets the dirty bit, the first `handle_io` runs on memory holding that byte and sees the bit. The bit is clear before the next fetch |
| `Iteration.WaitForInterrupt` | src/emu.c:87-93 | after an instruction that sets the wait flag with no request pending, polling continues until exactly the first call that raises the interrupt and stops there with the request pending |
| `Iteration.WaitThenInterrupt` | src/emu.c:87-103 | nothing is fetched while waiting. With the I flag clear the interrupt is taken, returning to the instruction after the wait. Otherwise `pc` stays there with the request still pending |
| `Emu.Cpu.constructor` | src/emu.c:28 | the record holds the given state |
| `Emu.Cpu.ReadByte` | src/emu.c:8-13 | returns `mem[address]`, appends one read record and changes no memory cell |
| `Emu.Cpu.WriteByte` | src/emu.c:15-20 | `mem[address]` becomes the value, which is returned. Other cells, `emu_flags` and the other registers do not change, and one write record is appended |
| `Emu.Cpu.ReadNextByte` | src/emu.c:22-24 | reads `mem[(pc + pc_offset) mod 2^16]`, traced, without moving `pc` |
| `Emu.Cpu.ReadOperands` | src/emu.c:26 | k uses of `NEXT_BYTE` leave the 8-bit cursor k further on and trace the k cursor reads, with nothing else changed |
| `Emu.Cpu.WriteStores` | src/emu.c:15-20 | a handler's stores leave memory equal to the old memory with the stores applied, and trace them in order |
| `Emu.Cpu.SetRegisters` | src/emu.c:59-71 | a handler leaves its registers and nothing else |
| `Emu.Cpu.Jump` | src/emu.c:59-71 | a handler's absolute jump sets `pc` and nothing else |
| `Emu.Cpu.RaiseFlags` | src/emu.c:59-71 | a handler's `emu_flags` bits are or-ed in |
| `Emu.Cpu.RunHandler` | src/emu.c:58-72 | the handler's effect as `Execute` describes it, returning cursor = entry + operands (8-bit) and its branch offset |
| `Emu.Cpu.BeginInstruction` | src/emu.c:49-56 | the state after `Fetch`, with the snapshot `pc`, the cursor at 1 and the fetched opcode returned |
| `Emu.Cpu.AdvancePc` | src/emu.c:82-85 | `pc` becomes `ResolvePc` of the snapshot, the current `pc`, the cursor and the branch offset |
| `Emu.Cpu.Dispatch` | src/emu.c:49-85 | the state after `Retire`, reporting STP exactly when the fetched opcode decodes to it |
| `Emu.Cpu.StackPush` | src/emu.c:96-98 | the state after `Push` |
| `Emu.Cpu.HandleIo` | src/emu.c:88 | the state after `Handled`: the device writes applied, the request possibly raised, the call logged |
| `Emu.Cpu.Poll` | src/emu.c:88-91 | `handle_io`, then the dirty bit cleared |
| `Emu.Cpu.FinishIo` | src/emu.c:107 | only `finish_io` is logged |
| `Emu.Cpu.SyncIo` | src/emu.c:87-93 | the state and call count of `Sync`. On exit the dirty bit is clear and either the wait flag is clear or a request is pending |
| `Emu.Cpu.CheckInterrupt` | src/emu.c:95-103 | the state after `InterruptCheck` |
| `Emu.Cpu.Step` | src/emu.c:49-107 | the state and status after `Iterate`. It halts exactly on STP, and when running it ends with the dirty bit clear and no eligible interrupt |

## Left out

- The text sink `trace_bus` and the `sprintf` buffer: the trace is the log of
  `BusAccess` records, and the line format is modelled by `Bus.TraceLine`.
- `init_io`: it takes no CPU argument and touches no modelled state.
- The bodies of `handle_io` and `finish_io`: they belong to the device model,
  which is not part of this model. `handle_io` is reduced to an effect (writes
  and an interrupt request), and `finish_io` is only logged.
- The opcode handler bodies (`opcode_handlers/*.h`) are not part of this
  model. Their outcomes are supplied, not computed from the operands. Memory
  reads a handler makes other than through `NEXT_BYTE` are not traced. Stack
  writes a handler makes are modelled as traced stores, whether or not the
  header goes through `write_byte`.
- Handler control of `pc_offset`: a header is `#include`d inside
  `main_loop`'s switch, so it could assign the local `pc_offset` directly. The
  model assumes handlers move `pc_offset` only through `NEXT_BYTE`. The final
  offset is then always one plus the number of operand reads (8-bit).
- Order inside a handler: the model assumes a handler reads all its operands
  before it stores anything. In the trace the operand reads therefore come
  before the stores, and the reads see the memory from before the stores. A
  handler that stores first, such as one that pushes before reading an
  operand, would give a different trace order.
- Device writes: the device model's `handle_io` (in `io.c`, which is not part
  of this model) is assumed to write memory directly, without `write_byte`.
  Its writes, including those of the `handle_io` call after STP, are applied
  untraced.
- The endless `for (;;)` loop: one iteration is modelled (`Emu.Cpu.Step`).
- The busy wait with no interrupt ever raised does not terminate in the
  source. `Emu.Cpu.SyncIo` and `Emu.Cpu.Step` require that the supplied
  effects raise the interrupt when the CPU would wait. The value-level `Sync`
  simply stops when the supplied effects run out.
- Emu.Cpu.constructor: setting up the `cpu` record is done by code that is not
  part of this model. The constructor copies a given state.
- `pc_actual` and `opcode` are only recorded as the snapshot `pc` and the
  fetched byte.
