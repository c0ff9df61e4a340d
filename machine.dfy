/**
  Value-level description of one iteration of the emulator's dispatch loop
  (`main_loop` in src/emu.c): reset of the transient flags, opcode fetch through
  the operand cursor, the handler's effect, program-counter resolution, the
  I/O poll loop and the maskable-interrupt entry. The class `Emu.Cpu` performs
  the same steps in place and is proved against these functions.

  Facts taken from headers that are not part of this model (emu.h,
  functions.h, opcodes.h) are collected as constants and small functions:
  flag bit values, the NOP and STP opcodes, the stack page, the conventional
  6502 push and `mem_abs`.

  Addresses and byte values are integers in their ranges; every addition that
  C truncates back into a `uint8_t` or `uint16_t` is written with an explicit
  `% 0x100` or `% 0x10000`. The two bit-field registers (`sr`, `emu_flags`)
  are `bv8`.
*/
module Machine {
  import opened Wrappers
  import opened Bus

  // ---------------------------------------------------------------------------
  // Constants assumed from the headers
  // ---------------------------------------------------------------------------

  const MEMORY_SIZE: int := 0x10000

  /** The CPU's address space: one byte per 16-bit address. */
  type Memory = s: seq<Byte> | |s| == MEMORY_SIZE witness seq(0x10000, _ => 0)

  /** An `int8_t` value. */
  type I8 = i: int | -0x80 <= i < 0x80

  /** First address of the one-page stack. */
  const STACK_START: int := 0x0100

  /** Interrupt-disable bit of the status register. */
  const FLAG_INTERRUPT: bv8 := 0x04

  /** `emu_flags` bits. */
  const EMU_FLAG_DIRTY: bv8 := 0x01
  const EMU_FLAG_WAIT_FOR_INTERRUPT: bv8 := 0x02

  /** The two opcodes the dispatch switch of this file names. */
  const NOP: Byte := 0xEA
  const STP: Byte := 0xDB

  // ---------------------------------------------------------------------------
  // State
  // ---------------------------------------------------------------------------

  /** Accumulator, index registers, status register (a bit field) and stack pointer. */
  datatype Regs = Regs(a: Byte, x: Byte, y: Byte, sr: bv8, sp: Byte)

  /** One byte written to one address. */
  datatype Store = Store(addr: Addr, value: Byte)

  /**
    What one opcode handler does, as seen from the dispatch loop: how many
    operand bytes it streams with `NEXT_BYTE`, the bytes it writes through
    `write_byte` (in order), the register file it leaves, the absolute address
    it writes into `pc` if it jumps, the signed `branch_offset` it sets and the
    `emu_flags` bits it raises.
  */
  datatype Handler = Handler(
    operands: nat,
    stores: seq<Store>,
    regs: Regs,
    jump: Option<Addr>,
    branch: I8,
    setFlags: bv8)

  /** The effect of one `handle_io` call: bytes the device model writes, and whether it raises the interrupt line. */
  datatype IoEffect = IoEffect(writes: seq<Store>, raise: bool)

  /** A call into the device model: `handle_io` (with the `emu_flags` it sees) or `finish_io`. */
  datatype IoCall = Handle(flags: bv8) | Finish

  datatype Status = Running | Halted

  /** What the dispatch switch selects for an opcode. */
  datatype Dispatch = Stop | NoOp | Exec(h: Handler)

  /**
    The `cpu` record the loop works on, plus two observation logs: the accesses
    handed to the trace sink and the calls made into the device model.
  */
  datatype Machine = Machine(
    mem: Memory,
    pc: Addr,
    regs: Regs,
    emuFlags: bv8,
    interruptWaiting: bool,
    pcActual: Addr,
    opcode: Byte,
    trace: seq<BusAccess>,
    ioLog: seq<IoCall>)

  // ---------------------------------------------------------------------------
  // Memory and stack
  // ---------------------------------------------------------------------------

  /** `mem_abs(lo, hi, 0)`: the little-endian word `lo | hi << 8` of two bytes. */
  function MemAbs(lo: Byte, hi: Byte): (w: Addr)
    ensures w / 0x100 == hi && w % 0x100 == lo
  {
    hi * 0x100 + lo
  }

  /** The interrupt vector stored at 0xFFFE (low byte) and 0xFFFF (high byte). */
  function Vector(mem: Memory): Addr
  {
    MemAbs(mem[0xFFFE], mem[0xFFFF])
  }

  function StackAddr(sp: Byte): (i: Addr)
    ensures STACK_START <= i < STACK_START + 0x100
  {
    STACK_START + sp
  }

  /** `STACK_PUSH(m) = v`: store at the stack pointer, then decrement it within the page. */
  function Push(m: Machine, v: Byte): Machine
  {
    m.(mem := m.mem[StackAddr(m.regs.sp) := v], regs := m.regs.(sp := (m.regs.sp as int - 1) % 0x100))
  }

  /** The conventional 6502 pull (increment within the page, then read): the reference the pushes are checked against. */
  function Pull(mem: Memory, sp: Byte): (r: (Byte, Byte))
  {
    var sp' := (sp + 1) % 0x100;
    (mem[StackAddr(sp')], sp')
  }

  /** What a return from interrupt pulls: the status byte, then the return address low and high byte. */
  function ReturnFrame(mem: Memory, sp: Byte): (frame: (Byte, Addr, Byte))
  {
    var (sr, sp1) := Pull(mem, sp);
    var (lo, sp2) := Pull(mem, sp1);
    var (hi, sp3) := Pull(mem, sp2);
    (sr, MemAbs(lo, hi), sp3)
  }

  /** Memory after a sequence of byte writes, applied in order. */
  function ApplyWrites(mem: Memory, ws: seq<Store>): Memory
    decreases |ws|
  {
    if ws == [] then mem
    else
      var last := ws[|ws| - 1];
      ApplyWrites(mem, ws[..|ws| - 1])[last.addr := last.value]
  }

  /** The trace records `write_byte` produces for a sequence of writes. */
  function StoreTrace(ws: seq<Store>): seq<BusAccess>
    decreases |ws|
  {
    if ws == [] then []
    else StoreTrace(ws[..|ws| - 1]) + [Write(ws[|ws| - 1].addr, ws[|ws| - 1].value)]
  }

  // ---------------------------------------------------------------------------
  // Operand cursor
  // ---------------------------------------------------------------------------

  /** The 8-bit `pc_offset` after k uses of `NEXT_BYTE`. */
  function OffsetAfter(k: nat): Byte
  {
    k % 0x100
  }

  /** `m->pc + pc_offset` as `read_next_byte` passes it on: the address of the k-th `NEXT_BYTE` (k = 0 is the opcode). */
  function CursorAddr(pcStart: Addr, k: nat): Addr
  {
    (pcStart + OffsetAfter(k)) % 0x10000
  }

  /** The trace records of `NEXT_BYTE` number lo up to (not including) hi. */
  function CursorReads(mem: Memory, pcStart: Addr, lo: nat, hi: nat): seq<BusAccess>
    decreases hi
  {
    if hi <= lo then []
    else
      var addr := CursorAddr(pcStart, hi - 1);
      CursorReads(mem, pcStart, lo, hi - 1) + [Read(addr, mem[addr])]
  }

  // ---------------------------------------------------------------------------
  // Program-counter resolution
  // ---------------------------------------------------------------------------

  /**
    Lines 82-85: the length advance applies only when the handler left `pc` at
    the snapshot; the branch offset is added in every case. Both additions
    wrap, as the assignment back to the 16-bit `pc` does.
  */
  function ResolvePc(pcStart: Addr, pcNow: Addr, pcOffset: Byte, branch: I8): Addr
  {
    var advanced := if pcNow == pcStart then (pcNow + pcOffset) % 0x10000 else pcNow;
    (advanced + branch) % 0x10000
  }

  // ---------------------------------------------------------------------------
  // One iteration
  // ---------------------------------------------------------------------------

  /** No handler header may claim NOP or STP: the switch names both itself. */
  predicate WellFormedTable(table: map<Byte, Handler>)
  {
    NOP !in table && STP !in table
  }

  function Decode(table: map<Byte, Handler>, op: Byte): Dispatch
  {
    if op == STP then Stop
    else if op in table then Exec(table[op])
    else NoOp
  }

  /** Lines 49-56: flags reset, `pc` snapshot, opcode fetched with the first `NEXT_BYTE`. */
  function Fetch(m: Machine): Machine
  {
    var op := m.mem[m.pc];
    m.(emuFlags := 0, pcActual := m.pc, opcode := op, trace := m.trace + [Read(m.pc, op)])
  }

  /** A handler's effect after the opcode fetch: operand reads, then stores, registers, jump and flags. */
  function Execute(f: Machine, h: Handler): Machine
  {
    f.(mem := ApplyWrites(f.mem, h.stores),
       regs := h.regs,
       pc := if h.jump.Some? then h.jump.value else f.pc,
       emuFlags := f.emuFlags | h.setFlags,
       trace := f.trace + CursorReads(f.mem, f.pc, 1, 1 + h.operands) + StoreTrace(h.stores))
  }

  /** The state once the instruction has retired: fetched, dispatched and with `pc` resolved (STP: fetched only). */
  function Retire(m: Machine, table: map<Byte, Handler>): Machine
  {
    var f := Fetch(m);
    match Decode(table, f.opcode)
    case Stop => f
    case NoOp => f.(pc := ResolvePc(m.pc, f.pc, OffsetAfter(1), 0))
    case Exec(h) =>
      var e := Execute(f, h);
      e.(pc := ResolvePc(m.pc, e.pc, OffsetAfter(1 + h.operands), h.branch))
  }

  /** One `handle_io` call. */
  function Handled(m: Machine, e: IoEffect): Machine
  {
    m.(mem := ApplyWrites(m.mem, e.writes),
       interruptWaiting := m.interruptWaiting || e.raise,
       ioLog := m.ioLog + [Handle(m.emuFlags)])
  }

  /** One pass of the poll loop's body: `handle_io`, then the dirty bit cleared. */
  function Polled(m: Machine, e: IoEffect): Machine
  {
    var h := Handled(m, e);
    h.(emuFlags := h.emuFlags & !EMU_FLAG_DIRTY)
  }

  /** The poll loop's condition: the wait flag is set and no interrupt is pending. */
  predicate Waiting(m: Machine)
  {
    m.emuFlags & EMU_FLAG_WAIT_FOR_INTERRUPT != 0 && !m.interruptWaiting
  }

  /** Some call of the device model raises the interrupt line. */
  predicate Releases(io: seq<IoEffect>)
  {
    exists k :: 0 <= k < |io| && io[k].raise
  }

  /** The poll loop after n passes have run, drawing the effect of each further pass from rest. */
  function SyncFrom(m: Machine, rest: seq<IoEffect>, n: nat): (Machine, nat)
    decreases |rest|
  {
    if Waiting(m) && |rest| > 0 then SyncFrom(Polled(m, rest[0]), rest[1..], n + 1)
    else (m, n)
  }

  /** Lines 87-93: the do-while poll loop; the state it leaves and how many times it called `handle_io`. */
  function Sync(m: Machine, io: seq<IoEffect>): (Machine, nat)
    requires |io| > 0
  {
    SyncFrom(Polled(m, io[0]), io[1..], 1)
  }

  /** Interrupt injection is allowed: a request is pending and the I flag is clear. */
  predicate IrqEligible(m: Machine)
  {
    m.interruptWaiting && m.regs.sr & FLAG_INTERRUPT == 0
  }

  /** Lines 96-102: the IRQ entry sequence (`(pc & 0xFF00) >> 8` is `pc / 0x100`). */
  function IrqEntry(m: Machine): Machine
  {
    var m1 := Push(m, m.pc / 0x100);
    var m2 := Push(m1, m.pc % 0x100);
    var m3 := Push(m2, m2.regs.sr as int);
    m3.(interruptWaiting := false,
        pc := MemAbs(m3.mem[0xFFFE], m3.mem[0xFFFF]),
        regs := m3.regs.(sr := m3.regs.sr | FLAG_INTERRUPT))
  }

  /** Line 95: the instruction-boundary interrupt check. */
  function InterruptCheck(m: Machine): Machine
  {
    if IrqEligible(m) then IrqEntry(m) else m
  }

  /** Lines 105-107: after STP, one more `handle_io`, then `finish_io`. */
  function Halt(m: Machine, e: IoEffect): Machine
  {
    var h := Handled(m, e);
    h.(ioLog := h.ioLog + [Finish])
  }

  /**
    One iteration of the `for (;;)` loop, with io the effects of the successive
    `handle_io` calls it makes.
  */
  function Iterate(m: Machine, table: map<Byte, Handler>, io: seq<IoEffect>): (Machine, Status)
    requires |io| > 0
  {
    var r := Retire(m, table);
    if Decode(table, r.opcode) == Stop then (Halt(r, io[0]), Halted)
    else (InterruptCheck(Sync(r, io).0), Running)
  }
}
