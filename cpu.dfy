/**
  The emulator's `cpu` record and the code of src/emu.c that updates it in
  place: the traced accessors `read_byte` and `write_byte`, the operand cursor
  `read_next_byte` / `NEXT_BYTE`, and one iteration of `main_loop`. Every
  method is proved to do what the corresponding function of module Machine
  describes.
*/
module Emu {
  import opened Wrappers
  import opened Bus
  import opened Machine
  import Properties
  import Iteration

  class Cpu {
    /** The 64 KiB address space. */
    const mem: array<Byte>
    var pc: Addr
    var a: Byte
    var x: Byte
    var y: Byte
    var sr: bv8
    var sp: Byte
    var emuFlags: bv8
    var interruptWaiting: bool
    var pcActual: Addr
    var opcode: Byte
    /** Every access handed to the trace sink, oldest first. */
    var trace: seq<BusAccess>
    /** Every call made into the device model, oldest first. */
    var ioLog: seq<IoCall>

    ghost predicate Valid()
    {
      mem.Length == MEMORY_SIZE
    }

    /** The record as a value. */
    ghost function State(): Machine
      reads this, mem
      requires Valid()
    {
      Machine(mem[..], pc, Regs(a, x, y, sr, sp), emuFlags, interruptWaiting, pcActual, opcode, trace, ioLog)
    }

    /** A record holding the given state; setting it up is done by code that is not part of this model. */
    constructor (m: Machine)
      ensures Valid() && State() == m
    {
      mem := new Byte[MEMORY_SIZE]((i: int) requires 0 <= i < MEMORY_SIZE => m.mem[i]);
      pc, a, x, y, sr, sp := m.pc, m.regs.a, m.regs.x, m.regs.y, m.regs.sr, m.regs.sp;
      emuFlags, interruptWaiting := m.emuFlags, m.interruptWaiting;
      pcActual, opcode := m.pcActual, m.opcode;
      trace, ioLog := m.trace, m.ioLog;
      new;
      assert mem[..] == m.mem;
    }

    /** `read_byte` (lines 8-13): the stored byte, with one read record traced; nothing else changes. */
    method ReadByte(address: Addr) returns (v: Byte)
      requires Valid()
      modifies this`trace
      ensures v == mem[address]
      ensures trace == old(trace) + [Read(address, v)]
    {
      trace := trace + [Read(address, mem[address])];
      v := mem[address];
    }

    /**
      `write_byte` (lines 15-20): the one cell takes the value, which is also
      returned, with one write record traced. `emu_flags` is not touched.
    */
    method WriteByte(address: Addr, value: Byte) returns (r: Byte)
      requires Valid()
      modifies mem, this`trace
      ensures r == value
      ensures mem[..] == old(mem[..])[address := value]
      ensures trace == old(trace) + [Write(address, value)]
    {
      trace := trace + [Write(address, value)];
      mem[address] := value;
      r := mem[address];
    }

    /** `read_next_byte` (lines 22-24): read at `pc + pc_offset`, cut to 16 bits; `pc` does not move. */
    method ReadNextByte(pcOffset: Byte) returns (v: Byte)
      requires Valid()
      modifies this`trace
      ensures v == mem[(pc + pcOffset) % 0x10000]
      ensures trace == old(trace) + [Read((pc + pcOffset) % 0x10000, v)]
    {
      v := ReadByte((pc + pcOffset) % 0x10000);
    }

    /** `STACK_PUSH(m) = v`, untraced. */
    method StackPush(v: Byte)
      requires Valid()
      modifies mem, this`sp
      ensures State() == Push(old(State()), v)
    {
      mem[STACK_START + sp] := v;
      sp := (sp - 1) % 0x100;
    }

    /** `handle_io`: the device model's writes land in memory (untraced) and it may raise the interrupt line. */
    method HandleIo(e: IoEffect)
      requires Valid()
      modifies mem, this`interruptWaiting, this`ioLog
      ensures State() == Handled(old(State()), e)
    {
      ioLog := ioLog + [Handle(emuFlags)];
      for i := 0 to |e.writes|
        invariant mem[..] == ApplyWrites(old(mem[..]), e.writes[..i])
        invariant ioLog == old(ioLog) + [Handle(emuFlags)]
        invariant interruptWaiting == old(interruptWaiting)
      {
        mem[e.writes[i].addr] := e.writes[i].value;
        assert e.writes[..i + 1][..i] == e.writes[..i];
      }
      assert e.writes[..|e.writes|] == e.writes;
      interruptWaiting := interruptWaiting || e.raise;
    }

    /** `finish_io`: only recorded. */
    method FinishIo()
      requires Valid()
      modifies this`ioLog
      ensures State() == old(State()).(ioLog := old(ioLog) + [Finish])
    {
      ioLog := ioLog + [Finish];
    }

    /** One pass of the poll loop's body (lines 88-91): `handle_io`, then the dirty bit cleared. */
    method Poll(e: IoEffect)
      requires Valid()
      modifies mem, this`emuFlags, this`interruptWaiting, this`ioLog
      ensures State() == Polled(old(State()), e)
    {
      HandleIo(e);
      emuFlags := emuFlags & !EMU_FLAG_DIRTY;
    }

    /**
      Lines 87-93: call `handle_io` and clear the dirty bit, again and again
      while the wait flag is set and no interrupt is pending. The effects of
      the successive calls are io; when the loop would wait, one of them must
      raise the interrupt line, since otherwise the source spins for ever.
    */
    method SyncIo(io: seq<IoEffect>) returns (polls: nat)
      requires Valid()
      requires |io| > 0
      requires Waiting(State()) ==> Releases(io)
      modifies mem, this`emuFlags, this`interruptWaiting, this`ioLog
      ensures (State(), polls) == Sync(old(State()), io)
      ensures emuFlags & EMU_FLAG_DIRTY == 0
      ensures emuFlags & EMU_FLAG_WAIT_FOR_INTERRUPT == 0 || interruptWaiting
    {
      ghost var m0 := State();
      Poll(io[0]);
      polls := 1;
      ghost var release := 0;
      if Waiting(State()) {
        release :| 0 <= release < |io| && io[release].raise;
      }
      while emuFlags & EMU_FLAG_WAIT_FOR_INTERRUPT != 0 && !interruptWaiting
        invariant 1 <= polls <= |io|
        invariant SyncFrom(State(), io[polls..], polls) == Sync(m0, io)
        invariant Waiting(State()) ==> polls <= release < |io| && io[release].raise
        invariant emuFlags & EMU_FLAG_DIRTY == 0
        decreases |io| - polls
      {
        assert io[polls..][1..] == io[polls + 1..];
        Poll(io[polls]);
        polls := polls + 1;
      }
    }

    /** Lines 95-103: take a pending interrupt if the I flag allows it. */
    method CheckInterrupt()
      requires Valid()
      modifies mem, this`sp, this`sr, this`pc, this`interruptWaiting
      ensures State() == InterruptCheck(old(State()))
    {
      if interruptWaiting && sr & FLAG_INTERRUPT == 0 {
        StackPush(pc / 0x100);
        StackPush(pc % 0x100);
        StackPush(sr as int);
        interruptWaiting := false;
        pc := MemAbs(mem[0xFFFE], mem[0xFFFF]);
        sr := sr | FLAG_INTERRUPT;
      }
    }

    /** count uses of `NEXT_BYTE` starting at cursor offset: the bytes are read and traced, nothing else changes. */
    method ReadOperands(offset: Byte, count: nat) returns (next: Byte)
      requires Valid()
      modifies this`trace
      ensures next == OffsetAfter(offset + count)
      ensures trace == old(trace) + CursorReads(mem[..], pc, offset, offset + count)
      ensures State() == old(State()).(trace := trace)
    {
      ghost var memory: Memory := mem[..];
      next := offset;
      var i := 0;
      while i < count
        invariant 0 <= i <= count
        invariant next == OffsetAfter(offset + i)
        invariant trace == old(trace) + CursorReads(memory, pc, offset, offset + i)
      {
        var operand := ReadNextByte(next);
        Properties.OffsetStep(offset + i);
        assert CursorReads(memory, pc, offset, offset + i + 1)
            == CursorReads(memory, pc, offset, offset + i) + [Read(CursorAddr(pc, offset + i), memory[CursorAddr(pc, offset + i)])];
        next := (next + 1) % 0x100;
        i := i + 1;
      }
      assert mem[..] == memory;
    }

    /** A handler's stores, each through `write_byte`, in order. */
    method WriteStores(stores: seq<Store>)
      requires Valid()
      modifies mem, this`trace
      ensures mem[..] == ApplyWrites(old(mem[..]), stores)
      ensures trace == old(trace) + StoreTrace(stores)
      ensures State() == old(State()).(mem := mem[..], trace := trace)
    {
      for j := 0 to |stores|
        invariant mem[..] == ApplyWrites(old(mem[..]), stores[..j])
        invariant trace == old(trace) + StoreTrace(stores[..j])
      {
        var written := WriteByte(stores[j].addr, stores[j].value);
        assert stores[..j + 1][..j] == stores[..j];
      }
      assert stores[..|stores|] == stores;
    }

    /**
      One opcode handler as the dispatch loop sees it, entered with the
      cursor at offset: it streams its operands with `NEXT_BYTE`, writes its
      stores with `write_byte`, leaves its registers, possibly jumps, sets its
      flag bits and returns the cursor and the branch offset it leaves.
    */
    method RunHandler(h: Handler, offset: Byte) returns (next: Byte, branchOffset: I8)
      requires Valid()
      modifies mem, this
      ensures next == OffsetAfter(offset + h.operands)
      ensures branchOffset == h.branch
      ensures State() == old(State()).(
        mem := ApplyWrites(old(mem[..]), h.stores),
        regs := h.regs,
        pc := if h.jump.Some? then h.jump.value else old(pc),
        emuFlags := old(emuFlags) | h.setFlags,
        trace := old(trace) + CursorReads(old(mem[..]), old(pc), offset, offset + h.operands) + StoreTrace(h.stores))
    {
      next := ReadOperands(offset, h.operands);
      WriteStores(h.stores);
      SetRegisters(h.regs);
      Jump(h.jump);
      RaiseFlags(h.setFlags);
      branchOffset := h.branch;
    }

    /** A handler leaves its registers. */
    method SetRegisters(r: Regs)
      requires Valid()
      modifies this`a, this`x, this`y, this`sr, this`sp
      ensures State() == old(State()).(regs := r)
    {
      a, x, y, sr, sp := r.a, r.x, r.y, r.sr, r.sp;
    }

    /** A handler raises `emu_flags` bits. */
    method RaiseFlags(bits: bv8)
      requires Valid()
      modifies this`emuFlags
      ensures State() == old(State()).(emuFlags := old(emuFlags) | bits)
    {
      emuFlags := emuFlags | bits;
    }

    /** A handler's absolute jump, if it makes one. */
    method Jump(target: Option<Addr>)
      requires Valid()
      modifies this`pc
      ensures State() == old(State()).(pc := if target.Some? then target.value else old(pc))
    {
      if target.Some? {
        pc := target.value;
      }
    }

    /**
      Lines 49-56: flags reset, the snapshot pc_start (also kept in
      `pc_actual`), and the opcode fetched by the first `NEXT_BYTE`, which
      leaves the cursor at 1.
    */
    method BeginInstruction() returns (pcStart: Addr, pcOffset: Byte, op: Byte)
      requires Valid()
      modifies this`emuFlags, this`pcActual, this`opcode, this`trace
      ensures pcStart == old(pc) && pcOffset == OffsetAfter(1) && op == old(mem[pc])
      ensures State() == Fetch(old(State()))
    {
      emuFlags := 0;
      pcOffset := 0;
      pcStart := pc;
      pcActual := pc;
      op := ReadNextByte(pcOffset);
      pcOffset := (pcOffset + 1) % 0x100;
      opcode := op;
    }

    /** Lines 82-85: the length advance when the handler left `pc` at pc_start, then the branch offset. */
    method AdvancePc(pcStart: Addr, pcOffset: Byte, branchOffset: I8)
      requires Valid()
      modifies this`pc
      ensures State() == old(State()).(pc := ResolvePc(pcStart, old(pc), pcOffset, branchOffset))
    {
      if pc == pcStart {
        pc := (pc + pcOffset) % 0x10000;
      }
      pc := (pc + branchOffset) % 0x10000;
    }

    /**
      Lines 49-85: fetch, dispatch and `pc` resolution; on STP (line 79) the
      switch leaves before the resolution and stop is set.
    */
    method Dispatch(table: map<Byte, Handler>) returns (stop: bool)
      requires Valid()
      modifies mem, this
      ensures stop <==> Decode(table, old(mem[pc])) == Stop
      ensures State() == Retire(old(State()), table)
    {
      ghost var m0 := State();
      var branchOffset: I8 := 0;
      var pcStart, pcOffset, op := BeginInstruction();
      stop := false;
      match Decode(table, op) {
        case Stop =>
          stop := true;
          return;
        case NoOp =>
        case Exec(h) =>
          pcOffset, branchOffset := RunHandler(h, pcOffset);
      }
      AdvancePc(pcStart, pcOffset, branchOffset);
    }

    /**
      One iteration of `main_loop` (lines 49-103, or 105-107 on STP). table
      gives the handler of each opcode the handler headers define; io the
      effects of the successive `handle_io` calls.
    */
    method Step(table: map<Byte, Handler>, io: seq<IoEffect>) returns (status: Status)
      requires Valid()
      requires WellFormedTable(table)
      requires |io| > 0
      requires Waiting(Retire(State(), table)) ==> Releases(io)
      modifies mem, this
      ensures (State(), status) == Iterate(old(State()), table, io)
      ensures status == Halted <==> old(mem[pc]) == STP
      ensures status == Running ==> emuFlags & EMU_FLAG_DIRTY == 0 && !IrqEligible(State())
    {
      ghost var m0 := State();
      var stop := Dispatch(table);
      if stop {
        HandleIo(io[0]);
        FinishIo();
        status := Halted;
        return;
      }
      Iteration.IterateRuns(m0, table, io);
      Iteration.IterationBoundary(m0, table, io);
      var polls := SyncIo(io);
      CheckInterrupt();
      status := Running;
    }
  }
}
