/**
  What one iteration of the dispatch loop guarantees as a whole: the NOP and
  unknown-opcode path, program-counter resolution after a handler, the order
  of bus traffic, the STP exit, the state every running iteration leaves at
  the instruction boundary, and waiting for an interrupt.
*/
module Iteration {
  import opened Wrappers
  import opened Bus
  import opened Machine
  import opened Properties

  /**
    NOP and every opcode no handler claims fetch one byte, advance `pc`
    by exactly one (wrapping at 2^16) and leave memory, registers and the
    pending request alone.
  */
  lemma NopRetire(m: Machine, table: map<Byte, Handler>)
    requires WellFormedTable(table)
    requires m.mem[m.pc] == NOP || (m.mem[m.pc] != STP && m.mem[m.pc] !in table)
    ensures Retire(m, table)
         == m.(pc := (m.pc + 1) % 0x10000, emuFlags := 0, pcActual := m.pc, opcode := m.mem[m.pc],
               trace := m.trace + [Read(m.pc, m.mem[m.pc])])
  {
    ResolvePcSplit(m.pc, m.pc, 1, 0);
  }

  /**
    A whole NOP iteration with a quiet device model (no writes, no interrupt)
    and no interrupt to take: one fetch, one `handle_io` call that sees clear
    flags, `pc` one further on.
  */
  lemma NopIteration(m: Machine, table: map<Byte, Handler>, io: seq<IoEffect>)
    requires WellFormedTable(table)
    requires m.mem[m.pc] == NOP || (m.mem[m.pc] != STP && m.mem[m.pc] !in table)
    requires |io| > 0 && io[0] == IoEffect([], false)
    requires !IrqEligible(m)
    ensures Iterate(m, table, io)
         == (m.(pc := (m.pc + 1) % 0x10000, emuFlags := 0, pcActual := m.pc, opcode := m.mem[m.pc],
                trace := m.trace + [Read(m.pc, m.mem[m.pc])], ioLog := m.ioLog + [Handle(0)]),
             Running)
  {
    NopRetire(m, table);
    var r := Retire(m, table);
    assert !Waiting(Polled(r, io[0]));
    assert Sync(r, io).0 == Polled(r, io[0]);
  }

  /**
    After a handler, `pc` is pc_start + length + branch offset when the
    handler did not jump (or jumped to its own address), and the jump target
    plus the branch offset otherwise; both wrap at 2^16. The length is the
    8-bit `pc_offset` after the opcode and the operand reads.
  */
  lemma RetirePc(m: Machine, table: map<Byte, Handler>)
    requires Decode(table, m.mem[m.pc]).Exec?
    ensures var h := table[m.mem[m.pc]];
      Retire(m, table).pc
        == if h.jump.None? || h.jump.value == m.pc
           then (m.pc + OffsetAfter(1 + h.operands) + h.branch) % 0x10000
           else (h.jump.value + h.branch) % 0x10000
  {
    var h := table[m.mem[m.pc]];
    var e := Execute(Fetch(m), h);
    ResolvePcSplit(m.pc, e.pc, 1 + h.operands, h.branch);
  }

  /**
    A handler that stores its own address into `pc` is indistinguishable
    from one that does not jump: the loop cannot tell them apart and applies
    the length advance (a jump-to-self loop therefore falls through).
  */
  lemma JumpToSelfAdvances(m: Machine, table: map<Byte, Handler>)
    requires Decode(table, m.mem[m.pc]).Exec?
    requires table[m.mem[m.pc]].jump == Some(m.pc)
    ensures var op := m.mem[m.pc];
      Retire(m, table) == Retire(m, table[op := table[op].(jump := None)])
    ensures var h := table[m.mem[m.pc]];
      Retire(m, table).pc == (m.pc + OffsetAfter(1 + h.operands) + h.branch) % 0x10000
  {
    RetirePc(m, table);
  }

  /**
    What a dispatched handler leaves once the instruction retires: memory is
    the old memory with its stores applied in order, the registers and flag
    bits are the handler's, the pending request and the call log are
    untouched, and the bus saw the opcode and operand reads first (the k-th at
    the k-th cursor address, which is (pc_start + k) mod 2^16 while k < 256),
    then the stores.
  */
  lemma ExecRetire(m: Machine, table: map<Byte, Handler>)
    requires Decode(table, m.mem[m.pc]).Exec?
    ensures var h := table[m.mem[m.pc]];
      var r := Retire(m, table);
      && r.mem == ApplyWrites(m.mem, h.stores)
      && r.regs == h.regs
      && r.emuFlags == h.setFlags
      && r.interruptWaiting == m.interruptWaiting
      && r.ioLog == m.ioLog
      && r.pcActual == m.pc && r.opcode == m.mem[m.pc]
      && r.trace == m.trace + CursorReads(m.mem, m.pc, 0, 1 + h.operands) + StoreTrace(h.stores)
  {
    var h := table[m.mem[m.pc]];
    var f := Fetch(m);
    assert CursorReads(m.mem, m.pc, 0, 1) == [Read(m.pc, m.mem[m.pc])];
    CursorReadsSplit(m.mem, m.pc, 0, 1, 1 + h.operands);
  }

  /**
    The bus accesses of a dispatched instruction: after what came before, the
    k-th is its k-th cursor read (k = 0 the opcode), at (pc_start + k) mod 2^16
    while k < 256.
  */
  lemma ExecTraceRead(m: Machine, table: map<Byte, Handler>, k: nat)
    requires Decode(table, m.mem[m.pc]).Exec?
    requires k < 1 + table[m.mem[m.pc]].operands
    ensures var t := Retire(m, table).trace;
      && |m.trace| + k < |t|
      && t[..|m.trace|] == m.trace
      && t[|m.trace| + k] == Read(CursorAddr(m.pc, k), m.mem[CursorAddr(m.pc, k)])
      && (k < 0x100 ==> CursorAddr(m.pc, k) == (m.pc + k) % 0x10000)
  {
    var h := table[m.mem[m.pc]];
    ExecRetire(m, table);
    var t := Retire(m, table).trace;
    var rd := CursorReads(m.mem, m.pc, 0, 1 + h.operands);
    var st := StoreTrace(h.stores);
    assert t == m.trace + rd + st;
    CursorReadsAt(m.mem, m.pc, 0, 1 + h.operands, k);
    SeqAt3(m.trace, rd, st, |m.trace| + k);
    if k < 0x100 {
      CursorAddrValue(m.pc, k);
    }
  }

  /** ... and after all of its reads come its stores, in order, each as a write record. */
  lemma ExecTraceStore(m: Machine, table: map<Byte, Handler>, j: nat)
    requires Decode(table, m.mem[m.pc]).Exec?
    requires j < |table[m.mem[m.pc]].stores|
    ensures var h := table[m.mem[m.pc]];
      var t := Retire(m, table).trace;
      && |t| == |m.trace| + 1 + h.operands + |h.stores|
      && t[|m.trace| + 1 + h.operands + j] == Write(h.stores[j].addr, h.stores[j].value)
  {
    var h := table[m.mem[m.pc]];
    ExecRetire(m, table);
    var rd := CursorReads(m.mem, m.pc, 0, 1 + h.operands);
    var st := StoreTrace(h.stores);
    CursorReadsAt(m.mem, m.pc, 0, 1 + h.operands, 0);
    StoreTraceAt(h.stores, j);
    SeqAt3(m.trace, rd, st, |m.trace| + 1 + h.operands + j);
  }

  lemma SeqAt3<T>(a: seq<T>, b: seq<T>, c: seq<T>, i: nat)
    requires i < |a| + |b| + |c|
    ensures (a + b + c)[..|a|] == a
    ensures (a + b + c)[i] == if i < |a| then a[i] else if i < |a| + |b| then b[i - |a|] else c[i - |a| - |b|]
  {
  }

  /**
    STP ends the loop at once: no `pc` resolution, no poll loop and no
    interrupt check; one more `handle_io` (seeing clear flags), then
    `finish_io`.
  */
  lemma HaltIteration(m: Machine, table: map<Byte, Handler>, io: seq<IoEffect>)
    requires |io| > 0
    requires m.mem[m.pc] == STP
    ensures Iterate(m, table, io)
         == (m.(mem := ApplyWrites(m.mem, io[0].writes), emuFlags := 0, pcActual := m.pc, opcode := STP,
                interruptWaiting := m.interruptWaiting || io[0].raise,
                trace := m.trace + [Read(m.pc, STP)], ioLog := m.ioLog + [Handle(0), Finish]),
             Halted)
  {
    var r := Retire(m, table);
    assert r == Fetch(m);
    assert m.ioLog + [Handle(0)] + [Finish] == m.ioLog + [Handle(0), Finish];
  }

  /** An iteration that does not meet STP: the instruction retires, the poll loop runs, then the interrupt check. */
  lemma IterateRuns(m: Machine, table: map<Byte, Handler>, io: seq<IoEffect>)
    requires |io| > 0
    requires m.mem[m.pc] != STP
    ensures Iterate(m, table, io) == (InterruptCheck(Sync(Retire(m, table), io).0), Running)
  {
    assert Retire(m, table).opcode == m.mem[m.pc];
  }

  /** The loop stops exactly on STP. */
  lemma IterateStatus(m: Machine, table: map<Byte, Handler>, io: seq<IoEffect>)
    requires |io| > 0
    ensures Iterate(m, table, io).1 == Halted <==> m.mem[m.pc] == STP
  {
  }

  /**
    The instruction boundary: when the loop goes on, the dirty bit is clear,
    no interrupt is left eligible, and the bus saw nothing after the handler
    (polling and interrupt entry are untraced).
  */
  lemma IterationBoundary(m: Machine, table: map<Byte, Handler>, io: seq<IoEffect>)
    requires |io| > 0
    requires m.mem[m.pc] != STP
    ensures var (r, status) := Iterate(m, table, io);
      && status == Running
      && r.emuFlags & EMU_FLAG_DIRTY == 0
      && !IrqEligible(r)
      && r.trace == Retire(m, table).trace
  {
    IterateRuns(m, table, io);
    var t := Retire(m, table);
    SyncState(t, io);
    var s := Sync(t, io).0;
    InterruptCheckFires(s);
    if IrqEligible(s) {
      IrqEntryFrame(s);
    }
  }

  /**
    The device-model calls of a running iteration: the first `handle_io` saw
    the flags the instruction left, every later one saw them with the dirty
    bit cleared, and there are no more calls than supplied effects.
  */
  lemma IterationIoCalls(m: Machine, table: map<Byte, Handler>, io: seq<IoEffect>)
    requires |io| > 0
    requires m.mem[m.pc] != STP
    ensures var r := Iterate(m, table, io).0;
      var t := Retire(m, table);
      var n := Sync(t, io).1;
      && 1 <= n <= |io|
      && r.ioLog == t.ioLog + [Handle(t.emuFlags)] + Repeat(Handle(t.emuFlags & !EMU_FLAG_DIRTY), n - 1)
  {
    IterateRuns(m, table, io);
    var t := Retire(m, table);
    SyncState(t, io);
    var s := Sync(t, io).0;
    if IrqEligible(s) {
      IrqEntryFrame(s);
    }
  }

  /**
    A handler that stores a byte and raises the dirty bit: the first
    `handle_io` call runs on the memory that holds the byte and sees the bit
    set; by the next fetch the bit is clear again.
  */
  lemma StoreSeenByDevice(m: Machine, table: map<Byte, Handler>, io: seq<IoEffect>, addr: Addr, value: Byte)
    requires |io| > 0
    requires Decode(table, m.mem[m.pc]).Exec?
    requires table[m.mem[m.pc]].stores == [Store(addr, value)]
    requires table[m.mem[m.pc]].setFlags & EMU_FLAG_DIRTY != 0
    ensures var t := Retire(m, table);
      && t.mem[addr] == value
      && t.emuFlags & EMU_FLAG_DIRTY != 0
      && |Iterate(m, table, io).0.ioLog| > |m.ioLog|
      && Iterate(m, table, io).0.ioLog[|m.ioLog|] == Handle(t.emuFlags)
      && Iterate(m, table, io).0.emuFlags & EMU_FLAG_DIRTY == 0
  {
    var h := table[m.mem[m.pc]];
    ExecRetire(m, table);
    ApplyWritesLastWins(m.mem, h.stores, 0);
    IterationBoundary(m, table, io);
    IterationIoCalls(m, table, io);
  }

  /**
    The wait for an interrupt: when the instruction sets the wait flag
    with no request pending, the poll loop keeps calling `handle_io` until the
    first call that raises the interrupt line and no further, and leaves the
    request pending and the wait over.
  */
  lemma WaitForInterrupt(m: Machine, table: map<Byte, Handler>, io: seq<IoEffect>)
    requires Decode(table, m.mem[m.pc]).Exec?
    requires table[m.mem[m.pc]].setFlags & EMU_FLAG_WAIT_FOR_INTERRUPT != 0
    requires !m.interruptWaiting
    requires Releases(io)
    ensures var (s, n) := Sync(Retire(m, table), io);
      && 1 <= n <= |io|
      && io[n - 1].raise && (forall k :: 0 <= k < n - 1 ==> !io[k].raise)
      && s.interruptWaiting && !Waiting(s)
  {
    ExecRetire(m, table);
    var t := Retire(m, table);
    assert t.emuFlags & EMU_FLAG_WAIT_FOR_INTERRUPT != 0;
    SyncExit(t, io);
    SyncState(t, io);
  }

  /**
    What follows the wait, with no instruction fetched meanwhile: if the
    waiting instruction left the I flag clear the interrupt is taken, with
    the instruction after the wait as return address; otherwise execution
    resumes there with the request still pending.
  */
  lemma WaitThenInterrupt(m: Machine, table: map<Byte, Handler>, io: seq<IoEffect>)
    requires Decode(table, m.mem[m.pc]).Exec?
    requires table[m.mem[m.pc]].setFlags & EMU_FLAG_WAIT_FOR_INTERRUPT != 0
    requires !m.interruptWaiting
    requires Releases(io)
    ensures var h := table[m.mem[m.pc]];
      var t := Retire(m, table);
      var s := Sync(t, io).0;
      var r := Iterate(m, table, io).0;
      && r.trace == t.trace
      && (h.regs.sr & FLAG_INTERRUPT == 0 ==>
            && !r.interruptWaiting
            && r.pc == Vector(s.mem)
            && ReturnFrame(r.mem, r.regs.sp) == (h.regs.sr as int, t.pc, h.regs.sp))
      && (h.regs.sr & FLAG_INTERRUPT != 0 ==> r == s && r.pc == t.pc && r.interruptWaiting)
  {
    var h := table[m.mem[m.pc]];
    WaitForInterrupt(m, table, io);
    IterateRuns(m, table, io);
    ExecRetire(m, table);
    var t := Retire(m, table);
    SyncState(t, io);
    var s := Sync(t, io).0;
    assert s.regs == h.regs;
    if h.regs.sr & FLAG_INTERRUPT == 0 {
      IrqEntryFrame(s);
      IrqEntryReturnFrame(s);
    }
  }
}
