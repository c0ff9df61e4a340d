/**
  What the dispatch loop of src/emu.c guarantees, proved about the value-level
  description in module Machine.
*/
module Properties {
  import opened Wrappers
  import opened Bus
  import opened Machine

  // ---------------------------------------------------------------------------
  // Memory writes and their trace
  // ---------------------------------------------------------------------------

  /** A cell that no write addresses keeps its value. */
  lemma {:induction false} ApplyWritesFrame(mem: Memory, ws: seq<Store>, i: int)
    requires 0 <= i < MEMORY_SIZE
    requires forall k :: 0 <= k < |ws| ==> ws[k].addr != i
    ensures ApplyWrites(mem, ws)[i] == mem[i]
    decreases |ws|
  {
    if ws != [] {
      ApplyWritesFrame(mem, ws[..|ws| - 1], i);
    }
  }

  /** A write that no later write to the same address overrides is what the cell holds afterwards. */
  lemma {:induction false} ApplyWritesLastWins(mem: Memory, ws: seq<Store>, k: int)
    requires 0 <= k < |ws|
    requires forall j :: k < j < |ws| ==> ws[j].addr != ws[k].addr
    ensures ApplyWrites(mem, ws)[ws[k].addr] == ws[k].value
    decreases |ws|
  {
    if k < |ws| - 1 {
      ApplyWritesLastWins(mem, ws[..|ws| - 1], k);
    }
  }

  /** Writing a then b is writing a + b. */
  lemma {:induction false} ApplyWritesConcat(mem: Memory, a: seq<Store>, b: seq<Store>)
    ensures ApplyWrites(mem, a + b) == ApplyWrites(ApplyWrites(mem, a), b)
    decreases |b|
  {
    if b == [] {
      assert a + b == a;
    } else {
      var last := b[|b| - 1];
      assert (a + b)[..|a + b| - 1] == a + b[..|b| - 1];
      ApplyWritesConcat(mem, a, b[..|b| - 1]);
      calc {
        ApplyWrites(mem, a + b);
        ApplyWrites(mem, a + b[..|b| - 1])[last.addr := last.value];
        ApplyWrites(ApplyWrites(mem, a), b[..|b| - 1])[last.addr := last.value];
      }
    }
  }

  /** `write_byte` leaves one trace record per store, in order, with the store's address and value. */
  lemma {:induction false} StoreTraceAt(ws: seq<Store>, k: int)
    requires 0 <= k < |ws|
    ensures |StoreTrace(ws)| == |ws|
    ensures StoreTrace(ws)[k] == Write(ws[k].addr, ws[k].value)
    decreases |ws|
  {
    if k < |ws| - 1 {
      StoreTraceAt(ws[..|ws| - 1], k);
    } else if |ws| > 1 {
      StoreTraceAt(ws[..|ws| - 1], 0);
    }
  }

  // ---------------------------------------------------------------------------
  // Operand cursor
  // ---------------------------------------------------------------------------

  /** `pc_offset++` on the 8-bit counter. */
  lemma OffsetStep(k: nat)
    ensures (OffsetAfter(k) + 1) % 0x100 == OffsetAfter(k + 1)
  {
  }

  /** While the offset has not wrapped, the k-th `NEXT_BYTE` reads address (pc_start + k) mod 2^16. */
  lemma CursorAddrValue(pcStart: Addr, k: nat)
    requires k < 0x100
    ensures CursorAddr(pcStart, k) == (pcStart + k) % 0x10000
  {
  }

  /** The k-th cursor record is a read of the k-th cursor address, with the byte stored there. */
  lemma {:induction false} CursorReadsAt(mem: Memory, pcStart: Addr, lo: nat, hi: nat, k: nat)
    requires lo <= k < hi
    ensures |CursorReads(mem, pcStart, lo, hi)| == hi - lo
    ensures CursorReads(mem, pcStart, lo, hi)[k - lo]
         == Read(CursorAddr(pcStart, k), mem[CursorAddr(pcStart, k)])
    decreases hi
  {
    if k < hi - 1 {
      CursorReadsAt(mem, pcStart, lo, hi - 1, k);
    } else if lo < hi - 1 {
      CursorReadsAt(mem, pcStart, lo, hi - 1, lo);
    }
  }

  /** Reads lo..mid followed by reads mid..hi are the reads lo..hi. */
  lemma {:induction false} CursorReadsSplit(mem: Memory, pcStart: Addr, lo: nat, mid: nat, hi: nat)
    requires lo <= mid <= hi
    ensures CursorReads(mem, pcStart, lo, mid) + CursorReads(mem, pcStart, mid, hi)
         == CursorReads(mem, pcStart, lo, hi)
    decreases hi
  {
    if mid < hi {
      CursorReadsSplit(mem, pcStart, lo, mid, hi - 1);
    }
  }

  // ---------------------------------------------------------------------------
  // Program-counter resolution
  // ---------------------------------------------------------------------------

  /**
    The resolved `pc` in one formula: (pc_start + pc_offset + branch_offset)
    mod 2^16 when the handler left `pc` alone, (pc + branch_offset) mod 2^16
    otherwise.
  */
  lemma ResolvePcValue(pcStart: Addr, pcNow: Addr, pcOffset: Byte, branch: I8)
    ensures ResolvePc(pcStart, pcNow, pcOffset, branch)
         == ((if pcNow == pcStart then pcStart + pcOffset else pcNow) + branch) % 0x10000
  {
  }

  /**
    The resolved `pc` for a dispatched handler: sequential advance by the
    instruction's length unless the handler moved `pc`, plus the branch
    offset either way.
  */
  lemma ResolvePcSplit(pcStart: Addr, pcNow: Addr, len: nat, branch: I8)
    ensures ResolvePc(pcStart, pcNow, OffsetAfter(len), branch)
         == if pcNow == pcStart then (pcStart + OffsetAfter(len) + branch) % 0x10000
            else (pcNow + branch) % 0x10000
  {
    var off := OffsetAfter(len);
    if pcNow == pcStart {
      ModAddMod(pcStart + off, branch);
    }
  }

  lemma ModAddMod(x: int, b: int)
    ensures ((x % 0x10000) + b) % 0x10000 == (x + b) % 0x10000
  {
  }

  // ---------------------------------------------------------------------------
  // Interrupt entry
  // ---------------------------------------------------------------------------

  /**
    IRQ entry stores PC high, PC low and the old status byte at the three
    stack slots below the stack pointer, in that order, lowers the stack
    pointer by three within the page, jumps through the vector at
    0xFFFE/0xFFFF, sets the I flag and drops the pending request; nothing else
    changes.
  */
  lemma IrqEntryFrame(m: Machine)
    ensures var r := IrqEntry(m);
      var s0, s1, s2 := StackAddr(m.regs.sp), StackAddr((m.regs.sp as int - 1) % 0x100), StackAddr((m.regs.sp as int - 2) % 0x100);
      && r.mem[s0] == m.pc / 0x100
      && r.mem[s1] == m.pc % 0x100
      && r.mem[s2] == m.regs.sr as int
      && (forall i :: 0 <= i < MEMORY_SIZE && i != s0 && i != s1 && i != s2 ==> r.mem[i] == m.mem[i])
      && r.regs.sp == (m.regs.sp as int - 3) % 0x100
      && r.pc == Vector(m.mem)
      && r.regs.sr == m.regs.sr | FLAG_INTERRUPT
      && r.regs.sr & FLAG_INTERRUPT != 0
      && !r.interruptWaiting
      && r.regs.a == m.regs.a && r.regs.x == m.regs.x && r.regs.y == m.regs.y
      && r.emuFlags == m.emuFlags && r.trace == m.trace && r.ioLog == m.ioLog
  {
  }

  /** The pushed frame is what a return from interrupt pulls back: the old status byte, the old `pc` and the old stack pointer. */
  lemma IrqEntryReturnFrame(m: Machine)
    ensures ReturnFrame(IrqEntry(m).mem, IrqEntry(m).regs.sp) == (m.regs.sr as int, m.pc, m.regs.sp)
  {
    var hi, lo, st := m.pc / 0x100, m.pc % 0x100, m.regs.sr as int;
    var pushed := Push(Push(Push(m, hi), lo), st);
    assert IrqEntry(m).mem == pushed.mem && IrqEntry(m).regs.sp == pushed.regs.sp;
    PushesPull(m, hi, lo, st);
  }

  /** Three pushes are undone by three pulls, which give the bytes back last-pushed first. */
  lemma PushesPull(m: Machine, hi: Byte, lo: Byte, st: Byte)
    ensures var r := Push(Push(Push(m, hi), lo), st);
      ReturnFrame(r.mem, r.regs.sp) == (st, MemAbs(lo, hi), m.regs.sp)
  {
    var r1 := Push(m, hi);
    var r2 := Push(r1, lo);
    var r3 := Push(r2, st);
    PushPull(r2, st);
    PushPull(r1, lo);
    PushPull(m, hi);
    var sp := m.regs.sp as int;
    assert r1.regs.sp == (sp - 1) % 0x100 && r2.regs.sp == (sp - 2) % 0x100;
    PushKeepsPull(r2, st, r1.regs.sp);
    PushKeepsPull(r2, st, m.regs.sp);
    PushKeepsPull(r1, lo, m.regs.sp);
  }

  /** A pull right after a push gives back the pushed byte and the old stack pointer. */
  lemma PushPull(m: Machine, v: Byte)
    ensures Pull(Push(m, v).mem, Push(m, v).regs.sp) == (v, m.regs.sp)
  {
    var sp := m.regs.sp as int;
    assert ((sp - 1) % 0x100 + 1) % 0x100 == sp;
  }

  /** A push does not disturb a pull from any other slot. */
  lemma PushKeepsPull(m: Machine, v: Byte, sp: Byte)
    requires (sp + 1) % 0x100 != m.regs.sp
    ensures Pull(Push(m, v).mem, sp) == Pull(m.mem, sp)
  {
  }

  /** The boundary check changes the state exactly when an interrupt is eligible, and afterwards none is. */
  lemma InterruptCheckFires(m: Machine)
    ensures InterruptCheck(m) != m <==> IrqEligible(m)
    ensures !IrqEligible(InterruptCheck(m))
  {
    if IrqEligible(m) {
      IrqEntryFrame(m);
    }
  }

  /** IRQ entry with vector 0x8000, stack pointer 0xFF and `pc` 0x1234. */
  lemma IrqEntryExample(m: Machine)
    requires m.mem[0xFFFE] == 0x00 && m.mem[0xFFFF] == 0x80
    requires m.regs.sp == 0xFF && m.pc == 0x1234
    ensures IrqEntry(m).pc == 0x8000
    ensures IrqEntry(m).mem[0x01FF] == 0x12 && IrqEntry(m).mem[0x01FE] == 0x34
    ensures IrqEntry(m).mem[0x01FD] == m.regs.sr as int
    ensures IrqEntry(m).regs.sp == 0xFC
  {
    IrqEntryFrame(m);
  }

  // ---------------------------------------------------------------------------
  // The I/O poll loop
  // ---------------------------------------------------------------------------

  function Repeat<T>(x: T, n: nat): (r: seq<T>)
    ensures |r| == n
  {
    if n == 0 then [] else [x] + Repeat(x, n - 1)
  }

  /** All bytes the device model writes over a run of `handle_io` calls, in order. */
  function IoWrites(es: seq<IoEffect>): seq<Store>
  {
    if es == [] then [] else es[0].writes + IoWrites(es[1..])
  }

  /** The poll loop calls `handle_io` at most once per supplied effect, and not at all once it has stopped waiting. */
  lemma {:induction false} SyncFromCount(m: Machine, rest: seq<IoEffect>, n0: nat)
    ensures n0 <= SyncFrom(m, rest, n0).1 <= n0 + |rest|
    ensures !Waiting(m) ==> SyncFrom(m, rest, n0) == (m, n0)
    decreases |rest|
  {
    if Waiting(m) && |rest| > 0 {
      SyncFromCount(Polled(m, rest[0]), rest[1..], n0 + 1);
    }
  }

  /** Polling leaves the registers, the program counter, the trace and the fetch bookkeeping alone. */
  lemma {:induction false} SyncFromFrame(m: Machine, rest: seq<IoEffect>, n0: nat)
    ensures var r := SyncFrom(m, rest, n0).0;
      && r.pc == m.pc && r.regs == m.regs && r.trace == m.trace
      && r.pcActual == m.pcActual && r.opcode == m.opcode
      && (m.emuFlags & EMU_FLAG_DIRTY == 0 ==> r.emuFlags == m.emuFlags)
    decreases |rest|
  {
    if Waiting(m) && |rest| > 0 {
      SyncFromFrame(Polled(m, rest[0]), rest[1..], n0 + 1);
    }
  }

  /** Polling changes memory by exactly the device model's writes of the calls it made, in order. */
  lemma {:induction false} SyncFromMem(m: Machine, rest: seq<IoEffect>, n0: nat)
    ensures var (r, n) := SyncFrom(m, rest, n0);
      n0 <= n <= n0 + |rest| && r.mem == ApplyWrites(m.mem, IoWrites(rest[..n - n0]))
    decreases |rest|
  {
    SyncFromCount(m, rest, n0);
    if Waiting(m) && |rest| > 0 {
      var m1 := Polled(m, rest[0]);
      SyncFromMem(m1, rest[1..], n0 + 1);
      var n := SyncFrom(m1, rest[1..], n0 + 1).1;
      var taken := rest[..n - n0];
      assert taken[0] == rest[0] && taken[1..] == rest[1..][..n - n0 - 1];
      ApplyWritesConcat(m.mem, rest[0].writes, IoWrites(rest[1..][..n - n0 - 1]));
    } else {
      assert rest[..0] == [];
    }
  }

  /** Once the dirty bit is clear, every `handle_io` call of the loop sees the same flags. */
  lemma {:induction false} SyncFromLog(m: Machine, rest: seq<IoEffect>, n0: nat)
    requires m.emuFlags & EMU_FLAG_DIRTY == 0
    ensures var (r, n) := SyncFrom(m, rest, n0);
      n0 <= n && r.ioLog == m.ioLog + Repeat(Handle(m.emuFlags), n - n0)
    decreases |rest|
  {
    SyncFromCount(m, rest, n0);
    if Waiting(m) && |rest| > 0 {
      var m1 := Polled(m, rest[0]);
      assert m1.emuFlags == m.emuFlags;
      SyncFromLog(m1, rest[1..], n0 + 1);
      SyncFromCount(m1, rest[1..], n0 + 1);
      var n := SyncFrom(m1, rest[1..], n0 + 1).1;
      assert m.ioLog + [Handle(m.emuFlags)] + Repeat(Handle(m.emuFlags), n - n0 - 1)
          == m.ioLog + Repeat(Handle(m.emuFlags), n - n0);
    }
  }

  /** After polling, an interrupt is pending exactly when one was before or some call made raised it. */
  lemma {:induction false} SyncFromIrq(m: Machine, rest: seq<IoEffect>, n0: nat)
    ensures var (r, n) := SyncFrom(m, rest, n0);
      n0 <= n <= n0 + |rest| && (r.interruptWaiting <==> m.interruptWaiting || exists k :: 0 <= k < n - n0 && rest[k].raise)
    decreases |rest|
  {
    SyncFromCount(m, rest, n0);
    if Waiting(m) && |rest| > 0 {
      var m1 := Polled(m, rest[0]);
      SyncFromIrq(m1, rest[1..], n0 + 1);
      SyncFromCount(m1, rest[1..], n0 + 1);
      var (r, n) := SyncFrom(m1, rest[1..], n0 + 1);
      if r.interruptWaiting && !m.interruptWaiting && !rest[0].raise {
        var k :| 0 <= k < n - n0 - 1 && rest[1..][k].raise;
        assert rest[k + 1].raise;
      }
      if exists k :: 0 <= k < n - n0 && rest[k].raise {
        var k :| 0 <= k < n - n0 && rest[k].raise;
        if k > 0 {
          assert rest[1..][k - 1].raise;
        }
      }
    }
  }

  /**
    The loop's exit: when some call raises the interrupt, polling stops right
    after the first such call and the machine is no longer waiting.
  */
  lemma {:induction false} SyncFromStops(m: Machine, rest: seq<IoEffect>, n0: nat)
    requires Releases(rest)
    ensures var (r, n) := SyncFrom(m, rest, n0);
      && n0 <= n <= n0 + |rest|
      && !Waiting(r)
      && (Waiting(m) ==> n > n0 && rest[n - n0 - 1].raise && forall k :: 0 <= k < n - n0 - 1 ==> !rest[k].raise)
    decreases |rest|
  {
    SyncFromCount(m, rest, n0);
    if Waiting(m) {
      var m1 := Polled(m, rest[0]);
      SyncFromCount(m1, rest[1..], n0 + 1);
      if rest[0].raise {
        assert !Waiting(m1);
      } else {
        var k :| 0 <= k < |rest| && rest[k].raise;
        assert rest[1..][k - 1].raise;
        SyncFromStops(m1, rest[1..], n0 + 1);
        var (r, n) := SyncFrom(m1, rest[1..], n0 + 1);
        assert rest[n - n0 - 1] == rest[1..][n - n0 - 2];
        forall j | 0 <= j < n - n0 - 1
          ensures !rest[j].raise
        {
          if j > 0 {
            assert rest[j] == rest[1..][j - 1];
          }
        }
      }
    }
  }

  /**
    What one pass of lines 87-93 leaves: the dirty bit cleared and every
    other `emu_flags` bit kept; one `handle_io` call that sees the handler's
    flags, then one per further poll, each seeing the dirty bit clear; memory
    as the device model wrote it; registers, `pc` and trace untouched.
  */
  lemma SyncState(m: Machine, io: seq<IoEffect>)
    requires |io| > 0
    ensures var (r, n) := Sync(m, io);
      && 1 <= n <= |io|
      && r.emuFlags == m.emuFlags & !EMU_FLAG_DIRTY
      && r.ioLog == m.ioLog + [Handle(m.emuFlags)] + Repeat(Handle(m.emuFlags & !EMU_FLAG_DIRTY), n - 1)
      && r.mem == ApplyWrites(m.mem, IoWrites(io[..n]))
      && (r.interruptWaiting <==> m.interruptWaiting || exists k :: 0 <= k < n && io[k].raise)
      && r.pc == m.pc && r.regs == m.regs && r.trace == m.trace
      && r.pcActual == m.pcActual && r.opcode == m.opcode
  {
    var m1 := Polled(m, io[0]);
    SyncFromFrame(m1, io[1..], 1);
    SyncFromLog(m1, io[1..], 1);
    SyncFromMem(m1, io[1..], 1);
    SyncFromIrq(m1, io[1..], 1);
    var (r, n) := Sync(m, io);
    var taken := io[..n];
    assert taken[0] == io[0] && taken[1..] == io[1..][..n - 1];
    ApplyWritesConcat(m.mem, io[0].writes, IoWrites(io[1..][..n - 1]));
    if r.interruptWaiting && !m.interruptWaiting && !io[0].raise {
      var k :| 0 <= k < n - 1 && io[1..][k].raise;
      assert io[k + 1].raise;
    }
    if exists k :: 0 <= k < n && io[k].raise {
      var k :| 0 <= k < n && io[k].raise;
      if k > 0 {
        assert io[1..][k - 1].raise;
      }
    }
  }

  /**
    When lines 87-93 stop: without the wait flag (or with a request
    already pending) after exactly one `handle_io` call; otherwise right after
    the first call that raises the interrupt.
  */
  lemma SyncExit(m: Machine, io: seq<IoEffect>)
    requires |io| > 0
    ensures var (r, n) := Sync(m, io);
      && 1 <= n <= |io|
      && (m.emuFlags & EMU_FLAG_WAIT_FOR_INTERRUPT == 0 || m.interruptWaiting ==> n == 1 && !Waiting(r))
      && (Releases(io) ==> !Waiting(r))
      && (m.emuFlags & EMU_FLAG_WAIT_FOR_INTERRUPT != 0 && !m.interruptWaiting && Releases(io) ==>
            io[n - 1].raise && forall k :: 0 <= k < n - 1 ==> !io[k].raise)
  {
    var m1 := Polled(m, io[0]);
    SyncFromCount(m1, io[1..], 1);
    var (r, n) := Sync(m, io);
    if Releases(io) {
      if io[0].raise {
        assert !Waiting(m1);
      } else {
        var k :| 0 <= k < |io| && io[k].raise;
        assert io[1..][k - 1].raise;
        SyncFromStops(m1, io[1..], 1);
        if m.emuFlags & EMU_FLAG_WAIT_FOR_INTERRUPT != 0 && !m.interruptWaiting {
          assert Waiting(m1);
          assert io[n - 1] == io[1..][n - 2];
          forall j | 0 <= j < n - 1
            ensures !io[j].raise
          {
            if j > 0 {
              assert io[j] == io[1..][j - 1];
            }
          }
        }
      }
    }
  }
}
