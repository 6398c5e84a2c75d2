// The cooperative/preemptive thread runtime of the concurrent-threads
// example (firmware/examples/09_concurrent_threads.c).
//
// A fixed table of MAX_THREADS slots holds, per slot, a `used` flag, a
// private stack and the thread's saved register frame. The interrupt
// handler `context_switch` saves the interrupted thread's trap frame into
// its slot and loads the next used slot's frame in round-robin order.
//
// The saved register frame is 32 words: index 0 is the program counter and
// index k (1..31) is register xk, so the ABI names are fixed by the RISC-V
// register numbering (ra = x1, sp = x2, a0 = x10, a1 = x11, a2 = x12). The
// frames of all slots are kept in one array, slot s at words
// s*FRAME_WORDS .. (s+1)*FRAME_WORDS.

module Threads {

  import opened Words
  import HalIrq
  import HalTime

  const WORD_SIZE: nat := 4
  const MAX_THREADS: nat := 4
  const STACK_SIZE: nat := 64
  const NO_THREAD: int := -1
  /** Time slice of the preemptive modes, in microseconds. */
  const TIME_SLICE: nat := 1000

  /** Words in a saved register frame: pc and x1..x31. */
  const FRAME_WORDS: nat := 32

  /** Frame word indices. */
  const PC: nat := 0
  const SP: nat := 2
  const A0: nat := 10
  const A1: nat := 11
  const A2: nat := 12

  /** Byte layout of one table slot: the `used` word, the stack, the frame. */
  const STACK_OFFSET: nat := 4
  const THREAD_BYTES: nat := 4 + 4 * 64 + 4 * 32

  datatype Scheduling = PREEMPTIVE | COOPERATIVE | HYBRID

  /** A thread id as stored in `runtime_current_thread_id`: a slot index or
      NO_THREAD. */
  type ThreadId = t: int | -1 <= t < 4

  // ---------------------------------------------------------------------
  // Slot selection

  /** threads_new_id's answer for slots `t` and up: the first unused one. */
  function FirstFreeFrom(used: seq<bool>, t: nat): (id: ThreadId)
    requires |used| == MAX_THREADS && t <= MAX_THREADS
    ensures id == NO_THREAD <==> forall j :: t <= j < MAX_THREADS ==> used[j]
    ensures id != NO_THREAD ==> t <= id && !used[id] && forall j :: t <= j < id ==> used[j]
    decreases MAX_THREADS - t
  {
    if t == MAX_THREADS then NO_THREAD
    else if !used[t] then t
    else FirstFreeFrom(used, t + 1)
  }

  /** threads_new_id: the lowest unused slot, or NO_THREAD if all are used. */
  function FirstFree(used: seq<bool>): (id: ThreadId)
    requires |used| == MAX_THREADS
    ensures id == NO_THREAD <==> forall j :: 0 <= j < MAX_THREADS ==> used[j]
    ensures id != NO_THREAD ==> !used[id] && forall j :: 0 <= j < id ==> used[j]
  {
    FirstFreeFrom(used, 0)
  }

  /** The slot probed at step `t` of threads_next_id: the sum is taken in
      unsigned 32-bit arithmetic, so NO_THREAD + t wraps to t - 1. */
  function ScanSlot(current: ThreadId, t: nat): (s: nat)
    ensures s < MAX_THREADS
  {
    ((current + t) % WORD) % MAX_THREADS
  }

  /** Because MAX_THREADS divides 2^32, the wrap-around does not disturb the
      round-robin order: the probe is (current + t) mod MAX_THREADS. */
  lemma ScanSlotMod(current: ThreadId, t: nat)
    ensures ScanSlot(current, t) == (current + t) % MAX_THREADS
  {
    var x := current + t;
    var q, r := x / WORD, x % WORD;
    var a, b := r / MAX_THREADS, r % MAX_THREADS;
    assert x == q * WORD + r;
    assert r == a * MAX_THREADS + b;
    assert (q * 0x4000_0000 + a) * MAX_THREADS == q * WORD + a * MAX_THREADS;
    ModUnique(x, q * 0x4000_0000 + a, b, MAX_THREADS);
  }

  /** threads_next_id's answer for probe steps `t` and up. */
  function NextUsedFrom(used: seq<bool>, current: ThreadId, t: nat): ThreadId
    requires |used| == MAX_THREADS && 1 <= t <= MAX_THREADS + 1
    decreases MAX_THREADS + 1 - t
  {
    if t > MAX_THREADS then NO_THREAD
    else if used[ScanSlot(current, t)] then ScanSlot(current, t)
    else NextUsedFrom(used, current, t + 1)
  }

  /** The scan from step `t` returns the slot of the first step whose slot
      is used, or NO_THREAD when no probed slot is used. */
  lemma {:induction false} NextUsedFromSpec(used: seq<bool>, current: ThreadId, t: nat)
    requires |used| == MAX_THREADS && 1 <= t <= MAX_THREADS + 1
    ensures var id := NextUsedFrom(used, current, t);
      && (id == NO_THREAD <==> forall k :: t <= k <= MAX_THREADS ==> !used[ScanSlot(current, k)])
      && (id != NO_THREAD ==> used[id] && exists k ::
            && t <= k <= MAX_THREADS
            && ScanSlot(current, k) == id
            && forall k' :: t <= k' < k ==> !used[ScanSlot(current, k')])
    decreases MAX_THREADS + 1 - t
  {
    if t <= MAX_THREADS && !used[ScanSlot(current, t)] {
      NextUsedFromSpec(used, current, t + 1);
    }
  }

  /** threads_next_id: the first used slot in the order current+1, current+2,
      ..., current+MAX_THREADS (mod MAX_THREADS), or NO_THREAD. */
  function NextUsed(used: seq<bool>, current: ThreadId): ThreadId
    requires |used| == MAX_THREADS
  {
    NextUsedFrom(used, current, 1)
  }

  /** NextUsed picks a used slot, the first one in probe order. */
  lemma NextUsedSpec(used: seq<bool>, current: ThreadId)
    requires |used| == MAX_THREADS
    ensures var id := NextUsed(used, current);
      && (id == NO_THREAD <==> forall k :: 1 <= k <= MAX_THREADS ==> !used[ScanSlot(current, k)])
      && (id != NO_THREAD ==> used[id] && exists k ::
            && 1 <= k <= MAX_THREADS
            && ScanSlot(current, k) == id
            && forall k' :: 1 <= k' < k ==> !used[ScanSlot(current, k')])
  {
    NextUsedFromSpec(used, current, 1);
  }

  /** Every slot is probed: the scan covers the whole table. */
  lemma ScanCovers(current: ThreadId, s: nat)
    requires s < MAX_THREADS
    ensures ScanSlot(current, (s - current - 1) % MAX_THREADS + 1) == s
  {
    var k := (s - current - 1) % MAX_THREADS + 1;
    ScanSlotMod(current, k);
  }

  /** NextUsed is NO_THREAD exactly when no slot is used. */
  lemma NextUsedNone(used: seq<bool>, current: ThreadId)
    requires |used| == MAX_THREADS
    ensures NextUsed(used, current) == NO_THREAD <==> forall s :: 0 <= s < MAX_THREADS ==> !used[s]
  {
    NextUsedSpec(used, current);
    if NextUsed(used, current) == NO_THREAD {
      forall s | 0 <= s < MAX_THREADS ensures !used[s] {
        ScanCovers(current, s);
      }
    }
  }

  /** The number of probe steps from `current` to slot `s`: 1..MAX_THREADS,
      MAX_THREADS meaning `s` is `current` itself. */
  function Steps(current: ThreadId, s: nat): (k: nat)
    requires s < MAX_THREADS
    ensures 1 <= k <= MAX_THREADS && ScanSlot(current, k) == s
  {
    ScanCovers(current, s);
    (s - current - 1) % MAX_THREADS + 1
  }

  /** The probe steps visit distinct slots. */
  lemma ScanInjective(current: ThreadId, k: nat, k': nat)
    requires 1 <= k <= MAX_THREADS && 1 <= k' <= MAX_THREADS
    ensures ScanSlot(current, k) == ScanSlot(current, k') ==> k == k'
  {
    ScanSlotMod(current, k);
    ScanSlotMod(current, k');
  }

  /** The current slot is probed last: it is chosen only when it is the sole
      used slot. */
  lemma CurrentChosenLast(used: seq<bool>, current: ThreadId)
    requires |used| == MAX_THREADS && current != NO_THREAD
    ensures NextUsed(used, current) == current <==>
      used[current] && forall s :: 0 <= s < MAX_THREADS && s != current ==> !used[s]
  {
    var id := NextUsed(used, current);
    NextUsedSpec(used, current);
    ScanSlotMod(current, MAX_THREADS);
    if id == current {
      var k :| 1 <= k <= MAX_THREADS && ScanSlot(current, k) == id
        && forall k' :: 1 <= k' < k ==> !used[ScanSlot(current, k')];
      ScanInjective(current, k, MAX_THREADS);
      forall s | 0 <= s < MAX_THREADS && s != current ensures !used[s] {
        var ks := Steps(current, s);
        assert ks < MAX_THREADS;
      }
    } else if used[current] {
      NextUsedNone(used, current);
      var k :| 1 <= k <= MAX_THREADS && ScanSlot(current, k) == id
        && forall k' :: 1 <= k' < k ==> !used[ScanSlot(current, k')];
      assert id != current;
    }
  }

  /** With no current thread the scan starts at slot 0, so the first used
      slot is chosen. */
  lemma NoCurrentStartsAtZero(used: seq<bool>)
    requires |used| == MAX_THREADS
    ensures NextUsed(used, NO_THREAD) != NO_THREAD ==>
      forall s :: 0 <= s < NextUsed(used, NO_THREAD) ==> !used[s]
  {
    assert ScanSlot(NO_THREAD, 1) == 0 && ScanSlot(NO_THREAD, 2) == 1;
    assert ScanSlot(NO_THREAD, 3) == 2 && ScanSlot(NO_THREAD, 4) == 3;
  }

  /** The scheduler's choice approaches every used slot: either it is that
      slot, or the slot is fewer probe steps away from the choice than it
      was from the current thread. */
  lemma NextUsedApproaches(used: seq<bool>, current: ThreadId, s: nat)
    requires |used| == MAX_THREADS && s < MAX_THREADS && used[s]
    ensures NextUsed(used, current) != NO_THREAD
    ensures NextUsed(used, current) == s
      || Steps(NextUsed(used, current), s) < Steps(current, s)
  {
    var ks := Steps(current, s);
    var id := NextUsed(used, current);
    NextUsedSpec(used, current);
    NextUsedNone(used, current);
    var k :| 1 <= k <= MAX_THREADS && ScanSlot(current, k) == id
      && forall k' :: 1 <= k' < k ==> !used[ScanSlot(current, k')];
    if id != s {
      assert k < ks;
      StepsShift(current, k, ks);
    }
  }

  /** From the slot reached in `k` steps, the slot reached in `ks` steps is
      `ks - k` further steps away. */
  lemma StepsShift(current: ThreadId, k: nat, ks: nat)
    requires 1 <= k < ks <= MAX_THREADS
    ensures Steps(ScanSlot(current, k), ScanSlot(current, ks)) == ks - k
  {
    var id := ScanSlot(current, k);
    var s := ScanSlot(current, ks);
    ScanSlotMod(current, k);
    ScanSlotMod(current, ks);
    ScanSlotMod(id, ks - k);
    assert ScanSlot(id, ks - k) == s;
    ScanInjective(id, Steps(id, s), ks - k);
  }

  /** The thread chosen after `n` context switches over an unchanged table. */
  function Schedule(used: seq<bool>, current: ThreadId, n: nat): ThreadId
    requires |used| == MAX_THREADS
    decreases n
  {
    if n == 0 then current else Schedule(used, NextUsed(used, current), n - 1)
  }

  /** No starvation: with the table unchanged, every used slot runs within
      MAX_THREADS context switches. */
  lemma {:induction false} EveryThreadScheduled(used: seq<bool>, current: ThreadId, s: nat)
    requires |used| == MAX_THREADS && s < MAX_THREADS && used[s]
    ensures exists n :: 1 <= n <= Steps(current, s) && Schedule(used, current, n) == s
    decreases Steps(current, s)
  {
    var id := NextUsed(used, current);
    NextUsedApproaches(used, current, s);
    if id == s {
      assert Schedule(used, current, 1) == s;
    } else {
      EveryThreadScheduled(used, id, s);
      var n :| 1 <= n <= Steps(id, s) && Schedule(used, id, n) == s;
      assert Schedule(used, current, n + 1) == s;
    }
  }

  // ---------------------------------------------------------------------
  // Frames

  /** Slot `s`'s saved frame within the frame table. */
  function FrameOf(frames: seq<u32>, s: nat): (f: seq<u32>)
    requires |frames| == MAX_THREADS * FRAME_WORDS && s < MAX_THREADS
    ensures |f| == FRAME_WORDS
  {
    frames[s * FRAME_WORDS .. s * FRAME_WORDS + FRAME_WORDS]
  }

  /** `words` with the frame-sized run at `at` replaced by `f`. */
  function Splice(words: seq<u32>, at: nat, f: seq<u32>): (r: seq<u32>)
    requires at + FRAME_WORDS <= |words| && |f| == FRAME_WORDS
    ensures |r| == |words|
    ensures r[at .. at + FRAME_WORDS] == f
    ensures forall i :: 0 <= i < |words| && !(at <= i < at + FRAME_WORDS) ==> r[i] == words[i]
  {
    words[.. at] + f + words[at + FRAME_WORDS ..]
  }

  /** Replacing one slot's frame leaves every other slot's frame as it was. */
  lemma SpliceOtherSlots(frames: seq<u32>, s: nat, f: seq<u32>, t: nat)
    requires |frames| == MAX_THREADS * FRAME_WORDS && s < MAX_THREADS && t < MAX_THREADS
    requires |f| == FRAME_WORDS
    ensures FrameOf(Splice(frames, s * FRAME_WORDS, f), t) ==
      if t == s then f else FrameOf(frames, t)
  {
    var r := Splice(frames, s * FRAME_WORDS, f);
    if t != s {
      assert forall i :: 0 <= i < FRAME_WORDS ==>
        FrameOf(r, t)[i] == r[t * FRAME_WORDS + i] == frames[t * FRAME_WORDS + i];
    }
  }

  /** thread_frame_copy: copies pc and x1..x31, i.e. all 32 frame words,
      from `src` at `srcAt` to `dst` at `dstAt`. */
  method FrameCopy(dst: array<u32>, dstAt: nat, src: array<u32>, srcAt: nat)
    requires dstAt + FRAME_WORDS <= dst.Length && srcAt + FRAME_WORDS <= src.Length
    requires dst != src || dstAt + FRAME_WORDS <= srcAt || srcAt + FRAME_WORDS <= dstAt
    modifies dst
    ensures dst[..] == Splice(old(dst[..]), dstAt, old(src[srcAt .. srcAt + FRAME_WORDS]))
  {
    ghost var before := dst[..];
    ghost var f := src[srcAt .. srcAt + FRAME_WORDS];
    forall i | 0 <= i < FRAME_WORDS {
      dst[dstAt + i] := src[srcAt + i];
    }
    assert dst[..] == Splice(before, dstAt, f);
  }

  // ---------------------------------------------------------------------
  // Critical sections

  /** The sources critical_section_leave enables: the environment call
      always, timer 0 unless the runtime is purely cooperative. */
  function LeaveMask(scheduling: Scheduling): u32
  {
    if scheduling != COOPERATIVE then HalIrq.EcallTimerMask() else HalIrq.EcallMask()
  }

  /** Leaving a critical section enables exactly the environment call, and
      timer 0 unless the runtime is purely cooperative. */
  lemma LeaveMaskBits(scheduling: Scheduling)
    ensures forall i :: 0 <= i < 32 ==>
      (BitSet(LeaveMask(scheduling), i) <==> i == HalIrq.ECALL_BIT || (i == 0 && scheduling != COOPERATIVE))
  {
    HalIrq.EcallMaskBits();
    HalIrq.EcallTimerMaskBits();
  }

  /** The outcome of one context switch. */
  datatype SwitchOutcome =
    | Idle                       // no current thread and nothing to run
    | Resumed(to: nat)           // no current thread; `to` is loaded
    | Kept                       // the current thread is the only one
    | Switched(from: nat, to: nat)
    | StrayLoad(from: nat)       // current thread but empty table: the
                                 // frame before the table is loaded

  /** The outcome of `mutex_lock`'s first step. */
  datatype LockStep = Entered | WaitsFor(p: nat)

  class Runtime {
    /** `used` flag of each slot. */
    const used: array<bool>
    /** Saved frames of all slots, one after another. */
    const frames: array<u32>
    /** runtime_current_thread_id. */
    var current: ThreadId
    /** runtime_scheduling. */
    var scheduling: Scheduling
    /** The interrupt controller and the timer block. */
    const irq: HalIrq.Controller
    const timers: HalTime.Timers
    /** Address of the slot table, of thread_guard and of context_switch. */
    const tableAddr: nat
    const guardAddr: u32
    const switchAddr: u32

    ghost predicate Valid()
      reads this, irq
    {
      used.Length == MAX_THREADS && frames.Length == MAX_THREADS * FRAME_WORDS
      && irq.Valid() && irq.vector != frames
    }

    /** The runtime's static storage before runtime_initialize: every slot
        unused and zeroed, no current thread. */
    constructor (irq: HalIrq.Controller, timers: HalTime.Timers, tableAddr: nat, guardAddr: u32, switchAddr: u32)
      requires irq.Valid()
      ensures Valid() && fresh(used) && fresh(frames)
      ensures this.irq == irq && this.timers == timers
      ensures this.tableAddr == tableAddr && this.guardAddr == guardAddr && this.switchAddr == switchAddr
      ensures current == NO_THREAD && scheduling == PREEMPTIVE
      ensures forall s :: 0 <= s < MAX_THREADS ==> !used[s]
      ensures forall i :: 0 <= i < MAX_THREADS * FRAME_WORDS ==> frames[i] == 0
    {
      used := new bool[MAX_THREADS](_ => false);
      frames := new u32[MAX_THREADS * FRAME_WORDS](_ => 0);
      current := NO_THREAD;
      scheduling := PREEMPTIVE;
      this.irq := irq;
      this.timers := timers;
      this.tableAddr := tableAddr;
      this.guardAddr := guardAddr;
      this.switchAddr := switchAddr;
    }

    /** Slot `s`'s saved frame. */
    ghost function Frame(s: nat): (f: seq<u32>)
      requires Valid() && s < MAX_THREADS
      reads this, irq, frames
      ensures |f| == FRAME_WORDS
    {
      FrameOf(frames[..], s)
    }

    /** The initial stack pointer of slot `id`: the address of the last word
        of its stack, as a 32-bit pointer. */
    function StackTop(id: nat): (sp: u32)
    {
      StackTopAt(tableAddr, id)
    }

    /** yield: traps into the scheduler unless the runtime is purely
        preemptive. */
    method Yield() returns (trapped: bool)
      ensures trapped <==> scheduling != PREEMPTIVE
    {
      trapped := scheduling != PREEMPTIVE;
    }

    /** critical_section_enter: disables every interrupt source. */
    method CriticalSectionEnter()
      modifies irq`maskReg
      ensures irq.Enabled() == HalIrq.IRQ_NONE
    {
      var _ := irq.SetEnabled(HalIrq.IRQ_NONE);
    }

    /** critical_section_leave: enables the environment call, plus timer 0
        unless cooperative, whatever was enabled before entry. */
    method CriticalSectionLeave()
      modifies irq`maskReg
      ensures irq.Enabled() == LeaveMask(scheduling)
    {
      if scheduling != COOPERATIVE {
        var _ := irq.SetEnabled(HalIrq.EcallTimerMask());
      } else {
        var _ := irq.SetEnabled(HalIrq.EcallMask());
      }
    }

    /** threads_new_id. */
    method NewId() returns (id: ThreadId)
      requires Valid()
      ensures id == FirstFree(used[..])
    {
      var t := 0;
      while t < MAX_THREADS
        invariant t <= MAX_THREADS
        invariant FirstFreeFrom(used[..], t) == FirstFree(used[..])
      {
        if !used[t] {
          return t;
        }
        t := t + 1;
      }
      return NO_THREAD;
    }

    /** threads_next_id. */
    method NextId() returns (id: ThreadId)
      requires Valid()
      ensures id == NextUsed(used[..], current)
    {
      var t := 1;
      while t <= MAX_THREADS
        invariant 1 <= t <= MAX_THREADS + 1
        invariant NextUsedFrom(used[..], current, t) == NextUsed(used[..], current)
      {
        var threadId := ((current + t) % WORD) % MAX_THREADS;
        if used[threadId] {
          return threadId;
        }
        t := t + 1;
      }
      return NO_THREAD;
    }

    /** thread_guard, after the thread's entry function has returned: frees
        the slot and yields with an environment call. */
    method Guard(threadId: nat) returns (trapped: bool)
      requires Valid() && threadId < MAX_THREADS
      modifies used
      ensures used[..] == old(used[..])[threadId := false]
      ensures trapped
    {
      used[threadId] := false;
      trapped := true;
    }

    /** thread_create: claims the first free slot inside a critical section
        and seeds its frame so that the thread starts in thread_guard with
        a0 = id, a1 = entry, a2 = argument and sp at the top of its stack. */
    method Create(entry: u32, argument: u32) returns (id: ThreadId)
      requires Valid()
      modifies used, frames, irq`maskReg
      ensures id == FirstFree(old(used[..]))
      ensures id == NO_THREAD ==> used[..] == old(used[..]) && frames[..] == old(frames[..])
      ensures id != NO_THREAD ==> used[..] == old(used[..])[id := true]
      ensures id != NO_THREAD ==> frames[..] == Splice(old(frames[..]), id * FRAME_WORDS,
        FrameOf(old(frames[..]), id)[PC := guardAddr][A0 := id][A1 := entry][A2 := argument][SP := StackTop(id)])
      ensures irq.Enabled() == LeaveMask(scheduling)
    {
      CriticalSectionEnter();
      id := NewId();
      if id == NO_THREAD {
        CriticalSectionLeave();
        return;
      }
      used[id] := true;
      CriticalSectionLeave();
      SeedFrame(id, entry, argument);
    }

    /** The frame writes of thread_create, made after the slot is claimed. */
    method SeedFrame(id: nat, entry: u32, argument: u32)
      requires Valid() && id < MAX_THREADS
      modifies frames
      ensures frames[..] == Splice(old(frames[..]), id * FRAME_WORDS,
        FrameOf(old(frames[..]), id)[PC := guardAddr][A0 := id][A1 := entry][A2 := argument][SP := StackTop(id)])
    {
      ghost var f := FrameOf(frames[..], id);
      var base := id * FRAME_WORDS;
      frames[base + PC] := guardAddr;
      frames[base + A0] := id;
      frames[base + A1] := entry;
      frames[base + A2] := argument;
      frames[base + SP] := StackTop(id);
      assert frames[..] == Splice(old(frames[..]), base,
        f[PC := guardAddr][A0 := id][A1 := entry][A2 := argument][SP := StackTop(id)]);
    }

    /** context_switch: the scheduler's trap handler. `frame` is the trap
        frame of the interrupted code and `stray` the 32 words just before
        the slot table, which the code reads as the frame of slot -1. */
    method ContextSwitch(irqs: u32, frame: array<u32>, stray: array<u32>) returns (outcome: SwitchOutcome)
      requires Valid() && frame.Length == FRAME_WORDS && stray.Length == FRAME_WORDS
      requires frame != frames && stray != frames && frame != stray
      modifies this`current, frames, frame
      ensures var cur := old(current);
        var next := NextUsed(old(used[..]), cur);
        && (cur == NO_THREAD && next == NO_THREAD ==>
              outcome == Idle && current == cur
              && frames[..] == old(frames[..]) && frame[..] == old(frame[..]))
        && (cur == NO_THREAD && next != NO_THREAD ==>
              outcome == Resumed(next) && current == next
              && frames[..] == old(frames[..]) && frame[..] == FrameOf(old(frames[..]), next))
        && (cur != NO_THREAD && next == cur ==>
              outcome == Kept && current == cur
              && frames[..] == old(frames[..]) && frame[..] == old(frame[..]))
        && (cur != NO_THREAD && next != NO_THREAD && next != cur ==>
              outcome == Switched(cur, next) && current == next
              && frames[..] == Splice(old(frames[..]), cur * FRAME_WORDS, old(frame[..]))
              && frame[..] == FrameOf(old(frames[..]), next))
        && (cur != NO_THREAD && next == NO_THREAD ==>
              outcome == StrayLoad(cur) && current == NO_THREAD
              && frames[..] == Splice(old(frames[..]), cur * FRAME_WORDS, old(frame[..]))
              && frame[..] == old(stray[..]))
    {
      var next := NextId();
      if current == NO_THREAD {
        if next == NO_THREAD {
          return Idle;
        }
        FrameCopy(frame, 0, frames, next * FRAME_WORDS);
        current := next;
        return Resumed(next);
      }
      if next == current {
        return Kept;
      }
      outcome := SwitchOut(current, next, frame, stray);
      current := next;
    }

    /** The end of context_switch when a thread was running and another
        slot, or none, comes next: the running thread's frame is saved to
        its slot, then the next slot's frame (or the stray words) loaded. */
    method SwitchOut(cur: ThreadId, next: ThreadId, frame: array<u32>, stray: array<u32>) returns (outcome: SwitchOutcome)
      requires Valid() && frame.Length == FRAME_WORDS && stray.Length == FRAME_WORDS
      requires frame != frames && stray != frames && frame != stray
      requires cur != NO_THREAD && next != cur
      modifies frames, frame
      ensures frames[..] == Splice(old(frames[..]), cur * FRAME_WORDS, old(frame[..]))
      ensures next == NO_THREAD ==> outcome == StrayLoad(cur) && frame[..] == old(stray[..])
      ensures next != NO_THREAD ==> outcome == Switched(cur, next) && frame[..] == FrameOf(old(frames[..]), next)
    {
      FrameCopy(frames, cur * FRAME_WORDS, frame, 0);
      if next == NO_THREAD {
        FrameCopy(frame, 0, stray, 0);
        outcome := StrayLoad(cur);
      } else {
        SpliceOtherSlots(old(frames[..]), cur, old(frame[..]), next);
        FrameCopy(frame, 0, frames, next * FRAME_WORDS);
        outcome := Switched(cur, next);
      }
    }

    /** runtime_initialize: records the mode, frees every slot, installs
        context_switch for the environment call (and for timer 0 unless
        cooperative), enables those sources and, unless cooperative, sets
        timer 0's interval to one time slice. The current thread id is not
        reset. */
    method Initialize(mode: Scheduling)
      requires Valid()
      modifies this`scheduling, used, irq`maskReg, irq.vector, timers`select, timers`interval
      ensures Valid()
      ensures scheduling == mode && current == old(current)
      ensures forall s :: 0 <= s < MAX_THREADS ==> !used[s]
      ensures frames[..] == old(frames[..])
      ensures mode == COOPERATIVE ==>
        irq.vector[..] == old(irq.vector[..])[HalIrq.ECALL_BIT := switchAddr]
      ensures mode != COOPERATIVE ==>
        irq.vector[..] == old(irq.vector[..])[HalIrq.ECALL_BIT := switchAddr][0 := switchAddr]
      ensures irq.Enabled() == LeaveMask(mode)
      ensures mode != COOPERATIVE ==> timers.select == HalTime.TIMER0 && timers.interval == TIME_SLICE
      ensures mode == COOPERATIVE ==> timers.select == old(timers.select) && timers.interval == old(timers.interval)
    {
      scheduling := mode;
      FreeAll();
      HalIrq.EcallMaskBits();
      irq.SetHandler(HalIrq.EcallMask(), switchAddr);
      if scheduling != COOPERATIVE {
        HalIrq.Timer0Lowest();
        irq.SetHandler(HalIrq.IRQ_TIMER0, switchAddr);
        var _ := irq.SetEnabled(HalIrq.EcallTimerMask());
        timers.SetInterval(HalTime.TIMER0, TIME_SLICE);
      } else {
        var _ := irq.SetEnabled(HalIrq.EcallMask());
      }
    }

    /** The loop of runtime_initialize that marks every slot unused. */
    method FreeAll()
      requires Valid()
      modifies used
      ensures forall s :: 0 <= s < MAX_THREADS ==> !used[s]
    {
      var t := 0;
      while t < MAX_THREADS
        invariant t <= MAX_THREADS
        invariant forall s :: 0 <= s < t ==> !used[s]
      {
        used[t] := false;
        t := t + 1;
      }
    }

    /** runtime_start: starts timer 0 unless cooperative, then yields. */
    method Start() returns (trapped: bool)
      modifies timers`reset
      ensures scheduling != COOPERATIVE ==>
        timers.reset == HalTime.ResetAfter(old(timers.reset), HalTime.TIMER0, true) && timers.GetEnabled(HalTime.TIMER0)
      ensures scheduling == COOPERATIVE ==> timers.reset == old(timers.reset)
      ensures trapped <==> scheduling != PREEMPTIVE
    {
      if scheduling != COOPERATIVE {
        timers.SetEnabled(HalTime.TIMER0, true);
      }
      trapped := Yield();
    }
  }

  /** A freed slot is never chosen by the scheduler until it is claimed
      again. */
  lemma FreedNeverSelected(used: seq<bool>, id: nat, current: ThreadId)
    requires |used| == MAX_THREADS && id < MAX_THREADS
    ensures NextUsed(used[id := false], current) != id
  {
    NextUsedSpec(used[id := false], current);
  }

  /** Two threads alternate: from either, the scheduler picks the other. */
  lemma TwoThreadsAlternate(used: seq<bool>, a: nat, b: nat)
    requires |used| == MAX_THREADS && a < MAX_THREADS && b < MAX_THREADS && a != b
    requires used[a] && used[b]
    requires forall s :: 0 <= s < MAX_THREADS && s != a && s != b ==> !used[s]
    ensures NextUsed(used, a) == b && NextUsed(used, b) == a
  {
    CurrentChosenLast(used, a);
    CurrentChosenLast(used, b);
    NextUsedSpec(used, a);
    NextUsedSpec(used, b);
    NextUsedNone(used, a);
    NextUsedNone(used, b);
  }

  /** A freshly created thread starts in thread_guard with its id, entry,
      argument and stack pointer in place. */
  lemma CreatedFrame(frames: seq<u32>, id: nat, f: seq<u32>, guard: u32, entry: u32, arg: u32, sp: u32)
    requires |frames| == MAX_THREADS * FRAME_WORDS && id < MAX_THREADS && |f| == FRAME_WORDS
    ensures var g := FrameOf(Splice(frames, id * FRAME_WORDS,
                       f[PC := guard][A0 := id][A1 := entry][A2 := arg][SP := sp]), id);
      g[PC] == guard && g[A0] == id && g[A1] == entry && g[A2] == arg && g[SP] == sp
      && forall r :: 0 <= r < FRAME_WORDS && r !in {PC, SP, A0, A1, A2} ==> g[r] == f[r]
  {
    SpliceOtherSlots(frames, id, f[PC := guard][A0 := id][A1 := entry][A2 := arg][SP := sp], id);
  }

  /** The address of the first word of slot `id`'s stack, for a thread
      table at byte address `tableAddr`: the stack follows the slot's `used`
      word. */
  function StackBase(tableAddr: nat, id: nat): nat
  {
    tableAddr + THREAD_BYTES * id + STACK_OFFSET
  }

  /** The address of the last word of slot `id`'s stack, as a 32-bit
      pointer. */
  function StackTopAt(tableAddr: nat, id: nat): u32
  {
    (StackBase(tableAddr, id) + WORD_SIZE * (STACK_SIZE - 1)) % WORD
  }

  /** The stack pointer a thread starts with is the address of the last
      word of its own stack. */
  lemma StackTopInsideStack(tableAddr: nat, id: nat)
    requires id < MAX_THREADS && tableAddr + MAX_THREADS * THREAD_BYTES <= WORD
    ensures StackBase(tableAddr, id) <= StackTopAt(tableAddr, id) < StackBase(tableAddr, id) + WORD_SIZE * STACK_SIZE
    ensures StackTopAt(tableAddr, id) + WORD_SIZE == StackBase(tableAddr, id) + WORD_SIZE * STACK_SIZE
  {
  }

  /** Distinct slots have disjoint stacks, the lower slot's wholly below the
      higher one's, so no thread starts on another thread's stack. */
  lemma StacksDisjoint(tableAddr: nat, id1: nat, id2: nat)
    requires id1 < id2 < MAX_THREADS && tableAddr + MAX_THREADS * THREAD_BYTES <= WORD
    ensures StackBase(tableAddr, id1) + WORD_SIZE * STACK_SIZE <= StackBase(tableAddr, id2)
    ensures StackTopAt(tableAddr, id1) < StackBase(tableAddr, id2)
    ensures StackTopAt(tableAddr, id1) != StackTopAt(tableAddr, id2)
  {
    StackTopInsideStack(tableAddr, id1);
    StackTopInsideStack(tableAddr, id2);
  }

  // ---------------------------------------------------------------------
  // The turn-based mutex

  class Mutex {
    /** wants_to_enter, one flag per thread. */
    const wantsToEnter: array<bool>
    /** The thread whose turn it is. */
    var turn: u32

    ghost predicate Valid()
      reads this
    {
      wantsToEnter.Length == MAX_THREADS
    }

    constructor ()
      ensures Valid() && fresh(wantsToEnter) && turn == 0
      ensures forall p :: 0 <= p < MAX_THREADS ==> !wantsToEnter[p]
    {
      wantsToEnter := new bool[MAX_THREADS](_ => false);
      turn := 0;
    }

    /** mutex_init: no thread wants to enter and it is thread 0's turn. */
    method Init()
      requires Valid()
      modifies this`turn, wantsToEnter
      ensures forall p :: 0 <= p < MAX_THREADS ==> !wantsToEnter[p]
      ensures turn == 0
    {
      var t := 0;
      while t < MAX_THREADS
        invariant t <= MAX_THREADS
        invariant forall p :: 0 <= p < t ==> !wantsToEnter[p]
      {
        wantsToEnter[t] := false;
        t := t + 1;
      }
      turn := 0;
    }

    /** mutex_unlock: hands the turn to the caller and lowers only the
        caller's flag. */
    method Unlock(threadId: nat)
      requires Valid() && threadId < MAX_THREADS
      modifies this`turn, wantsToEnter
      ensures turn == threadId
      ensures wantsToEnter[..] == old(wantsToEnter[..])[threadId := false]
    {
      turn := threadId;
      wantsToEnter[threadId] := false;
    }

    /** The first step of mutex_lock: raise the caller's flag, then look for
        another thread whose flag is raised. With none the lock is entered;
        otherwise the caller would start waiting on the first such thread. */
    method LockStart(threadId: nat) returns (step: LockStep)
      requires Valid() && threadId < MAX_THREADS
      modifies wantsToEnter
      ensures wantsToEnter[..] == old(wantsToEnter[..])[threadId := true]
      ensures step == FirstContender(wantsToEnter[..], threadId, 0)
    {
      wantsToEnter[threadId] := true;
      var p := 0;
      while p < MAX_THREADS
        invariant p <= MAX_THREADS
        invariant FirstContender(wantsToEnter[..], threadId, p) == FirstContender(wantsToEnter[..], threadId, 0)
      {
        if p != threadId && wantsToEnter[p] {
          return WaitsFor(p);
        }
        p := p + 1;
      }
      return Entered;
    }
  }

  /** The first thread from `p` on, other than `self`, whose flag is raised. */
  function FirstContender(wants: seq<bool>, self: nat, p: nat): (step: LockStep)
    requires |wants| == MAX_THREADS && p <= MAX_THREADS
    ensures step == Entered <==> forall q :: p <= q < MAX_THREADS && q != self ==> !wants[q]
    ensures step.WaitsFor? ==> p <= step.p < MAX_THREADS && step.p != self && wants[step.p]
    ensures step.WaitsFor? ==> forall q :: p <= q < step.p && q != self ==> !wants[q]
    decreases MAX_THREADS - p
  {
    if p == MAX_THREADS then Entered
    else if p != self && wants[p] then WaitsFor(p)
    else FirstContender(wants, self, p + 1)
  }

  /** Locking right after initialisation, or after every other thread has
      unlocked, enters at once. */
  lemma UncontendedLockEnters(wants: seq<bool>, self: nat)
    requires |wants| == MAX_THREADS && self < MAX_THREADS
    requires forall q :: 0 <= q < MAX_THREADS && q != self ==> !wants[q]
    ensures FirstContender(wants[self := true], self, 0) == Entered
  {
  }

  // ---------------------------------------------------------------------
  // rand and factorial

  const RAND_A: nat := 1664525
  const RAND_C: nat := 1013904223
  const RAND_M: nat := 0x8000_0000

  /** The pseudo-random generator with its static seed. */
  class Rng {
    var seed: u32

    constructor ()
      ensures seed == 0
    {
      seed := 0;
    }

    /** rand: 0 for an empty range, leaving the seed alone. Otherwise one
        step of the linear congruential generator (products and sums wrap
        at 32 bits, then reduce modulo 2^31) and the new seed reduced into
        [start, end]. When the range is all 2^32 values its size wraps to 0;
        the RISC-V remainder by zero gives back the dividend. */
    method Rand(start: u32, end: u32) returns (r: u32)
      modifies this
      ensures start > end ==> r == 0 && seed == old(seed)
      ensures start <= end ==> seed == NextSeed(old(seed)) && start <= r <= end
      ensures start <= end && end - start + 1 < WORD ==> r == start + seed % (end - start + 1)
    {
      if start > end {
        return 0;
      }
      seed := NextSeed(seed);
      var size := end - start + 1;
      if size < WORD {
        r := start + seed % size;
      } else {
        // The size wraps to 0 and the remainder by zero is the dividend.
        r := start + seed;
      }
    }
  }

  /** One step of the generator, `(A * seed + C) % M` with the product and
      sum wrapping at 32 bits: the seed stays below 2^31, and since 2^31
      divides 2^32 the wrap-around does not change the result. */
  function NextSeed(seed: u32): (s: u32)
    ensures s < RAND_M
    ensures s == (RAND_A * seed + RAND_C) % RAND_M
  {
    var x := RAND_A * seed + RAND_C;
    WrapThenReduce(x);
    (x % WORD) % RAND_M
  }

  /** Reducing modulo 2^32 before reducing modulo 2^31 changes nothing. */
  lemma WrapThenReduce(x: nat)
    ensures (x % WORD) % RAND_M == x % RAND_M
  {
    var q, r := x / WORD, x % WORD;
    var d, m := r / RAND_M, r % RAND_M;
    assert x == (2 * q + d) * RAND_M + m;
    DivModUnique(x, 2 * q + d, m);
  }

  /** Euclidean division by RAND_M has a unique quotient and remainder. */
  lemma DivModUnique(x: nat, d: nat, m: nat)
    requires m < RAND_M && x == d * RAND_M + m
    ensures x % RAND_M == m
  {
  }

  /** The mathematical factorial. */
  function Fact(n: nat): nat {
    if n <= 1 then 1 else n * Fact(n - 1)
  }

  /** factorial: the recursive product in unsigned 32-bit arithmetic. */
  function Factorial(n: u32): (r: u32)
  {
    if n <= 1 then 1 else (n * Factorial(n - 1)) % WORD
  }

  /** The 32-bit factorial is the true factorial reduced modulo 2^32. */
  lemma {:induction false} FactorialWraps(n: u32)
    ensures Factorial(n) == Fact(n) % WORD
  {
    if n > 1 {
      FactorialWraps(n - 1);
      MulMod(n, Fact(n - 1));
    }
  }

  lemma MulMod(a: nat, b: nat)
    ensures (a * (b % WORD)) % WORD == (a * b) % WORD
  {
    var q := b / WORD;
    assert b == q * WORD + b % WORD;
    assert a * b == a * (b % WORD) + (a * q) * WORD;
  }

  /** Up to 12! the result is exact; 13! no longer fits 32 bits. */
  lemma FactorialExactUpTo12(n: u32)
    requires n <= 12
    ensures Factorial(n) == Fact(n)
  {
    FactorialWraps(n);
    FactBelow12(n);
  }

  /** n! is at most 12! = 479001600 for n up to 12, which is below 2^32. */
  lemma FactBelow12(n: nat)
    requires n <= 12
    ensures Fact(n) <= 479001600
  {
    FactMonotone(n, 12);
    FactValue12();
  }

  /** The factorial never decreases. */
  lemma {:induction false} FactMonotone(a: nat, b: nat)
    requires a <= b
    ensures Fact(a) <= Fact(b)
    decreases b
  {
    if a < b {
      FactMonotone(a, b - 1);
      if b > 1 {
        assert Fact(b) == b * Fact(b - 1);
        ScaleUp(b, Fact(b - 1));
      }
    }
  }

  /** Multiplying by a positive factor does not decrease a natural. */
  lemma ScaleUp(b: nat, f: nat)
    requires b >= 1
    ensures f <= b * f
  {
  }

  lemma FactValue12()
    ensures Fact(12) == 479001600
  {
    assert Fact(2) == 2;
    assert Fact(3) == 6;
    assert Fact(4) == 24;
    assert Fact(5) == 120;
    assert Fact(6) == 720;
    assert Fact(7) == 5040;
    assert Fact(8) == 40320;
    assert Fact(9) == 362880;
    assert Fact(10) == 3628800;
    assert Fact(11) == 39916800;
  }

  /** 13! exceeds 2^32, so factorial(13) is not 13!. */
  lemma FactorialWrapsAt13()
    ensures Factorial(13) != Fact(13)
  {
    FactValue12();
    assert Fact(13) == 6227020800;
    FactorialWraps(13);
  }
}
