/**
 * Thread control blocks: creation of a thread with its initial register
 * frame, idle threads, killing a thread, opening a file into a thread's
 * descriptor table, and copying a thread.
 *
 * The collaborators outside this file (kernel stacks, the kernel heap, the
 * kernel vector, the system timer, `itoa`) are small stand-ins with simple
 * contracts: a stack is a sequence of pushed words, the heap only counts its
 * allocations, a vector is a sequence of descriptors with a capacity, and
 * the timer reading is a parameter.
 */
module Threads {
  import opened Wrappers
  import opened PidBitmap

  /** `KernelStatus`; `ERROR` stands for every status other than `OK`. */
  datatype KernelStatus = OK | ERROR

  /** `ThreadStatus`; a created thread is `THREAD_INITIAL`. */
  datatype ThreadStatus = THREAD_INITIAL | THREAD_RUNNING | THREAD_READY | THREAD_SUSPENDED | THREAD_EXIT

  /** A CPU placement: `INVALID_CPU`, or a CPU number. */
  datatype Cpu = INVALID_CPU | OnCpu(id: nat)

  /** A pointer field: `nullptr`, or the address of some node. */
  datatype Link = Null | At(address: nat)

  /** `ListNode` of an intrusive list. */
  datatype ListNode = ListNode(prev: Link, next: Link)

  /** Colour of a red-black tree node. */
  datatype Color = NODE_RED | NODE_BLACK

  /** `RBNode`, the thread's node in the scheduler's tree. */
  datatype RbNode = RbNode(parent: Link, left: Link, right: Link, color: Color)

  /** `VMMAssociatedSpace`: the section addresses of a thread. */
  datatype VmmSpace = VmmSpace(pageTableAddr: int, codeSectionAddr: int, roDataSectionAddr: int,
                               dataSectionAddr: int, bssSectionAddr: int)

  /** A `FileDescriptor`: the directory entry it refers to and the file
      position. */
  datatype FileDescriptor = FileDescriptor(directoryEntry: nat, pos: int)

  /** The initial processor status word pushed last: `0x600001d3`. */
  const INITIAL_CPSR: int := 0x600001d3

  /** The filler word for register `Rn`, `n` from 1 to 12: the two decimal
      digits of `n` as one byte, repeated in all four bytes (`0x12121212` for
      `R12`). */
  function RegisterFill(n: nat): (w: int)
    requires 1 <= n <= 12
    ensures 0 < w < 0x1_0000_0000
  {
    (n / 10 * 16 + n % 10) * 0x01010101
  }

  /** The sixteen words `thread_create` pushes onto a cleared stack, in push
      order: PC and LR both `entry`, the fillers of R12 down to R01, R00 =
      `arg`, then the status word. */
  function InitialFrame(entry: int, arg: int): (f: seq<int>)
    ensures |f| == 16
    ensures f[0] == entry && f[1] == entry
    ensures forall i :: 2 <= i < 14 ==> f[i] == RegisterFill(14 - i)
    ensures f[14] == arg && f[15] == INITIAL_CPSR
  {
    [entry, entry, 0x12121212, 0x11111111, 0x10101010, 0x09090909, 0x08080808, 0x07070707,
     0x06060606, 0x05050505, 0x04040404, 0x03030303, 0x02020202, 0x01010101, arg, 0x600001d3]
  }

  /** A kernel stack: the words pushed since the last clear, and whether it
      has been given back. */
  class KernelStack {
    var words: seq<int>
    var freed: bool

    constructor ()
      ensures words == [] && !freed
    {
      words := [];
      freed := false;
    }

    /** `operations.clear`. */
    method Clear()
      modifies this
      ensures words == [] && freed == old(freed)
    {
      words := [];
    }

    /** `operations.push`. */
    method Push(x: int)
      modifies this
      ensures words == old(words) + [x] && freed == old(freed)
    {
      words := words + [x];
    }

    /** Clears the stack and pushes the initial frame of a thread, one word
        at a time: the stack setup of `thread_create`. */
    method PushInitialFrame(entry: int, arg: int)
      modifies this
      ensures words == InitialFrame(entry, arg) && freed == old(freed)
    {
      Clear();
      PushUpper(entry);
      PushLower(arg);
      assert words == InitialFrame(entry, arg)[..8] + InitialFrame(entry, arg)[8..];
    }

    /** The first eight pushes: PC, LR and R12 down to R07. */
    method PushUpper(entry: int)
      modifies this
      ensures words == old(words) + InitialFrame(entry, 0)[..8] && freed == old(freed)
    {
      Push(entry);             // R15 PC
      Push(entry);             // R14 LR
      Push(0x12121212);        // R12
      Push(0x11111111);        // R11
      Push(0x10101010);        // R10
      Push(0x09090909);        // R09
      Push(0x08080808);        // R08
      Push(0x07070707);        // R07
    }

    /** The last eight pushes: R06 down to R00, then the status word. */
    method PushLower(arg: int)
      modifies this
      ensures words == old(words) + InitialFrame(0, arg)[8..] && freed == old(freed)
    {
      Push(0x06060606);        // R06
      Push(0x05050505);        // R05
      Push(0x04040404);        // R04
      Push(0x03030303);        // R03
      Push(0x02020202);        // R02
      Push(0x01010101);        // R01
      Push(arg);               // R00
      Push(INITIAL_CPSR);      // cpsr
    }

    /** `operations.free`. */
    method Free()
      modifies this
      ensures freed && words == old(words)
    {
      freed := true;
    }
  }

  /** A kernel vector of file descriptors. Adding to a full vector fails;
      the capacity is that of the vector `kvector_allocate` returns. */
  class KVector {
    var nodes: seq<FileDescriptor>
    const capacity: nat

    constructor (capacity: nat)
      ensures nodes == [] && this.capacity == capacity
    {
      nodes := [];
      this.capacity := capacity;
    }

    /** `kvector_add`. */
    method Add(fd: FileDescriptor) returns (status: KernelStatus)
      modifies this
      ensures old(|nodes|) < capacity ==> status == OK && nodes == old(nodes) + [fd]
      ensures old(|nodes|) >= capacity ==> status == ERROR && nodes == old(nodes)
    {
      if |nodes| < capacity {
        nodes := nodes + [fd];
        status := OK;
      } else {
        status := ERROR;
      }
    }
  }

  /** A thread control block, `struct Thread`. */
  class Thread {
    var magic: int
    var threadStatus: ThreadStatus
    var stack: KernelStack?
    var priority: int
    var currCpu: Cpu
    var lastCpu: Cpu
    /** Not written by `thread_create`, only by an idle thread's creation. */
    var cpuAffinity: nat
    var entry: int
    var runtimeNs: int
    var runtimVirtualNs: int
    var startTime: int
    var parentThread: Thread?
    var pid: nat
    var name: string
    var arg: int
    var vmmSpace: VmmSpace
    var threadList: ListNode
    var threadReadyQueue: ListNode
    var rbNode: RbNode
    var fileDescriptorTable: KVector?

    /** The scheduling fields `thread_create` gives a new thread. */
    ghost predicate ScheduledAs(entry: int, priority: int, magic: int, stack: KernelStack, startTime: int)
      reads this`magic, this`threadStatus, this`stack, this`priority, this`currCpu, this`lastCpu,
            this`entry, this`runtimeNs, this`runtimVirtualNs, this`startTime
    {
      && this.magic == magic && threadStatus == THREAD_INITIAL && this.stack == stack
      && this.priority == priority && currCpu == INVALID_CPU && lastCpu == INVALID_CPU
      && this.entry == entry && runtimeNs == 0 && runtimVirtualNs == 0 && this.startTime == startTime
    }

    /** The identity and link fields `thread_create` gives a new thread. */
    ghost predicate NamedAs(name: string, arg: int, pid: nat, table: KVector)
      reads this`parentThread, this`pid, this`name, this`arg, this`vmmSpace, this`threadList,
            this`threadReadyQueue, this`rbNode, this`fileDescriptorTable
    {
      && parentThread == null && this.pid == pid && this.name == name && this.arg == arg
      && vmmSpace == VmmSpace(0, 0, 0, 0, 0)
      && threadList == ListNode(Null, Null) && threadReadyQueue == ListNode(Null, Null)
      && rbNode == RbNode(Null, Null, Null, NODE_RED)
      && fileDescriptorTable == table
    }

    /** The field values `thread_create` gives a new thread with the given
        arguments, stack, start time, PID and descriptor table. */
    ghost predicate CreatedAs(name: string, entry: int, arg: int, priority: int, magic: int,
                              stack: KernelStack, startTime: int, pid: nat, table: KVector)
      reads this
    {
      ScheduledAs(entry, priority, magic, stack, startTime) && NamedAs(name, arg, pid, table)
    }

    /** The first group of field stores of `thread_create`: magic, status,
        stack, priority, CPUs, entry, runtimes and start time. */
    method FillSchedule(entry: int, priority: int, magic: int, stack: KernelStack, startTime: int)
      modifies this`magic, this`threadStatus, this`stack, this`priority, this`currCpu, this`lastCpu,
               this`entry, this`runtimeNs, this`runtimVirtualNs, this`startTime
      ensures ScheduledAs(entry, priority, magic, stack, startTime)
    {
      this.magic := magic;
      threadStatus := THREAD_INITIAL;
      this.stack := stack;
      this.priority := priority;
      currCpu := INVALID_CPU;
      lastCpu := INVALID_CPU;
      this.entry := entry;
      runtimeNs := 0;
      runtimVirtualNs := 0;
      this.startTime := startTime;
    }

    /** The second group of field stores of `thread_create`: parent, PID,
        name, argument, address space, list and tree links, and the
        descriptor table. */
    method FillIdentity(name: string, arg: int, pid: nat, table: KVector)
      modifies this`parentThread, this`pid, this`name, this`arg, this`vmmSpace, this`threadList,
               this`threadReadyQueue, this`rbNode, this`fileDescriptorTable
      ensures NamedAs(name, arg, pid, table)
    {
      parentThread := null;
      this.pid := pid;
      this.name := name;
      this.arg := arg;
      vmmSpace := VmmSpace(0, 0, 0, 0, 0);
      threadList := ListNode(Null, Null);
      threadReadyQueue := ListNode(Null, Null);
      rbNode := RbNode(Null, Null, Null, NODE_RED);
      fileDescriptorTable := table;
    }
  }

  /** A stack from `kstack_allocate`, cleared and holding the initial frame. */
  method NewStack(entry: int, arg: int) returns (s: KernelStack)
    ensures fresh(s) && s.words == InitialFrame(entry, arg) && !s.freed
  {
    s := new KernelStack();
    s.PushInitialFrame(entry, arg);
  }

  /** A thread record from the kernel heap holding the field values of a new
      thread, and a fresh, empty descriptor table from `kvector_allocate`. */
  method NewRecord(name: string, entry: int, arg: int, priority: int, magic: int,
                   stack: KernelStack, startTime: int, pid: nat, capacity: nat)
    returns (t: Thread)
    ensures fresh(t) && t.fileDescriptorTable != null && fresh(t.fileDescriptorTable)
    ensures t.CreatedAs(name, entry, arg, priority, magic, stack, startTime, pid, t.fileDescriptorTable)
    ensures t.fileDescriptorTable.nodes == [] && t.fileDescriptorTable.capacity == capacity
  {
    t := new Thread;
    t.FillSchedule(entry, priority, magic, stack, startTime);
    var table := new KVector(capacity);
    t.FillIdentity(name, arg, pid, table);
  }

  /** `thread_default_suspend`, a stub. */
  function DefaultSuspend(thread: Thread): KernelStatus { OK }
  /** `thread_default_resume`, a stub. */
  function DefaultResume(thread: Thread): KernelStatus { OK }
  /** `thread_default_sleep`, a stub. */
  function DefaultSleep(thread: Thread, deadline: nat): KernelStatus { OK }
  /** `thread_default_detach`, a stub. */
  function DefaultDetach(thread: Thread): KernelStatus { OK }
  /** `thread_default_join`, a stub. */
  function DefaultJoin(thread: Thread, deadline: nat): KernelStatus { OK }
  /** `thread_default_exit`, a stub. */
  function DefaultExit(thread: Thread, returnCode: nat): KernelStatus { OK }
  /** `thread_reschedule`, a stub. */
  function Reschedule(): KernelStatus { OK }

  /** The digits of `n` in base ten, most significant first, as `itoa(n, buf,
      10)` writes them. */
  function DecimalString(n: nat): (s: string)
    ensures 0 < |s|
    ensures forall i :: 0 <= i < |s| ==> '0' <= s[i] <= '9'
    ensures |s| > 1 ==> s[0] != '0'
    decreases n
  {
    if n < 10 then [Digit(n)] else DecimalString(n / 10) + [Digit(n % 10)]
  }

  /** The character of a decimal digit. */
  function Digit(d: nat): (c: char)
    requires d < 10
    ensures '0' <= c <= '9' && (c as int) - ('0' as int) == d
  {
    (('0' as int) + d) as char
  }

  /** The number a string of decimal digits denotes. */
  function ParseDecimal(s: string): nat
    requires forall i :: 0 <= i < |s| ==> '0' <= s[i] <= '9'
  {
    if |s| == 0 then 0 else 10 * ParseDecimal(s[..|s| - 1]) + ((s[|s| - 1] as int) - ('0' as int))
  }

  /** The decimal name of a CPU reads back as that CPU's number. */
  lemma {:induction false} DecimalRoundTrip(n: nat)
    ensures ParseDecimal(DecimalString(n)) == n
    decreases n
  {
    var s := DecimalString(n);
    if n >= 10 {
      DecimalRoundTrip(n / 10);
      assert s[..|s| - 1] == DecimalString(n / 10);
    }
  }

  /** Fewer than ten digits for numbers below 10^9, so the name fits the
      ten-byte buffer of `thread_create_idle_thread` with its terminator. */
  lemma {:induction false} DecimalLength(n: nat, k: nat)
    requires n < Pow10(k) && 0 < k
    ensures |DecimalString(n)| <= k
    decreases n
  {
    if n >= 10 {
      DecimalLength(n / 10, k - 1);
    }
  }

  /** `10^k`. */
  function Pow10(k: nat): (p: nat)
    ensures 0 < p
  {
    if k == 0 then 1 else 10 * Pow10(k - 1)
  }

  /** The globals and collaborators of the thread layer: the PID bitmap, the
      kernel heap's allocation count, the values of `THREAD_MAGIC` and
      `IDLE_PRIORITY`, the address of `idle_thread_routine`, and the
      capacity of a vector from `kvector_allocate`. */
  class ThreadSystem {
    const pids: PidMap
    var heapAllocations: nat
    const threadMagic: int
    const idlePriority: int
    const idleRoutine: int
    const tableCapacity: nat

    ghost predicate Valid()
      reads this
    {
      pids.words.Length == MAP_WORDS
    }

    constructor (threadMagic: int, idlePriority: int, idleRoutine: int, tableCapacity: nat)
      ensures Valid() && fresh(pids.words) && heapAllocations == 0
      ensures forall i :: 0 <= i < MAP_WORDS ==> pids.words[i] == 0
      ensures this.threadMagic == threadMagic && this.idlePriority == idlePriority
      ensures this.idleRoutine == idleRoutine && this.tableCapacity == tableCapacity
    {
      pids := new PidMap();
      heapAllocations := 0;
      this.threadMagic := threadMagic;
      this.idlePriority := idlePriority;
      this.idleRoutine := idleRoutine;
      this.tableCapacity := tableCapacity;
    }

    /** `thread_create(name, entry, arg, priority)`. `stackAvailable` is
        whether `kstack_allocate` returns a stack, and `now` is the reading of
        `ktimer_sys_runtime`. Without a stack nothing changes and the result
        is null. Otherwise the fresh stack holds the initial frame, one heap
        allocation holds the new thread, and the lowest free PID is claimed
        for it; the source reads a PID even when none is free, so a caller
        with a stack must leave one free. The PID is drawn before the record's
        fields are stored rather than among them: the two touch disjoint
        state. */
    method CreateThread(name: string, entry: int, arg: int, priority: int,
                        stackAvailable: bool, now: int) returns (t: Thread?)
      requires Valid()
      requires stackAvailable ==> LowestFree(pids.words[..], 0).Some?
      modifies this, pids.words
      ensures Valid()
      ensures !stackAvailable ==> t == null && heapAllocations == old(heapAllocations)
                                  && pids.words[..] == old(pids.words[..])
      ensures stackAvailable ==> t != null && fresh(t) && t.stack != null && fresh(t.stack)
      ensures stackAvailable ==> t.fileDescriptorTable != null && fresh(t.fileDescriptorTable)
      ensures stackAvailable ==>
        var p := LowestFree(old(pids.words[..]), 0).value;
        && t.CreatedAs(name, entry, arg, priority, threadMagic, t.stack, now, p, t.fileDescriptorTable)
        && t.stack.words == InitialFrame(entry, arg) && !t.stack.freed
        && t.fileDescriptorTable.nodes == [] && t.fileDescriptorTable.capacity == tableCapacity
        && pids.words[..] == Claim(old(pids.words[..]), p)
        && heapAllocations == old(heapAllocations) + 1
    {
      if !stackAvailable {
        return null;
      }
      var kernelStack := NewStack(entry, arg);
      heapAllocations := heapAllocations + 1;
      var pid := pids.AllocPid();
      t := NewRecord(name, entry, arg, priority, threadMagic, kernelStack, now, pid.value, tableCapacity);
    }

    /** `thread_create_idle_thread(cpuNum)`: a thread running
        `idle_thread_routine` with argument `cpuNum` and priority
        `IDLE_PRIORITY`, pinned to `cpuNum`, with PID 0 and the decimal
        number of the CPU as its name. The PID the inner `thread_create` drew
        stays set in the bitmap. The source uses the result of
        `thread_create` without a null check, so the stack must be
        available, and the name buffer holds nine digits and the
        terminator, so `cpuNum` is below 10^9. */
    method CreateIdleThread(cpuNum: nat, stackAvailable: bool, now: int) returns (t: Thread)
      requires Valid() && cpuNum < 1_000_000_000
      requires stackAvailable && LowestFree(pids.words[..], 0).Some?
      modifies this, pids.words
      ensures Valid() && fresh(t) && t.stack != null && fresh(t.stack)
      ensures t.fileDescriptorTable != null && fresh(t.fileDescriptorTable)
      ensures t.pid == 0 && t.cpuAffinity == cpuNum && t.priority == idlePriority
      ensures t.name == DecimalString(cpuNum) && |t.name| < 10
      ensures t.entry == idleRoutine && t.arg == cpuNum && t.threadStatus == THREAD_INITIAL
      ensures t.stack.words == InitialFrame(idleRoutine, cpuNum) && !t.stack.freed
      ensures t.CreatedAs(DecimalString(cpuNum), idleRoutine, cpuNum, idlePriority, threadMagic,
                          t.stack, now, 0, t.fileDescriptorTable)
      ensures t.fileDescriptorTable.nodes == [] && t.fileDescriptorTable.capacity == tableCapacity
      ensures pids.words[..] == Claim(old(pids.words[..]), LowestFree(old(pids.words[..]), 0).value)
      ensures heapAllocations == old(heapAllocations) + 1
    {
      t := CreateThread("IDLE", idleRoutine, cpuNum, idlePriority, stackAvailable, now);
      t.cpuAffinity := cpuNum;
      t.pid := 0;
      DecimalLength(cpuNum, 9);
      t.name := DecimalString(cpuNum);
    }

    /** `thread_default_kill`: flips the thread's PID bit and frees its
        stack. The thread record and its descriptor table stay allocated. */
    method Kill(thread: Thread) returns (status: KernelStatus)
      requires Valid() && thread.stack != null && thread.pid / BITS_IN_UINT32 < MAP_WORDS
      modifies pids.words, thread.stack
      ensures Valid() && status == OK
      ensures pids.words[..] == Toggle(old(pids.words[..]), thread.pid)
      ensures thread.stack.freed && thread.stack.words == old(thread.stack.words)
    {
      pids.FreePid(thread.pid);
      thread.stack.Free();
      return OK;
    }

    /** `filestruct_default_openfile`: allocates a descriptor for
        `directoryEntry` at position 0 and adds it to the thread's table.
        On success the result is the index of the new descriptor, the last
        one; when the add fails the result is 0 and the table is unchanged.
        The heap allocation happens, and is not given back, either way. */
    method OpenFile(thread: Thread, directoryEntry: nat) returns (fd: nat)
      requires thread.fileDescriptorTable != null
      modifies this, thread.fileDescriptorTable
      ensures heapAllocations == old(heapAllocations) + 1
      ensures var table := thread.fileDescriptorTable;
        if old(|table.nodes|) < table.capacity then
          && table.nodes == old(table.nodes) + [FileDescriptor(directoryEntry, 0)]
          && fd == |table.nodes| - 1
          && table.nodes[fd] == FileDescriptor(directoryEntry, 0)
        else
          table.nodes == old(table.nodes) && fd == 0
    {
      heapAllocations := heapAllocations + 1;
      var descriptor := FileDescriptor(directoryEntry, 0);
      var status := thread.fileDescriptorTable.Add(descriptor);
      if status != OK {
        return 0;
      }
      return |thread.fileDescriptorTable.nodes| - 1;
    }

    /** `thread_default_copy`: a new thread created, as by `thread_create`,
        with the name, entry, argument and priority of `thread`; the clone
        flags change nothing. */
    method Copy(thread: Thread, cloneFlags: nat, heapStart: nat, stackAvailable: bool, now: int)
      returns (p: Thread?)
      requires Valid()
      requires stackAvailable ==> LowestFree(pids.words[..], 0).Some?
      modifies this, pids.words
      ensures Valid()
      ensures !stackAvailable ==> p == null && heapAllocations == old(heapAllocations)
                                  && pids.words[..] == old(pids.words[..])
      ensures stackAvailable ==> p != null && fresh(p) && p != thread && p.stack != null && fresh(p.stack)
      ensures stackAvailable ==> p.fileDescriptorTable != null && fresh(p.fileDescriptorTable)
      ensures stackAvailable ==>
        && p.CreatedAs(old(thread.name), old(thread.entry), old(thread.arg), old(thread.priority),
                       threadMagic, p.stack, now, p.pid, p.fileDescriptorTable)
        && p.stack.words == InitialFrame(old(thread.entry), old(thread.arg)) && !p.stack.freed
        && p.fileDescriptorTable.nodes == [] && p.fileDescriptorTable.capacity == tableCapacity
        && p.pid == LowestFree(old(pids.words[..]), 0).value
        && pids.words[..] == Claim(old(pids.words[..]), p.pid)
        && heapAllocations == old(heapAllocations) + 1
    {
      p := CreateThread(thread.name, thread.entry, thread.arg, thread.priority, stackAvailable, now);
    }
  }

  /** A thread killed right after its creation leaves the PID bitmap as it
      was before the creation. */
  lemma CreateThenKill(before: seq<Word>)
    requires SCANNED_WORDS <= |before| && LowestFree(before, 0).Some?
    ensures var p := LowestFree(before, 0).value;
      p / 32 < |before| && Toggle(Claim(before, p), p) == before
  {
    FreeUndoesClaim(before, LowestFree(before, 0).value);
  }
}
