/** The machine half of a task switch: push six registers, exchange stack pointers, pop six, return. */
module ContextSwitch {
  import opened PhysicalMemory

  /** The registers the System V AMD64 ABI (section 3.2.1) makes a called function preserve, rsp aside. */
  datatype Regs = Regs(rbp: int, rbx: int, r12: int, r13: int, r14: int, r15: int)

  /** All a task suspended inside a function call needs to go on: where it was and what it held. */
  datatype Cpu = Cpu(rsp: int, rip: int, regs: Regs)

  /** The context that popping six registers and returning at rsp brings back. */
  function Thawed(w: Ram, rsp: int): Cpu {
    Cpu(rsp + 56, Load(w, rsp + 48),
        Regs(Load(w, rsp + 40), Load(w, rsp + 32), Load(w, rsp + 24), Load(w, rsp + 16), Load(w, rsp + 8),
             Load(w, rsp)))
  }

  /** Memory once a call from context c to the switch has saved c below its stack pointer. */
  function Frozen(w: Ram, c: Cpu): Ram {
    w[c.rsp - 8 := c.rip][c.rsp - 16 := c.regs.rbp][c.rsp - 24 := c.regs.rbx][c.rsp - 32 := c.regs.r12]
     [c.rsp - 40 := c.regs.r13][c.rsp - 48 := c.regs.r14][c.rsp - 56 := c.regs.r15]
  }

  /** Saving and bringing back are inverse: the stack pointer and every register return to what they were. */
  lemma ThawFrozen(w: Ram, c: Cpu)
    ensures Thawed(Frozen(w, c), c.rsp - 56) == c
  {
    FrameLayout(w, c);
  }

  /** Saving writes nothing but the seven words below the stack pointer. */
  lemma FrozenBelow(w: Ram, c: Cpu, a: int)
    requires a < c.rsp - 56 || c.rsp <= a
    ensures Load(Frozen(w, c), a) == Load(w, a)
  {
  }

  /** The saved frame, word by word from the stack pointer down: the return address and the six registers in
      the order the switch pushes them. */
  lemma FrameLayout(w: Ram, c: Cpu)
    ensures var f := Frozen(w, c);
      && Load(f, c.rsp - 8) == c.rip && Load(f, c.rsp - 16) == c.regs.rbp && Load(f, c.rsp - 24) == c.regs.rbx
      && Load(f, c.rsp - 32) == c.regs.r12 && Load(f, c.rsp - 40) == c.regs.r13
      && Load(f, c.rsp - 48) == c.regs.r14 && Load(f, c.rsp - 56) == c.regs.r15
  {
  }

  datatype TaskState = Ready | Running

  /** Bytes [lo, hi) of memory. */
  datatype Extent = Extent(lo: int, hi: int)

  /** One task's bookkeeping and its link in the run queue. */
  class Task {
    var rsp: int
    var stackBase: int
    var id: nat
    var state: TaskState
    var next: Task
    /** The memory this task's stack may occupy. */
    ghost var stack: Extent

    constructor (rsp: int, stackBase: int, id: nat, state: TaskState, ghost stack: Extent)
      ensures this.rsp == rsp && this.stackBase == stackBase && this.id == id && this.state == state
      ensures this.stack == stack && next == this
    {
      this.rsp, this.stackBase, this.id, this.state, this.stack := rsp, stackBase, id, state, stack;
      next := this;
    }
  }

  /** The registers that matter across a switch, over one memory of words. */
  class Processor {
    var rsp: int
    var rip: int
    var rbp: int
    var rbx: int
    var r12: int
    var r13: int
    var r14: int
    var r15: int
    const memory: Memory

    constructor (c: Cpu, memory: Memory)
      ensures Now() == c && this.memory == memory
    {
      rsp, rip := c.rsp, c.rip;
      rbp, rbx, r12 := c.regs.rbp, c.regs.rbx, c.regs.r12;
      r13, r14, r15 := c.regs.r13, c.regs.r14, c.regs.r15;
      this.memory := memory;
    }

    function Now(): Cpu
      reads this
    {
      Cpu(rsp, rip, Regs(rbp, rbx, r12, r13, r14, r15))
    }

    method Push(v: int)
      modifies this`rsp, memory
      ensures rsp == old(rsp) - 8 && memory.w == Store(old(memory.w), old(rsp) - 8, v)
    {
      rsp := rsp - 8;
      memory.w := Store(memory.w, rsp, v);
    }

    method Pop() returns (v: int)
      modifies this`rsp
      ensures rsp == old(rsp) + 8 && v == Load(memory.w, old(rsp))
    {
      v := Load(memory.w, rsp);
      rsp := rsp + 8;
    }

    /** Entered by a call, so with the caller's return address on top of the stack. Leaves the caller's
        context frozen, notes where in its task, and goes on with the context frozen at newRsp. */
    method ContextSwitch(prev: Task, newRsp: int)
      requires rsp in memory.w
      modifies this, memory, prev`rsp
      ensures memory.w == Frozen(old(memory.w), old(Caller())) && prev.rsp == old(Caller()).rsp - 56
      ensures Now() == Thawed(memory.w, newRsp)
    {
      SaveRegisters();
      prev.rsp := rsp;
      rsp := newRsp;
      RestoreRegisters();
    }

    method SaveRegisters()
      requires rsp in memory.w
      modifies this`rsp, memory
      ensures memory.w == Frozen(old(memory.w), old(Caller())) && rsp == old(Caller()).rsp - 56
    {
      hide Store, Load, Frozen;
      ghost var c, start := Caller(), memory.w;
      Push(rbp);
      Push(rbx);
      Push(r12);
      Push(r13);
      Push(r14);
      Push(r15);
      FrozenBySteps(start, c);
    }

    method RestoreRegisters()
      modifies this
      ensures Now() == Thawed(memory.w, old(rsp))
    {
      hide Load;
      r15 := Pop();
      r14 := Pop();
      r13 := Pop();
      r12 := Pop();
      rbx := Pop();
      rbp := Pop();
      rip := Pop();
    }

    /** The context that made the call now being served. */
    ghost function Caller(): Cpu
      reads this, memory
    {
      Cpu(rsp + 8, Load(memory.w, rsp), Regs(rbp, rbx, r12, r13, r14, r15))
    }
  }

  /** Six pushes below a return address already in memory make a frozen context. */
  lemma FrozenBySteps(w: Ram, c: Cpu)
    requires c.rsp - 8 in w && Load(w, c.rsp - 8) == c.rip
    ensures Store(Store(Store(Store(Store(Store(w, c.rsp - 16, c.regs.rbp), c.rsp - 24, c.regs.rbx),
                  c.rsp - 32, c.regs.r12), c.rsp - 40, c.regs.r13), c.rsp - 48, c.regs.r14), c.rsp - 56, c.regs.r15) ==
      Frozen(w, c)
  {
    assert w[c.rsp - 8 := c.rip] == w;
  }
}
