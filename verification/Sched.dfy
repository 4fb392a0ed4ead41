/** The cooperative round-robin scheduler: a circular queue of tasks, switched only by explicit yields. */
module Scheduling {
  import opened Bits
  import opened PhysicalMemory
  import opened ContextSwitch
  import opened TaskRuns

  ghost function EntryOf(t: Task): Entry
    reads t
  {
    Entry(t.rsp, t.stack, t.id, t.state)
  }

  ghost function Entries(ring: seq<Task>): (s: seq<Entry>)
    reads ring
    ensures |s| == |ring|
  {
    seq(|ring|, i requires 0 <= i < |ring| reads ring => EntryOf(ring[i]))
  }

  ghost predicate Distinct(ring: seq<Task>) {
    forall i, j :: 0 <= i < j < |ring| ==> ring[i] != ring[j]
  }

  /** The links lead once around all tasks and back to the first. */
  ghost predicate Circular(ring: seq<Task>)
    reads ring
  {
    forall i :: 0 <= i < |ring| ==> ring[i].next == ring[if i + 1 < |ring| then i + 1 else 0]
  }

  function Rotated<T>(s: seq<T>): (r: seq<T>)
    requires s != []
    ensures |r| == |s| && forall i :: 0 <= i < |s| ==> r[i] == s[if i + 1 < |s| then i + 1 else 0]
  {
    s[1..] + [s[0]]
  }

  /** The task after the running one is the running one just when it is alone. */
  lemma AloneIff(ring: seq<Task>)
    requires ring != [] && Distinct(ring) && Circular(ring)
    ensures ring[0].next == ring[if |ring| > 1 then 1 else 0]
    ensures ring[0].next == ring[0] <==> |ring| == 1
  {
  }

  lemma RotatedRing(ring: seq<Task>)
    requires ring != [] && Distinct(ring) && Circular(ring)
    ensures Distinct(Rotated(ring)) && Circular(Rotated(ring))
  {
    var r, n := Rotated(ring), |ring|;
    forall i, j | 0 <= i < j < n ensures r[i] != r[j] {
      if j == n - 1 { assert ring[0] != ring[i + 1]; }
    }
    forall i | 0 <= i < n ensures r[i].next == r[if i + 1 < n then i + 1 else 0] {
    }
  }

  lemma LinksOn(ring: seq<Task>, k: nat)
    requires Distinct(ring) && Circular(ring) && k < |ring|
    ensures k + 1 < |ring| ==> ring[k].next == ring[k + 1] && ring[k + 1] != ring[0]
  {
  }

  /** The call's own push of the return address is the first word of the frozen context. */
  lemma CallThenFrozen(w: Ram, c: Cpu)
    ensures Frozen(Store(w, c.rsp - 8, c.rip), c) == Frozen(w, c)
    ensures Load(Store(w, c.rsp - 8, c.rip), c.rsp - 8) == c.rip
    ensures c.rsp - 8 in Store(w, c.rsp - 8, c.rip)
  {
  }

  twostate lemma LinksStay(ring: seq<Task>)
    requires old(Circular(ring)) && forall t :: t in ring ==> t.next == old(t.next)
    ensures Circular(ring)
  {
    assert forall i :: 0 <= i < |ring| ==> ring[i] in ring;
  }

  lemma EntryAt(ring: seq<Task>, i: nat)
    requires i < |ring|
    ensures Entries(ring)[i] == EntryOf(ring[i])
  {
  }

  /** The queue after a switch: the next task runs, and the one that ran is last, ready, where it stopped. */
  twostate lemma TurnedEntries(ring: seq<Task>)
    requires |ring| > 1 && Distinct(ring)
    requires ring[0].stack == old(ring[0].stack) && ring[0].id == old(ring[0].id) && ring[0].state == Ready
    requires EntryOf(ring[1]) == old(EntryOf(ring[1])).(state := Running)
    requires forall i :: 2 <= i < |ring| ==> EntryOf(ring[i]) == old(EntryOf(ring[i]))
    ensures var e := old(Entries(ring));
      Entries(Rotated(ring)) == [e[1].(state := Running)] + e[2..] + [e[0].(rsp := ring[0].rsp, state := Ready)]
  {
  }

  lemma SixteenIsPow2()
    ensures Pow2(4) == 16
  {
  }

  lemma TopIs(base: nat)
    requires base + STACK_SIZE < Pow2(64)
    ensures Pow2(64) >= 16 && And(base + STACK_SIZE, Pow2(64) - 16) == Top(base) >= 64
  {
    SixteenIsPow2();
    hide And, Pow2;
    AndHighMask(base + STACK_SIZE, 4, 64);
    TopBounds(base);
  }

  lemma ForgedBySteps(w: Ram, entry: int, trampoline: int, base: int)
    ensures var top := Top(base);
      Store(Store(Store(Store(Store(Store(Store(Store(w, top - 8, trampoline), top - 16, entry), top - 24, 0),
            top - 32, 0), top - 40, 0), top - 48, 0), top - 56, 0), top - 64, 0) == Forged(w, entry, trampoline, base)
  {
  }

  class Scheduler {
    const cpu: Processor
    var current: Task
    var nextId: nat
    /** The queue in the order it will run, the running task first. */
    ghost var ring: seq<Task>

    ghost function View(): State
      reads this, cpu, cpu.memory, ring
    {
      State(cpu.Now(), cpu.memory.w, Entries(ring), nextId)
    }

    ghost predicate Valid()
      reads this, cpu, cpu.memory, ring
    {
      ring != [] && current == ring[0] && Distinct(ring) && Circular(ring) && nextId < ID_LIMIT && Ok(View())
    }

    /** Adopt the flow that is running, on the stack it already has, as the only task. */
    constructor (cpu: Processor, ghost boot: Extent)
      requires OnStack(cpu.Now(), boot)
      ensures Valid() && this.cpu == cpu && fresh(current) && ring == [current]
      ensures View() == State(cpu.Now(), cpu.memory.w, [Entry(0, boot, 0, Running)], 1)
    {
      this.cpu := cpu;
      nextId := 0;
      var t := new Task(0, 0, 0, Running, boot);
      current := t;
      ring := [t];
      new;
      nextId := nextId + 1;
    }

    /** Give the processor to the next task in the queue; nothing happens when there is no other. The
        call to the switch pushes `site`, the address to come back to. On exit the next task runs. */
    method Yield(site: int)
      requires Valid() && Legal(View(), TaskRuns.Yield(site))
      modifies this, cpu, cpu.memory, ring
      ensures Valid() && View() == Step(old(View()), TaskRuns.Yield(site))
      ensures ring == Rotated(old(ring))
      ensures |old(ring)| == 1 ==> cpu.Now() == old(cpu.Now()) && cpu.memory.w == old(cpu.memory.w)
    {
      hide Circular, Frozen, Thawed, Ok, Legal, Load, Store, Entries;
      ghost var was := View();
      AloneIff(ring);
      YieldKeeps(was, site);
      if |ring| == 1 { AloneStays(was, site); }
      var prev := current;
      var next := prev.next;
      if next == prev {
        assert Rotated(ring) == ring;
        return;
      }
      EntryAt(ring, 1);
      prev.state := Ready;
      next.state := Running;
      current := next;
      CallThenFrozen(was.w, was.cpu.(rip := site));
      cpu.Push(site);
      cpu.ContextSwitch(prev, next.rsp);
      LinksStay(ring);
      RotatedRing(ring);
      TurnedEntries(ring);
      ring := Rotated(ring);
    }

    /** The running task computes: it may change any memory but the other tasks' stacks. */
    method Compute(w: Ram)
      requires Valid() && Legal(View(), TaskRuns.Compute(cpu.Now(), w))
      modifies cpu.memory
      ensures Valid() && View() == Step(old(View()), TaskRuns.Compute(cpu.Now(), w))
    {
      hide Distinct, Circular, Legal, Entries;
      StepKeeps(View(), TaskRuns.Compute(cpu.Now(), w));
      cpu.memory.w := w;
      LinksStay(ring);
    }

    /** A task for `entry`. `node` and `base` are what the heap answered: whether it gave a task
        structure, and where the stack is (0 for none). Without both, no task is made and a structure
        already obtained goes back. */
    method TaskCreate(entry: int, trampoline: int, node: bool, base: nat) returns (t: Task?, freed: bool)
      requires Valid() && base + STACK_SIZE < Pow2(64)
      requires node && base != 0 ==> Legal(View(), Create(entry, trampoline, base))
      modifies this, cpu.memory, ring
      ensures Valid() && cpu.Now() == old(cpu.Now())
      ensures t == null <==> !node || base == 0
      ensures t == null ==> View() == old(View()) && ring == old(ring) && freed == node
      ensures t != null ==> !freed && fresh(t) && ring == old(ring) + [t] && t.stackBase == base
      ensures t != null ==> View() == Step(old(View()), Create(entry, trampoline, base))
    {
      freed := false;
      if !node {
        return null, freed;
      }
      if base == 0 {
        freed := true;
        return null, freed;
      }
      hide Distinct, Circular, Forged, Ok, Legal, Entries, Top;
      t := Build(entry, trampoline, base);
    }

    /** The task itself, once there is a structure and a stack for it. */
    method Build(entry: int, trampoline: int, base: nat) returns (t: Task)
      requires Valid() && base + STACK_SIZE < Pow2(64) && Legal(View(), Create(entry, trampoline, base))
      modifies this, cpu.memory, ring
      ensures Valid() && fresh(t) && ring == old(ring) + [t] && t.stackBase == base
      ensures View() == Step(old(View()), Create(entry, trampoline, base))
    {
      hide Distinct, Circular, Forged, Ok, Legal, Entries, Top, And, Pow2;
      CreateKeeps(View(), entry, trampoline, base);
      var sp := Forge(entry, trampoline, base);
      t := new Task(sp, base, nextId, Ready, StackAt(base));
      nextId := (nextId + 1) % ID_LIMIT;
      Append(t);
    }

    /** Write the frame the first switch will pop; returns where it starts. */
    method Forge(entry: int, trampoline: int, base: nat) returns (sp: int)
      requires base + STACK_SIZE < Pow2(64)
      modifies cpu.memory
      ensures cpu.memory.w == Forged(old(cpu.memory.w), entry, trampoline, base) && sp == Top(base) - 64
    {
      hide Forged, Store, Top, And, Pow2;
      ghost var start := cpu.memory.w;
      TopIs(base);
      ForgedBySteps(start, entry, trampoline, base);
      var top := And(base + STACK_SIZE, Pow2(64) - 16);
      sp := top;
      sp := sp - 8;
      cpu.memory.w := Store(cpu.memory.w, sp, trampoline);
      sp := sp - 8;
      cpu.memory.w := Store(cpu.memory.w, sp, entry);
      sp := sp - 8;
      cpu.memory.w := Store(cpu.memory.w, sp, 0);
      sp := sp - 8;
      cpu.memory.w := Store(cpu.memory.w, sp, 0);
      sp := sp - 8;
      cpu.memory.w := Store(cpu.memory.w, sp, 0);
      sp := sp - 8;
      cpu.memory.w := Store(cpu.memory.w, sp, 0);
      sp := sp - 8;
      cpu.memory.w := Store(cpu.memory.w, sp, 0);
      sp := sp - 8;
      cpu.memory.w := Store(cpu.memory.w, sp, 0);
    }

    /** Walk to the task that links back to the running one and put t after it. */
    method Append(t: Task)
      requires ring != [] && current == ring[0] && Distinct(ring) && Circular(ring) && t !in ring
      modifies this`ring, ring, t`next
      ensures ring == old(ring) + [t] && Distinct(ring) && Circular(ring)
      ensures Entries(ring) == old(Entries(ring)) + [old(EntryOf(t))]
    {
      ghost var k := 0;
      var tail := current;
      while tail.next != current
        invariant 0 <= k < |ring| && tail == ring[k]
        decreases |ring| - k
        modifies {}
      {
        tail := tail.next;
        k := k + 1;
      }
      LinksOn(ring, k);
      tail.next := t;
      t.next := current;
      ring := ring + [t];
    }
  }
}
