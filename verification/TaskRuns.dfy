/** Whole runs of tasks that compute, create tasks and yield, on values: who runs when, and with what. */
module TaskRuns {
  import opened PhysicalMemory
  import opened ContextSwitch

  const STACK_SIZE := 16384
  const ID_LIMIT := 0x1_0000_0000

  /** One entry of the run queue; `rsp` means something only while the task is not running. */
  datatype Entry = Entry(rsp: int, stack: Extent, id: nat, state: TaskState)

  /** The queue is read in the order it will run; its first entry is the running task. */
  datatype State = State(cpu: Cpu, w: Ram, ring: seq<Entry>, nextId: nat)

  /** Between yields a task may leave any registers and change any memory but the other tasks' stacks. */
  datatype Op =
    | Compute(cpu: Cpu, w: Ram)
    | Create(entry: int, trampoline: int, base: int)
    | Yield(site: int)

  predicate Apart(x: Extent, y: Extent) {
    x.hi <= y.lo || y.hi <= x.lo
  }

  predicate StacksApart(ring: seq<Entry>) {
    forall i, j :: 0 <= i < j < |ring| ==> Apart(ring[i].stack, ring[j].stack)
  }

  /** A suspended task's frame of seven words lies inside its stack. */
  predicate Suspended(e: Entry) {
    e.state == Ready && e.rsp % 8 == 0 && e.stack.lo <= e.rsp && e.rsp + 56 <= e.stack.hi
  }

  predicate OnStack(c: Cpu, x: Extent) {
    c.rsp % 8 == 0 && x.lo <= c.rsp <= x.hi
  }

  predicate Ok(s: State) {
    && s.ring != [] && s.ring[0].state == Running && OnStack(s.cpu, s.ring[0].stack)
    && (forall i :: 1 <= i < |s.ring| ==> Suspended(s.ring[i]))
    && StacksApart(s.ring)
  }

  ghost predicate SameIn(w: Ram, after: Ram, x: Extent) {
    forall a :: x.lo <= a < x.hi ==> Load(after, a) == Load(w, a)
  }

  /** What the tasks owe each other. */
  ghost predicate Legal(s: State, op: Op)
    requires s.ring != []
  {
    match op
    case Compute(cpu, w) =>
      OnStack(cpu, s.ring[0].stack) && forall i :: 1 <= i < |s.ring| ==> SameIn(s.w, w, s.ring[i].stack)
    case Create(_, _, base) =>
      base >= 0 && forall i :: 0 <= i < |s.ring| ==> Apart(StackAt(base), s.ring[i].stack)
    case Yield(_) =>
      |s.ring| > 1 ==> s.ring[0].stack.lo + 56 <= s.cpu.rsp
  }

  function StackAt(base: int): Extent {
    Extent(base, base + STACK_SIZE)
  }

  /** The end of the stack, aligned down as the ABI wants it. */
  function Top(base: int): int {
    (base + STACK_SIZE) - (base + STACK_SIZE) % 16
  }

  /** The context a created task starts with. */
  function Fresh(entry: int, base: int): Cpu {
    Cpu(Top(base) - 8, entry, Regs(0, 0, 0, 0, 0, 0))
  }

  function Forged(w: Ram, entry: int, trampoline: int, base: int): Ram {
    Frozen(w[Top(base) - 8 := trampoline], Fresh(entry, base))
  }

  function Step(s: State, op: Op): State {
    match op
    case Compute(cpu, w) => s.(cpu := cpu, w := w)
    case Create(entry, trampoline, base) =>
      s.(w := Forged(s.w, entry, trampoline, base),
         ring := s.ring + [Entry(Top(base) - 64, StackAt(base), s.nextId, Ready)],
         nextId := (s.nextId + 1) % ID_LIMIT)
    case Yield(site) =>
      if |s.ring| <= 1 then s
      else
        var w := Frozen(s.w, s.cpu.(rip := site));
        State(Thawed(w, s.ring[1].rsp), w,
              [s.ring[1].(state := Running)] + s.ring[2..] + [s.ring[0].(rsp := s.cpu.rsp - 56, state := Ready)],
              s.nextId)
  }

  function Run(s: State, ops: seq<Op>): State
    decreases |ops|
  {
    if ops == [] then s else Run(Step(s, ops[0]), ops[1..])
  }

  ghost predicate LegalRun(s: State, ops: seq<Op>)
    decreases |ops|
  {
    ops == [] || (s.ring != [] && Legal(s, ops[0]) && LegalRun(Step(s, ops[0]), ops[1..]))
  }

  function Yields(ops: seq<Op>): nat {
    if ops == [] then 0 else (if ops[0].Yield? then 1 else 0) + Yields(ops[1..])
  }

  function Creates(ops: seq<Op>): nat {
    if ops == [] then 0 else (if ops[0].Create? then 1 else 0) + Creates(ops[1..])
  }

  // ---- one step ------------------------------------------------------------------------------

  lemma RotatedApart(ring: seq<Entry>, t: seq<Entry>)
    requires StacksApart(ring) && |t| == |ring| > 1 && t[|ring| - 1].stack == ring[0].stack
    requires forall i :: 0 <= i < |ring| - 1 ==> t[i].stack == ring[i + 1].stack
    ensures StacksApart(t)
  {
    forall i, j | 0 <= i < j < |t| ensures Apart(t[i].stack, t[j].stack) {
      assert t[i].stack == ring[i + 1].stack;
      if j == |t| - 1 {
        assert Apart(ring[0].stack, ring[i + 1].stack);
      } else {
        assert Apart(ring[i + 1].stack, ring[j + 1].stack);
      }
    }
  }

  /** Switching out and in keeps both stack pointers where they belong. */
  lemma YieldKeeps(s: State, site: int)
    requires Ok(s) && Legal(s, Yield(site))
    ensures Ok(Step(s, Yield(site)))
  {
    hide Apart, StacksApart, Frozen;
    if |s.ring| > 1 {
      var t := Step(s, Yield(site)).ring;
      assert forall i :: 1 <= i < |t| - 1 ==> t[i] == s.ring[i + 1];
      RotatedApart(s.ring, t);
    }
  }

  lemma TopBounds(base: int)
    ensures Top(base) % 16 == 0 && base + STACK_SIZE - 16 < Top(base) <= base + STACK_SIZE
  {
  }

  lemma AppendedApart(ring: seq<Entry>, e: Entry)
    requires StacksApart(ring) && forall i :: 0 <= i < |ring| ==> Apart(e.stack, ring[i].stack)
    ensures StacksApart(ring + [e])
  {
  }

  /** A created task's frame lies in its own stack, apart from all others. */
  lemma CreatedIsSuspended(base: int, id: nat)
    requires base >= 0
    ensures Suspended(Entry(Top(base) - 64, StackAt(base), id, Ready))
  {
    hide Top;
    TopBounds(base);
  }

  lemma CreateKeeps(s: State, entry: int, trampoline: int, base: int)
    requires Ok(s) && Legal(s, Create(entry, trampoline, base))
    ensures Ok(Step(s, Create(entry, trampoline, base)))
  {
    hide Forged, Top, Apart, StacksApart, Suspended, StackAt;
    CreatedIsSuspended(base, s.nextId);
    AppendedApart(s.ring, Entry(Top(base) - 64, StackAt(base), s.nextId, Ready));
  }

  lemma StepKeeps(s: State, op: Op)
    requires Ok(s) && Legal(s, op)
    ensures Ok(Step(s, op))
  {
    match op
    case Compute(_, _) =>
    case Create(entry, trampoline, base) => CreateKeeps(s, entry, trampoline, base);
    case Yield(site) => YieldKeeps(s, site);
  }

  lemma FrozenKeeps(w: Ram, c: Cpu, x: Extent, mine: Extent)
    requires Apart(x, mine) && mine.lo + 56 <= c.rsp <= mine.hi
    ensures SameIn(w, Frozen(w, c), x)
  {
    hide Frozen, Load;
    forall a | x.lo <= a < x.hi ensures Load(Frozen(w, c), a) == Load(w, a) {
      FrozenBelow(w, c, a);
    }
  }

  lemma ForgedKeeps(w: Ram, entry: int, trampoline: int, base: int, x: Extent)
    requires Apart(StackAt(base), x)
    ensures SameIn(w, Forged(w, entry, trampoline, base), x)
  {
    hide Frozen;
    var w1 := w[Top(base) - 8 := trampoline];
    FrozenKeeps(w1, Fresh(entry, base), x, StackAt(base));
    assert SameIn(w, w1, x);
  }

  /** Whatever the running task does, and when it switches away, the stacks of the others stay as they are. */
  lemma StepKeepsStacks(s: State, op: Op, d: nat)
    requires Ok(s) && Legal(s, op) && 1 <= d < |s.ring|
    ensures SameIn(s.w, Step(s, op).w, s.ring[d].stack)
  {
    hide Frozen, Forged;
    match op
    case Compute(_, _) =>
    case Create(entry, trampoline, base) => ForgedKeeps(s.w, entry, trampoline, base, s.ring[d].stack);
    case Yield(site) => FrozenKeeps(s.w, s.cpu.(rip := site), s.ring[d].stack, s.ring[0].stack);
  }

  lemma SameInTwice(w: Ram, mid: Ram, after: Ram, x: Extent)
    requires SameIn(w, mid, x) && SameIn(mid, after, x)
    ensures SameIn(w, after, x)
  {
  }

  lemma ThawedSame(w: Ram, after: Ram, e: Entry)
    requires Suspended(e) && SameIn(w, after, e.stack)
    ensures Thawed(after, e.rsp) == Thawed(w, e.rsp)
  {
  }

  // ---- whole runs -----------------------------------------------------------------------------

  lemma {:induction false} RunKeeps(s: State, ops: seq<Op>)
    requires Ok(s) && LegalRun(s, ops)
    ensures Ok(Run(s, ops))
    decreases |ops|
  {
    if ops != [] {
      StepKeeps(s, ops[0]);
      RunKeeps(Step(s, ops[0]), ops[1..]);
    }
  }

  lemma {:induction false} RunSplit(s: State, ops: seq<Op>, last: Op)
    requires Ok(s) && LegalRun(s, ops + [last])
    ensures LegalRun(s, ops) && Ok(Run(s, ops)) && Legal(Run(s, ops), last)
    ensures Run(s, ops + [last]) == Step(Run(s, ops), last)
    decreases |ops|
  {
    if ops == [] {
      assert ops + [last] == [last];
    } else {
      assert (ops + [last])[0] == ops[0] && (ops + [last])[1..] == ops[1..] + [last];
      StepKeeps(s, ops[0]);
      RunSplit(Step(s, ops[0]), ops[1..], last);
    }
  }

  /** Round robin is exact: every yield brings a waiting task one place forward and nothing else moves
      it. Tasks created meanwhile queue up behind, and while it waits its entry and its stack are as left. */
  lemma {:induction false} WaitIsExact(s: State, ops: seq<Op>, d: nat)
    requires Ok(s) && LegalRun(s, ops) && Yields(ops) < d < |s.ring|
    ensures var t := Run(s, ops);
      Ok(t) && |t.ring| == |s.ring| + Creates(ops) && t.ring[d - Yields(ops)] == s.ring[d] &&
        SameIn(s.w, t.w, s.ring[d].stack)
    decreases |ops|
  {
    if ops != [] {
      var t, n := Step(s, ops[0]), if ops[0].Yield? then d - 1 else d;
      StepKeeps(s, ops[0]);
      StepKeepsStacks(s, ops[0], d);
      assert t.ring[n] == s.ring[d];
      WaitIsExact(t, ops[1..], n);
      SameInTwice(s.w, t.w, Run(s, ops).w, s.ring[d].stack);
    }
  }

  /** A task d places behind runs with exactly the d-th yield, and goes on from its frozen context. */
  lemma {:induction false} RunsInTurn(s: State, ops: seq<Op>, d: nat, site: int)
    requires Ok(s) && LegalRun(s, ops + [Yield(site)]) && Yields(ops) + 1 == d < |s.ring|
    ensures var t := Run(s, ops + [Yield(site)]);
      && Ok(t) && t.cpu == Thawed(s.w, s.ring[d].rsp)
      && t.ring[0] == s.ring[d].(state := Running) && SameIn(s.w, t.w, s.ring[d].stack)
  {
    hide Thawed, Frozen, SameIn;
    RunSplit(s, ops, Yield(site));
    WaitIsExact(s, ops, d);
    var t := Run(s, ops);
    StepKeeps(t, Yield(site));
    StepKeepsStacks(t, Yield(site), 1);
    SameInTwice(s.w, t.w, Step(t, Yield(site)).w, s.ring[d].stack);
    ThawedSame(s.w, Step(t, Yield(site)).w, s.ring[d]);
  }

  /** Every task resumes where it stopped: with n tasks queued when it yields, the (n-1)-th yield of
      the others brings it back with the stack pointer, return address and callee-saved registers of
      its own call, whatever the others computed and however many tasks they created. */
  lemma {:induction false} ResumesWhereItStopped(s: State, site: int, ops: seq<Op>, last: int)
    requires Ok(s) && |s.ring| > 1 && Yields(ops) == |s.ring| - 2
    requires Legal(s, Yield(site)) && LegalRun(Step(s, Yield(site)), ops + [Yield(last)])
    ensures var t := Run(Step(s, Yield(site)), ops + [Yield(last)]);
      && Ok(t) && t.cpu == s.cpu.(rip := site)
      && t.ring[0].stack == s.ring[0].stack && t.ring[0].id == s.ring[0].id
  {
    hide Thawed, Frozen;
    var t := Step(s, Yield(site));
    YieldKeeps(s, site);
    RunsInTurn(t, ops, |s.ring| - 1, last);
    ThawFrozen(s.w, s.cpu.(rip := site));
  }

  /** Until then it does not run: some other stack is the running one after every shorter run. */
  lemma {:induction false} RunsNoSooner(s: State, site: int, ops: seq<Op>)
    requires Ok(s) && |s.ring| > 1 && Yields(ops) < |s.ring| - 1
    requires Legal(s, Yield(site)) && LegalRun(Step(s, Yield(site)), ops)
    ensures var t := Run(Step(s, Yield(site)), ops);
      Ok(t) && |t.ring| >= |s.ring| && t.ring[|s.ring| - 1 - Yields(ops)].stack == s.ring[0].stack
  {
    hide Thawed, Frozen;
    YieldKeeps(s, site);
    WaitIsExact(Step(s, Yield(site)), ops, |s.ring| - 1);
  }

  // ---- alone ----------------------------------------------------------------------------------------

  /** With no other task a yield changes nothing: not the stack pointer, not a register, not a word of
      memory, and neither the queue nor the ids. */
  lemma AloneStays(s: State, site: int)
    requires |s.ring| == 1
    ensures var t := Step(s, Yield(site));
      && t.cpu.rsp == s.cpu.rsp && t.cpu.rip == s.cpu.rip && t.cpu.regs == s.cpu.regs
      && (forall a :: Load(t.w, a) == Load(s.w, a)) && t.w == s.w
      && t.ring == s.ring && t.nextId == s.nextId
  {
  }

  /** A run without its yields. */
  function WithoutYields(ops: seq<Op>): seq<Op> {
    if ops == [] then [] else (if ops[0].Yield? then [] else [ops[0]]) + WithoutYields(ops[1..])
  }

  /** So a task that is alone all the time may yield as often as it likes: every run comes to the same as
      that run without its yields. */
  lemma {:induction false} AloneMayYield(s: State, ops: seq<Op>)
    requires |s.ring| == 1 && Creates(ops) == 0
    ensures Run(s, ops) == Run(s, WithoutYields(ops)) && Run(s, ops).ring == s.ring
    decreases |ops|
  {
    hide Frozen, Thawed, Forged;
    if ops != [] {
      var u := Step(s, ops[0]);
      AloneMayYield(u, ops[1..]);
      if ops[0].Yield? {
        assert WithoutYields(ops) == WithoutYields(ops[1..]);
      } else {
        assert WithoutYields(ops)[1..] == WithoutYields(ops[1..]);
      }
    }
  }

  // ---- what a step leaves alone ---------------------------------------------------------------------

  /** A creation stores the eight words below the top of the new stack and nothing else; whoever creates
      goes on as it was, the other tasks keep their places, and the ids count up in 32 bits. */
  lemma {:induction false} CreateLeaves(s: State, entry: int, trampoline: int, base: int, a: int)
    ensures var t := Step(s, Create(entry, trampoline, base));
      && t.cpu == s.cpu && |t.ring| == |s.ring| + 1 && t.ring[..|s.ring|] == s.ring
      && t.ring[|s.ring|].id == s.nextId && t.ring[|s.ring|].state == Ready
      && t.ring[|s.ring|].stack == Extent(base, base + 16384)
      && (s.nextId < 0x1_0000_0000 ==> t.nextId == if s.nextId == 0xFFFF_FFFF then 0 else s.nextId + 1)
    ensures a < base + 16384 - (base % 16) - 64 || base + 16384 - (base % 16) <= a ==>
      Load(Step(s, Create(entry, trampoline, base)).w, a) == Load(s.w, a)
  {
    var top := Top(base);
    assert top == base + 16384 - base % 16;
    if a < top - 64 || top <= a {
      hide Frozen, Top;
      FrozenBelow(s.w[top - 8 := trampoline], Fresh(entry, base), a);
    }
  }

  /** The words of a new stack: the trampoline, the entry and six zeros, downwards from the aligned top. */
  lemma {:induction false} CreateStores(s: State, entry: int, trampoline: int, base: int)
    ensures var w, top := Step(s, Create(entry, trampoline, base)).w, base + 16384 - base % 16;
      && Load(w, top - 8) == trampoline && Load(w, top - 16) == entry
      && Load(w, top - 24) == Load(w, top - 32) == Load(w, top - 40) == 0
      && Load(w, top - 48) == Load(w, top - 56) == Load(w, top - 64) == 0
    ensures var r := Step(s, Create(entry, trampoline, base)).ring; r[|s.ring|].rsp == base + 16384 - base % 16 - 64
  {
    var top := Top(base);
    assert top == base + 16384 - base % 16;
    hide Frozen, Top;
    FrameLayout(s.w[top - 8 := trampoline], Fresh(entry, base));
    FrozenBelow(s.w[top - 8 := trampoline], Fresh(entry, base), top - 8);
  }

  /** A switch stores seven words below the stack pointer of the task that yields, and nothing else. */
  lemma {:induction false} YieldLeaves(s: State, site: int, a: int)
    requires |s.ring| > 1 && (a < s.cpu.rsp - 56 || s.cpu.rsp <= a)
    ensures Load(Step(s, Yield(site)).w, a) == Load(s.w, a) && Step(s, Yield(site)).nextId == s.nextId
  {
    hide Frozen, Thawed;
    FrozenBelow(s.w, s.cpu.(rip := site), a);
  }

  // ---- created tasks ---------------------------------------------------------------------------

  lemma ForgedSays(w: Ram, entry: int, trampoline: int, base: int)
    ensures Thawed(Forged(w, entry, trampoline, base), Top(base) - 64) == Fresh(entry, base)
    ensures Load(Forged(w, entry, trampoline, base), Top(base) - 8) == trampoline
    ensures Top(base) % 16 == 0 && base + STACK_SIZE - 16 < Top(base) <= base + STACK_SIZE
  {
    hide Frozen, Thawed;
    TopBounds(base);
    var w1 := w[Top(base) - 8 := trampoline];
    ThawFrozen(w1, Fresh(entry, base));
    FrozenBelow(w1, Fresh(entry, base), Top(base) - 8);
  }

  /** A created task waits exactly as many yields as there were tasks. Its first switch lands at its
      entry with zeroed registers, the stack pointer 8 above a multiple of 16 as after a call (section
      3.2.2 of the System V AMD64 ABI), and the trampoline where a return would go. */
  lemma {:induction false} CreatedTaskStarts(s: State, entry: int, trampoline: int, base: int, ops: seq<Op>, last: int)
    requires Ok(s) && Legal(s, Create(entry, trampoline, base)) && Yields(ops) == |s.ring| - 1
    requires LegalRun(Step(s, Create(entry, trampoline, base)), ops + [Yield(last)])
    ensures var t := Run(Step(s, Create(entry, trampoline, base)), ops + [Yield(last)]);
      && Ok(t) && t.cpu.rip == entry && t.cpu.regs == Regs(0, 0, 0, 0, 0, 0)
      && t.cpu.rsp % 16 == 8 && base + STACK_SIZE - 24 < t.cpu.rsp <= base + STACK_SIZE - 8
      && Load(t.w, t.cpu.rsp) == trampoline
      && t.ring[0] == Entry(Top(base) - 64, StackAt(base), s.nextId, Running)
  {
    hide Thawed, Frozen, Forged, Load;
    var t := Step(s, Create(entry, trampoline, base));
    StepKeeps(s, Create(entry, trampoline, base));
    ForgedSays(s.w, entry, trampoline, base);
    RunsInTurn(t, ops, |s.ring|, last);
  }

  /** If the entry function returns, it arrives in the trampoline with the stack pointer a multiple of
      16: not the alignment a call would have given the trampoline. */
  lemma TrampolineIsMisaligned(w: Ram, entry: int, trampoline: int, base: int)
    ensures var f := Forged(w, entry, trampoline, base); var c := Thawed(f, Top(base) - 64);
      Load(f, c.rsp) == trampoline && (c.rsp + 8) % 16 == 0
  {
    ForgedSays(w, entry, trampoline, base);
  }

  // ---- creation order --------------------------------------------------------------------------

  function Wrap(i: int, n: nat): int {
    if i < n then i else i - n
  }

  /** Read from the running task on, the ids count up from its own and wrap around after the newest. */
  predicate InCreationOrder(s: State) {
    && s.ring != [] && s.ring[0].id < |s.ring|
    && forall i :: 0 <= i < |s.ring| ==> s.ring[i].id == Wrap(s.ring[0].id + i, |s.ring|)
  }

  /** A creation leaves the queue in creation order just when it was before and the first task creates. */
  lemma CreateOrderIff(s: State, entry: int, trampoline: int, base: int)
    requires s.ring != [] && s.nextId == |s.ring|
    ensures InCreationOrder(Step(s, Create(entry, trampoline, base))) <==> InCreationOrder(s) && s.ring[0].id == 0
  {
    hide Forged;
    var n, t := |s.ring|, Step(s, Create(entry, trampoline, base)).ring;
    assert |t| == n + 1 && t[n].id == n && forall i :: 0 <= i < n ==> t[i] == s.ring[i];
    if InCreationOrder(Step(s, Create(entry, trampoline, base))) {
      assert t[n].id == Wrap(t[0].id + n, n + 1);
      assert t[0].id == 0;
      forall i | 0 <= i < n ensures s.ring[i].id == Wrap(s.ring[0].id + i, n) {
        assert t[i].id == Wrap(t[0].id + i, n + 1);
      }
    }
  }

  /** A yield leaves it in order just when it was before. */
  lemma YieldOrderIff(s: State, site: int)
    requires s.ring != []
    ensures InCreationOrder(Step(s, Yield(site))) <==> InCreationOrder(s)
  {
    hide Frozen, Thawed;
    var n, t := |s.ring|, Step(s, Yield(site)).ring;
    if n > 1 {
      assert t[n - 1].id == s.ring[0].id && forall i :: 0 <= i < n - 1 ==> t[i].id == s.ring[i + 1].id;
      if InCreationOrder(s) {
        forall i | 0 <= i < n ensures t[i].id == Wrap(t[0].id + i, n) {
          assert t[i].id == s.ring[if i < n - 1 then i + 1 else 0].id;
        }
      }
      if InCreationOrder(Step(s, Yield(site))) {
        forall i | 0 <= i < n ensures s.ring[i].id == Wrap(s.ring[0].id + i, n) {
          assert s.ring[i].id == t[if i > 0 then i - 1 else n - 1].id;
          assert t[n - 1].id == Wrap(t[0].id + (n - 1), n);
        }
      }
    }
  }

  /** Whenever a task is created, task 0 is the one running. */
  predicate FirstCreates(s: State, ops: seq<Op>)
    decreases |ops|
  {
    ops == [] ||
    (s.ring != [] && (ops[0].Create? ==> s.ring[0].id == 0) && FirstCreates(Step(s, ops[0]), ops[1..]))
  }

  lemma {:induction false} StepOrderIff(s: State, op: Op)
    requires s.ring != [] && s.nextId == |s.ring|
    ensures InCreationOrder(Step(s, op)) <==> InCreationOrder(s) && (op.Create? ==> s.ring[0].id == 0)
  {
    match op
    case Create(entry, trampoline, base) => CreateOrderIff(s, entry, trampoline, base);
    case Yield(site) => YieldOrderIff(s, site);
    case Compute(_, _) =>
  }

  lemma StepIds(s: State, op: Op)
    requires s.ring != [] && s.nextId == |s.ring| && |s.ring| + 1 < ID_LIMIT
    ensures var t := Step(s, op);
      t.ring != [] && t.nextId == |t.ring| && |t.ring| == |s.ring| + (if op.Create? then 1 else 0)
  {
    hide Forged, Frozen, Thawed;
  }

  /** Over every run that does not use up the ids, tasks are queued in creation order at the end if and
      only if they were at the start and every creation was task 0's. Once out of order they stay so. */
  lemma {:induction false} CreationOrderIff(s: State, ops: seq<Op>)
    requires s.ring != [] && s.nextId == |s.ring| && |s.ring| + Creates(ops) + 1 < ID_LIMIT
    ensures InCreationOrder(Run(s, ops)) <==> InCreationOrder(s) && FirstCreates(s, ops)
    decreases |ops|
  {
    hide InCreationOrder, Step;
    if ops != [] {
      StepOrderIff(s, ops[0]);
      StepIds(s, ops[0]);
      CreationOrderIff(Step(s, ops[0]), ops[1..]);
    }
  }

  /** A concrete case: create, yield, create. The second task creates the third, which then runs after the
      first: the queue from the running task on is 1, 0, 2. */
  lemma CreatedOutOfOrder(s: State, entry: int, trampoline: int, base: int, other: int, site: int)
    requires |s.ring| == 1 && s.ring[0].id == 0 && s.nextId == 1
    ensures var t := Run(s, [Create(entry, trampoline, base), Yield(site), Create(entry, trampoline, other)]);
      && |t.ring| == 3 && t.ring[0].id == 1 && t.ring[1].id == 0 && t.ring[2].id == 2
      && !InCreationOrder(t)
  {
    hide Forged, Frozen, Thawed;
    var c, y, d := Create(entry, trampoline, base), Yield(site), Create(entry, trampoline, other);
    assert [c, y, d][1..] == [y, d] && [y, d][1..] == [d] && [d][1..] == [];
    var s1 := Step(s, c);
    var s2 := Step(s1, y);
    assert Run(s, [c, y, d]) == Run(s1, [y, d]) == Run(s2, [d]) == Run(Step(s2, d), []);
  }
}
