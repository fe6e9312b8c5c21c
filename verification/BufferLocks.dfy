/** Threads that register, lock, unlock and free buffers. Each critical section on the table is one step; a lock is
    three: mapping the buffer, setting its domain, and counting the lock, with the table free in between. */
module BufferLocks {
  import opened Options
  import opened BufferTable

  type Tid = nat

  datatype Usage = Usage(read: bool, write: bool)

  datatype Reason = NoAddressGiven | NotMappable | AccessDenied

  /** How the first part of a lock ends: with the address for a software lock, with None for a hardware lock. */
  datatype Start = Refused(reason: Reason) | Going(addr: Option<int>)

  /** gralloc_lock up to the domain. `wanted` says that the caller passed somewhere to put the address. */
  function LockMap(t: Table, b: Buf, usage: Usage, wanted: bool, k: Kernel): (Start, Table) {
    if !usage.read && !usage.write then (Going(None), t)
    else if !wanted then (Refused(NoAddressGiven), t)
    else
      var (m, t') := Mmap(t, b, k);
      match m
      case None => (Refused(NotMappable), t')
      case Some((a, prot)) =>
        if (usage.read && !prot.read) || (usage.write && !prot.write) then (Refused(AccessDenied), t')
        else (Going(Some(a)), t')
  }

  /** A lock that returned 0, with its usage and the address it returned. */
  datatype Hold = Hold(tid: Tid, usage: Usage, addr: Option<int>)

  datatype Pc =
    | Idle
    | SetDomain(buf: Buf, usage: Usage, addr: Option<int>)
    | CountLock(buf: Buf, usage: Usage, addr: Option<int>)

  /** The users of each buffer. */
  type Users<T> = map<Buf, multiset<T>>

  function Of<T>(m: Users<T>, b: Buf): multiset<T> {
    if b in m then m[b] else multiset{}
  }

  function Add<T(==)>(m: Users<T>, b: Buf, x: T): Users<T> {
    m[b := Of(m, b) + multiset{x}]
  }

  function Drop<T(==)>(m: Users<T>, b: Buf, x: T): Users<T> {
    m[b := Of(m, b) - multiset{x}]
  }

  lemma AddOf<T>(m: Users<T>, b: Buf, x: T, c: Buf)
    ensures Of(Add(m, b, x), c) == if c == b then Of(m, b) + multiset{x} else Of(m, c)
    ensures |Of(Add(m, b, x), c)| == if c == b then |Of(m, b)| + 1 else |Of(m, c)|
  {
  }

  lemma DropOf<T>(m: Users<T>, b: Buf, x: T, c: Buf)
    ensures Of(Drop(m, b, x), c) == if c == b then Of(m, b) - multiset{x} else Of(m, c)
    ensures x in Of(m, b) ==> |Of(Drop(m, b, x), c)| == if c == b then |Of(m, b)| - 1 else |Of(m, c)|
  {
    if x in Of(m, b) {
      assert Of(m, b) == (Of(m, b) - multiset{x}) + multiset{x};
    }
  }

  datatype State = State(table: Table, regs: Users<Tid>, holds: Users<Hold>, pcs: map<Tid, Pc>) {
    function Regs(b: Buf): multiset<Tid> { Of(regs, b) }
    function Holds(b: Buf): multiset<Hold> { Of(holds, b) }
    function Pc(t: Tid): Pc { if t in pcs then pcs[t] else Idle }
  }

  datatype Action =
    | RegisterBuf(tid: Tid, buf: Buf)
    | UnregisterBuf(tid: Tid, buf: Buf, kernel: Kernel)
    | FreeBuf(tid: Tid, buf: Buf, kernel: Kernel)
    | BeginLock(tid: Tid, buf: Buf, usage: Usage, wanted: bool, kernel: Kernel)
    | Domain(tid: Tid, ok: bool)
    | Count(tid: Tid)
    | UnlockBuf(tid: Tid, buf: Buf, hold: Hold, kernel: Kernel)

  function Next(s: State, a: Action): State {
    match a
    case RegisterBuf(t, b) =>
      var (ok, table) := Increment(s.table, b, Register);
      if ok then s.(table := table, regs := Add(s.regs, b, t)) else s.(table := table)
    case UnregisterBuf(t, b, k) =>
      s.(table := Decrement(s.table, b, Register, k), regs := Drop(s.regs, b, t))
    case FreeBuf(t, b, k) =>
      var (ok, table) := DecrementIfLast(s.table, b, k);
      if ok then s.(table := table, regs := Drop(s.regs, b, t)) else s
    case BeginLock(t, b, usage, wanted, k) =>
      var (start, table) := LockMap(s.table, b, usage, wanted, k);
      if start.Going? then s.(table := table, pcs := s.pcs[t := SetDomain(b, usage, start.addr)]) else s.(table := table)
    case Domain(t, ok) =>
      var pc := s.Pc(t);
      if !pc.SetDomain? then s
      else s.(pcs := s.pcs[t := if ok then CountLock(pc.buf, pc.usage, pc.addr) else Idle])
    case Count(t) =>
      var pc := s.Pc(t);
      if !pc.CountLock? then s
      else
        var (ok, table) := Increment(s.table, pc.buf, Lock);
        var s' := s.(table := table, pcs := s.pcs[t := Idle]);
        if ok then s'.(holds := Add(s.holds, pc.buf, Hold(t, pc.usage, pc.addr))) else s'
    case UnlockBuf(t, b, h, k) =>
      s.(table := Decrement(s.table, b, Lock, k), holds := Drop(s.holds, b, h))
  }

  /** What the kernel may answer, and that a thread in the middle of a lock call goes on with it. */
  predicate Possible(s: State, a: Action) {
    && (a.Domain? || a.Count? || s.Pc(a.tid).Idle?)
    && (a.BeginLock? ==> Fresh(s.table, a.kernel))
  }

  /** What a thread is asked: it unregisters, frees and locks only under a registration of its own, and unlocks only
      what it has locked. The buffers are gralloc's own. */
  predicate Disciplined(s: State, a: Action) {
    && (a.UnregisterBuf? || a.FreeBuf? || a.BeginLock? ==> a.tid in s.Regs(a.buf))
    && (a.UnlockBuf? ==> a.hold.tid == a.tid && a.hold in s.Holds(a.buf))
    && (a.Domain? || a.Count? || !a.buf.Wrapper())
  }

  function Run(s: State, schedule: seq<Action>): State
    decreases |schedule|
  {
    if schedule == [] then s else Run(Next(s, schedule[0]), schedule[1..])
  }

  predicate Possibly(s: State, schedule: seq<Action>)
    decreases |schedule|
  {
    schedule == [] || (Possible(s, schedule[0]) && Possibly(Next(s, schedule[0]), schedule[1..]))
  }

  predicate Politely(s: State, schedule: seq<Action>)
    decreases |schedule|
  {
    schedule == [] || (Disciplined(s, schedule[0]) && Politely(Next(s, schedule[0]), schedule[1..]))
  }

  const INITIAL := State(EMPTY, map[], map[], map[])

  // ----- the invariant

  /** The buffer is mapped at `a`, under its own entry, with the access that the usage needs. */
  predicate MappedAt(t: Table, b: Buf, usage: Usage, a: int) {
    && b in t.infos && t.infos[b].addr == a != 0
    && a in t.live && t.live[a].buf == b
    && t.infos[b].prot == t.live[a].prot
    && (usage.read ==> t.live[a].prot.read) && (usage.write ==> t.live[a].prot.write)
  }

  /** A lock for software use has the address of such a mapping, any other has none. */
  predicate AddressOk(t: Table, b: Buf, usage: Usage, addr: Option<int>) {
    if usage.read || usage.write then addr.Some? && MappedAt(t, b, usage, addr.value) else addr == None
  }

  predicate CountsOk(s: State, b: Buf) {
    && |s.Regs(b)| == s.table.Count(b, Register)
    && |s.Holds(b)| == s.table.Count(b, Lock)
  }

  predicate ThreadOk(s: State, t: Tid) {
    var pc := s.Pc(t);
    !pc.Idle? ==>
      && !pc.buf.Wrapper()
      && t in s.Regs(pc.buf)
      && AddressOk(s.table, pc.buf, pc.usage, pc.addr)
  }

  predicate HoldOk(s: State, b: Buf, h: Hold) {
    AddressOk(s.table, b, h.usage, h.addr)
  }

  ghost predicate Inv(s: State) {
    && TableOk(s.table)
    && (forall b: Buf :: !b.Wrapper() ==> CountsOk(s, b))
    && (forall b: Buf, h: Hold :: h in s.Holds(b) ==> !b.Wrapper() && HoldOk(s, b, h))
    && (forall t: Tid :: ThreadOk(s, t))
  }

  /** The operation on the table that a step performs. */
  function TableOp(s: State, a: Action): Option<Op> {
    match a
    case RegisterBuf(_, b) => Some(Inc(b, Register))
    case UnregisterBuf(_, b, k) => Some(Dec(b, Register, k))
    case FreeBuf(_, b, k) => Some(Free(b, k))
    case BeginLock(_, b, usage, wanted, k) =>
      if (usage.read || usage.write) && wanted then Some(Map(b, k)) else None
    case Domain(_, _) => None
    case Count(t) => if s.Pc(t).CountLock? then Some(Inc(s.Pc(t).buf, Lock)) else None
    case UnlockBuf(_, b, _, k) => Some(Dec(b, Lock, k))
  }

  lemma StepTable(s: State, a: Action)
    ensures var op := TableOp(s, a); Next(s, a).table == if op.Some? then Apply(s.table, op.value) else s.table
  {
    hide Increment, Decrement, Mmap;
  }

  lemma StepTableOk(s: State, a: Action)
    requires Inv(s) && Possible(s, a)
    ensures TableOp(s, a).Some? ==> KernelOk(s.table, TableOp(s, a).value)
    ensures TableOk(Next(s, a).table)
  {
    hide Next, Fresh, Apply, TableOk, CountsOk, HoldOk, ThreadOk;
    StepTable(s, a);
    if TableOp(s, a).Some? {
      ApplyOk(s.table, TableOp(s, a).value);
    }
  }

  /** A mapping stays where it is as long as its entry stays. */
  lemma MappingStays(t: Table, op: Op, b: Buf, usage: Usage, a: int)
    requires TableOk(t) && MappedAt(t, b, usage, a)
    requires KernelOk(t, op)
    requires b in Apply(t, op).infos
    ensures MappedAt(Apply(t, op), b, usage, a)
  {
    if op.buf in t.infos {
      assert EntryOk(t, op.buf);
    }
  }

  lemma TwoMembers<T>(m: multiset<T>, x: T, y: T)
    requires x in m && y in m && x != y
    ensures |m| >= 2
  {
    var rest := m[x := 0][y := 0];
    assert |rest| == |m| - m[x] - m[y];
  }

  lemma IncrementAnswers(t: Table, b: Buf, c: Counter)
    requires !b.Wrapper()
    ensures Increment(t, b, c).0 <==> t.Count(b, c) != INT_MAX
  {
  }

  lemma UserAdded(s: State, a: Action, b: Buf)
    requires a.RegisterBuf? || (a.Count? && s.Pc(a.tid).CountLock?)
    requires var op := TableOp(s, a).value; !op.buf.Wrapper() && CountsOk(s, op.buf)
    ensures (|Next(s, a).Regs(b)|, |Next(s, a).Holds(b)|)
         == Counted(TableOp(s, a).value, b, |s.Regs(b)|, |s.Holds(b)|)
  {
    hide Increment, Of, Add;
    var op := TableOp(s, a).value;
    if a.RegisterBuf? {
      AddOf(s.regs, a.buf, a.tid, b);
    } else {
      AddOf(s.holds, op.buf, Hold(a.tid, s.Pc(a.tid).usage, s.Pc(a.tid).addr), b);
    }
    IncrementAnswers(s.table, op.buf, op.counter);
  }

  lemma UserUnlocked(s: State, a: Action, b: Buf)
    requires a.UnlockBuf? && a.hold in s.Holds(a.buf)
    ensures (|Next(s, a).Regs(b)|, |Next(s, a).Holds(b)|)
         == Counted(TableOp(s, a).value, b, |s.Regs(b)|, |s.Holds(b)|)
  {
    hide Decrement, Of, Drop;
    DropOf(s.holds, a.buf, a.hold, b);
  }

  lemma UserUnregistered(s: State, a: Action, b: Buf)
    requires a.UnregisterBuf? && a.tid in s.Regs(a.buf)
    ensures (|Next(s, a).Regs(b)|, |Next(s, a).Holds(b)|)
         == Counted(TableOp(s, a).value, b, |s.Regs(b)|, |s.Holds(b)|)
  {
    hide Decrement, Of, Drop;
    DropOf(s.regs, a.buf, a.tid, b);
  }

  lemma FreeAnswers(t: Table, b: Buf, k: Kernel)
    requires TableOk(t) && !b.Wrapper()
    ensures DecrementIfLast(t, b, k).0 <==> t.Count(b, Register) <= 1 && t.Count(b, Lock) == 0
  {
    FreeExactly(t, b, k);
  }

  lemma UserFreed(s: State, a: Action, b: Buf)
    requires a.FreeBuf?
    requires Disciplined(s, a) && TableOk(s.table) && CountsOk(s, a.buf)
    ensures (|Next(s, a).Regs(b)|, |Next(s, a).Holds(b)|)
         == Counted(TableOp(s, a).value, b, |s.Regs(b)|, |s.Holds(b)|)
  {
    hide DecrementIfLast, TableOk, Of, Drop;
    DropOf(s.regs, a.buf, a.tid, b);
    FreeAnswers(s.table, a.buf, a.kernel);
  }

  lemma SameUsers(s: State, a: Action, b: Buf)
    requires a.BeginLock?
    ensures Next(s, a).Regs(b) == s.Regs(b) && Next(s, a).Holds(b) == s.Holds(b)
    ensures TableOp(s, a).Some? ==>
      Counted(TableOp(s, a).value, b, |s.Regs(b)|, |s.Holds(b)|) == (|s.Regs(b)|, |s.Holds(b)|)
  {
    hide LockMap;
  }

  lemma CountsStep(s: State, a: Action, b: Buf)
    requires Inv(s) && Possible(s, a) && Disciplined(s, a) && !b.Wrapper()
    ensures CountsOk(Next(s, a), b)
  {
    hide LockMap, Increment, Decrement, DecrementIfLast, Apply, TableOk, HoldOk, MappedAt, Fresh, Possible, Counted;
    assert CountsOk(s, b);
    assert ThreadOk(s, a.tid);
    StepTable(s, a);
    if TableOp(s, a).Some? {
      TallyStep(s.table, TableOp(s, a).value, b, |s.Regs(b)|, |s.Holds(b)|);
    }
    match a
    case RegisterBuf(_, _) => UserAdded(s, a, b);
    case Count(t) => if s.Pc(t).CountLock? { UserAdded(s, a, b); }
    case BeginLock(_, _, _, _, _) => SameUsers(s, a, b);
    case Domain(_, _) =>
    case FreeBuf(_, _, _) => UserFreed(s, a, b);
    case UnregisterBuf(_, _, _) => UserUnregistered(s, a, b);
    case UnlockBuf(_, _, _, _) => UserUnlocked(s, a, b);
  }

  /** An entry with a user left is still there. */
  lemma UserKeepsEntry(s: State, b: Buf)
    requires TableOk(s.table) && CountsOk(s, b) && !b.Wrapper()
    requires s.Regs(b) != multiset{} || s.Holds(b) != multiset{}
    ensures b in s.table.infos
  {
  }

  lemma UserKeepsMapping(s: State, a: Action, b: Buf, usage: Usage, addr: int)
    requires Inv(s) && Possible(s, a) && Disciplined(s, a) && !b.Wrapper()
    requires MappedAt(s.table, b, usage, addr)
    requires Next(s, a).Regs(b) != multiset{} || Next(s, a).Holds(b) != multiset{}
    ensures MappedAt(Next(s, a).table, b, usage, addr)
  {
    hide LockMap, Next, Increment, Decrement, DecrementIfLast, Mmap, Apply, MappedAt, Fresh, EntryOk;
    StepTable(s, a);
    StepTableOk(s, a);
    CountsStep(s, a, b);
    UserKeepsEntry(Next(s, a), b);
    if TableOp(s, a).Some? {
      MappingStays(s.table, TableOp(s, a).value, b, usage, addr);
    }
  }

  lemma LockMapAddress(t: Table, b: Buf, usage: Usage, wanted: bool, k: Kernel)
    requires TableOk(t) && b in t.infos && Fresh(t, k)
    requires LockMap(t, b, usage, wanted, k).0.Going?
    ensures var (start, t') := LockMap(t, b, usage, wanted, k); AddressOk(t', b, usage, start.addr)
  {
    assert EntryOk(t, b);
  }

  lemma OwnThreadStep(s: State, a: Action)
    requires Inv(s) && Possible(s, a) && Disciplined(s, a)
    ensures ThreadOk(Next(s, a), a.tid)
  {
    hide LockMap, Increment, Decrement, DecrementIfLast, MappedAt, Fresh, TableOk, HoldOk;
    assert ThreadOk(s, a.tid);
    if a.BeginLock? {
      var (start, table) := LockMap(s.table, a.buf, a.usage, a.wanted, a.kernel);
      if start.Going? {
        assert CountsOk(s, a.buf);
        UserKeepsEntry(s, a.buf);
        LockMapAddress(s.table, a.buf, a.usage, a.wanted, a.kernel);
      }
    }
  }

  lemma OthersKeepRegs(s: State, a: Action, t: Tid, b: Buf)
    requires t != a.tid && t in s.Regs(b)
    ensures t in Next(s, a).Regs(b)
  {
    hide LockMap, Increment, Decrement, DecrementIfLast, Of, Add, Drop;
    if a.RegisterBuf? {
      AddOf(s.regs, a.buf, a.tid, b);
    } else if a.UnregisterBuf? || a.FreeBuf? {
      DropOf(s.regs, a.buf, a.tid, b);
    }
  }

  lemma OthersKeepPlace(s: State, a: Action, t: Tid)
    requires t != a.tid
    ensures Next(s, a).Pc(t) == s.Pc(t)
  {
    hide LockMap, Increment, Decrement, DecrementIfLast;
  }

  lemma OtherThreadStep(s: State, a: Action, t: Tid)
    requires Inv(s) && Possible(s, a) && Disciplined(s, a) && t != a.tid
    ensures ThreadOk(Next(s, a), t)
  {
    hide Next, TableOp, MappedAt, Fresh, TableOk, CountsOk, HoldOk, Possible, Disciplined;
    assert ThreadOk(s, t);
    var pc := s.Pc(t);
    if !pc.Idle? {
      OthersKeepPlace(s, a, t);
      OthersKeepRegs(s, a, t, pc.buf);
      if pc.addr.Some? {
        UserKeepsMapping(s, a, pc.buf, pc.usage, pc.addr.value);
      }
    } else {
      OthersKeepPlace(s, a, t);
    }
  }

  lemma NewHold(s: State, a: Action, b: Buf, h: Hold)
    requires Inv(s)
    requires h in Next(s, a).Holds(b) && h !in s.Holds(b)
    ensures s.Pc(a.tid) == CountLock(b, h.usage, h.addr)
  {
    hide LockMap, Increment, Decrement, DecrementIfLast, TableOk, Of, Add, Drop;
    if a.UnlockBuf? {
      DropOf(s.holds, a.buf, a.hold, b);
    } else if a.Count? && s.Pc(a.tid).CountLock? {
      AddOf(s.holds, s.Pc(a.tid).buf, Hold(a.tid, s.Pc(a.tid).usage, s.Pc(a.tid).addr), b);
    }
  }

  lemma HoldStep(s: State, a: Action, b: Buf, h: Hold)
    requires Inv(s) && Possible(s, a) && Disciplined(s, a)
    requires h in Next(s, a).Holds(b)
    ensures !b.Wrapper() && HoldOk(Next(s, a), b, h)
  {
    hide Next, MappedAt, Fresh, TableOk, Possible, Disciplined;
    if h !in s.Holds(b) {
      NewHold(s, a, b, h);
      assert ThreadOk(s, a.tid);
    }
    assert h in s.Holds(b) ==> HoldOk(s, b, h);
    if h.addr.Some? {
      UserKeepsMapping(s, a, b, h.usage, h.addr.value);
    }
  }

  lemma StepInv(s: State, a: Action)
    requires Inv(s) && Possible(s, a) && Disciplined(s, a)
    ensures Inv(Next(s, a))
  {
    hide Next, Possible, Disciplined, TableOk, CountsOk, HoldOk, ThreadOk;
    var s' := Next(s, a);
    StepTableOk(s, a);
    forall b: Buf | !b.Wrapper() ensures CountsOk(s', b) { CountsStep(s, a, b); }
    forall b: Buf, h: Hold | h in s'.Holds(b) ensures !b.Wrapper() && HoldOk(s', b, h) { HoldStep(s, a, b, h); }
    forall t: Tid ensures ThreadOk(s', t) {
      if t == a.tid { OwnThreadStep(s, a); } else { OtherThreadStep(s, a, t); }
    }
  }

  lemma {:induction false} RunInv(s: State, schedule: seq<Action>)
    requires Inv(s) && Possibly(s, schedule) && Politely(s, schedule)
    ensures Inv(Run(s, schedule))
    decreases |schedule|
  {
    hide Next, Possible, Disciplined, Inv;
    if schedule != [] {
      StepInv(s, schedule[0]);
      RunInv(Next(s, schedule[0]), schedule[1..]);
    }
  }

  // ----- what holds after every run

  predicate Reached(schedule: seq<Action>) {
    Possibly(INITIAL, schedule) && Politely(INITIAL, schedule)
  }

  /** In every interleaving, a lock for software use has an address, where the buffer stays mapped, under an entry of
      its own and with the access that the lock is for, for as long as it is held; any other lock has none. So two
      holders of a buffer have the same address. */
  lemma AddressHolds(schedule: seq<Action>, b: Buf, h: Hold)
    requires Reached(schedule) && h in Run(INITIAL, schedule).Holds(b)
    ensures h.addr.Some? <==> h.usage.read || h.usage.write
    ensures h.addr.Some? ==> MappedAt(Run(INITIAL, schedule).table, b, h.usage, h.addr.value)
  {
    RunInv(INITIAL, schedule);
    assert HoldOk(Run(INITIAL, schedule), b, h);
  }

  /** In every interleaving, the counts are the number of registrations and of locks that are outstanding. */
  lemma CountsExact(schedule: seq<Action>, b: Buf)
    requires Reached(schedule) && !b.Wrapper()
    ensures CountsOk(Run(INITIAL, schedule), b)
  {
    RunInv(INITIAL, schedule);
  }

  /** A free by the owner of a registration succeeds exactly when no lock is outstanding and nobody else is registered.
      So it is refused while another thread is anywhere inside a lock call, even before that lock is counted. */
  lemma FreeExclusive(schedule: seq<Action>, t: Tid, b: Buf, k: Kernel)
    requires Reached(schedule) && !b.Wrapper()
    requires t in Run(INITIAL, schedule).Regs(b)
    ensures var s := Run(INITIAL, schedule);
      && (DecrementIfLast(s.table, b, k).0 <==> s.Regs(b) == multiset{t} && s.Holds(b) == multiset{})
      && (forall u: Tid :: u != t && !s.Pc(u).Idle? && s.Pc(u).buf == b ==> !DecrementIfLast(s.table, b, k).0)
  {
    RunInv(INITIAL, schedule);
    var s := Run(INITIAL, schedule);
    assert CountsOk(s, b);
    FreeExactly(s.table, b, k);
    if |s.Regs(b)| <= 1 {
      SoleMember(s.Regs(b), t);
    }
    forall u: Tid | u != t && !s.Pc(u).Idle? && s.Pc(u).buf == b
      ensures |s.Regs(b)| >= 2
    {
      assert ThreadOk(s, u);
      TwoMembers(s.Regs(b), t, u);
    }
  }

  lemma SoleMember<T>(m: multiset<T>, x: T)
    requires x in m && |m| <= 1
    ensures m == multiset{x}
  {
    assert |m - multiset{x}| == 0;
    assert m - multiset{x} == multiset{};
  }

  // ----- what a lock comes to

  /** The access of the mapping that the buffer has, or gets. */
  function AccessOf(t: Table, b: Buf, k: Kernel): Prot {
    if b in t.infos && t.infos[b].addr != 0 then t.infos[b].prot else k.access
  }

  /** When a buffer of gralloc's own can be locked: always, except for software use, when the caller wants the address,
      the buffer has an entry, is mapped or can be, and the mapping has the access. */
  predicate Lockable(t: Table, b: Buf, usage: Usage, wanted: bool, k: Kernel) {
    usage.read || usage.write ==>
      && wanted && b in t.infos
      && (t.infos[b].addr != 0 || (k.infoOk && k.mmap.Some?))
      && (usage.read ==> AccessOf(t, b, k).read) && (usage.write ==> AccessOf(t, b, k).write)
  }

  lemma LockMapExactly(t: Table, b: Buf, usage: Usage, wanted: bool, k: Kernel)
    requires TableOk(t) && !b.Wrapper()
    ensures var start := LockMap(t, b, usage, wanted, k).0;
      && (start.Going? <==> Lockable(t, b, usage, wanted, k))
      && (start == Refused(NoAddressGiven) <==> (usage.read || usage.write) && !wanted)
      && (start == Refused(AccessDenied) <==>
            && (usage.read || usage.write) && wanted && b in t.infos
            && (t.infos[b].addr != 0 || (k.infoOk && k.mmap.Some?))
            && ((usage.read && !AccessOf(t, b, k).read) || (usage.write && !AccessOf(t, b, k).write)))
  {
  }

  /** The three steps of a lock, one right after the other. */
  function LockCall(t: Tid, b: Buf, usage: Usage, wanted: bool, k: Kernel, domainOk: bool): seq<Action> {
    [BeginLock(t, b, usage, wanted, k), Domain(t, domainOk), Count(t)]
  }

  lemma ThreeSteps(s: State, a: Action, b: Action, c: Action)
    ensures Run(s, [a, b, c]) == Next(Next(Next(s, a), b), c)
  {
    hide Next;
    RunLast(s, [], a);
    RunLast(s, [a], b);
    RunLast(s, [a, b], c);
    assert [] + [a] == [a] && [a] + [b] == [a, b] && [a, b] + [c] == [a, b, c];
  }

  lemma BeginsLock(s: State, t: Tid, b: Buf, usage: Usage, wanted: bool, k: Kernel)
    requires TableOk(s.table) && !b.Wrapper() && s.Pc(t) == Idle
    ensures var s' := Next(s, BeginLock(t, b, usage, wanted, k));
      && s'.regs == s.regs && s'.holds == s.holds
      && s'.table.Count(b, Lock) == s.table.Count(b, Lock)
      && if Lockable(s.table, b, usage, wanted, k) then
           s'.Pc(t) == SetDomain(b, usage, LockMap(s.table, b, usage, wanted, k).0.addr)
         else s'.Pc(t) == Idle
  {
    LockMapExactly(s.table, b, usage, wanted, k);
    if b in s.table.infos {
      MmapExactly(s.table, b, k);
    }
    hide Lockable;
  }

  /** A lock made without interruption ends with a hold of this thread for this usage exactly when the buffer can be
      locked, its domain can be set, and the count is not full; otherwise there is no hold, and the thread is free
      again in any case. */
  lemma LockCallExactly(s: State, t: Tid, b: Buf, usage: Usage, wanted: bool, k: Kernel, domainOk: bool)
    requires TableOk(s.table) && !b.Wrapper() && s.Pc(t) == Idle
    ensures var s' := Run(s, LockCall(t, b, usage, wanted, k, domainOk));
      && s'.Pc(t) == Idle && s'.regs == s.regs
      && if Lockable(s.table, b, usage, wanted, k) && domainOk && s.table.Count(b, Lock) != INT_MAX then
           exists addr :: s'.holds == Add(s.holds, b, Hold(t, usage, addr))
         else s'.holds == s.holds
  {
    hide LockMap, Lockable, Increment, Add;
    ThreeSteps(s, BeginLock(t, b, usage, wanted, k), Domain(t, domainOk), Count(t));
    BeginsLock(s, t, b, usage, wanted, k);
    var s1 := Next(s, BeginLock(t, b, usage, wanted, k));
    IncrementAnswers(s1.table, b, Lock);
  }

  // ----- why a lock needs a registration of its own

  const MINE := Buf(0, -1, 0)
  const BOTH := Usage(true, true)
  const KERNEL := Kernel(true, Prot(true, true), Some(4096), true)

  /** Thread 1 locks under the registration of thread 0, which frees the buffer before the lock is counted. */
  const BORROWED: seq<Action> := [
    RegisterBuf(0, MINE), BeginLock(1, MINE, BOTH, true, KERNEL), Domain(1, true),
    FreeBuf(0, MINE, KERNEL), Count(1)]

  const REGISTERED := State(Table(map[MINE := Info(0, NO_ACCESS, 1, 0)], map[]), map[MINE := multiset{0 as Tid}], map[], map[])
  const MAPPED := Table(map[MINE := Info(4096, Prot(true, true), 1, 0)], map[4096 := Mapping(MINE, Prot(true, true))])

  lemma Registers()
    ensures Possible(INITIAL, BORROWED[0]) && Next(INITIAL, BORROWED[0]) == REGISTERED
  {
    assert Increment(EMPTY, MINE, Register) == (true, REGISTERED.table);
    AddOf(INITIAL.regs, MINE, 0, MINE);
    var first: multiset<Tid> := multiset{0};
    assert Of(INITIAL.regs, MINE) + first == first;
    assert Add(INITIAL.regs, MINE, 0) == map[MINE := first];
  }

  lemma Borrows()
    ensures Possible(REGISTERED, BORROWED[1])
    ensures Next(REGISTERED, BORROWED[1]) == REGISTERED.(table := MAPPED, pcs := map[1 := SetDomain(MINE, BOTH, Some(4096))])
  {
    var t := Mmap(REGISTERED.table, MINE, KERNEL).1;
    assert t.infos == MAPPED.infos && t.live == MAPPED.live;
  }

  /** The lock of thread 1 is about to be counted. */
  const BORROWING := REGISTERED.(table := MAPPED, pcs := map[1 := CountLock(MINE, BOTH, Some(4096))])

  lemma SetsDomain()
    ensures var s := REGISTERED.(table := MAPPED, pcs := map[1 := SetDomain(MINE, BOTH, Some(4096))]);
      Possible(s, BORROWED[2]) && Next(s, BORROWED[2]) == BORROWING
  {
  }

  lemma Frees()
    ensures Possible(BORROWING, BORROWED[3])
    ensures Next(BORROWING, BORROWED[3]) == BORROWING.(table := EMPTY, regs := map[MINE := multiset{}])
  {
    assert DecrementIfLast(MAPPED, MINE, KERNEL) == (true, EMPTY) by {
      assert Decrement(MAPPED, MINE, Register, KERNEL) == EMPTY;
    }
  }

  lemma Counts(s: State)
    requires s == BORROWING.(table := EMPTY, regs := map[MINE := multiset{}])
    ensures Possible(s, BORROWED[4])
    ensures var s' := Next(s, BORROWED[4]);
      && Hold(1, BOTH, Some(4096)) in s'.Holds(MINE) && s'.table.live == map[]
      && MINE in s'.table.infos && s'.table.infos[MINE].addr == 0
  {
    assert Increment(EMPTY, MINE, Lock) == (true, Table(map[MINE := Info(0, NO_ACCESS, 0, 1)], map[]));
  }

  lemma {:induction false} RunLast(s: State, schedule: seq<Action>, a: Action)
    ensures Run(s, schedule + [a]) == Next(Run(s, schedule), a)
    ensures Possibly(s, schedule + [a]) <==> Possibly(s, schedule) && Possible(Run(s, schedule), a)
    decreases |schedule|
  {
    hide Next, Possible;
    if schedule == [] {
      assert schedule + [a] == [a];
      assert Run(Next(s, a), []) == Next(s, a);
    } else {
      assert (schedule + [a])[1..] == schedule[1..] + [a];
      RunLast(Next(s, schedule[0]), schedule[1..], a);
    }
  }

  lemma FiveSteps(s: State, a: Action, b: Action, c: Action, d: Action, e: Action)
    ensures Run(s, [a, b, c, d, e]) == Next(Next(Next(Next(Next(s, a), b), c), d), e)
    ensures var s4 := Next(Next(Next(Next(s, a), b), c), d);
      && Possible(s, a) && Possible(Next(s, a), b) && Possible(Next(Next(s, a), b), c)
      && Possible(Next(Next(Next(s, a), b), c), d) && Possible(s4, e)
      ==> Possibly(s, [a, b, c, d, e])
  {
    hide Next, Possible;
    RunLast(s, [], a);
    RunLast(s, [a], b);
    RunLast(s, [a, b], c);
    RunLast(s, [a, b, c], d);
    RunLast(s, [a, b, c, d], e);
    assert [] + [a] == [a] && [a] + [b] == [a, b] && [a, b] + [c] == [a, b, c];
    assert [a, b, c] + [d] == [a, b, c, d] && [a, b, c, d] + [e] == [a, b, c, d, e];
  }

  /** Without its own registration, a thread can come back from a lock with an address that is no longer mapped, while
      a new, unmapped entry counts its lock. */
  lemma OwnRegistrationNeeded()
    ensures Possibly(INITIAL, BORROWED)
    ensures var s := Run(INITIAL, BORROWED);
      && Hold(1, BOTH, Some(4096)) in s.Holds(MINE)
      && 4096 !in s.table.live
      && MINE in s.table.infos && s.table.infos[MINE].addr == 0
  {
    hide Run, Possibly, Next, Possible;
    Registers();
    Borrows();
    SetsDomain();
    Frees();
    Counts(BORROWING.(table := EMPTY, regs := map[MINE := multiset{}]));
    FiveSteps(INITIAL, BORROWED[0], BORROWED[1], BORROWED[2], BORROWED[3], BORROWED[4]);
  }
}
