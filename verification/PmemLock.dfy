/** The reader/writer lock of pmem buffers as interleaved steps of any number of threads.

    A step is one access to shared memory: a load of the lock word, a compare-and-exchange, a store or load
    of the owner field, taking or releasing the map mutex, the mapping itself, the atomic or. Everything a
    thread computes on its own values between two such accesses belongs to the earlier one. Atomics are
    sequentially consistent. The word is seen here as its three fields; PmemBuffer runs the same steps on
    the 32-bit word. */
module PmemLock {
  import opened Options
  import opened PmemWord

  type Tid = t: int | 0 < t witness 1

  datatype Usage = Usage(swRead: bool, swWrite: bool, hwRender: bool) {
    predicate Writes() { swWrite || hwRender }
    predicate Software() { swRead || swWrite }
  }

  /** Where a thread stands inside gralloc_lock_pmem or gralloc_unlock_pmem: its next shared access, with the
      values it has read. */
  datatype Pc<W> =
    | Idle
    | LockLoad(usage: Usage)
    | LockCas(usage: Usage, cur: W, new_: W)
    | LockOwner(usage: Usage, cur: W)
    | MapTake(usage: Usage)
    | MapRecheck(usage: Usage)
    | MapBuffer(usage: Usage)
    | MapPublish(usage: Usage)
    | MapRelease(usage: Usage, err: int)
    | ReadBase(usage: Usage, err: int)
    | UnlockLoad
    | UnlockOwner(cur: W)
    | UnlockClear(cur: W)
    | UnlockCas(cur: W, new_: W)

  datatype Hold = Hold(tid: Tid, write: bool)

  datatype Return =
    | Busy(tid: Tid)
    | Locked(tid: Tid, usage: Usage, err: int, vaddr: Option<int>)
    | Unlocked(tid: Tid)
    | NotLocked(tid: Tid)

  /** The shared fields of the handle and the map mutex, the threads, and three records of what happened since
      the last register or unregister: the outstanding holds, the address a successful map published (or the one
      the handle was created with) with the number of such maps, and the returned calls. */
  datatype State = State(
    word: Fields, writeOwner: int, baseAddr: int, mapLock: Option<Tid>, isFb: bool,
    pcs: map<Tid, Pc<Fields>>,
    holds: multiset<Hold>, mapped: Option<int>, maps: nat, log: seq<Return>)
  {
    function PcOf(t: Tid): Pc<Fields> { if t in pcs then pcs[t] else Idle }
    function At(t: Tid, pc: Pc<Fields>): State { this.(pcs := pcs[t := pc]) }
    function Return(t: Tid, r: Return): State { this.(pcs := pcs[t := Idle], log := log + [r]) }
  }

  datatype Action =
    | BeginLock(tid: Tid, usage: Usage)
    | BeginUnlock(tid: Tid)
    | Advance(tid: Tid, mmap: MapResult)
    | Reset

  /** What mmap and the handle's offset make of base_addr, or a negative error. */
  datatype MapResult = Mapped(base: int) | MapError(errno: nat)

  // ----- gralloc_lock_pmem

  /** After the load: refuse, or compute the new value for the exchange. */
  function LockLoaded(s: State, t: Tid, u: Usage): State {
    var cur := s.word;
    if cur.write || (cur.count != 0 && u.Writes()) then
      s.Return(t, Busy(t))
    else
      var marked := if u.Writes() then cur.(write := true) else cur;
      s.At(t, LockCas(u, cur, marked.(count := marked.count + 1)))
  }

  function LockExchanged(s: State, t: Tid, u: Usage, cur: Fields, new_: Fields): State {
    if s.word != cur then
      s.At(t, LockLoad(u))
    else
      var s' := s.(word := new_, holds := s.holds + multiset{Hold(t, u.Writes())});
      if new_.write then s'.At(t, LockOwner(u, cur)) else AfterOwner(s', t, u, cur)
  }

  /** A software lock maps the buffer unless the word it replaced was already marked mapped. */
  function AfterOwner(s: State, t: Tid, u: Usage, cur: Fields): State {
    if !u.Software() then s.Return(t, Locked(t, u, 0, None))
    else if !cur.mapped then s.At(t, MapTake(u))
    else s.At(t, ReadBase(u, 0))
  }

  /** gralloc_map: a framebuffer keeps the address it has, any other buffer is mapped now. */
  function BufferMapped(s: State, t: Tid, u: Usage, r: MapResult): State {
    if s.isFb then
      s.(mapped := Some(s.baseAddr), maps := s.maps + 1).At(t, MapPublish(u))
    else match r
      case MapError(errno) => s.At(t, MapRelease(u, -(errno + 1)))
      case Mapped(base) => s.(baseAddr := base, mapped := Some(base), maps := s.maps + 1).At(t, MapPublish(u))
  }

  // ----- gralloc_unlock_pmem

  function UnlockLoaded(s: State, t: Tid): State {
    if s.word.write then s.At(t, UnlockOwner(s.word)) else UnlockReady(s, t, s.word, s.word)
  }

  function UnlockReady(s: State, t: Tid, cur: Fields, value: Fields): State {
    if value.count == 0 then
      s.Return(t, NotLocked(t))
    else
      s.At(t, UnlockCas(cur, value.(count := value.count - 1)))
  }

  function UnlockExchanged(s: State, t: Tid, cur: Fields, new_: Fields): State {
    if s.word != cur then
      s.At(t, UnlockLoad)
    else
      s.(word := new_, holds := s.holds - multiset{Hold(t, cur.write && !new_.write)}).Return(t, Unlocked(t))
  }

  // ----- one step, and runs

  function StepOf(s: State, t: Tid, r: MapResult): State {
    match s.PcOf(t)
    case Idle => s
    case LockLoad(u) => LockLoaded(s, t, u)
    case LockCas(u, cur, new_) => LockExchanged(s, t, u, cur, new_)
    case LockOwner(u, cur) => AfterOwner(s.(writeOwner := t), t, u, cur)
    case MapTake(u) => if s.mapLock == None then s.(mapLock := Some(t)).At(t, MapRecheck(u)) else s
    case MapRecheck(u) => s.At(t, if s.word.mapped then MapRelease(u, 0) else MapBuffer(u))
    case MapBuffer(u) => BufferMapped(s, t, u, r)
    case MapPublish(u) => s.(word := s.word.(mapped := true)).At(t, MapRelease(u, 0))
    case MapRelease(u, err) => s.(mapLock := None).At(t, ReadBase(u, err))
    case ReadBase(u, err) => s.Return(t, Locked(t, u, err, Some(s.baseAddr)))
    case UnlockLoad => UnlockLoaded(s, t)
    case UnlockOwner(cur) =>
      if s.writeOwner == t then s.At(t, UnlockClear(cur)) else UnlockReady(s, t, cur, cur)
    case UnlockClear(cur) => UnlockReady(s.(writeOwner := 0), t, cur, cur.(write := false))
    case UnlockCas(cur, new_) => UnlockExchanged(s, t, cur, new_)
  }

  function Next(s: State, a: Action): State {
    match a
    case BeginLock(t, u) => s.At(t, LockLoad(u))
    case BeginUnlock(t) => s.At(t, UnlockLoad)
    case Advance(t, r) => StepOf(s, t, r)
    case Reset => s.(word := Fields(false, false, 0), writeOwner := 0, baseAddr := 0, mapped := None, maps := 0, log := [])
  }

  /** The discipline of the callers. A thread makes one call at a time, unlocks only what it has locked, and
      the buffer is registered or unregistered only while it is not locked and no call is in progress. Fewer
      than 2^30 holds are out at a time. */
  predicate Allowed(s: State, a: Action) {
    match a
    case BeginLock(t, u) => s.PcOf(t) == Idle
    case BeginUnlock(t) => s.PcOf(t) == Idle && Owns(s, t)
    case Advance(t, r) => s.PcOf(t).LockLoad? || s.PcOf(t).LockCas? ==> |s.holds| < MAX_HOLDS
    case Reset => s.holds == multiset{} && forall t <- s.pcs :: s.pcs[t] == Idle
  }

  predicate Owns(s: State, t: Tid) {
    Hold(t, true) in s.holds || Hold(t, false) in s.holds
  }

  /** A handle registered from another process, a framebuffer handle, or a handle created around a mapping. */
  predicate Initial(s: State) {
    && s.word.count == 0 && !s.word.write
    && s.writeOwner == 0 && s.mapLock == None && s.pcs == map[] && s.holds == multiset{}
    && s.maps == 0 && s.log == []
    && s.mapped == if s.word.mapped then Some(s.baseAddr) else None
  }

  function Run(s: State, schedule: seq<Action>): State
    decreases |schedule|
  {
    if schedule == [] then s else Run(Next(s, schedule[0]), schedule[1..])
  }

  ghost predicate Disciplined(s: State, schedule: seq<Action>)
    decreases |schedule|
  {
    schedule == [] || (Allowed(s, schedule[0]) && Disciplined(Next(s, schedule[0]), schedule[1..]))
  }

  // ----- the invariant

  /** The thread is in a lock call that has made its exchange. */
  predicate Holding(pc: Pc<Fields>) {
    pc.LockOwner? || pc.MapTake? || pc.MapRecheck? || pc.MapBuffer? || pc.MapPublish? || pc.MapRelease? || pc.ReadBase?
  }

  predicate Unlocking(pc: Pc<Fields>) {
    pc.UnlockLoad? || pc.UnlockOwner? || pc.UnlockClear? || pc.UnlockCas?
  }

  predicate InMapSection(pc: Pc<Fields>) {
    pc.MapRecheck? || pc.MapBuffer? || pc.MapPublish? || pc.MapRelease?
  }

  /** The count is the number of holds, a write hold shows in the word, and a mapping, once made, is the one the
      base address names; only the thread about to mark the word may be ahead of the MAPPED bit. */
  ghost predicate SharedOk(s: State) {
    && s.word.count == |s.holds|
    && (s.word.write ==> exists w: Tid :: Hold(w, true) in s.holds)
    && s.maps <= 1
    && (s.maps == 1 ==> s.mapped.Some?)
    && (s.mapped.Some? ==> s.mapped.value == s.baseAddr)
    && (s.word.mapped ==> s.mapped.Some?)
    && (s.mapped.Some? && !s.word.mapped ==> s.mapLock.Some? && s.PcOf(s.mapLock.value).MapPublish?)
  }

  /** A write hold is the only hold; its thread has stored its id, except just after its exchange and while it
      releases. */
  predicate WriterOk(s: State, t: Tid) {
    Hold(t, true) in s.holds ==>
      && s.word.write && |s.holds| == 1
      && (|| s.PcOf(t).LockOwner?
          || (s.PcOf(t).UnlockCas? && s.PcOf(t).cur.write)
          || (s.writeOwner == t && !s.PcOf(t).UnlockCas?))
  }

  predicate LocalsOk(s: State, t: Tid) {
    match s.PcOf(t)
    case LockCas(u, cur, new_) =>
      && !cur.write && (u.Writes() ==> cur.count == 0)
      && new_ == cur.(write := u.Writes(), count := cur.count + 1)
      && (cur.mapped ==> s.word.mapped)
    case LockOwner(u, cur) => u.Writes() && (cur.mapped ==> s.word.mapped)
    case MapTake(u) => u.Software()
    case MapRecheck(u) => u.Software()
    case MapBuffer(u) => u.Software() && s.mapped == None
    case MapPublish(u) => u.Software() && s.mapped.Some?
    case MapRelease(u, err) => u.Software() && err <= 0 && (err == 0 ==> s.word.mapped)
    case ReadBase(u, err) => u.Software() && err <= 0 && (err == 0 ==> s.word.mapped)
    case UnlockOwner(cur) => cur.write && s.word == cur && s.writeOwner == t && Hold(t, true) in s.holds
    case UnlockClear(cur) => cur.write && s.word == cur && s.writeOwner == t && Hold(t, true) in s.holds
    case UnlockCas(cur, new_) =>
      && 0 < cur.count
      && new_ == cur.(write := false, count := cur.count - 1)
      && (cur.write ==> s.word == cur && Hold(t, true) in s.holds)
      && (!cur.write ==> Hold(t, false) in s.holds)
    case _ => true
  }

  predicate ThreadOk(s: State, t: Tid) {
    && (Holding(s.PcOf(t)) ==> Hold(t, s.PcOf(t).usage.Writes()) in s.holds)
    && (Unlocking(s.PcOf(t)) ==> Owns(s, t))
    && (InMapSection(s.PcOf(t)) <==> s.mapLock == Some(t))
    && WriterOk(s, t)
    && LocalsOk(s, t)
  }

  predicate ReturnOk(s: State, r: Return) {
    match r
    case Locked(t, u, err, vaddr) =>
      && err <= 0
      && if u.swRead || u.swWrite then vaddr.Some? && (err == 0 ==> s.mapped == vaddr) else vaddr == None && err == 0
    case NotLocked(t) => false
    case _ => true
  }

  ghost predicate Inv(s: State) {
    && SharedOk(s)
    && (forall t: Tid :: ThreadOk(s, t))
    && (forall i :: 0 <= i < |s.log| ==> ReturnOk(s, s.log[i]))
  }

  lemma InitialInv(s: State)
    requires Initial(s)
    ensures Inv(s)
  {
  }

  // ----- every step keeps it

  /** What thread x may count on while another thread steps. */
  predicate Rely(s: State, s': State, x: Tid) {
    && s'.PcOf(x) == s.PcOf(x)
    && (Hold(x, true) in s'.holds <==> Hold(x, true) in s.holds)
    && (Hold(x, false) in s'.holds <==> Hold(x, false) in s.holds)
    && (Hold(x, true) in s.holds ==>
          && s'.word == s.word
          && s'.holds == s.holds && s'.writeOwner == s.writeOwner)
    && (s'.mapLock == Some(x) <==> s.mapLock == Some(x))
    && (s.mapLock == Some(x) ==> s'.mapped == s.mapped)
    && (s.word.mapped ==> s'.word.mapped)
  }

  lemma RelyKeeps(s: State, s': State, x: Tid)
    requires ThreadOk(s, x) && Rely(s, s', x)
    ensures ThreadOk(s', x)
  {
  }

  lemma Others(s: State, s': State, t: Tid)
    requires Inv(s) && ThreadOk(s', t)
    requires forall x: Tid :: x != t ==> Rely(s, s', x)
    ensures forall x: Tid :: ThreadOk(s', x)
  {
    forall x: Tid
      ensures ThreadOk(s', x)
    {
      if x != t {
        RelyKeeps(s, s', x);
      }
    }
  }

  lemma OnlyElement(m: multiset<Hold>, x: Hold, y: Hold)
    requires |m| == 1 && x in m && y in m
    ensures x == y && m == multiset{x}
  {
    assert |m - multiset{x}| == 0;
    assert m == multiset{x} + (m - multiset{x});
  }

  /** A write hold excludes every other thread's holds. */
  lemma SoleHolder(s: State, t: Tid, w: Tid)
    requires Inv(s) && Owns(s, t) && Hold(w, true) in s.holds
    ensures t == w && s.holds == multiset{Hold(w, true)}
  {
    assert ThreadOk(s, w);
    OnlyElement(s.holds, Hold(w, true), if Hold(t, true) in s.holds then Hold(t, true) else Hold(t, false));
  }

  lemma HolderWrites(s: State, t: Tid)
    requires Inv(s) && Owns(s, t) && s.word.write
    ensures Hold(t, true) in s.holds && s.holds == multiset{Hold(t, true)}
  {
    var w: Tid :| Hold(w, true) in s.holds;
    SoleHolder(s, t, w);
  }

  lemma LockLoadInv(s: State, t: Tid, u: Usage)
    requires Inv(s) && s.PcOf(t) == LockLoad(u)
    ensures Inv(LockLoaded(s, t, u))
  {
    assert ThreadOk(s, t);
    Others(s, LockLoaded(s, t, u), t);
  }

  lemma LockCasFailsInv(s: State, t: Tid, u: Usage, cur: Fields, new_: Fields)
    requires Inv(s) && s.PcOf(t) == LockCas(u, cur, new_) && s.word != cur
    ensures Inv(LockExchanged(s, t, u, cur, new_))
  {
    assert ThreadOk(s, t);
    Others(s, LockExchanged(s, t, u, cur, new_), t);
  }

  /** The exchange itself, whatever step the thread takes next. */
  lemma ExchangeKeepsOthers(s: State, s': State, t: Tid)
    requires Inv(s) && !s.word.write
    requires s'.word.mapped == s.word.mapped && s'.mapLock == s.mapLock && s'.mapped == s.mapped
    requires exists w :: s'.holds == s.holds + multiset{Hold(t, w)}
    requires forall x: Tid :: x != t ==> s'.PcOf(x) == s.PcOf(x)
    ensures forall x: Tid :: x != t ==> ThreadOk(s', x)
  {
    forall x: Tid | x != t
      ensures ThreadOk(s', x)
    {
      assert ThreadOk(s, x);
      RelyKeeps(s, s', x);
    }
  }

  lemma LockCasShared(s: State, t: Tid, u: Usage, cur: Fields, new_: Fields)
    requires Inv(s) && s.PcOf(t) == LockCas(u, cur, new_) && s.word == cur
    ensures SharedOk(LockExchanged(s, t, u, cur, new_))
    ensures forall i :: 0 <= i < |s.log| ==> ReturnOk(LockExchanged(s, t, u, cur, new_), s.log[i])
  {
    var s' := LockExchanged(s, t, u, cur, new_);
    assert ThreadOk(s, t);
    assert Hold(t, u.Writes()) in s'.holds;
  }

  lemma LockCasOwn(s: State, t: Tid, u: Usage, cur: Fields, new_: Fields)
    requires Inv(s) && s.PcOf(t) == LockCas(u, cur, new_) && s.word == cur
    ensures ThreadOk(LockExchanged(s, t, u, cur, new_), t)
  {
    hide SharedOk, ReturnOk;
    assert |s.holds| == s.word.count by { CountIsHolds(s); }
    var s' := LockExchanged(s, t, u, cur, new_);
    assert ThreadOk(s, t);
    assert Hold(t, u.Writes()) in s'.holds;
  }

  lemma CountIsHolds(s: State)
    requires SharedOk(s)
    ensures |s.holds| == s.word.count
  {
  }

  lemma LockCasInv(s: State, t: Tid, u: Usage, cur: Fields, new_: Fields)
    requires Inv(s) && s.PcOf(t) == LockCas(u, cur, new_) && s.word == cur
    ensures Inv(LockExchanged(s, t, u, cur, new_))
  {
    var s' := LockExchanged(s, t, u, cur, new_);
    assert ThreadOk(s, t);
    LockCasShared(s, t, u, cur, new_);
    LockCasOwn(s, t, u, cur, new_);
    ExchangeKeepsOthers(s, s', t);
    hide SharedOk, ReturnOk, ThreadOk;
  }

  lemma LockOwnerInv(s: State, t: Tid, u: Usage, cur: Fields)
    requires Inv(s) && s.PcOf(t) == LockOwner(u, cur)
    ensures Inv(AfterOwner(s.(writeOwner := t), t, u, cur))
  {
    var s' := AfterOwner(s.(writeOwner := t), t, u, cur);
    assert ThreadOk(s, t);
    forall x: Tid | x != t
      ensures Rely(s, s', x)
    {
      if Hold(x, true) in s.holds {
        SoleHolder(s, t, x);
      }
    }
    Others(s, s', t);
  }

  lemma MapTakeInv(s: State, t: Tid, r: MapResult)
    requires Inv(s) && (s.PcOf(t).MapTake? || s.PcOf(t).ReadBase?)
    ensures Inv(StepOf(s, t, r))
  {
    var s' := StepOf(s, t, r);
    assert ThreadOk(s, t);
    forall x: Tid | x != t
      ensures Rely(s, s', x)
    {
      if Hold(x, true) in s.holds {
        SoleHolder(s, t, x);
      }
    }
    Others(s, s', t);
  }

  lemma MapBufferInv(s: State, t: Tid, r: MapResult)
    requires Inv(s) && (s.PcOf(t).MapRecheck? || s.PcOf(t).MapBuffer?)
    ensures Inv(StepOf(s, t, r))
  {
    var s' := StepOf(s, t, r);
    assert ThreadOk(s, t);
    forall x: Tid | x != t
      ensures Rely(s, s', x)
    {
      if Hold(x, true) in s.holds {
        SoleHolder(s, t, x);
      }
    }
    Others(s, s', t);
  }

  lemma MapPublishInv(s: State, t: Tid, r: MapResult)
    requires Inv(s) && (s.PcOf(t).MapPublish? || s.PcOf(t).MapRelease?)
    ensures Inv(StepOf(s, t, r))
  {
    var s' := StepOf(s, t, r);
    assert ThreadOk(s, t);
    forall x: Tid | x != t
      ensures Rely(s, s', x)
    {
      if Hold(x, true) in s.holds {
        SoleHolder(s, t, x);
      }
    }
    Others(s, s', t);
  }

  lemma UnlockLoadInv(s: State, t: Tid)
    requires Inv(s) && s.PcOf(t) == UnlockLoad
    ensures Inv(UnlockLoaded(s, t))
  {
    assert ThreadOk(s, t);
    if s.word.write {
      HolderWrites(s, t);
    }
    Others(s, UnlockLoaded(s, t), t);
  }

  lemma UnlockOwnerInv(s: State, t: Tid, r: MapResult)
    requires Inv(s) && (s.PcOf(t).UnlockOwner? || s.PcOf(t).UnlockClear?)
    ensures Inv(StepOf(s, t, r))
  {
    var s' := StepOf(s, t, r);
    assert ThreadOk(s, t);
    forall x: Tid | x != t
      ensures Rely(s, s', x)
    {
      if Hold(x, true) in s.holds {
        SoleHolder(s, t, x);
      }
    }
    Others(s, s', t);
  }

  lemma UnlockCasFailsInv(s: State, t: Tid, cur: Fields, new_: Fields)
    requires Inv(s) && s.PcOf(t) == UnlockCas(cur, new_) && s.word != cur
    ensures Inv(UnlockExchanged(s, t, cur, new_))
  {
    assert ThreadOk(s, t);
    Others(s, UnlockExchanged(s, t, cur, new_), t);
  }

  lemma UnlockCasInv(s: State, t: Tid, cur: Fields, new_: Fields)
    requires Inv(s) && s.PcOf(t) == UnlockCas(cur, new_) && s.word == cur
    ensures Inv(UnlockExchanged(s, t, cur, new_))
  {
    var s' := UnlockExchanged(s, t, cur, new_);
    assert ThreadOk(s, t);
    forall x: Tid | x != t
      ensures Rely(s, s', x)
    {
      if Hold(x, true) in s.holds {
        SoleHolder(s, t, x);
      }
    }
    Others(s, s', t);
  }

  lemma CallInv(s: State, a: Action)
    requires Inv(s) && Allowed(s, a) && (a.BeginLock? || a.BeginUnlock?)
    ensures Inv(Next(s, a))
  {
    assert ThreadOk(s, a.tid);
    Others(s, Next(s, a), a.tid);
  }

  lemma ResetInv(s: State)
    requires Inv(s) && Allowed(s, Reset)
    ensures Inv(Next(s, Reset))
  {
    var s' := Next(s, Reset);
    assert |s.holds| == 0;
    forall x: Tid
      ensures ThreadOk(s', x)
    {
      assert ThreadOk(s, x);
      assert s.PcOf(x) == Idle;
    }
  }

  /** Every allowed step of every thread keeps the invariant. */
  lemma StepInv(s: State, a: Action)
    requires Inv(s) && Allowed(s, a)
    ensures Inv(Next(s, a))
  {
    match a
    case BeginLock(t, u) => CallInv(s, a);
    case BeginUnlock(t) => CallInv(s, a);
    case Reset => ResetInv(s);
    case Advance(t, r) =>
      match s.PcOf(t)
      case Idle =>
      case LockLoad(u) => LockLoadInv(s, t, u);
      case LockCas(u, cur, new_) =>
        if s.word == cur {
          LockCasInv(s, t, u, cur, new_);
        } else {
          LockCasFailsInv(s, t, u, cur, new_);
        }
      case LockOwner(u, cur) => LockOwnerInv(s, t, u, cur);
      case MapTake(u) => MapTakeInv(s, t, r);
      case MapRecheck(u) => MapBufferInv(s, t, r);
      case MapBuffer(u) => MapBufferInv(s, t, r);
      case MapPublish(u) => MapPublishInv(s, t, r);
      case MapRelease(u, err) => MapPublishInv(s, t, r);
      case ReadBase(u, err) => MapTakeInv(s, t, r);
      case UnlockLoad => UnlockLoadInv(s, t);
      case UnlockOwner(cur) => UnlockOwnerInv(s, t, r);
      case UnlockClear(cur) => UnlockOwnerInv(s, t, r);
      case UnlockCas(cur, new_) =>
        if s.word == cur {
          UnlockCasInv(s, t, cur, new_);
        } else {
          UnlockCasFailsInv(s, t, cur, new_);
        }
  }

  lemma {:induction false} RunInv(s: State, schedule: seq<Action>)
    requires Inv(s) && Disciplined(s, schedule)
    ensures Inv(Run(s, schedule))
    decreases |schedule|
  {
    if schedule != [] {
      StepInv(s, schedule[0]);
      RunInv(Next(s, schedule[0]), schedule[1..]);
    }
  }

  // ----- what holds after every disciplined run of any number of threads

  /** The count is the number of outstanding holds; WRITE is set exactly when one of them is a write hold, and
      then it is the only one; with no hold out, WRITE is clear and the count is zero. */
  lemma LockSafety(s: State, schedule: seq<Action>)
    requires Initial(s) && Disciplined(s, schedule)
    ensures var e := Run(s, schedule);
      && e.word.count == |e.holds|
      && (e.word.write <==> exists w: Tid :: Hold(w, true) in e.holds)
      && (forall w: Tid :: Hold(w, true) in e.holds ==> e.holds == multiset{Hold(w, true)})
      && (e.holds == multiset{} ==> !e.word.write && e.word.count == 0)
  {
    InitialInv(s);
    RunInv(s, schedule);
    var e := Run(s, schedule);
    forall w: Tid | Hold(w, true) in e.holds
      ensures e.word.write && e.holds == multiset{Hold(w, true)}
    {
      assert ThreadOk(e, w);
      OnlyElement(e.holds, Hold(w, true), Hold(w, true));
    }
  }

  /** The releasing exchange of a writer never fails, and it leaves the word unlocked: clearing writeOwner before
      the exchange never strands the WRITE bit. */
  lemma WriterReleasesAtOnce(s: State, schedule: seq<Action>, t: Tid, r: MapResult)
    requires Initial(s) && Disciplined(s, schedule)
    requires var pc := Run(s, schedule).PcOf(t); pc.UnlockCas? && pc.cur.write
    ensures var e := Run(s, schedule); var e' := Next(e, Advance(t, r));
      && e'.PcOf(t) == Idle && e'.log == e.log + [Unlocked(t)]
      && e'.holds == multiset{}
      && e'.word == Fields(false, e.word.mapped, 0)
  {
    InitialInv(s);
    RunInv(s, schedule);
    var e := Run(s, schedule);
    assert ThreadOk(e, t);
    HolderWrites(e, t);
  }

  /** A thread in unlock that finds WRITE set finds its own id stored, so the write hold is always released as
      one; and no unlock of a held lock reports "not locked". */
  lemma UnlockFindsItself(s: State, schedule: seq<Action>, t: Tid)
    requires Initial(s) && Disciplined(s, schedule)
    ensures var e := Run(s, schedule);
      && (e.PcOf(t).UnlockOwner? ==> e.writeOwner == t)
      && NotLocked(t) !in e.log
  {
    InitialInv(s);
    RunInv(s, schedule);
    var e := Run(s, schedule);
    assert ThreadOk(e, t);
    assert !ReturnOk(e, NotLocked(t));
  }

  /** The mappings that are made in a run. */
  function Mappings(s: State, schedule: seq<Action>): nat
    decreases |schedule|
  {
    if schedule == [] then 0 else (if Maps(s, schedule[0]) then 1 else 0) + Mappings(Next(s, schedule[0]), schedule[1..])
  }

  predicate Maps(s: State, a: Action) {
    a.Advance? && s.PcOf(a.tid).MapBuffer? && (s.isFb || a.mmap.Mapped?)
  }

  lemma {:induction false} MapsCounted(s: State, schedule: seq<Action>)
    requires Reset !in schedule
    ensures Run(s, schedule).maps == s.maps + Mappings(s, schedule)
    decreases |schedule|
  {
    hide Next, Maps;
    if schedule != [] {
      MapsStep(s, schedule[0]);
      MapsCounted(Next(s, schedule[0]), schedule[1..]);
    }
  }

  lemma MapsStep(s: State, a: Action)
    requires !a.Reset?
    ensures Next(s, a).maps == s.maps + if Maps(s, a) then 1 else 0
  {
  }

  /** However many threads lock the buffer, it is mapped at most once until it is registered or unregistered. */
  lemma MapsAtMostOnce(s: State, schedule: seq<Action>)
    requires Inv(s) && Disciplined(s, schedule) && Reset !in schedule
    ensures s.maps + Mappings(s, schedule) <= 1
    ensures s.word.mapped ==> Mappings(s, schedule) == 0
  {
    RunInv(s, schedule);
    MapsCounted(s, schedule);
    if s.word.mapped {
      MarkedNeverMaps(s, schedule);
    }
  }

  lemma {:induction false} MarkedNeverMaps(s: State, schedule: seq<Action>)
    requires Inv(s) && Disciplined(s, schedule) && Reset !in schedule && s.word.mapped
    ensures Mappings(s, schedule) == 0
    decreases |schedule|
  {
    if schedule != [] {
      assert ThreadOk(s, schedule[0].tid);
      StepInv(s, schedule[0]);
      StepKeepsMapped(s, schedule[0]);
      hide Inv, Next, Allowed;
      MarkedNeverMaps(Next(s, schedule[0]), schedule[1..]);
    }
  }

  /** At most one mapping is made between registrations. Every lock for software use that returned 0 returned the
      address it published; every other lock returned 0 and no address. */
  lemma MappedOnce(s: State, schedule: seq<Action>)
    requires Initial(s) && Disciplined(s, schedule)
    ensures var e := Run(s, schedule);
      && e.maps <= 1
      && forall r <- e.log :: r.Locked? ==>
           if r.usage.swRead || r.usage.swWrite then r.vaddr.Some? && (r.err == 0 ==> e.mapped == r.vaddr)
           else r.vaddr == None && r.err == 0
  {
    InitialInv(s);
    RunInv(s, schedule);
    var e := Run(s, schedule);
    forall r | r in e.log && r.Locked?
      ensures ReturnOk(e, r)
    {
      var i :| 0 <= i < |e.log| && e.log[i] == r;
    }
  }

  /** A lock that is not for software use takes no part in the mapping. */
  lemma OnlySoftwareMaps(s: State, schedule: seq<Action>, t: Tid)
    requires Initial(s) && Disciplined(s, schedule)
    ensures var pc := Run(s, schedule).PcOf(t);
      InMapSection(pc) || pc.MapTake? || pc.ReadBase? ==> pc.usage.swRead || pc.usage.swWrite
  {
    InitialInv(s);
    RunInv(s, schedule);
    assert ThreadOk(Run(s, schedule), t);
  }

  lemma StepKeepsMapped(s: State, a: Action)
    requires Inv(s) && Allowed(s, a) && s.word.mapped && !a.Reset?
    ensures var s' := Next(s, a); s'.word.mapped && s'.mapped == s.mapped && s'.baseAddr == s.baseAddr
  {
    assert ThreadOk(s, a.tid);
  }

  /** Once set, MAPPED survives every step of every thread until the next register or unregister, and the address
      it stands for does not change. */
  lemma {:induction false} MappedStays(s: State, schedule: seq<Action>)
    requires Inv(s) && Disciplined(s, schedule) && s.word.mapped && Reset !in schedule
    ensures var e := Run(s, schedule); e.word.mapped && e.mapped == s.mapped && e.baseAddr == s.baseAddr
    decreases |schedule|
  {
    if schedule != [] {
      StepInv(s, schedule[0]);
      StepKeepsMapped(s, schedule[0]);
      MappedStays(Next(s, schedule[0]), schedule[1..]);
    }
  }

  /** A lock is refused exactly when a writer holds the buffer, or anybody does and the request is for writing;
      a refusal leaves everything shared as it was. */
  lemma RefusedExactlyWhen(s: State, t: Tid, u: Usage, r: MapResult)
    requires Inv(s) && s.PcOf(t) == LockLoad(u)
    ensures var s' := Next(s, Advance(t, r));
      && (s'.log == s.log + [Busy(t)] <==>
            || (exists w: Tid :: Hold(w, true) in s.holds)
            || ((u.swWrite || u.hwRender) && s.holds != multiset{}))
      && s' == s.(pcs := s'.pcs, log := s'.log)
  {
    forall w: Tid | Hold(w, true) in s.holds
      ensures s.word.write
    {
      assert ThreadOk(s, w);
    }
    assert s.log + [Busy(t)] != s.log;
  }

  /** A lock call returns with its hold, also when the mapping failed and it reports the error. */
  lemma ReturnsHolding(s: State, t: Tid, r: MapResult)
    requires Inv(s) && Holding(s.PcOf(t))
    ensures var s' := Next(s, Advance(t, r));
      s'.holds == s.holds && Hold(t, s.PcOf(t).usage.Writes()) in s'.holds
  {
    assert ThreadOk(s, t);
  }

  // ----- what a call comes to when its thread is left alone

  function Alone(t: Tid, r: MapResult, n: nat): seq<Action> {
    seq(n, _ => Advance(t, r))
  }

  function Steps(s: State, t: Tid, r: MapResult, n: nat): State
    decreases n
  {
    if n == 0 then s else Steps(StepOf(s, t, r), t, r, n - 1)
  }

  lemma {:induction false} RunAlone(s: State, t: Tid, r: MapResult, n: nat)
    ensures Run(s, Alone(t, r, n)) == Steps(s, t, r, n)
    decreases n
  {
    hide StepOf;
    if n != 0 {
      assert Alone(t, r, n)[1..] == Alone(t, r, n - 1);
      RunAlone(StepOf(s, t, r), t, r, n - 1);
    }
  }

  /** A call, and then the thread alone. */
  lemma CallAlone(s: State, call: Action, t: Tid, r: MapResult, n: nat)
    ensures Run(s, [call] + Alone(t, r, n)) == Steps(Next(s, call), t, r, n)
  {
    hide Next, Steps;
    assert ([call] + Alone(t, r, n))[1..] == Alone(t, r, n);
    RunAlone(Next(s, call), t, r, n);
  }

  lemma {:induction false} StepsAdd(s: State, t: Tid, r: MapResult, m: nat, n: nat)
    ensures Steps(s, t, r, m + n) == Steps(Steps(s, t, r, m), t, r, n)
    decreases m
  {
    hide StepOf;
    if m != 0 {
      StepsAdd(StepOf(s, t, r), t, r, m - 1, n);
    }
  }

  lemma {:induction false} IdleStays(s: State, t: Tid, r: MapResult, n: nat)
    requires s.PcOf(t) == Idle
    ensures Steps(s, t, r, n) == s
    decreases n
  {
    if n != 0 {
      assert StepOf(s, t, r) == s;
      IdleStays(s, t, r, n - 1);
    }
  }

  /** What a software lock comes to: the address that is published, or the error. */
  datatype Outcome = Outcome(err: int, base: int, mapped: bool)

  function MapOutcome(s: State, r: MapResult): Outcome {
    if s.word.mapped || s.isFb then Outcome(0, s.baseAddr, true)
    else match r
      case Mapped(base) => Outcome(0, base, true)
      case MapError(errno) => Outcome(-(errno + 1), s.baseAddr, false)
  }

  /** The call has returned r; the rest of what threads share is as given. */
  ghost predicate Ended(s: State, s': State, t: Tid, ret: Return) {
    && s'.PcOf(t) == Idle && s'.log == s.log + [ret]
    && s'.isFb == s.isFb
    && forall x: Tid :: x != t ==> s'.PcOf(x) == s.PcOf(x)
  }

  lemma ReleasedAlone(s: State, t: Tid, u: Usage, err: int, r: MapResult)
    requires s.PcOf(t) == MapRelease(u, err)
    ensures var s' := Steps(s, t, r, 2);
      && Ended(s, s', t, Locked(t, u, err, Some(s.baseAddr)))
      && s'.word == s.word && s'.baseAddr == s.baseAddr && s'.holds == s.holds && s'.mapLock == None
  {
    var s1 := StepOf(s, t, r);
    assert s1.PcOf(t) == ReadBase(u, err);
    var s2 := StepOf(s1, t, r);
    assert Steps(s, t, r, 2) == s2;
  }

  lemma MappedAlone(s: State, t: Tid, u: Usage, r: MapResult)
    requires s.PcOf(t) == MapBuffer(u) && !s.word.mapped
    ensures var s', o := Steps(s, t, r, 4), MapOutcome(s, r);
      && Ended(s, s', t, Locked(t, u, o.err, Some(o.base)))
      && s'.word == s.word.(mapped := o.mapped) && s'.baseAddr == o.base && s'.holds == s.holds && s'.mapLock == None
  {
    var s1 := StepOf(s, t, r);
    if s1.PcOf(t).MapPublish? {
      var s2 := StepOf(s1, t, r);
      assert s2.PcOf(t) == MapRelease(u, 0);
      ReleasedAlone(s2, t, u, 0, r);
      StepsAdd(s, t, r, 2, 2);
      assert Steps(s, t, r, 2) == s2;
    } else {
      ReleasedAlone(s1, t, u, s1.PcOf(t).err, r);
      StepsAdd(s, t, r, 1, 2);
      assert Steps(s, t, r, 1) == s1;
      StepsAdd(s, t, r, 3, 1);
      IdleStays(Steps(s, t, r, 3), t, r, 1);
    }
  }

  lemma MapAlone(s: State, t: Tid, u: Usage, r: MapResult)
    requires s.PcOf(t) == MapTake(u) && s.mapLock == None
    ensures var s', o := Steps(s, t, r, 6), MapOutcome(s, r);
      && Ended(s, s', t, Locked(t, u, o.err, Some(o.base)))
      && s'.word == s.word.(mapped := o.mapped) && s'.baseAddr == o.base && s'.holds == s.holds && s'.mapLock == None
  {
    var s1 := StepOf(s, t, r);
    assert s1.PcOf(t) == MapRecheck(u);
    var s2 := StepOf(s1, t, r);
    assert Steps(s, t, r, 2) == s2;
    if s.word.mapped {
      ReleasedAlone(s2, t, u, 0, r);
      StepsAdd(s, t, r, 2, 2);
      StepsAdd(s, t, r, 4, 2);
      IdleStays(Steps(s, t, r, 4), t, r, 2);
    } else {
      MappedAlone(s2, t, u, r);
      StepsAdd(s, t, r, 2, 4);
    }
  }

  /** Left alone after its exchange, a lock for software use returns the published address, mapping the buffer first
      if its word was not marked; any other returns at once. */
  lemma AfterAlone(s: State, t: Tid, u: Usage, cur: Fields, r: MapResult)
    requires s.mapLock == None && (cur.mapped ==> s.word.mapped)
    ensures var s' := Steps(AfterOwner(s, t, u, cur), t, r, 6);
      && s'.holds == s.holds && s'.mapLock == None
      && if u.swRead || u.swWrite then
           var o := MapOutcome(s, r);
           && Ended(s, s', t, Locked(t, u, o.err, Some(o.base)))
           && s'.word == s.word.(mapped := o.mapped) && s'.baseAddr == o.base
         else
           && Ended(s, s', t, Locked(t, u, 0, None))
           && s'.word == s.word && s'.baseAddr == s.baseAddr
  {
    hide MapOutcome;
    var s1 := AfterOwner(s, t, u, cur);
    if s1.PcOf(t) == Idle {
      IdleStays(s1, t, r, 6);
    } else if cur.mapped {
      assert MapOutcome(s, r) == Outcome(0, s.baseAddr, true) by { MarkedOutcome(s, r); }
      var s2 := StepOf(s1, t, r);
      assert s2.PcOf(t) == Idle;
      IdleStays(s2, t, r, 5);
      assert Steps(s1, t, r, 6) == Steps(s2, t, r, 5);
    } else {
      MapAlone(s1, t, u, r);
      SameOutcome(s, s1, r);
    }
  }

  lemma MarkedOutcome(s: State, r: MapResult)
    requires s.word.mapped
    ensures MapOutcome(s, r) == Outcome(0, s.baseAddr, true)
  {
  }

  lemma SameOutcome(s: State, s1: State, r: MapResult)
    requires s1.word.mapped == s.word.mapped && s1.baseAddr == s.baseAddr && s1.isFb == s.isFb
    ensures MapOutcome(s1, r) == MapOutcome(s, r)
  {
  }

  lemma ExchangedAlone(s: State, t: Tid, u: Usage, new_: Fields, r: MapResult)
    requires s.PcOf(t) == LockCas(u, s.word, new_) && new_ == s.word.(write := u.Writes(), count := s.word.count + 1)
    requires s.mapLock == None
    ensures var s' := Steps(s, t, r, 8);
      && s'.holds == s.holds + multiset{Hold(t, u.swWrite || u.hwRender)} && s'.mapLock == None
      && if u.swRead || u.swWrite then
           var o := MapOutcome(s, r);
           && Ended(s, s', t, Locked(t, u, o.err, Some(o.base)))
           && s'.word == new_.(mapped := o.mapped) && s'.baseAddr == o.base
         else
           && Ended(s, s', t, Locked(t, u, 0, None))
           && s'.word == new_ && s'.baseAddr == s.baseAddr
  {
    hide MapOutcome, AfterOwner;
    var s1 := s.(word := new_, holds := s.holds + multiset{Hold(t, u.Writes())});
    if u.Writes() {
      var s2 := StepOf(s, t, r);
      assert s2 == s1.At(t, LockOwner(u, s.word));
      var s3 := s2.(writeOwner := t);
      AfterAlone(s3, t, u, s.word, r);
      SameOutcome(s, s3, r);
      assert StepOf(s2, t, r) == AfterOwner(s3, t, u, s.word);
      assert Steps(s, t, r, 8) == Steps(s2, t, r, 7) == Steps(AfterOwner(s3, t, u, s.word), t, r, 6);
    } else {
      AfterAlone(s1, t, u, s.word, r);
      SameOutcome(s, s1, r);
      assert StepOf(s, t, r) == AfterOwner(s1, t, u, s.word);
      StepsAdd(s, t, r, 7, 1);
      assert Steps(s, t, r, 7) == Steps(AfterOwner(s1, t, u, s.word), t, r, 6);
      IdleStays(Steps(s, t, r, 7), t, r, 1);
    }
  }

  /** A lock that is not refused, left alone with the map mutex free, returns within nine steps holding the buffer,
      for writing exactly if it asked to write or to render: with the address for software use, mapping the buffer if
      that has not been done, or with the error of the mapping. */
  lemma LockReturns(s: State, t: Tid, u: Usage, r: MapResult)
    requires Inv(s) && Allowed(s, BeginLock(t, u)) && s.mapLock == None
    requires !s.word.write && ((u.swWrite || u.hwRender) ==> s.holds == multiset{})
    ensures var s' := Run(s, [BeginLock(t, u)] + Alone(t, r, 9));
      && s'.holds == s.holds + multiset{Hold(t, u.swWrite || u.hwRender)}
      && s'.word.count == s.word.count + 1 && (s'.word.write <==> u.swWrite || u.hwRender)
      && s'.mapLock == None
      && if u.swRead || u.swWrite then
           var o := MapOutcome(s, r);
           && Ended(s, s', t, Locked(t, u, o.err, Some(o.base)))
           && s'.word.mapped == o.mapped && s'.baseAddr == o.base
         else
           && Ended(s, s', t, Locked(t, u, 0, None))
           && s'.word.mapped == s.word.mapped && s'.baseAddr == s.baseAddr
  {
    hide MapOutcome, Ended, StepOf, Steps;
    var new_ := s.word.(write := u.Writes(), count := s.word.count + 1);
    var s1 := s.At(t, LockCas(u, s.word, new_));
    LoadedAlone(s, t, u, r);
    hide Inv, Run, Allowed;
    ExchangedAlone(s1, t, u, new_, r);
    SameOutcome(s, s1, r);
    var s', o := Steps(s1, t, r, 8), MapOutcome(s, r);
    SameEnd(s, s1, s', t, if u.swRead || u.swWrite then Locked(t, u, o.err, Some(o.base)) else Locked(t, u, 0, None));
  }

  lemma LoadedAlone(s: State, t: Tid, u: Usage, r: MapResult)
    requires Inv(s) && s.PcOf(t) == Idle
    requires !s.word.write && ((u.swWrite || u.hwRender) ==> s.holds == multiset{})
    ensures var new_ := s.word.(write := u.Writes(), count := s.word.count + 1);
      Run(s, [BeginLock(t, u)] + Alone(t, r, 9)) == Steps(s.At(t, LockCas(u, s.word, new_)), t, r, 8)
  {
    assert s.word.count == |s.holds|;
    hide Inv, Run, StepOf;
    CallAlone(s, BeginLock(t, u), t, r, 9);
    LoadStep(s, t, u, r);
    hide Next, Steps;
    FirstStep(s.At(t, LockLoad(u)), t, r, 8);
  }

  lemma FirstStep(s: State, t: Tid, r: MapResult, n: nat)
    ensures Steps(s, t, r, n + 1) == Steps(StepOf(s, t, r), t, r, n)
  {
  }

  lemma LoadStep(s: State, t: Tid, u: Usage, r: MapResult)
    requires !s.word.write && (u.Writes() ==> s.word.count == 0)
    ensures var new_ := s.word.(write := u.Writes(), count := s.word.count + 1);
      StepOf(s.At(t, LockLoad(u)), t, r) == s.At(t, LockCas(u, s.word, new_))
  {
    var s0 := s.At(t, LockLoad(u));
    var new_ := s.word.(write := u.Writes(), count := s.word.count + 1);
    assert StepOf(s0, t, r) == s0.At(t, LockCas(u, s.word, new_));
  }

  /** An exchange that finds another word changes nothing, and the call starts over with a new load. */
  lemma FailedExchangeRetries(s: State, t: Tid, r: MapResult)
    requires s.PcOf(t).LockCas? || s.PcOf(t).UnlockCas?
    requires s.word != s.PcOf(t).cur
    ensures var s' := Next(s, Advance(t, r));
      && s' == s.(pcs := s'.pcs)
      && s'.PcOf(t) == (if s.PcOf(t).LockCas? then LockLoad(s.PcOf(t).usage) else UnlockLoad)
      && forall x: Tid :: x != t ==> s'.PcOf(x) == s.PcOf(x)
  {
  }

  lemma LastExchange(s: State, t: Tid, new_: Fields, r: MapResult, n: nat)
    requires s.PcOf(t) == UnlockCas(s.word, new_) && 1 <= n
    ensures var s' := Steps(s, t, r, n);
      && Ended(s, s', t, Unlocked(t)) && s'.word == new_ && s'.baseAddr == s.baseAddr && s'.mapped == s.mapped
      && s'.writeOwner == s.writeOwner
      && s'.holds == s.holds - multiset{Hold(t, s.word.write && !new_.write)}
  {
    var s1 := StepOf(s, t, r);
    assert s1.PcOf(t) == Idle;
    IdleStays(s1, t, r, n - 1);
  }

  lemma WriterAlone(s: State, t: Tid, r: MapResult)
    requires s.PcOf(t) == UnlockLoad && s.word.write && s.writeOwner == t && 0 < s.word.count
    ensures var s' := Steps(s, t, r, 4);
      && Ended(s, s', t, Unlocked(t)) && s'.baseAddr == s.baseAddr && s'.mapped == s.mapped
      && s'.word == Fields(false, s.word.mapped, s.word.count - 1)
      && s'.holds == s.holds - multiset{Hold(t, true)}
  {
    hide Ended, UnlockExchanged;
    var s1 := s.At(t, UnlockOwner(s.word));
    assert StepOf(s, t, r) == s1;
    var s2 := s1.At(t, UnlockClear(s.word));
    assert StepOf(s1, t, r) == s2;
    var new_ := Fields(false, s.word.mapped, s.word.count - 1);
    var s3 := s2.(writeOwner := 0).At(t, UnlockCas(s.word, new_));
    assert StepOf(s2, t, r) == s3;
    LastExchange(s3, t, new_, r, 1);
    SameEnd(s, s3, Steps(s3, t, r, 1), t, Unlocked(t));
    assert Steps(s, t, r, 4) == Steps(s1, t, r, 3) == Steps(s2, t, r, 2) == Steps(s3, t, r, 1);
  }

  lemma SameEnd(s: State, s1: State, s': State, t: Tid, ret: Return)
    requires Ended(s1, s', t, ret) && s1.log == s.log && s1.isFb == s.isFb
    requires forall x: Tid :: x != t ==> s1.PcOf(x) == s.PcOf(x)
    ensures Ended(s, s', t, ret)
  {
  }

  lemma ReaderAlone(s: State, t: Tid, r: MapResult)
    requires s.PcOf(t) == UnlockLoad && !s.word.write && 0 < s.word.count
    ensures var s' := Steps(s, t, r, 4);
      && Ended(s, s', t, Unlocked(t)) && s'.baseAddr == s.baseAddr && s'.mapped == s.mapped
      && s'.word == Fields(false, s.word.mapped, s.word.count - 1)
      && s'.holds == s.holds - multiset{Hold(t, false)}
  {
    hide Ended, UnlockExchanged;
    var new_ := s.word.(count := s.word.count - 1);
    var s1 := s.At(t, UnlockCas(s.word, new_));
    assert StepOf(s, t, r) == s1;
    LastExchange(s1, t, new_, r, 3);
    SameEnd(s, s1, Steps(s1, t, r, 3), t, Unlocked(t));
    assert Steps(s, t, r, 4) == Steps(s1, t, r, 3);
  }

  /** An unlock left alone returns within four steps and gives up exactly one hold of its thread, a writer's or a
      reader's; the mapping stays. */
  lemma UnlockReturns(s: State, t: Tid, r: MapResult)
    requires Inv(s) && Allowed(s, BeginUnlock(t))
    ensures var s', h := Run(s, [BeginUnlock(t)] + Alone(t, r, 4)), Hold(t, s.word.write);
      && Ended(s, s', t, Unlocked(t))
      && h in s.holds && s'.holds == s.holds - multiset{h}
      && s'.word == Fields(false, s.word.mapped, s.word.count - 1)
      && s'.baseAddr == s.baseAddr && s'.mapped == s.mapped
  {
    hide Ended, StepOf;
    var s0 := s.At(t, UnlockLoad);
    CallAlone(s, BeginUnlock(t), t, r, 4);
    assert s0 == Next(s, BeginUnlock(t));
    StepInv(s, BeginUnlock(t));
    assert ThreadOk(s0, t);
    if s.word.write {
      HolderWrites(s0, t);
      WriterAlone(s0, t, r);
    } else {
      ReaderHolds(s0, t);
      ReaderAlone(s0, t, r);
    }
    hide Inv, Next, Allowed;
    SameEnd(s, s0, Steps(s0, t, r, 4), t, Unlocked(t));
  }

  lemma ReaderHolds(s: State, t: Tid)
    requires Inv(s) && Owns(s, t) && !s.word.write
    ensures Hold(t, false) in s.holds && 0 < |s.holds|
  {
    assert ThreadOk(s, t);
    assert |s.holds - multiset{Hold(t, false)}| == |s.holds| - 1;
  }

  /** A thread that unlocks a buffer of which another is the stored writer, which the callers' discipline rules out,
      takes one hold off the count and leaves the writer's mark and its id. */
  lemma ForeignUnlockKeepsWriter(s: State, t: Tid, r: MapResult)
    requires s.PcOf(t) == UnlockLoad && s.word.write && s.writeOwner != t && 0 < s.word.count
    ensures var s' := Run(s, Alone(t, r, 3));
      && Ended(s, s', t, Unlocked(t))
      && s'.word == Fields(true, s.word.mapped, s.word.count - 1)
      && s'.writeOwner == s.writeOwner && s'.baseAddr == s.baseAddr
  {
    hide Ended, StepOf, Steps, Run;
    RunAlone(s, t, r, 3);
    ForeignSteps(s, t, r);
    FirstStep(s, t, r, 2);
    FirstStep(s.At(t, UnlockOwner(s.word)), t, r, 1);
    ForeignEnd(s, t, Fields(true, s.word.mapped, s.word.count - 1), r);
  }

  lemma ForeignEnd(s: State, t: Tid, new_: Fields, r: MapResult)
    ensures var s' := Steps(s.At(t, UnlockCas(s.word, new_)), t, r, 1);
      && Ended(s, s', t, Unlocked(t))
      && s'.word == new_ && s'.writeOwner == s.writeOwner && s'.baseAddr == s.baseAddr
  {
    hide Ended, StepOf, Steps;
    var s1 := s.At(t, UnlockCas(s.word, new_));
    LastExchange(s1, t, new_, r, 1);
    SameEnd(s, s1, Steps(s1, t, r, 1), t, Unlocked(t));
  }

  lemma ForeignSteps(s: State, t: Tid, r: MapResult)
    requires s.PcOf(t) == UnlockLoad && s.word.write && s.writeOwner != t && 0 < s.word.count
    ensures var s1 := s.At(t, UnlockOwner(s.word));
      && StepOf(s, t, r) == s1
      && StepOf(s1, t, r) == s.At(t, UnlockCas(s.word, Fields(true, s.word.mapped, s.word.count - 1)))
  {
    var s1 := s.At(t, UnlockOwner(s.word));
    var s2 := s1.At(t, UnlockCas(s.word, Fields(true, s.word.mapped, s.word.count - 1)));
    assert StepOf(s1, t, r) == s2;
  }

  /** Registering and unregistering leave an unlocked handle as a new one: not marked, without an owner, and without an
      address, so that the next lock for software use maps the buffer again. */
  lemma ResetForgets(s: State)
    requires Inv(s) && Allowed(s, Reset)
    ensures var s' := Next(s, Reset);
      && s'.word == Fields(false, false, 0) && s'.writeOwner == 0 && s'.baseAddr == 0 && s'.mapLock == None
      && s'.isFb == s.isFb && s'.holds == multiset{}
  {
    forall t: Tid
      ensures s.mapLock != Some(t)
    {
      assert ThreadOk(s, t);
    }
  }

  /** The address of a framebuffer handle is never changed by locking. */
  lemma {:induction false} FramebufferKeepsAddress(s: State, schedule: seq<Action>)
    requires s.isFb && Reset !in schedule
    ensures Run(s, schedule).baseAddr == s.baseAddr
    decreases |schedule|
  {
    if schedule != [] {
      FramebufferStep(s, schedule[0]);
      FramebufferKeepsAddress(Next(s, schedule[0]), schedule[1..]);
    }
  }

  lemma FramebufferStep(s: State, a: Action)
    requires s.isFb && !a.Reset?
    ensures Next(s, a).isFb && Next(s, a).baseAddr == s.baseAddr
  {
  }
}
