/** The handle of a pmem buffer with its 32-bit lock word, changed in place by the threads that lock and unlock
    it. Each method is one shared access of a call in progress, with the computation the code does on it before
    the next one; it is proved to be the step of PmemLock on the three fields of the word. */
module PmemBuffer {
  import opened Options
  import opened PmemWord
  import opened PmemLock

  function PcView(pc: Pc<bv32>): Pc<Fields> {
    match pc
    case Idle => Idle
    case LockLoad(u) => LockLoad(u)
    case LockCas(u, cur, new_) => LockCas(u, Decode(cur), Decode(new_))
    case LockOwner(u, cur) => LockOwner(u, Decode(cur))
    case MapTake(u) => MapTake(u)
    case MapRecheck(u) => MapRecheck(u)
    case MapBuffer(u) => MapBuffer(u)
    case MapPublish(u) => MapPublish(u)
    case MapRelease(u, err) => MapRelease(u, err)
    case ReadBase(u, err) => ReadBase(u, err)
    case UnlockLoad => UnlockLoad
    case UnlockOwner(cur) => UnlockOwner(Decode(cur))
    case UnlockClear(cur) => UnlockClear(Decode(cur))
    case UnlockCas(cur, new_) => UnlockCas(Decode(cur), Decode(new_))
  }

  function PcsView(pcs: map<Tid, Pc<bv32>>): (view: map<Tid, Pc<Fields>>) {
    map t | t in pcs :: PcView(pcs[t])
  }

  lemma PcsViewUpdate(pcs: map<Tid, Pc<bv32>>, t: Tid, pc: Pc<bv32>)
    ensures PcsView(pcs[t := pc]) == PcsView(pcs)[t := PcView(pc)]
  {
  }

  class Handle {
    var lockState: bv32
    var writeOwner: int
    var baseAddr: int
    const isFb: bool

    var mapLock: Option<Tid>
    var pcs: map<Tid, Pc<bv32>>

    ghost var holds: multiset<Hold>
    ghost var mapped: Option<int>
    ghost var maps: nat
    ghost var log: seq<Return>

    ghost function View(): State
      reads this
    {
      State(Decode(lockState), writeOwner, baseAddr, mapLock, isFb, PcsView(pcs),
            holds, mapped, maps, log)
    }

    /** A handle just registered in another process, a framebuffer handle, or one created around a mapping. */
    constructor (base: int, fb: bool, mappedHere: bool)
      ensures Initial(View())
      ensures View().mapped == if mappedHere then Some(base) else None
      ensures baseAddr == base && isFb == fb
    {
      lockState := if mappedHere then LOCK_STATE_MAPPED else 0;
      writeOwner, baseAddr, isFb := 0, base, fb;
      mapLock, pcs := None, map[];
      holds, mapped, maps, log := multiset{}, if mappedHere then Some(base) else None, 0, [];
      new;
      ZeroWord();
      assert View().pcs == map[];
    }

    method MoveTo(t: Tid, pc: Pc<bv32>)
      modifies this`pcs
      ensures View() == old(View()).At(t, PcView(pc))
      ensures pcs == old(pcs)[t := pc]
    {
      hide Decode;
      PcsViewUpdate(pcs, t, pc);
      pcs := pcs[t := pc];
    }

    method BeginLock(t: Tid, u: Usage)
      requires Allowed(View(), Action.BeginLock(t, u))
      modifies this`pcs
      ensures View() == Next(old(View()), Action.BeginLock(t, u))
    {
      hide Decode;
      MoveTo(t, LockLoad(u));
    }

    method BeginUnlock(t: Tid)
      requires Allowed(View(), Action.BeginUnlock(t))
      modifies this`pcs
      ensures View() == Next(old(View()), Action.BeginUnlock(t))
    {
      hide Decode;
      MoveTo(t, UnlockLoad);
    }

    method Reset()
      requires Allowed(View(), Action.Reset)
      modifies this
      ensures View() == Next(old(View()), Action.Reset)
    {
      hide Decode;
      lockState, writeOwner, baseAddr := 0, 0, 0;
      mapped, maps, log := None, 0, [];
      ZeroWord();
    }

    method Return(t: Tid, r: PmemLock.Return)
      modifies this`pcs, this`log
      ensures View() == old(View()).Return(t, r)
    {
      hide Decode;
      MoveTo(t, Idle);
      log := log + [r];
    }

    /** `current_value = hnd->lockState` and the tests on it. */
    method LoadForLock(t: Tid, u: Usage)
      requires Inv(View()) && View().PcOf(t) == LockLoad(u) && |holds| < MAX_HOLDS
      modifies this`pcs, this`log
      ensures View() == LockLoaded(old(View()), t, u)
    {
      hide Decode, IsWrite, IsHeld, WithWrite, OneMore;
      var cur := lockState;
      Tests(cur);
      if IsWrite(cur) {
        Return(t, Busy(t));
        return;
      } else if IsHeld(cur) {
        if u.Writes() {
          Return(t, Busy(t));
          return;
        }
      }
      var new_ := cur;
      if u.Writes() {
        SetWrite(new_);
        new_ := WithWrite(new_);
      }
      Increment(new_);
      new_ := OneMore(new_);
      MoveTo(t, LockCas(u, cur, new_));
    }

    /** The compare-and-exchange of the lock loop. */
    method ExchangeForLock(t: Tid, u: Usage, cur: bv32, new_: bv32)
      requires t in pcs && pcs[t] == LockCas(u, cur, new_)
      modifies this`lockState, this`pcs, this`log, this`holds
      ensures View() == LockExchanged(old(View()), t, u, Decode(cur), Decode(new_))
    {
      hide Decode, IsWrite;
      if lockState != cur {
        WordsDiffer(lockState, cur);
        MoveTo(t, LockLoad(u));
      } else {
        lockState := new_;
        holds := holds + multiset{Hold(t, u.Writes())};
        Tests(new_);
        if IsWrite(new_) {
          MoveTo(t, LockOwner(u, cur));
        } else {
          Continue(t, u, cur);
        }
      }
    }

    method Continue(t: Tid, u: Usage, cur: bv32)
      modifies this`pcs, this`log
      ensures View() == AfterOwner(old(View()), t, u, Decode(cur))
    {
      hide Decode, IsMapped;
      if u.Software() {
        Tests(cur);
        if !IsMapped(cur) {
          MoveTo(t, MapTake(u));
        } else {
          MoveTo(t, ReadBase(u, 0));
        }
      } else {
        Return(t, Locked(t, u, 0, None));
      }
    }

    /** gralloc_map, called with the map mutex held. */
    method Map(t: Tid, u: Usage, r: MapResult)
      modifies this`baseAddr, this`pcs, this`mapped, this`maps
      ensures View() == BufferMapped(old(View()), t, u, r)
    {
      hide Decode;
      if !isFb {
        match r {
          case MapError(errno) =>
            MoveTo(t, MapRelease(u, -(errno + 1)));
            return;
          case Mapped(base) =>
            baseAddr := base;
        }
      }
      mapped, maps := Some(baseAddr), maps + 1;
      MoveTo(t, MapPublish(u));
    }

    method StoreOwner(t: Tid, u: Usage, cur: bv32)
      modifies this`writeOwner, this`pcs, this`log
      ensures View() == AfterOwner(old(View()).(writeOwner := t), t, u, Decode(cur))
    {
      hide Decode, AfterOwner;
      writeOwner := t;
      Continue(t, u, cur);
    }

    method TakeMutex(t: Tid, u: Usage)
      modifies this`mapLock, this`pcs
      ensures View() == if old(mapLock) == None then old(View()).(mapLock := Some(t)).At(t, MapRecheck(u)) else old(View())
    {
      hide Decode;
      if mapLock == None {
        mapLock := Some(t);
        MoveTo(t, MapRecheck(u));
      }
    }

    method ReleaseMutex(t: Tid, u: Usage, err: int)
      modifies this`mapLock, this`pcs
      ensures View() == old(View()).(mapLock := None).At(t, ReadBase(u, err))
    {
      hide Decode;
      mapLock := None;
      MoveTo(t, ReadBase(u, err));
    }

    method ReadAddress(t: Tid, u: Usage, err: int)
      modifies this`pcs, this`log
      ensures View() == old(View()).Return(t, Locked(t, u, err, Some(old(View()).baseAddr)))
    {
      hide Decode;
      Return(t, Locked(t, u, err, Some(baseAddr)));
    }

    lemma Where(t: Tid)
      ensures View().PcOf(t) == if t in pcs then PcView(pcs[t]) else Idle
      ensures View().mapLock == mapLock && View().writeOwner == writeOwner && View().holds == holds
    {
    }

    /** The next access of thread t inside gralloc_lock_pmem, up to the mapping. */
    method LockStep(t: Tid, r: MapResult)
      requires Inv(View()) && Allowed(View(), Advance(t, r))
      requires var pc := View().PcOf(t); pc.LockLoad? || pc.LockCas? || pc.LockOwner?
      modifies this
      ensures View() == StepOf(old(View()), t, r)
    {
      hide Decode, LockLoaded, LockExchanged, AfterOwner, Inv, View, PcsView;
      Where(t);
      match pcs[t]
      case LockLoad(u) =>
        LoadForLock(t, u);
      case LockCas(u, cur, new_) =>
        ExchangeForLock(t, u, cur, new_);
      case LockOwner(u, cur) =>
        StoreOwner(t, u, cur);
    }

    method Recheck(t: Tid, u: Usage)
      modifies this`pcs
      ensures View() == old(View()).At(t, if old(View()).word.mapped then MapRelease(u, 0) else MapBuffer(u))
    {
      hide Decode, IsMapped;
      Tests(lockState);
      if !IsMapped(lockState) {
        MoveTo(t, MapBuffer(u));
      } else {
        MoveTo(t, MapRelease(u, 0));
      }
    }

    method Publish(t: Tid, u: Usage)
      modifies this`pcs, this`lockState
      ensures View() == old(View()).(word := old(View()).word.(mapped := true)).At(t, MapRelease(u, 0))
    {
      hide Decode, WithMapped;
      SetMapped(lockState);
      lockState := WithMapped(lockState);
      MoveTo(t, MapRelease(u, 0));
    }

    /** The double-checked mapping under the map mutex, and the read of the address it leaves. */
    method MapStep(t: Tid, r: MapResult)
      requires var pc := View().PcOf(t); InMapSection(pc) || pc.MapTake? || pc.ReadBase?
      modifies this
      ensures View() == StepOf(old(View()), t, r)
    {
      hide Decode, BufferMapped, View, PcsView;
      Where(t);
      match pcs[t]
      case MapTake(u) =>
        TakeMutex(t, u);
      case MapRecheck(u) =>
        Recheck(t, u);
      case MapBuffer(u) =>
        Map(t, u, r);
      case MapPublish(u) =>
        Publish(t, u);
      case MapRelease(u, err) =>
        ReleaseMutex(t, u, err);
      case ReadBase(u, err) =>
        ReadAddress(t, u, err);
    }

    /** The READ_MASK test and the decrement of the unlock loop. */
    method Release(t: Tid, cur: bv32, value: bv32)
      modifies this`pcs, this`log
      ensures View() == UnlockReady(old(View()), t, Decode(cur), Decode(value))
    {
      hide Decode, IsHeld, OneLess;
      Tests(value);
      if !IsHeld(value) {
        Return(t, NotLocked(t));
      } else {
        Decrement(value);
        MoveTo(t, UnlockCas(cur, OneLess(value)));
      }
    }

    method LoadForUnlock(t: Tid)
      modifies this`pcs, this`log
      ensures View() == UnlockLoaded(old(View()), t)
    {
      hide Decode, IsWrite;
      Tests(lockState);
      if IsWrite(lockState) {
        MoveTo(t, UnlockOwner(lockState));
      } else {
        Release(t, lockState, lockState);
      }
    }

    method ClearOwner(t: Tid, cur: bv32)
      modifies this`pcs, this`log, this`writeOwner
      ensures View() == UnlockReady(old(View()).(writeOwner := 0), t, Decode(cur), Decode(cur).(write := false))
    {
      hide Decode, WithoutWrite;
      writeOwner := 0;
      ClearWrite(cur);
      Release(t, cur, WithoutWrite(cur));
    }

    /** The exchange has succeeded. */
    method GiveUp(t: Tid, new_: bv32, ghost h: Hold)
      modifies this`lockState, this`pcs, this`log, this`holds
      ensures View() == old(View()).(word := Decode(new_), holds := old(holds) - multiset{h}).Return(t, Unlocked(t))
    {
      hide Decode;
      lockState := new_;
      holds := holds - multiset{h};
      Return(t, Unlocked(t));
    }

    /** The compare-and-exchange of the unlock loop. */
    method ExchangeForUnlock(t: Tid, cur: bv32, new_: bv32)
      requires t in pcs && pcs[t] == UnlockCas(cur, new_)
      modifies this`lockState, this`pcs, this`log, this`holds
      ensures View() == UnlockExchanged(old(View()), t, Decode(cur), Decode(new_))
    {
      hide Decode;
      if lockState != cur {
        WordsDiffer(lockState, cur);
        MoveTo(t, UnlockLoad);
      } else {
        GiveUp(t, new_, Hold(t, Decode(cur).write && !Decode(new_).write));
      }
    }

    /** The next access of thread t inside gralloc_unlock_pmem. */
    method UnlockStep(t: Tid, r: MapResult)
      requires Unlocking(View().PcOf(t))
      modifies this
      ensures View() == StepOf(old(View()), t, r)
    {
      hide Decode, UnlockLoaded, UnlockReady, UnlockExchanged, View, PcsView;
      Where(t);
      match pcs[t]
      case UnlockLoad =>
        LoadForUnlock(t);
      case UnlockOwner(cur) =>
        if writeOwner == t {
          MoveTo(t, UnlockClear(cur));
        } else {
          Release(t, cur, cur);
        }
      case UnlockClear(cur) =>
        ClearOwner(t, cur);
      case UnlockCas(cur, new_) =>
        ExchangeForUnlock(t, cur, new_);
    }

    /** One allowed action of one thread. */
    method Perform(a: Action)
      requires Inv(View()) && Allowed(View(), a)
      modifies this
      ensures View() == Next(old(View()), a)
    {
      hide Decode, Inv;
      match a
      case BeginLock(t, u) => BeginLock(t, u);
      case BeginUnlock(t) => BeginUnlock(t);
      case Reset => Reset();
      case Advance(t, r) =>
        if t in pcs && pcs[t] != Idle {
          var pc := pcs[t];
          if pc.LockLoad? || pc.LockCas? || pc.LockOwner? {
            LockStep(t, r);
          } else if pc.UnlockLoad? || pc.UnlockOwner? || pc.UnlockClear? || pc.UnlockCas? {
            UnlockStep(t, r);
          } else {
            MapStep(t, r);
          }
        }
    }

    /** Any schedule of any number of threads, step by step in place. */
    method Execute(schedule: seq<Action>)
      requires Inv(View()) && Disciplined(View(), schedule)
      modifies this
      ensures View() == Run(old(View()), schedule) && Inv(View())
    {
      hide Decode, Inv, Allowed, Next;
      var i := 0;
      while i < |schedule|
        invariant i <= |schedule|
        invariant Inv(View()) && Disciplined(View(), schedule[i..])
        invariant Run(View(), schedule[i..]) == Run(old(View()), schedule)
      {
        assert schedule[i..][1..] == schedule[i + 1..];
        StepInv(View(), schedule[i]);
        Perform(schedule[i]);
        i := i + 1;
      }
    }
  }

  lemma Tests(w: bv32)
    ensures IsWrite(w) == Decode(w).write
    ensures IsMapped(w) == Decode(w).mapped
    ensures IsHeld(w) == (0 < Decode(w).count)
  {
    HeldCount(w);
  }

  lemma WordsDiffer(v: bv32, w: bv32)
    requires v != w
    ensures Decode(v) != Decode(w)
  {
    if Decode(v) == Decode(w) {
      DecodeInjective(v, w);
    }
  }
}
