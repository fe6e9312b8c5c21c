/** The context structure of the vsync monitor, updated in place by its thread and its clients. Each method runs from
    one point where the mutex changes hands, or the clock is read, to the next; it is proved to be that step of
    VsyncMonitor. */
module VsyncContext {
  import opened Timespecs
  import opened VsyncMonitor

  class Context {
    var stop: bool
    var enable: bool
    var procs: bool
    var nextVsync: Timespec
    var clock: Timespec
    var pc: Pc
    ghost var epoch: nat
    ghost var wait: Wait
    ghost var log: seq<Delivery>

    ghost function View(): State
      reads this
    {
      State(stop, enable, procs, nextVsync, clock, pc, epoch, wait, log)
    }

    constructor (now: Timespec)
      requires now.Normal()
      ensures Initial(View()) && clock == now
    {
      stop, enable, procs := true, false, false;
      nextVsync, clock := Timespec(0, 0), now;
      pc, epoch, wait, log := Stopped, 0, Wait(0, false), [];
    }

    /** vsync_monitor_init */
    method Init()
      modifies this
      ensures View() == Next(old(View()), Start)
    {
      if !pc.Stopped? {
        return;
      }
      stop := false;
      pc := Acquire;
      epoch := epoch + 1;
    }

    method EnableVsync(callback: bool) returns (ret: int)
      requires Possible(View(), Enable(callback))
      modifies this
      ensures View() == Next(old(View()), Enable(callback))
      ensures ret == if old(pc).Stopped? then -1 else 0
    {
      if pc.Stopped? {
        return -1;
      }
      if !enable {
        procs := callback;
        enable := true;
      }
      return 0;
    }

    method DisableVsync()
      requires Possible(View(), Disable)
      modifies this
      ensures View() == Next(old(View()), Disable)
    {
      if pc.Stopped? || !enable {
        return;
      }
      procs := false;
      enable := false;
    }

    /** The critical section of vsync_monitor_destroy; joining is waiting for Stopped. */
    method BeginDestroy()
      requires Possible(View(), Destroy)
      modifies this
      ensures View() == Next(old(View()), Destroy)
    {
      if pc.Stopped? {
        return;
      }
      stop := true;
      enable := false;
    }

    method Advance(ns: nat)
      modifies this`clock
      ensures View() == Next(old(View()), Tick(ns))
    {
      clock := AddNs(clock, ns);
    }

    /** The top of the monitor loop. */
    method LoopTop()
      requires pc == Top
      modifies this
      ensures View() == TopStep(old(View()))
    {
      if stop {
        pc, stop, enable, procs := Stopped, true, false, false;
      } else if !enable {
        pc := DisabledWait;
      } else {
        var order := Compare(clock, nextVsync);
        if order < 0 {
          pc := Measure(Ns(nextVsync) - Ns(clock));
        } else {
          wait := Wait(Ns(clock), false);
          pc := Emit;
        }
      }
    }

    /** The loop of sleep_ns_locked, when its wait returns. */
    method EndSleep(w: Wake)
      requires pc.Sleeping?
      modifies this
      ensures View() == SleepStep(old(View()), w)
    {
      hide Ns, Compare;
      if w == Failed {
        pc := Top;
      } else if w == TimedOut || stop || !enable {
        wait := Wait(Ns(clock), w == Signalled && stop && enable && Compare(clock, nextVsync) < 0);
        pc := Emit;
      }
    }

    /** The end of wait_for_next_vsync_locked and what the loop does with the timestamp. */
    method EmitVsync()
      requires pc == Emit
      modifies this
      ensures View() == EmitStep(old(View()))
    {
      var timestamp := Ns(nextVsync);
      nextVsync := AddNs(nextVsync, REFRESH_PERIOD);
      if timestamp <= 0 {
        pc := Top;
      } else if !enable {
        pc := Top;
      } else if procs {
        pc := Calling(timestamp);
      } else {
        pc := Top;
      }
    }

    /** The next step of the monitor thread; w says how a timed wait that is in progress ends. */
    method RunThread(w: Wake)
      requires Possible(View(), Monitor(w))
      modifies this
      ensures View() == Next(old(View()), Monitor(w))
    {
      hide Ns, Plus, Compare, TopStep, EmitStep, SleepStep;
      match pc
      case Stopped =>
      case Acquire =>
        pc := Top;
      case Top =>
        LoopTop();
      case DisabledWait =>
        if stop || enable {
          nextVsync := AddNs(clock, REFRESH_PERIOD);
          epoch := epoch + 1;
          pc := Top;
        }
      case Measure(sleep) =>
        var timeout := AddNs(clock, sleep);
        pc := Sleeping(timeout);
      case Sleeping(timeout) =>
        EndSleep(w);
      case Emit =>
        EmitVsync();
      case Calling(timestamp) =>
        log := log + [Delivery(timestamp, Ns(clock), epoch, wait)];
        pc := Acquire;
    }

    /** One action of the clock, a client or the thread. */
    method Perform(a: Action)
      requires Possible(View(), a)
      modifies this
      ensures View() == Next(old(View()), a)
    {
      hide Ns, Plus, Compare, MonitorStep;
      match a
      case Start => Init();
      case Enable(callback) => var ret := EnableVsync(callback);
      case Disable => DisableVsync();
      case Destroy => BeginDestroy();
      case Tick(ns) => Advance(ns);
      case Monitor(w) => RunThread(w);
    }

    /** Any schedule that is possible, action by action in place. */
    method Execute(schedule: seq<Action>)
      requires Possibly(View(), schedule)
      modifies this
      ensures View() == Run(old(View()), schedule)
    {
      hide Next, Possible;
      var i := 0;
      while i < |schedule|
        invariant 0 <= i <= |schedule|
        invariant Possibly(View(), schedule[i..])
        invariant Run(View(), schedule[i..]) == Run(old(View()), schedule)
      {
        assert schedule[i..][1..] == schedule[i + 1..];
        Perform(schedule[i]);
        i := i + 1;
      }
    }
  }
}
