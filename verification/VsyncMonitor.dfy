/** The thread that generates vsync callbacks, with its clients. The thread holds the mutex except where it waits
    on the condition variable, runs the callback or is about to take the mutex; enable, disable and destroy are
    critical sections that run only then. Waits may return early, time out or fail; the clock may advance at any
    moment. */
module VsyncMonitor {
  import opened Timespecs

  const REFRESH_PERIOD: int := 16_666_666

  /** Where the thread stands. It holds the mutex at Top, Measure and Emit. */
  datatype Pc =
    | Stopped
    | Acquire
    | Top
    | DisabledWait
    | Measure(sleep: int)
    | Sleeping(timeout: Timespec)
    | Emit
    | Calling(timestamp: int)

  datatype Wake = Signalled | TimedOut | Failed

  /** How a wait for the next vsync ended: the clock, and whether the wait was cut short, that is ended by a signal
      before the vsync was due with both stop and enable set. */
  datatype Wait = Wait(ended: int, cut: bool)

  /** A callback: its timestamp, the clock when it started, how many times the thread had left the disabled wait (or
      had been started) before, and the wait that led to it. */
  datatype Delivery = Delivery(timestamp: int, at: int, epoch: nat, wait: Wait)

  datatype State = State(
    stop: bool, enable: bool, procs: bool, next: Timespec,
    clock: Timespec, pc: Pc, epoch: nat, wait: Wait, log: seq<Delivery>)
  {
    /** The wait, if there was one, is over. */
    function Awake(cut: bool): State { this.(pc := Emit, wait := Wait(Ns(clock), cut)) }
  }

  datatype Action =
    | Start
    | Enable(procs: bool)
    | Disable
    | Destroy
    | Tick(ns: nat)
    | Monitor(wake: Wake)

  predicate Held(pc: Pc) {
    pc.Top? || pc.Measure? || pc.Emit?
  }

  // ----- the thread

  function TopStep(s: State): State {
    if s.stop then
      s.(pc := Stopped, stop := true, enable := false, procs := false)
    else if !s.enable then
      s.(pc := DisabledWait)
    else if Compare(s.clock, s.next) < 0 then
      s.(pc := Measure(Ns(s.next) - Ns(s.clock)))
    else
      s.Awake(false)
  }

  /** The disabled wait is left when enabled or stopped; the next vsync is then one period away. */
  function DisabledStep(s: State): State {
    if !s.stop && !s.enable then s
    else s.(next := Plus(s.clock, REFRESH_PERIOD), epoch := s.epoch + 1, pc := Top)
  }

  /** The timed wait loops while it returns early and the monitor stays enabled. */
  function SleepStep(s: State, w: Wake): State {
    match w
    case Failed => s.(pc := Top)
    case TimedOut => s.Awake(false)
    case Signalled =>
      if !s.stop && s.enable then s else s.Awake(s.stop && s.enable && Compare(s.clock, s.next) < 0)
  }

  function EmitStep(s: State): State {
    var timestamp := Ns(s.next);
    var s' := s.(next := Plus(s.next, REFRESH_PERIOD));
    if timestamp <= 0 || !s.enable || !s.procs then s'.(pc := Top)
    else s'.(pc := Calling(timestamp))
  }

  function MonitorStep(s: State, w: Wake): State {
    match s.pc
    case Stopped => s
    case Acquire => s.(pc := Top)
    case Top => TopStep(s)
    case DisabledWait => DisabledStep(s)
    case Measure(sleep) => s.(pc := Sleeping(Plus(s.clock, sleep)))
    case Sleeping(timeout) => SleepStep(s, w)
    case Emit => EmitStep(s)
    case Calling(timestamp) =>
      s.(log := s.log + [Delivery(timestamp, Ns(s.clock), s.epoch, s.wait)], pc := Acquire)
  }

  // ----- the thread and its clients

  function Next(s: State, a: Action): State {
    match a
    case Start => if s.pc.Stopped? then s.(stop := false, pc := Acquire, epoch := s.epoch + 1) else s
    case Enable(procs) => if s.pc.Stopped? || s.enable then s else s.(procs := procs, enable := true)
    case Disable => if s.pc.Stopped? || !s.enable then s else s.(procs := false, enable := false)
    case Destroy => if s.pc.Stopped? then s else s.(stop := true, enable := false)
    case Tick(ns) => s.(clock := Plus(s.clock, ns))
    case Monitor(w) => MonitorStep(s, w)
  }

  /** What the mutex, the clock and the condition variable allow: a client enters its critical section when the
      thread is out of it, and a timed wait does not time out early. */
  predicate Possible(s: State, a: Action) {
    && (a.Enable? || a.Disable? || a.Destroy? ==> !Held(s.pc))
    && (a == Monitor(TimedOut) && s.pc.Sleeping? ==> Compare(s.clock, s.pc.timeout) >= 0)
  }

  /** What the clients are asked: callbacks are not null, and nobody enables a monitor that is being destroyed. */
  predicate Disciplined(s: State, a: Action) {
    a.Enable? ==> a.procs && (!s.stop || s.pc.Stopped?)
  }

  function Run(s: State, schedule: seq<Action>): State
    decreases |schedule|
  {
    if schedule == [] then s else Run(Next(s, schedule[0]), schedule[1..])
  }

  predicate Possibly(s: State, schedule: seq<Action>)
    decreases |schedule|
  {
    schedule == [] || (Possible(s, schedule[0]) && Possibly(Next(s, schedule[0]), schedule[1..]))
  }

  predicate Politely(s: State, schedule: seq<Action>)
    decreases |schedule|
  {
    schedule == [] || (Disciplined(s, schedule[0]) && Politely(Next(s, schedule[0]), schedule[1..]))
  }

  /** The static state of the library, at any clock reading. */
  predicate Initial(s: State) {
    && s.stop && !s.enable && !s.procs && s.next == Timespec(0, 0) && s.clock.Normal()
    && s.pc == Stopped && s.log == []
  }

  // ----- the invariant

  predicate FlagsOk(s: State) {
    && (s.enable ==> s.procs && !s.stop)
    && (s.pc.Stopped? ==> s.stop && !s.enable && !s.procs)
    && s.clock.Normal() && s.next.Normal()
  }

  /** A vsync that will be delivered is due. */
  predicate DueOk(s: State) {
    match s.pc
    case Measure(sleep) => 0 < sleep && Ns(s.next) <= Ns(s.clock) + sleep
    case Sleeping(timeout) => timeout.Normal() && Ns(s.next) <= Ns(timeout)
    case Emit => s.enable ==> Ns(s.next) <= Ns(s.clock)
    case Calling(timestamp) => 0 < timestamp <= Ns(s.clock) && Ns(s.next) == timestamp + REFRESH_PERIOD
    case _ => true
  }

  /** The timestamp the thread will deliver next, if it gets to. */
  function Coming(s: State): int {
    if s.pc.Calling? then s.pc.timestamp else Ns(s.next)
  }

  /** The thread cannot deliver again without passing through the disabled wait or being restarted. */
  predicate MustWait(s: State) {
    s.pc.DisabledWait? || s.pc.Stopped? || (s.pc.Top? && !s.enable)
  }

  predicate LogOk(log: seq<Delivery>, clock: int) {
    && (forall i :: 0 <= i < |log| ==> 0 < log[i].timestamp <= log[i].at <= clock)
    && (forall i :: 0 < i < |log| ==> log[i - 1].timestamp < log[i].timestamp)
    && (forall i :: 0 < i < |log| && log[i - 1].epoch == log[i].epoch ==>
          log[i].timestamp == log[i - 1].timestamp + REFRESH_PERIOD)
  }

  predicate ComingOk(s: State) {
    s.log != [] ==>
      var last := s.log[|s.log| - 1];
      && last.timestamp < Coming(s)
      && last.epoch <= s.epoch
      && (last.epoch == s.epoch && !MustWait(s) ==> Coming(s) == last.timestamp + REFRESH_PERIOD)
  }

  predicate Inv(s: State) {
    FlagsOk(s) && DueOk(s) && LogOk(s.log, Ns(s.clock)) && ComingOk(s)
  }

  lemma LogGrows(log: seq<Delivery>, d: Delivery, clock: int)
    requires LogOk(log, clock) && 0 < d.timestamp <= d.at <= clock
    requires log != [] ==>
      var last := log[|log| - 1];
      && last.timestamp < d.timestamp
      && (last.epoch == d.epoch ==> d.timestamp == last.timestamp + REFRESH_PERIOD)
    ensures LogOk(log + [d], clock)
  {
    var log' := log + [d];
    assert forall i :: 0 <= i < |log| ==> log'[i] == log[i];
  }

  lemma DeliverInv(s: State)
    requires Inv(s) && s.pc.Calling?
    ensures Inv(MonitorStep(s, Signalled))
  {
    hide Ns, Plus, LogOk;
    LogGrows(s.log, Delivery(s.pc.timestamp, Ns(s.clock), s.epoch, s.wait), Ns(s.clock));
  }

  lemma WaitInv(s: State, w: Wake)
    requires Inv(s) && Possible(s, Monitor(w)) && (s.pc.Sleeping? || s.pc.Emit?)
    ensures Inv(MonitorStep(s, w))
  {
    hide Ns, Plus, Compare;
    PlusExact(s.next, REFRESH_PERIOD);
    if s.pc.Sleeping? {
      CompareAgrees(s.clock, s.pc.timeout);
    }
  }

  lemma TopInv(s: State, w: Wake)
    requires Inv(s) && !s.pc.Sleeping? && !s.pc.Emit? && !s.pc.Calling?
    ensures Inv(MonitorStep(s, w))
  {
    hide Ns, Plus, Compare;
    PlusExact(s.clock, REFRESH_PERIOD);
    CompareAgrees(s.clock, s.next);
    if s.pc.Measure? {
      PlusExact(s.clock, s.pc.sleep);
    }
  }

  lemma MonitorInv(s: State, w: Wake)
    requires Inv(s) && Possible(s, Monitor(w))
    ensures Inv(MonitorStep(s, w))
  {
    if s.pc.Calling? {
      DeliverInv(s);
    } else if s.pc.Sleeping? || s.pc.Emit? {
      WaitInv(s, w);
    } else {
      TopInv(s, w);
    }
  }

  lemma ClientInv(s: State, a: Action)
    requires Inv(s) && Possible(s, a) && Disciplined(s, a) && !a.Monitor? && !a.Tick?
    ensures Inv(Next(s, a))
  {
    hide Ns, Plus, Compare, MonitorStep, LogOk;
  }

  lemma TickInv(s: State, ns: nat)
    requires Inv(s)
    ensures Inv(s.(clock := Plus(s.clock, ns)))
  {
    hide Ns, Plus, Compare;
    PlusExact(s.clock, ns);
  }

  lemma StepInv(s: State, a: Action)
    requires Inv(s) && Possible(s, a) && Disciplined(s, a)
    ensures Inv(Next(s, a))
  {
    hide Inv, MonitorStep, Plus;
    match a
    case Monitor(w) => MonitorInv(s, w);
    case Tick(ns) => TickInv(s, ns);
    case _ => ClientInv(s, a);
  }

  lemma {:induction false} RunInv(s: State, schedule: seq<Action>)
    requires Inv(s) && Possibly(s, schedule) && Politely(s, schedule)
    ensures Inv(Run(s, schedule))
    decreases |schedule|
  {
    if schedule != [] {
      StepInv(s, schedule[0]);
      RunInv(Next(s, schedule[0]), schedule[1..]);
    }
  }

  lemma {:induction false} Increasing(log: seq<Delivery>, clock: int, i: nat, j: nat)
    requires LogOk(log, clock) && i < j < |log|
    ensures log[i].timestamp < log[j].timestamp
    decreases j
  {
    if i + 1 < j {
      Increasing(log, clock, i, j - 1);
    }
  }

  // ----- what holds after every run

  /** Whatever enables, disables, restarts, early wakeups and failed waits happened: timestamps strictly increase,
      none is later than the clock at its delivery, and two in a row are exactly one period apart when the thread
      did not pass through the disabled wait in between. */
  lemma CallbackTimes(s: State, schedule: seq<Action>)
    requires Initial(s) && Possibly(s, schedule) && Politely(s, schedule)
    ensures var log := Run(s, schedule).log;
      && (forall i, j :: 0 <= i < j < |log| ==> log[i].timestamp < log[j].timestamp)
      && (forall i :: 0 <= i < |log| ==> log[i].timestamp <= log[i].at)
      && (forall i :: 0 < i < |log| && log[i - 1].epoch == log[i].epoch ==>
            log[i].timestamp - log[i - 1].timestamp == REFRESH_PERIOD)
  {
    RunInv(s, schedule);
    var e := Run(s, schedule);
    forall i, j | 0 <= i < j < |e.log|
      ensures e.log[i].timestamp < e.log[j].timestamp
    {
      Increasing(e.log, Ns(e.clock), i, j);
    }
  }

  /** Once disable has returned, only a callback that was already past its enable check can still be delivered,
      and at most that one, until the next enable. */
  lemma {:induction false} DisableQuiesces(s: State, schedule: seq<Action>)
    requires !s.enable && forall a <- schedule :: !a.Enable?
    ensures var log := Run(s, schedule).log;
      log == s.log || (s.pc.Calling? && |log| == |s.log| + 1 && log[..|s.log|] == s.log
                       && log[|s.log|].timestamp == s.pc.timestamp)
    decreases |schedule|
  {
    if schedule != [] {
      DisableQuiesces(Next(s, schedule[0]), schedule[1..]);
    }
  }

  /** Disable, where it may run, does leave the monitor disabled. */
  lemma DisableDisables(s: State)
    requires Inv(s)
    ensures !Next(s, Disable).enable && !Next(s, Destroy).enable
  {
  }

  /** When the thread has been joined nothing is delivered until a new one is started. */
  lemma {:induction false} JoinedIsSilent(s: State, schedule: seq<Action>)
    requires s.pc == Stopped && Start !in schedule
    ensures Run(s, schedule).log == s.log && Run(s, schedule).pc == Stopped
    decreases |schedule|
  {
    if schedule != [] {
      JoinedIsSilent(Next(s, schedule[0]), schedule[1..]);
    }
  }

  lemma {:induction false} RunAppend(s: State, front: seq<Action>, back: seq<Action>)
    ensures Run(s, front + back) == Run(Run(s, front), back)
    ensures Possibly(s, front + back) <==> Possibly(s, front) && Possibly(Run(s, front), back)
    decreases |front|
  {
    if front == [] {
      assert front + back == back;
    } else {
      assert (front + back)[1..] == front[1..] + back;
      RunAppend(Next(s, front[0]), front[1..], back);
    }
  }

  /** Start, enable, sleep until the first vsync ... */
  const FALL_ASLEEP: seq<Action> := [
    Start, Monitor(Signalled), Monitor(Signalled), Enable(true), Monitor(Signalled), Monitor(Signalled), Monitor(Signalled)]

  /** ... and enable again inside a destroy. */
  const DESTROY_RACE: seq<Action> := [
    Destroy, Enable(true), Monitor(Signalled), Monitor(Signalled), Monitor(Signalled)]

  lemma FallAsleep(s: State)
    requires Initial(s)
    ensures Possibly(s, FALL_ASLEEP)
    ensures var e := Run(s, FALL_ASLEEP); e.pc.Sleeping? && e.clock == s.clock && e.log == []
    ensures Run(s, FALL_ASLEEP).next == Plus(s.clock, REFRESH_PERIOD)
  {
    hide Ns, Plus, Compare;
    PlusExact(s.clock, REFRESH_PERIOD);
    CompareAgrees(s.clock, Plus(s.clock, REFRESH_PERIOD));
  }

  lemma DestroyRace(s: State)
    requires s.pc.Sleeping? && s.log == [] && 0 < Ns(s.next)
    ensures Possibly(s, DESTROY_RACE)
    ensures var log := Run(s, DESTROY_RACE).log;
      |log| == 1 && log[0].timestamp == Ns(s.next) && log[0].at == Ns(s.clock)
  {
    hide Ns, Plus, Compare;
    var s2 := Next(Next(s, Destroy), Enable(true));
    assert s2.pc.Sleeping? && s2.stop && s2.enable && s2.procs;
    assert Run(s, DESTROY_RACE) == Run(s2, DESTROY_RACE[2..]);
    var s4 := Next(Next(s2, Monitor(Signalled)), Monitor(Signalled));
    assert s4.pc == Calling(Ns(s.next));
    assert Run(s2, DESTROY_RACE[2..]) == Run(s4, DESTROY_RACE[4..]);
  }

  /** The rule about destroy is needed: a client that enables between the critical section of destroy and the exit
      of the thread gets a callback whose timestamp is still to come. */
  lemma EnableDuringDestroy(s: State)
    requires Initial(s) && 0 <= s.clock.sec
    ensures Possibly(s, FALL_ASLEEP + DESTROY_RACE)
    ensures var log := Run(s, FALL_ASLEEP + DESTROY_RACE).log;
      |log| == 1 && log[0].timestamp == log[0].at + REFRESH_PERIOD
  {
    PlusExact(s.clock, REFRESH_PERIOD);
    FallAsleep(s);
    var e := Run(s, FALL_ASLEEP);
    DestroyRace(e);
    RunAppend(s, FALL_ASLEEP, DESTROY_RACE);
  }

  // ----- what the thread gets to

  const M: Action := Monitor(TimedOut)

  /** Steps of the thread alone, with the clock advanced where it sleeps, up to the next delivery. */
  function Onward(s: State): seq<Action> {
    match s.pc
    case Calling(_) => [M]
    case Emit => [M, M]
    case Sleeping(timeout) =>
      [Tick(if Ns(s.clock) < Ns(timeout) then Ns(timeout) - Ns(s.clock) else 0), M, M, M]
    case Measure(sleep) => [M, Tick(if 0 < sleep then sleep else 0), M, M, M]
    case Top => OnwardFromTop(s)
    case Acquire => [M] + OnwardFromTop(s)
    case DisabledWait => [M, M, M, Tick(REFRESH_PERIOD), M, M, M]
    case Stopped => []
  }

  function OnwardFromTop(s: State): seq<Action> {
    if Compare(s.clock, s.next) < 0 then [M, M, Tick(Gap(s.clock, s.next)), M, M, M] else [M, M, M]
  }

  function Gap(a: Timespec, b: Timespec): nat {
    if Ns(a) < Ns(b) then Ns(b) - Ns(a) else 0
  }

  /** The timestamp to be delivered next; after the disabled wait, one period from now. */
  function Expected(s: State): int {
    if s.pc.DisabledWait? then Ns(s.clock) + REFRESH_PERIOD else Coming(s)
  }

  /** The monitor is on and has a callback. */
  predicate On(s: State) {
    s.enable && !s.stop && s.procs && s.clock.Normal() && s.next.Normal()
  }

  /** The schedule can happen, and at its end exactly one callback with this timestamp has been made. */
  predicate Delivers(s: State, schedule: seq<Action>, timestamp: int) {
    && Possibly(s, schedule)
    && var e := Run(s, schedule);
       && |e.log| == |s.log| + 1 && e.log[..|s.log|] == s.log
       && e.log[|s.log|].timestamp == timestamp
  }

  /** A first step that makes no callback. */
  lemma StepThen(s: State, a: Action, rest: seq<Action>, timestamp: int)
    requires Possible(s, a) && Next(s, a).log == s.log && Delivers(Next(s, a), rest, timestamp)
    ensures Delivers(s, [a] + rest, timestamp)
  {
    hide Next, Possible;
    assert ([a] + rest)[1..] == rest;
  }

  lemma FromCalling(s: State)
    requires s.pc.Calling?
    ensures Delivers(s, [M], s.pc.timestamp)
  {
    var e := Next(s, M);
    assert e.log[..|s.log|] == s.log;
    assert Run(s, [M]) == Run(e, []);
    assert Possibly(e, []);
  }

  lemma FromEmit(s: State)
    requires On(s) && s.pc.Emit? && 0 < Ns(s.next)
    ensures Delivers(s, [M, M], Ns(s.next))
  {
    hide Ns, Plus, Compare, Delivers, Run, Possibly;
    FromCalling(Next(s, M));
    StepThen(s, M, [M], Ns(s.next));
    assert [M] + [M] == [M, M];
  }

  /** A wait whose timeout is reached is followed by the callback. */
  lemma FromSleep(s: State)
    requires On(s) && s.pc.Sleeping? && 0 < Ns(s.next) && Compare(s.clock, s.pc.timeout) >= 0
    ensures Delivers(s, [M, M, M], Ns(s.next))
  {
    hide Ns, Plus, Compare, Delivers;
    FromEmit(Next(s, M));
    StepThen(s, M, [M, M], Ns(s.next));
    assert [M] + [M, M] == [M, M, M];
  }

  lemma FromWait(s: State, ns: nat)
    requires On(s) && s.pc.Sleeping? && 0 < Ns(s.next) && s.pc.timeout.Normal()
    requires Ns(s.pc.timeout) <= Ns(s.clock) + ns
    ensures Delivers(s, [Tick(ns), M, M, M], Ns(s.next))
  {
    hide Ns, Plus, Compare, Delivers;
    var s1 := Next(s, Tick(ns));
    PlusExact(s.clock, ns);
    CompareAgrees(s1.clock, s.pc.timeout);
    FromSleep(s1);
    StepThen(s, Tick(ns), [M, M, M], Ns(s.next));
    assert [Tick(ns)] + [M, M, M] == [Tick(ns), M, M, M];
  }

  lemma FromMeasure(s: State)
    requires On(s) && s.pc.Measure? && 0 < Ns(s.next) && 0 < s.pc.sleep
    ensures Delivers(s, [M, Tick(s.pc.sleep), M, M, M], Ns(s.next))
  {
    hide Ns, Plus, Compare, Delivers;
    var s1 := Next(s, M);
    PlusExact(s.clock, s.pc.sleep);
    FromWait(s1, s.pc.sleep);
    StepThen(s, M, [Tick(s.pc.sleep), M, M, M], Ns(s.next));
    assert [M] + [Tick(s.pc.sleep), M, M, M] == [M, Tick(s.pc.sleep), M, M, M];
  }

  lemma FromTop(s: State)
    requires On(s) && s.pc.Top? && 0 < Ns(s.next)
    ensures Delivers(s, OnwardFromTop(s), Ns(s.next))
  {
    hide Ns, Plus, Compare, Delivers;
    CompareAgrees(s.clock, s.next);
    var s1 := Next(s, M);
    if Compare(s.clock, s.next) < 0 {
      var gap := Gap(s.clock, s.next);
      FromMeasure(s1);
      StepThen(s, M, [M, Tick(gap), M, M, M], Ns(s.next));
      assert [M] + [M, Tick(gap), M, M, M] == [M, M, Tick(gap), M, M, M];
    } else {
      FromEmit(s1);
      StepThen(s, M, [M, M], Ns(s.next));
      assert [M] + [M, M] == [M, M, M];
    }
  }

  lemma FromDisabled(s: State)
    requires On(s) && s.pc.DisabledWait? && 0 < Ns(s.clock) + REFRESH_PERIOD
    ensures Delivers(s, [M, M, M, Tick(REFRESH_PERIOD), M, M, M], Ns(s.clock) + REFRESH_PERIOD)
  {
    hide Ns, Plus, Compare, Delivers;
    PlusExact(s.clock, REFRESH_PERIOD);
    var s1 := Next(s, M);
    CompareAgrees(s1.clock, s1.next);
    FromTop(s1);
    StepThen(s, M, OnwardFromTop(s1), Ns(s1.next));
    assert [M] + OnwardFromTop(s1) == [M, M, M, Tick(REFRESH_PERIOD), M, M, M];
  }

  /** From every state an enabled monitor can be in, at most seven steps in which its waits time out make the callback
      that is due next, and no other. */
  lemma DeliversNext(s: State)
    requires Inv(s) && On(s) && !s.pc.Stopped? && 0 < Expected(s)
    ensures Delivers(s, Onward(s), Expected(s)) && |Onward(s)| <= 7
  {
    hide Ns, Plus, Compare, Delivers, ComingOk, LogOk;
    match s.pc
    case Calling(_) => FromCalling(s);
    case Emit => FromEmit(s);
    case Sleeping(timeout) => FromWait(s, if Ns(s.clock) < Ns(timeout) then Ns(timeout) - Ns(s.clock) else 0);
    case Measure(sleep) => FromMeasure(s);
    case Top => FromTop(s);
    case Acquire =>
      FromTop(Next(s, M));
      StepThen(s, M, OnwardFromTop(s), Ns(s.next));
    case DisabledWait => FromDisabled(s);
  }

  /** A wait that fails makes no callback and loses none: what was due is due still, and the thread goes on to it. */
  lemma FailedWaitRetries(s: State)
    requires Inv(s) && On(s) && s.pc.Sleeping? && 0 < Ns(s.next)
    ensures Delivers(s, [Monitor(Failed)] + OnwardFromTop(s), Ns(s.next))
  {
    hide Ns, Plus, Compare, Delivers, ComingOk, LogOk;
    FromTop(Next(s, Monitor(Failed)));
    StepThen(s, Monitor(Failed), OnwardFromTop(s), Ns(s.next));
  }

  const W: Action := Monitor(Signalled)

  /** How many steps the thread is from rest: from the disabled wait, or from its end if it is to stop. */
  function ToRest(s: State): nat {
    match s.pc
    case Stopped => 0
    case DisabledWait => if s.stop then 2 else 0
    case Top => 1
    case Acquire => 2
    case Emit => 2
    case Calling(_) => 3
    case Sleeping(_) => 3
    case Measure(_) => 4
  }

  lemma RestStep(s: State)
    requires !s.enable
    ensures var s' := Next(s, W); !s'.enable && s'.stop == s.stop && ToRest(s') == if ToRest(s) == 0 then 0 else ToRest(s) - 1
  {
    hide Ns, Plus, Compare;
  }

  lemma {:induction false} Rests(s: State, n: nat)
    requires !s.enable && ToRest(s) <= n
    ensures var e := Run(s, seq(n, _ => W)); ToRest(e) == 0 && e.stop == s.stop
    decreases n
  {
    hide Next, ToRest;
    if n != 0 {
      RestStep(s);
      var schedule := seq(n, _ => W);
      assert schedule[0] == W && schedule[1..] == seq(n - 1, _ => W);
      Rests(Next(s, W), n - 1);
    }
  }

  /** A thread told to stop is gone after at most four steps, whatever it was doing, so destroy's join returns; one that
      is only disabled has come to rest in the disabled wait just as soon. */
  lemma RestsSoon(s: State)
    requires !s.enable
    ensures var pc := Run(s, seq(4, _ => W)).pc;
      pc == Stopped || (!s.stop && pc == DisabledWait)
  {
    hide Next;
    Rests(s, 4);
  }

  lemma {:induction false} NoCallbackNoCall(s: State, schedule: seq<Action>)
    requires !s.procs && !s.pc.Calling? && forall a <- schedule :: a.Enable? ==> !a.procs
    ensures Run(s, schedule).log == s.log
    decreases |schedule|
  {
    if schedule != [] {
      NoCallbackNoCall(Next(s, schedule[0]), schedule[1..]);
    }
  }

  /** A started monitor runs, and is on once enabled. */
  lemma StartRuns(s: State)
    requires s.pc.Stopped? && !s.enable && s.clock.Normal() && s.next.Normal()
    ensures var s' := Next(Next(s, Start), Enable(true)); s'.pc == Acquire && On(s')
  {
  }

  /** What the clients do to the flags. Without a thread nothing but a start has an effect, and with one a start has
      none; enabling an enabled monitor, and disabling a disabled one, change nothing. */
  lemma ClientsSet(s: State, procs: bool)
    ensures s.pc.Stopped? ==> Next(s, Enable(procs)) == Next(s, Disable) == Next(s, Destroy) == s
    ensures !s.pc.Stopped? ==>
      && Next(s, Start) == s
      && Next(s, Enable(procs)).enable && Next(s, Enable(procs)).procs == (if s.enable then s.procs else procs)
      && (if s.enable then !Next(s, Disable).procs else Next(s, Disable) == s)
      && Next(s, Destroy).stop && !Next(s, Destroy).enable
  {
  }

  /** A monitor without a thread is off, without a callback, whatever the clients have done, also during a destroy. */
  lemma {:induction false} StoppedIsOff(s: State, schedule: seq<Action>)
    requires s.pc.Stopped? ==> s.stop && !s.enable && !s.procs
    ensures var e := Run(s, schedule); e.pc.Stopped? ==> e.stop && !e.enable && !e.procs
    decreases |schedule|
  {
    if schedule != [] {
      StoppedIsOff(Next(s, schedule[0]), schedule[1..]);
    }
  }

  // ----- without the rule about destroy

  /** The wait of a delivery was cut short exactly when it ended before the timestamp, and the clock has not gone back
      since. */
  predicate WaitOk(wait: Wait, timestamp: int, clock: int) {
    && wait.ended <= clock
    && (wait.cut <==> wait.ended < timestamp)
  }

  predicate Due(s: State) {
    match s.pc
    case Measure(sleep) => 0 < sleep && Ns(s.next) <= Ns(s.clock) + sleep
    case Sleeping(timeout) => timeout.Normal() && Ns(s.next) <= Ns(timeout)
    case Emit => s.wait.ended <= Ns(s.clock) && (s.enable ==> WaitOk(s.wait, Ns(s.next), Ns(s.clock)))
    case Calling(timestamp) => WaitOk(s.wait, timestamp, Ns(s.clock))
    case _ => true
  }

  predicate LooseInv(s: State) {
    && s.clock.Normal() && s.next.Normal()
    && Due(s)
    && forall i :: 0 <= i < |s.log| ==> WaitOk(s.log[i].wait, s.log[i].timestamp, s.log[i].at)
  }

  lemma LooseWait(s: State, w: Wake)
    requires LooseInv(s) && Possible(s, Monitor(w)) && (s.pc.Sleeping? || s.pc.Emit?)
    ensures LooseInv(MonitorStep(s, w))
  {
    hide Ns, Plus, Compare;
    PlusExact(s.next, REFRESH_PERIOD);
    CompareAgrees(s.clock, s.next);
    if s.pc.Sleeping? {
      CompareAgrees(s.clock, s.pc.timeout);
    }
  }

  lemma LooseTop(s: State, w: Wake)
    requires LooseInv(s) && !s.pc.Sleeping? && !s.pc.Emit?
    ensures LooseInv(MonitorStep(s, w))
  {
    hide Ns, Plus, Compare;
    PlusExact(s.clock, REFRESH_PERIOD);
    CompareAgrees(s.clock, s.next);
    if s.pc.Measure? {
      PlusExact(s.clock, s.pc.sleep);
    }
  }

  lemma LooseTick(s: State, ns: nat)
    requires LooseInv(s)
    ensures LooseInv(s.(clock := Plus(s.clock, ns)))
  {
    hide Ns, Plus, Compare;
    PlusExact(s.clock, ns);
  }

  lemma LooseClient(s: State, a: Action)
    requires LooseInv(s) && Possible(s, a) && !a.Monitor? && !a.Tick?
    ensures LooseInv(Next(s, a))
  {
    hide Ns, Plus, Compare, MonitorStep, WaitOk;
  }

  lemma LooseStep(s: State, a: Action)
    requires LooseInv(s) && Possible(s, a)
    ensures LooseInv(Next(s, a))
  {
    hide LooseInv, MonitorStep, Plus;
    match a
    case Monitor(w) => if s.pc.Sleeping? || s.pc.Emit? { LooseWait(s, w); } else { LooseTop(s, w); }
    case Tick(ns) => LooseTick(s, ns);
    case _ => LooseClient(s, a);
  }

  lemma {:induction false} LooseRun(s: State, schedule: seq<Action>)
    requires LooseInv(s) && Possibly(s, schedule)
    ensures LooseInv(Run(s, schedule))
    decreases |schedule|
  {
    hide LooseInv, Next, Possible;
    if schedule != [] {
      LooseStep(s, schedule[0]);
      LooseRun(Next(s, schedule[0]), schedule[1..]);
    }
  }

  /** In every run, with no rule for the clients at all: a timestamp was still to come when its wait ended exactly when
      that wait was cut short. So only a delivery after such a wait can be early, and it is unless the clock catches up
      before the callback starts. */
  lemma EarlyExactly(s: State, schedule: seq<Action>, i: nat)
    requires Initial(s) && Possibly(s, schedule) && i < |Run(s, schedule).log|
    ensures var d := Run(s, schedule).log[i];
      && d.wait.ended <= d.at
      && (d.wait.ended < d.timestamp <==> d.wait.cut)
      && (d.at < d.timestamp ==> d.wait.cut)
  {
    LooseRun(s, schedule);
  }
}
