/** How the callbacks of blit requests reach their thread: requesters announce reports under a mutex, with one event
    and one count for all of them; the thread takes both, reads the reports from the driver and runs the callbacks. */
module BlitReports {

  type Tid = nat

  datatype Event = NoEvent | Terminated | Request

  /** Where the callback thread stands: about to take the mutex, waiting on the condition (perhaps already signalled),
      reading with its copy of the event, or gone. */
  datatype Pc = Outside | Waiting(signalled: bool) | Reading(event: Event) | Exited

  /** Requests with a callback are numbered as the driver accepts them. `pending` are those whose report has not been
      read; `between` the requesters that the driver has answered and that have not announced their report yet. */
  datatype State = State(
    event: Event, shared: nat, local: nat, pc: Pc,
    issued: nat, pending: set<nat>, between: set<Tid>, delivered: seq<nat>, closing: bool, failed: bool)

  datatype Action =
    | Issue(tid: Tid)
    | Announce(tid: Tid)
    | Close
    | Enter
    | Wake
    | Deliver(id: nat)
    | ReadEmpty
    | ReadFailed
    | EndRound

  function Signal(pc: Pc): Pc {
    if pc.Waiting? then Waiting(true) else pc
  }

  /** The thread, with the mutex, takes what there is. */
  function Take(s: State): State {
    s.(local := s.local + s.shared, shared := 0, event := NoEvent, pc := Reading(s.event))
  }

  function Next(s: State, a: Action): State {
    match a
    case Issue(t) => s.(issued := s.issued + 1, pending := s.pending + {s.issued}, between := s.between + {t})
    case Announce(t) =>
      s.(between := s.between - {t}, event := Request, shared := s.shared + 1, pc := Signal(s.pc))
    case Close => s.(event := Terminated, pc := Signal(s.pc), closing := true)
    case Enter =>
      if !s.pc.Outside? then s
      else if s.event == NoEvent then s.(pc := Waiting(false))
      else Take(s)
    case Wake => if s.pc.Waiting? then Take(s) else s
    case Deliver(id) =>
      if s.pc.Reading? && 0 < s.local then
        s.(local := s.local - 1, pending := s.pending - {id}, delivered := s.delivered + [id])
      else s
    case ReadEmpty => s
    case ReadFailed => if s.pc.Reading? && 0 < s.local then s.(pc := Exited, failed := true) else s
    case EndRound =>
      if s.pc.Reading? && s.local == 0 then s.(pc := if s.pc.event == Terminated then Exited else Outside) else s
  }

  /** What can happen: a requester is in one call at a time, and the driver reports each request once. A wait may end
      without a signal. */
  predicate Possible(s: State, a: Action) {
    && (a.Issue? ==> a.tid !in s.between)
    && (a.Announce? ==> a.tid in s.between)
    && (a.Deliver? ==> a.id in s.pending)
  }

  /** What the users of a handle are asked: nobody is requesting when it is closed, nor later. */
  predicate Disciplined(s: State, a: Action) {
    && (a.Issue? ==> !s.closing)
    && (a.Close? ==> !s.closing && s.between == {})
  }

  function Run(s: State, schedule: seq<Action>): State
    decreases |schedule|
  {
    if schedule == [] then s else Run(Next(s, schedule[0]), schedule[1..])
  }

  lemma {:induction false} RunLast(s: State, schedule: seq<Action>, a: Action)
    ensures Run(s, schedule + [a]) == Next(Run(s, schedule), a)
    decreases |schedule|
  {
    hide Next;
    if schedule == [] {
      assert schedule + [a] == [a];
      assert Run(Next(s, a), []) == Next(s, a);
    } else {
      assert (schedule + [a])[1..] == schedule[1..] + [a];
      RunLast(Next(s, schedule[0]), schedule[1..], a);
    }
  }

  predicate Possibly(s: State, schedule: seq<Action>)
    decreases |schedule|
  {
    schedule == [] || (Possible(s, schedule[0]) && Possibly(Next(s, schedule[0]), schedule[1..]))
  }

  predicate Politely(s: State, schedule: seq<Action>)
    decreases |schedule|
  {
    schedule == [] || (Disciplined(s, schedule[0]) && Politely(Next(s, schedule[0]), schedule[1..]))
  }

  /** blt_open */
  const INITIAL := State(NoEvent, 0, 0, Outside, 0, {}, {}, [], false, false)

  // ----- the invariant

  /** Each request that was issued is either pending or has been delivered once. */
  ghost predicate EachOnce(s: State) {
    && (forall id <- s.pending :: id < s.issued)
    && forall id: nat :: multiset(s.delivered)[id] == if id < s.issued && id !in s.pending then 1 else 0
  }

  /** The reports that are due are those the thread knows of, those it will learn of, and those not announced yet. */
  predicate Conserved(s: State) {
    |s.pending| == s.local + s.shared + |s.between|
  }

  /** Whatever the thread has not been told is pending as an event, and it is not asleep while there is one. */
  predicate NoLostWakeup(s: State) {
    && (0 < s.shared ==> s.event != NoEvent)
    && (s.pc == Waiting(false) ==> s.event == NoEvent)
  }

  /** A handle is terminated only by close, and then nothing is announced any more. */
  predicate ClosesCleanly(s: State) {
    && (s.event == Terminated || s.pc == Reading(Terminated) ==> s.closing)
    && (s.closing ==> s.between == {})
    && (s.closing ==> s.event == Terminated || s.pc == Reading(Terminated) || s.pc == Exited)
    && (s.pc == Reading(Terminated) ==> s.shared == 0)
    && (s.failed ==> s.pc == Exited)
    && (s.pc.Outside? || s.pc.Waiting? ==> s.local == 0)
    && (s.pc == Exited && !s.failed ==> s.closing && s.local == 0 && s.shared == 0)
  }

  ghost predicate Inv(s: State) {
    EachOnce(s) && Conserved(s) && NoLostWakeup(s) && ClosesCleanly(s)
  }

  lemma EachOnceStep(s: State, a: Action)
    requires EachOnce(s) && Possible(s, a)
    ensures EachOnce(Next(s, a))
  {
    var s' := Next(s, a);
    if a.Deliver? && s.pc.Reading? && 0 < s.local {
      assert multiset(s'.delivered) == multiset(s.delivered) + multiset{a.id};
    }
  }

  lemma CountOne(s: set<nat>, x: nat)
    ensures x in s ==> |s - {x}| == |s| - 1
    ensures x !in s ==> |s + {x}| == |s| + 1
  {
  }

  lemma ConservedStep(s: State, a: Action)
    requires EachOnce(s) && Conserved(s) && Possible(s, a)
    ensures Conserved(Next(s, a))
  {
    assert s.issued !in s.pending;
    hide Next, EachOnce, Conserved;
    match a
    case Issue(t) => ConservedIssue(s, t);
    case Announce(t) => ConservedAnnounce(s, t);
    case Deliver(id) => ConservedDeliver(s, id);
    case _ => ConservedElse(s, a);
  }

  lemma ConservedIssue(s: State, t: Tid)
    requires Conserved(s) && s.issued !in s.pending && t !in s.between
    ensures Conserved(Next(s, Issue(t)))
  {
    CountOne(s.pending, s.issued);
    CountOne(s.between, t);
  }

  lemma ConservedAnnounce(s: State, t: Tid)
    requires Conserved(s) && t in s.between
    ensures Conserved(Next(s, Announce(t)))
  {
    CountOne(s.between, t);
  }

  lemma ConservedDeliver(s: State, id: nat)
    requires Conserved(s) && id in s.pending
    ensures Conserved(Next(s, Deliver(id)))
  {
    CountOne(s.pending, id);
  }

  lemma ConservedElse(s: State, a: Action)
    requires Conserved(s) && !a.Issue? && !a.Announce? && !a.Deliver?
    ensures Conserved(Next(s, a))
  {
  }

  lemma NoLostWakeupStep(s: State, a: Action)
    requires NoLostWakeup(s)
    ensures NoLostWakeup(Next(s, a))
  {
  }

  lemma ClosesCleanlyStep(s: State, a: Action)
    requires NoLostWakeup(s) && ClosesCleanly(s) && Possible(s, a) && Disciplined(s, a)
    ensures ClosesCleanly(Next(s, a))
  {
  }

  lemma StepInv(s: State, a: Action)
    requires Inv(s) && Possible(s, a) && Disciplined(s, a)
    ensures Inv(Next(s, a))
  {
    hide Next, EachOnce, Conserved, NoLostWakeup, ClosesCleanly;
    EachOnceStep(s, a);
    ConservedStep(s, a);
    NoLostWakeupStep(s, a);
    ClosesCleanlyStep(s, a);
  }

  lemma {:induction false} RunInv(s: State, schedule: seq<Action>)
    requires Inv(s) && Possibly(s, schedule) && Politely(s, schedule)
    ensures Inv(Run(s, schedule))
    decreases |schedule|
  {
    hide Next, Inv, Possible, Disciplined;
    if schedule != [] {
      StepInv(s, schedule[0]);
      RunInv(Next(s, schedule[0]), schedule[1..]);
    }
  }

  // ----- what holds after every run

  predicate Reached(schedule: seq<Action>) {
    Possibly(INITIAL, schedule) && Politely(INITIAL, schedule)
  }

  /** Conservation: every request that was accepted has been delivered, or is counted in the thread, in the handle, or
      by a requester that has not announced it yet; and no request is delivered twice. */
  lemma NothingLost(schedule: seq<Action>)
    requires Reached(schedule)
    ensures var s := Run(INITIAL, schedule);
      && s.issued == |s.delivered| + s.local + s.shared + |s.between|
      && (forall i, j :: 0 <= i < j < |s.delivered| ==> s.delivered[i] != s.delivered[j])
  {
    RunInv(INITIAL, schedule);
    var s := Run(INITIAL, schedule);
    DeliveredCount(s);
    forall i, j | 0 <= i < j < |s.delivered|
      ensures s.delivered[i] != s.delivered[j]
    {
      NotTwice(s, i, j);
    }
  }

  lemma NotTwice(s: State, i: nat, j: nat)
    requires EachOnce(s) && i < j < |s.delivered|
    ensures s.delivered[i] != s.delivered[j]
  {
    var front, back := s.delivered[..j], s.delivered[j..];
    assert s.delivered == front + back;
    assert multiset(s.delivered) == multiset(front) + multiset(back);
    assert front[i] in multiset(front);
    assert back[0] in multiset(back);
    assert multiset(s.delivered)[front[i]] <= 1;
  }

  /** The numbers below n. */
  function Below(n: nat): (r: set<nat>)
    ensures |r| == n
    ensures forall id: nat :: id in r <==> id < n
  {
    if n == 0 then {} else Below(n - 1) + {n - 1}
  }

  lemma SetCount(s: set<nat>)
    ensures |multiset(s)| == |s|
  {
  }

  lemma DeliveredCount(s: State)
    requires EachOnce(s)
    ensures |s.delivered| + |s.pending| == s.issued
  {
    assert s.pending <= Below(s.issued);
    var done := Below(s.issued) - s.pending;
    assert multiset(s.delivered) == multiset(done);
    assert |done| == s.issued - |s.pending|;
    SetCount(done);
    assert |multiset(s.delivered)| == |s.delivered|;
  }

  /** When the thread sleeps without having been signalled, no event is pending and every report that was announced
      has been delivered; and a handle being closed has no sleeping thread, so the join is not held up by a wait. */
  lemma SleepsOnlyWhenDone(schedule: seq<Action>)
    requires Reached(schedule) && Run(INITIAL, schedule).pc == Waiting(false)
    ensures var s := Run(INITIAL, schedule);
      && s.event == NoEvent && s.shared == 0 && !s.closing
      && s.issued == |s.delivered| + |s.between|
  {
    RunInv(INITIAL, schedule);
    NothingLost(schedule);
  }

  /** When close has joined the thread and no read has failed, every request's callback has run exactly once. */
  lemma ClosedDelivered(schedule: seq<Action>)
    requires Reached(schedule)
    requires var s := Run(INITIAL, schedule); s.closing && s.pc == Exited && !s.failed
    ensures var s := Run(INITIAL, schedule); multiset(s.delivered) == multiset(Below(s.issued))
  {
    RunInv(INITIAL, schedule);
    var s := Run(INITIAL, schedule);
    assert s.pending == {};
  }

  // ----- what the thread gets to

  lemma {:induction false} RunAppend(s: State, front: seq<Action>, back: seq<Action>)
    ensures Run(s, front + back) == Run(Run(s, front), back)
    ensures Possibly(s, front + back) <==> Possibly(s, front) && Possibly(Run(s, front), back)
    ensures Politely(s, front + back) <==> Politely(s, front) && Politely(Run(s, front), back)
    decreases |front|
  {
    hide Next, Possible, Disciplined;
    if front == [] {
      assert front + back == back;
    } else {
      assert (front + back)[1..] == front[1..] + back;
      RunAppend(Next(s, front[0]), front[1..], back);
    }
  }

  /** While the thread is reading with reports due, a report that is read has its callback run and is counted off. */
  lemma ReadIsDelivered(schedule: seq<Action>, id: nat)
    requires Reached(schedule)
    requires var s := Run(INITIAL, schedule); s.pc.Reading? && 0 < s.local && id in s.pending
    ensures Reached(schedule + [Deliver(id)])
    ensures var s, s' := Run(INITIAL, schedule), Run(INITIAL, schedule + [Deliver(id)]);
      && s'.delivered == s.delivered + [id] && s'.local == s.local - 1 && s'.pending == s.pending - {id}
      && s'.pc == s.pc
  {
    RunAppend(INITIAL, schedule, [Deliver(id)]);
    var s := Run(INITIAL, schedule);
    assert Run(s, [Deliver(id)]) == Run(Next(s, Deliver(id)), []);
    assert Possibly(Next(s, Deliver(id)), []) && Politely(Next(s, Deliver(id)), []);
  }

  /** A step of the thread that goes well. */
  predicate ThreadStep(a: Action) {
    a.Deliver? || a.Enter? || a.Wake? || a.EndRound?
  }

  /** The thread can get from s to t by steps that go well. */
  ghost predicate GetsTo(s: State, more: seq<Action>, t: State) {
    Possibly(s, more) && Politely(s, more) && Run(s, more) == t && forall a <- more :: ThreadStep(a)
  }

  lemma OneStep(s: State, a: Action)
    requires ThreadStep(a) && Possible(s, a)
    ensures GetsTo(s, [a], Next(s, a))
  {
    hide Next, Possible;
    var t := Next(s, a);
    assert Run(s, [a]) == Run(t, []) && Possibly(t, []) && Politely(t, []);
    assert Disciplined(s, a);
  }

  lemma Joined(s: State, m1: seq<Action>, t: State, m2: seq<Action>, u: State)
    requires GetsTo(s, m1, t) && GetsTo(t, m2, u)
    ensures GetsTo(s, m1 + m2, u)
  {
    hide Possibly, Politely, Run;
    RunAppend(s, m1, m2);
  }

  /** The reports known to the thread can all be read. */
  lemma {:induction false} Drains(s: State) returns (more: seq<Action>, t: State)
    requires Inv(s) && s.pc.Reading?
    ensures GetsTo(s, more, t) && Inv(t) && t.local == 0
    ensures t == s.(local := 0, pending := t.pending, delivered := t.delivered)
    decreases s.local
  {
    if s.local == 0 {
      more, t := [], s;
      assert Possibly(s, []) && Politely(s, []);
    } else {
      assert |s.pending| != 0;
      var id :| id in s.pending;
      var a := Deliver(id);
      StepInv(s, a);
      OneStep(s, a);
      var rest;
      rest, t := Drains(Next(s, a));
      Joined(s, [a], Next(s, a), rest, t);
      more := [a] + rest;
    }
  }

  /** One round: the thread takes what there is, reads it all, and goes round or exits. */
  lemma TakesRound(s: State) returns (more: seq<Action>, t: State)
    requires Inv(s) && ((s.pc.Outside? && s.event != NoEvent) || s.pc.Waiting?)
    ensures GetsTo(s, more, t) && Inv(t)
    ensures t.local == 0 && t.shared == 0 && t.event == NoEvent && t.between == s.between
    ensures t.closing == s.closing && t.failed == s.failed
    ensures t.pc == if s.event == Terminated then Exited else Outside
  {
    var a := if s.pc.Outside? then Enter else Wake;
    StepInv(s, a);
    OneStep(s, a);
    var s1 := Next(s, a);
    assert s1 == Take(s);
    var m2, s2 := Drains(s1);
    Joined(s, [a], s1, m2, s2);
    StepInv(s2, EndRound);
    OneStep(s2, EndRound);
    t := Next(s2, EndRound);
    Joined(s, [a] + m2, s2, [EndRound], t);
    more := [a] + m2 + [EndRound];
  }

  /** From wherever it is, the thread can come to the end of its round. */
  lemma EndsRound(s: State) returns (more: seq<Action>, t: State)
    requires Inv(s) && s.pc.Reading?
    ensures GetsTo(s, more, t) && Inv(t)
    ensures t == s.(local := 0, pending := t.pending, delivered := t.delivered, pc := t.pc)
    ensures t.pc == if s.pc.event == Terminated then Exited else Outside
  {
    var m1, s1 := Drains(s);
    StepInv(s1, EndRound);
    OneStep(s1, EndRound);
    t := Next(s1, EndRound);
    Joined(s, m1, s1, [EndRound], t);
    more := m1 + [EndRound];
  }

  /** The thread has nothing left to do: it has exited if the handle is being closed, and sleeps otherwise. */
  predicate Settled(s: State) {
    && s.local == 0 && s.shared == 0
    && if s.closing then s.pc == Exited else s.pc == Waiting(false)
  }

  lemma SettlesOutside(s: State) returns (more: seq<Action>, t: State)
    requires Inv(s) && !s.failed && s.pc.Outside?
    ensures GetsTo(s, more, t) && Inv(t) && Settled(t) && !t.failed && t.closing == s.closing
  {
    var m1, s1 := [], s;
    if s.event != NoEvent {
      m1, s1 := TakesRound(s);
    } else {
      assert Possibly(s, []) && Politely(s, []);
    }
    if s1.pc == Exited {
      more, t := m1, s1;
    } else {
      StepInv(s1, Enter);
      OneStep(s1, Enter);
      t := Next(s1, Enter);
      Joined(s, m1, s1, [Enter], t);
      more := m1 + [Enter];
    }
  }

  /** From every state that can be reached without a failed read, the thread can settle by steps of its own: it runs
      the callback of every report that has been announced, and then exits if the handle is being closed, or sleeps. */
  lemma Settles(s: State) returns (more: seq<Action>, t: State)
    requires Inv(s) && !s.failed
    ensures GetsTo(s, more, t) && Inv(t) && Settled(t) && !t.failed && t.closing == s.closing
  {
    if s.pc == Exited || s.pc == Waiting(false) {
      more, t := [], s;
      assert Possibly(s, []) && Politely(s, []);
    } else {
      var m1, s1 := [], s;
      if s.pc.Reading? {
        m1, s1 := EndsRound(s);
      } else if s.pc.Waiting? {
        m1, s1 := TakesRound(s);
      } else {
        assert Possibly(s, []) && Politely(s, []);
      }
      if s1.pc == Exited {
        more, t := m1, s1;
      } else {
        var m2;
        m2, t := SettlesOutside(s1);
        Joined(s, m1, s1, m2, t);
        more := m1 + m2;
      }
    }
  }

  /** However far a run has come, unless a read has failed, the thread can go on so that every announced report is
      delivered; and if the handle is being closed, so that the thread exits and the callback of every request there
      ever was has run once. */
  lemma EverythingGetsDelivered(schedule: seq<Action>) returns (more: seq<Action>)
    requires Reached(schedule) && !Run(INITIAL, schedule).failed
    ensures Reached(schedule + more) && forall a <- more :: ThreadStep(a)
    ensures var s, e := Run(INITIAL, schedule), Run(INITIAL, schedule + more);
      && e.issued == |e.delivered| + |e.between|
      && e.pc == (if s.closing then Exited else Waiting(false))
      && (s.closing ==> multiset(e.delivered) == multiset(Below(e.issued)))
  {
    RunInv(INITIAL, schedule);
    var s := Run(INITIAL, schedule);
    var t;
    more, t := Settles(s);
    RunAppend(INITIAL, schedule, more);
    NothingLost(schedule + more);
    if s.closing {
      ClosedDelivered(schedule + more);
    }
  }

  /** A failed read ends the thread, and with no event the thread waits. */
  lemma FailsAndWaits(s: State)
    ensures s.pc.Reading? && 0 < s.local ==> Next(s, ReadFailed) == s.(pc := Exited, failed := true)
    ensures s.pc.Outside? && s.event == NoEvent ==> Next(s, Enter) == s.(pc := Waiting(false))
  {
  }

  // ----- why close must wait for the requesters

  /** Requester 0 is between the driver and its announcement when the handle is closed. */
  const CLOSE_RACE: seq<Action> := [Issue(0), Close, Enter, EndRound, Announce(0)]

  /** A close during a request lets the thread exit, without any failure, before the callback has run. */
  lemma CloseDuringRequest()
    ensures Possibly(INITIAL, CLOSE_RACE)
    ensures var s := Run(INITIAL, CLOSE_RACE); s.pc == Exited && !s.failed && s.issued == 1 && s.delivered == []
  {
    var s1 := Next(INITIAL, Issue(0));
    var s2 := Next(s1, Close);
    var s3 := Next(s2, Enter);
    var s4 := Next(s3, EndRound);
    assert Run(INITIAL, CLOSE_RACE) == Run(s2, CLOSE_RACE[2..]);
    assert Run(s2, CLOSE_RACE[2..]) == Run(s4, CLOSE_RACE[4..]);
    assert Run(s4, [Announce(0)]) == Next(s4, Announce(0));
    assert Possibly(s4, CLOSE_RACE[4..]);
    assert Possibly(s2, CLOSE_RACE[2..]);
  }
}
