/** The data of an open blitter handle, updated in place by its requesters and its callback thread; each method is
    proved to be a step of BlitReports. */
module BlitHandle {
  import opened BlitReports

  /** What a read of the thread returns: the report of a request, nothing of use, or an error. */
  datatype Read = Report(id: nat) | Nothing | Error

  function ReadAction(r: Read): Action {
    match r
    case Report(id) => Deliver(id)
    case Nothing => ReadEmpty
    case Error => ReadFailed
  }

  function ReadActions(answers: seq<Read>): seq<Action> {
    seq(|answers|, i requires 0 <= i < |answers| => ReadAction(answers[i]))
  }

  /** The thread goes on reading. */
  predicate Reads(s: State) {
    s.pc.Reading? && 0 < s.local
  }

  class Data {
    var event: Event
    var numberReports: nat
    /** The thread's own count, and where it stands. */
    var local: nat
    var pc: Pc
    ghost var issued: nat
    ghost var pending: set<nat>
    ghost var between: set<Tid>
    ghost var delivered: seq<nat>
    ghost var closing: bool
    ghost var failed: bool

    ghost function View(): State
      reads this
    {
      State(event, numberReports, local, pc, issued, pending, between, delivered, closing, failed)
    }

    /** blt_open */
    constructor ()
      ensures View() == INITIAL
    {
      event, numberReports, local, pc := NoEvent, 0, 0, Outside;
      issued, pending, between, delivered, closing, failed := 0, {}, {}, [], false, false;
    }

    /** pthread_cond_signal */
    method Wakeup()
      modifies `pc
      ensures pc == Signal(old(pc))
    {
      if pc.Waiting? {
        pc := Waiting(true);
      }
    }

    /** The driver accepts a request with a callback. */
    method Ioctl(tid: Tid)
      requires Possible(View(), Issue(tid))
      modifies this
      ensures View() == Next(old(View()), Issue(tid))
    {
      pending := pending + {issued};
      issued := issued + 1;
      between := between + {tid};
    }

    /** The critical section of blt_request. */
    method AnnounceReport(tid: Tid)
      requires Possible(View(), Announce(tid))
      modifies this
      ensures View() == Next(old(View()), Announce(tid))
    {
      event := Request;
      numberReports := numberReports + 1;
      Wakeup();
      between := between - {tid};
    }

    /** The critical section of blt_close; joining is waiting for Exited. */
    method Terminate()
      modifies this
      ensures View() == Next(old(View()), Close)
    {
      event := Terminated;
      Wakeup();
      closing := true;
    }

    /** The thread with the mutex: what follows the wait. */
    method TakeReports()
      modifies this
      ensures View() == Take(old(View()))
    {
      var taken := event;
      local := local + numberReports;
      event := NoEvent;
      numberReports := 0;
      pc := Reading(taken);
    }

    method EnterSection()
      requires pc.Outside?
      modifies this
      ensures View() == Next(old(View()), Enter)
    {
      if event == NoEvent {
        pc := Waiting(false);
      } else {
        TakeReports();
      }
    }

    /** The wait is over, for whatever reason. */
    method LeaveWait()
      requires pc.Waiting?
      modifies this
      ensures View() == Next(old(View()), Wake)
    {
      TakeReports();
    }

    /** A read that returns the report of request id, whose callback is run. */
    method RunCallback(id: nat)
      requires pc.Reading? && 0 < local && Possible(View(), Deliver(id))
      modifies this
      ensures View() == Next(old(View()), Deliver(id))
      ensures pc == old(pc)
    {
      pending := pending - {id};
      delivered := delivered + [id];
      local := local - 1;
    }

    /** The loop of the thread that reads reports, fed with what the reads return. It stops after n reads: when all the
        reports it knew of have been read, when a read fails, or where no read has returned any more. */
    method ReadReports(answers: seq<Read>) returns (n: nat)
      requires pc.Reading? && Possibly(View(), ReadActions(answers))
      modifies this
      ensures n <= |answers| && View() == Run(old(View()), ReadActions(answers[..n]))
      ensures forall m :: 0 <= m < n ==> Reads(Run(old(View()), ReadActions(answers[..m])))
      ensures n < |answers| ==> local == 0 || pc == Exited
    {
      hide Next, Possible;
      n := 0;
      ghost var start := View();
      assert ReadActions(answers[..0]) == [] && ReadActions(answers[0..]) == ReadActions(answers);
      while local > 0 && n < |answers|
        invariant n <= |answers| && pc.Reading?
        invariant View() == Run(start, ReadActions(answers[..n]))
        invariant Possibly(View(), ReadActions(answers[n..]))
        invariant forall m :: 0 <= m < n ==> Reads(Run(start, ReadActions(answers[..m])))
        decreases |answers| - n
      {
        assert ReadActions(answers[n..])[0] == ReadAction(answers[n]);
        assert ReadActions(answers[n..])[1..] == ReadActions(answers[n + 1..]);
        assert ReadActions(answers[..n + 1]) == ReadActions(answers[..n]) + [ReadAction(answers[n])];
        RunLast(start, ReadActions(answers[..n]), ReadAction(answers[n]));
        ReadOne(answers[n]);
        n := n + 1;
        if answers[n - 1].Error? {
          return;
        }
      }
    }

    /** One read, and the callback if it returned a report. */
    method ReadOne(r: Read)
      requires Reads(View()) && Possible(View(), ReadAction(r))
      modifies this
      ensures View() == Next(old(View()), ReadAction(r))
      ensures pc == if r.Error? then Exited else old(pc)
    {
      match r
      case Report(id) => RunCallback(id);
      case Nothing =>
      case Error => FailRead();
    }

    method FailRead()
      requires pc.Reading? && 0 < local
      modifies this
      ensures View() == Next(old(View()), ReadFailed)
      ensures pc == Exited
    {
      pc := Exited;
      failed := true;
    }

    /** The thread has read all the reports it knew of. */
    method FinishRound()
      requires pc.Reading? && local == 0
      modifies this
      ensures View() == Next(old(View()), EndRound)
    {
      if pc.event == Terminated {
        pc := Exited;
      } else {
        pc := Outside;
      }
    }
  
    /** One action of a requester, the closer, or the thread. */
    method Perform(a: Action)
      requires Possible(View(), a)
      modifies this
      ensures View() == Next(old(View()), a)
    {
      match a
      case Issue(t) => Ioctl(t);
      case Announce(t) => AnnounceReport(t);
      case Close => Terminate();
      case Enter => if pc.Outside? { EnterSection(); }
      case Wake => if pc.Waiting? { LeaveWait(); }
      case Deliver(id) => if pc.Reading? && 0 < local { RunCallback(id); }
      case ReadEmpty =>
      case ReadFailed => if pc.Reading? && 0 < local { FailRead(); }
      case EndRound => if pc.Reading? && local == 0 { FinishRound(); }
    }

    /** Any schedule that is possible, action by action in place. */
    method Execute(schedule: seq<Action>)
      requires Possibly(View(), schedule)
      modifies this
      ensures View() == Run(old(View()), schedule)
    {
      hide Next, Possible;
      var i := 0;
      while i < |schedule|
        invariant 0 <= i <= |schedule|
        invariant Possibly(View(), schedule[i..])
        invariant Run(View(), schedule[i..]) == Run(old(View()), schedule)
      {
        assert schedule[i..][1..] == schedule[i + 1..];
        Perform(schedule[i]);
        i := i + 1;
      }
    }
  }
}
