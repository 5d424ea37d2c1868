/** What each step of the threads does to the waiters, with the bits of the masks and the fields of the contexts alone. */
module IoThreads {
  import opened IoEvents
  import opened IoWakes
  import opened IoRuns

  /** Fetching a context changes nothing but what the thread holds; a thread that finds the table too short may go on to
      grow it. */
  lemma LookingFetches(w: World, t: nat, fd: nat, grows: bool)
    ensures var n := Next(w, Look(t, fd, grows));
            && n.io == w.io && n.lost == w.lost
            && (fd < |w.io.table| ==> Place(n, t) == Holds(Slot(fd)))
            && (fd >= |w.io.table| ==> if grows then Place(n, t) == Growing(fd) else n == w)
  {}

  /** Growing makes the table twice as long as the descriptor, wakes nobody, and fetches. */
  lemma GrowingFetches(w: World, t: nat)
    requires Place(w, t).Growing?
    ensures var n, fd := Next(w, Grow(t)), Place(w, t).fd;
            && n.io == w.io.(table := n.io.table) && |n.io.table| == 2 * fd && Place(n, t) == Holds(Slot(fd))
            && (forall k :: 0 <= k < |w.io.table| && k < 2 * fd ==> n.io.table[k] == w.io.table[k])
  {}

  /** Working on a context of the table: registering makes the waiter wait, deleting takes it out, cancelling wakes it, and
      cancelling everything wakes all who wait for the descriptor. The call is over then. If epoll_ctl fails nothing
      changes. */
  lemma ActingWakes(w: World, t: nat, fd: nat, a: Action, ok: bool)
    requires Sound(w) && Enabled(w, Act(t, a, ok)) && Place(w, t) == Holds(Slot(fd))
    ensures fd < |w.io.table| && Place(Next(w, Act(t, a, ok)), t) == Outside
    ensures var s, r := w.io, Next(w, Act(t, a, ok)).io;
            match a
            case Add(e, waiter, scheduler) => if ok then Waits(s, r, fd, e, waiter, scheduler) else r == s
            case Del(e) =>
              if ok && IsAwaited(s.table[fd], e) then TakenOut(s, r, fd, e.READ?, e.WRITE?) && r.delivered == s.delivered else r == s
            case Cancel(e) => if ok && IsAwaited(s.table[fd], e) then Wakes(s, r, fd, e.READ?, e.WRITE?) else r == s
            case CancelEvery => if ok then Wakes(s, r, fd, s.table[fd].event.read, s.table[fd].event.write) else r == s
            case Reported(_) => true
  {
    assert IsPointer(w, Slot(fd)) && MayAct(w.io.table[fd], a);
    assert Inv(w.io);
    hide Sound, Inv, Register, DelEvent, CancelEvent, CancelAll, OnReady, Waits, Wakes, TakenOut;
    match a {
      case Add(e, waiter, scheduler) => RegisterWaits(w.io, fd, e, waiter, scheduler, ok);
      case Del(e) => DeleteWakesNobody(w.io, fd, e, ok);
      case Cancel(e) => CancelWakes(w.io, fd, e, ok);
      case CancelEvery => CancelAllWakes(w.io, fd, ok);
      case Reported(_) =>
    }
  }

  /** Working on a context that the table has lost touches no waiter, unless it registers there. */
  lemma LostIsIdle(w: World, t: nat, fd: nat, k: nat, a: Action, ok: bool)
    requires Sound(w) && Enabled(w, Act(t, a, ok)) && Place(w, t) == Holds(Lost(fd, k)) && (a.Add? ==> !ok)
    ensures Next(w, Act(t, a, ok)).io == w.io && Next(w, Act(t, a, ok)).lost == w.lost
  {
    assert k < |w.lost| && w.lost[k] == UNUSED;
    hide Sound;
    LostIsUnused(w, fd, k, a, ok);
  }

  /** A report wakes the reader if the descriptor is readable or broken, and the writer if it is writable or broken; if they
      wait, and nobody else. */
  lemma ReportingWakes(w: World, at: Pointer, r: Readiness, ok: bool)
    requires Sound(w) && Enabled(w, Ready(at, r, ok))
    ensures var s, n := w.io, Next(w, Ready(at, r, ok));
            && n.threads == w.threads
            && if at.Slot? && ok then
                 var m := s.table[at.fd].event;
                 Wakes(s, n.io, at.fd, m.read && (r.readable || r.broken), m.write && (r.writable || r.broken))
               else n.io == s
  {
    assert Inv(w.io);
    match at {
      case Slot(fd) =>
        hide Sound, Inv, OnReady, Wakes;
        ReportWakes(w.io, fd, r, ok);
      case Lost(fd, k) =>
        assert k < |w.lost| && w.lost[k] == UNUSED;
        hide Sound;
        LostIsUnused(w, fd, k, Reported(r), ok);
    }
  }
}
