/** Whom the calls of the I/O manager wake, said with the bits of the masks and the fields of the contexts alone. */
module IoWakes {
  import opened IoEvents
  import opened Wrappers

  /** What waking the waiter of an event context gives its scheduler: the callback if there is one. */
  function Runs(c: EventContext): seq<Delivery> {
    if c.scheduler.None? then []
    else if c.cb.Some? then [Delivery(c.scheduler.value, Callback(c.cb.value))]
    else if c.fiber.Some? then [Delivery(c.scheduler.value, Fiber(c.fiber.value))]
    else []
  }

  predicate IsCleared(c: EventContext) {
    c.scheduler.None? && c.fiber.None? && c.cb.None?
  }

  /** Nothing but the context of `fd` and what the kernel watches for it has changed. */
  ghost predicate Elsewhere(s: Io, t: Io, fd: nat) {
    && |t.table| == |s.table| && (forall k :: 0 <= k < |s.table| && k != fd ==> t.table[k] == s.table[k])
    && (forall k: nat :: k != fd ==> (k in t.kernel <==> k in s.kernel) && (k in s.kernel ==> t.kernel[k] == s.kernel[k]))
  }

  /** Of descriptor `fd` reading is awaited and watched exactly if `read`, and writing exactly if `write`. */
  predicate Watched(t: Io, fd: nat, read: bool, write: bool) {
    && fd < |t.table| && t.table[fd].event.read == read && t.table[fd].event.write == write
    && (fd in t.kernel <==> read || write)
    && (fd in t.kernel ==> t.kernel[fd].read == read && t.kernel[fd].write == write)
  }

  function Count(read: bool, write: bool): nat {
    (if read then 1 else 0) + if write then 1 else 0
  }

  /** The waiters of the events `read` and `write` of descriptor `fd`, and no others, have left the table. */
  ghost predicate TakenOut(s: Io, t: Io, fd: nat, read: bool, write: bool) {
    && fd < |s.table| && Elsewhere(s, t, fd) && t.added == s.added
    && Watched(t, fd, s.table[fd].event.read && !read, s.table[fd].event.write && !write)
    && (if read then IsCleared(t.table[fd].read) else t.table[fd].read == s.table[fd].read)
    && (if write then IsCleared(t.table[fd].write) else t.table[fd].write == s.table[fd].write)
    && t.pending == s.pending - Count(read, write)
  }

  /** They were woken, reading first, and nobody was deleted. */
  ghost predicate Wakes(s: Io, t: Io, fd: nat, read: bool, write: bool) {
    && TakenOut(s, t, fd, read, write) && t.deleted == s.deleted
    && t.delivered == s.delivered + (if read then Runs(s.table[fd].read) else []) + (if write then Runs(s.table[fd].write) else [])
  }

  /** What the invariant says of one descriptor. */
  lemma Facts(s: Io, fd: nat)
    requires Inv(s) && fd < |s.table|
    ensures Watched(s, fd, s.table[fd].event.read, s.table[fd].event.write)
    ensures if s.table[fd].event.read then |Runs(s.table[fd].read)| == 1 else IsCleared(s.table[fd].read)
    ensures if s.table[fd].event.write then |Runs(s.table[fd].write)| == 1 else IsCleared(s.table[fd].write)
  {
    ConsistentAt(s, fd);
  }

  /** A context without the waiters of `read` and `write`. */
  function Remainder(c: Context, read: bool, write: bool): Context {
    Context(Mask(c.event.read && !read, c.event.write && !write), if read then EventContext(None, None, None) else c.read,
            if write then EventContext(None, None, None) else c.write)
  }

  lemma OneTriggered(s: Io, fd: nat, e: Event)
    requires fd < |s.table| && |Runs(s.table[fd].Of(e))| == 1 && s.table[fd].Consistent()
    ensures Trigger(s, fd, e) == s.(table := s.table[fd := Remainder(s.table[fd], e.READ?, e.WRITE?)],
                                    delivered := s.delivered + Runs(s.table[fd].Of(e)))
  {}

  lemma BothTriggered(s: Io, fd: nat, read: bool, write: bool)
    requires fd < |s.table| && s.table[fd].Consistent()
    requires (read ==> |Runs(s.table[fd].read)| == 1) && (write ==> |Runs(s.table[fd].write)| == 1)
    ensures TriggerAll(s, fd, Mask(read, write)) ==
            s.(table := s.table[fd := Remainder(s.table[fd], read, write)], pending := s.pending - Count(read, write),
               delivered := s.delivered + (if read then Runs(s.table[fd].read) else []) + (if write then Runs(s.table[fd].write) else []))
  {
    hide Runs, Trigger;
    RemainderIsConsistent(s.table[fd]);
    if read {
      OneTriggered(s, fd, READ);
    }
    var r := if read then var t := Trigger(s, fd, READ); t.(pending := t.pending - 1) else s;
    assert s.table[fd := s.table[fd]] == s.table;
    if write {
      OneTriggered(r, fd, WRITE);
    }
  }

  lemma RemainderIsConsistent(c: Context)
    requires c.Consistent()
    ensures Remainder(c, true, false).Consistent() && Remainder(c, false, false) == c
  {}

  /** What is left after waiters have been taken out of one context. */
  lemma Taken(s: Io, t: Io, fd: nat, read: bool, write: bool)
    requires Inv(s) && fd < |s.table| && t.added == s.added && t.pending == s.pending - Count(read, write)
    requires t.table == s.table[fd := Remainder(s.table[fd], read, write)]
    requires t.kernel == KernelFor(s.kernel, fd, Mask(s.table[fd].event.read && !read, s.table[fd].event.write && !write))
    ensures TakenOut(s, t, fd, read, write)
  {
    hide Inv;
  }

  lemma AllWake(s: Io, t: Io, fd: nat, read: bool, write: bool)
    requires Inv(s) && fd < |s.table| && (read ==> s.table[fd].event.read) && (write ==> s.table[fd].event.write)
    requires var left := Mask(s.table[fd].event.read && !read, s.table[fd].event.write && !write);
             t == TriggerAll(s.(kernel := KernelFor(s.kernel, fd, left)), fd, Mask(read, write))
    ensures Wakes(s, t, fd, read, write)
  {
    Facts(s, fd);
    ConsistentAt(s, fd);
    var u := s.(kernel := KernelFor(s.kernel, fd, Mask(s.table[fd].event.read && !read, s.table[fd].event.write && !write)));
    hide Inv, TriggerAll, Runs, TakenOut, Context.Consistent;
    BothTriggered(u, fd, read, write);
    Taken(s, t, fd, read, write);
  }

  lemma NobodyTaken(s: Io, fd: nat)
    requires Inv(s) && fd < |s.table|
    ensures Wakes(s, s, fd, false, false)
  {
    Facts(s, fd);
    assert s.delivered + [] + [] == s.delivered;
  }

  /** A report wakes the reader exactly if one waits and the descriptor is readable, or broken; and likewise the writer.
      No other waiter is touched. If epoll_ctl fails nothing changes. */
  lemma ReportWakes(s: Io, fd: nat, r: Readiness, ok: bool)
    requires Inv(s) && MayReport(s, fd, r)
    ensures var m, t := s.table[fd].event, OnReady(s, fd, r, ok);
            if ok then Wakes(s, t, fd, m.read && (r.readable || r.broken), m.write && (r.writable || r.broken)) else t == s
  {
    Facts(s, fd);
    hide Inv, TriggerAll, Runs, TakenOut;
    var m, t := s.table[fd].event, OnReady(s, fd, r, ok);
    var read, write := m.read && (r.readable || r.broken), m.write && (r.writable || r.broken);
    if (read || write) && ok {
      AllWake(s, t, fd, read, write);
    } else if ok {
      NobodyTaken(s, fd);
    }
  }

  /** Which reports the program survives: those in which an event that was found and is not awaited does not come
      with one that is. */
  lemma ReportsSurvived(s: Io, fd: nat, r: Readiness)
    requires fd < |s.table|
    ensures var m := s.table[fd].event;
            MayReport(s, fd, r) <==> !((m.read && !m.write && (r.readable || r.broken) && r.writable) ||
                                       (m.write && !m.read && (r.writable || r.broken) && r.readable))
  {}

  predicate IsAwaited(c: Context, e: Event) {
    if e.READ? then c.event.read else c.event.write
  }

  lemma NotAwaited(s: Io, fd: nat, e: Event, ok: bool)
    requires fd >= |s.table| || !ok || !IsAwaited(s.table[fd], e)
    ensures CancelEvent(s, fd, e, ok) == s && DelEvent(s, fd, e, ok) == s
  {}

  lemma CancelTriggers(s: Io, fd: nat, e: Event)
    requires fd < |s.table| && IsAwaited(s.table[fd], e)
    ensures var c := s.table[fd];
            var left := Mask(c.event.read && !e.READ?, c.event.write && !e.WRITE?);
            CancelEvent(s, fd, e, true) == TriggerAll(s.(kernel := KernelFor(s.kernel, fd, left)), fd, Mask(e.READ?, e.WRITE?))
  {
    hide Trigger;
  }

  /** Cancelling wakes the waiter of that event. */
  lemma CancelWakes(s: Io, fd: nat, e: Event, ok: bool)
    requires Inv(s)
    ensures var t := CancelEvent(s, fd, e, ok);
            if fd < |s.table| && ok && IsAwaited(s.table[fd], e) then Wakes(s, t, fd, e.READ?, e.WRITE?) else t == s
  {
    hide Inv, CancelEvent, Wakes, TriggerAll, KernelFor;
    if fd < |s.table| && ok && IsAwaited(s.table[fd], e) {
      CancelTriggers(s, fd, e);
      AllWake(s, CancelEvent(s, fd, e, ok), fd, e.READ?, e.WRITE?);
    } else {
      NotAwaited(s, fd, e, ok);
    }
  }

  /** Cancelling all events wakes everyone who waits for the descriptor. */
  lemma CancelAllWakes(s: Io, fd: nat, ok: bool)
    requires Inv(s)
    ensures var t := CancelAll(s, fd, ok);
            if fd < |s.table| && ok then Wakes(s, t, fd, s.table[fd].event.read, s.table[fd].event.write) else t == s
  {
    if fd < |s.table| && ok {
      hide Inv, Runs, TakenOut, TriggerAll;
      if s.table[fd].event.IsNone() {
        NobodyTaken(s, fd);
      } else {
        AllWake(s, CancelAll(s, fd, ok), fd, s.table[fd].event.read, s.table[fd].event.write);
      }
    }
  }

  lemma DeleteTakes(s: Io, fd: nat, e: Event)
    requires Inv(s) && fd < |s.table| && IsAwaited(s.table[fd], e)
    ensures var c := s.table[fd];
            var left := Mask(c.event.read && !e.READ?, c.event.write && !e.WRITE?);
            DelEvent(s, fd, e, true) ==
            s.(table := s.table[fd := Remainder(c, e.READ?, e.WRITE?)], pending := s.pending - 1, kernel := KernelFor(s.kernel, fd, left),
               deleted := s.deleted + (if e.READ? then c.read else c.write).Who())
  {
    ConsistentAt(s, fd);
    hide Inv, EventContext.Who;
  }

  lemma WhoRuns(c: EventContext, d: Delivery)
    requires Runs(c) == [d] && c.IsWaiting()
    ensures c.Who() == multiset{d.waiter}
  {}

  /** Deleting takes the waiter out and does not wake it. */
  lemma DeleteWakesNobody(s: Io, fd: nat, e: Event, ok: bool)
    requires Inv(s)
    ensures var t := DelEvent(s, fd, e, ok);
            if fd < |s.table| && ok && IsAwaited(s.table[fd], e) then
              && TakenOut(s, t, fd, e.READ?, e.WRITE?) && t.delivered == s.delivered
              && (forall d :: Runs(if e.READ? then s.table[fd].read else s.table[fd].write) == [d] ==>
                                t.deleted == s.deleted + multiset{d.waiter})
            else t == s
  {
    hide DelEvent, KernelFor, TakenOut, Runs;
    if fd < |s.table| && ok && IsAwaited(s.table[fd], e) {
      var c := if e.READ? then s.table[fd].read else s.table[fd].write;
      var t := DelEvent(s, fd, e, ok);
      DeleteTakes(s, fd, e);
      WaitsAt(s, fd, e);
      hide Inv, EventContext.Who, EventContext.IsWaiting, Remainder;
      Taken(s, t, fd, e.READ?, e.WRITE?);
      forall d | Runs(c) == [d] ensures t.deleted == s.deleted + multiset{d.waiter} {
        WhoRuns(c, d);
      }
    } else {
      NotAwaited(s, fd, e, ok);
    }
  }

  /** The waiter waits in the context of `fd` for that event, which the kernel watches from then on. */
  ghost predicate Waits(s: Io, t: Io, fd: nat, e: Event, w: Waiter, scheduler: int) {
    && fd < |s.table| && Elsewhere(s, t, fd) && t.delivered == s.delivered && t.deleted == s.deleted
    && Watched(t, fd, s.table[fd].event.read || e.READ?, s.table[fd].event.write || e.WRITE?)
    && Runs(if e.READ? then t.table[fd].read else t.table[fd].write) == [Delivery(scheduler, w)]
    && (if e.READ? then t.table[fd].write == s.table[fd].write else t.table[fd].read == s.table[fd].read)
    && t.pending == s.pending + 1 && t.added == s.added + multiset{w}
  }

  lemma RegisterWaits(s: Io, fd: nat, e: Event, w: Waiter, scheduler: int, ok: bool)
    requires Inv(s) && fd < |s.table|
    ensures var t := Register(s, fd, e, w, scheduler, ok); if ok then Waits(s, t, fd, e, w, scheduler) else t == s
  {
    hide Inv;
  }

  /** `g` is `s` with a table long enough for `fd`: twice as long as that if it has to grow, by contexts in which
      nobody waits. */
  ghost predicate MadeRoom(s: Io, g: Io, fd: nat) {
    && g == s.(table := g.table) && |g.table| == (if fd < |s.table| then |s.table| else 2 * fd) > fd
    && (forall k :: 0 <= k < |s.table| ==> g.table[k] == s.table[k])
    && (forall k :: |s.table| <= k < |g.table| ==> IsCleared(g.table[k].read) && IsCleared(g.table[k].write))
  }

  lemma GrowingMakesRoom(s: Io, fd: nat)
    requires |s.table| > 0
    ensures MadeRoom(s, Grown(s, fd), fd)
  {
    GrownTable(s, fd);
  }

  /** Registering makes room, and then the waiter waits, unless epoll_ctl fails. */
  lemma AddWaits(s: Io, fd: nat, e: Event, w: Waiter, scheduler: int, ok: bool)
    requires Inv(s) && MayAdd(s, fd, e)
    ensures var g, t := Grown(s, fd), AddEvent(s, fd, e, w, scheduler, ok);
            MadeRoom(s, g, fd) && if ok then Waits(g, t, fd, e, w, scheduler) else t == g
  {
    GrowingMakesRoom(s, fd);
    GrownKeepsInv(s, fd);
    hide Inv, Waits, Register, Grown, MadeRoom;
    RegisterWaits(Grown(s, fd), fd, e, w, scheduler, ok);
  }

  // ---------------------------------------------------------------- a whole batch of reports

  function WokenBy(c: Context, r: Readiness): seq<Delivery> {
    (if c.event.read && (r.readable || r.broken) then Runs(c.read) else []) +
    (if c.event.write && (r.writable || r.broken) then Runs(c.write) else [])
  }

  function WokenByAll(table: seq<Context>, events: seq<Report>): seq<Delivery>
    requires forall e <- events :: e.fd < |table|
    decreases |events|
  {
    if |events| == 0 then []
    else (if events[0].ok then WokenBy(table[events[0].fd], events[0].r) else []) + WokenByAll(table, events[1..])
  }

  /** A batch that reports each descriptor once wakes, in its order, exactly those who awaited what it reports when it
      began. */
  lemma {:induction false} BatchWakes(s: Io, events: seq<Report>)
    requires Inv(s) && MayReportAll(s, events) && forall e <- events :: e.fd < |s.table|
    requires forall i, j :: 0 <= i < j < |events| ==> events[i].fd != events[j].fd
    ensures OnReadyAll(s, events).delivered == s.delivered + WokenByAll(s.table, events)
    decreases |events|
  {
    hide Inv, OnReady, MayReport, WokenBy, Runs;
    if |events| > 0 {
      var e := events[0];
      var t := OnReady(s, e.fd, e.r, e.ok);
      OnReadyKeepsInv(s, e.fd, e.r, e.ok);
      ReportDelivers(s, e.fd, e.r, e.ok);
      BatchWakes(t, events[1..]);
      forall f <- events[1..] ensures t.table[f.fd] == s.table[f.fd] {
        var j :| 1 <= j < |events| && f == events[j];
      }
      SameTable(s.table, t.table, events[1..]);
    }
  }

  lemma ReportDelivers(s: Io, fd: nat, r: Readiness, ok: bool)
    requires Inv(s) && MayReport(s, fd, r)
    ensures var t := OnReady(s, fd, r, ok);
            && t.delivered == s.delivered + (if ok then WokenBy(s.table[fd], r) else [])
            && |t.table| == |s.table| && forall k :: 0 <= k < |s.table| && k != fd ==> t.table[k] == s.table[k]
  {
    hide Inv, OnReady, Runs, Watched, IsCleared;
    ReportWakes(s, fd, r, ok);
  }

  lemma {:induction false} SameTable(table: seq<Context>, other: seq<Context>, events: seq<Report>)
    requires |table| == |other| && forall e <- events :: e.fd < |table| && other[e.fd] == table[e.fd]
    ensures WokenByAll(other, events) == WokenByAll(table, events)
    decreases |events|
  {
    hide WokenBy;
    if |events| > 0 {
      assert events[0] in events;
      SameTable(table, other, events[1..]);
    }
  }

  /** At first 32 descriptors have a context, nobody waits and nothing is watched. */
  lemma StartsEmpty()
    ensures |Start().table| == 32 && Start().pending == 0 && Start().kernel == map[] && Start().delivered == []
    ensures forall k :: 0 <= k < 32 ==> IsCleared(Start().table[k].read) && IsCleared(Start().table[k].write)
  {}
}
