/** The I/O manager: the table of descriptor contexts, updated in place. Each method is proved against the
    call of the same name in IoEvents. `ok` is what epoll_ctl answers should it be called. */
module IoManager {
  import opened IoEvents

  class FdContext {
    var event: Mask
    var read: EventContext
    var write: EventContext

    function Value(): Context
      reads this
    {
      Context(event, read, write)
    }

    constructor ()
      ensures Value() == UNUSED
    {
      event, read, write := Mask(false, false), IDLE, IDLE;
    }

    method SetContext(e: Event, c: EventContext)
      modifies this`read, this`write
      ensures Value() == old(Value()).Set(e, c)
    {
      match e {
        case READ => read := c;
        case WRITE => write := c;
      }
    }

    /** Hands the waiter of `e` to its scheduler and forgets it. */
    method TriggerEvent(e: Event) returns (d: Delivery)
      requires event.Has(e) && Value().Of(e).IsWaiting()
      modifies this
      ensures d == Delivery(old(Value()).Of(e).scheduler.value, old(Value()).Of(e).TheWaiter())
      ensures Value() == Cleared(old(Value()), e)
    {
      event := event.Without(e);
      var ctx := Value().Of(e);
      if ctx.cb.Some? {
        d := Delivery(ctx.scheduler.value, Callback(ctx.cb.value));
      } else {
        d := Delivery(ctx.scheduler.value, Fiber(ctx.fiber.value));
      }
      SetContext(e, IDLE);
    }
  }

  ghost function Values(cs: seq<FdContext>): (vs: seq<Context>)
    reads cs
    ensures |vs| == |cs| && forall i :: 0 <= i < |cs| ==> vs[i] == cs[i].Value()
  {
    if |cs| == 0 then [] else Values(cs[..|cs| - 1]) + [cs[|cs| - 1].Value()]
  }

  class IOManager {
    var fdContexts: seq<FdContext>
    var pendingEventCount: int
    var kernel: map<nat, Mask>
    var scheduled: seq<Delivery>
    ghost var added: multiset<Waiter>
    ghost var deleted: multiset<Waiter>

    ghost function View(): Io
      reads this, fdContexts
    {
      Io(Values(fdContexts), pendingEventCount, kernel, scheduled, added, deleted)
    }

    ghost predicate Valid()
      reads this, fdContexts
    {
      (forall i, j :: 0 <= i < j < |fdContexts| ==> fdContexts[i] != fdContexts[j]) && Inv(View())
    }

    constructor ()
      ensures Valid() && View() == Start() && forall c <- fdContexts :: fresh(c)
    {
      fdContexts, pendingEventCount, kernel, scheduled, added, deleted := [], 0, map[], [], multiset{}, multiset{};
      new;
      hide Inv, Resize;
      ContextResize(INITIAL_CONTEXTS);
      FreshTable();
      StartInv();
    }

    /** New contexts at the end, or fewer of them. */
    method ContextResize(size: nat)
      requires forall i, j :: 0 <= i < j < |fdContexts| ==> fdContexts[i] != fdContexts[j]
      modifies this`fdContexts
      ensures View() == old(View()).(table := Resize(old(View()).table, size))
      ensures forall i, j :: 0 <= i < j < |fdContexts| ==> fdContexts[i] != fdContexts[j]
      ensures forall c <- fdContexts :: c in old(fdContexts) || fresh(c)
    {
      hide Values;
      if size < |fdContexts| {
        fdContexts := fdContexts[..size];
        assert Values(fdContexts) == old(Values(fdContexts))[..size];
        return;
      }
      ghost var before := Values(fdContexts);
      while |fdContexts| < size
        invariant |old(fdContexts)| <= |fdContexts| <= size && old(fdContexts) == fdContexts[..|old(fdContexts)|]
        invariant forall i, j :: 0 <= i < j < |fdContexts| ==> fdContexts[i] != fdContexts[j]
        invariant forall c <- fdContexts :: c in old(fdContexts) || fresh(c)
        invariant Values(fdContexts) == before + Fresh(|fdContexts| - |before|)
      {
        PushContext();
      }
    }

    /** Stores a mask and one event context of a descriptor. */
    method Store(fd: nat, mask: Mask, e: Event, c: EventContext)
      requires forall i, j :: 0 <= i < j < |fdContexts| ==> fdContexts[i] != fdContexts[j]
      requires fd < |fdContexts|
      modifies fdContexts[fd]
      ensures Values(fdContexts) == old(Values(fdContexts))[fd := old(fdContexts[fd].Value()).(event := mask).Set(e, c)]
    {
      ghost var vs := Values(fdContexts);
      fdContexts[fd].event := mask;
      fdContexts[fd].SetContext(e, c);
      assert Values(fdContexts) == vs[fd := fdContexts[fd].Value()];
    }

    /** Makes sure that there is a context for `fd`. */
    method Grow(fd: nat)
      requires forall i, j :: 0 <= i < j < |fdContexts| ==> fdContexts[i] != fdContexts[j]
      modifies this`fdContexts
      ensures View() == Grown(old(View()), fd)
      ensures forall i, j :: 0 <= i < j < |fdContexts| ==> fdContexts[i] != fdContexts[j]
      ensures forall c <- fdContexts :: c in old(fdContexts) || fresh(c)
    {
      if |fdContexts| <= fd {
        ContextResize(fd * 2);
      }
    }

    /** Registers a waiter; false exactly when epoll_ctl fails, and then nothing is registered. */
    method AddEvent(fd: nat, e: Event, w: Waiter, scheduler: int, ok: bool) returns (r: bool)
      requires Valid() && MayAdd(View(), fd, e)
      modifies this, fdContexts
      ensures Valid() && r == ok
      ensures View() == IoEvents.AddEvent(old(View()), fd, e, w, scheduler, ok)
      ensures forall c <- fdContexts :: c in old(fdContexts) || fresh(c)
    {
      hide Inv, Values, Resize, Enter, EpollCtl, Mask.With, Mask.IsNone, Context.Set, Grown;
      AddKeepsInv(View(), fd, e, w, scheduler, ok);
      GrownKeepsInv(View(), fd);
      Grow(fd);
      var fdContext := fdContexts[fd];
      var op := if fdContext.event.IsNone() then ADD else MOD;
      var mask := fdContext.event.With(e);
      if !ok {
        return false;
      }
      kernel := EpollCtl(kernel, op, fd, mask);
      pendingEventCount := pendingEventCount + 1;
      assert fdContexts[fd] in fdContexts;
      Store(fd, mask, e, Enter(w, scheduler));
      added := added + multiset{w};
      return true;
    }

    method DelEvent(fd: nat, e: Event, ok: bool) returns (r: bool)
      requires Valid()
      modifies this, fdContexts
      ensures Valid() && r == (Registered(old(View()), fd, e) && ok)
      ensures View() == IoEvents.DelEvent(old(View()), fd, e, ok) && fdContexts == old(fdContexts)
    {
      hide Inv, Values, EpollCtl, Mask.Without, Mask.IsNone, Mask.Has, Context.Set, Context.Of, EventContext.IsWaiting, EventContext.Who;
      DelKeepsInv(View(), fd, e, ok);
      if |fdContexts| <= fd {
        return false;
      }
      var fdContext := fdContexts[fd];
      if !fdContext.event.Has(e) {
        return false;
      }
      var newEvent := fdContext.event.Without(e);
      if !ok {
        return false;
      }
      kernel := EpollCtl(kernel, if newEvent.IsNone() then DEL else MOD, fd, newEvent);
      pendingEventCount := pendingEventCount - 1;
      deleted := deleted + fdContext.Value().Of(e).Who();
      Store(fd, newEvent, e, IDLE);
      return true;
    }

    /** Runs the waiter of one event of one descriptor. */
    method TriggerOne(fd: nat, e: Event)
      requires forall i, j :: 0 <= i < j < |fdContexts| ==> fdContexts[i] != fdContexts[j]
      requires fd < |fdContexts| && fdContexts[fd].event.Has(e) && fdContexts[fd].Value().Of(e).IsWaiting()
      modifies this`scheduled, this`pendingEventCount, fdContexts[fd]
      ensures var t := Trigger(old(View()), fd, e); View() == t.(pending := t.pending - 1)
    {
      hide Values;
      ghost var vs := Values(fdContexts);
      var d := fdContexts[fd].TriggerEvent(e);
      scheduled := scheduled + [d];
      pendingEventCount := pendingEventCount - 1;
      assert Values(fdContexts) == vs[fd := fdContexts[fd].Value()];
    }

    /** Takes one event away and runs its waiter. */
    method CancelEvent(fd: nat, e: Event, ok: bool) returns (r: bool)
      requires Valid()
      modifies this, fdContexts
      ensures Valid() && r == (Registered(old(View()), fd, e) && ok)
      ensures View() == IoEvents.CancelEvent(old(View()), fd, e, ok) && fdContexts == old(fdContexts)
    {
      hide Inv, Values, EpollCtl, Mask.Without, Mask.IsNone, Mask.Has, Context.Set, Context.Of, EventContext.IsWaiting, EventContext.Who;
      CancelKeepsInv(View(), fd, e, ok);
      if |fdContexts| <= fd {
        return false;
      }
      var fdContext := fdContexts[fd];
      if !fdContext.event.Has(e) {
        return false;
      }
      var newEvent := fdContext.event.Without(e);
      if !ok {
        return false;
      }
      kernel := EpollCtl(kernel, if newEvent.IsNone() then DEL else MOD, fd, newEvent);
      WaitsAt(old(View()), fd, e);
      TriggerOne(fd, e);
      return true;
    }

    /** Runs the waiters of the events in `found`, reading first. */
    method TriggerSome(fd: nat, found: Mask)
      requires forall i, j :: 0 <= i < j < |fdContexts| ==> fdContexts[i] != fdContexts[j]
      requires fd < |fdContexts| && fdContexts[fd].Value().Consistent() && found.Within(fdContexts[fd].event)
      modifies this`scheduled, this`pendingEventCount, fdContexts[fd]
      ensures View() == TriggerAll(old(View()), fd, found)
    {
      hide Values;
      if found.read {
        TriggerOne(fd, READ);
      }
      if found.write {
        TriggerOne(fd, WRITE);
      }
    }

    /** Takes every event of a descriptor away and runs the waiters. */
    method CancelAll(fd: nat, ok: bool) returns (r: bool)
      requires Valid()
      modifies this, fdContexts
      ensures Valid() && r == (fd < |old(View()).table| && !old(View()).table[fd].event.IsNone() && ok)
      ensures View() == IoEvents.CancelAll(old(View()), fd, ok) && fdContexts == old(fdContexts)
    {
      hide Inv, Values, EpollCtl, TriggerAll, Mask.IsNone, Context.Consistent;
      CancelAllKeepsInv(View(), fd, ok);
      if |fdContexts| <= fd {
        return false;
      }
      var fdContext := fdContexts[fd];
      if fdContext.event.IsNone() {
        return false;
      }
      if !ok {
        return false;
      }
      kernel := EpollCtl(kernel, DEL, fd, Mask(false, false));
      ConsistentAt(old(View()), fd);
      TriggerSome(fd, fdContext.event);
      return true;
    }

    /** What the event loop does with one descriptor that epoll_wait reported. */
    method OnReady(fd: nat, r: Readiness, ok: bool)
      requires Valid() && MayReport(View(), fd, r)
      modifies this, fdContexts
      ensures Valid() && View() == IoEvents.OnReady(old(View()), fd, r, ok) && fdContexts == old(fdContexts)
    {
      hide Inv, Values, EpollCtl, TriggerAll, Context.Consistent;
      OnReadyKeepsInv(View(), fd, r, ok);
      var fdContext := fdContexts[fd];
      var read, write := r.readable, r.writable;
      if r.broken {
        read := read || fdContext.event.read;
        write := write || fdContext.event.write;
      }
      if !(fdContext.event.read && read) && !(fdContext.event.write && write) {
        return;
      }
      var left := Mask(fdContext.event.read && !read, fdContext.event.write && !write);
      if !ok {
        return;
      }
      kernel := EpollCtl(kernel, if left.IsNone() then DEL else MOD, fd, left);
      ConsistentAt(old(View()), fd);
      TriggerSome(fd, Mask(read, write));
    }

    /** The loop over what one call to epoll_wait reported. */
    method DispatchReady(events: seq<Report>)
      requires Valid() && MayReportAll(View(), events)
      modifies this, fdContexts
      ensures Valid() && View() == OnReadyAll(old(View()), events) && fdContexts == old(fdContexts)
    {
      hide Inv, Values, IoEvents.OnReady, MayReport;
      for i := 0 to |events|
        invariant Valid() && fdContexts == old(fdContexts)
        invariant MayReportAll(View(), events[i..]) && OnReadyAll(View(), events[i..]) == OnReadyAll(old(View()), events)
      {
        ghost var rest := events[i..];
        assert rest[0] == events[i] && rest[1..] == events[i + 1..];
        OnReady(events[i].fd, events[i].r, events[i].ok);
      }
      assert events[|events|..] == [];
    }

    method PushContext()
      modifies this`fdContexts
      ensures |fdContexts| == |old(fdContexts)| + 1 && fdContexts[..|old(fdContexts)|] == old(fdContexts)
      ensures fresh(fdContexts[|old(fdContexts)|]) && Values(fdContexts) == old(Values(fdContexts)) + [UNUSED]
    {
      var c := new FdContext();
      fdContexts := fdContexts + [c];
      assert fdContexts[..|fdContexts| - 1] == old(fdContexts);
    }
  }

  lemma FreshTable()
    ensures Resize([], INITIAL_CONTEXTS) == Start().table
  {}
}
