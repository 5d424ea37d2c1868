/** The event table of the I/O manager as a state machine. A step is one call, made under the lock of one
    descriptor; whether epoll_ctl succeeds is a choice of the environment. The kernel is the map from the
    registered descriptors to the events it watches for them. */
module IoEvents {
  import opened Wrappers

  datatype Event = READ | WRITE

  /** A set of events. */
  datatype Mask = Mask(read: bool, write: bool) {
    predicate Has(e: Event) {
      match e case READ => read case WRITE => write
    }

    function With(e: Event): Mask {
      match e case READ => this.(read := true) case WRITE => this.(write := true)
    }

    function Without(e: Event): Mask {
      match e case READ => this.(read := false) case WRITE => this.(write := false)
    }

    predicate IsNone() {
      !read && !write
    }

    predicate Within(m: Mask) {
      (read ==> m.read) && (write ==> m.write)
    }

    function Size(): nat {
      (if read then 1 else 0) + if write then 1 else 0
    }
  }

  /** What is to run when an event arrives. */
  datatype Waiter = Callback(id: int) | Fiber(id: int)

  datatype EventContext = EventContext(scheduler: Option<int>, fiber: Option<int>, cb: Option<int>) {
    /** `triggerEvent` prefers the callback. */
    function TheWaiter(): Waiter
      requires IsWaiting()
    {
      if cb.Some? then Callback(cb.value) else Fiber(fiber.value)
    }

    /** The waiter, if there is one. */
    function Who(): multiset<Waiter> {
      if IsWaiting() then multiset{TheWaiter()} else multiset{}
    }

    /** What running the waiter hands to the scheduler. */
    function Handover(): seq<Delivery> {
      if IsWaiting() then [Delivery(scheduler.value, TheWaiter())] else []
    }

    /** A scheduler and one of a callback and a fiber. */
    predicate IsWaiting() {
      scheduler.Some? && (cb.Some? <==> fiber.None?)
    }
  }

  const IDLE := EventContext(None, None, None)

  datatype Context = Context(event: Mask, read: EventContext, write: EventContext) {
    function Of(e: Event): EventContext {
      match e case READ => read case WRITE => write
    }

    function Set(e: Event, c: EventContext): Context {
      match e case READ => this.(read := c) case WRITE => this.(write := c)
    }

    /** A bit is set exactly when its event context waits, and the others are empty. */
    predicate Consistent() {
      Agrees(READ) && Agrees(WRITE)
    }

    predicate Agrees(e: Event) {
      if event.Has(e) then Of(e).IsWaiting() else Of(e) == IDLE
    }
  }

  const UNUSED := Context(Mask(false, false), IDLE, IDLE)

  datatype Delivery = Delivery(scheduler: int, waiter: Waiter)

  /** The table, the count of pending events, the kernel, and the history of the waiters. */
  datatype Io = Io(table: seq<Context>, pending: int, kernel: map<nat, Mask>, delivered: seq<Delivery>,
                   added: multiset<Waiter>, deleted: multiset<Waiter>)

  const INITIAL_CONTEXTS := 32

  /** `k` new contexts. */
  function Fresh(k: nat): (t: seq<Context>)
    ensures |t| == k && forall i :: 0 <= i < k ==> t[i] == UNUSED
  {
    if k == 0 then [] else Fresh(k - 1) + [UNUSED]
  }

  function Start(): Io {
    Io(Fresh(INITIAL_CONTEXTS), 0, map[], [], multiset{}, multiset{})
  }

  // ---------------------------------------------------------------- the calls

  datatype Op = ADD | MOD | DEL

  function EpollCtl(kernel: map<nat, Mask>, op: Op, fd: nat, m: Mask): map<nat, Mask> {
    match op
    case DEL => kernel - {fd}
    case _ => kernel[fd := m]
  }

  /** The kernel refuses to add twice and to change what is not registered. */
  predicate Legal(kernel: map<nat, Mask>, op: Op, fd: nat) {
    match op
    case ADD => fd !in kernel
    case _ => fd in kernel
  }

  function Resize(table: seq<Context>, n: nat): (t: seq<Context>)
    ensures |t| == n
  {
    if n < |table| then table[..n] else table + Fresh(n - |table|)
  }

  function OpFor(left: Mask): Op {
    if left.IsNone() then DEL else MOD
  }

  /** Taking a waiter out of a context. */
  function Cleared(c: Context, e: Event): Context {
    c.(event := c.event.Without(e)).Set(e, IDLE)
  }

  /** Runs the waiter of event `e` and forgets it. */
  function Trigger(s: Io, fd: nat, e: Event): Io
    requires fd < |s.table|
  {
    var c := s.table[fd];
    s.(table := s.table[fd := Cleared(c, e)], delivered := s.delivered + c.Of(e).Handover())
  }

  function Enter(w: Waiter, scheduler: int): EventContext {
    match w
    case Callback(id) => EventContext(Some(scheduler), None, Some(id))
    case Fiber(id) => EventContext(Some(scheduler), Some(id), None)
  }

  function Grown(s: Io, fd: nat): Io {
    if fd < |s.table| then s else s.(table := Resize(s.table, fd * 2))
  }

  /** Registering twice for one event is a fault of the caller, on which the source stops. */
  predicate MayAdd(s: Io, fd: nat, e: Event) {
    fd < |s.table| ==> !s.table[fd].event.Has(e)
  }

  /** Registering in the context of `fd`. */
  function Register(s: Io, fd: nat, e: Event, w: Waiter, scheduler: int, ok: bool): Io
    requires fd < |s.table|
  {
    if !ok then s else
      var c := s.table[fd];
      var op := if c.event.IsNone() then ADD else MOD;
      s.(table := s.table[fd := c.(event := c.event.With(e)).Set(e, Enter(w, scheduler))],
         pending := s.pending + 1,
         kernel := EpollCtl(s.kernel, op, fd, c.event.With(e)),
         added := s.added + multiset{w})
  }

  /** `addEvent` when no other thread comes between its two sections. */
  function AddEvent(s: Io, fd: nat, e: Event, w: Waiter, scheduler: int, ok: bool): Io
    requires |s.table| > 0
  {
    Register(Grown(s, fd), fd, e, w, scheduler, ok)
  }

  predicate Registered(s: Io, fd: nat, e: Event) {
    fd < |s.table| && s.table[fd].event.Has(e)
  }

  function DelEvent(s: Io, fd: nat, e: Event, ok: bool): Io {
    if !Registered(s, fd, e) || !ok then s else
      var c := s.table[fd];
      var left := c.event.Without(e);
      s.(table := s.table[fd := Cleared(c, e)],
         pending := s.pending - 1,
         kernel := EpollCtl(s.kernel, OpFor(left), fd, left),
         deleted := s.deleted + c.Of(e).Who())
  }

  function CancelEvent(s: Io, fd: nat, e: Event, ok: bool): Io {
    if !Registered(s, fd, e) || !ok then s else
      var left := s.table[fd].event.Without(e);
      var t := Trigger(s.(kernel := EpollCtl(s.kernel, OpFor(left), fd, left)), fd, e);
      t.(pending := t.pending - 1)
  }

  /** Runs the waiters of the events in `found`, reading first. */
  function TriggerAll(s: Io, fd: nat, found: Mask): Io
    requires fd < |s.table|
  {
    var r := if found.read then var t := Trigger(s, fd, READ); t.(pending := t.pending - 1) else s;
    if found.write then var t := Trigger(r, fd, WRITE); t.(pending := t.pending - 1) else r
  }

  function CancelAll(s: Io, fd: nat, ok: bool): Io {
    if fd >= |s.table| || s.table[fd].event.IsNone() || !ok then s
    else TriggerAll(s.(kernel := EpollCtl(s.kernel, DEL, fd, Mask(false, false))), fd, s.table[fd].event)
  }

  /** What epoll_wait says about a descriptor. */
  datatype Readiness = Readiness(readable: bool, writable: bool, broken: bool)

  /** An error or a hang-up counts as every event that is waited for. */
  function RealEvents(m: Mask, r: Readiness): Mask {
    Mask(r.readable || (r.broken && m.read), r.writable || (r.broken && m.write))
  }

  /** Of the events that were found, those that are waited for. */
  function Wanted(m: Mask, found: Mask): Mask {
    Mask(m.read && found.read, m.write && found.write)
  }

  /** Nothing is reported that is not waited for, or nothing that is. */
  predicate MayReport(s: Io, fd: nat, r: Readiness) {
    fd < |s.table| &&
    var m := s.table[fd].event;
    var found := RealEvents(m, r);
    found.Within(m) || Wanted(m, found).IsNone()
  }

  /** `triggerEvent` stops the program unless the event is waited for. */
  predicate MayTrigger(s: Io, fd: nat, e: Event)
    requires fd < |s.table|
  {
    s.table[fd].event.Has(e)
  }

  /** No assertion fails while the report is handled. */
  predicate AssertionsHold(s: Io, fd: nat, r: Readiness)
    requires fd < |s.table|
  {
    var m := s.table[fd].event;
    var found := RealEvents(m, r);
    Wanted(m, found).IsNone() ||
    ((found.read ==> MayTrigger(s, fd, READ)) &&
     (found.write ==> MayTrigger(if found.read then Trigger(s, fd, READ) else s, fd, WRITE)))
  }

  /** A report is handled without a failed assertion exactly if nothing that is not waited for is mixed with
      something that is. */
  lemma MayReportExact(s: Io, fd: nat, r: Readiness)
    requires fd < |s.table|
    ensures MayReport(s, fd, r) <==> AssertionsHold(s, fd, r)
  {}

  function OnReady(s: Io, fd: nat, r: Readiness, ok: bool): Io
    requires fd < |s.table|
  {
    var m := s.table[fd].event;
    var found := RealEvents(m, r);
    if Wanted(m, found).IsNone() || !ok then s
    else
      var left := Remaining(m, found);
      TriggerAll(s.(kernel := EpollCtl(s.kernel, OpFor(left), fd, left)), fd, found)
  }

  // ---------------------------------------------------------------- the invariant

  function Bits(table: seq<Context>): nat
    decreases |table|
  {
    if |table| == 0 then 0 else Bits(table[..|table| - 1]) + table[|table| - 1].event.Size()
  }

  function WaitersOf(c: Context): multiset<Waiter> {
    c.read.Who() + c.write.Who()
  }

  function Waiting(table: seq<Context>): multiset<Waiter>
    decreases |table|
  {
    if |table| == 0 then multiset{} else Waiting(table[..|table| - 1]) + WaitersOf(table[|table| - 1])
  }

  function Woken(ds: seq<Delivery>): multiset<Waiter>
    decreases |ds|
  {
    if |ds| == 0 then multiset{} else Woken(ds[..|ds| - 1]) + multiset{ds[|ds| - 1].waiter}
  }

  /** The waiters that have left the table. */
  function Gone(s: Io): multiset<Waiter> {
    Woken(s.delivered) + s.deleted
  }

  ghost predicate Inv(s: Io) {
    && |s.table| > 0
    && (forall fd :: 0 <= fd < |s.table| ==> s.table[fd].Consistent())
    && KernelAgrees(s)
    && s.pending == Bits(s.table)
    && s.added == Gone(s) + Waiting(s.table)
  }

  /** The kernel watches exactly the stored masks. */
  ghost predicate KernelAgrees(s: Io) {
    forall fd: nat :: (fd in s.kernel <==> fd < |s.table| && !s.table[fd].event.IsNone())
                   && (fd in s.kernel ==> s.kernel[fd] == s.table[fd].event)
  }

  // ---------------------------------------------------------------- one context at a time

  lemma {:induction false} BitsSet(table: seq<Context>, fd: nat, c: Context)
    requires fd < |table|
    ensures Bits(table[fd := c]) == Bits(table) - table[fd].event.Size() + c.event.Size()
    ensures table[fd].event.Size() <= Bits(table)
    decreases |table|
  {
    var n := |table| - 1;
    if fd == n {
      assert table[fd := c][..n] == table[..n];
    } else {
      assert table[fd := c][..n] == table[..n][fd := c];
      BitsSet(table[..n], fd, c);
    }
  }

  lemma AddToBoth(a: multiset<Waiter>, x: multiset<Waiter>, b: multiset<Waiter>, y: multiset<Waiter>, z: multiset<Waiter>)
    requires a + x == b + y
    ensures a + z + x == b + z + y
  {
    assert a + z + x == a + x + z;
    assert b + z + y == b + y + z;
  }

  lemma {:induction false} WaitingSet(table: seq<Context>, fd: nat, c: Context)
    requires fd < |table|
    ensures Waiting(table[fd := c]) + WaitersOf(table[fd]) == Waiting(table) + WaitersOf(c)
    decreases |table|
  {
    hide WaitersOf;
    var n := |table| - 1;
    if fd == n {
      assert table[fd := c][..n] == table[..n];
    } else {
      assert table[fd := c][..n] == table[..n][fd := c];
      WaitingSet(table[..n], fd, c);
      AddToBoth(Waiting(table[..n][fd := c]), WaitersOf(table[fd]), Waiting(table[..n]), WaitersOf(c), WaitersOf(table[n]));
    }
  }

  lemma OneMore(table: seq<Context>)
    ensures Bits(table + [UNUSED]) == Bits(table) && Waiting(table + [UNUSED]) == Waiting(table)
  {
    assert (table + [UNUSED])[..|table|] == table;
  }

  lemma {:induction false} GrowKeeps(table: seq<Context>, k: nat)
    ensures Bits(table + Fresh(k)) == Bits(table) && Waiting(table + Fresh(k)) == Waiting(table)
    decreases k
  {
    hide Bits, Waiting;
    if k == 0 {
      assert table + Fresh(k) == table;
    } else {
      GrowKeeps(table, k - 1);
      var t := table + Fresh(k - 1);
      assert table + Fresh(k) == t + [UNUSED];
      hide Fresh;
      OneMore(t);
    }
  }

  lemma GrownTable(s: Io, fd: nat)
    requires |s.table| > 0
    ensures var t := Grown(s, fd);
            && fd < |t.table| && |s.table| <= |t.table| && Bits(t.table) == Bits(s.table) && Waiting(t.table) == Waiting(s.table)
            && (forall k: nat :: k < |t.table| ==> t.table[k] == if k < |s.table| then s.table[k] else UNUSED)
  {
    if fd >= |s.table| {
      GrowKeeps(s.table, fd * 2 - |s.table|);
    }
  }

  lemma GrownKeepsInv(s: Io, fd: nat)
    requires Inv(s)
    ensures Inv(Grown(s, fd)) && fd < |Grown(s, fd).table|
    ensures MayAdd(s, fd, READ) ==> !Registered(Grown(s, fd), fd, READ)
    ensures MayAdd(s, fd, WRITE) ==> !Registered(Grown(s, fd), fd, WRITE)
  {
    GrownTable(s, fd);
    var t := Grown(s, fd);
    hide Bits, Waiting, Grown, Woken, Context.Consistent, KernelAgrees;
    assert t == s.(table := t.table);
    UnusedIsConsistent();
    GrownKernel(s, t);
    UnusedHasNothing();
  }

  lemma UnusedIsConsistent()
    ensures UNUSED.Consistent()
  {}

  lemma UnusedHasNothing()
    ensures !UNUSED.event.Has(READ) && !UNUSED.event.Has(WRITE) && UNUSED.event.IsNone()
  {}

  lemma GrownKernel(s: Io, t: Io)
    requires KernelAgrees(s) && t.kernel == s.kernel && |s.table| <= |t.table|
    requires forall k: nat :: k < |t.table| ==> t.table[k] == if k < |s.table| then s.table[k] else UNUSED
    ensures KernelAgrees(t)
  {}

  /** Replacing one context, with the kernel's map for that descriptor, keeps the parts of the invariant that
      are about single descriptors. */
  lemma ContextSet(s: Io, fd: nat, c: Context, kernel: map<nat, Mask>)
    requires Inv(s) && fd < |s.table| && c.Consistent()
    requires kernel == if c.event.IsNone() then s.kernel - {fd} else s.kernel[fd := c.event]
    ensures var t := s.(table := s.table[fd := c], kernel := kernel);
            (forall k :: 0 <= k < |t.table| ==> t.table[k].Consistent()) && KernelAgrees(t)
  {}

  /** What a call that touches only descriptor `fd` has to get right. */
  predicate Replaced(s: Io, t: Io, fd: nat, c: Context, d: Context) {
    && fd < |s.table| && c == s.table[fd] && t.table == s.table[fd := d] && d.Consistent()
    && t.kernel == (if d.event.IsNone() then s.kernel - {fd} else s.kernel[fd := d.event])
    && t.pending == s.pending - c.event.Size() + d.event.Size()
  }

  lemma ReplacedKeepsInv(s: Io, t: Io, fd: nat, c: Context, d: Context)
    requires Inv(s) && Replaced(s, t, fd, c, d)
    requires t.added + Gone(s) + WaitersOf(c) == s.added + Gone(t) + WaitersOf(d)
    ensures Inv(t)
  {
    BitsSet(s.table, fd, d);
    hide Bits, Waiting, Gone, KernelAgrees, WaitersOf, Context.Consistent;
    ContextSet(s, fd, d, t.kernel);
    ReplacedContexts(s, t, fd, d);
    ReplacedWaiters(s, t, fd, c, d);
  }

  lemma ReplacedContexts(s: Io, t: Io, fd: nat, d: Context)
    requires fd < |s.table| && t.table == s.table[fd := d]
    requires var u := s.(table := s.table[fd := d], kernel := t.kernel);
             (forall k :: 0 <= k < |u.table| ==> u.table[k].Consistent()) && KernelAgrees(u)
    ensures (forall k :: 0 <= k < |t.table| ==> t.table[k].Consistent()) && KernelAgrees(t)
  {
    hide Context.Consistent;
  }

  lemma ReplacedWaiters(s: Io, t: Io, fd: nat, c: Context, d: Context)
    requires fd < |s.table| && c == s.table[fd] && t.table == s.table[fd := d]
    requires s.added == Gone(s) + Waiting(s.table)
    requires t.added + Gone(s) + WaitersOf(c) == s.added + Gone(t) + WaitersOf(d)
    ensures t.added == Gone(t) + Waiting(t.table)
  {
    hide Waiting, Gone, WaitersOf;
    WaitingSet(s.table, fd, d);
    Balance(s.added, Gone(s), Waiting(s.table), WaitersOf(c), t.added, Gone(t), Waiting(t.table), WaitersOf(d));
  }

  lemma Balance(a: multiset<Waiter>, g: multiset<Waiter>, w: multiset<Waiter>, c: multiset<Waiter>,
                a2: multiset<Waiter>, g2: multiset<Waiter>, w2: multiset<Waiter>, d: multiset<Waiter>)
    requires a == g + w && w2 + c == w + d
    requires a2 + g + c == a + g2 + d
    ensures a2 == g2 + w2
  {
    forall x ensures a2[x] == (g2 + w2)[x] {
      assert (w2 + c)[x] == (w + d)[x];
      assert (a2 + g + c)[x] == (a + g2 + d)[x];
    }
  }

  // ---------------------------------------------------------------- every call keeps the invariant

  lemma Entering(a: multiset<Waiter>, g: multiset<Waiter>, c: multiset<Waiter>, w: Waiter)
    ensures a + multiset{w} + g + c == a + g + (c + multiset{w})
  {}

  lemma Leaving(a: multiset<Waiter>, g: multiset<Waiter>, c: multiset<Waiter>, g2: multiset<Waiter>,
      d: multiset<Waiter>, w: multiset<Waiter>)
    requires c == d + w && g2 == g + w
    ensures a + g + c == a + g2 + d
  {}

  lemma EnteredContext(c: Context, e: Event, w: Waiter, scheduler: int)
    requires c.Consistent() && !c.event.Has(e)
    ensures var d := c.(event := c.event.With(e)).Set(e, Enter(w, scheduler));
            && d.Consistent() && d.event.Size() == c.event.Size() + 1 && !d.event.IsNone() && d.event == c.event.With(e)
            && WaitersOf(d) == WaitersOf(c) + multiset{w}
  {}

  lemma RegisterKeepsInv(s: Io, fd: nat, e: Event, w: Waiter, scheduler: int, ok: bool)
    requires Inv(s) && fd < |s.table| && !s.table[fd].event.Has(e)
    ensures Inv(Register(s, fd, e, w, scheduler, ok))
  {
    hide Inv, Woken, WaitersOf, Context.Consistent;
    var t := Register(s, fd, e, w, scheduler, ok);
    var c := s.table[fd];
    ConsistentAt(s, fd);
    if ok {
      EnteredContext(c, e, w, scheduler);
      var d := c.(event := c.event.With(e)).Set(e, Enter(w, scheduler));
      assert Gone(t) == Gone(s) && t.added == s.added + multiset{w};
      Entering(s.added, Gone(s), WaitersOf(c), w);
      assert Replaced(s, t, fd, c, d);
      ReplacedKeepsInv(s, t, fd, c, d);
    }
  }

  lemma AddKeepsInv(s: Io, fd: nat, e: Event, w: Waiter, scheduler: int, ok: bool)
    requires Inv(s) && MayAdd(s, fd, e)
    ensures Inv(AddEvent(s, fd, e, w, scheduler, ok))
  {
    hide Inv, Grown, Register;
    GrownKeepsInv(s, fd);
    RegisterKeepsInv(Grown(s, fd), fd, e, w, scheduler, ok);
  }

  lemma ClearedContext(c: Context, e: Event)
    requires c.Consistent() && c.event.Has(e)
    ensures Cleared(c, e).Consistent() && c.event.Size() == Cleared(c, e).event.Size() + 1
    ensures WaitersOf(c) == WaitersOf(Cleared(c, e)) + c.Of(e).Who()
    ensures c.event.Without(e) == Cleared(c, e).event
  {}

  lemma ConsistentAt(s: Io, fd: nat)
    requires Inv(s) && fd < |s.table|
    ensures s.table[fd].Consistent()
  {}

  lemma WaitsAt(s: Io, fd: nat, e: Event)
    requires Inv(s) && Registered(s, fd, e)
    ensures s.table[fd].Of(e).IsWaiting()
  {
    ConsistentAt(s, fd);
  }

  /** A context whose waiter for `e` has gone where `t` says. */
  lemma ClearedKeepsInv(s: Io, fd: nat, e: Event, t: Io)
    requires Inv(s) && Registered(s, fd, e) && t.added == s.added && t.pending == s.pending - 1
    requires t.table == s.table[fd := Cleared(s.table[fd], e)]
    requires t.kernel == KernelFor(s.kernel, fd, s.table[fd].event.Without(e))
    requires Gone(t) == Gone(s) + s.table[fd].Of(e).Who()
    ensures Inv(t)
  {
    hide Inv, WaitersOf, Gone, Context.Consistent, EventContext.Who, Cleared, Mask.Without, Mask.Size, Context.Of;
    var c := s.table[fd];
    ConsistentAt(s, fd);
    ClearedContext(c, e);
    assert Replaced(s, t, fd, c, Cleared(c, e));
    Leaving(s.added, Gone(s), WaitersOf(c), Gone(t), WaitersOf(Cleared(c, e)), c.Of(e).Who());
    ReplacedKeepsInv(s, t, fd, c, Cleared(c, e));
  }

  lemma DelKeepsInv(s: Io, fd: nat, e: Event, ok: bool)
    requires Inv(s)
    ensures Inv(DelEvent(s, fd, e, ok))
  {
    hide Inv, Woken, Cleared, EventContext.Who;
    if Registered(s, fd, e) && ok {
      var t := DelEvent(s, fd, e, ok);
      Regroup(Woken(s.delivered), s.deleted, s.table[fd].Of(e).Who());
      ClearedKeepsInv(s, fd, e, t);
    }
  }

  lemma Regroup(a: multiset<Waiter>, b: multiset<Waiter>, c: multiset<Waiter>)
    ensures a + (b + c) == a + b + c && a + c + b == a + b + c
  {}

  /** Triggering one event, with the kernel and the count brought in line. */
  lemma TriggerKeepsInv(s: Io, fd: nat, e: Event, t: Io)
    requires Inv(s) && Registered(s, fd, e)
    requires t == Trigger(s, fd, e).(kernel := KernelFor(s.kernel, fd, s.table[fd].event.Without(e)), pending := s.pending - 1)
    ensures Inv(t)
  {
    hide Inv, Cleared, EventContext.Who, EventContext.Handover;
    var ec := s.table[fd].Of(e);
    WokenHandover(s.delivered, ec);
    hide Woken;
    Regroup(Woken(s.delivered), s.deleted, ec.Who());
    ClearedKeepsInv(s, fd, e, t);
  }

  lemma WokenHandover(ds: seq<Delivery>, ec: EventContext)
    ensures Woken(ds + ec.Handover()) == Woken(ds) + ec.Who()
  {
    if ec.IsWaiting() {
      assert (ds + ec.Handover())[..|ds|] == ds;
    } else {
      assert ds + ec.Handover() == ds;
    }
  }

  lemma CancelKeepsInv(s: Io, fd: nat, e: Event, ok: bool)
    requires Inv(s)
    ensures Inv(CancelEvent(s, fd, e, ok))
  {
    hide Inv, Cleared, EventContext.Handover;
    if Registered(s, fd, e) && ok {
      TriggerKeepsInv(s, fd, e, CancelEvent(s, fd, e, ok));
    }
  }

  function KernelFor(kernel: map<nat, Mask>, fd: nat, left: Mask): map<nat, Mask> {
    if left.IsNone() then kernel - {fd} else kernel[fd := left]
  }

  /** What is left of a mask. */
  function Remaining(m: Mask, found: Mask): Mask {
    Mask(m.read && !found.read, m.write && !found.write)
  }

  /** Triggering a set of waited-for events after one call to epoll_ctl. */
  lemma TriggerAllKeepsInv(s: Io, fd: nat, found: Mask)
    requires Inv(s) && fd < |s.table| && found.Within(s.table[fd].event) && !found.IsNone()
    ensures Inv(TriggerAll(s.(kernel := KernelFor(s.kernel, fd, Remaining(s.table[fd].event, found))), fd, found))
  {
    hide Inv, Context.Set, EventContext.Handover;
    var m := s.table[fd].event;
    var left := Remaining(m, found);
    var t := TriggerAll(s.(kernel := KernelFor(s.kernel, fd, left)), fd, found);
    if !found.write {
      TriggerKeepsInv(s, fd, READ, t);
    } else if !found.read {
      TriggerKeepsInv(s, fd, WRITE, t);
    } else {
      TriggerBothKeepsInv(s, fd);
    }
  }

  lemma TriggerBothKeepsInv(s: Io, fd: nat)
    requires Inv(s) && fd < |s.table| && s.table[fd].event == Mask(true, true)
    ensures Inv(TriggerAll(s.(kernel := KernelFor(s.kernel, fd, Mask(false, false))), fd, Mask(true, true)))
  {
    hide Inv, EventContext.Handover;
    var t := TriggerAll(s.(kernel := KernelFor(s.kernel, fd, Mask(false, false))), fd, Mask(true, true));
    var r := Trigger(s, fd, READ).(kernel := KernelFor(s.kernel, fd, Mask(false, true)), pending := s.pending - 1);
    TriggerKeepsInv(s, fd, READ, r);
    assert r.kernel - {fd} == s.kernel - {fd};
    TriggerKeepsInv(r, fd, WRITE, t);
  }

  lemma CancelAllKeepsInv(s: Io, fd: nat, ok: bool)
    requires Inv(s)
    ensures Inv(CancelAll(s, fd, ok))
  {
    hide Inv, TriggerAll;
    if fd < |s.table| && !s.table[fd].event.IsNone() && ok {
      TriggerAllKeepsInv(s, fd, s.table[fd].event);
    }
  }

  lemma OnReadyKeepsInv(s: Io, fd: nat, r: Readiness, ok: bool)
    requires Inv(s) && MayReport(s, fd, r)
    ensures Inv(OnReady(s, fd, r, ok))
  {
    hide Inv, TriggerAll;
    var m := s.table[fd].event;
    var found := RealEvents(m, r);
    if !Wanted(m, found).IsNone() && ok {
      TriggerAllKeepsInv(s, fd, found);
    }
  }

  lemma NothingIn()
    ensures Bits([]) == 0 && Waiting([]) == multiset{}
  {}

  lemma StartInv()
    ensures Inv(Start())
  {
    hide Fresh, Bits, Waiting;
    GrowKeeps([], INITIAL_CONTEXTS);
    assert [] + Fresh(INITIAL_CONTEXTS) == Start().table;
    NothingIn();
    UnusedIsConsistent();
    hide Context.Consistent;
  }

  // ---------------------------------------------------------------- what the invariant gives

  /** epoll_ctl is never asked for what the kernel refuses: nothing is added twice, nothing that is not
      registered is changed or removed. */
  lemma RequestsAreLegal(s: Io, fd: nat)
    requires Inv(s)
    ensures var g := Grown(s, fd);
            fd < |g.table| && Legal(g.kernel, if g.table[fd].event.IsNone() then ADD else MOD, fd)
    ensures fd < |s.table| && !s.table[fd].event.IsNone() ==> Legal(s.kernel, MOD, fd) && Legal(s.kernel, DEL, fd)
  {}

  /** When no event is pending nobody waits and the kernel watches nothing, so every waiter that was ever
      added has been woken or deleted: a manager may stop then. */
  lemma NothingPending(s: Io)
    requires Inv(s) && s.pending == 0
    ensures Waiting(s.table) == multiset{} && s.kernel == map[] && s.added == Gone(s)
  {
    NoBitsNoWaiters(s.table);
    forall fd: nat ensures fd !in s.kernel {
      if fd < |s.table| {
        BitsSet(s.table, fd, s.table[fd]);
      }
    }
  }

  lemma {:induction false} NoBitsNoWaiters(table: seq<Context>)
    requires Bits(table) == 0 && forall c <- table :: c.Consistent()
    ensures Waiting(table) == multiset{}
    decreases |table|
  {
    if |table| > 0 {
      var n := |table| - 1;
      assert table[n] in table && table[n].event.IsNone();
      NoBitsNoWaiters(table[..n]);
    }
  }

  /** A waiter that was added once is in exactly one place: still waiting, woken once, or deleted. */
  lemma NeverTwice(s: Io, w: Waiter)
    requires Inv(s) && s.added[w] == 1
    ensures Woken(s.delivered)[w] + s.deleted[w] + Waiting(s.table)[w] == 1
  {}

  /** A call leaves the other descriptors as they are. */
  lemma OthersUnchanged(s: Io, fd: nat, r: Readiness, ok: bool, other: nat)
    requires fd < |s.table| && other != fd && other < |s.table|
    ensures var t := OnReady(s, fd, r, ok); |t.table| == |s.table| && t.table[other] == s.table[other]
  {}

  /** One entry of the array that epoll_wait fills. */
  datatype Report = Report(fd: nat, r: Readiness, ok: bool)

  /** Every report is within what is waited for when its turn comes. */
  predicate MayReportAll(s: Io, events: seq<Report>)
    decreases |events|
  {
    |events| > 0 ==>
      MayReport(s, events[0].fd, events[0].r) &&
      MayReportAll(OnReady(s, events[0].fd, events[0].r, events[0].ok), events[1..])
  }

  function OnReadyAll(s: Io, events: seq<Report>): Io
    requires MayReportAll(s, events)
    decreases |events|
  {
    if |events| == 0 then s
    else OnReadyAll(OnReady(s, events[0].fd, events[0].r, events[0].ok), events[1..])
  }

  /** epoll_wait reports a descriptor once; then it is enough that each report is within what was waited for
      when the batch began. */
  lemma {:induction false} DistinctReports(s: Io, events: seq<Report>)
    requires forall e <- events :: MayReport(s, e.fd, e.r)
    requires forall i, j :: 0 <= i < j < |events| ==> events[i].fd != events[j].fd
    ensures MayReportAll(s, events)
    decreases |events|
  {
    hide OnReady;
    if |events| > 0 {
      var e := events[0];
      assert e in events;
      var t := OnReady(s, e.fd, e.r, e.ok);
      forall f <- events[1..] ensures MayReport(t, f.fd, f.r) {
        var j :| 1 <= j < |events| && f == events[j];
        assert f in events;
        OthersUnchanged(s, e.fd, e.r, e.ok, f.fd);
      }
      DistinctReports(t, events[1..]);
    }
  }

  /** A mixed report can come about: both events of a descriptor are reported, and before the loop takes the
      lock another thread cancels one of them. */
  lemma MixedReportHappens(w: Waiter, v: Waiter, scheduler: int)
    ensures var s := AddEvent(AddEvent(Start(), 5, READ, w, scheduler, true), 5, WRITE, v, scheduler, true);
            var t := CancelEvent(s, 5, WRITE, true);
            var both := Readiness(true, true, false);
            Inv(s) && Inv(t) && MayReport(s, 5, both) && !MayReport(t, 5, both)
  {
    hide Inv;
    StartInv();
    AddKeepsInv(Start(), 5, READ, w, scheduler, true);
    var r := AddEvent(Start(), 5, READ, w, scheduler, true);
    AddKeepsInv(r, 5, WRITE, v, scheduler, true);
    var s := AddEvent(r, 5, WRITE, v, scheduler, true);
    CancelKeepsInv(s, 5, WRITE, true);
  }
}
