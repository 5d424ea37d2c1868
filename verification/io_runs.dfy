/** The calls of several threads, each in its sections: a call fetches the context of its descriptor under the
    lock of the table, growing the table if it registers and there is none, and then works on what it fetched.
    Between the two another thread may make the table smaller, for a thread grows it to twice its own
    descriptor whatever it has become. A context that the table has lost lives on for those who hold it. */
module IoRuns {
  import opened IoEvents

  /** A pointer to a context of descriptor `fd`: one in the table, or one that the table has lost. */
  datatype Pointer = Slot(fd: nat) | Lost(fd: nat, k: nat)

  /** Where a thread is in a call: outside, before growing the table, or with the context it fetched. */
  datatype Thread = Outside | Growing(fd: nat) | Holds(at: Pointer)

  datatype World = World(io: Io, lost: seq<Context>, threads: map<nat, Thread>)

  const BEGINNING := World(Start(), [], map[])

  function Place(w: World, t: nat): Thread {
    if t in w.threads then w.threads[t] else Outside
  }

  predicate IsPointer(w: World, at: Pointer) {
    match at
    case Slot(fd) => fd < |w.io.table|
    case Lost(_, k) => k < |w.lost|
  }

  function Target(w: World, at: Pointer): Context {
    match at
    case Slot(fd) => if fd < |w.io.table| then w.io.table[fd] else UNUSED
    case Lost(_, k) => if k < |w.lost| then w.lost[k] else UNUSED
  }

  /** What a thread does with the context it fetched, and what the event loop does with a reported one. */
  datatype Action =
    | Add(e: Event, waiter: Waiter, scheduler: int)
    | Del(e: Event)
    | Cancel(e: Event)
    | CancelEvery
    | Reported(r: Readiness)

  function Acted(s: Io, fd: nat, a: Action, ok: bool): Io
    requires fd < |s.table|
  {
    match a
    case Add(e, waiter, scheduler) => Register(s, fd, e, waiter, scheduler, ok)
    case Del(e) => DelEvent(s, fd, e, ok)
    case Cancel(e) => CancelEvent(s, fd, e, ok)
    case CancelEvery => CancelAll(s, fd, ok)
    case Reported(r) => OnReady(s, fd, r, ok)
  }

  /** The table as it looks to a thread whose context of `fd` is `c`. */
  function Seen(s: Io, fd: nat, c: Context): Io {
    var table := if fd < |s.table| then s.table else Resize(s.table, fd + 1);
    s.(table := table[fd := c])
  }

  /** Working on a context: on the table, or on a context that is not in it, with the same kernel and count. */
  function ActedAt(w: World, at: Pointer, a: Action, ok: bool): World {
    if !IsPointer(w, at) then w else
      match at
      case Slot(fd) => w.(io := Acted(w.io, fd, a, ok))
      case Lost(fd, k) =>
        var r := Acted(Seen(w.io, fd, w.lost[k]), fd, a, ok);
        if fd < |r.table| then w.(io := r.(table := w.io.table), lost := w.lost[k := r.table[fd]]) else w
  }

  /** The source stops on the other actions. */
  predicate MayAct(c: Context, a: Action) {
    match a
    case Add(e, _, _) => !c.event.Has(e)
    case Reported(r) =>
      var found := RealEvents(c.event, r);
      found.Within(c.event) || Wanted(c.event, found).IsNone()
    case _ => true
  }

  datatype Step =
    | Look(t: nat, fd: nat, grows: bool)            // fetches the context, if there is one
    | Grow(t: nat)                                  // grows the table and fetches
    | Act(t: nat, a: Action, ok: bool)              // works on what was fetched; `ok`: epoll_ctl's answer
    | Ready(at: Pointer, r: Readiness, ok: bool)    // the event loop handles a report

  predicate Enabled(w: World, step: Step) {
    match step
    case Look(t, _, _) => Place(w, t).Outside?
    case Grow(t) => Place(w, t).Growing?
    case Act(t, a, _) => Place(w, t).Holds? && !a.Reported? && MayAct(Target(w, Place(w, t).at), a)
    case Ready(at, r, _) => IsPointer(w, at) && MayAct(Target(w, at), Reported(r))
  }

  /** A pointer into the part of the table that goes becomes one to a lost context. */
  function Moved(th: Thread, n: nat, m: nat): Thread {
    if th.Holds? && th.at.Slot? && th.at.fd >= n then Holds(Lost(th.at.fd, m + th.at.fd - n)) else th
  }

  function Resized(w: World, n: nat): World {
    World(w.io.(table := Resize(w.io.table, n)),
          w.lost + if n < |w.io.table| then w.io.table[n..] else [],
          map t | t in w.threads :: Moved(w.threads[t], n, |w.lost|))
  }

  function At(w: World, t: nat, th: Thread): World {
    w.(threads := w.threads[t := th])
  }

  function Next(w: World, step: Step): World {
    match step
    case Look(t, fd, grows) =>
      if fd < |w.io.table| then At(w, t, Holds(Slot(fd))) else if grows then At(w, t, Growing(fd)) else w
    case Grow(t) =>
      if Place(w, t).Growing? then var fd := Place(w, t).fd; At(Resized(w, fd * 2), t, Holds(Slot(fd))) else w
    case Act(t, a, ok) =>
      if Place(w, t).Holds? then At(ActedAt(w, Place(w, t).at, a, ok), t, Outside) else w
    case Ready(at, r, ok) => ActedAt(w, at, Reported(r), ok)
  }

  // ---------------------------------------------------------------- the invariant

  /** The invariant of the table, and nobody waits in a context that the table has lost. */
  ghost predicate Sound(w: World) {
    && Inv(w.io)
    && (forall k :: 0 <= k < |w.lost| ==> w.lost[k] == UNUSED)
    && forall t <- w.threads :: RightPlace(w, w.threads[t])
  }

  predicate RightPlace(w: World, th: Thread) {
    match th
    case Outside => true
    case Growing(fd) => fd > 0
    case Holds(at) => IsPointer(w, at)
  }

  /** The steps that do no harm: growth that loses no context in which someone waits, and registering in a
      context that is still in the table, unless epoll_ctl fails. */
  predicate Harmless(w: World, step: Step) {
    match step
    case Grow(t) =>
      Place(w, t).Growing? ==>
        forall fd :: Place(w, t).fd * 2 <= fd < |w.io.table| ==> w.io.table[fd].event.IsNone()
    case Act(t, a, ok) => Place(w, t).Holds? && a.Add? && ok ==> Place(w, t).at.Slot?
    case _ => true
  }

  lemma ActedKeepsInv(s: Io, fd: nat, a: Action, ok: bool)
    requires Inv(s) && fd < |s.table| && MayAct(s.table[fd], a)
    ensures Inv(Acted(s, fd, a, ok)) && |Acted(s, fd, a, ok).table| == |s.table|
  {
    ActedKeepsLength(s, fd, a, ok);
    hide Inv, Register, DelEvent, CancelEvent, CancelAll, OnReady;
    match a {
      case Add(e, waiter, scheduler) => RegisterKeepsInv(s, fd, e, waiter, scheduler, ok);
      case Del(e) => DelKeepsInv(s, fd, e, ok);
      case Cancel(e) => CancelKeepsInv(s, fd, e, ok);
      case CancelEvery => CancelAllKeepsInv(s, fd, ok);
      case Reported(r) => OnReadyKeepsInv(s, fd, r, ok);
    }
  }

  lemma ActedKeepsLength(s: Io, fd: nat, a: Action, ok: bool)
    requires fd < |s.table|
    ensures |Acted(s, fd, a, ok).table| == |s.table|
  {
    hide EpollCtl, Cleared, EventContext.Handover, EventContext.Who;
  }

  /** In an unused context only registering does anything. */
  lemma NothingInUnused(s: Io, fd: nat, a: Action, ok: bool)
    requires fd < |s.table| && s.table[fd] == UNUSED && (a.Add? ==> !ok)
    ensures Acted(s, fd, a, ok) == s
  {
    hide TriggerAll, EpollCtl;
  }

  lemma SeenIs(s: Io, fd: nat)
    ensures var t := Seen(s, fd, UNUSED);
            fd < |t.table| && t.table[fd] == UNUSED && t == s.(table := t.table)
  {}

  lemma LostIsUnused(w: World, fd: nat, k: nat, a: Action, ok: bool)
    requires k < |w.lost| && w.lost[k] == UNUSED && (a.Add? ==> !ok)
    ensures ActedAt(w, Lost(fd, k), a, ok) == w
  {
    hide Acted, Seen;
    SeenIs(w.io, fd);
    NothingInUnused(Seen(w.io, fd, UNUSED), fd, a, ok);
  }

  /** A waiter registered in a lost context is counted, and the kernel watches for it, but it is not in the table. */
  lemma LostIsNotCounted(w: World, fd: nat, k: nat, e: Event, waiter: Waiter, scheduler: int)
    requires Inv(w.io) && k < |w.lost|
    ensures !Inv(ActedAt(w, Lost(fd, k), Add(e, waiter, scheduler), true).io)
  {
    hide Bits, Waiting, KernelAgrees;
  }

  /** Working on what was fetched keeps the invariant exactly if it does not register in a lost context. */
  lemma ActExact(w: World, at: Pointer, a: Action, ok: bool)
    requires Sound(w) && IsPointer(w, at) && MayAct(Target(w, at), a)
    ensures Sound(ActedAt(w, at, a, ok)) <==> (a.Add? && ok ==> at.Slot?)
    ensures ActedAt(w, at, a, ok).threads == w.threads
  {
    hide Inv, Acted, Seen;
    match at {
      case Slot(fd) => ActedKeepsInv(w.io, fd, a, ok);
      case Lost(fd, k) =>
        if a.Add? && ok {
          LostIsNotCounted(w, fd, k, a.e, a.waiter, a.scheduler);
        } else {
          LostIsUnused(w, fd, k, a, ok);
        }
    }
  }

  /** A thread that has worked on its context lets go of it. */
  lemma ActKeepsPlaces(w: World, t: nat, a: Action, ok: bool)
    requires Sound(w) && Place(w, t).Holds? && IsPointer(w, Place(w, t).at)
    ensures var v := ActedAt(w, Place(w, t).at, a, ok); Sound(At(v, t, Outside)) <==> Sound(v)
  {
    hide Inv, Acted, Seen;
    var at := Place(w, t).at;
    var v := ActedAt(w, at, a, ok);
    ActedKeepsPlaces(w, at, a, ok);
  }

  lemma ActedKeepsPlaces(w: World, at: Pointer, a: Action, ok: bool)
    requires forall t <- w.threads :: RightPlace(w, w.threads[t])
    ensures var v := ActedAt(w, at, a, ok); forall t <- v.threads :: RightPlace(v, v.threads[t])
  {
    hide Seen;
    if IsPointer(w, at) && at.Slot? {
      ActedKeepsLength(w.io, at.fd, a, ok);
    }
    hide Acted;
    var v := ActedAt(w, at, a, ok);
    forall t <- v.threads ensures RightPlace(v, v.threads[t]) {
      assert RightPlace(w, w.threads[t]);
    }
  }

  // ---------------------------------------------------------------- growing the table

  /** Resizing keeps the invariant of the table exactly if nobody waits in a context it takes out. */
  lemma ResizeKeepsInv(s: Io, n: nat)
    requires Inv(s) && n > 0
    ensures Inv(s.(table := Resize(s.table, n))) <==> forall fd :: n <= fd < |s.table| ==> s.table[fd].event.IsNone()
  {
    hide Inv, Resize;
    if n >= |s.table| {
      WideningKeepsInv(s, n);
    } else if forall fd :: n <= fd < |s.table| ==> s.table[fd].event.IsNone() {
      ShrinkingKeepsInv(s, n);
    } else {
      ShrinkingBreaksInv(s, n);
    }
  }

  lemma WideningKeepsInv(s: Io, n: nat)
    requires Inv(s) && n >= |s.table|
    ensures Inv(s.(table := Resize(s.table, n)))
  {
    hide Bits, Waiting, Woken, Fresh, Resize, KernelAgrees, Context.Consistent;
    var t := s.(table := Resize(s.table, n));
    GrowKeeps(s.table, n - |s.table|);
    WidenedIs(s.table, n);
    ResizeIs(s.table, n);
    UnusedIsConsistent();
    GrownKernel(s, t);
  }

  lemma WidenedIs(table: seq<Context>, n: nat)
    requires n >= |table|
    ensures Resize(table, n) == table + Fresh(n - |table|)
  {}

  lemma ShrinkingKeepsInv(s: Io, n: nat)
    requires Inv(s) && 0 < n < |s.table| && forall fd :: n <= fd < |s.table| ==> s.table[fd].event.IsNone()
    ensures Inv(s.(table := Resize(s.table, n)))
  {
    hide Bits, Waiting, Context.Consistent, Woken;
    assert forall c :: c in s.table ==> c.Consistent();
    ShrinkKeeps(s.table, n);
    var t := s.(table := Resize(s.table, n));
    assert t.table == s.table[..n];
    ShrunkKernel(s, t, n);
  }

  lemma ShrunkKernel(s: Io, t: Io, n: nat)
    requires KernelAgrees(s) && t.kernel == s.kernel && n < |s.table| && t.table == s.table[..n]
    requires forall fd :: n <= fd < |s.table| ==> s.table[fd].event.IsNone()
    ensures KernelAgrees(t)
  {}

  lemma ShrinkingBreaksInv(s: Io, n: nat)
    requires Inv(s) && 0 < n < |s.table| && exists fd :: n <= fd < |s.table| && !s.table[fd].event.IsNone()
    ensures !Inv(s.(table := Resize(s.table, n)))
  {}

  lemma {:induction false} ShrinkKeeps(table: seq<Context>, n: nat)
    requires n <= |table| && (forall c <- table :: c.Consistent()) && forall fd :: n <= fd < |table| ==> table[fd].event.IsNone()
    ensures Bits(table[..n]) == Bits(table) && Waiting(table[..n]) == Waiting(table)
    decreases |table|
  {
    if n < |table| {
      var m := |table| - 1;
      assert table[m] in table && table[..m][..n] == table[..n];
      ShrinkKeeps(table[..m], n);
    } else {
      assert table[..n] == table;
    }
  }

  lemma ResizedPlaces(w: World, n: nat)
    requires n > 0 && forall t <- w.threads :: RightPlace(w, w.threads[t])
    ensures forall t <- Resized(w, n).threads :: RightPlace(Resized(w, n), Resized(w, n).threads[t])
  {
    var v := Resized(w, n);
    forall t <- v.threads ensures RightPlace(v, v.threads[t]) {
      assert RightPlace(w, w.threads[t]);
    }
  }

  lemma ResizedLost(w: World, n: nat)
    requires Inv(w.io) && (forall k :: 0 <= k < |w.lost| ==> w.lost[k] == UNUSED)
    requires forall fd :: n <= fd < |w.io.table| ==> w.io.table[fd].event.IsNone()
    ensures forall k :: 0 <= k < |Resized(w, n).lost| ==> Resized(w, n).lost[k] == UNUSED
  {
    var m := |w.lost|;
    forall k | m <= k < |Resized(w, n).lost| ensures Resized(w, n).lost[k] == UNUSED {
      ConsistentAt(w.io, n + (k - m));
      assert Resized(w, n).lost[k] == w.io.table[n + (k - m)];
    }
  }

  /** Growth keeps the invariant exactly if nobody waits in a context it loses; a thread that holds such a
      context is not harmed yet. */
  lemma GrowExact(w: World, t: nat)
    requires Sound(w) && Place(w, t).Growing?
    ensures Sound(Next(w, Grow(t))) <==> Harmless(w, Grow(t))
  {
    hide Inv, Resize;
    assert RightPlace(w, w.threads[t]);
    var n := Place(w, t).fd * 2;
    ResizeKeepsInv(w.io, n);
    ResizedPlaces(w, n);
    if Harmless(w, Grow(t)) {
      ResizedLost(w, n);
    }
  }

  // ---------------------------------------------------------------- runs

  /** A step keeps the invariant exactly if it is harmless. */
  lemma NextExact(w: World, step: Step)
    requires Sound(w) && Enabled(w, step)
    ensures Sound(Next(w, step)) <==> Harmless(w, step)
  {
    hide Inv, Resized, ActedAt, MayAct, Target;
    match step {
      case Look(t, fd, grows) => TableNotEmpty(w.io);
      case Grow(t) => GrowExact(w, t);
      case Act(t, a, ok) =>
        assert RightPlace(w, w.threads[t]);
        var at := Place(w, t).at;
        ActExact(w, at, a, ok);
        ActKeepsPlaces(w, t, a, ok);
      case Ready(at, r, ok) => ActExact(w, at, Reported(r), ok);
    }
  }

  lemma TableNotEmpty(s: Io)
    requires Inv(s)
    ensures |s.table| > 0
  {}

  ghost predicate IsRun(states: seq<World>, steps: seq<Step>) {
    && |states| == |steps| + 1 && states[0] == BEGINNING
    && forall i :: 0 <= i < |steps| ==> Leads(states[i], steps[i], states[i + 1])
  }

  predicate Leads(w: World, step: Step, v: World) {
    Enabled(w, step) && v == Next(w, step)
  }

  lemma BeginningSound()
    ensures Sound(BEGINNING)
  {
    hide Inv;
    StartInv();
  }

  /** Over every run, with epoll_ctl free to fail: the count, the bits, the contexts, the kernel and the waiters
      agree for as long as the steps are harmless. */
  lemma {:induction false} RunsKeepInv(states: seq<World>, steps: seq<Step>, i: nat)
    requires IsRun(states, steps) && i <= |steps|
    requires forall k :: 0 <= k < i ==> Harmless(states[k], steps[k])
    ensures Sound(states[i])
    decreases i
  {
    hide Sound, Harmless, Enabled, Next;
    if i == 0 {
      BeginningSound();
    } else {
      RunsKeepInv(states, steps, i - 1);
      assert Leads(states[i - 1], steps[i - 1], states[i]);
      NextExact(states[i - 1], steps[i - 1]);
    }
  }

  /** And no longer: a run keeps the invariant throughout exactly if all its steps are harmless. */
  lemma RunsExact(states: seq<World>, steps: seq<Step>)
    requires IsRun(states, steps)
    ensures (forall i :: 0 <= i <= |steps| ==> Sound(states[i])) <==> forall i :: 0 <= i < |steps| ==> Harmless(states[i], steps[i])
  {
    hide Sound, Harmless, Enabled, Next;
    if forall i :: 0 <= i < |steps| ==> Harmless(states[i], steps[i]) {
      forall i | 0 <= i <= |steps| ensures Sound(states[i]) {
        RunsKeepInv(states, steps, i);
      }
    } else {
      var i :| 0 <= i < |steps| && !Harmless(states[i], steps[i]);
      if Sound(states[i]) {
        assert Leads(states[i], steps[i], states[i + 1]);
        NextExact(states[i], steps[i]);
      }
    }
  }

  // ---------------------------------------------------------------- runs in which the table never shrinks

  /** What a caller can see to: no growth to less than the table already has. */
  predicate Widens(w: World, step: Step) {
    step.Grow? && Place(w, step.t).Growing? ==> |w.io.table| <= Place(w, step.t).fd * 2
  }

  predicate NothingLost(w: World) {
    w.lost == [] && forall t <- w.threads :: w.threads[t].Holds? ==> w.threads[t].at.Slot?
  }

  lemma WideningLosesNothing(w: World, step: Step)
    requires Sound(w) && Enabled(w, step) && NothingLost(w) && Widens(w, step)
    ensures Harmless(w, step) && NothingLost(Next(w, step))
  {
    hide Inv, Acted, MayAct, Resize;
    if step.Grow? {
      var n := Place(w, step.t).fd * 2;
      forall t <- w.threads ensures Moved(w.threads[t], n, |w.lost|) == w.threads[t] {
        assert RightPlace(w, w.threads[t]);
      }
    }
  }

  /** When no thread ever makes the table smaller, so for instance when each grows it as soon as it has looked,
      no waiter is lost. */
  lemma {:induction false} WideningRuns(states: seq<World>, steps: seq<Step>, i: nat)
    requires IsRun(states, steps) && i <= |steps|
    requires forall k :: 0 <= k < |steps| ==> Widens(states[k], steps[k])
    ensures Sound(states[i]) && NothingLost(states[i])
    decreases i
  {
    hide Sound, Harmless, Enabled, Next, NothingLost, Widens;
    if i == 0 {
      BeginningSound();
      BeginningLostNothing();
    } else {
      WideningRuns(states, steps, i - 1);
      assert Leads(states[i - 1], steps[i - 1], states[i]);
      WideningLosesNothing(states[i - 1], steps[i - 1]);
      NextExact(states[i - 1], steps[i - 1]);
    }
  }

  lemma BeginningLostNothing()
    ensures NothingLost(BEGINNING)
  {}

  // ---------------------------------------------------------------- races

  /** Two threads that register descriptors 40 and 100 with a table of 32. The first looks before the second
      grows the table and registers; its own growth then takes the waiter on 100 out of the table. */
  lemma RacingGrowthLoses(waiter: Waiter, scheduler: int)
    ensures var w := Registered100(Add(READ, waiter, scheduler));
            var v := Next(w, Grow(1));
            && Sound(w) && Enabled(w, Grow(1)) && !Harmless(w, Grow(1))
            && 100 in v.io.kernel && !Registered(v.io, 100, READ) && !Sound(v)
  {
    hide Inv, Resize;
    ResizeIs(Start().table, 200);
    TwoLookedSound();
    var u := Next(TwoLooked(), Grow(2));
    GrowExact(TwoLooked(), 2);
    var w := Registered100(Add(READ, waiter, scheduler));
    NextExact(u, Act(2, Add(READ, waiter, scheduler), true));
    assert !w.io.table[100].event.IsNone();
    NextExact(w, Grow(1));
    ResizeIs(w.io.table, 80);
  }

  /** The first thread to look at 40, the second at 100; then the second grows the table. */
  function TwoLooked(): World {
    World(Start(), [], map[1 := Growing(40), 2 := Growing(100)])
  }

  function Registered100(a: Action): World {
    Next(Next(TwoLooked(), Grow(2)), Act(2, a, true))
  }

  lemma TwoLookedSound()
    ensures TwoLooked() == Next(Next(BEGINNING, Look(1, 40, true)), Look(2, 100, true)) && Sound(TwoLooked())
  {
    hide Inv;
    StartInv();
  }

  lemma ResizeIs(table: seq<Context>, n: nat)
    ensures var t := Resize(table, n);
            |t| == n && forall k :: 0 <= k < n ==> t[k] == if k < |table| then table[k] else UNUSED
  {}

  /** The same, but the first grows the table while the second only holds its context: nobody waits there, so
      nothing is wrong until the second registers. */
  lemma HeldContextLost(waiter: Waiter, scheduler: int)
    ensures var u := Next(TwoLooked(), Grow(2));
            var w := Next(u, Grow(1));
            var step := Act(2, Add(READ, waiter, scheduler), true);
            var v := Next(w, step);
            && Sound(u) && Harmless(u, Grow(1)) && Sound(w) && Enabled(w, step) && !Harmless(w, step)
            && 100 in v.io.kernel && !Registered(v.io, 100, READ) && !Sound(v)
  {
    hide Inv, Resize, Sound, Acted;
    ResizeIs(Start().table, 200);
    TwoLookedSound();
    var u := Next(TwoLooked(), Grow(2));
    GrowExact(TwoLooked(), 2);
    assert forall fd :: 0 <= fd < |u.io.table| ==> u.io.table[fd] == UNUSED;
    GrowExact(u, 1);
    var w := Next(u, Grow(1));
    ResizeIs(u.io.table, 80);
    assert Place(w, 2) == Holds(Lost(100, 20)) && Target(w, Lost(100, 20)) == UNUSED;
    NextExact(w, Act(2, Add(READ, waiter, scheduler), true));
    LostIsWatched(w, 100, 20, waiter, scheduler);
  }

  lemma LostIsWatched(w: World, fd: nat, k: nat, waiter: Waiter, scheduler: int)
    requires k < |w.lost| && w.lost[k] == UNUSED && fd >= |w.io.table|
    ensures var v := ActedAt(w, Lost(fd, k), Add(READ, waiter, scheduler), true);
            fd in v.io.kernel && !Registered(v.io, fd, READ)
  {
    SeenIs(w.io, fd);
    hide Seen;
  }
}
