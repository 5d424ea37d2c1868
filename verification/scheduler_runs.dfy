/** A scheduler and its threads as a state machine. A step is one locked section of one thread, or one piece of
    a task's own code; the interleaving of the threads is arbitrary. */
module SchedulerRuns {

  /** What a task runs; nothing for a task that was made from an empty fiber or callback. */
  datatype Work = FiberWork(id: int) | CallbackWork(id: int) | Nothing

  const ANY_THREAD := -1

  datatype Task = Task(work: Work, thread: int)

  /** The tasks that thread `t` may take. */
  predicate Eligible(task: Task, t: int) {
    task.thread == ANY_THREAD || task.thread == t
  }

  /** The index of the first task that thread `t` may take, or the length. */
  function FirstEligible(queue: seq<Task>, t: int): (i: nat)
    ensures i <= |queue| && (i < |queue| ==> Eligible(queue[i], t))
    ensures forall j :: 0 <= j < i ==> !Eligible(queue[j], t)
    decreases |queue|
  {
    if |queue| == 0 then 0
    else if Eligible(queue[0], t) then 0
    else 1 + FirstEligible(queue[1..], t)
  }

  function Without(queue: seq<Task>, i: nat): seq<Task>
    requires i < |queue|
  {
    queue[..i] + queue[i + 1..]
  }

  function Enqueue(queue: seq<Task>, task: Task): seq<Task> {
    if task.work.Nothing? then queue else queue + [task]
  }

  // ---------------------------------------------------------------- threads

  /** Where a thread is in `run`: at the head of the loop, inside a task, having found no task, in the idle
      fiber, or gone. */
  datatype Place = AtHead | InTask(task: Task) | FoundNone | InIdle | Gone

  /** `idleDone`: the idle fiber has seen `stopping` and ended. */
  datatype Thread = Thread(place: Place, idleDone: bool)

  datatype System = System(queue: seq<Task>, active: int, idle: int, stopRequested: bool, threads: map<int, Thread>,
                           added: seq<Task>, taken: seq<Task>, takers: seq<int>)

  function Start(pool: set<int>): System {
    System([], 0, 0, false, map t | t in pool :: Thread(AtHead, false), [], [], [])
  }

  predicate Stopping(s: System) {
    s.stopRequested && s.queue == [] && s.active == 0
  }

  datatype Step =
    | Take(t: int)                     // the locked search of the queue
    | AfterNone(t: int)                // no task: leave if the idle fiber has ended, else resume it
    | IdleCheck(t: int)                // the idle fiber looks at `stopping`, then yields or ends
    | Spawn(t: int, task: Task)        // a task schedules another
    | Finish(t: int)                   // a task yields or ends
    | Outside(task: Task)              // someone who is not one of the threads schedules a task
    | Stop                             // stop is called

  predicate At(s: System, t: int, p: Place) {
    t in s.threads && s.threads[t].place == p
  }

  predicate Enabled(s: System, step: Step) {
    match step
    case Take(t) => At(s, t, AtHead)
    case AfterNone(t) => At(s, t, FoundNone)
    case IdleCheck(t) => At(s, t, InIdle)
    case Spawn(t, _) => t in s.threads && s.threads[t].place.InTask?
    case Finish(t) => t in s.threads && s.threads[t].place.InTask?
    case Outside(_) => true
    case Stop => true
  }

  /** Someone who is not one of the threads schedules something to run. */
  predicate BringsWork(step: Step) {
    step.Outside? && !step.task.work.Nothing?
  }

  /** The thread's idle fiber has ended, or it has left `run`. */
  predicate HasEnded(thread: Thread) {
    thread.idleDone || thread.place.Gone?
  }

  /** No work comes from outside once some thread has seen `stopping`. */
  ghost predicate Closed(s: System, step: Step) {
    BringsWork(step) ==> forall t <- s.threads :: !HasEnded(s.threads[t])
  }

  function Move(s: System, t: int, p: Place): System
    requires t in s.threads
  {
    s.(threads := s.threads[t := s.threads[t].(place := p)])
  }

  function Schedule(s: System, task: Task): System {
    s.(queue := Enqueue(s.queue, task), added := Enqueue(s.added, task))
  }

  function Next(s: System, step: Step): System
    requires Enabled(s, step)
  {
    match step
    case Take(t) =>
      var i := FirstEligible(s.queue, t);
      if i == |s.queue| then Move(s, t, FoundNone)
      else
        var task := s.queue[i];
        Move(s, t, InTask(task)).(queue := Without(s.queue, i), active := s.active + 1,
                                  taken := s.taken + [task], takers := s.takers + [t])
    case AfterNone(t) =>
      if s.threads[t].idleDone then Move(s, t, Gone) else Move(s, t, InIdle).(idle := s.idle + 1)
    case IdleCheck(t) =>
      s.(threads := s.threads[t := Thread(AtHead, Stopping(s))], idle := s.idle - 1)
    case Spawn(_, task) => Schedule(s, task)
    case Finish(t) => Move(s, t, AtHead).(active := s.active - 1)
    case Outside(task) => Schedule(s, task)
    case Stop => s.(stopRequested := true)
  }

  // ---------------------------------------------------------------- the invariant

  function Busy(threads: map<int, Thread>): set<int> {
    set t | t in threads && threads[t].place.InTask?
  }

  function Idling(threads: map<int, Thread>): set<int> {
    set t | t in threads && threads[t].place.InIdle?
  }

  /** The tasks that are meant for `pin`: a thread, or any of them. */
  function For(pin: int, tasks: seq<Task>): seq<Task>
    decreases |tasks|
  {
    if |tasks| == 0 then []
    else For(pin, tasks[..|tasks| - 1]) + if tasks[|tasks| - 1].thread == pin then [tasks[|tasks| - 1]] else []
  }

  /** For every pin, the tasks taken so far and then those in the queue are those that were added, in the
      order in which they were added. */
  ghost predicate InOrder(s: System) {
    forall pin: int :: Conserved(s, pin)
  }

  ghost predicate Conserved(s: System, pin: int) {
    For(pin, s.taken) + For(pin, s.queue) == For(pin, s.added)
  }

  /** Every task was taken by a thread it may run on. */
  predicate RightThreads(s: System) {
    |s.takers| == |s.taken| && forall i :: 0 <= i < |s.taken| ==> Eligible(s.taken[i], s.takers[i])
  }

  ghost predicate Inv(s: System) {
    && s.active == |Busy(s.threads)| && s.idle == |Idling(s.threads)|
    && InOrder(s) && RightThreads(s)
    && (forall task <- s.queue :: !task.work.Nothing?)
  }

  /** An idle fiber that has ended, and a thread that is gone, is right to have done so. */
  ghost predicate Settled(s: System) {
    forall t <- s.threads :: HasEnded(s.threads[t]) ==> Stopping(s)
  }

  // ---------------------------------------------------------------- order and conservation

  lemma {:induction false} ForAppend(pin: int, a: seq<Task>, b: seq<Task>)
    ensures For(pin, a + b) == For(pin, a) + For(pin, b)
    decreases |b|
  {
    if |b| == 0 {
      assert a + b == a;
    } else {
      assert (a + b)[..|a + b| - 1] == a + b[..|b| - 1];
      ForAppend(pin, a, b[..|b| - 1]);
    }
  }

  lemma ForOne(pin: int, task: Task)
    ensures For(pin, [task]) == if task.thread == pin then [task] else []
  {}

  /** Tasks that another thread must run are not skipped tasks of this pin. */
  lemma {:induction false} ForNone(pin: int, tasks: seq<Task>)
    requires forall task <- tasks :: task.thread != pin
    ensures For(pin, tasks) == []
    decreases |tasks|
  {
    if |tasks| > 0 {
      assert tasks[|tasks| - 1] in tasks;
      ForNone(pin, tasks[..|tasks| - 1]);
    }
  }

  lemma TakeKeepsOrder(queue: seq<Task>, taken: seq<Task>, t: int, pin: int)
    requires FirstEligible(queue, t) < |queue|
    ensures var i := FirstEligible(queue, t);
            For(pin, taken + [queue[i]]) + For(pin, Without(queue, i)) == For(pin, taken) + For(pin, queue)
  {
    var i := FirstEligible(queue, t);
    assert queue == queue[..i] + ([queue[i]] + queue[i + 1..]);
    ForAppend(pin, queue[..i], [queue[i]] + queue[i + 1..]);
    ForAppend(pin, [queue[i]], queue[i + 1..]);
    ForAppend(pin, queue[..i], queue[i + 1..]);
    ForAppend(pin, taken, [queue[i]]);
    ForOne(pin, queue[i]);
    if queue[i].thread == pin {
      ForNone(pin, queue[..i]);
    }
    hide For, FirstEligible;
    Shuffle(For(pin, taken), For(pin, queue[..i]), For(pin, [queue[i]]), For(pin, queue[i + 1..]));
  }

  lemma Shuffle(u: seq<Task>, a: seq<Task>, x: seq<Task>, b: seq<Task>)
    requires a == [] || x == []
    ensures u + x + (a + b) == u + (a + (x + b))
  {}

  lemma EnqueueKeepsOrder(s: System, task: Task, pin: int)
    requires Conserved(s, pin)
    ensures Conserved(Schedule(s, task), pin)
  {
    hide For;
    if !task.work.Nothing? {
      ForAppend(pin, s.queue, [task]);
      ForAppend(pin, s.added, [task]);
      assert For(pin, s.taken) + (For(pin, s.queue) + For(pin, [task])) == For(pin, s.taken) + For(pin, s.queue) + For(pin, [task]);
    }
  }

  lemma TakeKeepsInv(s: System, t: int)
    requires Inv(s) && Enabled(s, Take(t))
    ensures Inv(Next(s, Take(t)))
  {
    var n := Next(s, Take(t));
    var i := FirstEligible(s.queue, t);
    assert Idling(n.threads) == Idling(s.threads);
    if i < |s.queue| {
      assert Busy(n.threads) == Busy(s.threads) + {t};
      forall pin: int ensures Conserved(n, pin) {
        assert Conserved(s, pin);
        TakeKeepsOrder(s.queue, s.taken, t, pin);
      }
    } else {
      assert Busy(n.threads) == Busy(s.threads);
      assert forall pin: int :: Conserved(s, pin) ==> Conserved(n, pin);
    }
  }

  lemma ScheduleKeepsInv(s: System, task: Task)
    requires Inv(s)
    ensures Inv(Schedule(s, task))
  {
    forall pin: int ensures Conserved(Schedule(s, task), pin) {
      assert Conserved(s, pin);
      EnqueueKeepsOrder(s, task, pin);
    }
  }

  lemma SameHistory(s: System, n: System)
    requires Inv(s) && n.queue == s.queue && n.taken == s.taken && n.takers == s.takers && n.added == s.added
    requires n.active == |Busy(n.threads)| && n.idle == |Idling(n.threads)|
    ensures Inv(n)
  {
    assert forall pin: int :: Conserved(s, pin) ==> Conserved(n, pin);
  }

  /** What moving one thread does to the busy and the idle ones. */
  lemma ThreadMoved(threads: map<int, Thread>, t: int, th: Thread)
    ensures Busy(threads[t := th]) == if th.place.InTask? then Busy(threads) + {t} else Busy(threads) - {t}
    ensures Idling(threads[t := th]) == if th.place.InIdle? then Idling(threads) + {t} else Idling(threads) - {t}
    ensures t in Busy(threads) <==> t in threads && threads[t].place.InTask?
    ensures t in Idling(threads) <==> t in threads && threads[t].place.InIdle?
  {}

  lemma AfterNoneKeepsInv(s: System, t: int)
    requires Inv(s) && Enabled(s, AfterNone(t))
    ensures Inv(Next(s, AfterNone(t)))
  {
    hide Inv, Busy, Idling;
    var n := Next(s, AfterNone(t));
    ThreadMoved(s.threads, t, n.threads[t]);
    Counts(s);
    SameHistory(s, n);
  }

  lemma IdleCheckKeepsInv(s: System, t: int)
    requires Inv(s) && Enabled(s, IdleCheck(t))
    ensures Inv(Next(s, IdleCheck(t)))
  {
    hide Inv, Busy, Idling, Stopping;
    var n := Next(s, IdleCheck(t));
    ThreadMoved(s.threads, t, n.threads[t]);
    Counts(s);
    SameHistory(s, n);
  }

  lemma FinishKeepsInv(s: System, t: int)
    requires Inv(s) && Enabled(s, Finish(t))
    ensures Inv(Next(s, Finish(t)))
  {
    hide Inv, Busy, Idling;
    var n := Next(s, Finish(t));
    ThreadMoved(s.threads, t, n.threads[t]);
    Counts(s);
    SameHistory(s, n);
  }

  lemma Counts(s: System)
    requires Inv(s)
    ensures s.active == |Busy(s.threads)| && s.idle == |Idling(s.threads)|
  {}

  lemma NextKeepsInv(s: System, step: Step)
    requires Inv(s) && Enabled(s, step)
    ensures Inv(Next(s, step))
  {
    hide Inv, Busy, Idling;
    if step.Take? {
      TakeKeepsInv(s, step.t);
    } else if step.Spawn? || step.Outside? {
      ScheduleKeepsInv(s, step.task);
    } else if step.Stop? {
      Counts(s);
      SameHistory(s, Next(s, step));
    } else if step.AfterNone? {
      AfterNoneKeepsInv(s, step.t);
    } else if step.IdleCheck? {
      IdleCheckKeepsInv(s, step.t);
    } else {
      FinishKeepsInv(s, step.t);
    }
  }

  // ---------------------------------------------------------------- stopping

  /** Once `stopping` is true it stays so, exactly as long as no work comes from outside. */
  lemma StoppingIsStable(s: System, step: Step)
    requires Inv(s) && Enabled(s, step) && Stopping(s)
    ensures Stopping(Next(s, step)) <==> !BringsWork(step)
  {
    forall t | t in s.threads ensures !s.threads[t].place.InTask? {
      assert t !in Busy(s.threads);
    }
  }

  /** Work from outside does no harm before an idle fiber has ended; after that it always does. */
  lemma SettledExact(s: System, step: Step)
    requires Inv(s) && Settled(s) && Enabled(s, step)
    ensures Settled(Next(s, step)) <==> Closed(s, step)
  {
    if Stopping(s) {
      StoppingIsStable(s, step);
    }
    if t :| t in s.threads && HasEnded(s.threads[t]) {
      EndedStaysEnded(s, step, t);
    } else if step.IdleCheck? || step.AfterNone? {
      assert Closed(s, step);
    }
  }

  lemma EndedStaysEnded(s: System, step: Step, t: int)
    requires Inv(s) && Settled(s) && Enabled(s, step) && t in s.threads && HasEnded(s.threads[t])
    ensures t in Next(s, step).threads && HasEnded(Next(s, step).threads[t])
  {}

  ghost predicate IsRun(states: seq<System>, steps: seq<Step>, pool: set<int>) {
    && |states| == |steps| + 1 && states[0] == Start(pool)
    && forall i :: 0 <= i < |steps| ==> Leads(states[i], steps[i], states[i + 1])
  }

  ghost predicate Leads(s: System, step: Step, n: System) {
    Enabled(s, step) && n == Next(s, step)
  }

  lemma StartInv(pool: set<int>)
    ensures Inv(Start(pool)) && Settled(Start(pool))
  {}

  /** Over every interleaving: the counts are the threads in a task and in the idle fiber, every added task is
      taken at most once and in order, by a thread it may run on. */
  lemma {:induction false} RunsKeepInv(states: seq<System>, steps: seq<Step>, pool: set<int>, i: nat)
    requires IsRun(states, steps, pool) && i <= |steps|
    ensures Inv(states[i])
    decreases i
  {
    if i == 0 {
      StartInv(pool);
    } else {
      RunsKeepInv(states, steps, pool, i - 1);
      assert Leads(states[i - 1], steps[i - 1], states[i]);
      NextKeepsInv(states[i - 1], steps[i - 1]);
    }
  }

  /** Over every interleaving in which no work comes from outside after an idle fiber has ended: a thread that has
      left `run` leaves no task behind, neither in the queue nor in another thread, so every task that was added has
      been taken. */
  lemma {:induction false} NoTaskIsLeft(states: seq<System>, steps: seq<Step>, pool: set<int>, i: nat)
    requires IsRun(states, steps, pool) && i <= |steps|
    requires forall k :: 0 <= k < |steps| ==> Closed(states[k], steps[k])
    ensures Settled(states[i])
    ensures forall t :: At(states[i], t, Gone) ==>
              states[i].queue == [] && Busy(states[i].threads) == {} &&
                  forall pin: int :: For(pin, states[i].taken) == For(pin, states[i].added)
    decreases i
  {
    RunsKeepInv(states, steps, pool, i);
    if i == 0 {
      StartInv(pool);
    } else {
      NoTaskIsLeft(states, steps, pool, i - 1);
      RunsKeepInv(states, steps, pool, i - 1);
      assert Leads(states[i - 1], steps[i - 1], states[i]);
      SettledExact(states[i - 1], steps[i - 1]);
    }
    var s := states[i];
    forall t | At(s, t, Gone) ensures s.queue == [] && Busy(s.threads) == {} && forall pin: int :: For(pin, s.taken) == For(pin, s.added) {
      assert Stopping(s);
      forall pin: int ensures For(pin, s.taken) == For(pin, s.added) {
        assert Conserved(s, pin);
      }
    }
  }

  // ---------------------------------------------------------------- who runs what, and when it is over

  /** Over every interleaving each task was taken by the thread it is pinned to, if it is pinned. */
  lemma TakersArePermitted(states: seq<System>, steps: seq<Step>, pool: set<int>, i: nat, k: nat)
    requires IsRun(states, steps, pool) && i <= |steps| && k < |states[i].taken|
    ensures k < |states[i].takers| && (states[i].taken[k].thread == -1 || states[i].taken[k].thread == states[i].takers[k])
  {
    RunsKeepInv(states, steps, pool, i);
  }

  /** A thread that looks for a task takes the first one that is pinned to it or not pinned, and finds none exactly when
      all tasks are pinned to other threads. */
  lemma LookingTakesTheFirst(s: System, t: int)
    requires At(s, t, AtHead)
    ensures var n := Next(s, Take(t));
            if forall j :: 0 <= j < |s.queue| ==> s.queue[j].thread != -1 && s.queue[j].thread != t
            then At(n, t, FoundNone) && n.queue == s.queue && n.taken == s.taken
            else exists j :: && 0 <= j < |s.queue| && (s.queue[j].thread == -1 || s.queue[j].thread == t)
                             && (forall l :: 0 <= l < j ==> s.queue[l].thread != -1 && s.queue[l].thread != t)
                             && At(n, t, InTask(s.queue[j])) && n.queue == s.queue[..j] + s.queue[j + 1..]
                             && n.taken == s.taken + [s.queue[j]] && n.takers == s.takers + [t]
  {
    var i := FirstEligible(s.queue, t);
    if i < |s.queue| {
      assert forall l :: 0 <= l < i ==> !Eligible(s.queue[l], t);
    }
  }

  /** What is scheduled is queued last, unless there is nothing to run. */
  lemma ScheduledIsLast(s: System, step: Step)
    requires Enabled(s, step) && (step.Spawn? || step.Outside?)
    ensures var n := Next(s, step);
            if step.task.work.Nothing? then n == s
            else n == s.(queue := s.queue + [step.task], added := s.added + [step.task])
  {}

  lemma NobodyBusy(s: System)
    requires Inv(s)
    ensures s.active == 0 <==> forall u <- s.threads :: !s.threads[u].place.InTask?
  {
    Counts(s);
    if forall u <- s.threads :: !s.threads[u].place.InTask? {
      assert Busy(s.threads) == {};
    } else {
      var u :| u in s.threads && s.threads[u].place.InTask?;
      assert u in Busy(s.threads);
    }
  }

  /** An idle fiber ends exactly if it finds that stop was called, no task is queued and no thread runs one. */
  lemma IdleEndsExactly(s: System, t: int)
    requires Inv(s) && At(s, t, InIdle)
    ensures var n := Next(s, IdleCheck(t));
            && At(n, t, AtHead)
            && (n.threads[t].idleDone <==> s.stopRequested && |s.queue| == 0 && forall u <- s.threads :: !s.threads[u].place.InTask?)
  {
    NobodyBusy(s);
  }

  /** When that is so every thread can leave by itself: it finds nothing, its idle fiber ends, it finds nothing again. */
  lemma LeavesWhenStopped(s: System, t: int)
    requires Inv(s) && At(s, t, AtHead) && s.stopRequested && |s.queue| == 0
    requires forall u <- s.threads :: !s.threads[u].place.InTask?
    ensures var s1 := Next(s, Take(t));
            && Enabled(s1, AfterNone(t))
            && var s2 := Next(s1, AfterNone(t));
               At(s2, t, Gone) ||
               (Enabled(s2, IdleCheck(t)) &&
                var s3 := Next(s2, IdleCheck(t));
                Enabled(s3, Take(t)) &&
                var s4 := Next(s3, Take(t));
                Enabled(s4, AfterNone(t)) && At(Next(s4, AfterNone(t)), t, Gone))
  {
    NobodyBusy(s);
  }

  /** In an open system it can: the only thread finds `stopping` true, searches once more in vain, and leaves
      although someone schedules a task between the search and the leaving. */
  lemma OpenSystemLeavesTask(task: Task)
    requires !task.work.Nothing?
    ensures var s0 := Start({1});
            var s1 := Next(s0, Stop);
            var s2 := Next(Next(s1, Take(1)), AfterNone(1));
            var s3 := Next(Next(s2, IdleCheck(1)), Take(1));
            var s4 := Next(Next(s3, Outside(task)), AfterNone(1));
            At(s4, 1, Gone) && s4.queue == [task] && s4.taken == []
  {
    assert Start({1}).threads[1] == Thread(AtHead, false);
  }
}
