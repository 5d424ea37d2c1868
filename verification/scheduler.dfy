/** The task queue of the scheduler and its counts, updated in place. What a method does under the lock is
    proved against the step of the same meaning in SchedulerRuns. */
module Scheduling {
  import opened SchedulerRuns

  /** The first eligible task is the one that a search from the front finds. */
  lemma FirstEligibleIs(queue: seq<Task>, t: int, i: nat)
    requires i <= |queue| && (i < |queue| ==> Eligible(queue[i], t)) && forall j :: 0 <= j < i ==> !Eligible(queue[j], t)
    ensures FirstEligible(queue, t) == i
  {}

  class Scheduler {
    var fibers: seq<Task>
    var activeThreadCount: nat
    var idleThreadCount: nat
    var stopRequested: bool

    constructor ()
      ensures fibers == [] && activeThreadCount == 0 && idleThreadCount == 0 && !stopRequested
    {
      fibers, activeThreadCount, idleThreadCount, stopRequested := [], 0, 0, false;
    }

    /** Appends a task unless there is nothing to run; the answer is whether the queue was empty before. */
    method SchedulerNoLock(work: Work, thread: int) returns (needTickle: bool)
      modifies this`fibers
      ensures needTickle <==> old(fibers) == []
      ensures fibers == Enqueue(old(fibers), Task(work, thread))
      ensures fibers == if work.Nothing? then old(fibers) else old(fibers) + [Task(work, thread)]
    {
      needTickle := fibers == [];
      var task := Task(work, thread);
      if !task.work.Nothing? {
        fibers := fibers + [task];
      }
    }

    /** The search of the queue in `run`, for thread `t`: takes out the first task that the thread may run. The
        other threads are to be told exactly when tasks remain. */
    method TakeTask(t: int) returns (task: Task, tickleMe: bool)
      requires forall x <- fibers :: !x.work.Nothing?
      modifies this`fibers, this`activeThreadCount
      ensures var i := FirstEligible(old(fibers), t);
              if i == |old(fibers)| then task.work.Nothing? && fibers == old(fibers) && activeThreadCount == old(activeThreadCount)
              else task == old(fibers)[i] && fibers == Without(old(fibers), i) && activeThreadCount == old(activeThreadCount) + 1
      ensures if forall j :: 0 <= j < |old(fibers)| ==> old(fibers)[j].thread != -1 && old(fibers)[j].thread != t
              then task.work.Nothing? && fibers == old(fibers)
              else exists j :: && 0 <= j < |old(fibers)| && (old(fibers)[j].thread == -1 || old(fibers)[j].thread == t)
                               && (forall l :: 0 <= l < j ==> old(fibers)[l].thread != -1 && old(fibers)[l].thread != t)
                               && task == old(fibers)[j] && fibers == old(fibers)[..j] + old(fibers)[j + 1..]
      ensures tickleMe <==> fibers != []
      ensures forall x <- fibers :: !x.work.Nothing?
    {
      task := Task(Nothing, ANY_THREAD);
      tickleMe := false;
      var it := 0;
      var left := |fibers|;
      while it < |fibers|
        invariant 0 <= it <= |fibers| && fibers == old(fibers) && activeThreadCount == old(activeThreadCount)
        invariant forall j :: 0 <= j < it ==> !Eligible(fibers[j], t)
        invariant tickleMe <==> it > 0
        invariant left == |fibers| && task.work.Nothing?
      {
        if fibers[it].thread != ANY_THREAD && fibers[it].thread != t {
          it := it + 1;
          tickleMe := true;
          continue;
        }
        task := fibers[it];
        FirstEligibleIs(fibers, t, it);
        fibers := Without(fibers, it);
        activeThreadCount := activeThreadCount + 1;
        left := |fibers|;
        break;
      }
      if task.work.Nothing? {
        FirstEligibleIs(fibers, t, |fibers|);
      }
      tickleMe := tickleMe || it != left;
    }

    /** The task has yielded or ended. */
    method FinishTask()
      requires activeThreadCount > 0
      modifies this`activeThreadCount
      ensures activeThreadCount == old(activeThreadCount) - 1
    {
      activeThreadCount := activeThreadCount - 1;
    }

    method IsStopping() returns (r: bool)
      ensures r <==> stopRequested && fibers == [] && activeThreadCount == 0
    {
      r := stopRequested && fibers == [] && activeThreadCount == 0;
    }
  }
}
