/**
 * The semaphore of CustomImageService.js, and the state of AgentBoxImageService.js that the build queue works on: one
 * method for each step of the machine.
 */
module AgentImageBuilds {
  import opened Wrappers
  import opened BuildQueue
  import opened BuildQueueInvariant

  /** The semaphore of CustomImageService.js. */
  class Semaphore {
    const max: nat
    var count: nat
    var queue: seq<Waiter>

    constructor (max: nat)
      ensures this.max == max && count == 0 && queue == []
    {
      this.max, count, queue := max, 0, [];
    }

    ghost function Snapshot(): Sem
      reads this
    {
      Sem(max, count, queue)
    }

    method Acquire(waiter: Waiter) returns (granted: bool)
      modifies this
      ensures granted == (old(count) < max)
      ensures granted ==> count == old(count) + 1 && queue == old(queue)
      ensures !granted ==> count == old(count) && queue == old(queue) + [waiter]
    {
      granted := count < max;
      if granted {
        count := count + 1;
      } else {
        queue := queue + [waiter];
      }
    }

    /** The promise of the first waiter is resolved, if there is one. */
    method Release() returns (next: Option<Waiter>)
      modifies this
      ensures old(queue) != [] ==> next == Some(old(queue)[0]) && queue == old(queue)[1..] && count == old(count)
      ensures old(queue) == [] ==>
        next == None && queue == [] && count == if old(count) > 0 then old(count) - 1 else 0
    {
      if |queue| > 0 {
        next := Some(queue[0]);
        queue := queue[1..];
      } else {
        next := None;
        count := if count - 1 > 0 then count - 1 else 0;
      }
    }
  }

  datatype Answer = Done | NotFound | Refused

  /** The rows, the loop flag and the promises of AgentBoxImageService.js. */
  class ImageBuildQueue {
    const globalSemaphore: Semaphore
    var agentBuildLoopRunning: bool
    var loop: Loop
    var builds: seq<Build>
    var inserted: nat
    var wakes: nat
    var tasks: seq<Task>
    var others: seq<OtherPhase>
    ghost var dropped: bool

    ghost function Snapshot(): State
      reads this, globalSemaphore
    {
      State(globalSemaphore.Snapshot(), loop, builds, inserted, wakes, tasks, others, dropped)
    }

    ghost predicate FlagMatches()
      reads this
    {
      agentBuildLoopRunning <==> loop != Idle
    }

    ghost predicate Valid()
      reads this, globalSemaphore
    {
      FlagMatches() && Inv(Snapshot())
    }

    constructor (max: nat)
      ensures Valid() && Snapshot() == Initial(max) && fresh(globalSemaphore)
    {
      globalSemaphore := new Semaphore(max);
      agentBuildLoopRunning, loop, builds, inserted, wakes := false, Idle, [], 0, 0;
      tasks, others, dropped := [], [], false;
    }

    /** processAgentBuildQueue up to its first await. */
    method ProcessAgentBuildQueue()
      requires FlagMatches()
      modifies this, globalSemaphore
      ensures FlagMatches() && Snapshot() == CallLoop(old(Snapshot()))
    {
      if agentBuildLoopRunning {
        dropped := dropped || loop == FoundNone;
        return;
      }
      agentBuildLoopRunning, dropped := true, false;
      var granted := globalSemaphore.Acquire(ForLoop);
      loop := if granted then Permitted else Waiting;
    }

    /** globalSemaphore.release(), and the effect on the waiter it resolves. */
    method ReleaseGlobal()
      requires FlagMatches()
      requires globalSemaphore.queue != [] && globalSemaphore.queue[0] == ForLoop ==> agentBuildLoopRunning
      modifies this, globalSemaphore
      ensures FlagMatches() && Snapshot() == ReleasePermit(old(Snapshot()))
    {
      var next := globalSemaphore.Release();
      match next
      case Some(ForLoop) => loop := Permitted;
      case Some(ForOther(i)) => if i < |others| { others := others[i := OtherHolding]; }
      case None =>
    }

    /** buildImage: the row is inserted as queued. */
    method BuildImage(now: int) returns (build: nat)
      requires Valid()
      modifies this
      ensures Valid() && Snapshot() == Apply(old(Snapshot()), Insert(now)) && build == old(|builds|)
    {
      StepKeepsInv(Snapshot(), Insert(now));
      hide Inv, CallLoop, ReleasePermit, OtherAcquire, Answers;
      build := |builds|;
      builds := builds + [Build(Queued, now)];
      inserted := inserted + 1;
    }

    /** The continuation of the insert: setImmediate. */
    method ScheduleCall()
      requires Valid() && Enabled(Snapshot(), ScheduleWake)
      modifies this
      ensures Valid() && Snapshot() == Apply(old(Snapshot()), ScheduleWake)
    {
      StepKeepsInv(Snapshot(), ScheduleWake);
      hide Inv, CallLoop, ReleasePermit, OtherAcquire, Answers;
      inserted, wakes := inserted - 1, wakes + 1;
    }

    method RunImmediate()
      requires Valid() && Enabled(Snapshot(), Wake)
      modifies this, globalSemaphore
      ensures Valid() && Snapshot() == Apply(old(Snapshot()), Wake)
    {
      StepKeepsInv(Snapshot(), Wake);
      hide Inv, CallLoop, ReleasePermit, OtherAcquire, Answers;
      wakes := wakes - 1;
      ProcessAgentBuildQueue();
    }

    /** The database answers the loop's query. */
    method ReceiveQueued(pick: Option<nat>)
      requires Valid() && Enabled(Snapshot(), ReadQueue(pick))
      modifies this
      ensures Valid() && Snapshot() == Apply(old(Snapshot()), ReadQueue(pick))
    {
      StepKeepsInv(Snapshot(), ReadQueue(pick));
      hide Inv, CallLoop, ReleasePermit, OtherAcquire, Answers;
      loop := if pick.Some? then Picked(pick.value) else FoundNone;
    }

    method EndEmptyRun()
      requires Valid() && Enabled(Snapshot(), EndEmpty)
      modifies this, globalSemaphore
      ensures Valid() && Snapshot() == Apply(old(Snapshot()), EndEmpty)
    {
      StepKeepsInv(Snapshot(), EndEmpty);
      LoopIsNoWaiter(Snapshot());
      hide Inv, CallLoop, ReleasePermit, OtherAcquire, Answers, WaitersExact;
      agentBuildLoopRunning, loop := false, Idle;
      ReleaseGlobal();
    }

    /** The catch branch. */
    method FailRun()
      requires Valid() && Enabled(Snapshot(), LoopFails)
      modifies this, globalSemaphore
      ensures Valid() && Snapshot() == Apply(old(Snapshot()), LoopFails)
    {
      StepKeepsInv(Snapshot(), LoopFails);
      LoopIsNoWaiter(Snapshot());
      hide Inv, CallLoop, ReleasePermit, OtherAcquire, Answers, WaitersExact;
      agentBuildLoopRunning, loop, dropped := false, Idle, true;
      ReleaseGlobal();
    }

    method MarkBuilding()
      requires Valid() && Enabled(Snapshot(), Mark)
      modifies this
      ensures Valid() && Snapshot() == Apply(old(Snapshot()), Mark)
    {
      StepKeepsInv(Snapshot(), Mark);
      hide Inv, CallLoop, ReleasePermit, OtherAcquire, Answers;
      var b := loop.build;
      builds := builds[b := builds[b].(state := Building)];
      loop := Marked(b);
    }

    method DispatchExecution() returns (task: nat)
      requires Valid() && Enabled(Snapshot(), Dispatch)
      modifies this
      ensures Valid() && Snapshot() == Apply(old(Snapshot()), Dispatch) && task == old(|tasks|)
    {
      StepKeepsInv(Snapshot(), Dispatch);
      hide Inv, CallLoop, ReleasePermit, OtherAcquire, Answers;
      task := |tasks|;
      tasks := tasks + [Task(loop.build, Scheduled, false)];
      agentBuildLoopRunning, loop := false, Idle;
    }

    method StartExecution(task: nat)
      requires Valid() && Enabled(Snapshot(), StartTask(task))
      modifies this
      ensures Valid() && Snapshot() == Apply(old(Snapshot()), StartTask(task))
    {
      StepKeepsInv(Snapshot(), StartTask(task));
      hide Inv, CallLoop, ReleasePermit, OtherAcquire, Answers;
      tasks := tasks[task := tasks[task].(phase := Executing)];
    }

    /** The update to ready or failed; None when both the ready and the failed update fail. */
    method UpdateBuildRow(task: nat, result: Option<bool>)
      requires Valid() && Enabled(Snapshot(), UpdateRow(task, result))
      modifies this
      ensures Valid() && Snapshot() == Apply(old(Snapshot()), UpdateRow(task, result))
    {
      StepKeepsInv(Snapshot(), UpdateRow(task, result));
      hide Inv, CallLoop, ReleasePermit, OtherAcquire, Answers;
      var b := tasks[task].build;
      if result.Some? {
        builds := builds[b := builds[b].(state := if result.value then Ready else Failed)];
      }
      tasks := tasks[task := tasks[task].(phase := Updated, recorded := result.Some?)];
    }

    method CallLoopAgain(task: nat)
      requires Valid() && Enabled(Snapshot(), Recall(task))
      modifies this, globalSemaphore
      ensures Valid() && Snapshot() == Apply(old(Snapshot()), Recall(task))
    {
      StepKeepsInv(Snapshot(), Recall(task));
      hide Inv, CallLoop, ReleasePermit, OtherAcquire, Answers;
      tasks := tasks[task := tasks[task].(phase := Recalled)];
      ProcessAgentBuildQueue();
    }

    method FinishExecution(task: nat)
      requires Valid() && Enabled(Snapshot(), ReleaseTask(task))
      modifies this, globalSemaphore
      ensures Valid() && Snapshot() == Apply(old(Snapshot()), ReleaseTask(task))
    {
      StepKeepsInv(Snapshot(), ReleaseTask(task));
      LoopIsNoWaiter(Snapshot());
      hide Inv, CallLoop, ReleasePermit, OtherAcquire, Answers, WaitersExact;
      tasks := tasks[task := tasks[task].(phase := Released)];
      ReleaseGlobal();
    }

    /** Only failed builds can be retried, as a new build. */
    method RetryBuild(build: nat, now: int) returns (answer: Answer)
      requires Valid()
      modifies this
      ensures Valid()
      ensures answer == Done <==> build < old(|builds|) && old(builds[build].state) == Failed
      ensures answer == NotFound <==> build >= old(|builds|) || old(builds[build].state) == Deleted
      ensures Snapshot() == if answer == Done then Apply(old(Snapshot()), Insert(now)) else old(Snapshot())
    {
      hide Inv, CallLoop, ReleasePermit, OtherAcquire, Answers;
      if build >= |builds| || builds[build].state == Deleted { return NotFound; }
      if builds[build].state != Failed { return Refused; }
      var _ := BuildImage(now);
      answer := Done;
    }

    /** A build that is queued or in progress cannot be deleted. */
    method DeleteBuild(build: nat) returns (answer: Answer)
      requires Valid()
      modifies this
      ensures Valid()
      ensures answer == Done <==> build < old(|builds|) && old(builds[build].state) in {Ready, Failed}
      ensures answer == NotFound <==> build >= old(|builds|) || old(builds[build].state) == Deleted
      ensures answer == Done ==>
        Enabled(old(Snapshot()), DeleteRow(build)) && Snapshot() == Apply(old(Snapshot()), DeleteRow(build))
      ensures answer != Done ==> Snapshot() == old(Snapshot())
    {
      if build >= |builds| || builds[build].state == Deleted { return NotFound; }
      if builds[build].state == Building || builds[build].state == Queued { return Refused; }
      StepKeepsInv(Snapshot(), DeleteRow(build));
      hide Inv, CallLoop, ReleasePermit, OtherAcquire, Answers;
      builds := builds[build := builds[build].(state := Deleted)];
      answer := Done;
    }
  }

  lemma LoopIsNoWaiter(s: State)
    requires WaitersExact(s)
    ensures s.sem.waiters != [] && s.sem.waiters[0] == ForLoop ==> s.loop == Waiting
  {
    assert s.sem.waiters != [] ==> s.sem.waiters[0] in s.sem.waiters;
  }
}
