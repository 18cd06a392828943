/** What every step of the build queue keeps: permits, builds and their executions, and wake-ups. */
module BuildQueueInvariant {
  import opened Wrappers
  import opened Counting
  import opened BuildQueue

  // ---- Permits ----

  function LoopPermit(loop: Loop): nat { if loop == Idle || loop == Waiting then 0 else 1 }

  function TaskPermit(task: Task): nat { if task.phase == Released then 0 else 1 }

  function OtherPermit(other: OtherPhase): nat { if other == OtherHolding then 1 else 0 }

  function Permits(s: State): nat {
    LoopPermit(s.loop) + Total(s.tasks, TaskPermit) + Total(s.others, OtherPermit)
  }

  predicate Distinct(waiters: seq<Waiter>) {
    forall i, j | 0 <= i < j < |waiters| :: waiters[i] != waiters[j]
  }

  /** Waiters are waiting, once each, and only when no permit is free. */
  ghost predicate WaitersExact(s: State) {
    && Distinct(s.sem.waiters)
    && s.sem.count <= s.sem.max && (s.sem.waiters != [] ==> s.sem.count == s.sem.max)
    && (ForLoop in s.sem.waiters <==> s.loop == Waiting)
    && (forall i: nat :: ForOther(i) in s.sem.waiters <==> i < |s.others| && s.others[i] == OtherWaiting)
  }

  predicate PermitsExact(s: State, loose: nat) {
    s.sem.count == Permits(s) + loose <= s.sem.max
  }

  lemma CallLoopKeepsWaiters(s: State)
    requires WaitersExact(s)
    ensures WaitersExact(CallLoop(s))
  {
    hide Total;
    var t := CallLoop(s);
    if t.loop == Waiting && s.loop == Idle {
      assert ForLoop in t.sem.waiters;
    }
  }

  lemma CallLoopKeepsPermits(s: State)
    requires PermitsExact(s, 0)
    ensures PermitsExact(CallLoop(s), 0)
  {
    hide Total;
  }

  lemma OtherAcquireKeepsWaiters(s: State)
    requires WaitersExact(s)
    ensures WaitersExact(OtherAcquire(s))
  {
  }

  lemma PopHead(waiters: seq<Waiter>, x: Waiter)
    requires Distinct(waiters) && waiters != []
    ensures Distinct(waiters[1..]) && (x in waiters[1..] <==> x in waiters && x != waiters[0])
  {
    if x in waiters && x != waiters[0] {
      var i :| 0 <= i < |waiters| && waiters[i] == x;
      assert waiters[1..][i - 1] == x;
    }
  }

  lemma ReleaseKeepsWaiters(s: State)
    requires WaitersExact(s)
    ensures WaitersExact(ReleasePermit(s))
  {
    if s.sem.waiters != [] {
      var t := ReleasePermit(s);
      PopHead(s.sem.waiters, ForLoop);
      forall i: nat ensures ForOther(i) in t.sem.waiters <==> i < |t.others| && t.others[i] == OtherWaiting {
        PopHead(s.sem.waiters, ForOther(i));
      }
    }
  }

  lemma ReleaseKeepsPermits(s: State)
    requires PermitsExact(s, 1) && WaitersExact(s)
    ensures PermitsExact(ReleasePermit(s), 0)
  {
    hide Total;
    if s.sem.waiters != [] && s.sem.waiters[0].ForOther? {
      var i := s.sem.waiters[0].other;
      assert s.sem.waiters[0] in s.sem.waiters;
      TotalOfUpdate(s.others, i, OtherHolding, OtherPermit);
    }
  }

  lemma OtherDoneKeepsWaiters(s: State, k: nat)
    requires WaitersExact(s) && k < |s.others| && s.others[k] == OtherHolding
    ensures WaitersExact(s.(others := s.others[k := OtherDone]))
  {
    var t := s.(others := s.others[k := OtherDone]);
    forall i: nat ensures ForOther(i) in t.sem.waiters <==> i < |t.others| && t.others[i] == OtherWaiting {
      assert ForOther(i) in s.sem.waiters <==> i < |s.others| && s.others[i] == OtherWaiting;
    }
  }

  lemma StepKeepsWaiters(s: State, e: Event)
    requires WaitersExact(s) && Enabled(s, e)
    ensures WaitersExact(Apply(s, e))
  {
    hide ReleasePermit, CallLoop, Answers;
    match e {
      case Wake => CallLoopKeepsWaiters(s.(wakes := s.wakes - 1));
      case Recall(t) => CallLoopKeepsWaiters(SetTask(s, t, s.tasks[t].(phase := Recalled)));
      case EndEmpty => ReleaseKeepsWaiters(s.(loop := Idle));
      case LoopFails => ReleaseKeepsWaiters(s.(loop := Idle, dropped := true));
      case ReleaseTask(t) => ReleaseKeepsWaiters(SetTask(s, t, s.tasks[t].(phase := Released)));
      case OtherAcquires => OtherAcquireKeepsWaiters(s);
      case OtherReleases(i) =>
        OtherDoneKeepsWaiters(s, i);
        ReleaseKeepsWaiters(s.(others := s.others[i := OtherDone]));
      case _ =>
    }
  }

  lemma StepKeepsPermits(s: State, e: Event)
    requires PermitsExact(s, 0) && WaitersExact(s) && Enabled(s, e)
    ensures PermitsExact(Apply(s, e), 0)
  {
    hide ReleasePermit, CallLoop, Answers, Total;
    match e {
      case Wake => CallLoopKeepsPermits(s.(wakes := s.wakes - 1));
      case Recall(t) =>
        TotalOfUpdate(s.tasks, t, s.tasks[t].(phase := Recalled), TaskPermit);
        CallLoopKeepsPermits(SetTask(s, t, s.tasks[t].(phase := Recalled)));
      case EndEmpty => ReleaseKeepsPermits(s.(loop := Idle));
      case LoopFails => ReleaseKeepsPermits(s.(loop := Idle, dropped := true));
      case Dispatch => TotalOfAppend(s.tasks, Task(s.loop.build, Scheduled, false), TaskPermit);
      case StartTask(t) => TotalOfUpdate(s.tasks, t, s.tasks[t].(phase := Executing), TaskPermit);
      case UpdateRow(t, result) =>
        TotalOfUpdate(s.tasks, t, s.tasks[t].(phase := Updated, recorded := result.Some?), TaskPermit);
      case ReleaseTask(t) =>
        TotalOfUpdate(s.tasks, t, s.tasks[t].(phase := Released), TaskPermit);
        ReleaseKeepsPermits(SetTask(s, t, s.tasks[t].(phase := Released)));
      case OtherAcquires =>
        TotalOfAppend(s.others, OtherHolding, OtherPermit);
        TotalOfAppend(s.others, OtherWaiting, OtherPermit);
      case OtherReleases(i) =>
        TotalOfUpdate(s.others, i, OtherDone, OtherPermit);
        OtherDoneKeepsWaiters(s, i);
        ReleaseKeepsPermits(s.(others := s.others[i := OtherDone]));
      case _ =>
    }
  }

  // ---- Builds and their executions ----

  /** An execution's build has left the queue, and stays `building` until the execution has updated the row. */
  predicate TasksMatchBuilds(builds: seq<Build>, tasks: seq<Task>) {
    && (forall t | 0 <= t < |tasks| ::
          && tasks[t].build < |builds|
          && (if tasks[t].phase in {Scheduled, Executing} || !tasks[t].recorded
              then builds[tasks[t].build].state == Building
              else builds[tasks[t].build].state in {Ready, Failed, Deleted}))
    && (forall t, u | 0 <= t < u < |tasks| :: tasks[t].build != tasks[u].build)
  }

  predicate NoTaskOf(tasks: seq<Task>, b: nat) {
    forall t | 0 <= t < |tasks| :: tasks[t].build != b
  }

  /** What the loop holds; a build that left the queue is in the hands of the loop or of an execution. */
  predicate LoopMatches(loop: Loop, builds: seq<Build>, tasks: seq<Task>) {
    && (loop.Picked? ==> IsQueued(builds, loop.build))
    && (loop.Marked? ==> loop.build < |builds| && builds[loop.build].state == Building && NoTaskOf(tasks, loop.build))
    && (forall b | 0 <= b < |builds| && builds[b].state != Queued :: loop == Marked(b) || !NoTaskOf(tasks, b))
  }

  /** The loop is going to read the queue again, or has a build whose execution will call it. */
  predicate LoopIsBusy(loop: Loop) { loop != Idle && loop != FoundNone }

  predicate WillRecall(tasks: seq<Task>) {
    exists t :: 0 <= t < |tasks| && tasks[t].phase in {Scheduled, Executing, Updated}
  }

  predicate AnyQueued(builds: seq<Build>) {
    exists b :: 0 <= b < |builds| && IsQueued(builds, b)
  }

  /** Nothing queued is forgotten, unless the last run of the loop was dropped. */
  predicate Covered(s: State) {
    AnyQueued(s.builds) ==>
      LoopIsBusy(s.loop) || s.inserted > 0 || s.wakes > 0 || WillRecall(s.tasks) || s.dropped
  }

  ghost predicate Inv(s: State) {
    && WaitersExact(s) && PermitsExact(s, 0)
    && TasksMatchBuilds(s.builds, s.tasks) && LoopMatches(s.loop, s.builds, s.tasks)
    && Covered(s)
  }

  /** Release and CallLoop leave builds and executions alone, and touch the loop only between two of its runs. */
  predicate SemaphoreStep(s: State, t: State) {
    && t.builds == s.builds && t.tasks == s.tasks && t.wakes == s.wakes && t.inserted == s.inserted
    && (t.loop == s.loop || (s.loop in {Idle, Waiting} && t.loop in {Waiting, Permitted}))
  }

  lemma ReleaseIsSemaphoreStep(s: State)
    requires WaitersExact(s)
    ensures SemaphoreStep(s, ReleasePermit(s)) && ReleasePermit(s).dropped == s.dropped
  {
    if s.sem.waiters != [] { assert s.sem.waiters[0] in s.sem.waiters; }
  }

  lemma CallIsSemaphoreStep(s: State)
    ensures SemaphoreStep(s, CallLoop(s))
    ensures CallLoop(s).loop != Idle && (CallLoop(s).loop == FoundNone ==> CallLoop(s).dropped)
  {
  }

  lemma SemaphoreStepKeepsLoop(s: State, t: State)
    requires SemaphoreStep(s, t) && LoopMatches(s.loop, s.builds, s.tasks)
    ensures LoopMatches(t.loop, t.builds, t.tasks)
  {
  }

  function Recorded(builds: seq<Build>, b: nat, state: BuildState): seq<Build>
    requires b < |builds|
  {
    builds[b := builds[b].(state := state)]
  }

  /** An execution moves on; its row is updated on the way from Executing to Updated. */
  lemma TaskMoves(builds: seq<Build>, tasks: seq<Task>, t: nat, task: Task, state: BuildState)
    requires TasksMatchBuilds(builds, tasks) && t < |tasks| && task.build == tasks[t].build
    requires
      if task.phase in {Scheduled, Executing} || !task.recorded then state == Building
      else state in {Ready, Failed, Deleted}
    ensures TasksMatchBuilds(Recorded(builds, task.build, state), tasks[t := task])
  {
    var moved := tasks[t := task];
    assert forall u | 0 <= u < |tasks| && u != t :: moved[u] == tasks[u] && tasks[u].build != task.build;
  }

  lemma SameOwners(tasks: seq<Task>, t: nat, task: Task)
    requires t < |tasks| && task.build == tasks[t].build
    ensures forall b: nat :: NoTaskOf(tasks[t := task], b) == NoTaskOf(tasks, b)
  {
    var moved := tasks[t := task];
    assert forall u | 0 <= u < |tasks| :: moved[u].build == tasks[u].build;
    forall b: nat ensures NoTaskOf(moved, b) == NoTaskOf(tasks, b) {
      if u :| 0 <= u < |tasks| && tasks[u].build == b { assert moved[u].build == b; }
    }
  }

  /** The loop's facts when an execution moves on: its build is no build of the loop. */
  lemma LoopKeptWhenTaskMoves(loop: Loop, builds: seq<Build>, tasks: seq<Task>, t: nat, task: Task, state: BuildState)
    requires TasksMatchBuilds(builds, tasks) && LoopMatches(loop, builds, tasks)
    requires t < |tasks| && task.build == tasks[t].build
    requires builds[task.build].state != Queued && state != Queued
    ensures LoopMatches(loop, Recorded(builds, task.build, state), tasks[t := task])
  {
    SameOwners(tasks, t, task);
    assert !NoTaskOf(tasks, task.build);
  }

  lemma DispatchKeeps(builds: seq<Build>, tasks: seq<Task>, b: nat)
    requires TasksMatchBuilds(builds, tasks) && LoopMatches(Marked(b), builds, tasks)
    ensures TasksMatchBuilds(builds, tasks + [Task(b, Scheduled, false)])
    ensures LoopMatches(Idle, builds, tasks + [Task(b, Scheduled, false)])
  {
    var more := tasks + [Task(b, Scheduled, false)];
    assert more[|tasks|].build == b;
    forall c | 0 <= c < |builds| && builds[c].state != Queued ensures !NoTaskOf(more, c) {
      if c != b {
        var t :| 0 <= t < |tasks| && tasks[t].build == c;
        assert more[t].build == c;
      }
    }
  }

  lemma MarkKeeps(builds: seq<Build>, tasks: seq<Task>, b: nat)
    requires TasksMatchBuilds(builds, tasks) && LoopMatches(Picked(b), builds, tasks)
    ensures TasksMatchBuilds(builds[b := builds[b].(state := Building)], tasks)
    ensures LoopMatches(Marked(b), builds[b := builds[b].(state := Building)], tasks)
  {
    assert NoTaskOf(tasks, b);
  }

  lemma InsertKeeps(loop: Loop, builds: seq<Build>, tasks: seq<Task>, createdAt: int)
    requires TasksMatchBuilds(builds, tasks) && LoopMatches(loop, builds, tasks)
    ensures TasksMatchBuilds(builds + [Build(Queued, createdAt)], tasks)
    ensures LoopMatches(loop, builds + [Build(Queued, createdAt)], tasks)
  {
  }

  lemma DeleteKeeps(loop: Loop, builds: seq<Build>, tasks: seq<Task>, b: nat)
    requires TasksMatchBuilds(builds, tasks) && LoopMatches(loop, builds, tasks)
    requires b < |builds| && builds[b].state in {Ready, Failed}
    ensures TasksMatchBuilds(builds[b := builds[b].(state := Deleted)], tasks)
    ensures LoopMatches(loop, builds[b := builds[b].(state := Deleted)], tasks)
  {
  }

  ghost predicate BuildsInv(s: State) {
    WaitersExact(s) && TasksMatchBuilds(s.builds, s.tasks) && LoopMatches(s.loop, s.builds, s.tasks)
  }

  /** A task step followed by nothing, a call of the loop or a release. */
  lemma TaskStepKeeps(s: State, t: nat, task: Task, state: BuildState)
    requires BuildsInv(s) && t < |s.tasks| && task.build == s.tasks[t].build
    requires s.builds[task.build].state != Queued && state != Queued
    requires
      if task.phase in {Scheduled, Executing} || !task.recorded then state == Building
      else state in {Ready, Failed, Deleted}
    ensures BuildsInv(s.(builds := Recorded(s.builds, task.build, state), tasks := s.tasks[t := task]))
  {
    TaskMoves(s.builds, s.tasks, t, task, state);
    LoopKeptWhenTaskMoves(s.loop, s.builds, s.tasks, t, task, state);
    hide TasksMatchBuilds, LoopMatches;
  }

  lemma CallKeepsBuilds(s: State)
    requires BuildsInv(s)
    ensures BuildsInv(CallLoop(s))
  {
    CallLoopKeepsWaiters(s);
    CallIsSemaphoreStep(s);
    SemaphoreStepKeepsLoop(s, CallLoop(s));
    hide CallLoop, WaitersExact, TasksMatchBuilds, LoopMatches;
  }

  lemma ReleaseKeepsBuilds(s: State)
    requires BuildsInv(s)
    ensures BuildsInv(ReleasePermit(s))
  {
    ReleaseKeepsWaiters(s);
    ReleaseIsSemaphoreStep(s);
    SemaphoreStepKeepsLoop(s, ReleasePermit(s));
    hide ReleasePermit, WaitersExact, TasksMatchBuilds, LoopMatches;
  }

  lemma TaskEventKeepsBuilds(s: State, e: Event)
    requires BuildsInv(s) && Enabled(s, e) && (e.StartTask? || e.UpdateRow? || e.Recall? || e.ReleaseTask?)
    ensures BuildsInv(Apply(s, e))
  {
    hide ReleasePermit, CallLoop, WaitersExact, LoopMatches;
    var t := e.task;
    var b := s.tasks[t].build;
    var same := s.builds[b].state;
    assert Recorded(s.builds, b, same) == s.builds;
    match e {
      case StartTask(_) => TaskStepKeeps(s, t, s.tasks[t].(phase := Executing), same);
      case UpdateRow(_, result) =>
        TaskStepKeeps(s, t, s.tasks[t].(phase := Updated, recorded := result.Some?),
                      if result.None? then same else if result.value then Ready else Failed);
      case Recall(_) =>
        TaskStepKeeps(s, t, s.tasks[t].(phase := Recalled), same);
        CallKeepsBuilds(SetTask(s, t, s.tasks[t].(phase := Recalled)));
      case ReleaseTask(_) =>
        TaskStepKeeps(s, t, s.tasks[t].(phase := Released), same);
        ReleaseKeepsBuilds(SetTask(s, t, s.tasks[t].(phase := Released)));
    }
  }

  lemma OtherEventKeepsBuilds(s: State, e: Event)
    requires BuildsInv(s) && Enabled(s, e) && !(e.StartTask? || e.UpdateRow? || e.Recall? || e.ReleaseTask?)
    ensures BuildsInv(Apply(s, e))
  {
    StepKeepsWaiters(s, e);
    hide ReleasePermit, CallLoop, WaitersExact, TasksMatchBuilds, NoTaskOf;
    match e {
      case Insert(createdAt) => InsertKeeps(s.loop, s.builds, s.tasks, createdAt);
      case Wake => CallKeepsBuilds(s.(wakes := s.wakes - 1));
      case EndEmpty => ReleaseKeepsBuilds(s.(loop := Idle));
      case LoopFails => ReleaseKeepsBuilds(s.(loop := Idle, dropped := true));
      case Mark => MarkKeeps(s.builds, s.tasks, s.loop.build);
      case Dispatch => DispatchKeeps(s.builds, s.tasks, s.loop.build);
      case DeleteRow(b) => DeleteKeeps(s.loop, s.builds, s.tasks, b);
      case OtherReleases(i) =>
        OtherDoneKeepsWaiters(s, i);
        ReleaseKeepsBuilds(s.(others := s.others[i := OtherDone]));
      case _ =>
    }
  }

  lemma RecallersStay(tasks: seq<Task>, k: nat, task: Task)
    requires k < |tasks| && tasks[k].phase == Recalled
    ensures WillRecall(tasks) ==> WillRecall(tasks[k := task])
  {
    if t :| 0 <= t < |tasks| && tasks[t].phase in {Scheduled, Executing, Updated} {
      assert tasks[k := task][t] == tasks[t];
    }
  }

  lemma TaskEventKeepsCovered(s: State, e: Event)
    requires Inv(s) && Enabled(s, e) && (e.Dispatch? || e.StartTask? || e.UpdateRow? || e.Recall? || e.ReleaseTask?)
    ensures Covered(Apply(s, e))
  {
    hide PermitsExact, TasksMatchBuilds, LoopMatches, Total;
    var t := Apply(s, e);
    match e {
      case Recall(k) => CallIsSemaphoreStep(SetTask(s, k, s.tasks[k].(phase := Recalled)));
      case Dispatch => assert WillRecall(t.tasks) by { assert t.tasks[|s.tasks|].phase == Scheduled; }
      case StartTask(k) => assert WillRecall(t.tasks) by { assert t.tasks[k].phase == Executing; }
      case UpdateRow(k, _) => assert WillRecall(t.tasks) by { assert t.tasks[k].phase == Updated; }
      case ReleaseTask(k) =>
        var u := SetTask(s, k, s.tasks[k].(phase := Released));
        RecallersStay(s.tasks, k, u.tasks[k]);
        ReleaseIsSemaphoreStep(u);
    }
  }

  lemma OtherEventKeepsCovered(s: State, e: Event)
    requires Inv(s) && Enabled(s, e) && !(e.Dispatch? || e.StartTask? || e.UpdateRow? || e.Recall? || e.ReleaseTask?)
    ensures Covered(Apply(s, e))
  {
    hide PermitsExact, TasksMatchBuilds, LoopMatches, Total;
    var t := Apply(s, e);
    match e {
      case Wake => CallIsSemaphoreStep(s.(wakes := s.wakes - 1));
      case EndEmpty => ReleaseIsSemaphoreStep(s.(loop := Idle));
      case LoopFails => ReleaseIsSemaphoreStep(s.(loop := Idle, dropped := true));
      case OtherReleases(i) =>
        OtherDoneKeepsWaiters(s, i);
        ReleaseIsSemaphoreStep(s.(others := s.others[i := OtherDone]));
      case DeleteRow(b) =>
        assert forall c: nat | IsQueued(t.builds, c) :: IsQueued(s.builds, c);
      case _ =>
    }
  }

  /** Every step of every interleaving keeps the invariant. */
  lemma StepKeepsInv(s: State, e: Event)
    requires Inv(s) && Enabled(s, e)
    ensures Inv(Apply(s, e))
  {
    StepKeepsPermits(s, e);
    if e.Dispatch? || e.StartTask? || e.UpdateRow? || e.Recall? || e.ReleaseTask? {
      TaskEventKeepsCovered(s, e);
    } else {
      OtherEventKeepsCovered(s, e);
    }
    if e.StartTask? || e.UpdateRow? || e.Recall? || e.ReleaseTask? {
      TaskEventKeepsBuilds(s, e);
    } else {
      OtherEventKeepsBuilds(s, e);
    }
    hide WaitersExact, PermitsExact, TasksMatchBuilds, LoopMatches, Covered, Enabled, Apply;
  }
}
