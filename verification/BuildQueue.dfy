/** The agent image build queue of AgentBoxImageService.js as a step machine. */
module BuildQueue {
  // The steps are database statements, the loop that takes one queued build at a time, the executions it starts, and
  // the semaphore it shares with custom image builds.

  import opened Wrappers

  datatype BuildState = Queued | Building | Ready | Failed | Deleted

  datatype Build = Build(state: BuildState, createdAt: int)

  /**
   * One run of processAgentBuildQueue, where agentBuildLoopRunning is false just in Idle: waiting for a permit,
   * holding one before the read, holding the answer of the read, and after the update to `building`.
   */
  datatype Loop = Idle | Waiting | Permitted | FoundNone | Picked(build: nat) | Marked(build: nat)

  /** One call of executeAgentBuild: the row is updated, then the loop is called, then the permit is released. */
  datatype TaskPhase = Scheduled | Executing | Updated | Recalled | Released

  /** `recorded` is false while no update of the row succeeded. */
  datatype Task = Task(build: nat, phase: TaskPhase, recorded: bool)

  datatype OtherPhase = OtherWaiting | OtherHolding | OtherDone

  datatype Waiter = ForLoop | ForOther(other: nat)

  datatype Sem = Sem(max: nat, count: nat, waiters: seq<Waiter>)

  /**
   * `inserted` counts rows whose wake-up is not scheduled yet, `wakes` the scheduled calls of the loop. `dropped`
   * says that the last run of the loop failed, or was called in vain after it had read an empty queue.
   */
  datatype State = State(sem: Sem, loop: Loop, builds: seq<Build>, inserted: nat, wakes: nat,
                         tasks: seq<Task>, others: seq<OtherPhase>, dropped: bool)

  function Initial(max: nat): State { State(Sem(max, 0, []), Idle, [], 0, 0, [], [], false) }

  datatype Event =
    | Insert(createdAt: int)
    | ScheduleWake
    | Wake
    | ReadQueue(pick: Option<nat>)
    | EndEmpty
    | Mark
    | Dispatch
    | LoopFails
    | StartTask(task: nat)
    | UpdateRow(task: nat, result: Option<bool>)
    | Recall(task: nat)
    | ReleaseTask(task: nat)
    | DeleteRow(build: nat)
    | OtherAcquires
    | OtherReleases(other: nat)

  // ---- The semaphore and the loop ----

  /** processAgentBuildQueue up to its first await. */
  function CallLoop(s: State): State {
    if s.loop != Idle then s.(dropped := s.dropped || s.loop == FoundNone)
    else if s.sem.count < s.sem.max then
      s.(sem := s.sem.(count := s.sem.count + 1), loop := Permitted, dropped := false)
    else s.(sem := s.sem.(waiters := s.sem.waiters + [ForLoop]), loop := Waiting, dropped := false)
  }

  /** A permit is handed to the first waiter, or given back. */
  function ReleasePermit(s: State): State {
    if s.sem.waiters != [] then
      var t := s.(sem := s.sem.(waiters := s.sem.waiters[1..]));
      match s.sem.waiters[0]
      case ForLoop => t.(loop := Permitted)
      case ForOther(i) => if i < |t.others| then t.(others := t.others[i := OtherHolding]) else t
    else s.(sem := s.sem.(count := if s.sem.count > 0 then s.sem.count - 1 else 0))
  }

  function OtherAcquire(s: State): State {
    if s.sem.count < s.sem.max then
      s.(sem := s.sem.(count := s.sem.count + 1), others := s.others + [OtherHolding])
    else s.(sem := s.sem.(waiters := s.sem.waiters + [ForOther(|s.others|)]), others := s.others + [OtherWaiting])
  }

  predicate IsQueued(builds: seq<Build>, b: nat) {
    b < |builds| && builds[b].state == Queued
  }

  /** The answer of the query: a queued build that is as old as any, or none when there is none. */
  predicate Answers(builds: seq<Build>, pick: Option<nat>) {
    if pick.Some? then
      && IsQueued(builds, pick.value)
      && forall c | 0 <= c < |builds| && IsQueued(builds, c) :: builds[pick.value].createdAt <= builds[c].createdAt
    else forall c | 0 <= c < |builds| :: !IsQueued(builds, c)
  }

  predicate TaskIn(s: State, t: nat, phase: TaskPhase) {
    t < |s.tasks| && s.tasks[t].phase == phase && s.tasks[t].build < |s.builds|
  }

  predicate Enabled(s: State, e: Event) {
    match e
    case Insert(_) => true
    case ScheduleWake => s.inserted > 0
    case Wake => s.wakes > 0
    case ReadQueue(pick) => s.loop == Permitted && Answers(s.builds, pick)
    case EndEmpty => s.loop == FoundNone
    case Mark => s.loop.Picked? && s.loop.build < |s.builds|
    case Dispatch => s.loop.Marked?
    // The read or the update throws.
    case LoopFails => s.loop == Permitted || s.loop.Picked?
    case StartTask(t) => TaskIn(s, t, Scheduled)
    case UpdateRow(t, _) => TaskIn(s, t, Executing)
    case Recall(t) => TaskIn(s, t, Updated)
    case ReleaseTask(t) => TaskIn(s, t, Recalled)
    case DeleteRow(b) => b < |s.builds| && s.builds[b].state in {Ready, Failed}
    case OtherAcquires => true
    case OtherReleases(i) => i < |s.others| && s.others[i] == OtherHolding
  }

  function SetState(s: State, b: nat, state: BuildState): State
    requires b < |s.builds|
  {
    s.(builds := s.builds[b := s.builds[b].(state := state)])
  }

  function SetTask(s: State, t: nat, task: Task): State
    requires t < |s.tasks|
  {
    s.(tasks := s.tasks[t := task])
  }

  function Apply(s: State, e: Event): State
    requires Enabled(s, e)
  {
    match e
    case Insert(createdAt) => s.(builds := s.builds + [Build(Queued, createdAt)], inserted := s.inserted + 1)
    case ScheduleWake => s.(inserted := s.inserted - 1, wakes := s.wakes + 1)
    case Wake => CallLoop(s.(wakes := s.wakes - 1))
    case ReadQueue(pick) => s.(loop := if pick.Some? then Picked(pick.value) else FoundNone)
    case EndEmpty => ReleasePermit(s.(loop := Idle))
    case Mark => SetState(s, s.loop.build, Building).(loop := Marked(s.loop.build))
    case Dispatch => s.(tasks := s.tasks + [Task(s.loop.build, Scheduled, false)], loop := Idle)
    case LoopFails => ReleasePermit(s.(loop := Idle, dropped := true))
    case StartTask(t) => SetTask(s, t, s.tasks[t].(phase := Executing))
    case UpdateRow(t, result) =>
      var u := SetTask(s, t, s.tasks[t].(phase := Updated, recorded := result.Some?));
      if result.Some? then SetState(u, s.tasks[t].build, if result.value then Ready else Failed) else u
    case Recall(t) => CallLoop(SetTask(s, t, s.tasks[t].(phase := Recalled)))
    case ReleaseTask(t) => ReleasePermit(SetTask(s, t, s.tasks[t].(phase := Released)))
    case DeleteRow(b) => SetState(s, b, Deleted)
    case OtherAcquires => OtherAcquire(s)
    case OtherReleases(i) => ReleasePermit(s.(others := s.others[i := OtherDone]))
  }
}
