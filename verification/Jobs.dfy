/**
 The bounded job manager as interleaved steps: one thread at a time inside the manager's lock, one worker
 thread, and an executor queue. Every read or write another thread could observe is a step of its own.
 */
module Jobs {
  import opened Collections

  type Id = nat

  datatype State = Queued | InPhase(name: string) | Complete | Failed | Cancelled {
    predicate Terminal() { Complete? || Failed? || Cancelled? }
  }

  datatype Body = StateChange(state: State) | Progress(tag: string)

  datatype Event = Event(id: nat, body: Body)

  datatype Future = Unset | Pending | Running | Done | Withdrawn

  datatype Job = Job(state: State, result: bool, error: bool, cancelled: bool, future: Future, events: seq<Event>) {
    /** `emit`: the next event carries the log's length as its id. */
    function Emit(body: Body): Job {
      this.(events := events + [Event(|events|, body)])
    }
  }

  const SUBMITTED := Job(Queued, false, false, false, Unset, []).Emit(StateChange(Queued))

  /** Where the thread that holds the manager's lock stands. */
  datatype Lock =
    | Free
    | Counting(next: nat, counted: set<Id>)                 // summing the active jobs
    | Trimming(next: nat, todo: seq<Id>, counted: set<Id>)  // looking for a job to evict
    | Inserting(counted: set<Id>)
    | Scheduling(id: Id)                                    // handing the job to the executor
    | Withdrawing(id: Id)                                   // cancel: flag set, future not yet asked
    | MarkingCancelled(id: Id)                              // cancel: future withdrawn, state not yet set
    | LoggingCancelled(id: Id)
    | Flagging(id: Id)                                      // discard of an active job
    | Deleting(id: Id)                                      // discard of a finished job
    | FlaggingAll(next: nat)                                // shutdown

  /** Where the worker thread stands. */
  datatype Worker =
    | Idle
    | Starting(id: Id)                  // before the first cancellation check
    | Working(id: Id)
    | Moving(id: Id, state: State)      // work has set a phase and not yet logged it
    | Returned(id: Id)                  // before the second cancellation check
    | Storing(id: Id)
    | Completing(id: Id)
    | Stopping(id: Id)                  // JobCancelled caught
    | Failing(id: Id)                   // another exception caught
    | MarkingFailed(id: Id)
    | Announcing(id: Id)                // terminal state set, not yet logged
    | Finishing(id: Id)

  datatype World = World(
    jobs: map<Id, Job>,    // every job object created
    registry: seq<Id>,     // the retained jobs, oldest first
    maximumJobs: nat,
    maximumPending: nat,
    lock: Lock,
    worker: Worker,
    queue: seq<Id>,        // the executor's work queue
    down: bool)            // the executor has been shut down

  function Start(maximumJobs: nat, maximumPending: nat): World {
    World(map[], [], maximumJobs, maximumPending, Free, Idle, [], false)
  }

  datatype Action =
    // a thread inside the manager
    | Submit | CountOne | Refuse | Admit | TrimOne | TrimFails | Insert(id: Id) | Schedule
    | Cancel(id: Id) | Withdraw | MarkCancelled | LogCancelled
    | Discard(id: Id) | Flag | Delete
    | Shutdown | FlagOne | FlaggedAll
    // the executor
    | ExecutorDown | Drain | Pick
    // the worker
    | FirstCheck | WorkLogs(tag: string) | WorkMoves(name: string) | WorkMoved | WorkReturns | WorkCancelled | WorkRaises
    | SecondCheck | Store | SetComplete | SetCancelled | SetError | SetFailed | Announce | Finish

  function Put(w: World, id: Id, job: Job): World {
    w.(jobs := w.jobs[id := job])
  }

  function Without(s: seq<Id>, id: Id): seq<Id> {
    if s == [] then [] else if s[0] == id then Without(s[1..], id) else [s[0]] + Without(s[1..], id)
  }

  predicate Has(w: World, id: Id) { id in w.jobs }

  // ----- the manager's steps

  predicate ManagerEnabled(w: World, a: Action) {
    match a
    case Submit | Shutdown => w.lock.Free?
    case Cancel(id) => w.lock.Free? && id in w.registry && Has(w, id)
    case Discard(id) => w.lock.Free? && id in w.registry && Has(w, id)
    case CountOne => w.lock.Counting? && w.lock.next < |w.registry| && Has(w, w.registry[w.lock.next])
    case Refuse => w.lock.Counting? && w.lock.next == |w.registry| && w.maximumPending <= |w.lock.counted|
    case Admit => w.lock.Counting? && w.lock.next == |w.registry| && |w.lock.counted| < w.maximumPending
    case TrimOne => w.lock.Trimming? && w.lock.next < |w.lock.todo| && Has(w, w.lock.todo[w.lock.next])
    case TrimFails => w.lock.Trimming? && w.lock.next == |w.lock.todo| && w.maximumJobs <= |w.registry|
    case Insert(id) => w.lock.Inserting? && id !in w.jobs
    case Schedule => w.lock.Scheduling? && Has(w, w.lock.id)
    case Withdraw => w.lock.Withdrawing? && Has(w, w.lock.id)
    case MarkCancelled => w.lock.MarkingCancelled? && Has(w, w.lock.id)
    case LogCancelled => w.lock.LoggingCancelled? && Has(w, w.lock.id)
    case Flag => w.lock.Flagging? && Has(w, w.lock.id)
    case Delete => w.lock.Deleting?
    case FlagOne => w.lock.FlaggingAll? && w.lock.next < |w.registry| && Has(w, w.registry[w.lock.next])
    case FlaggedAll => w.lock.FlaggingAll? && w.lock.next == |w.registry|
    case _ => false
  }

  function ManagerStep(w: World, a: Action): World
    requires ManagerEnabled(w, a)
  {
    match a
    case Submit => w.(lock := Counting(0, {}))
    case CountOne =>
      var id := w.registry[w.lock.next];
      w.(lock := Counting(w.lock.next + 1, w.lock.counted + if w.jobs[id].state.Terminal() then {} else {id}))
    case Refuse => w.(lock := Free)  // "model job queue is full"
    case Admit =>
      w.(lock := if |w.registry| < w.maximumJobs then Inserting(w.lock.counted) else Trimming(0, w.registry, w.lock.counted))
    case TrimOne =>
      var id := w.lock.todo[w.lock.next];
      if !w.jobs[id].state.Terminal() then w.(lock := w.lock.(next := w.lock.next + 1)) else
        var kept := Without(w.registry, id);
        w.(registry := kept,
           lock := if |kept| < w.maximumJobs then Inserting(w.lock.counted) else w.lock.(next := w.lock.next + 1))
    case TrimFails => w.(lock := Free)  // "local job history is full"
    case Insert(id) => Put(w, id, SUBMITTED).(registry := w.registry + [id], lock := Scheduling(id))
    case Schedule =>
      if w.down then w.(lock := Free)  // the executor refuses; the job stays queued
      else Put(w, w.lock.id, w.jobs[w.lock.id].(future := Pending)).(queue := w.queue + [w.lock.id], lock := Free)
    case Cancel(id) => Put(w, id, w.jobs[id].(cancelled := true)).(lock := Withdrawing(id))
    case Withdraw =>
      var job := w.jobs[w.lock.id];
      if job.future.Pending? || job.future.Withdrawn?
      then Put(w, w.lock.id, job.(future := Withdrawn)).(lock := MarkingCancelled(w.lock.id))
      else w.(lock := Free)
    case MarkCancelled => Put(w, w.lock.id, w.jobs[w.lock.id].(state := Cancelled)).(lock := LoggingCancelled(w.lock.id))
    case LogCancelled => Put(w, w.lock.id, w.jobs[w.lock.id].Emit(StateChange(Cancelled))).(lock := Free)
    case Discard(id) => w.(lock := if w.jobs[id].state.Terminal() then Deleting(id) else Flagging(id))
    case Flag => Put(w, w.lock.id, w.jobs[w.lock.id].(cancelled := true)).(lock := Free)
    case Delete => w.(registry := Without(w.registry, w.lock.id), lock := Free)
    case Shutdown => w.(lock := FlaggingAll(0))
    case FlagOne =>
      var id := w.registry[w.lock.next];
      Put(w, id, w.jobs[id].(cancelled := true)).(lock := FlaggingAll(w.lock.next + 1))
    case FlaggedAll => w.(lock := Free)
  }

  // ----- the executor's and the worker's steps

  predicate WorkerEnabled(w: World, a: Action) {
    match a
    case ExecutorDown => true
    case Drain => w.down && w.queue != [] && Has(w, w.queue[0])
    case Pick => w.worker.Idle? && w.queue != [] && Has(w, w.queue[0])
    case FirstCheck => w.worker.Starting? && Has(w, w.worker.id)
    case WorkLogs(_) => w.worker.Working? && Has(w, w.worker.id)
    case WorkMoves(_) => w.worker.Working? && Has(w, w.worker.id)
    case WorkMoved => w.worker.Moving? && Has(w, w.worker.id)
    case WorkReturns => w.worker.Working?
    case WorkCancelled => w.worker.Working? && Has(w, w.worker.id) && w.jobs[w.worker.id].cancelled
    case WorkRaises => w.worker.Working?
    case SecondCheck => w.worker.Returned? && Has(w, w.worker.id)
    case Store => w.worker.Storing? && Has(w, w.worker.id)
    case SetComplete => w.worker.Completing? && Has(w, w.worker.id)
    case SetCancelled => w.worker.Stopping? && Has(w, w.worker.id)
    case SetError => w.worker.Failing? && Has(w, w.worker.id)
    case SetFailed => w.worker.MarkingFailed? && Has(w, w.worker.id)
    case Announce => w.worker.Announcing? && Has(w, w.worker.id)
    case Finish => w.worker.Finishing? && Has(w, w.worker.id)
    case _ => false
  }

  function WorkerStep(w: World, a: Action): World
    requires WorkerEnabled(w, a)
  {
    match a
    case ExecutorDown => w.(down := true)
    case Drain =>
      var job := w.jobs[w.queue[0]];
      Put(w, w.queue[0], job.(future := Withdrawn)).(queue := w.queue[1..])
    case Pick =>
      var id := w.queue[0];
      if w.jobs[id].future.Pending?
      then Put(w, id, w.jobs[id].(future := Running)).(queue := w.queue[1..], worker := Starting(id))
      else w.(queue := w.queue[1..])
    case FirstCheck => w.(worker := if w.jobs[w.worker.id].cancelled then Stopping(w.worker.id) else Working(w.worker.id))
    case WorkLogs(tag) => Put(w, w.worker.id, w.jobs[w.worker.id].Emit(Progress(tag)))
    case WorkMoves(name) =>
      Put(w, w.worker.id, w.jobs[w.worker.id].(state := InPhase(name))).(worker := Moving(w.worker.id, InPhase(name)))
    case WorkMoved =>
      Put(w, w.worker.id, w.jobs[w.worker.id].Emit(StateChange(w.worker.state))).(worker := Working(w.worker.id))
    case WorkReturns => w.(worker := Returned(w.worker.id))
    case WorkCancelled => w.(worker := Stopping(w.worker.id))
    case WorkRaises => w.(worker := Failing(w.worker.id))
    case SecondCheck => w.(worker := if w.jobs[w.worker.id].cancelled then Stopping(w.worker.id) else Storing(w.worker.id))
    case Store => Put(w, w.worker.id, w.jobs[w.worker.id].(result := true)).(worker := Completing(w.worker.id))
    case SetComplete => Put(w, w.worker.id, w.jobs[w.worker.id].(state := Complete)).(worker := Announcing(w.worker.id))
    case SetCancelled => Put(w, w.worker.id, w.jobs[w.worker.id].(state := Cancelled)).(worker := Announcing(w.worker.id))
    case SetError => Put(w, w.worker.id, w.jobs[w.worker.id].(error := true)).(worker := MarkingFailed(w.worker.id))
    case SetFailed => Put(w, w.worker.id, w.jobs[w.worker.id].(state := Failed)).(worker := Announcing(w.worker.id))
    case Announce =>
      var job := w.jobs[w.worker.id];
      Put(w, w.worker.id, job.Emit(StateChange(job.state))).(worker := Finishing(w.worker.id))
    case Finish => Put(w, w.worker.id, w.jobs[w.worker.id].(future := Done)).(worker := Idle)
  }

  predicate Enabled(w: World, a: Action) { ManagerEnabled(w, a) || WorkerEnabled(w, a) }

  function Next(w: World, a: Action): World
    requires Enabled(w, a)
  {
    if ManagerEnabled(w, a) then ManagerStep(w, a) else WorkerStep(w, a)
  }

  // ----- what every interleaving keeps

  function ActiveIds(w: World): set<Id> {
    set id | id in w.registry && id in w.jobs && !w.jobs[id].state.Terminal()
  }

  /** Events are numbered by their position, and the first says the job is queued. */
  predicate Numbered(events: seq<Event>) {
    (forall i | 0 <= i < |events| :: events[i].id == i) && events != [] && events[0].body == StateChange(Queued)
  }

  /** The log is numbered, and a finished job shows its outcome. */
  predicate Sound(job: Job) {
    && Numbered(job.events)
    && (job.state.Complete? ==> job.result) && (job.state.Failed? ==> job.error)
  }

  /** A job is sound, and its future's stage limits its state. */
  predicate JobInv(w: World, id: Id)
    requires id in w.jobs
  {
    var job := w.jobs[id];
    && Sound(job)
    && match job.future
       case Unset | Pending => job.state.Queued?
       case Withdrawn => job.state.Queued? || job.state.Cancelled?
       case Running => !w.worker.Idle? && w.worker.id == id
       case Done => job.state.Terminal() && Announced(job)
  }

  /** The last thing logged is the job's state. */
  predicate Announced(job: Job) {
    job.events != [] && job.events[|job.events| - 1].body == StateChange(job.state)
  }

  predicate WorkerInv(w: World) {
    w.worker.Idle? || (
      && w.worker.id in w.jobs && w.jobs[w.worker.id].future.Running?
      && (w.jobs[w.worker.id].state.Terminal() <==> w.worker.Announcing? || w.worker.Finishing?)
      && (w.worker.Completing? ==> w.jobs[w.worker.id].result)
      && (w.worker.MarkingFailed? ==> w.jobs[w.worker.id].error)
      && (w.worker.Moving? ==> w.worker.state.InPhase?)
      && (w.worker.Finishing? ==> Announced(w.jobs[w.worker.id])))
  }

  predicate QueueInv(w: World) {
    Distinct(w.queue) &&
    forall i | 0 <= i < |w.queue| :: w.queue[i] in w.jobs && (w.jobs[w.queue[i]].future.Pending? || w.jobs[w.queue[i]].future.Withdrawn?)
  }

  predicate RegistryInv(w: World) {
    && Distinct(w.registry)
    && (forall i | 0 <= i < |w.registry| :: w.registry[i] in w.jobs)
    && |w.registry| <= w.maximumJobs
    && |ActiveIds(w)| <= w.maximumPending
  }

  /** While a submission holds the lock, every job still active is among those it counted. */
  predicate LockInv(w: World) {
    match w.lock
    case Counting(next, counted) =>
      next <= |w.registry| && forall i | 0 <= i < next :: w.registry[i] in ActiveIds(w) ==> w.registry[i] in counted
    case Trimming(next, todo, counted) =>
      && todo == w.registry && next <= |todo| && |counted| < w.maximumPending && ActiveIds(w) <= counted
      && w.maximumJobs <= |w.registry| && forall i | 0 <= i < next :: todo[i] in counted
    case Inserting(counted) => |counted| < w.maximumPending && ActiveIds(w) <= counted && |w.registry| < w.maximumJobs
    case Scheduling(id) => id in w.jobs && w.jobs[id].future.Unset?
    case MarkingCancelled(id) => id in w.jobs && w.jobs[id].future.Withdrawn?
    case LoggingCancelled(id) => id in w.jobs && w.jobs[id].future.Withdrawn? && w.jobs[id].state.Cancelled?
    case Deleting(id) => id in w.jobs && w.jobs[id].state.Terminal()
    case FlaggingAll(next) => next <= |w.registry|
    case Withdrawing(id) => id in w.jobs
    case Flagging(id) => id in w.jobs
    case Free => true
  }

  /** Jobs, worker and queue agree. */
  ghost predicate WorkInv(w: World) {
    (forall id | id in w.jobs :: JobInv(w, id)) && WorkerInv(w) && QueueInv(w)
  }

  ghost predicate Inv(w: World) {
    WorkInv(w) && RegistryInv(w) && LockInv(w)
  }

  /** What one job may become between two moments. */
  predicate Evolves(before: Job, after: Job) {
    && before.events <= after.events
    && (before.state.Terminal() ==> after.state == before.state)
    && (before.result ==> after.result) && (before.error ==> after.error) && (before.cancelled ==> after.cancelled)
    && (before.future.Withdrawn? ==> after.future.Withdrawn?)
    && (before.future.Done? ==> after == before.(cancelled := after.cancelled))
  }

  /** What the world may become: jobs only evolve, and only finished ones leave the registry. */
  ghost predicate Follows(w: World, v: World) {
    && v.maximumJobs == w.maximumJobs && v.maximumPending == w.maximumPending
    && (forall id | id in w.jobs :: id in v.jobs && Evolves(w.jobs[id], v.jobs[id]))
    && (forall id | id in w.jobs && id in w.registry && id !in v.registry :: v.jobs[id].state.Terminal())
  }

  // ----- preservation

  lemma {:induction false} WithoutProperties(s: seq<Id>, id: Id)
    requires Distinct(s)
    ensures Distinct(Without(s, id)) && forall x :: x in Without(s, id) <==> x in s && x != id
    ensures |Without(s, id)| == if id in s then |s| - 1 else |s|
  {
    if s == [] {
    } else {
      WithoutProperties(s[1..], id);
      assert s == [s[0]] + s[1..];
      assert s[0] !in s[1..];
    }
  }

  /** A step that evolves one job, without waking it, keeps the registry's bounds. */
  lemma FewerActive(w: World, v: World)
    requires v.registry == w.registry && (forall id | id in w.jobs :: id in v.jobs && Evolves(w.jobs[id], v.jobs[id]))
    requires RegistryInv(w) && v.maximumJobs == w.maximumJobs && v.maximumPending == w.maximumPending
    ensures RegistryInv(v) && ActiveIds(v) <= ActiveIds(w)
  {
    SubsetSize(ActiveIds(v), ActiveIds(w));
  }

  /** Every job evolves, and unstarted or withdrawn futures stay so. */
  ghost predicate Evolution(w: World, v: World) {
    && v.maximumJobs == w.maximumJobs && v.maximumPending == w.maximumPending
    && forall id | id in w.jobs ::
         && id in v.jobs && Evolves(w.jobs[id], v.jobs[id])
         && (w.jobs[id].future.Unset? ==> v.jobs[id].future.Unset?)
  }

  /** Steps outside the manager leave its thread's knowledge true. */
  lemma OutsideManager(w: World, v: World)
    requires LockInv(w) && RegistryInv(w) && v.lock == w.lock && v.registry == w.registry && Evolution(w, v)
    ensures LockInv(v) && RegistryInv(v) && Follows(w, v)
  {
    FewerActive(w, v);
  }

  // ----- the worker's steps

  /** The worker rewrites its own job and moves on. */
  lemma WorkerPut(w: World, v: World, job: Job)
    requires Inv(w) && !w.worker.Idle?
    requires v == Put(w, w.worker.id, job).(worker := v.worker) && WorkerInv(v)
    requires Sound(job) && Evolves(w.jobs[w.worker.id], job)
    requires if v.worker.Idle? then job.future.Done? && job.state.Terminal() && Announced(job)
             else v.worker.id == w.worker.id && job.future.Running?
    ensures Inv(v) && Follows(w, v)
  {
    hide RegistryInv, LockInv, Follows, Sound, Evolves;
    assert Evolution(w, v) by { EvolvesSame(w); }
    OutsideManager(w, v);
  }

  lemma EvolvesSame(w: World)
    ensures forall id | id in w.jobs :: Evolves(w.jobs[id], w.jobs[id])
  {
  }

  predicate WorkerAction(a: Action) {
    !a.Pick? && !a.Drain? && !a.ExecutorDown?
  }

  /** The worker touches no job but its own. */
  lemma WorkerFrame(w: World, a: Action)
    requires WorkerInv(w) && WorkerEnabled(w, a) && WorkerAction(a)
    ensures var v, id := WorkerStep(w, a), w.worker.id;
      id in w.jobs && id in v.jobs && v.jobs == w.jobs[id := v.jobs[id]]
  {
    hide Announced;
  }

  lemma EmitKeeps(job: Job, body: Body)
    requires Numbered(job.events)
    ensures Numbered(job.Emit(body).events) && job.events <= job.Emit(body).events
  {
  }

  /** The worker's own job stays sound and only evolves. */
  lemma WorkerJob(w: World, a: Action)
    requires WorkerInv(w) && WorkerEnabled(w, a) && WorkerAction(a) && Sound(w.jobs[w.worker.id])
    ensures w.worker.id in WorkerStep(w, a).jobs
    ensures Sound(WorkerStep(w, a).jobs[w.worker.id]) && Evolves(w.jobs[w.worker.id], WorkerStep(w, a).jobs[w.worker.id])
  {
    hide Numbered, Announced;
    var job := w.jobs[w.worker.id];
    if a.WorkLogs? || a.WorkMoved? || a.Announce? {
      var body := if a.WorkLogs? then Progress(a.tag) else StateChange(if a.WorkMoved? then w.worker.state else job.state);
      EmitKeeps(job, body);
      assert WorkerStep(w, a).jobs[w.worker.id] == job.Emit(body);
    } else {
      assert WorkerStep(w, a).jobs[w.worker.id].events == job.events;
    }
  }

  /** The worker's stage fits its job after the step. */
  lemma WorkerStage(w: World, a: Action)
    requires WorkerInv(w) && WorkerEnabled(w, a) && WorkerAction(a)
    ensures var v, id := WorkerStep(w, a), w.worker.id;
      && id in v.jobs && v == w.(jobs := v.jobs, worker := v.worker) && WorkerInv(v)
      && if v.worker.Idle? then v.jobs[id].future.Done? && v.jobs[id].state.Terminal() && Announced(v.jobs[id])
         else v.worker.id == id && v.jobs[id].future.Running?
  {
    hide Announced;
    EmitAnnounces(w.jobs[w.worker.id]);
  }

  lemma EmitAnnounces(job: Job)
    ensures Announced(job.Emit(StateChange(job.state)))
    ensures Announced(job) ==> Announced(job.(future := Done))
  {
  }

  lemma WorkerStepKeeps(w: World, a: Action)
    requires Inv(w) && WorkerEnabled(w, a) && WorkerAction(a)
    ensures Inv(WorkerStep(w, a)) && Follows(w, WorkerStep(w, a))
  {
    var v := WorkerStep(w, a);
    assert JobInv(w, w.worker.id);
    WorkerFrame(w, a);
    WorkerJob(w, a);
    WorkerStage(w, a);
    hide WorkerStep, WorkerEnabled, Sound, Evolves, RegistryInv, LockInv, QueueInv, WorkerInv, Announced, Follows;
    WorkerPut(w, v, v.jobs[w.worker.id]);
  }

  lemma PickWork(w: World)
    requires WorkInv(w) && WorkerEnabled(w, Pick)
    ensures WorkInv(WorkerStep(w, Pick))
  {
    hide Sound;
    var v, id := WorkerStep(w, Pick), w.queue[0];
    assert JobInv(w, id);
    FutureOnly(w.jobs[id], v.jobs[id].future);
    forall x | x in v.jobs ensures JobInv(v, x) {
      assert JobInv(w, x);
    }
  }

  lemma PickEvolves(w: World)
    requires WorkInv(w) && WorkerEnabled(w, Pick)
    ensures Evolution(w, WorkerStep(w, Pick))
  {
    hide WorkerInv, Sound, Evolves;
    var v, id := WorkerStep(w, Pick), w.queue[0];
    assert JobInv(w, id);
    FutureOnly(w.jobs[id], v.jobs[id].future);
    EvolvesSame(w);
  }

  lemma PickKeeps(w: World)
    requires Inv(w) && WorkerEnabled(w, Pick)
    ensures Inv(WorkerStep(w, Pick)) && Follows(w, WorkerStep(w, Pick))
  {
    hide WorkInv, Evolution, RegistryInv, LockInv, Follows;
    PickWork(w);
    PickEvolves(w);
    OutsideManager(w, WorkerStep(w, Pick));
  }

  lemma DrainWork(w: World)
    requires WorkInv(w) && WorkerEnabled(w, Drain)
    ensures WorkInv(WorkerStep(w, Drain)) && Evolution(w, WorkerStep(w, Drain))
  {
    hide Sound, Evolves;
    var v, id := WorkerStep(w, Drain), w.queue[0];
    assert JobInv(w, id);
    FutureOnly(w.jobs[id], v.jobs[id].future);
    EvolvesSame(w);
  }

  lemma DrainKeeps(w: World)
    requires Inv(w) && WorkerEnabled(w, Drain)
    ensures Inv(WorkerStep(w, Drain)) && Follows(w, WorkerStep(w, Drain))
  {
    hide WorkInv, Evolution, RegistryInv, LockInv, Follows;
    DrainWork(w);
    OutsideManager(w, WorkerStep(w, Drain));
  }

  lemma FutureOnly(job: Job, future: Future)
    requires Sound(job) && !job.future.Done? && (job.future.Withdrawn? ==> future.Withdrawn?)
    ensures Sound(job.(future := future)) && Evolves(job, job.(future := future))
  {
  }

  lemma DownKeeps(w: World)
    requires Inv(w)
    ensures Inv(WorkerStep(w, ExecutorDown)) && Follows(w, WorkerStep(w, ExecutorDown))
  {
    EvolvesSame(w);
  }

  // ----- the manager's steps

  /** How the manager may rewrite a job: the flag alone, or a job that is not running. */
  predicate Rewrite(before: Job, after: Job) {
    && (after.future == before.future || (before.future.Pending? && after.future.Withdrawn?))
    && match after.future
       case Unset | Pending => after.state.Queued?
       case Withdrawn => after.state.Queued? || after.state.Cancelled?
       case _ => after == before.(cancelled := true)
  }

  lemma RewriteWork(w: World, v: World, id: Id, job: Job)
    requires WorkInv(w) && id in w.jobs && v == Put(w, id, job).(lock := v.lock)
    requires Sound(job) && Rewrite(w.jobs[id], job)
    ensures WorkInv(v)
  {
    hide Sound;
    assert JobInv(w, id);
    assert forall x | x in w.jobs :: JobInv(w, x);
  }

  /** The manager rewrites one job without touching the registry. */
  lemma ManagerPut(w: World, v: World, id: Id, job: Job)
    requires Inv(w) && id in w.jobs && v == Put(w, id, job).(lock := v.lock) && LockInv(v)
    requires Sound(job) && Evolves(w.jobs[id], job) && Rewrite(w.jobs[id], job)
    ensures Inv(v) && Follows(w, v)
  {
    hide WorkInv, LockInv, Sound, Rewrite, Evolves, RegistryInv, ActiveIds;
    RewriteWork(w, v, id, job);
    EvolvesSame(w);
    FewerActive(w, v);
  }

  lemma SameWork(w: World, v: World)
    requires WorkInv(w) && v.jobs == w.jobs && v.worker == w.worker && v.queue == w.queue
    ensures WorkInv(v)
  {
    assert forall id | id in v.jobs :: JobInv(w, id) ==> JobInv(v, id);
  }

  /** The manager only moves on. */
  lemma ManagerMoves(w: World, v: World)
    requires Inv(w) && v == w.(lock := v.lock) && LockInv(v)
    ensures Inv(v) && Follows(w, v)
  {
    hide WorkInv, LockInv;
    SameWork(w, v);
    EvolvesSame(w);
  }

  lemma CountingKeeps(w: World, a: Action)
    requires Inv(w) && ManagerEnabled(w, a)
    requires a.Submit? || a.CountOne? || a.Refuse? || a.Admit? || a.TrimFails? || a.Shutdown? || a.FlaggedAll? || a.Discard?
    ensures Inv(ManagerStep(w, a)) && Follows(w, ManagerStep(w, a))
  {
    hide WorkInv;
    var v := ManagerStep(w, a);
    ManagerMoves(w, v);
  }

  lemma FlaggingKeeps(w: World, a: Action)
    requires Inv(w) && ManagerEnabled(w, a) && (a.Cancel? || a.Flag? || a.FlagOne?)
    ensures Inv(ManagerStep(w, a)) && Follows(w, ManagerStep(w, a))
  {
    hide Numbered, WorkerInv, QueueInv, ActiveIds, Announced, Follows;
    var v := ManagerStep(w, a);
    var id := if a.Cancel? then a.id else if a.Flag? then w.lock.id else w.registry[w.lock.next];
    assert JobInv(w, id);
    ManagerPut(w, v, id, w.jobs[id].(cancelled := true));
  }

  lemma CancellingKeeps(w: World, a: Action)
    requires Inv(w) && ManagerEnabled(w, a) && (a.Withdraw? || a.MarkCancelled? || a.LogCancelled?)
    ensures Inv(ManagerStep(w, a)) && Follows(w, ManagerStep(w, a))
  {
    hide Numbered, WorkerInv, QueueInv, RegistryInv, ActiveIds, Announced, Follows;
    var v, id := ManagerStep(w, a), w.lock.id;
    assert JobInv(w, id);
    EmitKeeps(w.jobs[id], StateChange(Cancelled));
    if a.Withdraw? && v.lock.Free? {
      ManagerMoves(w, v);
    } else {
      ManagerPut(w, v, id, v.jobs[id]);
    }
  }

  /** The trim loop's first finished job makes room at once. */
  lemma TrimKeeps(w: World)
    requires Inv(w) && ManagerEnabled(w, TrimOne)
    ensures Inv(ManagerStep(w, TrimOne)) && Follows(w, ManagerStep(w, TrimOne))
  {
    hide WorkInv, Evolves;
    var v, id := ManagerStep(w, TrimOne), w.lock.todo[w.lock.next];
    if w.jobs[id].state.Terminal() {
      SameWork(w, v);
      RegistryShrinks(w, v, id);
      EvolvesSame(w);
    } else {
      assert id in ActiveIds(w);
      ManagerMoves(w, v);
    }
  }

  lemma RegistryShrinks(w: World, v: World, id: Id)
    requires RegistryInv(w) && v.registry == Without(w.registry, id) && v.jobs == w.jobs
    requires v.maximumJobs == w.maximumJobs && v.maximumPending == w.maximumPending
    ensures RegistryInv(v) && ActiveIds(v) <= ActiveIds(w)
    ensures forall x :: x in v.registry <==> x in w.registry && x != id
    ensures |v.registry| == if id in w.registry then |w.registry| - 1 else |w.registry|
  {
    WithoutProperties(w.registry, id);
    forall i | 0 <= i < |v.registry| ensures v.registry[i] in v.jobs {
      assert v.registry[i] in w.registry;
    }
    SubsetSize(ActiveIds(v), ActiveIds(w));
  }

  lemma DeleteKeeps(w: World)
    requires Inv(w) && ManagerEnabled(w, Delete)
    ensures Inv(ManagerStep(w, Delete)) && Follows(w, ManagerStep(w, Delete))
  {
    hide WorkInv, Evolves;
    var v := ManagerStep(w, Delete);
    SameWork(w, v);
    RegistryShrinks(w, v, w.lock.id);
    EvolvesSame(w);
  }

  lemma InsertKeeps(w: World, id: Id)
    requires Inv(w) && ManagerEnabled(w, Insert(id))
    ensures Inv(ManagerStep(w, Insert(id))) && Follows(w, ManagerStep(w, Insert(id)))
  {
    hide WorkInv, Evolves;
    var v := ManagerStep(w, Insert(id));
    InsertWork(w, id);
    assert ActiveIds(v) <= w.lock.counted + {id};
    SubsetSize(ActiveIds(v), w.lock.counted + {id});
    EvolvesSame(w);
  }

  lemma InsertWork(w: World, id: Id)
    requires WorkInv(w) && ManagerEnabled(w, Insert(id))
    ensures WorkInv(ManagerStep(w, Insert(id)))
  {
    hide Numbered;
    var v := ManagerStep(w, Insert(id));
    EmittedFirst(Job(Queued, false, false, false, Unset, []));
    assert forall x | x in w.jobs :: JobInv(w, x);
  }

  lemma EmittedFirst(job: Job)
    requires job.events == []
    ensures Numbered(job.Emit(StateChange(Queued)).events)
  {
  }

  lemma ScheduleKeeps(w: World)
    requires Inv(w) && ManagerEnabled(w, Schedule)
    ensures Inv(ManagerStep(w, Schedule)) && Follows(w, ManagerStep(w, Schedule))
  {
    hide Sound, RegistryInv, ActiveIds;
    var v, id := ManagerStep(w, Schedule), w.lock.id;
    assert JobInv(w, id);
    EvolvesSame(w);
    FutureOnly(w.jobs[id], v.jobs[id].future);
    FewerActive(w, v);
  }

  lemma ManagerStepKeeps(w: World, a: Action)
    requires Inv(w) && ManagerEnabled(w, a)
    ensures Inv(ManagerStep(w, a)) && Follows(w, ManagerStep(w, a))
  {
    hide Inv, Follows, ManagerStep;
    match a
    case Submit | CountOne | Refuse | Admit | TrimFails | Shutdown | FlaggedAll => CountingKeeps(w, a);
    case Discard(_) => CountingKeeps(w, a);
    case Cancel(_) => FlaggingKeeps(w, a);
    case Flag | FlagOne => FlaggingKeeps(w, a);
    case Withdraw | MarkCancelled | LogCancelled => CancellingKeeps(w, a);
    case TrimOne => TrimKeeps(w);
    case Delete => DeleteKeeps(w);
    case Insert(id) => InsertKeeps(w, id);
    case Schedule => ScheduleKeeps(w);
    case _ => assert false;
  }

  /** One step of any thread keeps the invariant, and everything only evolves. */
  lemma StepKeeps(w: World, a: Action)
    requires Inv(w) && Enabled(w, a)
    ensures Inv(Next(w, a)) && Follows(w, Next(w, a))
  {
    hide Inv, Follows, ManagerStep, WorkerStep, ManagerEnabled, WorkerEnabled;
    if ManagerEnabled(w, a) {
      ManagerStepKeeps(w, a);
    } else {
      match a
      case Pick => PickKeeps(w);
      case Drain => DrainKeeps(w);
      case ExecutorDown => DownKeeps(w);
      case _ => WorkerStepKeeps(w, a);
    }
  }

  // ----- whole runs

  ghost predicate Runs(w: World, actions: seq<Action>)
    decreases |actions|
  {
    actions == [] || (Enabled(w, actions[0]) && Runs(Next(w, actions[0]), actions[1..]))
  }

  ghost function After(w: World, actions: seq<Action>): World
    requires Runs(w, actions)
    decreases |actions|
  {
    if actions == [] then w else After(Next(w, actions[0]), actions[1..])
  }

  /** `v` is a world that some interleaving reaches from `w`. */
  ghost predicate Later(w: World, v: World) {
    exists actions: seq<Action> :: Runs(w, actions) && After(w, actions) == v
  }

  /** Every job of `w` is still there and has only evolved. */
  ghost predicate Grows(w: World, v: World) {
    && v.maximumJobs == w.maximumJobs && v.maximumPending == w.maximumPending
    && forall id | id in w.jobs :: id in v.jobs && Evolves(w.jobs[id], v.jobs[id])
  }

  lemma GrowsTransitive(u: World, v: World, w: World)
    requires Grows(u, v) && Grows(v, w)
    ensures Grows(u, w)
  {
    forall id | id in u.jobs ensures Evolves(u.jobs[id], w.jobs[id]) {
      assert Evolves(u.jobs[id], v.jobs[id]) && Evolves(v.jobs[id], w.jobs[id]);
    }
  }

  /** Any run keeps the invariant; results, errors, terminal states and logged events are never taken back. */
  lemma {:induction false} RunKeeps(w: World, actions: seq<Action>)
    requires Inv(w) && Runs(w, actions)
    ensures Inv(After(w, actions)) && Grows(w, After(w, actions))
    decreases |actions|
  {
    hide Inv, Next, Enabled;
    if actions == [] {
      EvolvesSame(w);
    } else {
      StepKeeps(w, actions[0]);
      RunKeeps(Next(w, actions[0]), actions[1..]);
      GrowsTransitive(w, Next(w, actions[0]), After(w, actions));
    }
  }

  lemma StartInv(maximumJobs: nat, maximumPending: nat)
    ensures Inv(Start(maximumJobs, maximumPending))
  {
    assert ActiveIds(Start(maximumJobs, maximumPending)) == {};
  }

  /** The bounds hold at every moment of every run: admission, retention, numbering and visible outcomes. */
  lemma BoundsAlways(maximumJobs: nat, maximumPending: nat, actions: seq<Action>)
    requires Runs(Start(maximumJobs, maximumPending), actions)
    ensures var w := After(Start(maximumJobs, maximumPending), actions);
      && |ActiveIds(w)| <= maximumPending && |w.registry| <= maximumJobs
      && (forall id | id in w.registry :: id in w.jobs)
      && forall id | id in w.jobs :: Sound(w.jobs[id])
  {
    hide Next, Enabled;
    StartInv(maximumJobs, maximumPending);
    RunKeeps(Start(maximumJobs, maximumPending), actions);
    var w := After(Start(maximumJobs, maximumPending), actions);
    assert forall id | id in w.jobs :: JobInv(w, id);
  }

  /** A job leaves the registry only when it is finished, whichever thread's step removes it. */
  lemma OnlyFinishedLeave(maximumJobs: nat, maximumPending: nat, actions: seq<Action>, a: Action, id: Id)
    requires Runs(Start(maximumJobs, maximumPending), actions)
    requires Enabled(After(Start(maximumJobs, maximumPending), actions), a)
    requires var w := After(Start(maximumJobs, maximumPending), actions); id in w.registry && id !in Next(w, a).registry
    ensures var w := After(Start(maximumJobs, maximumPending), actions); id in w.jobs && w.jobs[id].state.Terminal()
  {
    hide Next, Enabled, ActiveIds;
    var w := After(Start(maximumJobs, maximumPending), actions);
    StartInv(maximumJobs, maximumPending);
    RunKeeps(Start(maximumJobs, maximumPending), actions);
    StepKeeps(w, a);
    RemovedState(w, a, id);
  }

  lemma RemovedState(w: World, a: Action, id: Id)
    requires Enabled(w, a) && RegistryInv(w) && id in w.registry && id !in Next(w, a).registry
    requires id in w.jobs && id in Next(w, a).jobs && Next(w, a).jobs[id].state.Terminal()
    ensures w.jobs[id].state.Terminal()
  {
    hide ActiveIds, Without;
    if a.TrimOne? || a.Delete? {
      assert Next(w, a).jobs == w.jobs;
    } else {
      RegistryKept(w, a);
    }
  }

  lemma RegistryKept(w: World, a: Action)
    requires Enabled(w, a) && !a.TrimOne? && !a.Delete?
    ensures w.registry <= Next(w, a).registry
  {
    hide ManagerStep, WorkerStep, ManagerEnabled, WorkerEnabled;
    if !ManagerEnabled(w, a) {
      WorkerRegistry(w, a);
    } else if a.Insert? {
      InsertRegistry(w, a);
    } else {
      ManagerRegistry(w, a);
    }
  }

  lemma WorkerRegistry(w: World, a: Action)
    requires WorkerEnabled(w, a)
    ensures WorkerStep(w, a).registry == w.registry
  {
  }

  lemma InsertRegistry(w: World, a: Action)
    requires ManagerEnabled(w, a) && a.Insert?
    ensures ManagerStep(w, a).registry == w.registry + [a.id]
  {
  }

  lemma ManagerRegistry(w: World, a: Action)
    requires ManagerEnabled(w, a) && !a.TrimOne? && !a.Delete? && !a.Insert?
    ensures ManagerStep(w, a).registry == w.registry
  {
  }

  /** A job whose future was withdrawn in time never runs: the worker is never on it again, and it can only end cancelled. */
  lemma WithdrawnNeverRuns(maximumJobs: nat, maximumPending: nat, before: seq<Action>, between: seq<Action>, id: Id)
    requires Runs(Start(maximumJobs, maximumPending), before)
    requires var w := After(Start(maximumJobs, maximumPending), before); Runs(w, between) && id in w.jobs && w.jobs[id].future.Withdrawn?
    ensures var v := After(After(Start(maximumJobs, maximumPending), before), between);
      && id in v.jobs && (v.worker.Idle? || v.worker.id != id)
      && (v.jobs[id].state.Queued? || v.jobs[id].state.Cancelled?)
  {
    hide Next, Enabled;
    var w := After(Start(maximumJobs, maximumPending), before);
    StartInv(maximumJobs, maximumPending);
    RunKeeps(Start(maximumJobs, maximumPending), before);
    RunKeeps(w, between);
    assert Evolves(w.jobs[id], After(w, between).jobs[id]);
    assert JobInv(After(w, between), id);
  }

  /** Once its future is done a job is settled for good: finished, its last event says so, and nothing but the flag changes. */
  lemma DoneIsSettled(maximumJobs: nat, maximumPending: nat, before: seq<Action>, between: seq<Action>, id: Id)
    requires Runs(Start(maximumJobs, maximumPending), before)
    requires var w := After(Start(maximumJobs, maximumPending), before); Runs(w, between) && id in w.jobs && w.jobs[id].future.Done?
    ensures var w := After(Start(maximumJobs, maximumPending), before);
      var v := After(w, between);
      && w.jobs[id].state.Terminal() && Announced(w.jobs[id])
      && id in v.jobs && v.jobs[id] == w.jobs[id].(cancelled := v.jobs[id].cancelled)
  {
    hide Next, Enabled;
    var w := After(Start(maximumJobs, maximumPending), before);
    StartInv(maximumJobs, maximumPending);
    RunKeeps(Start(maximumJobs, maximumPending), before);
    RunKeeps(w, between);
    assert JobInv(w, id);
    assert Evolves(w.jobs[id], After(w, between).jobs[id]);
  }

  // ----- the history

  /** With no more pending jobs than retained ones, "history is full" cannot happen in any run. */
  lemma HistoryNeverFull(maximumJobs: nat, maximumPending: nat, actions: seq<Action>)
    requires maximumPending <= maximumJobs && Runs(Start(maximumJobs, maximumPending), actions)
    ensures !ManagerEnabled(After(Start(maximumJobs, maximumPending), actions), TrimFails)
  {
    hide Next, Enabled;
    StartInv(maximumJobs, maximumPending);
    RunKeeps(Start(maximumJobs, maximumPending), actions);
    var w := After(Start(maximumJobs, maximumPending), actions);
    if ManagerEnabled(w, TrimFails) {
      DistinctSize(w.lock.todo, w.lock.counted);
      assert false;
    }
  }

  lemma {:induction false} RunsThen(w: World, actions: seq<Action>, a: Action)
    requires Runs(w, actions) && Enabled(After(w, actions), a)
    ensures Runs(w, actions + [a]) && After(w, actions + [a]) == Next(After(w, actions), a)
    decreases |actions|
  {
    hide Next, Enabled;
    if actions == [] {
      assert [] + [a] == [a];
      assert [a][1..] == [];
    } else {
      RunsThen(Next(w, actions[0]), actions[1..], a);
      assert (actions + [a])[1..] == actions[1..] + [a];
    }
  }

  lemma LaterThen(w: World, v: World, a: Action)
    requires Later(w, v) && Enabled(v, a)
    ensures Later(w, Next(v, a))
  {
    hide Next, Enabled;
    var actions :| Runs(w, actions) && After(w, actions) == v;
    RunsThen(w, actions, a);
  }

  /** The first `k` jobs, all waiting for the worker. */
  function Waiting(maximumJobs: nat, maximumPending: nat, k: nat, lock: Lock): World {
    World(map id: Id | id in Below(k) :: SUBMITTED.(future := Pending), Range(k), maximumJobs, maximumPending, lock, Idle, Range(k), false)
  }

  /** The admission check counts a job that is still active. */
  lemma Counted(w: World)
    requires w.lock.Counting? && w.lock.next < |w.registry|
    requires Has(w, w.registry[w.lock.next]) && !w.jobs[w.registry[w.lock.next]].state.Terminal()
    ensures Enabled(w, CountOne)
    ensures Next(w, CountOne) == w.(lock := Counting(w.lock.next + 1, w.lock.counted + {w.registry[w.lock.next]}))
  {
  }

  lemma {:induction false} CountWaiting(w: World, maximumJobs: nat, maximumPending: nat, k: nat, next: nat)
    requires next <= k && Later(w, Waiting(maximumJobs, maximumPending, k, Counting(0, {})))
    ensures Later(w, Waiting(maximumJobs, maximumPending, k, Counting(next, Below(next))))
  {
    hide Later, ManagerEnabled, ManagerStep, Next, Enabled, Below, Range;
    BelowNext(next);
    if next == 0 {
    } else {
      CountWaiting(w, maximumJobs, maximumPending, k, next - 1);
      var v := Waiting(maximumJobs, maximumPending, k, Counting(next - 1, Below(next - 1)));
      Counted(v);
      LaterThen(w, v, CountOne);
      assert Next(v, CountOne) == Waiting(maximumJobs, maximumPending, k, Counting(next, Below(next)));
    }
  }

  /** A submission after `k` waiting jobs counts them all and is admitted. */
  lemma AdmitWaiting(w: World, maximumJobs: nat, maximumPending: nat, k: nat)
    requires k <= maximumJobs < maximumPending && Later(w, Waiting(maximumJobs, maximumPending, k, Free))
    ensures Later(w, Waiting(maximumJobs, maximumPending, k,
      if k < maximumJobs then Inserting(Below(k)) else Trimming(0, Range(k), Below(k))))
  {
    LaterThen(w, Waiting(maximumJobs, maximumPending, k, Free), Submit);
    CountWaiting(w, maximumJobs, maximumPending, k, k);
    LaterThen(w, Waiting(maximumJobs, maximumPending, k, Counting(k, Below(k))), Admit);
  }

  lemma {:induction false} FillWaiting(maximumJobs: nat, maximumPending: nat, k: nat)
    requires k <= maximumJobs < maximumPending
    ensures Later(Start(maximumJobs, maximumPending), Waiting(maximumJobs, maximumPending, k, Free))
  {
    var w := Start(maximumJobs, maximumPending);
    if k == 0 {
      assert Runs(w, []) && After(w, []) == w;
      assert Waiting(maximumJobs, maximumPending, 0, Free) == w;
    } else {
      hide Next, Enabled, Later, Waiting, Below;
      FillWaiting(maximumJobs, maximumPending, k - 1);
      AdmitWaiting(w, maximumJobs, maximumPending, k - 1);
      FilledBy(maximumJobs, maximumPending, k);
      var v := Waiting(maximumJobs, maximumPending, k - 1, Inserting(Below(k - 1)));
      LaterThen(w, v, Insert(k - 1));
      LaterThen(w, Next(v, Insert(k - 1)), Schedule);
    }
  }

  lemma FilledBy(maximumJobs: nat, maximumPending: nat, k: nat)
    requires 1 <= k <= maximumJobs
    ensures var v := Waiting(maximumJobs, maximumPending, k - 1, Inserting(Below(k - 1)));
      Enabled(v, Insert(k - 1)) && Enabled(Next(v, Insert(k - 1)), Schedule) &&
      Next(Next(v, Insert(k - 1)), Schedule) == Waiting(maximumJobs, maximumPending, k, Free)
  {
    hide Range, Below;
    var v := Waiting(maximumJobs, maximumPending, k - 1, Inserting(Below(k - 1)));
    var u := Next(v, Insert(k - 1));
    assert u.jobs == v.jobs[k - 1 := SUBMITTED] && u.registry == Range(k - 1) + [k - 1] == Range(k);
    var r := Next(u, Schedule);
    assert r.jobs == v.jobs[k - 1 := SUBMITTED.(future := Pending)];
    assert r.jobs == Waiting(maximumJobs, maximumPending, k, Free).jobs;
  }

  /** The trim loop passes over a job that is still active. */
  lemma TrimmedPast(w: World)
    requires w.lock.Trimming? && w.lock.next < |w.lock.todo|
    requires Has(w, w.lock.todo[w.lock.next]) && !w.jobs[w.lock.todo[w.lock.next]].state.Terminal()
    ensures Enabled(w, TrimOne) && Next(w, TrimOne) == w.(lock := w.lock.(next := w.lock.next + 1))
  {
  }

  lemma {:induction false} TrimWaiting(w: World, maximumJobs: nat, maximumPending: nat, k: nat, next: nat)
    requires next <= k && Later(w, Waiting(maximumJobs, maximumPending, k, Trimming(0, Range(k), Below(k))))
    ensures Later(w, Waiting(maximumJobs, maximumPending, k, Trimming(next, Range(k), Below(k))))
  {
    if next == 0 {
    } else {
      hide Below, Later, ManagerEnabled, ManagerStep, Next, Enabled;
      TrimWaiting(w, maximumJobs, maximumPending, k, next - 1);
      var v := Waiting(maximumJobs, maximumPending, k, Trimming(next - 1, Range(k), Below(k)));
      TrimmedPast(v);
      LaterThen(w, v, TrimOne);
    }
  }

  /** "History is full" can happen exactly when more jobs may be pending than retained. */
  lemma HistoryFullIff(maximumJobs: nat, maximumPending: nat)
    ensures maximumJobs < maximumPending
       <==> exists v :: Later(Start(maximumJobs, maximumPending), v) && ManagerEnabled(v, TrimFails)
  {
    var w := Start(maximumJobs, maximumPending);
    if maximumJobs < maximumPending {
      FillWaiting(maximumJobs, maximumPending, maximumJobs);
      AdmitWaiting(w, maximumJobs, maximumPending, maximumJobs);
      TrimWaiting(w, maximumJobs, maximumPending, maximumJobs, maximumJobs);
      var v := Waiting(maximumJobs, maximumPending, maximumJobs, Trimming(maximumJobs, Range(maximumJobs), Below(maximumJobs)));
      assert ManagerEnabled(v, TrimFails);
    } else {
      forall v | Later(w, v) ensures !ManagerEnabled(v, TrimFails) {
        var actions :| Runs(w, actions) && After(w, actions) == v;
        HistoryNeverFull(maximumJobs, maximumPending, actions);
      }
    }
  }

  // ----- observers

  /**
   A reader of the public view never sees a finished state without its outcome: once it has read
   "complete" or "failed", its later reads of state, result and error agree.
   */
  lemma OutcomeVisible(maximumJobs: nat, maximumPending: nat, before: seq<Action>, between: seq<Action>, id: Id)
    requires Runs(Start(maximumJobs, maximumPending), before)
    requires var w := After(Start(maximumJobs, maximumPending), before); Runs(w, between) && id in w.jobs
    ensures var w := After(Start(maximumJobs, maximumPending), before);
      var v := After(w, between);
      && id in v.jobs
      && (w.jobs[id].state.Terminal() ==> v.jobs[id].state == w.jobs[id].state)
      && (w.jobs[id].state.Complete? ==> v.jobs[id].result) && (w.jobs[id].state.Failed? ==> v.jobs[id].error)
  {
    hide Next, Enabled;
    var w := After(Start(maximumJobs, maximumPending), before);
    StartInv(maximumJobs, maximumPending);
    RunKeeps(Start(maximumJobs, maximumPending), before);
    RunKeeps(w, between);
    assert JobInv(w, id);
  }

  /** `wait`: the events from a cursor on. */
  function Slice(events: seq<Event>, cursor: nat): seq<Event> {
    if cursor <= |events| then events[cursor..] else []
  }

  /** A stream reader's position and everything it has been given, after reading the log as it was at each moment. */
  function Streamed(logs: seq<seq<Event>>, cursor: nat): seq<Event> {
    if logs == [] then [] else
      var seen := Streamed(logs[..|logs| - 1], cursor);
      seen + Slice(logs[|logs| - 1], cursor + |seen|)
  }

  ghost predicate Moments(worlds: seq<World>, id: Id) {
    && worlds != [] && id in worlds[0].jobs && Inv(worlds[0])
    && forall i | 0 <= i < |worlds| - 1 :: Later(worlds[i], worlds[i + 1])
  }

  lemma {:induction false} MomentsKept(worlds: seq<World>, id: Id, i: nat)
    requires Moments(worlds, id) && i < |worlds|
    ensures Inv(worlds[i]) && id in worlds[i].jobs
    ensures 0 < i ==> id in worlds[i - 1].jobs && worlds[i - 1].jobs[id].events <= worlds[i].jobs[id].events
  {
    hide Inv;
    if i == 0 {
    } else {
      MomentsKept(worlds, id, i - 1);
      assert Later(worlds[i - 1], worlds[i - 1 + 1]);
      var actions :| Runs(worlds[i - 1], actions) && After(worlds[i - 1], actions) == worlds[i];
      RunKeeps(worlds[i - 1], actions);
      assert Evolves(worlds[i - 1].jobs[id], worlds[i].jobs[id]);
    }
  }

  ghost function Logs(worlds: seq<World>, id: Id): (r: seq<seq<Event>>)
    requires forall i | 0 <= i < |worlds| :: id in worlds[i].jobs
    ensures |r| == |worlds| && forall i | 0 <= i < |worlds| :: r[i] == worlds[i].jobs[id].events
  {
    seq(|worlds|, i requires 0 <= i < |worlds| => worlds[i].jobs[id].events)
  }

  /** A stream reader gets, in order and without gap or duplicate, exactly the log's slice from its cursor. */
  lemma StreamIsSlice(worlds: seq<World>, id: Id, cursor: nat)
    requires Moments(worlds, id)
    ensures forall i | 0 <= i < |worlds| :: id in worlds[i].jobs
    ensures var seen, log := Streamed(Logs(worlds, id), cursor), worlds[|worlds| - 1].jobs[id].events;
      && seen == (if cursor <= |log| then log[cursor..] else [])
      && forall k | 0 <= k < |seen| :: seen[k].id == cursor + k
  {
    hide Inv, Moments;
    forall i | 0 <= i < |worlds| ensures id in worlds[i].jobs {
      MomentsKept(worlds, id, i);
    }
    var logs := Logs(worlds, id);
    forall i | 0 < i < |logs| ensures logs[i - 1] <= logs[i] {
      MomentsKept(worlds, id, i);
    }
    NonEmptyMoments(worlds, id);
    StreamedSlice(logs, cursor);
    MomentsKept(worlds, id, |worlds| - 1);
    NumberedLog(worlds[|worlds| - 1], id);
  }

  lemma NonEmptyMoments(worlds: seq<World>, id: Id)
    requires Moments(worlds, id)
    ensures worlds != []
  {
  }

  lemma NumberedLog(w: World, id: Id)
    requires Inv(w) && id in w.jobs
    ensures forall i | 0 <= i < |w.jobs[id].events| :: w.jobs[id].events[i].id == i
  {
    assert JobInv(w, id);
  }

  lemma StreamedNothing(cursor: nat)
    ensures Streamed([], cursor) == []
  {
  }

  lemma StreamedLast(logs: seq<seq<Event>>, cursor: nat)
    requires logs != []
    ensures var seen := Streamed(logs[..|logs| - 1], cursor);
      Streamed(logs, cursor) == seen + Slice(logs[|logs| - 1], cursor + |seen|)
  {
    hide Slice;
  }

  lemma {:induction false} StreamedSlice(logs: seq<seq<Event>>, cursor: nat)
    requires logs != [] && forall i | 0 < i < |logs| :: logs[i - 1] <= logs[i]
    ensures Streamed(logs, cursor) == Slice(logs[|logs| - 1], cursor)
  {
    hide Streamed, Slice;
    var n := |logs| - 1;
    StreamedLast(logs, cursor);
    if n == 0 {
      assert logs[..0] == [];
      StreamedNothing(cursor);
    } else {
      StreamedSlice(logs[..n], cursor);
      assert logs[..n][|logs[..n]| - 1] == logs[n - 1];
      SliceExtends(logs[n - 1], logs[n], cursor);
    }
  }

  /** What a grown log adds to a slice is its slice from where the first one ended. */
  lemma SliceExtends(before: seq<Event>, after: seq<Event>, cursor: nat)
    requires before <= after
    ensures Slice(before, cursor) + Slice(after, cursor + |Slice(before, cursor)|) == Slice(after, cursor)
  {
    if cursor <= |before| {
      assert after[cursor..] == after[cursor..|before|] + after[|before|..];
      assert before[cursor..] == after[cursor..|before|];
    }
  }
}
