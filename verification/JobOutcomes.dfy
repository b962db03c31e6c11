/** How jobs end, in every interleaving: by the cancel flag, by what the work did, and in the order of the queue. */
module JobOutcomes {
  import opened Collections
  import opened Jobs

  // ----- flags

  /** A cancelled job is flagged. */
  ghost predicate JobFlags(w: World) {
    forall id | id in w.jobs && w.jobs[id].state.Cancelled? :: w.jobs[id].cancelled
  }

  /** A worker that stops a job has seen its flag, and one that starts a job finds it queued. */
  predicate StageFlags(w: World) {
    && (w.worker.Stopping? ==> w.worker.id in w.jobs && w.jobs[w.worker.id].cancelled)
    && (w.worker.Starting? ==> w.worker.id in w.jobs && w.jobs[w.worker.id].state.Queued?)
  }

  /** A thread that cancels a job has set its flag, and shutdown has flagged what it has passed. */
  predicate LockFlags(w: World) {
    match w.lock
    case Withdrawing(id) => id in w.jobs && w.jobs[id].cancelled
    case MarkingCancelled(id) => id in w.jobs && w.jobs[id].cancelled
    case LoggingCancelled(id) => id in w.jobs && w.jobs[id].cancelled
    case FlaggingAll(next) => next <= |w.registry| && forall i | 0 <= i < next :: w.registry[i] in w.jobs && w.jobs[w.registry[i]].cancelled
    case _ => true
  }

  ghost predicate Flags(w: World) {
    JobFlags(w) && StageFlags(w) && LockFlags(w)
  }

  // ----- the shape of a step

  predicate OnlyMoves(a: Action) {
    a.Submit? || a.CountOne? || a.Refuse? || a.Admit? || a.TrimOne? || a.TrimFails? || a.Discard? || a.Delete? || a.Shutdown? || a.FlaggedAll?
  }

  /** Most of the manager's steps touch no job. */
  lemma MoveShape(w: World, a: Action)
    requires ManagerEnabled(w, a) && OnlyMoves(a)
    ensures var v := ManagerStep(w, a);
      && v.jobs == w.jobs && v.worker == w.worker && !w.lock.LoggingCancelled?
      && !v.lock.Withdrawing? && !v.lock.MarkingCancelled? && !v.lock.LoggingCancelled? && (v.lock.FlaggingAll? ==> v.lock.next == 0)
  {
    hide Without;
  }

  /** Three set a flag. */
  lemma FlagShape(w: World, a: Action) returns (id: Id)
    requires ManagerEnabled(w, a) && (a.Cancel? || a.Flag? || a.FlagOne?)
    ensures var v := ManagerStep(w, a);
      && id in w.jobs && v == Put(w, id, w.jobs[id].(cancelled := true)).(lock := v.lock) && !w.lock.LoggingCancelled?
      && !v.lock.MarkingCancelled? && !v.lock.LoggingCancelled? && (v.lock.Withdrawing? ==> v.lock.id == id)
    ensures ManagerStep(w, a).lock.FlaggingAll? ==>
      && w.lock.FlaggingAll? && w.lock.next < |w.registry|
      && ManagerStep(w, a).lock.next == w.lock.next + 1 && id == w.registry[w.lock.next]
  {
    id := if a.Cancel? then a.id else if a.Flag? then w.lock.id else w.registry[w.lock.next];
  }

  /** The steps of a cancellation go on with the same job. */
  lemma CancelShape(w: World, a: Action)
    requires ManagerEnabled(w, a) && (a.Withdraw? || a.MarkCancelled? || a.LogCancelled?)
    ensures (w.lock.Withdrawing? || w.lock.MarkingCancelled? || w.lock.LoggingCancelled?) && w.lock.id in w.jobs
    ensures var v, id, job := ManagerStep(w, a), w.lock.id, w.jobs[w.lock.id];
      && (v.lock.Free? || v.lock == MarkingCancelled(id) || v.lock == LoggingCancelled(id))
      && (v == w.(lock := v.lock) || v == Put(w, id, v.jobs[id]).(lock := v.lock)) && id in v.jobs
      && (v.lock.LoggingCancelled? <==> w.lock.MarkingCancelled?)
      && (w.lock.Withdrawing? ==>
            v.jobs[id] == job || (v.jobs[id] == job.(future := Withdrawn) && (job.future.Pending? || job.future.Withdrawn?)))
      && (w.lock.MarkingCancelled? ==> v.jobs[id] == job.(state := Cancelled))
      && (w.lock.LoggingCancelled? ==> v.jobs[id] == job.Emit(StateChange(Cancelled)))
  {
  }

  /** A submission adds a job, and hands it on. */
  lemma SubmitShape(w: World, a: Action)
    requires ManagerEnabled(w, a) && (a.Insert? || a.Schedule?)
    ensures var v := ManagerStep(w, a);
      && v.worker == w.worker && (v.lock.Free? || v.lock.Scheduling?) && !w.lock.LoggingCancelled?
      && (a.Insert? ==> a.id !in w.jobs && v.jobs == w.jobs[a.id := SUBMITTED])
    ensures a.Schedule? ==>
      && w.lock.Scheduling? && w.lock.id in w.jobs
      && (ManagerStep(w, a).jobs == w.jobs || ManagerStep(w, a).jobs == w.jobs[w.lock.id := w.jobs[w.lock.id].(future := Pending)])
  {
  }

  lemma ManagerKinds(w: World, a: Action)
    requires ManagerEnabled(w, a)
    ensures OnlyMoves(a) || a.Cancel? || a.Flag? || a.FlagOne? || a.Withdraw? || a.MarkCancelled? || a.LogCancelled? || a.Insert? || a.Schedule?
  {
  }

  lemma ManagerLeavesWorker(w: World, a: Action)
    requires ManagerEnabled(w, a)
    ensures ManagerStep(w, a).worker == w.worker
  {
    hide ManagerStep, ManagerEnabled, OnlyMoves;
    ManagerKinds(w, a);
    if OnlyMoves(a) {
      MoveShape(w, a);
    } else if a.Cancel? || a.Flag? || a.FlagOne? {
      var _ := FlagShape(w, a);
    } else if a.Insert? || a.Schedule? {
      SubmitShape(w, a);
    } else {
      CancelShape(w, a);
    }
  }

  // ----- flags are kept

  lemma PickFlags(w: World)
    requires Inv(w) && Flags(w) && WorkerEnabled(w, Pick)
    ensures JobFlags(WorkerStep(w, Pick)) && StageFlags(WorkerStep(w, Pick))
  {
    hide RegistryInv, LockInv, WorkerInv, Numbered, Announced, LockFlags;
    assert JobInv(w, w.queue[0]);
  }

  lemma SetCancelledFlags(w: World)
    requires Flags(w) && WorkerEnabled(w, SetCancelled)
    ensures JobFlags(WorkerStep(w, SetCancelled)) && StageFlags(WorkerStep(w, SetCancelled))
  {
    hide LockFlags;
  }

  /** No other step of the worker makes a job cancelled. */
  lemma OtherWorkFlags(w: World, a: Action)
    requires Flags(w) && WorkerEnabled(w, a) && WorkerAction(a) && !a.SetCancelled? && w.worker.id in w.jobs
    ensures var v, id := WorkerStep(w, a), w.worker.id;
      && id in v.jobs && v.jobs[id].cancelled == w.jobs[id].cancelled
      && (v.jobs[id].state.Cancelled? ==> w.jobs[id].state.Cancelled?)
      && (v.worker.Stopping? ==> v.worker.id == id && w.jobs[id].cancelled) && !v.worker.Starting?
  {
    hide JobFlags, LockFlags;
  }

  lemma QueueFlags(w: World, a: Action)
    requires Flags(w) && WorkerEnabled(w, a) && (a.Drain? || a.ExecutorDown?)
    ensures JobFlags(WorkerStep(w, a)) && StageFlags(WorkerStep(w, a))
  {
    hide LockFlags;
  }

  lemma WorkerFlags(w: World, a: Action)
    requires Inv(w) && Flags(w) && WorkerEnabled(w, a)
    ensures JobFlags(WorkerStep(w, a)) && StageFlags(WorkerStep(w, a))
  {
    hide WorkerEnabled, WorkerStep, Inv, LockFlags;
    if a.Pick? {
      PickFlags(w);
    } else if a.Drain? || a.ExecutorDown? {
      QueueFlags(w, a);
    } else if a.SetCancelled? {
      SetCancelledFlags(w);
    } else {
      WorkerBusy(w, a);
      OtherWorkFlags(w, a);
      WorkerFrame(w, a);
    }
  }

  lemma WorkerBusy(w: World, a: Action)
    requires Inv(w) && WorkerEnabled(w, a) && WorkerAction(a)
    ensures WorkerInv(w) && !w.worker.Idle? && w.worker.id in w.jobs
  {
    hide RegistryInv, LockInv, QueueInv, Numbered, Announced;
  }

  lemma WorkerLeavesLock(w: World, a: Action)
    requires Inv(w) && LockFlags(w) && WorkerEnabled(w, a)
    ensures LockFlags(WorkerStep(w, a))
  {
    hide Inv, Follows, Evolves, WorkerEnabled, WorkerStep;
    StepKeeps(w, a);
    WorkerLock(w, a);
    assert !ManagerEnabled(w, a) by { WorkerNotManager(w, a); }
    FlagsStay(w, WorkerStep(w, a));
  }

  lemma WorkerNotManager(w: World, a: Action)
    requires WorkerEnabled(w, a)
    ensures !ManagerEnabled(w, a)
  {
  }

  lemma WorkerLock(w: World, a: Action)
    requires WorkerEnabled(w, a)
    ensures WorkerStep(w, a).lock == w.lock && WorkerStep(w, a).registry == w.registry
  {
  }

  lemma FlagsStay(w: World, v: World)
    requires Follows(w, v)
    ensures forall id | id in w.jobs && w.jobs[id].cancelled :: id in v.jobs && v.jobs[id].cancelled
  {
    assert forall id | id in w.jobs :: Evolves(w.jobs[id], v.jobs[id]);
  }

  lemma ManagerFlags(w: World, a: Action)
    requires Flags(w) && ManagerEnabled(w, a)
    ensures JobFlags(ManagerStep(w, a)) && LockFlags(ManagerStep(w, a))
  {
    hide ManagerStep, ManagerEnabled, OnlyMoves, StageFlags;
    ManagerKinds(w, a);
    if OnlyMoves(a) {
      MoveShape(w, a);
    } else if a.Cancel? || a.Flag? || a.FlagOne? {
      var _ := FlagShape(w, a);
    } else if a.Insert? || a.Schedule? {
      SubmitShape(w, a);
    } else {
      CancelShape(w, a);
    }
  }

  lemma ManagerLeavesStage(w: World, a: Action)
    requires Inv(w) && StageFlags(w) && ManagerEnabled(w, a)
    ensures StageFlags(ManagerStep(w, a))
  {
    hide ManagerStep, ManagerEnabled, OnlyMoves, Inv, Follows;
    ManagerLeavesWorker(w, a);
    StepKeeps(w, a);
    if w.worker.Stopping? || w.worker.Starting? {
      WorkerHas(w);
      FlagsStay(w, ManagerStep(w, a));
      if w.worker.Starting? {
        QueuedStays(w, a);
      }
    }
  }

  /** The manager leaves the state of the worker's job alone. */
  lemma QueuedStays(w: World, a: Action)
    requires Inv(w) && ManagerEnabled(w, a) && !w.worker.Idle?
    ensures w.worker.id in w.jobs && w.worker.id in ManagerStep(w, a).jobs
    ensures ManagerStep(w, a).jobs[w.worker.id].state == w.jobs[w.worker.id].state
  {
    hide ManagerStep, ManagerEnabled, OnlyMoves, WorkInv, RegistryInv, ActiveIds;
    WorkerHas(w);
    ManagerKinds(w, a);
    if OnlyMoves(a) {
      MoveShape(w, a);
    } else if a.Cancel? || a.Flag? || a.FlagOne? {
      var _ := FlagShape(w, a);
    } else if a.Insert? || a.Schedule? {
      SubmitShape(w, a);
    } else {
      CancelShape(w, a);
    }
  }

  lemma StepFlags(w: World, a: Action)
    requires Inv(w) && Flags(w) && Enabled(w, a)
    ensures Flags(Next(w, a))
  {
    hide Inv, JobFlags, StageFlags, LockFlags, ManagerStep, WorkerStep, ManagerEnabled, WorkerEnabled;
    if ManagerEnabled(w, a) {
      ManagerFlags(w, a);
      ManagerLeavesStage(w, a);
    } else {
      WorkerFlags(w, a);
      WorkerLeavesLock(w, a);
    }
  }

  lemma {:induction false} RunFlags(w: World, actions: seq<Action>)
    requires Inv(w) && Flags(w) && Runs(w, actions)
    ensures Flags(After(w, actions))
    decreases |actions|
  {
    hide Inv, Flags, Next, Enabled;
    if actions != [] {
      StepFlags(w, actions[0]);
      StepKeeps(w, actions[0]);
      RunFlags(Next(w, actions[0]), actions[1..]);
    }
  }

  lemma Reached(maximumJobs: nat, maximumPending: nat, actions: seq<Action>)
    requires Runs(Start(maximumJobs, maximumPending), actions)
    ensures Inv(After(Start(maximumJobs, maximumPending), actions)) && Flags(After(Start(maximumJobs, maximumPending), actions))
  {
    hide Inv, Next, Enabled;
    StartInv(maximumJobs, maximumPending);
    RunKeeps(Start(maximumJobs, maximumPending), actions);
    RunFlags(Start(maximumJobs, maximumPending), actions);
  }

  /** In every run a job is cancelled only if its flag was set. */
  lemma CancelledWasFlagged(maximumJobs: nat, maximumPending: nat, actions: seq<Action>, id: Id)
    requires Runs(Start(maximumJobs, maximumPending), actions) && id in After(Start(maximumJobs, maximumPending), actions).jobs
    ensures var job := After(Start(maximumJobs, maximumPending), actions).jobs[id];
      job.state.Cancelled? ==> job.cancelled
  {
    hide Inv, Next, Enabled;
    Reached(maximumJobs, maximumPending, actions);
  }

  /** When shutdown lets go of the lock every retained job is flagged. */
  lemma ShutdownFlagsAll(maximumJobs: nat, maximumPending: nat, actions: seq<Action>)
    requires Runs(Start(maximumJobs, maximumPending), actions)
    requires ManagerEnabled(After(Start(maximumJobs, maximumPending), actions), FlaggedAll)
    ensures var w := After(Start(maximumJobs, maximumPending), actions);
      forall id | id in w.registry :: id in w.jobs && w.jobs[id].cancelled
  {
    hide Inv, Next, Enabled;
    Reached(maximumJobs, maximumPending, actions);
  }

  // ----- ends

  /** The job is on its way to `state`, or has arrived. */
  predicate Destined(w: World, id: Id, state: State) {
    id in w.jobs && match w.worker
      case Storing(x) => x == id && state.Complete?
      case Completing(x) => x == id && state.Complete?
      case Stopping(x) => x == id && state.Cancelled?
      case Failing(x) => x == id && state.Failed?
      case MarkingFailed(x) => x == id && state.Failed?
      case Announcing(x) => x == id && w.jobs[id].state == state
      case Finishing(x) => x == id && w.jobs[id].state == state
      case _ => false
  }

  /** It has arrived and is done. */
  predicate Ended(w: World, id: Id, state: State) {
    id in w.jobs && w.jobs[id].future.Done? && w.jobs[id].state == state
  }

  lemma DestinedStep(w: World, a: Action, id: Id, state: State)
    requires Inv(w) && Enabled(w, a) && Destined(w, id, state)
    ensures Destined(Next(w, a), id, state) || Ended(Next(w, a), id, state)
  {
    hide Inv, Follows, Evolves, ManagerEnabled, WorkerEnabled, ManagerStep, WorkerStep, Destined, Ended;
    StepKeeps(w, a);
    DestinedRunning(w, id, state);
    if ManagerEnabled(w, a) {
      ManagerLeavesWorker(w, a);
      DestinedKept(w, Next(w, a), id, state);
    } else {
      DestinedWork(w, a, id, state);
    }
  }

  lemma WorkerHas(w: World)
    requires Inv(w) && !w.worker.Idle?
    ensures w.worker.id in w.jobs && w.jobs[w.worker.id].future.Running?
    ensures w.worker.Announcing? || w.worker.Finishing? ==> w.jobs[w.worker.id].state.Terminal()
  {
  }

  lemma DestinedKept(w: World, v: World, id: Id, state: State)
    requires Inv(w) && Follows(w, v) && Destined(w, id, state) && v.worker == w.worker
    ensures Destined(v, id, state)
  {
    hide WorkInv, RegistryInv, LockInv;
    assert Evolves(w.jobs[id], v.jobs[id]);
    WorkerHas(w);
  }

  lemma DestinedRunning(w: World, id: Id, state: State)
    requires Inv(w) && Destined(w, id, state)
    ensures id in w.jobs && w.jobs[id].future.Running?
    ensures w.queue != [] ==> w.queue[0] != id
  {
    hide RegistryInv, LockInv;
    WorkerHas(w);
  }

  lemma DestinedWork(w: World, a: Action, id: Id, state: State)
    requires WorkerEnabled(w, a) && Destined(w, id, state)
    requires w.jobs[id].future.Running? && (w.queue != [] ==> w.queue[0] != id)
    ensures Destined(WorkerStep(w, a), id, state) || Ended(WorkerStep(w, a), id, state)
  {
  }

  lemma EndedStays(w: World, v: World, id: Id, state: State)
    requires Grows(w, v) && Ended(w, id, state) && state.Terminal()
    ensures Ended(v, id, state)
  {
    assert Evolves(w.jobs[id], v.jobs[id]);
  }

  lemma {:induction false} DestinedRun(w: World, actions: seq<Action>, id: Id, state: State)
    requires Inv(w) && Runs(w, actions) && Destined(w, id, state) && state.Terminal()
    ensures var v := After(w, actions);
      Destined(v, id, state) || Ended(v, id, state)
    decreases |actions|
  {
    hide Inv, Next, Enabled, Destined, Ended, Grows;
    if actions != [] {
      var v := Next(w, actions[0]);
      DestinedStep(w, actions[0], id, state);
      StepKeeps(w, actions[0]);
      if Destined(v, id, state) {
        DestinedRun(v, actions[1..], id, state);
      } else {
        RunKeeps(v, actions[1..]);
        EndedStays(v, After(v, actions[1..]), id, state);
      }
    }
  }

  /** A job destined for a state ends in it: when its future is done it is there. */
  lemma EndsAsDestined(w: World, actions: seq<Action>, id: Id, state: State)
    requires Inv(w) && Runs(w, actions) && Destined(w, id, state) && state.Terminal()
    ensures id in After(w, actions).jobs
    ensures After(w, actions).jobs[id].future.Done? ==> After(w, actions).jobs[id].state == state
  {
    hide Inv, Next, Enabled;
    DestinedRun(w, actions, id, state);
    RunKeeps(w, actions);
    var v := After(w, actions);
    if Destined(v, id, state) {
      WorkerHas(v);
    }
  }

  /** The first check stops a flagged job and lets the others work. */
  lemma FirstCheckDecides(w: World)
    requires w.worker.Starting? && w.worker.id in w.jobs
    ensures Enabled(w, FirstCheck)
    ensures Next(w, FirstCheck) == w.(worker := if w.jobs[w.worker.id].cancelled then Stopping(w.worker.id) else Working(w.worker.id))
  {
  }

  /** Work returns to the second check, or raises into failure, or stops if its job is flagged. */
  lemma WorkEnds(w: World)
    requires w.worker.Working? && w.worker.id in w.jobs
    ensures Enabled(w, WorkReturns) && Next(w, WorkReturns) == w.(worker := Returned(w.worker.id))
    ensures Enabled(w, WorkRaises) && Next(w, WorkRaises) == w.(worker := Failing(w.worker.id))
    ensures Enabled(w, WorkCancelled) <==> w.jobs[w.worker.id].cancelled
    ensures w.jobs[w.worker.id].cancelled ==> Next(w, WorkCancelled) == w.(worker := Stopping(w.worker.id))
  {
  }

  /** The second check stops a flagged job and stores the others' result. */
  lemma SecondCheckDecides(w: World)
    requires w.worker.Returned? && w.worker.id in w.jobs
    ensures Enabled(w, SecondCheck)
    ensures Next(w, SecondCheck) == w.(worker := if w.jobs[w.worker.id].cancelled then Stopping(w.worker.id) else Storing(w.worker.id))
  {
  }

  /** A job whose work returned ends complete if its flag is unset at the second check, and cancelled otherwise, whatever is interleaved. */
  lemma ReturnedEnds(maximumJobs: nat, maximumPending: nat, before: seq<Action>, between: seq<Action>)
    requires Runs(Start(maximumJobs, maximumPending), before)
    requires var w := After(Start(maximumJobs, maximumPending), before);
      w.worker.Returned? && Enabled(w, SecondCheck) && Runs(Next(w, SecondCheck), between)
    ensures var w := After(Start(maximumJobs, maximumPending), before);
      var v, id := After(Next(w, SecondCheck), between), w.worker.id;
      && id in w.jobs && id in v.jobs
      && (v.jobs[id].future.Done? ==> if w.jobs[id].cancelled then v.jobs[id].state.Cancelled? else v.jobs[id].state.Complete? && v.jobs[id].result)
  {
    hide Inv, Next, Enabled;
    Reached(maximumJobs, maximumPending, before);
    var w := After(Start(maximumJobs, maximumPending), before);
    WorkerHas(w);
    SecondCheckDecides(w);
    StepKeeps(w, SecondCheck);
    EndsAsDestined(Next(w, SecondCheck), between, w.worker.id, if w.jobs[w.worker.id].cancelled then Cancelled else Complete);
    EndShows(Next(w, SecondCheck), between, w.worker.id);
  }

  /** A complete job has its result and a failed one its error. */
  lemma EndShows(w: World, actions: seq<Action>, id: Id)
    requires Inv(w) && Runs(w, actions) && id in After(w, actions).jobs
    ensures var job := After(w, actions).jobs[id];
      (job.state.Complete? ==> job.result) && (job.state.Failed? ==> job.error)
  {
    hide Next, Enabled;
    RunKeeps(w, actions);
    assert JobInv(After(w, actions), id);
  }

  /** A job whose work raised ends failed, with its error. */
  lemma RaisedEnds(maximumJobs: nat, maximumPending: nat, before: seq<Action>, between: seq<Action>)
    requires Runs(Start(maximumJobs, maximumPending), before)
    requires var w := After(Start(maximumJobs, maximumPending), before);
      w.worker.Working? && Enabled(w, WorkRaises) && Runs(Next(w, WorkRaises), between)
    ensures var w := After(Start(maximumJobs, maximumPending), before);
      var v, id := After(Next(w, WorkRaises), between), w.worker.id;
      id in v.jobs && (v.jobs[id].future.Done? ==> v.jobs[id].state.Failed? && v.jobs[id].error)
  {
    hide Inv, Next, Enabled;
    Reached(maximumJobs, maximumPending, before);
    var w := After(Start(maximumJobs, maximumPending), before);
    WorkerHas(w);
    WorkEnds(w);
    StepKeeps(w, WorkRaises);
    EndsAsDestined(Next(w, WorkRaises), between, w.worker.id, Failed);
    EndShows(Next(w, WorkRaises), between, w.worker.id);
  }

  /** A job whose work gave up on the flag ends cancelled. */
  lemma WorkCancelledEnds(maximumJobs: nat, maximumPending: nat, before: seq<Action>, between: seq<Action>)
    requires Runs(Start(maximumJobs, maximumPending), before)
    requires var w := After(Start(maximumJobs, maximumPending), before);
      w.worker.Working? && Enabled(w, WorkCancelled) && Runs(Next(w, WorkCancelled), between)
    ensures var w := After(Start(maximumJobs, maximumPending), before);
      var v, id := After(Next(w, WorkCancelled), between), w.worker.id;
      id in v.jobs && (v.jobs[id].future.Done? ==> v.jobs[id].state.Cancelled?)
  {
    hide Inv, Next, Enabled;
    Reached(maximumJobs, maximumPending, before);
    var w := After(Start(maximumJobs, maximumPending), before);
    WorkerHas(w);
    StepKeeps(w, WorkCancelled);
    WorkEnds(w);
    EndsAsDestined(Next(w, WorkCancelled), between, w.worker.id, Cancelled);
  }

  // ----- a flag set in time

  /** Flagged before its work began, and still queued or cancelled. */
  predicate Spared(w: World, id: Id) {
    && id in w.jobs && w.jobs[id].cancelled && (w.jobs[id].state.Queued? || w.jobs[id].state.Cancelled?)
    && (w.jobs[id].future.Unset? || w.jobs[id].future.Pending? || w.jobs[id].future.Withdrawn?
        || w.worker == Starting(id) || Destined(w, id, Cancelled) || Ended(w, id, Cancelled))
  }

  lemma SparedQueue(w: World, a: Action, id: Id)
    requires Inv(w) && WorkerEnabled(w, a) && !WorkerAction(a) && Spared(w, id)
    ensures Spared(WorkerStep(w, a), id)
  {
    hide RegistryInv, LockInv, WorkerInv, Numbered, Announced;
    assert JobInv(w, id);
    if a.Pick? || a.Drain? {
      assert JobInv(w, w.queue[0]);
    }
  }

  lemma SparedFirst(w: World, a: Action, id: Id)
    requires WorkerEnabled(w, a) && WorkerAction(a) && Spared(w, id) && w.worker == Starting(id)
    ensures Spared(WorkerStep(w, a), id)
  {
  }

  lemma SparedDestined(w: World, a: Action, id: Id)
    requires WorkerEnabled(w, a) && WorkerAction(a) && Spared(w, id) && Destined(w, id, Cancelled)
    ensures var v := WorkerStep(w, a);
      id in v.jobs && v.jobs[id].cancelled && (v.jobs[id].state.Queued? || v.jobs[id].state.Cancelled?)
  {
  }

  lemma SparedWork(w: World, a: Action, id: Id)
    requires Inv(w) && WorkerEnabled(w, a) && Spared(w, id)
    ensures Spared(WorkerStep(w, a), id)
  {
    hide WorkerEnabled, WorkerStep, RegistryInv, LockInv, QueueInv, Numbered, Announced;
    if !WorkerAction(a) {
      SparedQueue(w, a, id);
    } else {
      WorkerBusy(w, a);
      WorkerFrame(w, a);
      if w.worker == Starting(id) {
        SparedFirst(w, a, id);
      } else if Destined(w, id, Cancelled) {
        DestinedRunning(w, id, Cancelled);
        DestinedWork(w, a, id, Cancelled);
        SparedDestined(w, a, id);
      } else {
        assert JobInv(w, id);
      }
    }
  }

  lemma SparedManaged(w: World, a: Action, id: Id)
    requires Inv(w) && ManagerEnabled(w, a) && Spared(w, id)
    ensures Spared(ManagerStep(w, a), id)
  {
    hide ManagerStep, ManagerEnabled, OnlyMoves, WorkInv, RegistryInv, ActiveIds;
    ManagerLeavesWorker(w, a);
    ManagerKinds(w, a);
    if OnlyMoves(a) {
      MoveShape(w, a);
    } else if a.Cancel? || a.Flag? || a.FlagOne? {
      var _ := FlagShape(w, a);
    } else if a.Insert? || a.Schedule? {
      SubmitShape(w, a);
    } else {
      CancelShape(w, a);
    }
  }

  lemma SparedStep(w: World, a: Action, id: Id)
    requires Inv(w) && Enabled(w, a) && Spared(w, id)
    ensures Spared(Next(w, a), id)
  {
    hide Inv, Spared, ManagerStep, WorkerStep, ManagerEnabled, WorkerEnabled;
    if ManagerEnabled(w, a) {
      SparedManaged(w, a, id);
    } else {
      SparedWork(w, a, id);
    }
  }

  lemma {:induction false} SparedRun(w: World, actions: seq<Action>, id: Id)
    requires Inv(w) && Runs(w, actions) && Spared(w, id)
    ensures Spared(After(w, actions), id) && Inv(After(w, actions))
    decreases |actions|
  {
    hide Inv, Next, Enabled, Spared;
    if actions != [] {
      SparedStep(w, actions[0], id);
      StepKeeps(w, actions[0]);
      SparedRun(Next(w, actions[0]), actions[1..], id);
    }
  }

  /** A job flagged before its first check is never worked on, whatever is interleaved, and stays queued or is cancelled. */
  lemma FlaggedNeverWorks(maximumJobs: nat, maximumPending: nat, before: seq<Action>, between: seq<Action>, id: Id)
    requires Runs(Start(maximumJobs, maximumPending), before)
    requires var w := After(Start(maximumJobs, maximumPending), before);
      && Runs(w, between) && id in w.jobs && w.jobs[id].cancelled
      && (w.jobs[id].future.Unset? || w.jobs[id].future.Pending? || w.worker == Starting(id))
    ensures var v := After(After(Start(maximumJobs, maximumPending), before), between);
      && id in v.jobs && (v.jobs[id].state.Queued? || v.jobs[id].state.Cancelled?)
      && v.worker != Working(id) && v.worker != Returned(id) && v.worker != Storing(id) && v.worker != Completing(id)
      && v.worker != Failing(id) && v.worker != MarkingFailed(id) && !(v.worker.Moving? && v.worker.id == id)
      && (v.jobs[id].future.Done? ==> v.jobs[id].state.Cancelled?)
  {
    hide Next, Enabled, RegistryInv, LockInv, QueueInv, Numbered;
    Reached(maximumJobs, maximumPending, before);
    var w := After(Start(maximumJobs, maximumPending), before);
    assert JobInv(w, id);
    SparedRun(w, between, id);
    var v := After(w, between);
    assert JobInv(v, id);
  }

  // ----- the log

  /** The state the log last spoke of. */
  function LastState(events: seq<Event>): State {
    if events == [] then Queued
    else if events[|events| - 1].body.StateChange? then events[|events| - 1].body.state
    else LastState(events[..|events| - 1])
  }

  lemma EmitSpeaks(job: Job, body: Body)
    ensures LastState(job.Emit(body).events) == if body.StateChange? then body.state else LastState(job.events)
  {
    assert job.Emit(body).events[..|job.events|] == job.events;
  }

  /** The three moments between setting a state and logging it. */
  predicate Unlogged(w: World, id: Id) {
    || ((w.worker.Moving? || w.worker.Announcing?) && w.worker.id == id)
    || w.lock == LoggingCancelled(id)
  }

  ghost predicate Logged(w: World) {
    && (forall id | id in w.jobs :: Unlogged(w, id) || LastState(w.jobs[id].events) == w.jobs[id].state)
    && (w.worker.Moving? ==> w.worker.id in w.jobs && w.jobs[w.worker.id].state == w.worker.state)
  }

  lemma LoggedLog(w: World, a: Action)
    requires Inv(w) && Logged(w) && WorkerEnabled(w, a) && (a.WorkLogs? || a.WorkMoved? || a.Announce?)
    ensures Logged(WorkerStep(w, a))
  {
    hide WorkInv, LockInv, RegistryInv, LastState;
    WorkerNotLogging(w);
    var job := w.jobs[w.worker.id];
    EmitSpeaks(job, if a.WorkLogs? then Progress(a.tag) else StateChange(if a.WorkMoved? then w.worker.state else job.state));
  }

  lemma LoggedSet(w: World, a: Action)
    requires Logged(w) && WorkerEnabled(w, a) && (a.WorkMoves? || a.SetComplete? || a.SetCancelled? || a.SetFailed?)
    ensures Logged(WorkerStep(w, a))
  {
    hide LastState;
  }

  lemma LoggedOther(w: World, a: Action)
    requires Logged(w) && WorkerEnabled(w, a)
    requires !a.WorkLogs? && !a.WorkMoved? && !a.Announce? && !a.WorkMoves? && !a.SetComplete? && !a.SetCancelled? && !a.SetFailed?
    ensures var v := WorkerStep(w, a);
      && v.lock == w.lock && (v.worker.Moving? || v.worker.Announcing? ==> v.worker == w.worker)
      && (w.worker.Moving? || w.worker.Announcing? ==> v.worker == w.worker)
      && forall id | id in v.jobs :: id in w.jobs && v.jobs[id].events == w.jobs[id].events && v.jobs[id].state == w.jobs[id].state
    ensures w.worker.Moving? ==> w.worker.id in WorkerStep(w, a).jobs
  {
    hide LastState;
  }

  lemma LoggedWork(w: World, a: Action)
    requires Inv(w) && Logged(w) && WorkerEnabled(w, a)
    ensures Logged(WorkerStep(w, a))
  {
    hide Inv, WorkerStep, WorkerEnabled, LastState;
    if a.WorkLogs? || a.WorkMoved? || a.Announce? {
      LoggedLog(w, a);
    } else if a.WorkMoves? || a.SetComplete? || a.SetCancelled? || a.SetFailed? {
      LoggedSet(w, a);
    } else {
      LoggedOther(w, a);
    }
  }

  lemma WorkerNotLogging(w: World)
    requires Inv(w)
    ensures !w.worker.Idle? && w.lock.LoggingCancelled? ==> w.lock.id != w.worker.id
    ensures w.queue != [] && !w.worker.Idle? ==> w.queue[0] != w.worker.id
  {
    hide RegistryInv, ActiveIds, Numbered, Announced;
  }

  lemma LoggedManaged(w: World, a: Action)
    requires Inv(w) && Logged(w) && ManagerEnabled(w, a)
    ensures Logged(ManagerStep(w, a))
  {
    hide ManagerStep, ManagerEnabled, OnlyMoves, Inv, LastState;
    ManagerLeavesWorker(w, a);
    if !w.worker.Idle? {
      WorkerHas(w);
      QueuedStays(w, a);
    }
    ManagerKinds(w, a);
    if OnlyMoves(a) {
      MoveShape(w, a);
    } else if a.Cancel? || a.Flag? || a.FlagOne? {
      var _ := FlagShape(w, a);
    } else if a.Insert? || a.Schedule? {
      SubmitShape(w, a);
      SubmittedSpeaks();
    } else {
      CancelShape(w, a);
      if w.lock.LoggingCancelled? {
        LoggingKnows(w);
        EmitSpeaks(w.jobs[w.lock.id], StateChange(Cancelled));
      }
    }
  }

  lemma SubmittedSpeaks()
    ensures LastState(SUBMITTED.events) == SUBMITTED.state
  {
  }

  lemma LoggingKnows(w: World)
    requires Inv(w) && w.lock.LoggingCancelled?
    ensures w.lock.id in w.jobs && w.jobs[w.lock.id].state.Cancelled?
  {
  }

  lemma {:induction false} RunLogged(w: World, actions: seq<Action>)
    requires Inv(w) && Logged(w) && Runs(w, actions)
    ensures Logged(After(w, actions))
    decreases |actions|
  {
    hide Inv, Next, Logged, Enabled;
    if actions != [] {
      StepLogged(w, actions[0]);
      StepKeeps(w, actions[0]);
      RunLogged(Next(w, actions[0]), actions[1..]);
    }
  }

  lemma StepLogged(w: World, a: Action)
    requires Inv(w) && Logged(w) && Enabled(w, a)
    ensures Logged(Next(w, a))
  {
    hide Inv, Logged, ManagerStep, WorkerStep, ManagerEnabled, WorkerEnabled;
    if ManagerEnabled(w, a) {
      LoggedManaged(w, a);
    } else {
      LoggedWork(w, a);
    }
  }

  /** In every run a job's log tells its state, but for the moment between setting a state and logging it. */
  lemma LogTellsState(maximumJobs: nat, maximumPending: nat, actions: seq<Action>, id: Id)
    requires Runs(Start(maximumJobs, maximumPending), actions) && id in After(Start(maximumJobs, maximumPending), actions).jobs
    ensures var w := After(Start(maximumJobs, maximumPending), actions);
      Unlogged(w, id) || LastState(w.jobs[id].events) == w.jobs[id].state
  {
    hide Inv, Next, Enabled;
    StartInv(maximumJobs, maximumPending);
    RunLogged(Start(maximumJobs, maximumPending), actions);
  }

  // ----- the last steps of a job

  /** A stored result, then the state, then the log, then the future. */
  lemma Completes(w: World)
    requires w.worker.Storing? && w.worker.id in w.jobs
    ensures var id := w.worker.id;
      && Enabled(w, Store) && Enabled(Next(w, Store), SetComplete)
      && Next(Next(w, Store), SetComplete) == Put(w, id, w.jobs[id].(result := true, state := Complete)).(worker := Announcing(id))
  {
    var id, job := w.worker.id, w.jobs[w.worker.id];
    assert Next(w, Store) == Put(w, id, job.(result := true)).(worker := Completing(id));
    assert w.jobs[id := job.(result := true)][id := job.(result := true, state := Complete)]
        == w.jobs[id := job.(result := true, state := Complete)];
  }

  /** An error, then the state. */
  lemma Fails(w: World)
    requires w.worker.Failing? && w.worker.id in w.jobs
    ensures var id := w.worker.id;
      && Enabled(w, SetError) && Enabled(Next(w, SetError), SetFailed)
      && Next(Next(w, SetError), SetFailed) == Put(w, id, w.jobs[id].(error := true, state := Failed)).(worker := Announcing(id))
  {
    var id, job := w.worker.id, w.jobs[w.worker.id];
    assert Next(w, SetError) == Put(w, id, job.(error := true)).(worker := MarkingFailed(id));
    assert w.jobs[id := job.(error := true)][id := job.(error := true, state := Failed)]
        == w.jobs[id := job.(error := true, state := Failed)];
  }

  lemma Stops(w: World)
    requires w.worker.Stopping? && w.worker.id in w.jobs
    ensures Enabled(w, SetCancelled)
    ensures Next(w, SetCancelled) == Put(w, w.worker.id, w.jobs[w.worker.id].(state := Cancelled)).(worker := Announcing(w.worker.id))
  {
  }

  /** A state set is logged, the future is done, and the worker is free. */
  lemma Announces(w: World)
    requires w.worker.Announcing? && w.worker.id in w.jobs
    ensures var id, job := w.worker.id, w.jobs[w.worker.id];
      && Enabled(w, Announce) && Enabled(Next(w, Announce), Finish)
      && Next(Next(w, Announce), Finish) == Put(w, id, job.Emit(StateChange(job.state)).(future := Done)).(worker := Idle)
  {
    var id, job := w.worker.id, w.jobs[w.worker.id];
    assert Next(w, Announce) == Put(w, id, job.Emit(StateChange(job.state))).(worker := Finishing(id));
    assert w.jobs[id := job.Emit(StateChange(job.state))][id := job.Emit(StateChange(job.state)).(future := Done)]
        == w.jobs[id := job.Emit(StateChange(job.state)).(future := Done)];
  }

  /** While it works a job logs its progress, and every phase it enters. */
  lemma WorkShows(w: World, tag: string, name: string)
    requires w.worker.Working? && w.worker.id in w.jobs
    ensures var id, job := w.worker.id, w.jobs[w.worker.id];
      && Enabled(w, WorkLogs(tag)) && Next(w, WorkLogs(tag)) == Put(w, id, job.Emit(Progress(tag)))
      && Enabled(w, WorkMoves(name)) && Enabled(Next(w, WorkMoves(name)), WorkMoved)
      && Next(Next(w, WorkMoves(name)), WorkMoved) == Put(w, id, job.(state := InPhase(name)).Emit(StateChange(InPhase(name))))
  {
    var id, job := w.worker.id, w.jobs[w.worker.id];
    assert Next(w, WorkMoves(name)) == Put(w, id, job.(state := InPhase(name))).(worker := Moving(id, InPhase(name)));
    var moved := job.(state := InPhase(name));
    assert w.jobs[id := moved][id := moved.Emit(StateChange(InPhase(name)))] == w.jobs[id := moved.Emit(StateChange(InPhase(name)))];
  }
}
