/** Which jobs are admitted, evicted, cancelled and run, and in which order, in every interleaving. */
module JobAdmission {
  import opened Collections
  import opened Jobs
  import opened JobOutcomes

  // ----- submissions

  /** A submission that is still counting or looking for room. */
  predicate Deciding(lock: Lock) {
    lock.Counting? || lock.Trimming?
  }

  /** A run in which one submission decides from beginning to end. */
  ghost predicate DecidingRun(w: World, actions: seq<Action>)
    decreases |actions|
  {
    && Deciding(w.lock)
    && (actions == [] || (Enabled(w, actions[0]) && DecidingRun(Next(w, actions[0]), actions[1..])))
  }

  /** What a submission that began among `active` jobs with `registry` knows. */
  ghost predicate Counts(w: World, registry: seq<Id>, active: set<Id>) {
    && Deciding(w.lock) && w.registry == registry && w.lock.counted <= active
    && forall id | id in w.registry && id !in active :: id in w.jobs && w.jobs[id].state.Terminal()
  }

  lemma CountsStep(w: World, a: Action, registry: seq<Id>, active: set<Id>)
    requires Inv(w) && Enabled(w, a) && Counts(w, registry, active) && Deciding(Next(w, a).lock)
    ensures Counts(Next(w, a), registry, active)
  {
    hide Inv, Follows, Evolves, ManagerStep, WorkerStep, ManagerEnabled, WorkerEnabled;
    StepKeeps(w, a);
    TerminalsStay(w, Next(w, a));
    if ManagerEnabled(w, a) {
      DecidingManaged(w, a);
      var v := ManagerStep(w, a);
      forall id | id in v.lock.counted ensures id in active {
        assert id !in w.lock.counted ==> id in w.registry && id in w.jobs && !w.jobs[id].state.Terminal();
      }
    } else {
      WorkerLock(w, a);
    }
  }

  lemma TerminalsStay(w: World, v: World)
    requires Follows(w, v)
    ensures forall id | id in w.jobs && w.jobs[id].state.Terminal() :: id in v.jobs && v.jobs[id].state.Terminal()
  {
    assert forall id | id in w.jobs :: Evolves(w.jobs[id], v.jobs[id]);
  }

  /** While deciding, the registry stands still and only a job that is not finished is counted. */
  lemma DecidingManaged(w: World, a: Action)
    requires Inv(w) && ManagerEnabled(w, a) && Deciding(w.lock) && Deciding(ManagerStep(w, a).lock)
    ensures var v := ManagerStep(w, a);
      && v.jobs == w.jobs && v.registry == w.registry && w.lock.counted <= v.lock.counted
      && forall id | id in v.lock.counted && id !in w.lock.counted :: id in w.registry && id in w.jobs && !w.jobs[id].state.Terminal()
  {
    hide WorkInv;
    if a.TrimOne? && w.jobs[w.lock.todo[w.lock.next]].state.Terminal() {
      WithoutProperties(w.registry, w.lock.todo[w.lock.next]);
    }
  }

  lemma {:induction false} CountsRun(w: World, actions: seq<Action>, registry: seq<Id>, active: set<Id>)
    requires Inv(w) && DecidingRun(w, actions) && Counts(w, registry, active)
    ensures Runs(w, actions) && Inv(After(w, actions)) && Counts(After(w, actions), registry, active)
    decreases |actions|
  {
    hide Inv, Next, Enabled, Counts, Deciding;
    if actions != [] {
      StepKeeps(w, actions[0]);
      DecidingNext(w, actions);
      CountsStep(w, actions[0], registry, active);
      CountsRun(Next(w, actions[0]), actions[1..], registry, active);
    }
  }

  lemma DecidingNext(w: World, actions: seq<Action>)
    requires DecidingRun(w, actions) && actions != []
    ensures Enabled(w, actions[0]) && Deciding(Next(w, actions[0]).lock)
  {
    hide Next, Enabled;
  }

  /** What a submission has found by the time it decides, against the jobs that were active when it began. */
  lemma SubmissionCounts(maximumJobs: nat, maximumPending: nat, before: seq<Action>, between: seq<Action>)
    requires Runs(Start(maximumJobs, maximumPending), before)
    requires var w := After(Start(maximumJobs, maximumPending), before);
      Enabled(w, Submit) && DecidingRun(Next(w, Submit), between)
    ensures var w := After(Start(maximumJobs, maximumPending), before);
      && Runs(Next(w, Submit), between)
      && var v := After(Next(w, Submit), between);
      Inv(v) && Counts(v, w.registry, ActiveIds(w)) && v.maximumJobs == maximumJobs && v.maximumPending == maximumPending
  {
    hide Inv, Enabled, Next, After, Runs;
    Reached(maximumJobs, maximumPending, before);
    var w := After(Start(maximumJobs, maximumPending), before);
    StepKeeps(w, Submit);
    SubmitBegins(w);
    CountsRun(Next(w, Submit), between, w.registry, ActiveIds(w));
    RunKeeps(Next(w, Submit), between);
    StartInv(maximumJobs, maximumPending);
    RunKeeps(Start(maximumJobs, maximumPending), before);
  }

  lemma SubmitBegins(w: World)
    requires Inv(w) && Enabled(w, Submit)
    ensures Counts(Next(w, Submit), w.registry, ActiveIds(w))
    ensures Next(w, Submit).maximumJobs == w.maximumJobs && Next(w, Submit).maximumPending == w.maximumPending
  {
    hide WorkInv, LockInv;
  }

  /** "Queue is full" is said only if as many jobs as may be pending were active when the submission began. */
  lemma RefusedWhenFull(maximumJobs: nat, maximumPending: nat, before: seq<Action>, between: seq<Action>)
    requires Runs(Start(maximumJobs, maximumPending), before)
    requires var w := After(Start(maximumJobs, maximumPending), before);
      Enabled(w, Submit) && DecidingRun(Next(w, Submit), between)
    requires var w := After(Start(maximumJobs, maximumPending), before);
      Runs(Next(w, Submit), between) && ManagerEnabled(After(Next(w, Submit), between), Refuse)
    ensures maximumPending <= |ActiveIds(After(Start(maximumJobs, maximumPending), before))|
  {
    hide Inv, Enabled, Next, After, Runs, DecidingRun;
    SubmissionCounts(maximumJobs, maximumPending, before, between);
    var w := After(Start(maximumJobs, maximumPending), before);
    var v := After(Next(w, Submit), between);
    SubsetSize(v.lock.counted, ActiveIds(w));
  }

  /** "History is full" is said only if every retained job was active when the submission began. */
  lemma HistoryFullWhenActive(maximumJobs: nat, maximumPending: nat, before: seq<Action>, between: seq<Action>)
    requires Runs(Start(maximumJobs, maximumPending), before)
    requires var w := After(Start(maximumJobs, maximumPending), before);
      Enabled(w, Submit) && DecidingRun(Next(w, Submit), between)
    requires var w := After(Start(maximumJobs, maximumPending), before);
      Runs(Next(w, Submit), between) && ManagerEnabled(After(Next(w, Submit), between), TrimFails)
    ensures var w := After(Start(maximumJobs, maximumPending), before);
      forall id | id in w.registry :: id in ActiveIds(w)
  {
    hide Enabled, Next, After, Runs, DecidingRun, WorkInv, RegistryInv, ActiveIds;
    SubmissionCounts(maximumJobs, maximumPending, before, between);
  }

  /**
   A submission that evicts a job evicts a finished one, only from a full history, and the oldest there was:
   every older retained job was active when the submission began.
   */
  lemma EvictsOldestFinished(maximumJobs: nat, maximumPending: nat, before: seq<Action>, between: seq<Action>)
    requires Runs(Start(maximumJobs, maximumPending), before)
    requires var w := After(Start(maximumJobs, maximumPending), before);
      Enabled(w, Submit) && DecidingRun(Next(w, Submit), between)
    requires var w := After(Start(maximumJobs, maximumPending), before);
      Runs(Next(w, Submit), between) && ManagerEnabled(After(Next(w, Submit), between), TrimOne)
    requires var w := After(Start(maximumJobs, maximumPending), before);
      var v := After(Next(w, Submit), between);
      Next(v, TrimOne).registry != v.registry
    ensures var w := After(Start(maximumJobs, maximumPending), before);
      var v := After(Next(w, Submit), between);
      var i := v.lock.next;
      && v.registry == w.registry && maximumJobs <= |w.registry| && i < |w.registry|
      && (forall j | 0 <= j < i :: w.registry[j] in ActiveIds(w))
      && w.registry[i] in v.jobs && v.jobs[w.registry[i]].state.Terminal()
      && Next(v, TrimOne).registry == w.registry[..i] + w.registry[i + 1..]
  {
    hide Enabled, Next, After, Runs, DecidingRun, WorkInv, ActiveIds;
    SubmissionCounts(maximumJobs, maximumPending, before, between);
    var w := After(Start(maximumJobs, maximumPending), before);
    var v := After(Next(w, Submit), between);
    TrimRemoves(v);
  }

  lemma TrimRemoves(w: World)
    requires RegistryInv(w) && LockInv(w) && ManagerEnabled(w, TrimOne)
    ensures w.lock.todo == w.registry && w.lock.next < |w.registry|
    ensures Next(w, TrimOne).registry == w.registry
         || (w.jobs[w.registry[w.lock.next]].state.Terminal() &&
             Next(w, TrimOne).registry == w.registry[..w.lock.next] + w.registry[w.lock.next + 1..])
  {
    hide ActiveIds, Without;
    WithoutAt(w.registry, w.lock.next);
  }

  lemma {:induction false} WithoutAt(s: seq<Id>, i: nat)
    requires Distinct(s) && i < |s|
    ensures Without(s, s[i]) == s[..i] + s[i + 1..]
  {
    WithoutFirst(s, s[i]);
    hide Without;
    var rest := s[1..];
    if i == 0 {
      WithoutNone(rest, s[0]);
      assert s[..0] + s[1..] == rest;
    } else {
      WithoutAt(rest, i - 1);
      assert rest[i - 1] == s[i];
      assert [s[0]] + (rest[..i - 1] + rest[i..]) == s[..i] + s[i + 1..];
    }
  }

  lemma WithoutFirst(s: seq<Id>, id: Id)
    requires s != []
    ensures Without(s, id) == if s[0] == id then Without(s[1..], id) else [s[0]] + Without(s[1..], id)
  {
  }

  lemma {:induction false} WithoutNone(s: seq<Id>, id: Id)
    requires id !in s
    ensures Without(s, id) == s
  {
    if s == [] {
    } else {
      assert s[0] in s && forall x | x in s[1..] :: x in s;
      WithoutNone(s[1..], id);
    }
  }

  /** The active jobs among the first `k` retained ones. */
  function ActiveAmong(w: World, k: nat): set<Id>
    requires k <= |w.registry|
  {
    set id | id in ActiveIds(w) && id in w.registry[..k]
  }

  lemma ActiveNext(w: World, k: nat)
    requires k < |w.registry|
    ensures ActiveAmong(w, 0) == {} && ActiveAmong(w, |w.registry|) == ActiveIds(w)
    ensures ActiveAmong(w, k + 1) == ActiveAmong(w, k) + if w.registry[k] in ActiveIds(w) then {w.registry[k]} else {}
  {
    assert w.registry[..k + 1] == w.registry[..k] + [w.registry[k]];
    assert w.registry[..|w.registry|] == w.registry;
  }

  lemma ActiveAll(w: World)
    ensures ActiveAmong(w, 0) == {} && ActiveAmong(w, |w.registry|) == ActiveIds(w)
  {
    assert w.registry[..|w.registry|] == w.registry;
  }

  /** A finished job is not counted, so an undisturbed submission counts exactly the active ones. */
  lemma {:induction false} UndisturbedCount(w: World, k: nat)
    requires Inv(w) && w.lock.Free? && k <= |w.registry|
    ensures Later(w, w.(lock := Counting(k, ActiveAmong(w, k))))
  {
    hide Inv, Next, Enabled, Later, ActiveIds, ActiveAmong;
    if k == 0 {
      LaterNow(w);
      SubmitsCounting(w);
      LaterThen(w, w, Submit);
      ActiveAll(w);
    } else {
      UndisturbedCount(w, k - 1);
      CountsOne(w, k - 1, ActiveAmong(w, k - 1));
      LaterThen(w, w.(lock := Counting(k - 1, ActiveAmong(w, k - 1))), CountOne);
      ActiveNext(w, k - 1);
    }
  }

  lemma LaterNow(w: World)
    ensures Later(w, w)
  {
    assert Runs(w, []) && After(w, []) == w;
  }

  lemma SubmitsCounting(w: World)
    requires w.lock.Free?
    ensures Enabled(w, Submit) && Next(w, Submit) == w.(lock := Counting(0, {}))
  {
  }

  lemma CountsOne(w: World, k: nat, counted: set<Id>)
    requires Inv(w) && k < |w.registry|
    ensures var v := w.(lock := Counting(k, counted));
      && Enabled(v, CountOne)
      && Next(v, CountOne) == w.(lock := Counting(k + 1, counted + if w.registry[k] in ActiveIds(w) then {w.registry[k]} else {}))
  {
    hide WorkInv, LockInv;
  }

  /**
   With fewer jobs active than may be pending and room in the history, an undisturbed submission is admitted: the
   new job is queued, last in the registry and last in the executor's queue. With as many active it is refused.
   */
  lemma UndisturbedSubmission(w: World, id: Id)
    requires Inv(w) && w.lock.Free? && !w.down && id !in w.jobs && |w.registry| < w.maximumJobs
    ensures |ActiveIds(w)| < w.maximumPending ==>
      Later(w, w.(jobs := w.jobs[id := SUBMITTED.(future := Pending)], registry := w.registry + [id], queue := w.queue + [id]))
    ensures w.maximumPending <= |ActiveIds(w)| ==>
      var v := w.(lock := Counting(|w.registry|, ActiveIds(w)));
      Later(w, v) && Enabled(v, Refuse) && !Enabled(v, Admit) && Next(v, Refuse) == w
  {
    hide Inv, Next, Enabled, Later, ActiveIds, ActiveAmong;
    UndisturbedCount(w, |w.registry|);
    ActiveAll(w);
    var v := w.(lock := Counting(|w.registry|, ActiveIds(w)));
    if |ActiveIds(w)| < w.maximumPending {
      AdmittedQueued(w, id);
      LaterThen(w, v, Admit);
      LaterThen(w, w.(lock := Inserting(ActiveIds(w))), Insert(id));
      LaterThen(w, Put(w, id, SUBMITTED).(registry := w.registry + [id], lock := Scheduling(id)), Schedule);
    } else {
      RefusedNow(w);
    }
  }

  lemma AdmittedQueued(w: World, id: Id)
    requires |ActiveIds(w)| < w.maximumPending && |w.registry| < w.maximumJobs && w.lock.Free? && !w.down && id !in w.jobs
    ensures var v := w.(lock := Counting(|w.registry|, ActiveIds(w)));
      Enabled(v, Admit) && Next(v, Admit) == w.(lock := Inserting(ActiveIds(w)))
    ensures var v := w.(lock := Inserting(ActiveIds(w)));
      Enabled(v, Insert(id)) && Next(v, Insert(id)) == Put(w, id, SUBMITTED).(registry := w.registry + [id], lock := Scheduling(id))
    ensures var v := Put(w, id, SUBMITTED).(registry := w.registry + [id], lock := Scheduling(id));
      Enabled(v, Schedule) &&
      Next(v, Schedule) == w.(jobs := w.jobs[id := SUBMITTED.(future := Pending)], registry := w.registry + [id], queue := w.queue + [id])
  {
    hide ActiveIds;
    assert w.jobs[id := SUBMITTED][id := SUBMITTED.(future := Pending)] == w.jobs[id := SUBMITTED.(future := Pending)];
  }

  lemma RefusedNow(w: World)
    requires w.maximumPending <= |ActiveIds(w)| && w.lock.Free?
    ensures var v := w.(lock := Counting(|w.registry|, ActiveIds(w)));
      Enabled(v, Refuse) && !Enabled(v, Admit) && Next(v, Refuse) == w
  {
    hide ActiveIds;
  }

  // ----- cancelling and discarding

  /** Cancelling a job that has not started withdraws it: flagged, cancelled, and logged as such. */
  lemma CancelsWaiting(w: World, id: Id)
    requires w.lock.Free? && id in w.registry && id in w.jobs && (w.jobs[id].future.Pending? || w.jobs[id].future.Withdrawn?)
    ensures Enabled(w, Cancel(id))
    ensures var v := Next(w, Cancel(id));
      && Enabled(v, Withdraw) && Enabled(Next(v, Withdraw), MarkCancelled) && Enabled(Next(Next(v, Withdraw), MarkCancelled), LogCancelled)
      && Next(Next(Next(v, Withdraw), MarkCancelled), LogCancelled)
           == Put(w, id, w.jobs[id].(cancelled := true, future := Withdrawn, state := Cancelled).Emit(StateChange(Cancelled)))
  {
    var job := w.jobs[id];
    CancelFlags(w, id);
    var x := Put(w, id, job.(cancelled := true)).(lock := Withdrawing(id));
    WithdrawsWaiting(x);
    var y := Put(w, id, job.(cancelled := true, future := Withdrawn)).(lock := MarkingCancelled(id));
    assert Put(x, id, job.(cancelled := true, future := Withdrawn)).(lock := MarkingCancelled(id)) == y;
    MarksCancelled(y);
    var z := Put(w, id, job.(cancelled := true, future := Withdrawn, state := Cancelled)).(lock := LoggingCancelled(id));
    assert Put(y, id, y.jobs[id].(state := Cancelled)).(lock := LoggingCancelled(id)) == z;
    LogsCancelled(z);
    hide Next, Enabled;
    assert Put(z, id, z.jobs[id].Emit(StateChange(Cancelled))).(lock := Free)
        == Put(w, id, job.(cancelled := true, future := Withdrawn, state := Cancelled).Emit(StateChange(Cancelled)));
  }

  lemma CancelFlags(w: World, id: Id)
    requires w.lock.Free? && id in w.registry && id in w.jobs
    ensures Enabled(w, Cancel(id)) && Next(w, Cancel(id)) == Put(w, id, w.jobs[id].(cancelled := true)).(lock := Withdrawing(id))
  {
  }

  lemma WithdrawsWaiting(w: World)
    requires w.lock.Withdrawing? && w.lock.id in w.jobs && (w.jobs[w.lock.id].future.Pending? || w.jobs[w.lock.id].future.Withdrawn?)
    ensures Enabled(w, Withdraw)
    ensures Next(w, Withdraw) == Put(w, w.lock.id, w.jobs[w.lock.id].(future := Withdrawn)).(lock := MarkingCancelled(w.lock.id))
  {
  }

  lemma MarksCancelled(w: World)
    requires w.lock.MarkingCancelled? && w.lock.id in w.jobs
    ensures Enabled(w, MarkCancelled)
    ensures Next(w, MarkCancelled) == Put(w, w.lock.id, w.jobs[w.lock.id].(state := Cancelled)).(lock := LoggingCancelled(w.lock.id))
  {
  }

  lemma LogsCancelled(w: World)
    requires w.lock.LoggingCancelled? && w.lock.id in w.jobs
    ensures Enabled(w, LogCancelled)
    ensures Next(w, LogCancelled) == Put(w, w.lock.id, w.jobs[w.lock.id].Emit(StateChange(Cancelled))).(lock := Free)
  {
  }

  /** Cancelling a job that has started, or is done, only sets its flag. */
  lemma CancelsStarted(w: World, id: Id)
    requires w.lock.Free? && id in w.registry && id in w.jobs && !w.jobs[id].future.Pending? && !w.jobs[id].future.Withdrawn?
    ensures Enabled(w, Cancel(id)) && Enabled(Next(w, Cancel(id)), Withdraw)
    ensures Next(Next(w, Cancel(id)), Withdraw) == Put(w, id, w.jobs[id].(cancelled := true))
  {
    CancelFlags(w, id);
  }

  /** Discarding a finished job removes it; discarding another only sets its flag. */
  lemma Discards(w: World, id: Id)
    requires w.lock.Free? && id in w.registry && id in w.jobs
    ensures Enabled(w, Discard(id))
    ensures w.jobs[id].state.Terminal() ==>
      Enabled(Next(w, Discard(id)), Delete) && Next(Next(w, Discard(id)), Delete) == w.(registry := Without(w.registry, id))
    ensures !w.jobs[id].state.Terminal() ==>
      Enabled(Next(w, Discard(id)), Flag) && Next(Next(w, Discard(id)), Flag) == Put(w, id, w.jobs[id].(cancelled := true))
  {
    hide Without;
  }

  // ----- what no run loses or reorders

  /** Every job whose future is pending waits in the executor's queue. */
  ghost predicate Waiters(w: World) {
    forall id | id in w.jobs && w.jobs[id].future.Pending? :: id in w.queue
  }

  lemma WaitersPick(w: World, a: Action)
    requires Inv(w) && Waiters(w) && WorkerEnabled(w, a) && (a.Pick? || a.Drain? || a.ExecutorDown?)
    ensures Waiters(WorkerStep(w, a))
  {
    hide RegistryInv, LockInv, WorkerInv, Sound;
    if !a.ExecutorDown? {
      assert JobInv(w, w.queue[0]);
      assert w.queue == [w.queue[0]] + w.queue[1..];
    }
  }

  /** The worker's other steps leave the queue alone and make no future pending. */
  lemma WaitersWork(w: World, a: Action)
    requires WorkerEnabled(w, a) && WorkerAction(a) && w.worker.id in w.jobs
    ensures var v := WorkerStep(w, a);
      && v.queue == w.queue && w.worker.id in v.jobs
      && (v.jobs[w.worker.id].future == w.jobs[w.worker.id].future || v.jobs[w.worker.id].future.Done?)
  {
  }

  lemma WaitersManaged(w: World, a: Action)
    requires Waiters(w) && ManagerEnabled(w, a)
    ensures Waiters(ManagerStep(w, a)) && w.queue <= ManagerStep(w, a).queue
  {
    hide ManagerStep, ManagerEnabled, OnlyMoves;
    ManagerKinds(w, a);
    ManagerQueue(w, a);
    if OnlyMoves(a) {
      MoveShape(w, a);
    } else if a.Cancel? || a.Flag? || a.FlagOne? {
      var _ := FlagShape(w, a);
    } else if a.Insert? || a.Schedule? {
      SubmitShape(w, a);
    } else {
      CancelShape(w, a);
    }
  }

  lemma ManagerQueue(w: World, a: Action)
    requires ManagerEnabled(w, a)
    ensures var v := ManagerStep(w, a);
      v.queue == if a.Schedule? && !w.down then w.queue + [w.lock.id] else w.queue
    ensures a.Schedule? && w.down ==> ManagerStep(w, a).jobs == w.jobs
  {
    hide Without;
  }

  lemma WaitersStep(w: World, a: Action)
    requires Inv(w) && Waiters(w) && Enabled(w, a)
    ensures Waiters(Next(w, a))
  {
    hide Inv, ManagerStep, WorkerStep, ManagerEnabled, WorkerEnabled;
    if ManagerEnabled(w, a) {
      WaitersManaged(w, a);
    } else if WorkerAction(a) {
      WorkerBusy(w, a);
      WorkerFrame(w, a);
      WaitersWork(w, a);
    } else {
      WaitersPick(w, a);
    }
  }

  lemma {:induction false} WaitersRun(w: World, actions: seq<Action>)
    requires Inv(w) && Waiters(w) && Runs(w, actions)
    ensures Waiters(After(w, actions))
    decreases |actions|
  {
    hide Inv, Next, Enabled, Waiters;
    if actions != [] {
      WaitersStep(w, actions[0]);
      StepKeeps(w, actions[0]);
      WaitersRun(Next(w, actions[0]), actions[1..]);
    }
  }

  /** No scheduled job is lost: as long as its future is pending it is in the queue. */
  lemma NoneLost(maximumJobs: nat, maximumPending: nat, actions: seq<Action>, id: Id)
    requires Runs(Start(maximumJobs, maximumPending), actions) && id in After(Start(maximumJobs, maximumPending), actions).jobs
    requires After(Start(maximumJobs, maximumPending), actions).jobs[id].future.Pending?
    ensures id in After(Start(maximumJobs, maximumPending), actions).queue
  {
    hide Inv, Next, Enabled;
    StartInv(maximumJobs, maximumPending);
    WaitersRun(Start(maximumJobs, maximumPending), actions);
  }

  /** How many jobs the executor takes from its queue. */
  function Taken(actions: seq<Action>): nat {
    if actions == [] then 0 else (if actions[0].Pick? || actions[0].Drain? then 1 else 0) + Taken(actions[1..])
  }

  lemma QueueStep(w: World, a: Action)
    requires Enabled(w, a)
    ensures if a.Pick? || a.Drain? then w.queue != [] && Next(w, a).queue == w.queue[1..] else w.queue <= Next(w, a).queue
  {
    hide ManagerStep, ManagerEnabled;
    if ManagerEnabled(w, a) {
      ManagerKinds(w, a);
      ManagerQueue(w, a);
    }
  }

  /** The queue is first in, first out: taking `n` jobs, in any run, leaves those behind the first `n` in their order, new ones after them. */
  lemma {:induction false} QueueRun(w: World, actions: seq<Action>)
    requires Runs(w, actions)
    ensures Taken(actions) <= |w.queue| ==> w.queue[Taken(actions)..] <= After(w, actions).queue
    decreases |actions|
  {
    hide Next, Enabled;
    if actions != [] {
      var v, n := Next(w, actions[0]), Taken(actions[1..]);
      QueueStep(w, actions[0]);
      QueueRun(v, actions[1..]);
      if Taken(actions) <= |w.queue| {
        assert n <= |v.queue|;
        if actions[0].Pick? || actions[0].Drain? {
          assert v.queue[n..] == w.queue[n + 1..];
        } else {
          assert w.queue[n..] <= v.queue[n..];
        }
      }
    }
  }

  /** A job is taken from the front of the queue, and only there: it starts, if its future is pending, or is dropped. */
  lemma PicksFirst(w: World)
    requires Enabled(w, Pick)
    ensures w.worker.Idle? && w.queue != [] && w.queue[0] in w.jobs
    ensures Next(w, Pick) ==
      if w.jobs[w.queue[0]].future.Pending?
      then Put(w, w.queue[0], w.jobs[w.queue[0]].(future := Running)).(queue := w.queue[1..], worker := Starting(w.queue[0]))
      else w.(queue := w.queue[1..])
  {
    assert !ManagerEnabled(w, Pick);
  }

  /** An idle worker starts the first queued job whose future is pending, and works on it unless its flag is already set. */
  lemma StartsFirst(w: World)
    requires w.worker.Idle? && w.queue != [] && w.queue[0] in w.jobs && w.jobs[w.queue[0]].future.Pending?
    ensures var id := w.queue[0];
      && Enabled(w, Pick) && Enabled(Next(w, Pick), FirstCheck)
      && Next(Next(w, Pick), FirstCheck) ==
           Put(w, id, w.jobs[id].(future := Running)).(queue := w.queue[1..], worker := if w.jobs[id].cancelled then Stopping(id) else Working(id))
  {
    assert Enabled(w, Pick);
    PicksFirst(w);
    FirstCheckDecides(Next(w, Pick));
    hide Next;
  }

  predicate Precedes(s: seq<Id>, x: Id, y: Id) {
    exists i, j | 0 <= i < j < |s| :: s[i] == x && s[j] == y
  }

  lemma {:induction false} WithoutPrecedes(s: seq<Id>, id: Id, x: Id, y: Id)
    requires Precedes(s, x, y) && x != id && y != id
    ensures Precedes(Without(s, id), x, y)
  {
    var i, j :| 0 <= i < j < |s| && s[i] == x && s[j] == y;
    var rest := Without(s[1..], id);
    if i == 0 {
      WithoutHas(s[1..], id, y);
      var k :| 0 <= k < |rest| && rest[k] == y;
      assert Without(s, id)[0] == x && Without(s, id)[k + 1] == y;
    } else {
      assert s[1..][i - 1] == x && s[1..][j - 1] == y;
      WithoutPrecedes(s[1..], id, x, y);
      var p, q :| 0 <= p < q < |rest| && rest[p] == x && rest[q] == y;
      if s[0] != id {
        assert Without(s, id)[p + 1] == x && Without(s, id)[q + 1] == y;
      }
    }
  }

  lemma {:induction false} WithoutHas(s: seq<Id>, id: Id, y: Id)
    requires y in s && y != id
    ensures y in Without(s, id)
  {
    if s[0] == y {
    } else {
      assert y in s[1..];
      WithoutHas(s[1..], id, y);
    }
  }

  /** How a step changes the registry: by a new job at the end, by one job less, or not at all. */
  lemma RegistryStep(w: World, a: Action) returns (id: Id)
    requires Enabled(w, a)
    ensures a.Insert? ==> a.id !in w.jobs && Next(w, a).registry == w.registry + [a.id]
    ensures !a.Insert? ==> Next(w, a).registry == w.registry || Next(w, a).registry == Without(w.registry, id)
  {
    hide ManagerStep, WorkerStep, ManagerEnabled, WorkerEnabled;
    id := 0;
    if !ManagerEnabled(w, a) {
      WorkerNotInsert(w, a);
      WorkerRegistry(w, a);
    } else if a.Insert? {
      InsertShape(w, a);
    } else if a.TrimOne? || a.Delete? {
      id := ShrinkShape(w, a);
    } else {
      ManagerRegistry(w, a);
    }
  }

  lemma WorkerNotInsert(w: World, a: Action)
    requires WorkerEnabled(w, a)
    ensures !a.Insert?
  {
  }

  lemma InsertShape(w: World, a: Action)
    requires ManagerEnabled(w, a) && a.Insert?
    ensures a.id !in w.jobs && ManagerStep(w, a).registry == w.registry + [a.id]
  {
  }

  lemma ShrinkShape(w: World, a: Action) returns (id: Id)
    requires ManagerEnabled(w, a) && (a.TrimOne? || a.Delete?)
    ensures ManagerStep(w, a).registry == w.registry || ManagerStep(w, a).registry == Without(w.registry, id)
  {
    hide Without;
    id := if a.TrimOne? then w.lock.todo[w.lock.next] else w.lock.id;
  }

  lemma NoNewJobs(w: World, a: Action)
    requires Inv(w) && Enabled(w, a)
    ensures forall id | id in w.jobs :: id in Next(w, a).jobs
    ensures a.Insert? ==> a.id in Next(w, a).jobs
    ensures forall id | id in Next(w, a).registry && id !in w.jobs :: a.Insert? && id == a.id
  {
    hide WorkInv, LockInv, Evolves, ManagerStep, WorkerStep, ManagerEnabled, WorkerEnabled;
    StepKeeps(w, a);
    var gone := RegistryStep(w, a);
    WithoutProperties(w.registry, gone);
    if a.Insert? {
      InsertedJob(w, a);
    }
  }

  lemma InsertedJob(w: World, a: Action)
    requires Enabled(w, a) && a.Insert?
    ensures a.id in Next(w, a).jobs
  {
  }

  /** A job that has left the registry does not come back. */
  lemma {:induction false} NotReinserted(w: World, actions: seq<Action>, id: Id)
    requires Inv(w) && Runs(w, actions) && id in w.jobs && id !in w.registry
    ensures id !in After(w, actions).registry
    decreases |actions|
  {
    hide Inv, Next, Enabled;
    if actions != [] {
      GoneStays(w, actions[0], id);
      StepKeeps(w, actions[0]);
      NotReinserted(Next(w, actions[0]), actions[1..], id);
    }
  }

  lemma GoneStays(w: World, a: Action, id: Id)
    requires Inv(w) && Enabled(w, a) && id in w.jobs && id !in w.registry
    ensures id in Next(w, a).jobs && id !in Next(w, a).registry
  {
    hide WorkInv, LockInv, Next, Enabled;
    NoNewJobs(w, a);
    var gone := RegistryStep(w, a);
    WithoutProperties(w.registry, gone);
  }

  lemma PrecedesStep(w: World, a: Action, x: Id, y: Id)
    requires Inv(w) && Enabled(w, a) && x in w.registry && x in Next(w, a).registry && y in Next(w, a).registry
    requires Precedes(w.registry, x, y) || y !in w.jobs
    ensures Precedes(Next(w, a).registry, x, y)
  {
    hide WorkInv, LockInv, Next, Enabled, Without;
    var gone := RegistryStep(w, a);
    NoNewJobs(w, a);
    var v := Next(w, a);
    if a.Insert? {
      if Precedes(w.registry, x, y) {
        var i, j :| 0 <= i < j < |w.registry| && w.registry[i] == x && w.registry[j] == y;
        assert v.registry[i] == x && v.registry[j] == y;
      } else {
        var i :| 0 <= i < |w.registry| && w.registry[i] == x;
        assert v.registry[i] == x && v.registry[|w.registry|] == y;
      }
    } else if v.registry != w.registry {
      WithoutProperties(w.registry, gone);
      WithoutPrecedes(w.registry, gone, x, y);
    }
  }

  /** The registry stays in the order of submission: what came before still does, and new jobs come after. */
  lemma {:induction false} RegistryInOrder(w: World, actions: seq<Action>, x: Id, y: Id)
    requires Inv(w) && Runs(w, actions) && x in w.registry && x in After(w, actions).registry && y in After(w, actions).registry
    requires Precedes(w.registry, x, y) || y !in w.jobs
    ensures Precedes(After(w, actions).registry, x, y)
    decreases |actions|
  {
    hide Inv, Next, Enabled, Precedes;
    if actions == [] {
      NewNotRetained(w, y);
    } else {
      var v := Next(w, actions[0]);
      StepKeeps(w, actions[0]);
      StaysJob(w, actions[0], x);
      if x !in v.registry {
        NotReinserted(v, actions[1..], x);
      }
      if y in v.registry {
        PrecedesStep(w, actions[0], x, y);
        RegistryInOrder(v, actions[1..], x, y);
      } else {
        if y in v.jobs {
          NotReinserted(v, actions[1..], y);
        }
        RegistryInOrder(v, actions[1..], x, y);
      }
    }
  }

  lemma NewNotRetained(w: World, y: Id)
    requires Inv(w) && y in w.registry
    ensures y in w.jobs
  {
  }

  lemma StaysJob(w: World, a: Action, id: Id)
    requires Inv(w) && Enabled(w, a) && id in w.registry
    ensures id in w.jobs && id in Next(w, a).jobs
  {
    hide WorkInv, LockInv, Next, Enabled;
    NoNewJobs(w, a);
  }

  /** Shutting the executor down lasts. */
  lemma DownStays(w: World, a: Action)
    requires Enabled(w, a) && w.down
    ensures Next(w, a).down
  {
    hide ManagerStep, WorkerStep, ManagerEnabled, WorkerEnabled;
    if ManagerEnabled(w, a) {
      ManagerDown(w, a);
    } else {
      WorkerDown(w, a);
    }
  }

  lemma ManagerDown(w: World, a: Action)
    requires ManagerEnabled(w, a)
    ensures ManagerStep(w, a).down == w.down
  {
    hide Without;
  }

  lemma WorkerDown(w: World, a: Action)
    requires WorkerEnabled(w, a)
    ensures w.down ==> WorkerStep(w, a).down
  {
  }

  /** A shut-down executor takes no new job and withdraws those in its queue, from the front. */
  lemma ShutsDown(w: World)
    ensures Enabled(w, ExecutorDown) && Next(w, ExecutorDown) == w.(down := true)
    ensures w.down && Enabled(w, Schedule) ==> Next(w, Schedule) == w.(lock := Free)
    ensures Enabled(w, Drain) <==> w.down && w.queue != [] && w.queue[0] in w.jobs
    ensures Enabled(w, Drain) ==> Next(w, Drain) == Put(w, w.queue[0], w.jobs[w.queue[0]].(future := Withdrawn)).(queue := w.queue[1..])
  {
  }
}
