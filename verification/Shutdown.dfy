/** Progress of the scheduler: stopping always ends with every worker joined, and
    a running pool left alone empties its queue before it falls asleep. */
module Shutdown {
  import opened Options
  import opened Counting
  import opened Scheduler
  import opened Safety

  // ---------- a measure for stopping ----------

  /** Steps a worker can still take once `running_` is false. */
  function StopRank(pc: Pc): nat {
    match pc
    case Entering => 12
    case Holding => 11
    case Parking => 10
    case Asleep => 9
    case Woken => 8
    case Testing => 7
    case Deciding => 6
    case Taking => 5
    case Working(_) => 4
    case Replying(_) => 3
    case Closing(_) => 2
    case Top => 1
    case Exited => 0
  }

  /** The same for the epoll thread, which finishes the events it was given. */
  function ProducerRank(pc: ProducerPc, batch: seq<Ready>): nat {
    match pc
    case Finished => 0
    case LoopTop => 1
    case Polling => 3 + 10 * MAX_EVENTS
    case Dispatching => 2 + 10 * |batch|
    case Reading(_) => 10 + 10 * |batch|
    case Wanting(_) => 9 + 10 * |batch|
    case Filling(_) => 8 + 10 * |batch|
    case Pushed => 7 + 10 * |batch|
    case Notified => 6 + 10 * |batch|
  }

  function StopperRank(pc: StopperPc): nat {
    match pc case Idle => 4 case StopWanting => 3 case Stopping => 2 case Joining => 1 case Stopped => 0
  }

  function StopMeasure(s: State): nat {
    Sum(s.workers, StopRank) + ProducerRank(s.producer, s.batch) + StopperRank(s.stopper)
  }

  lemma StopMeasureWorker(s: State, w: nat, act: WorkerAct)
    requires !s.running && w < |s.workers| && WorkerCan(s, w, act)
    ensures StopMeasure(WorkerStep(s, w, act)) < StopMeasure(s)
  {
    hide Sum, IsTop;
    if act.Pop? { IsTopBounds(s.queue, act.k); }
    SumUpdate(s.workers, w, WorkerStep(s, w, act).workers[w], StopRank);
  }

  lemma StopMeasureProducer(s: State, act: ProducerAct)
    requires !s.running && ProducerCan(s, act)
    ensures StopMeasure(ProducerStep(s, act)) < StopMeasure(s)
  {
    hide Sum, Priority, ClientsOf;
    if act.Notify? && act.waiter.Some? { SumUpdate(s.workers, act.waiter.value, Woken, StopRank); }
  }

  lemma StopMeasureStopper(s: State, act: StopperAct)
    requires StopperCan(s, act)
    ensures StopMeasure(StopperStep(s, act)) < StopMeasure(s)
  {
    hide Sum;
    if act == NotifyAll { SumMonotone(WakeAll(s.workers), s.workers, StopRank); }
  }

  /** Once `running_` is false every step, spurious wakeups included, uses up some
      of the measure, and `running_` stays false. */
  lemma StopMeasureStep(s: State, e: Event)
    requires !s.running && Enabled(s, e)
    ensures !Apply(s, e).running && StopMeasure(Apply(s, e)) < StopMeasure(s)
  {
    match e
    case W(w, act) => StopMeasureWorker(s, w, act);
    case P(act) => StopMeasureProducer(s, act);
    case S(act) => StopMeasureStopper(s, act);
  }

  lemma {:induction false} StoppingRunsAreFinite(s: State, es: seq<Event>)
    requires !s.running && IsRun(s, es)
    ensures |es| + StopMeasure(After(s, es)) <= StopMeasure(s)
    decreases |es|
  {
    hide StopMeasure, Enabled, Apply;
    if es != [] {
      StopMeasureStep(s, es[0]);
      StoppingRunsAreFinite(Apply(s, es[0]), es[1..]);
    }
  }

  // ---------- no deadlock while stopping ----------

  predicate AllDone(s: State) {
    AllExited(s.workers) && s.producer == Finished && s.stopper == Stopped
  }

  /** A step that is not a spurious wakeup. */
  predicate Proper(e: Event) { !(e.W? && e.act == Spurious) }

  lemma {:induction false} SomeTop(queue: seq<Task>) returns (k: nat)
    requires queue != []
    ensures IsTop(queue, k)
  {
    var n := |queue| - 1;
    if n == 0 { return 0; }
    k := SomeTop(queue[..n]);
    assert forall j | 0 <= j < n :: queue[..n][j] == queue[j];
    if queue[k].priority < queue[n].priority { k := n; }
  }

  /** The thread holding the mutex can always go on. */
  lemma LockedCanStep(s: State) returns (e: Event)
    requires Exclusive(s) && s.owner != Free
    ensures Enabled(s, e) && Proper(e) && (s.owner.ByWorker? ==> e.W?)
  {
    match s.owner
    case ByWorker(w) =>
      assert HoldsLock(s.workers[w]);
      match s.workers[w] {
        case Holding => e := W(w, Test);
        case Testing => e := W(w, Predicate);
        case Parking => e := W(w, Park);
        case Deciding => e := W(w, Decide);
        case Taking =>
          if s.queue == [] {
            e := W(w, Skip);
          } else {
            var k := SomeTop(s.queue);
            e := W(w, Pop(k));
          }
      }
    case ByProducer =>
      assert ProducerHoldsLock(s.producer);
      match s.producer {
        case Filling(_) => e := P(if |s.queue| >= s.capacity then Reject else Push);
        case Pushed =>
          if SomeoneAsleep(s.workers) {
            var w :| 0 <= w < |s.workers| && s.workers[w] == Asleep;
            e := P(Notify(Some(w)));
          } else {
            e := P(Notify(None));
          }
        case Notified => e := P(Unlock);
      }
    case ByStopper => e := S(NotifyAll);
  }

  /** With the mutex free, a worker that is neither asleep nor gone can go on. */
  lemma WorkerCanStep(s: State, w: nat) returns (e: Event)
    requires Exclusive(s) && s.owner == Free && w < |s.workers|
    requires s.workers[w] != Asleep && s.workers[w] != Exited
    ensures Enabled(s, e) && Proper(e) && e.W?
  {
    assert !HoldsLock(s.workers[w]);
    match s.workers[w]
    case Top => e := W(w, Check);
    case Entering => e := W(w, Lock);
    case Woken => e := W(w, Relock);
    case Working(_) => e := W(w, Handle);
    case Replying(_) => e := W(w, Send);
    case Closing(_) => e := W(w, Close);
  }

  lemma ProducerCanStep(s: State) returns (e: Event)
    requires Exclusive(s) && s.owner == Free && s.producer != Finished
    ensures Enabled(s, e) && Proper(e)
  {
    match s.producer
    case LoopTop => e := P(Loop);
    case Polling => e := P(Poll([]));
    case Dispatching => e := P(if s.batch != [] && s.batch[0] == Listener then Accept(NoConnection) else Next);
    case Reading(_) => e := P(Read(None));
    case Wanting(_) => e := P(LockQueue);
  }

  /** After stop is called some thread can move until all are done, and it need not
      be by a spurious wakeup. */
  lemma StopNeverBlocks(s: State) returns (e: Event)
    requires Exclusive(s) && StopFlags(s) && !s.running && !AllDone(s)
    ensures Enabled(s, e) && Proper(e)
  {
    if s.owner != Free {
      e := LockedCanStep(s);
    } else if s.producer != Finished {
      e := ProducerCanStep(s);
    } else if s.stopper == StopWanting {
      e := S(LockStop);
    } else if AllExited(s.workers) {
      e := S(Join);
    } else {
      var w :| 0 <= w < |s.workers| && s.workers[w] != Exited;
      e := WorkerCanStep(s, w);
    }
  }

  /** `stop` returns: from the moment it clears `running_`, every run is finite,
      and one that cannot be continued has joined every worker. */
  lemma StopTerminates(s: State, es: seq<Event>)
    requires Reachable(s) && !s.running && IsRun(s, es)
    ensures |es| <= StopMeasure(s)
    ensures (forall e :: Enabled(After(s, es), e) ==> !Proper(e)) ==> AllDone(After(s, es))
  {
    hide Invariant, Enabled, StopMeasure;
    ReachableInvariant(s);
    InvariantRun(s, es);
    StoppingRunsAreFinite(s, es);
    StaysStopped(s, es);
    InvariantParts(After(s, es));
    if !AllDone(After(s, es)) {
      var e := StopNeverBlocks(After(s, es));
    }
  }

  lemma InvariantParts(s: State)
    requires Invariant(s)
    ensures Exclusive(s) && StopFlags(s) && QueueFacts(s) && NoLostWakeup(s)
  {}

  lemma {:induction false} StaysStopped(s: State, es: seq<Event>)
    requires !s.running && IsRun(s, es)
    ensures !After(s, es).running
    decreases |es|
  {
    hide Enabled, Apply, StopMeasure;
    if es != [] {
      StopMeasureStep(s, es[0]);
      StaysStopped(Apply(s, es[0]), es[1..]);
    }
  }

  // ---------- what stopping still lets through ----------

  /** Past the test of `running_` and not yet at a task. */
  function MayPop(pc: Pc): nat {
    match pc
    case Top => 0
    case Working(_) => 0
    case Replying(_) => 0
    case Closing(_) => 0
    case Exited => 0
    case _ => 1
  }

  lemma LatePopStep(s: State, e: Event)
    requires !s.running && Enabled(s, e)
    ensures |Apply(s, e).popped| + Sum(Apply(s, e).workers, MayPop) <= |s.popped| + Sum(s.workers, MayPop)
  {
    hide Sum, IsTop, Priority, ClientsOf, Reportable;
    match e
    case W(w, act) => LatePopWorker(s, w, act);
    case P(act) =>
      if act.Notify? && act.waiter.Some? { SumUpdate(s.workers, act.waiter.value, Woken, MayPop); }
    case S(act) => if act == NotifyAll { SumAgree(WakeAll(s.workers), s.workers, MayPop); }
  }

  lemma LatePopWorker(s: State, w: nat, act: WorkerAct)
    requires !s.running && w < |s.workers| && WorkerCan(s, w, act)
    ensures var s' := WorkerStep(s, w, act);
            |s'.popped| + Sum(s'.workers, MayPop) <= |s.popped| + Sum(s.workers, MayPop)
  {
    hide Sum, IsTop;
    if act.Pop? { IsTopBounds(s.queue, act.k); }
    SumUpdate(s.workers, w, WorkerStep(s, w, act).workers[w], MayPop);
  }

  /** After stop is called, at most one more task per worker is started. */
  lemma {:induction false} LatePops(s: State, es: seq<Event>)
    requires !s.running && IsRun(s, es)
    ensures |After(s, es).popped| + Sum(After(s, es).workers, MayPop) <= |s.popped| + Sum(s.workers, MayPop)
    decreases |es|
  {
    hide Enabled, Apply, Sum, StopMeasure;
    if es != [] {
      LatePopStep(s, es[0]);
      StopMeasureStep(s, es[0]);
      LatePops(Apply(s, es[0]), es[1..]);
    }
  }

  /** The total over all workers. */
  lemma LatePopsBounded(s: State, es: seq<Event>)
    requires !s.running && IsRun(s, es)
    ensures |After(s, es).popped| <= |s.popped| + |s.workers|
  {
    LatePops(s, es);
    SumOfOnes(s.workers, MayPop);
  }

  predicate PopBy(e: Event, w: nat) { e.W? && e.w == w && e.act.Pop? }

  /** Tasks worker w starts in a run. */
  function PopsBy(es: seq<Event>, w: nat): nat {
    if es == [] then 0 else OneIf(PopBy(es[0], w)) + PopsBy(es[1..], w)
  }

  predicate Waiting(pc: Pc) { pc == Parking || pc == Asleep }

  /** Once `running_` is false, a step moves a worker no closer to a task but by
      taking it, and none towards sleep. */
  lemma LateStep(s: State, e: Event, w: nat)
    requires !s.running && Enabled(s, e) && w < |s.workers|
    ensures !Apply(s, e).running && |Apply(s, e).workers| == |s.workers|
    ensures OneIf(PopBy(e, w)) + MayPop(Apply(s, e).workers[w]) <= MayPop(s.workers[w])
    ensures Waiting(Apply(s, e).workers[w]) ==> Waiting(s.workers[w])
  {
    hide WorkerStep, ProducerStep, StopperStep, WorkerCan, ProducerCan, StopperCan;
    match e
    case W(v, act) => LateWorkerStep(s, v, act, w);
    case P(act) => LateProducerStep(s, act, w);
    case S(act) => LateStopperStep(s, act, w);
  }

  lemma LateWorkerStep(s: State, v: nat, act: WorkerAct, w: nat)
    requires !s.running && v < |s.workers| && w < |s.workers| && WorkerCan(s, v, act)
    ensures var s' := WorkerStep(s, v, act);
      && !s'.running && |s'.workers| == |s.workers|
      && OneIf(PopBy(W(v, act), w)) + MayPop(s'.workers[w]) <= MayPop(s.workers[w])
      && (Waiting(s'.workers[w]) ==> Waiting(s.workers[w]))
  {
    hide IsTop;
    if act.Pop? { IsTopBounds(s.queue, act.k); }
  }

  lemma LateProducerStep(s: State, act: ProducerAct, w: nat)
    requires !s.running && w < |s.workers| && ProducerCan(s, act)
    ensures var s' := ProducerStep(s, act);
      && !s'.running && |s'.workers| == |s.workers|
      && MayPop(s'.workers[w]) <= MayPop(s.workers[w])
      && (Waiting(s'.workers[w]) ==> Waiting(s.workers[w]))
  {
    hide Reportable, Priority, ClientsOf;
  }

  lemma LateStopperStep(s: State, act: StopperAct, w: nat)
    requires !s.running && w < |s.workers| && StopperCan(s, act)
    ensures var s' := StopperStep(s, act);
      && !s'.running && |s'.workers| == |s.workers|
      && MayPop(s'.workers[w]) <= MayPop(s.workers[w])
      && (Waiting(s'.workers[w]) ==> Waiting(s.workers[w]))
  {}

  /** After stop is called every single worker starts at most one more task, and none
      if it was not between its test of `running_` and a task. */
  lemma {:induction false} AtMostOneLatePopEach(s: State, es: seq<Event>, w: nat)
    requires !s.running && IsRun(s, es) && w < |s.workers|
    ensures |After(s, es).workers| == |s.workers|
    ensures PopsBy(es, w) + MayPop(After(s, es).workers[w]) <= MayPop(s.workers[w]) <= 1
    decreases |es|
  {
    hide Enabled, Apply, PopBy;
    if es != [] {
      LateStep(s, es[0], w);
      AtMostOneLatePopEach(Apply(s, es[0]), es[1..], w);
    }
  }

  /** After stop is called nobody newly goes to sleep: a worker that is asleep or
      about to block was so when stop was called, in every run; and after
      `notify_all` there is none. */
  lemma {:induction false} NoNewSleepers(s: State, es: seq<Event>, w: nat)
    requires Reachable(s) && !s.running && IsRun(s, es) && w < |s.workers|
    ensures |After(s, es).workers| == |s.workers|
    ensures Waiting(After(s, es).workers[w]) ==> Waiting(s.workers[w]) && !After(s, es).notified
  {
    hide Reachable, Invariant, IsRun, After;
    WaitingBefore(s, es, w);
    ReachableInvariant(s);
    InvariantRun(s, es);
    InvariantParts(After(s, es));
  }

  lemma {:induction false} WaitingBefore(s: State, es: seq<Event>, w: nat)
    requires !s.running && IsRun(s, es) && w < |s.workers|
    ensures |After(s, es).workers| == |s.workers|
    ensures Waiting(After(s, es).workers[w]) ==> Waiting(s.workers[w])
    decreases |es|
  {
    hide Enabled, Apply, Waiting;
    if es != [] {
      LateStep(s, es[0], w);
      WaitingBefore(Apply(s, es[0]), es[1..], w);
    }
  }

  // ---------- draining ----------

  /** Steps a worker can take on an empty queue before it sleeps, more behind a task. */
  function DrainRank(pc: Pc): nat {
    match pc
    case Asleep => 0
    case Exited => 0
    case Parking => 1
    case Taking => 2
    case Deciding => 3
    case Testing => 4
    case Holding => 5
    case Woken => 5
    case Entering => 6
    case Top => 7
    case Closing(_) => 8
    case Replying(_) => 9
    case Working(_) => 10
  }

  function DrainMeasure(s: State): nat { 9 * |s.queue| + Sum(s.workers, DrainRank) }

  lemma DrainMeasureStep(s: State, w: nat, act: WorkerAct)
    requires s.running && QueueFacts(s) && w < |s.workers| && WorkerCan(s, w, act) && act != Spurious
    ensures DrainMeasure(WorkerStep(s, w, act)) < DrainMeasure(s)
    ensures WorkerStep(s, w, act).running && |WorkerStep(s, w, act).queue| <= |s.queue|
  {
    hide Sum, IsTop;
    if act.Pop? { IsTopBounds(s.queue, act.k); }
    SumUpdate(s.workers, w, WorkerStep(s, w, act).workers[w], DrainRank);
  }

  predicate WorkersOnly(es: seq<Event>) {
    forall i | 0 <= i < |es| :: es[i].W? && es[i].act != Spurious
  }

  lemma {:induction false} DrainRun(s: State, es: seq<Event>)
    requires Invariant(s) && s.running && IsRun(s, es) && WorkersOnly(es)
    ensures |es| + DrainMeasure(After(s, es)) <= DrainMeasure(s)
    ensures After(s, es).running
    decreases |es|
  {
    hide DrainMeasure, Invariant, WorkerStep, WorkerCan;
    if es != [] {
      InvariantStep(s, es[0]);
      InvariantParts(s);
      DrainMeasureStep(s, es[0].w, es[0].act);
      assert forall i | 0 <= i < |es[1..]| :: es[1..][i] == es[i + 1];
      DrainRun(Apply(s, es[0]), es[1..]);
    }
  }

  /** No worker can move but by a spurious wakeup. */
  ghost predicate AtRest(s: State) {
    forall w: nat, act: WorkerAct :: Enabled(s, W(w, act)) ==> act == Spurious
  }

  predicate AllAsleep(workers: seq<Pc>) { forall w | 0 <= w < |workers| :: workers[w] == Asleep }

  /** When arrivals cease while running, the workers alone take finitely many steps,
      and they can only come to rest with the queue empty and all asleep. */
  lemma PoolDrainsQueue(s: State, es: seq<Event>)
    requires Reachable(s) && s.running && |s.workers| > 0
    requires s.owner == Free || s.owner.ByWorker?
    requires IsRun(s, es) && WorkersOnly(es)
    ensures |es| <= DrainMeasure(s)
    ensures AtRest(After(s, es)) ==> After(s, es).queue == [] && AllAsleep(After(s, es).workers)
  {
    hide Invariant, DrainMeasure, AtRest, AllAsleep, Reachable, IsRun, After, WorkersOnly;
    ReachableInvariant(s);
    DrainRun(s, es);
    InvariantRun(s, es);
    WorkersKeepLock(s, es);
    if AtRest(After(s, es)) { RestingPool(After(s, es)); }
  }

  lemma {:induction false} WorkersKeepLock(s: State, es: seq<Event>)
    requires IsRun(s, es) && WorkersOnly(es)
    ensures |After(s, es).workers| == |s.workers|
    ensures s.owner == Free || s.owner.ByWorker? ==> After(s, es).owner == Free || After(s, es).owner.ByWorker?
    decreases |es|
  {
    hide WorkerStep, WorkerCan;
    if es != [] {
      WorkerKeepsLock(s, es[0].w, es[0].act);
      assert forall i | 0 <= i < |es[1..]| :: es[1..][i] == es[i + 1];
      WorkersKeepLock(Apply(s, es[0]), es[1..]);
    }
  }

  lemma WorkerKeepsLock(s: State, w: nat, act: WorkerAct)
    requires w < |s.workers| && WorkerCan(s, w, act)
    ensures var s' := WorkerStep(s, w, act);
            |s'.workers| == |s.workers| && (s'.owner == s.owner || s'.owner == Free || s'.owner.ByWorker?)
  {
    hide IsTop;
    if act.Pop? { IsTopBounds(s.queue, act.k); }
  }

  lemma RestingPool(s: State)
    requires Invariant(s) && s.running && |s.workers| > 0 && AtRest(s)
    requires s.owner == Free || s.owner.ByWorker?
    ensures s.queue == [] && AllAsleep(s.workers)
  {
    hide Invariant, Enabled;
    InvariantParts(s);
    if s.owner.ByWorker? {
      var e := LockedCanStep(s);
      assert false;
    } else {
      forall w | 0 <= w < |s.workers| ensures s.workers[w] == Asleep {
        if s.workers[w] != Asleep {
          var e := WorkerCanStep(s, w);
          assert false;
        }
      }
      SumBounds(s.workers, IsAwake);
      assert s.workers[0] == Asleep;
    }
  }
}
