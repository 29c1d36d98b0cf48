/** Invariants of the scheduler over every run: mutual exclusion, the bounded
    queue, no lost wakeup, and the fate of every connection. */
module Safety {
  import opened Options
  import opened Counting
  import opened Scheduler

  // ---------- mutual exclusion ----------

  predicate HoldsLock(pc: Pc) {
    pc == Holding || pc == Testing || pc == Parking || pc == Deciding || pc == Taking
  }

  predicate ProducerHoldsLock(pc: ProducerPc) { pc.Filling? || pc == Pushed || pc == Notified }

  /** The mutex is held by exactly the thread inside a critical section. */
  predicate Exclusive(s: State) {
    && (forall w | 0 <= w < |s.workers| :: HoldsLock(s.workers[w]) <==> s.owner == ByWorker(w))
    && (ProducerHoldsLock(s.producer) <==> s.owner == ByProducer)
    && (s.stopper == Stopping <==> s.owner == ByStopper)
    && (s.owner.ByWorker? ==> s.owner.w < |s.workers|)
  }

  lemma ExclusiveStep(s: State, e: Event)
    requires Exclusive(s) && Enabled(s, e)
    ensures Exclusive(Apply(s, e))
  {
    hide Exclusive, WorkerStep, ProducerStep, StopperStep, WorkerCan, ProducerCan, StopperCan;
    match e
    case W(w, act) => ExclusiveWorker(s, w, act);
    case P(act) => ExclusiveProducer(s, act);
    case S(act) => ExclusiveStopper(s, act);
  }

  lemma ExclusiveWorker(s: State, w: nat, act: WorkerAct)
    requires Exclusive(s) && w < |s.workers| && WorkerCan(s, w, act)
    ensures Exclusive(WorkerStep(s, w, act))
  {
    hide IsTop;
    if act.Pop? { IsTopBounds(s.queue, act.k); }
    assert HoldsLock(s.workers[w]) <==> s.owner == ByWorker(w);
  }

  lemma ExclusiveProducer(s: State, act: ProducerAct)
    requires Exclusive(s) && ProducerCan(s, act)
    ensures Exclusive(ProducerStep(s, act))
  {
    hide HoldsLock, ProducerHoldsLock, ProducerStep, ProducerCan;
    ProducerLeavesLockers(s, act);
    ProducerLocking(s, act);
  }

  /** The epoll thread takes the free mutex, or gives back its own. */
  lemma ProducerLocking(s: State, act: ProducerAct)
    requires ProducerCan(s, act)
    ensures var s' := ProducerStep(s, act);
            && s'.stopper == s.stopper
            && s'.owner == (match act
                            case LockQueue => ByProducer
                            case Reject => Free
                            case Unlock => Free
                            case _ => s.owner)
            && (ProducerHoldsLock(s'.producer) <==>
                act == LockQueue || (ProducerHoldsLock(s.producer) && act != Reject && act != Unlock))
            && (act == LockQueue ==> s.owner == Free && !ProducerHoldsLock(s.producer))
            && (act == Reject || act == Unlock ==> ProducerHoldsLock(s.producer))
  {
    hide Reportable, Priority, ClientsOf;
  }

  /** The epoll thread can only wake a worker, not move it in or out of a section. */
  lemma ProducerLeavesLockers(s: State, act: ProducerAct)
    requires ProducerCan(s, act)
    ensures var s' := ProducerStep(s, act);
            && |s'.workers| == |s.workers|
            && forall w | 0 <= w < |s.workers| :: HoldsLock(s'.workers[w]) <==> HoldsLock(s.workers[w])
  {
    hide Reportable, Priority, ClientsOf;
  }

  lemma ExclusiveStopper(s: State, act: StopperAct)
    requires Exclusive(s) && StopperCan(s, act)
    ensures Exclusive(StopperStep(s, act))
  {}

  // ---------- stop ----------

  /** After `notify_all` nobody sleeps or is about to. */
  predicate StopFlags(s: State) {
    && (s.running <==> s.stopper == Idle)
    && (s.notified <==> s.stopper == Joining || s.stopper == Stopped)
    && (s.notified ==> forall w | 0 <= w < |s.workers| :: s.workers[w] != Asleep && s.workers[w] != Parking)
    && (s.running ==> forall w | 0 <= w < |s.workers| :: s.workers[w] != Exited)
    && (s.stopper == Stopped ==> AllExited(s.workers))
    && (s.producer == Finished ==> !s.running && s.batch == [])
    && (s.producer == Polling || s.producer == LoopTop ==> s.batch == [])
  }

  lemma StopFlagsStep(s: State, e: Event)
    requires Exclusive(s) && StopFlags(s) && Enabled(s, e)
    ensures StopFlags(Apply(s, e))
  {
    hide Exclusive, StopFlags, WorkerStep, ProducerStep, StopperStep, WorkerCan, ProducerCan, StopperCan;
    match e
    case W(w, act) => StopFlagsWorker(s, w, act);
    case P(act) => StopFlagsProducer(s, act);
    case S(act) => StopFlagsStopper(s, act);
  }

  lemma StopFlagsWorker(s: State, w: nat, act: WorkerAct)
    requires StopFlags(s) && w < |s.workers| && WorkerCan(s, w, act)
    ensures StopFlags(WorkerStep(s, w, act))
  {
    hide IsTop;
    if act.Pop? { IsTopBounds(s.queue, act.k); }
  }

  lemma StopFlagsProducer(s: State, act: ProducerAct)
    requires StopFlags(s) && ProducerCan(s, act)
    ensures StopFlags(ProducerStep(s, act))
  {
    hide Reportable, Priority, ClientsOf;
  }

  lemma StopFlagsStopper(s: State, act: StopperAct)
    requires Exclusive(s) && StopFlags(s) && StopperCan(s, act)
    ensures StopFlags(StopperStep(s, act))
  {
    if act == NotifyAll {
      forall w | 0 <= w < |s.workers| ensures s.workers[w] != Parking { assert !HoldsLock(s.workers[w]); }
    }
  }

  // ---------- the queue ----------

  /** `max(0, maxTaskQueueSize_)`. */
  function Bound(s: State): nat { if s.capacity < 0 then 0 else s.capacity }

  /** The queue is bounded; a worker about to block has seen it empty and a worker
      about to pop has seen it filled, and neither can change under them. */
  predicate QueueFacts(s: State) {
    && |s.queue| <= Bound(s)
    && (forall w | 0 <= w < |s.workers| ::
         && (s.workers[w] == Parking ==> s.queue == [])
         && (s.workers[w] == Taking ==> s.queue != [])
         && (s.workers[w] == Deciding ==> s.queue != [] || !s.running))
  }

  lemma QueueFactsStep(s: State, e: Event)
    requires Exclusive(s) && StopFlags(s) && QueueFacts(s) && Enabled(s, e)
    ensures QueueFacts(Apply(s, e))
  {
    hide Exclusive, StopFlags, QueueFacts, WorkerStep, ProducerStep, StopperStep, WorkerCan, ProducerCan, StopperCan;
    match e
    case W(w, act) => QueueFactsWorker(s, w, act);
    case P(act) => QueueFactsProducer(s, act);
    case S(act) => QueueFactsStopper(s, act);
  }

  /** Nobody else is inside a critical section. */
  lemma OthersOutside(s: State, w: nat)
    requires Exclusive(s) && (s.owner == ByWorker(w) || !s.owner.ByWorker?)
    ensures forall v | 0 <= v < |s.workers| && v != w :: !HoldsLock(s.workers[v])
    ensures !s.owner.ByWorker? && w < |s.workers| ==> !HoldsLock(s.workers[w])
  {}

  lemma QueueFactsWorker(s: State, w: nat, act: WorkerAct)
    requires Exclusive(s) && QueueFacts(s) && w < |s.workers| && WorkerCan(s, w, act)
    ensures QueueFacts(WorkerStep(s, w, act))
  {
    if act.Pop? {
      assert HoldsLock(s.workers[w]);
      OthersOutside(s, w);
      IsTopBounds(s.queue, act.k);
    }
    hide IsTop, Exclusive;
  }

  lemma QueueFactsProducer(s: State, act: ProducerAct)
    requires Exclusive(s) && QueueFacts(s) && ProducerCan(s, act)
    ensures QueueFacts(ProducerStep(s, act))
  {
    hide Reportable, Priority, ClientsOf;
    if act == Push { OthersOutside(s, 0); }
    hide Exclusive;
  }

  lemma QueueFactsStopper(s: State, act: StopperAct)
    requires StopFlags(s) && QueueFacts(s) && StopperCan(s, act)
    ensures QueueFacts(StopperStep(s, act))
  {}

  // ---------- no lost wakeup ----------

  function IsAwake(pc: Pc): nat { if pc == Asleep || pc == Exited then 0 else 1 }

  function AwakeCount(workers: seq<Pc>): nat { Sum(workers, IsAwake) }

  /** While running, a worker can only be asleep if the others suffice for the
      queue; a push is one ahead until its notification. */
  predicate NoLostWakeup(s: State) {
    s.running && SomeoneAsleep(s.workers) ==>
      |s.queue| <= AwakeCount(s.workers) + if s.producer == Pushed then 1 else 0
  }

  lemma SleepsAfterMove(s: State, w: nat, pc: Pc)
    requires w < |s.workers| && pc != Asleep
    ensures SomeoneAsleep(s.workers[w := pc]) ==> SomeoneAsleep(s.workers)
  {
    if SomeoneAsleep(s.workers[w := pc]) {
      var v :| 0 <= v < |s.workers| && s.workers[w := pc][v] == Asleep;
      assert s.workers[v] == Asleep;
    }
  }

  lemma NoLostWakeupStep(s: State, e: Event)
    requires QueueFacts(s) && NoLostWakeup(s) && StopFlags(s) && Enabled(s, e)
    ensures NoLostWakeup(Apply(s, e))
  {
    hide QueueFacts, NoLostWakeup, StopFlags, WorkerStep, ProducerStep, StopperStep, WorkerCan, ProducerCan, StopperCan;
    match e
    case W(w, act) => NoLostWakeupWorker(s, w, act);
    case P(act) => NoLostWakeupProducer(s, act);
    case S(act) => NoLostWakeupStopper(s, act);
  }

  lemma NoLostWakeupWorker(s: State, w: nat, act: WorkerAct)
    requires QueueFacts(s) && NoLostWakeup(s) && w < |s.workers| && WorkerCan(s, w, act)
    ensures NoLostWakeup(WorkerStep(s, w, act))
  {
    hide Sum, IsTop, SomeoneAsleep;
    if act.Pop? { IsTopBounds(s.queue, act.k); }
    var s' := WorkerStep(s, w, act);
    SumUpdate(s.workers, w, s'.workers[w], IsAwake);
    assert s'.workers == s.workers[w := s'.workers[w]];
    if act != Park { SleepsAfterMove(s, w, s'.workers[w]); }
  }

  lemma NoLostWakeupProducer(s: State, act: ProducerAct)
    requires NoLostWakeup(s) && ProducerCan(s, act)
    ensures NoLostWakeup(ProducerStep(s, act))
  {
    hide Sum, Reportable, Priority, ClientsOf, SomeoneAsleep;
    if act.Notify? && act.waiter.Some? {
      SumUpdate(s.workers, act.waiter.value, Woken, IsAwake);
      SleepsAfterMove(s, act.waiter.value, Woken);
      SleeperExists(s.workers, act.waiter.value);
    }
  }

  lemma SleeperExists(workers: seq<Pc>, w: nat)
    requires w < |workers| && workers[w] == Asleep
    ensures SomeoneAsleep(workers)
  {}

  lemma NoLostWakeupStopper(s: State, act: StopperAct)
    requires NoLostWakeup(s) && StopFlags(s) && StopperCan(s, act)
    ensures NoLostWakeup(StopperStep(s, act))
  {}

  // ---------- connections ----------

  function OneIf(b: bool): nat { if b then 1 else 0 }

  function HeldBy(c: nat): Pc -> nat {
    (pc: Pc) => OneIf((pc.Working? || pc.Replying? || pc.Closing?) && pc.task.conn == c)
  }

  function QueuedAs(c: nat): Task -> nat { (t: Task) => OneIf(t.conn == c) }

  function ReportedAs(c: nat): Ready -> nat { (r: Ready) => OneIf(r == Client(c)) }

  function ClosedAs(c: nat): Closure -> nat { (x: Closure) => OneIf(x.conn == c) }

  function WithProducer(pc: ProducerPc, c: nat): nat {
    match pc
    case Reading(d) => OneIf(c == d)
    case Wanting(t) => OneIf(c == t.conn)
    case Filling(t) => OneIf(c == t.conn)
    case _ => 0
  }

  /** In how many places connection c is: armed in epoll, reported, with the
      epoll thread, queued, held by a worker, or closed. */
  function Places(s: State, c: nat): nat {
    OneIf(c in s.armed) + Sum(s.batch, ReportedAs(c)) + WithProducer(s.producer, c)
    + Sum(s.queue, QueuedAs(c)) + Sum(s.workers, HeldBy(c)) + Sum(s.closed, ClosedAs(c))
  }

  /** Every accepted connection is in exactly one place, others in none. */
  ghost predicate OnePlace(s: State) {
    forall c: nat :: Places(s, c) == OneIf(c < s.next)
  }

  lemma {:induction false} NothingHeld(n: nat, c: nat)
    ensures Sum(seq(n, _ => Top), HeldBy(c)) == 0
  {
    if n > 0 {
      NothingHeld(n - 1, c);
      assert seq(n, _ => Top)[..n - 1] == seq(n - 1, _ => Top);
    }
  }

  lemma OnePlaceInit(maxWorkers: int, capacity: int)
    ensures OnePlace(Init(maxWorkers, capacity))
  {
    forall c: nat ensures Places(Init(maxWorkers, capacity), c) == 0 { NothingHeld(Clamped(maxWorkers), c); }
  }

  lemma OnePlaceWorker(s: State, w: nat, act: WorkerAct, c: nat)
    requires w < |s.workers| && WorkerCan(s, w, act)
    ensures Places(WorkerStep(s, w, act), c) == Places(s, c)
  {
    hide Sum, IsTop;
    if act.Pop? {
      OnePlacePop(s, w, act.k, c);
    } else {
      var s' := WorkerStep(s, w, act);
      SumUpdate(s.workers, w, s'.workers[w], HeldBy(c));
      if act == Close { SumSnoc(s.closed, Closure(s.workers[w].task.conn, Answered), ClosedAs(c)); }
    }
  }

  lemma OnePlacePop(s: State, w: nat, k: nat, c: nat)
    requires w < |s.workers| && WorkerCan(s, w, Pop(k))
    ensures Places(WorkerStep(s, w, Pop(k)), c) == Places(s, c)
  {
    hide Sum;
    SumUpdate(s.workers, w, Working(s.queue[k]), HeldBy(c));
    SumWithout(s.queue, k, QueuedAs(c));
  }

  lemma IsTopBounds(queue: seq<Task>, k: nat)
    requires IsTop(queue, k)
    ensures k < |queue|
  {}

  /** A report moves each armed client from epoll to the batch. */
  lemma {:induction false} Reported(ready: seq<Ready>, c: nat)
    requires forall i, j | 0 <= i < j < |ready| :: ready[i] != ready[j]
    ensures Sum(ready, ReportedAs(c)) == OneIf(c in ClientsOf(ready))
  {
    if ready != [] {
      var n := |ready| - 1;
      var init := ready[..n];
      Reported(init, c);
      assert forall i | 0 <= i < n :: init[i] == ready[i];
      assert ClientsOf(ready) == ClientsOf(init) + (if ready[n].Client? then {ready[n].conn} else {});
      if c in ClientsOf(init) {
        var i :| 0 <= i < n && init[i].Client? && init[i].conn == c;
        assert ready[i] == Client(c);
      }
    }
  }

  lemma BatchTail(batch: seq<Ready>, c: nat)
    requires batch != []
    ensures Sum(batch, ReportedAs(c)) == Sum(batch[1..], ReportedAs(c)) + OneIf(batch[0] == Client(c))
  {
    SumSplit(batch, 0, ReportedAs(c));
    assert batch[..0] == [];
  }

  lemma OnePlaceProducer(s: State, act: ProducerAct, c: nat)
    requires OnePlace(s) && StopFlags(s) && ProducerCan(s, act)
    ensures Places(ProducerStep(s, act), c) == OneIf(c < ProducerStep(s, act).next)
  {
    assert Places(s, c) == OneIf(c < s.next);
    match act
    case Poll(ready) => OnePlacePoll(s, ready, c);
    case Accept(outcome) =>
      assert Places(s, s.next) == 0;
      OnePlaceAccept(s, outcome, c);
    case _ => OnePlaceOther(s, act, c);
  }

  lemma OnePlacePoll(s: State, ready: seq<Ready>, c: nat)
    requires StopFlags(s) && ProducerCan(s, Poll(ready))
    ensures Places(ProducerStep(s, Poll(ready)), c) == Places(s, c)
  {
    Reported(ready, c);
    SumOfNone(c);
    hide Sum;
    assert c in ClientsOf(ready) ==> c in s.armed;
  }

  lemma OnePlaceAccept(s: State, outcome: AcceptOutcome, c: nat)
    requires ProducerCan(s, Accept(outcome)) && Places(s, s.next) == 0
    requires Places(s, c) == OneIf(c < s.next)
    ensures var s' := ProducerStep(s, Accept(outcome)); Places(s', c) == OneIf(c < s'.next)
  {
    hide Sum;
    BatchTail(s.batch, c);
    SumSnoc(s.closed, Closure(s.next, Failed), ClosedAs(c));
  }

  lemma OnePlaceOther(s: State, act: ProducerAct, c: nat)
    requires ProducerCan(s, act) && !act.Poll? && !act.Accept?
    ensures Places(ProducerStep(s, act), c) == Places(s, c)
  {
    hide Sum, Priority;
    match act
    case Next => if s.batch != [] { BatchTail(s.batch, c); }
    case Read(request) => SumSnoc(s.closed, Closure(s.producer.conn, Failed), ClosedAs(c));
    case Reject => SumSnoc(s.closed, Closure(s.producer.task.conn, Rejected), ClosedAs(c));
    case Push => SumSnoc(s.queue, s.producer.task, QueuedAs(c));
    case Notify(waiter) => if waiter.Some? { SumUpdate(s.workers, waiter.value, Woken, HeldBy(c)); }
    case _ =>
  }

  lemma SumOfNone(c: nat)
    ensures Sum([], ReportedAs(c)) == 0
  {}

  lemma OnePlaceStep(s: State, e: Event)
    requires OnePlace(s) && StopFlags(s) && Enabled(s, e)
    ensures OnePlace(Apply(s, e))
  {
    hide Places;
    var s' := Apply(s, e);
    forall c: nat ensures Places(s', c) == OneIf(c < s'.next) {
      match e
      case W(w, act) => OnePlaceWorker(s, w, act, c);
      case P(act) => OnePlaceProducer(s, act, c);
      case S(act) => OnePlaceStopper(s, act, c);
    }
  }

  lemma OnePlaceStopper(s: State, act: StopperAct, c: nat)
    requires StopperCan(s, act)
    ensures Places(StopperStep(s, act), c) == Places(s, c)
  {
    hide Sum;
    if act == NotifyAll { SumAgree(s.workers, WakeAll(s.workers), HeldBy(c)); }
  }

  // ---------- responses ----------

  function ClosingOf(c: nat): Pc -> nat { (pc: Pc) => OneIf(pc.Closing? && pc.task.conn == c) }

  function RespondedAs(c: nat): Closure -> nat {
    (x: Closure) => OneIf(x.conn == c && x.reason != Failed)
  }

  function SentTo(c: nat): nat -> nat { (d: nat) => OneIf(c == d) }

  /** Responses attempted to c are the one about to be closed and those closed. */
  ghost predicate OneResponse(s: State) {
    forall c: nat :: Sum(s.sent, SentTo(c)) == Sum(s.workers, ClosingOf(c)) + Sum(s.closed, RespondedAs(c))
  }

  lemma {:induction false} NothingClosing(n: nat, c: nat)
    ensures Sum(seq(n, _ => Top), ClosingOf(c)) == 0
  {
    if n > 0 {
      NothingClosing(n - 1, c);
      assert seq(n, _ => Top)[..n - 1] == seq(n - 1, _ => Top);
    }
  }

  lemma OneResponseInit(maxWorkers: int, capacity: int)
    ensures OneResponse(Init(maxWorkers, capacity))
  {
    forall c: nat { NothingClosing(Clamped(maxWorkers), c); }
  }

  lemma OneResponseStep(s: State, e: Event)
    requires OneResponse(s) && Enabled(s, e)
    ensures OneResponse(Apply(s, e))
  {
    hide Sum, IsTop;
    var s' := Apply(s, e);
    forall c: nat
      ensures Sum(s'.sent, SentTo(c)) == Sum(s'.workers, ClosingOf(c)) + Sum(s'.closed, RespondedAs(c))
    {
      match e
      case W(w, act) => OneResponseWorker(s, w, act, c);
      case P(act) => OneResponseProducer(s, act, c);
      case S(act) => if act == NotifyAll { SumAgree(s.workers, WakeAll(s.workers), ClosingOf(c)); }
    }
  }

  lemma OneResponseWorker(s: State, w: nat, act: WorkerAct, c: nat)
    requires w < |s.workers| && WorkerCan(s, w, act)
    ensures var s' := WorkerStep(s, w, act);
            Sum(s'.sent, SentTo(c)) + Sum(s.workers, ClosingOf(c)) + Sum(s.closed, RespondedAs(c)) ==
            Sum(s.sent, SentTo(c)) + Sum(s'.workers, ClosingOf(c)) + Sum(s'.closed, RespondedAs(c))
  {
    hide Sum, IsTop;
    var s' := WorkerStep(s, w, act);
    SumUpdate(s.workers, w, s'.workers[w], ClosingOf(c));
    match act
    case Pop(k) => IsTopBounds(s.queue, k);
    case Send => SumSnoc(s.sent, s.workers[w].task.conn, SentTo(c));
    case Close => SumSnoc(s.closed, Closure(s.workers[w].task.conn, Answered), RespondedAs(c));
    case _ =>
  }

  lemma OneResponseProducer(s: State, act: ProducerAct, c: nat)
    requires ProducerCan(s, act)
    ensures var s' := ProducerStep(s, act);
            Sum(s'.sent, SentTo(c)) + Sum(s.workers, ClosingOf(c)) + Sum(s.closed, RespondedAs(c)) ==
            Sum(s.sent, SentTo(c)) + Sum(s'.workers, ClosingOf(c)) + Sum(s'.closed, RespondedAs(c))
  {
    hide Sum;
    match act
    case Accept(outcome) => SumSnoc(s.closed, Closure(s.next, Failed), RespondedAs(c));
    case Read(request) => SumSnoc(s.closed, Closure(s.producer.conn, Failed), RespondedAs(c));
    case Reject =>
      SumSnoc(s.closed, Closure(s.producer.task.conn, Rejected), RespondedAs(c));
      SumSnoc(s.sent, s.producer.task.conn, SentTo(c));
    case Notify(waiter) => if waiter.Some? { SumUpdate(s.workers, waiter.value, Woken, ClosingOf(c)); }
    case _ =>
  }

  // ---------- conservation ----------

  function IsClient(r: Ready): nat { OneIf(r.Client?) }

  function IsHolding(pc: Pc): nat { OneIf(pc.Working? || pc.Replying? || pc.Closing?) }

  function InHand(pc: ProducerPc): nat { OneIf(pc.Reading? || pc.Wanting? || pc.Filling?) }

  function For(reason: Reason): Closure -> nat { (x: Closure) => OneIf(x.reason == reason) }

  /** accepted = armed + reported + in the epoll thread + queued + held + answered
      + rejected + failed. */
  predicate Conserved(s: State) {
    s.next == |s.armed| + Sum(s.batch, IsClient) + InHand(s.producer) + |s.queue| + Sum(s.workers, IsHolding)
      + Sum(s.closed, For(Answered)) + Sum(s.closed, For(Rejected)) + Sum(s.closed, For(Failed))
  }

  lemma ClosedSnoc(closed: seq<Closure>, x: Closure)
    ensures forall reason :: Sum(closed + [x], For(reason)) == Sum(closed, For(reason)) + OneIf(x.reason == reason)
  {
    hide Sum;
    forall reason { SumSnoc(closed, x, For(reason)); }
  }

  lemma ConservedWorker(s: State, w: nat, act: WorkerAct)
    requires Conserved(s) && w < |s.workers| && WorkerCan(s, w, act)
    ensures Conserved(WorkerStep(s, w, act))
  {
    hide Sum, IsTop;
    var s' := WorkerStep(s, w, act);
    SumUpdate(s.workers, w, s'.workers[w], IsHolding);
    match act
    case Pop(k) => IsTopBounds(s.queue, k);
    case Close => ClosedSnoc(s.closed, Closure(s.workers[w].task.conn, Answered));
    case _ =>
  }

  lemma {:induction false} ClientsCounted(ready: seq<Ready>)
    requires forall i, j | 0 <= i < j < |ready| :: ready[i] != ready[j]
    ensures Sum(ready, IsClient) == |ClientsOf(ready)|
  {
    if ready != [] {
      var n := |ready| - 1;
      var init := ready[..n];
      assert forall i | 0 <= i < n :: init[i] == ready[i];
      ClientsCounted(init);
      ClientsGrow(ready);
      hide ClientsOf;
      if ready[n].Client? { assert |ClientsOf(init) + {ready[n].conn}| == |ClientsOf(init)| + 1; }
    }
  }

  lemma ClientsGrow(ready: seq<Ready>)
    requires ready != [] && forall i, j | 0 <= i < j < |ready| :: ready[i] != ready[j]
    ensures var n := |ready| - 1;
            var before := ClientsOf(ready[..n]);
            if ready[n].Client? then ready[n].conn !in before && ClientsOf(ready) == before + {ready[n].conn}
            else ClientsOf(ready) == before
  {
    var n := |ready| - 1;
    var init := ready[..n];
    forall c ensures c in ClientsOf(ready) <==> c in ClientsOf(init) || ready[n] == Client(c) {
      ClientsAre(ready, c);
      ClientsAre(init, c);
    }
    if ready[n].Client? { ClientsAre(init, ready[n].conn); }
  }

  lemma ClientsAre(ready: seq<Ready>, c: nat)
    ensures c in ClientsOf(ready) <==> Client(c) in ready
  {}

  lemma ConservedPoll(s: State, ready: seq<Ready>)
    requires Conserved(s) && StopFlags(s) && ProducerCan(s, Poll(ready))
    ensures Conserved(ProducerStep(s, Poll(ready)))
  {
    ClientsCounted(ready);
    assert Sum(s.batch, IsClient) == 0;
    hide Sum;
    assert ClientsOf(ready) <= s.armed;
    assert |s.armed - ClientsOf(ready)| == |s.armed| - |ClientsOf(ready)|;
  }

  lemma ConservedProducer(s: State, act: ProducerAct)
    requires Conserved(s) && OnePlace(s) && StopFlags(s) && ProducerCan(s, act)
    ensures Conserved(ProducerStep(s, act))
  {
    if act.Poll? {
      ConservedPoll(s, act.ready);
    } else {
      if act.Accept? {
        NextIsNew(s);
        ConservedAccept(s, act.outcome);
      } else if act == Next {
        ConservedNext(s);
      } else {
        ConservedOther(s, act);
      }
    }
  }

  lemma NextIsNew(s: State)
    requires OnePlace(s)
    ensures s.next !in s.armed
  {
    assert Places(s, s.next) == 0;
  }

  lemma ConservedNext(s: State)
    requires Conserved(s) && ProducerCan(s, Next)
    ensures Conserved(ProducerStep(s, Next))
  {
    hide Sum, Reportable, ClientsOf, Priority;
    if s.batch != [] { FirstOfBatch(s.batch); }
  }

  lemma ConservedAccept(s: State, outcome: AcceptOutcome)
    requires Conserved(s) && ProducerCan(s, Accept(outcome)) && s.next !in s.armed
    ensures Conserved(ProducerStep(s, Accept(outcome)))
  {
    hide Sum, Reportable, ClientsOf, Priority, Conserved;
    FirstOfBatch(s.batch);
    ListenerIsNoClient();
    var s' := ProducerStep(s, Accept(outcome));
    assert Sum(s'.batch, IsClient) == Sum(s.batch, IsClient);
    ClosedByAccept(s, outcome);
    AcceptBalances(s, s', outcome);
  }

  lemma ListenerIsNoClient()
    ensures IsClient(Listener) == 0
  {}

  lemma ClosedByAccept(s: State, outcome: AcceptOutcome)
    requires ProducerCan(s, Accept(outcome))
    ensures var closed := ProducerStep(s, Accept(outcome)).closed;
      && Sum(closed, For(Answered)) == Sum(s.closed, For(Answered))
      && Sum(closed, For(Rejected)) == Sum(s.closed, For(Rejected))
      && Sum(closed, For(Failed)) == Sum(s.closed, For(Failed)) + OneIf(outcome == NotAdded)
  {
    hide Sum, For;
    ClosedSnoc(s.closed, Closure(s.next, Failed));
  }

  /** A new connection is counted once, as armed or as failed. */
  lemma AcceptBalances(s: State, s': State, outcome: AcceptOutcome)
    requires Conserved(s) && s.next !in s.armed
    requires s'.next == s.next + OneIf(outcome != NoConnection)
    requires s'.armed == s.armed + if outcome == Added then {s.next} else {}
    requires s'.queue == s.queue && s'.workers == s.workers && s'.producer == s.producer
    requires Sum(s'.batch, IsClient) == Sum(s.batch, IsClient)
    requires Sum(s'.closed, For(Answered)) == Sum(s.closed, For(Answered))
    requires Sum(s'.closed, For(Rejected)) == Sum(s.closed, For(Rejected))
    requires Sum(s'.closed, For(Failed)) == Sum(s.closed, For(Failed)) + OneIf(outcome == NotAdded)
    ensures Conserved(s')
  {
    hide Sum, For, IsClient, IsHolding, InHand;
  }

  lemma FirstOfBatch(batch: seq<Ready>)
    requires batch != []
    ensures Sum(batch, IsClient) == IsClient(batch[0]) + Sum(batch[1..], IsClient)
  {
    hide Sum;
    SumSplit(batch, 0, IsClient);
    assert batch[..0] == [];
    SumEmpty();
  }

  lemma ConservedOther(s: State, act: ProducerAct)
    requires Conserved(s) && ProducerCan(s, act) && !act.Poll? && act != Next && !act.Accept?
    ensures Conserved(ProducerStep(s, act))
  {
    hide Sum, Priority, Reportable, ClientsOf;
    match act
    case Read(_) => ClosedSnoc(s.closed, Closure(s.producer.conn, Failed));
    case Reject => ClosedSnoc(s.closed, Closure(s.producer.task.conn, Rejected));
    case Notify(waiter) => if waiter.Some? { SumUpdate(s.workers, waiter.value, Woken, IsHolding); }
    case _ =>
  }

  lemma SumEmpty()
    ensures Sum([], IsClient) == 0
  {}

  lemma ConservedStep(s: State, e: Event)
    requires Conserved(s) && OnePlace(s) && StopFlags(s) && Enabled(s, e)
    ensures Conserved(Apply(s, e))
  {
    hide Conserved, OnePlace, StopFlags, WorkerStep, ProducerStep, WorkerCan, ProducerCan;
    match e
    case W(w, act) => ConservedWorker(s, w, act);
    case P(act) => ConservedProducer(s, act);
    case S(act) => ConservedStopper(s, act);
  }

  lemma ConservedStopper(s: State, act: StopperAct)
    requires Conserved(s) && StopperCan(s, act)
    ensures Conserved(StopperStep(s, act))
  {
    hide Sum;
    if act == NotifyAll { SumAgree(s.workers, WakeAll(s.workers), IsHolding); }
  }

  lemma {:induction false} NobodyHolds(n: nat)
    ensures Sum(seq(n, _ => Top), IsHolding) == 0
  {
    if n > 0 {
      NobodyHolds(n - 1);
      assert seq(n, _ => Top)[..n - 1] == seq(n - 1, _ => Top);
    }
  }

  // ---------- every reachable state ----------

  ghost predicate Invariant(s: State) {
    && Exclusive(s) && StopFlags(s) && QueueFacts(s) && NoLostWakeup(s) && OnePlace(s) && OneResponse(s)
    && Conserved(s)
  }

  lemma InvariantInit(maxWorkers: int, capacity: int)
    ensures Invariant(Init(maxWorkers, capacity))
  {
    OnePlaceInit(maxWorkers, capacity);
    OneResponseInit(maxWorkers, capacity);
    NobodyHolds(Clamped(maxWorkers));
  }

  lemma InvariantStep(s: State, e: Event)
    requires Invariant(s) && Enabled(s, e)
    ensures Invariant(Apply(s, e))
  {
    hide Exclusive, StopFlags, QueueFacts, NoLostWakeup, OnePlace, OneResponse, Conserved, Enabled, Apply;
    ExclusiveStep(s, e);
    StopFlagsStep(s, e);
    QueueFactsStep(s, e);
    NoLostWakeupStep(s, e);
    OnePlaceStep(s, e);
    OneResponseStep(s, e);
    ConservedStep(s, e);
  }

  lemma {:induction false} InvariantRun(s: State, es: seq<Event>)
    requires Invariant(s) && IsRun(s, es)
    ensures Invariant(After(s, es))
    decreases |es|
  {
    hide Invariant, Enabled, Apply;
    if es != [] {
      InvariantStep(s, es[0]);
      InvariantRun(Apply(s, es[0]), es[1..]);
    }
  }

  lemma ReachableInvariant(s: State)
    requires Reachable(s)
    ensures Invariant(s)
  {
    hide Invariant, Init;
    var maxWorkers, capacity, es :|
      IsRun(Init(maxWorkers, capacity), es) && After(Init(maxWorkers, capacity), es) == s;
    InvariantInit(maxWorkers, capacity);
    InvariantRun(Init(maxWorkers, capacity), es);
  }

  // ---------- what the invariants say ----------

  /** No lost wakeup: with a worker there at all, a non-empty queue never meets a
      pool that is entirely asleep, except between a push and its notification. */
  lemma QueueNeverSleeps(s: State)
    requires Reachable(s) && s.running && s.queue != [] && |s.workers| > 0
    ensures (forall w | 0 <= w < |s.workers| :: s.workers[w] == Asleep) ==> s.producer == Pushed && |s.queue| == 1
    ensures SomeoneAsleep(s.workers) && s.producer != Pushed ==> |s.queue| <= AwakeCount(s.workers)
  {
    ReachableInvariant(s);
    if forall w | 0 <= w < |s.workers| :: s.workers[w] == Asleep {
      assert s.workers[0] == Asleep;
      SumBounds(s.workers, IsAwake);
    }
  }

  /** A worker that locks the queue always finds a task once its wait is over: the
      branch for an invalid task is never taken. */
  lemma NoEmptyTask(s: State, w: nat)
    requires Reachable(s) && w < |s.workers|
    ensures !WorkerCan(s, w, Skip)
  {
    ReachableInvariant(s);
  }

  lemma QueueIsBounded(s: State)
    requires Reachable(s)
    ensures |s.queue| <= Bound(s)
  {
    ReachableInvariant(s);
  }

  /** The fate of one connection: one place at a time, closed at most once, and
      answered exactly once unless it failed, and then never. */
  lemma ConnectionFate(s: State, c: nat)
    requires Reachable(s)
    ensures Places(s, c) == OneIf(c < s.next)
    ensures Sum(s.closed, ClosedAs(c)) <= 1 && Sum(s.sent, SentTo(c)) <= 1
    ensures forall i | 0 <= i < |s.closed| && s.closed[i].conn == c ::
      Sum(s.sent, SentTo(c)) == OneIf(s.closed[i].reason != Failed)
  {
    ReachableInvariant(s);
    assert Sum(s.sent, SentTo(c)) == Sum(s.workers, ClosingOf(c)) + Sum(s.closed, RespondedAs(c));
    assert Places(s, c) == OneIf(c < s.next);
    SumPointwise(s.workers, ClosingOf(c), HeldBy(c));
    SumPointwise(s.closed, RespondedAs(c), ClosedAs(c));
    hide Reachable;
    forall i | 0 <= i < |s.closed| && s.closed[i].conn == c
      ensures Sum(s.sent, SentTo(c)) == OneIf(s.closed[i].reason != Failed)
    {
      ClosedOnceSays(s.closed, i, c);
    }
  }

  /** A connection closed once was answered exactly if that closure says so. */
  lemma ClosedOnceSays(closed: seq<Closure>, i: nat, c: nat)
    requires i < |closed| && closed[i].conn == c && Sum(closed, ClosedAs(c)) <= 1
    ensures Sum(closed, ClosedAs(c)) == 1
    ensures Sum(closed, RespondedAs(c)) == OneIf(closed[i].reason != Failed)
  {
    hide Sum;
    SumSplit(closed, i, ClosedAs(c));
    SumSplit(closed, i, RespondedAs(c));
    SumPointwise(closed[..i], RespondedAs(c), ClosedAs(c));
    SumPointwise(closed[i + 1..], RespondedAs(c), ClosedAs(c));
  }

  lemma {:induction false} SumPointwise<T>(s: seq<T>, f: T -> nat, g: T -> nat)
    requires forall i | 0 <= i < |s| :: f(s[i]) <= g(s[i])
    ensures Sum(s, f) <= Sum(s, g)
  {
    if s != [] { SumPointwise(s[..|s| - 1], f, g); }
  }

  lemma ConnectionsAreConserved(s: State)
    requires Reachable(s)
    ensures s.next == |s.armed| + Sum(s.batch, IsClient) + InHand(s.producer) + |s.queue|
      + Sum(s.workers, IsHolding)
      + Sum(s.closed, For(Answered)) + Sum(s.closed, For(Rejected)) + Sum(s.closed, For(Failed))
  {
    ReachableInvariant(s);
  }
}
