/** The task scheduler (app/lib/SyncService.cpp, app/lib/SyncService.h) as a
    transition system: the epoll thread, the workers and the thread calling stop,
    interleaved at every access to the mutex, the queue, `running_` and the
    condition variable.  `running_` is sequentially consistent and connections
    carry ids that are never reused. */
module Scheduler {
  import opened Options
  import opened Text
  import opened Counting

  datatype Task = Task(conn: nat, request: string, priority: int)

  /** `getCommandPriority`: by the text before the first blank. */
  function Priority(request: string): int {
    var cmd := request[..IndexOf(request, ' ')];
    if cmd == "CREATE" || cmd == "DELETE" then 10
    else if cmd == "ADD" || cmd == "REMOVE" || cmd == "CHANGE" then 5
    else if cmd == "GET" || cmd == "COUNT" || cmd == "EMPTY" then 1
    else 0
  }

  /** Where a worker is in `workerLoop`. */
  datatype Pc =
    | Top                      // about to read running_
    | Entering                 // about to lock the mutex
    | Holding                  // locked, about to test for an empty queue
    | Testing                  // locked, about to evaluate the wait predicate
    | Parking                  // locked, predicate false, about to block
    | Asleep                   // blocked, mutex released
    | Woken                    // notified or woken spuriously, about to relock
    | Deciding                 // locked, wait has returned
    | Taking                   // locked, about to pop
    | Working(task: Task)      // unlocked, running the handler
    | Replying(task: Task)     // about to send
    | Closing(task: Task)      // about to close the socket
    | Exited

  /** Where the epoll thread is. */
  datatype ProducerPc =
    | LoopTop | Polling | Dispatching | Reading(conn: nat)
    | Wanting(task: Task)      // request read, about to lock
    | Filling(task: Task)      // locked, about to test for a full queue
    | Pushed                   // locked, pushed, about to notify one
    | Notified                 // locked, about to unlock
    | Finished

  /** Where `stop` is. */
  datatype StopperPc = Idle | StopWanting | Stopping | Joining | Stopped

  datatype Owner = Free | ByWorker(w: nat) | ByProducer | ByStopper

  datatype Ready = Listener | Client(conn: nat)

  /** Why a socket was closed: after a response, on overload, or without one. */
  datatype Reason = Answered | Rejected | Failed

  datatype Closure = Closure(conn: nat, reason: Reason)

  datatype State = State(
    running: bool, notified: bool, owner: Owner,
    queue: seq<Task>, workers: seq<Pc>,
    producer: ProducerPc, batch: seq<Ready>, stopper: StopperPc,
    capacity: int, next: nat, armed: set<nat>,
    sent: seq<nat>, closed: seq<Closure>, popped: seq<Task>)

  /** At most 64 workers, and none for a count that is not positive. */
  function Clamped(maxWorkers: int): nat {
    if maxWorkers > 64 then 64 else if maxWorkers < 0 then 0 else maxWorkers
  }

  function Init(maxWorkers: int, capacity: int): State {
    State(true, false, Free, [], seq(Clamped(maxWorkers), _ => Top),
          LoopTop, [], Idle, capacity, 0, {}, [], [], [])
  }

  // ---------- events ----------

  datatype WorkerAct =
    | Check | Lock | Test | Predicate | Park | Spurious | Relock | Decide
    | Pop(k: nat) | Skip | Handle | Send | Close

  datatype AcceptOutcome = NoConnection | NotAdded | Added

  datatype ProducerAct =
    | Loop | Poll(ready: seq<Ready>) | Next | Accept(outcome: AcceptOutcome)
    | Read(request: Option<string>) | LockQueue | Reject | Push | Notify(waiter: Option<nat>) | Unlock

  datatype StopperAct = Call | LockStop | NotifyAll | Join

  datatype Event = W(w: nat, act: WorkerAct) | P(pact: ProducerAct) | S(sact: StopperAct)

  const MAX_EVENTS := 128

  /** `taskQueue_.top()` may be any task no other strictly precedes. */
  predicate IsTop(queue: seq<Task>, k: nat) {
    k < |queue| && forall j | 0 <= j < |queue| :: queue[j].priority <= queue[k].priority
  }

  predicate SomeoneAsleep(workers: seq<Pc>) { exists w | 0 <= w < |workers| :: workers[w] == Asleep }

  predicate AllExited(workers: seq<Pc>) { forall w | 0 <= w < |workers| :: workers[w] == Exited }

  predicate WorkerCan(s: State, w: nat, act: WorkerAct)
    requires w < |s.workers|
  {
    var pc := s.workers[w];
    match act
    case Check => pc == Top
    case Lock => pc == Entering && s.owner == Free
    case Test => pc == Holding
    case Predicate => pc == Testing
    case Park => pc == Parking
    case Spurious => pc == Asleep
    case Relock => pc == Woken && s.owner == Free
    case Decide => pc == Deciding
    case Pop(k) => pc == Taking && IsTop(s.queue, k)
    case Skip => pc == Taking && s.queue == []
    case Handle => pc.Working?
    case Send => pc.Replying?
    case Close => pc.Closing?
  }

  /** epoll reports the listener and armed connections, each at most once. */
  predicate Reportable(s: State, ready: seq<Ready>) {
    && |ready| <= MAX_EVENTS
    && (forall i | 0 <= i < |ready| && ready[i].Client? :: ready[i].conn in s.armed)
    && (forall i, j | 0 <= i < j < |ready| :: ready[i] != ready[j])
  }

  predicate ProducerCan(s: State, act: ProducerAct) {
    var pc := s.producer;
    match act
    case Loop => pc == LoopTop
    case Poll(ready) => pc == Polling && Reportable(s, ready)
    case Next => pc == Dispatching && (s.batch == [] || s.batch[0].Client?)
    case Accept(_) => pc == Dispatching && s.batch != [] && s.batch[0] == Listener
    case Read(_) => pc.Reading?
    case LockQueue => pc.Wanting? && s.owner == Free
    case Reject => pc.Filling? && |s.queue| >= s.capacity
    case Push => pc.Filling? && |s.queue| < s.capacity
    case Notify(waiter) =>
      && pc == Pushed
      && (waiter.Some? ==> waiter.value < |s.workers| && s.workers[waiter.value] == Asleep)
      && (waiter.None? ==> !SomeoneAsleep(s.workers))
    case Unlock => pc == Notified
  }

  predicate StopperCan(s: State, act: StopperAct) {
    match act
    case Call => s.stopper == Idle
    case LockStop => s.stopper == StopWanting && s.owner == Free
    case NotifyAll => s.stopper == Stopping
    case Join => s.stopper == Joining && AllExited(s.workers)
  }

  predicate Enabled(s: State, e: Event) {
    match e
    case W(w, act) => w < |s.workers| && WorkerCan(s, w, act)
    case P(act) => ProducerCan(s, act)
    case S(act) => StopperCan(s, act)
  }

  // ---------- effects ----------

  function Move(s: State, w: nat, pc: Pc): (r: State)
    requires w < |s.workers|
  {
    s.(workers := s.workers[w := pc])
  }

  function WorkerStep(s: State, w: nat, act: WorkerAct): State
    requires w < |s.workers| && WorkerCan(s, w, act)
  {
    var pc := s.workers[w];
    match act
    case Check => Move(s, w, if s.running then Entering else Exited)
    case Lock => Move(s, w, Holding).(owner := ByWorker(w))
    case Test => Move(s, w, if s.queue == [] then Testing else Taking)
    case Predicate => Move(s, w, if s.queue != [] || !s.running then Deciding else Parking)
    case Park => Move(s, w, Asleep).(owner := Free)
    case Spurious => Move(s, w, Woken)
    case Relock => Move(s, w, Testing).(owner := ByWorker(w))
    case Decide =>
      if !s.running && s.queue == [] then Move(s, w, Exited).(owner := Free) else Move(s, w, Taking)
    case Pop(k) =>
      Move(s, w, Working(s.queue[k])).(
        owner := Free, queue := Without(s.queue, k), popped := s.popped + [s.queue[k]])
    case Skip => Move(s, w, Top).(owner := Free)
    case Handle => Move(s, w, Replying(pc.task))
    case Send => Move(s, w, Closing(pc.task)).(sent := s.sent + [pc.task.conn])
    case Close => Move(s, w, Top).(closed := s.closed + [Closure(pc.task.conn, Answered)])
  }

  function ClientsOf(ready: seq<Ready>): set<nat> {
    set i | 0 <= i < |ready| && ready[i].Client? :: ready[i].conn
  }

  function ProducerStep(s: State, act: ProducerAct): State
    requires ProducerCan(s, act)
  {
    match act
    case Loop => s.(producer := if s.running then Polling else Finished)
    case Poll(ready) =>
      s.(producer := Dispatching, batch := ready, armed := s.armed - ClientsOf(ready))
    case Next =>
      if s.batch == [] then s.(producer := LoopTop)
      else s.(producer := Reading(s.batch[0].conn), batch := s.batch[1..])
    case Accept(outcome) =>
      var rest := s.(batch := s.batch[1..]);
      (match outcome
       case NoConnection => rest
       case NotAdded => rest.(next := s.next + 1, closed := s.closed + [Closure(s.next, Failed)])
       case Added => rest.(next := s.next + 1, armed := s.armed + {s.next}))
    case Read(request) =>
      var c := s.producer.conn;
      (match request
       case None => s.(producer := Dispatching, closed := s.closed + [Closure(c, Failed)])
       case Some(text) => s.(producer := Wanting(Task(c, text, Priority(text)))))
    case LockQueue => s.(producer := Filling(s.producer.task), owner := ByProducer)
    case Reject =>
      var c := s.producer.task.conn;
      s.(producer := Dispatching, owner := Free,
         sent := s.sent + [c], closed := s.closed + [Closure(c, Rejected)])
    case Push => s.(producer := Pushed, queue := s.queue + [s.producer.task])
    case Notify(waiter) =>
      (match waiter
       case None => s
       case Some(w) => Move(s, w, Woken)).(producer := Notified)
    case Unlock => s.(producer := Dispatching, owner := Free)
  }

  function WakeAll(workers: seq<Pc>): (r: seq<Pc>)
    ensures |r| == |workers|
    ensures forall w | 0 <= w < |r| :: r[w] == if workers[w] == Asleep then Woken else workers[w]
  {
    seq(|workers|, w requires 0 <= w < |workers| => if workers[w] == Asleep then Woken else workers[w])
  }

  function StopperStep(s: State, act: StopperAct): State
    requires StopperCan(s, act)
  {
    match act
    case Call => s.(running := false, stopper := StopWanting)
    case LockStop => s.(stopper := Stopping, owner := ByStopper)
    case NotifyAll => s.(stopper := Joining, notified := true, owner := Free, workers := WakeAll(s.workers))
    case Join => s.(stopper := Stopped)
  }

  function Apply(s: State, e: Event): State
    requires Enabled(s, e)
  {
    match e
    case W(w, act) => WorkerStep(s, w, act)
    case P(act) => ProducerStep(s, act)
    case S(act) => StopperStep(s, act)
  }

  // ---------- runs ----------

  predicate IsRun(s: State, es: seq<Event>)
    decreases |es|
  {
    es == [] || (Enabled(s, es[0]) && IsRun(Apply(s, es[0]), es[1..]))
  }

  function After(s: State, es: seq<Event>): State
    requires IsRun(s, es)
    decreases |es|
  {
    if es == [] then s else After(Apply(s, es[0]), es[1..])
  }

  lemma {:induction false} RunSnoc(s: State, es: seq<Event>, e: Event)
    requires IsRun(s, es) && Enabled(After(s, es), e)
    ensures IsRun(s, es + [e]) && After(s, es + [e]) == Apply(After(s, es), e)
    decreases |es|
  {
    hide Enabled, Apply;
    if es == [] {
      assert es + [e] == [e] && [e][1..] == [];
    } else {
      assert (es + [e])[1..] == es[1..] + [e];
      RunSnoc(Apply(s, es[0]), es[1..], e);
    }
  }

  /** A run continues where its first part ended. */
  lemma {:induction false} RunSuffix(s: State, es: seq<Event>, more: seq<Event>)
    requires IsRun(s, es + more)
    ensures IsRun(s, es) && IsRun(After(s, es), more) && After(After(s, es), more) == After(s, es + more)
    decreases |es|
  {
    hide Enabled, Apply;
    if es == [] {
      assert es + more == more;
    } else {
      assert (es + more)[1..] == es[1..] + more;
      RunSuffix(Apply(s, es[0]), es[1..], more);
    }
  }

  ghost predicate Reachable(s: State) {
    exists maxWorkers, capacity, es ::
      && IsRun(Init(maxWorkers, capacity), es)
      && After(Init(maxWorkers, capacity), es) == s
  }
}
