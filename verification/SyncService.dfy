/** The critical sections of the service as code (app/lib/SyncService.cpp): what
    `handleClientData`, the locked block of `workerLoop` and `stop` do to the
    shared fields is a run of the transition system. */
module SyncService {
  import opened Options
  import opened Counting
  import opened Scheduler

  datatype Outcome = Lost | Refused | Queued

  datatype Taken = Nothing | Leave | Took(task: Task)

  class Sync {
    var running: bool
    var taskQueue: seq<Task>
    var sent: seq<nat>
    var closed: seq<Closure>
    const maxTaskQueueSize: int

    /** The whole system, and the steps since it was constructed. */
    ghost var machine: State
    ghost var steps: seq<Event>
    ghost const initial: State

    /** The fields are those of the machine, which got there by its steps. */
    ghost predicate Valid()
      reads this
    {
      && machine.running == running && machine.queue == taskQueue && machine.capacity == maxTaskQueueSize
      && machine.sent == sent && machine.closed == closed
      && IsRun(initial, steps) && After(initial, steps) == machine
    }

    constructor (maxWorkers: int, maxTaskQueueSize: int)
      ensures Valid() && machine == Init(maxWorkers, maxTaskQueueSize)
      ensures Reachable(machine)
      ensures |machine.workers| == if maxWorkers > 64 then 64 else if maxWorkers > 0 then maxWorkers else 0
      ensures running && taskQueue == [] && forall w | 0 <= w < |machine.workers| :: machine.workers[w] == Top
    {
      this.maxTaskQueueSize := maxTaskQueueSize;
      running, taskQueue, sent, closed := true, [], [], [];
      machine := Init(maxWorkers, maxTaskQueueSize);
      initial := Init(maxWorkers, maxTaskQueueSize);
      steps := [];
    }

    ghost method Do(e: Event)
      requires IsRun(initial, steps) && After(initial, steps) == machine && Enabled(machine, e)
      modifies `machine, `steps
      ensures machine == Apply(old(machine), e) && steps == old(steps) + [e]
      ensures IsRun(initial, steps) && After(initial, steps) == machine
    {
      RunSnoc(initial, steps, e);
      machine := Apply(machine, e);
      steps := steps + [e];
    }

    /** Read a request and queue it, or turn it away; the mutex is free on entry. */
    method HandleClientData(clientSocket: nat, request: Option<string>) returns (outcome: Outcome)
      requires Valid() && machine.producer == Reading(clientSocket) && machine.owner == Free
      modifies this
      ensures Valid() && old(steps) <= steps
      ensures machine.owner == Free && machine.producer == Dispatching && running == old(running)
      ensures outcome == Lost <==> request.None?
      ensures outcome == Refused <==> request.Some? && |old(taskQueue)| >= maxTaskQueueSize
      ensures outcome == Lost ==>
        taskQueue == old(taskQueue) && sent == old(sent) && closed == old(closed) + [Closure(clientSocket, Failed)]
      ensures outcome == Refused ==>
        && taskQueue == old(taskQueue) && sent == old(sent) + [clientSocket]
        && closed == old(closed) + [Closure(clientSocket, Rejected)]
      ensures outcome == Queued ==>
        && taskQueue == old(taskQueue) + [Task(clientSocket, request.value, Priority(request.value))]
        && sent == old(sent) && closed == old(closed)
    {
      hide Priority, IsRun, After;
      Do(P(Read(request)));
      if request.None? {
        closed := closed + [Closure(clientSocket, Failed)];
        return Lost;
      }
      var priority := Priority(request.value);
      Do(P(LockQueue));
      outcome := Enqueue(Task(clientSocket, request.value, priority));
    }

    /** Its locked part. */
    method Enqueue(task: Task) returns (outcome: Outcome)
      requires Valid() && machine.producer == Filling(task)
      modifies this
      ensures Valid() && old(steps) <= steps
      ensures machine.owner == Free && machine.producer == Dispatching && running == old(running)
      ensures outcome == if |old(taskQueue)| >= maxTaskQueueSize then Refused else Queued
      ensures outcome == Refused ==>
        && taskQueue == old(taskQueue) && sent == old(sent) + [task.conn]
        && closed == old(closed) + [Closure(task.conn, Rejected)]
      ensures outcome == Queued ==>
        taskQueue == old(taskQueue) + [task] && sent == old(sent) && closed == old(closed)
    {
      hide IsRun, After;
      if |taskQueue| >= maxTaskQueueSize {
        sent := sent + [task.conn];
        closed := closed + [Closure(task.conn, Rejected)];
        Do(P(Reject));
        return Refused;
      }
      taskQueue := taskQueue + [task];
      Do(P(Push));
      NotifyOne();
      Do(P(Unlock));
      return Queued;
    }

    /** `notify_one` wakes some waiter if there is one. */
    ghost method NotifyOne()
      requires IsRun(initial, steps) && After(initial, steps) == machine && machine.producer == Pushed
      modifies `machine, `steps
      ensures IsRun(initial, steps) && After(initial, steps) == machine && old(steps) <= steps
      ensures machine == old(machine).(producer := Notified, workers := machine.workers)
      ensures |machine.workers| == |old(machine).workers|
      ensures SomeoneAsleep(old(machine).workers) ==>
        (exists w | 0 <= w < |machine.workers| ::
          old(machine).workers[w] == Asleep && machine.workers == old(machine).workers[w := Woken])
      ensures !SomeoneAsleep(old(machine).workers) ==> machine.workers == old(machine).workers
    {
      if SomeoneAsleep(machine.workers) {
        var w :| 0 <= w < |machine.workers| && machine.workers[w] == Asleep;
        Do(P(Notify(Some(w))));
      } else {
        Do(P(Notify(None)));
      }
    }

    /** `while (running_)`. */
    method Check(ghost w: nat) returns (go: bool)
      requires Valid() && w < |machine.workers| && machine.workers[w] == Top
      modifies `machine, `steps
      ensures Valid() && steps == old(steps) + [W(w, Scheduler.Check)] && go == running
      ensures machine == Move(old(machine), w, if go then Entering else Exited)
    {
      hide IsRun, After;
      go := running;
      Do(W(w, Scheduler.Check));
    }

    /** The locked block of `workerLoop` when the mutex is free: pop a task no other
        precedes, go to sleep on an empty queue, or leave once stopped. */
    method Take(ghost w: nat) returns (taken: Taken)
      requires Valid() && machine.owner == Free && w < |machine.workers| && machine.workers[w] == Entering
      modifies this
      ensures Valid() && old(steps) <= steps
      ensures machine.owner == Free && |machine.workers| == |old(machine.workers)|
      ensures running == old(running) && sent == old(sent) && closed == old(closed)
      ensures TakenFrom(old(taskQueue), running, taken, taskQueue, machine.workers[w])
      ensures Silent(steps, |old(steps)|)
    {
      hide IsRun, After;
      Do(W(w, Lock));
      Do(W(w, Test));
      if taskQueue == [] {
        Rest(w);
        return if running then Nothing else Leave;
      }
      var task := TakeTop(w);
      return Took(task);
    }

    /** A woken worker's way back through the wait: a task if there is one, else
        sleep again while running, else leave. */
    method Resume(ghost w: nat) returns (taken: Taken)
      requires Valid() && machine.owner == Free && w < |machine.workers| && machine.workers[w] == Woken
      modifies this
      ensures Valid() && old(steps) <= steps
      ensures machine.owner == Free && |machine.workers| == |old(machine.workers)|
      ensures running == old(running) && sent == old(sent) && closed == old(closed)
      ensures TakenFrom(old(taskQueue), running, taken, taskQueue, machine.workers[w])
      ensures Silent(steps, |old(steps)|)
    {
      hide IsRun, After;
      Do(W(w, Relock));
      if taskQueue == [] {
        Rest(w);
        return if running then Nothing else Leave;
      }
      LeaveWait(w);
      var task := TakeTop(w);
      return Took(task);
    }

    /** The wait returns on a task. */
    ghost method LeaveWait(w: nat)
      requires Valid() && taskQueue != [] && w < |machine.workers| && machine.workers[w] == Testing
      modifies `machine, `steps
      ensures Valid() && old(steps) <= steps && Silent(steps, |old(steps)|)
      ensures machine == Move(old(machine), w, Taking)
    {
      hide IsRun, After;
      Do(W(w, Predicate));
      Do(W(w, Decide));
    }

    /** The wait on an empty queue: block while running, exit otherwise. */
    ghost method Rest(w: nat)
      requires Valid() && taskQueue == [] && w < |machine.workers| && machine.workers[w] == Testing
      modifies `machine, `steps
      ensures Valid() && old(steps) <= steps
      ensures machine.owner == Free && |machine.workers| == |old(machine.workers)|
      ensures machine.workers[w] == if running then Asleep else Exited
      ensures Silent(steps, |old(steps)|)
    {
      hide IsRun, After;
      Do(W(w, Predicate));
      Do(W(w, if running then Park else Decide));
    }

    method TakeTop(ghost w: nat) returns (task: Task)
      requires Valid() && taskQueue != [] && w < |machine.workers| && machine.workers[w] == Taking
      modifies `taskQueue, `machine, `steps
      ensures Valid() && old(steps) <= steps
      ensures machine.owner == Free && |machine.workers| == |old(machine.workers)|
      ensures TakenFrom(old(taskQueue), running, Took(task), taskQueue, machine.workers[w])
      ensures Silent(steps, |old(steps)|)
    {
      var k := TopOf(taskQueue);
      TopIsTaken(taskQueue, running, k);
      hide IsRun, After, IsTop, TakenFrom, Without;
      task := taskQueue[k];
      taskQueue := Without(taskQueue, k);
      Do(W(w, Pop(k)));
    }

    /** The unlocked rest of an iteration: handler, `send`, `close`. */
    method Answer(ghost w: nat, task: Task)
      requires Valid() && w < |machine.workers| && machine.workers[w] == Working(task)
      modifies this
      ensures Valid() && old(steps) <= steps
      ensures machine.workers == old(machine.workers)[w := Top] && machine.owner == old(machine.owner)
      ensures sent == old(sent) + [task.conn] && closed == old(closed) + [Closure(task.conn, Answered)]
      ensures taskQueue == old(taskQueue) && running == old(running)
    {
      hide IsRun, After;
      Handled(w, task);
      Respond(w, task);
      CloseSocket(w, task);
    }

    /** The handler has run; it does not touch these fields. */
    ghost method Handled(w: nat, task: Task)
      requires Valid() && w < |machine.workers| && machine.workers[w] == Working(task)
      modifies `machine, `steps
      ensures Valid() && steps == old(steps) + [W(w, Handle)]
      ensures machine == Move(old(machine), w, Replying(task))
    {
      hide IsRun, After;
      Do(W(w, Handle));
    }

    method Respond(ghost w: nat, task: Task)
      requires Valid() && w < |machine.workers| && machine.workers[w] == Replying(task)
      modifies `sent, `machine, `steps
      ensures Valid() && steps == old(steps) + [W(w, Send)] && sent == old(sent) + [task.conn]
      ensures machine == Move(old(machine), w, Closing(task)).(sent := sent)
    {
      hide IsRun, After;
      sent := sent + [task.conn];
      Do(W(w, Send));
    }

    method CloseSocket(ghost w: nat, task: Task)
      requires Valid() && w < |machine.workers| && machine.workers[w] == Closing(task)
      modifies `closed, `machine, `steps
      ensures Valid() && steps == old(steps) + [W(w, Close)] && closed == old(closed) + [Closure(task.conn, Answered)]
      ensures machine == Move(old(machine), w, Top).(closed := closed)
    {
      hide IsRun, After;
      closed := closed + [Closure(task.conn, Answered)];
      Do(W(w, Close));
    }

    /** A connection the listener reported: `newSocket` is what accept returned, the
        next unused id; it is armed, or closed when epoll will not have it. */
    method HandleNewConnection(newSocket: Option<nat>, added: bool)
      requires Valid() && machine.producer == Dispatching && machine.batch != [] && machine.batch[0] == Listener
      requires newSocket.Some? ==> newSocket.value == machine.next
      modifies this
      ensures Valid() && old(steps) <= steps
      ensures machine.armed == old(machine.armed) + if newSocket.Some? && added then {newSocket.value} else {}
      ensures machine.next == old(machine.next) + if newSocket.Some? then 1 else 0
      ensures closed == old(closed) + if newSocket.Some? && !added then [Closure(newSocket.value, Failed)] else []
      ensures taskQueue == old(taskQueue) && sent == old(sent) && running == old(running)
    {
      hide IsRun, After;
      match newSocket {
        case None => Do(P(Accept(NoConnection)));
        case Some(socket) =>
          if added {
            Do(P(Accept(Added)));
          } else {
            closed := closed + [Closure(socket, Failed)];
            Do(P(Accept(NotAdded)));
          }
      }
    }

    /** `stop` up to the joins. */
    method Stop()
      requires Valid() && machine.stopper == Idle && machine.owner == Free
      modifies this
      ensures Valid() && old(steps) <= steps && !running
      ensures taskQueue == old(taskQueue) && sent == old(sent) && closed == old(closed)
      ensures machine.stopper == Joining && !SomeoneAsleep(machine.workers)
      ensures machine.workers == WakeAll(old(machine.workers))
    {
      running := false;
      Do(S(Call));
      Do(S(LockStop));
      Do(S(NotifyAll));
    }
  }

  /** A task no other precedes while there is one; without one, sleep while running
      and leave once stopped. */
  predicate TakenFrom(queue: seq<Task>, running: bool, taken: Taken, left: seq<Task>, pc: Pc) {
    match taken
    case Took(task) =>
      && pc == Working(task) && task in queue
      && (forall t | t in queue :: t.priority <= task.priority)
      && multiset(left) == multiset(queue) - multiset{task}
    case Nothing => queue == left == [] && running && pc == Asleep
    case Leave => queue == left == [] && !running && pc == Exited
  }

  lemma TopIsTaken(queue: seq<Task>, running: bool, k: nat)
    requires IsTop(queue, k)
    ensures k < |queue| && TakenFrom(queue, running, Took(queue[k]), Without(queue, k), Working(queue[k]))
  {
    assert queue == queue[..k] + [queue[k]] + queue[k + 1..];
  }

  /** From step n on no handler runs and no worker responds. */
  predicate Silent(steps: seq<Event>, n: nat) {
    forall i | n <= i < |steps| :: steps[i].W? ==> steps[i].act != Handle && steps[i].act != Send
  }

  /** `taskQueue_.top()`: the position of a task of greatest priority. */
  method TopOf(queue: seq<Task>) returns (k: nat)
    requires queue != []
    ensures IsTop(queue, k)
  {
    k := 0;
    for i := 1 to |queue|
      invariant k < i && forall j | 0 <= j < i :: queue[j].priority <= queue[k].priority
    {
      if queue[k].priority < queue[i].priority { k := i; }
    }
  }
}
