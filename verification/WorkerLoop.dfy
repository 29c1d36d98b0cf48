/** A worker as code (app/lib/SyncService.cpp, `workerLoop`): taking a task, running
    its handler on the tree and responding is a trace of the whole server. */
module WorkerLoop {
  import opened Options
  import opened Scheduler
  import opened Storage
  import opened Service
  import opened Commands
  import opened Server
  import opened SyncService
  import opened EndToEnd

  // ---------- longer traces ----------

  lemma OneStep(u: Setup, ys: seq<System>, es: seq<Event>, e: Event, y: System)
    requires IsTrace(u, ys, es) && Step(u, ys[|es|], e, y)
    ensures IsTrace(u, ys + [y], es + [e])
  {
    hide Step;
    var zs, fs := ys + [y], es + [e];
    forall i | 0 <= i < |fs| ensures Step(u, zs[i], fs[i], zs[i + 1]) {
      if i < |es| { assert Step(u, ys[i], es[i], ys[i + 1]); }
    }
  }

  lemma ApplyKeepsWorkers(s: State, e: Event)
    requires Enabled(s, e)
    ensures |Apply(s, e).workers| == |s.workers|
  {
    hide ProducerCan, ProducerStep, WorkerCan, WorkerStep;
    match e
    case W(w, act) => WorkerKeepsWorkers(s, w, act);
    case P(act) => ProducerKeepsHeld(s, act);
    case S(_) =>
  }

  lemma WorkerKeepsWorkers(s: State, w: nat, act: WorkerAct)
    requires w < |s.workers| && WorkerCan(s, w, act)
    ensures |WorkerStep(s, w, act).workers| == |s.workers|
  {
    hide IsTop;
    if act.Pop? { TopIsTaken(s.queue, s.running, act.k); }
  }

  lemma SilentStep(u: Setup, y: System, e: Event)
    requires Enabled(y.sched, e) && |y.response| == |y.sched.workers|
    requires e.W? ==> e.act != Handle && e.act != Send
    ensures Step(u, y, e, y.(sched := Apply(y.sched, e)))
  {
    hide Enabled, Apply;
  }

  /** Scheduling steps alone leave the tree and the records as they are. */
  lemma {:induction false} SilentSteps(u: Setup, ys: seq<System>, es: seq<Event>, more: seq<Event>) returns (zs: seq<System>)
    requires IsTrace(u, ys, es) && Silent(more, 0)
    requires |ys[|es|].response| == |ys[|es|].sched.workers| && IsRun(ys[|es|].sched, more)
    ensures IsTrace(u, zs, es + more) && ys <= zs
    ensures zs[|es + more|] == ys[|es|].(sched := After(ys[|es|].sched, more))
    ensures |After(ys[|es|].sched, more).workers| == |ys[|es|].sched.workers|
    decreases |more|
  {
    hide Enabled, Apply, Step;
    if more == [] {
      zs := ys;
      assert es + more == es;
    } else {
      var y, e := ys[|es|], more[0];
      var y' := y.(sched := Apply(y.sched, e));
      SilentStep(u, y, e);
      ApplyKeepsWorkers(y.sched, e);
      OneStep(u, ys, es, e, y');
      zs := SilentSteps(u, ys + [y'], es + [e], more[1..]);
      assert es + [e] + more[1..] == es + more;
    }
  }

  // ---------- the loop ----------

  class Worker {
    const sync: Sync
    const handlers: Handlers

    /** What the server has been through. */
    ghost var ys: seq<System>
    ghost var es: seq<Event>

    function At(): Setup { Setup(handlers.service.at, handlers.pattern) }

    ghost predicate Traced()
      reads this, handlers.service.disk
    {
      && IsTrace(At(), ys, es)
      && |ys[|es|].response| == |ys[|es|].sched.workers|
      && ys[|es|].files == handlers.service.disk.files
      && handlers.Valid()
    }

    ghost predicate Valid()
      reads this, sync, handlers.service.disk
    {
      Traced() && sync.Valid() && Now().sched == sync.machine
    }

    ghost function Now(): System
      reads this
      requires |ys| == |es| + 1
    {
      ys[|es|]
    }

    /** A pool of one. */
    constructor (handlers: Handlers, maxTaskQueueSize: int)
      requires handlers.Valid()
      ensures this.handlers == handlers && fresh(sync) && Valid()
      ensures es == [] && Starts(At(), ys[0], maxTaskQueueSize)
    {
      this.handlers := handlers;
      this.sync := new Sync(1, maxTaskQueueSize);
      new;
      ys := [System(sync.machine, handlers.service.disk.files, [TIMEOUT], [], [])];
      es := [];
    }

    /** Catch up with scheduling steps taken by this or any other thread. */
    ghost method Follow(n: nat)
      requires Traced() && sync.Valid() && n <= |sync.steps| && Silent(sync.steps, n)
      requires IsRun(sync.initial, sync.steps[..n]) && After(sync.initial, sync.steps[..n]) == Now().sched
      modifies this
      ensures Valid() && old(ys) <= ys && old(es) <= es
      ensures Now() == old(Now()).(sched := sync.machine)
    {
      hide IsTrace, IsRun, After;
      var more := sync.steps[n..];
      assert sync.steps[..n] + more == sync.steps;
      RunSuffix(sync.initial, sync.steps[..n], more);
      IsTraceLength(At(), ys, es);
      ys := SilentSteps(At(), ys, es, more);
      es := es + more;
      IsTraceLength(At(), ys, es);
    }

    ghost method Record(e: Event, y: System)
      requires IsTrace(At(), ys, es) && Step(At(), ys[|es|], e, y)
      modifies `ys, `es
      ensures IsTrace(At(), ys, es) && ys == old(ys) + [y] && es == old(es) + [e]
    {
      hide Step;
      OneStep(At(), ys, es, e, y);
      ys, es := ys + [y], es + [e];
    }

    /** One turn of the loop, up to sleep, exit or the closed socket.  `slow` says
        whether the handler outlived PROCESSING_TIMEOUT_MS. */
    method Iterate(slow: bool, ghost w: nat) returns (taken: Taken, response: Response)
      requires Valid() && sync.machine.owner == Free
      requires w < |sync.machine.workers| && sync.machine.workers[w] == Top
      requires forall t | t in sync.taskQueue :: WellNamed(Decode(t.request, handlers.pattern))
      modifies this, sync, handlers.service.disk
      ensures Valid() && old(ys) <= ys && old(es) <= es
      ensures |sync.machine.workers| == |old(sync.machine.workers)|
      ensures !old(sync.running) ==> taken == Leave && sync.taskQueue == old(sync.taskQueue)
      ensures old(sync.running) ==> (taken.Took? <==> old(sync.taskQueue) != [])
      ensures taken.Took? ==>
        && sync.machine.workers[w] == Top
        && Now().outbox == old(Now().outbox) + [Delivery(taken.task.conn, response)]
        && Now().log == old(Now().log) + [response]
        && sync.sent == old(sync.sent) + [taken.task.conn]
        && sync.closed == old(sync.closed) + [Closure(taken.task.conn, Answered)]
      ensures !taken.Took? ==>
        && sync.machine.workers[w] == (if taken == Leave then Exited else Asleep)
        && Now() == old(Now()).(sched := sync.machine)
      ensures forall capacity | Starts(At(), ys[0], capacity) :: Refines(At(), Abstract(ys[0].files, At().at), Now())
    {
      hide Starts, Refines, IsTrace, Step, IsRun, After, WellNamed, Decode, Consistent, Abstract;
      response := TIMEOUT;
      var go := Enter(w);
      taken := Leave;
      if go {
        taken := Take(w);
        if taken.Took? { response := Work(slow, w, taken.task); }
      }
      Refined();
    }

    /** At every moment of a one-worker server the tree is the fold of the commands
        handled and each delivery is the response its command calls for. */
    ghost method Refined()
      requires Traced()
      ensures forall capacity | Starts(At(), ys[0], capacity) :: Refines(At(), Abstract(ys[0].files, At().at), ys[|es|])
    {
      hide Refines, Step;
      forall capacity | Starts(At(), ys[0], capacity)
        ensures Refines(At(), Abstract(ys[0].files, At().at), ys[|es|])
      {
        SerialRefinement(At(), ys, es, capacity);
      }
    }

    method Enter(ghost w: nat) returns (go: bool)
      requires Valid() && sync.machine.owner == Free
      requires w < |sync.machine.workers| && sync.machine.workers[w] == Top
      modifies this, sync
      ensures Valid() && old(ys) <= ys && old(es) <= es
      ensures go == old(sync.running) == sync.running && sync.machine.owner == Free
      ensures sync.taskQueue == old(sync.taskQueue) && sync.sent == old(sync.sent) && sync.closed == old(sync.closed)
      ensures |sync.machine.workers| == |old(sync.machine.workers)|
      ensures sync.machine.workers[w] == if go then Entering else Exited
      ensures Now() == old(Now()).(sched := sync.machine)
    {
      hide IsTrace, IsRun, After, Step;
      ghost var n := |sync.steps|;
      go := sync.Check(w);
      assert sync.steps[..n] == old(sync.steps);
      Follow(n);
    }

    method Take(ghost w: nat) returns (taken: Taken)
      requires Valid() && sync.machine.owner == Free
      requires w < |sync.machine.workers| && sync.machine.workers[w] == Entering
      modifies this, sync
      ensures Valid() && old(ys) <= ys && old(es) <= es
      ensures |sync.machine.workers| == |old(sync.machine.workers)|
      ensures sync.sent == old(sync.sent) && sync.closed == old(sync.closed)
      ensures TakenFrom(old(sync.taskQueue), old(sync.running), taken, sync.taskQueue, sync.machine.workers[w])
      ensures Now() == old(Now()).(sched := sync.machine)
    {
      hide IsTrace, IsRun, After, Step, TakenFrom;
      ghost var n := |sync.steps|;
      taken := sync.Take(w);
      assert sync.steps[..n] == old(sync.steps);
      Follow(n);
    }

    /** Handler, time-out, `send`, `close`. */
    method Work(slow: bool, ghost w: nat, task: Task) returns (response: Response)
      requires Valid() && w < |sync.machine.workers| && sync.machine.workers[w] == Working(task)
      requires WellNamed(Decode(task.request, handlers.pattern))
      modifies this, sync, handlers.service.disk
      ensures Valid() && old(ys) <= ys && old(es) <= es
      ensures |sync.machine.workers| == |old(sync.machine.workers)| && sync.machine.workers[w] == Top
      ensures if slow then response == TIMEOUT else
        Handles(old(handlers.service.disk.files), At().at, Decode(task.request, handlers.pattern),
                handlers.service.disk.files, response)
      ensures Now().log == old(Now().log) + [response]
      ensures Now().outbox == old(Now().outbox) + [Delivery(task.conn, response)]
      ensures sync.sent == old(sync.sent) + [task.conn]
      ensures sync.closed == old(sync.closed) + [Closure(task.conn, Answered)]
    {
      hide IsTrace, IsRun, After, Step, Handles, WellNamed, Decode, Consistent, Abstract;
      response := RunHandler(slow, w, task);
      Send(w, task, response);
      ghost var n := |sync.steps|;
      ghost var before := sync.steps;
      sync.CloseSocket(w, task);
      assert sync.steps[..n] == before;
      Follow(n);
    }

    method RunHandler(slow: bool, ghost w: nat, task: Task) returns (response: Response)
      requires Valid() && w < |sync.machine.workers| && sync.machine.workers[w] == Working(task)
      requires WellNamed(Decode(task.request, handlers.pattern))
      modifies this, sync`machine, sync`steps, handlers.service.disk
      ensures Valid() && old(ys) <= ys && old(es) <= es
      ensures sync.machine == Move(old(sync.machine), w, Replying(task))
      ensures if slow then response == TIMEOUT else
        Handles(old(handlers.service.disk.files), At().at, Decode(task.request, handlers.pattern),
                handlers.service.disk.files, response)
      ensures Now().response[w] == response
      ensures Now().log == old(Now().log) + [response] && Now().outbox == old(Now().outbox)
    {
      IsTraceLength(At(), ys, es);
      hide IsTrace, IsRun, After, Handles, WellNamed, Decode, Step, Consistent, Abstract;
      ghost var y := Now();
      response := handlers.Handle(task.request);
      ghost var given := response;
      if slow { response := TIMEOUT; }
      sync.Handled(w, task);
      HandlesValid(y.files, At().at, Decode(task.request, handlers.pattern), handlers.service.disk.files, given);
      RecordHandled(w, task, given, response);
    }

    ghost method RecordHandled(w: nat, task: Task, given: Response, response: Response)
      requires IsTrace(At(), ys, es)
      requires var y := ys[|es|];
        && |y.response| == |y.sched.workers| && w < |y.sched.workers| && y.sched.workers[w] == Working(task)
        && WellNamed(Decode(task.request, handlers.pattern))
        && Handles(y.files, At().at, Decode(task.request, handlers.pattern), handlers.service.disk.files, given)
      requires response == given || response == TIMEOUT
      modifies `ys, `es
      ensures IsTrace(At(), ys, es) && old(ys) <= ys && old(es) <= es
      ensures var y := old(Now());
        Now() == y.(sched := Move(y.sched, w, Replying(task)), files := handlers.service.disk.files,
                    response := y.response[w := response], log := y.log + [response])
    {
      IsTraceLength(At(), ys, es);
      hide IsTrace, Handles, WellNamed, Decode, Step;
      var y := Now();
      var y' := y.(sched := Move(y.sched, w, Replying(task)), files := handlers.service.disk.files,
                   response := y.response[w := response], log := y.log + [response]);
      HandleStep(At(), y, w, given, y');
      Record(W(w, Handle), y');
    }

    method Send(ghost w: nat, task: Task, response: Response)
      requires Valid() && w < |sync.machine.workers| && sync.machine.workers[w] == Replying(task)
      requires Now().response[w] == response
      modifies this, sync`sent, sync`machine, sync`steps
      ensures Valid() && old(ys) <= ys && old(es) <= es
      ensures sync.machine == Move(old(sync.machine), w, Closing(task)).(sent := sync.sent)
      ensures sync.sent == old(sync.sent) + [task.conn]
      ensures Now().log == old(Now().log) && Now().outbox == old(Now().outbox) + [Delivery(task.conn, response)]
    {
      IsTraceLength(At(), ys, es);
      hide IsTrace, IsRun, After, Handles, WellNamed, Decode, Consistent, Abstract;
      ghost var y := Now();
      sync.Respond(w, task);
      ghost var y' := y.(sched := sync.machine, outbox := y.outbox + [Delivery(task.conn, response)]);
      Record(W(w, Scheduler.Send), y');
    }
  }

  lemma IsTraceLength(u: Setup, ys: seq<System>, es: seq<Event>)
    requires IsTrace(u, ys, es)
    ensures |ys| == |es| + 1
  {
    hide Step;
  }

  lemma HandleApplies(s: State, w: nat, task: Task)
    requires w < |s.workers| && s.workers[w] == Working(task)
    ensures Enabled(s, W(w, Handle)) && Apply(s, W(w, Handle)) == Move(s, w, Replying(task))
  {}

  lemma HandlesValid(files: Files, at: Place, cmd: Command, files': Files, r: Response)
    requires Handles(files, at, cmd, files', r)
    ensures Consistent(files', at)
  {
    hide Consistent, Abstract, Update, Reply, AllTables;
  }

  lemma HandleStep(u: Setup, y: System, w: nat, r: Response, y': System)
    requires |y.response| == |y.sched.workers| && w < |y.sched.workers| && y.sched.workers[w].Working?
    requires WellNamed(Decode(y.sched.workers[w].task.request, u.pattern))
    requires Handles(y.files, u.at, Decode(y.sched.workers[w].task.request, u.pattern), y'.files, r)
    requires y'.sched == Move(y.sched, w, Replying(y.sched.workers[w].task))
    requires |y'.response| == |y.response| && (y'.response[w] == r || y'.response[w] == TIMEOUT)
    requires y'.response == y.response[w := y'.response[w]] && y'.log == y.log + [y'.response[w]]
    requires y'.outbox == y.outbox
    ensures Step(u, y, W(w, Handle), y')
  {
    hide Handles, WellNamed, Decode;
    HandleApplies(y.sched, w, y.sched.workers[w].task);
  }
}
