/** The whole server with one worker: whatever the interleaving of epoll thread,
    worker and stop, the encrypted tree is at every moment the fold of the popped
    requests, and every delivered response is the one its position calls for. */
module EndToEnd {
  import opened Options
  import opened Counting
  import opened Scheduler
  import opened Safety
  import opened Storage
  import opened Commands
  import opened Server

  /** Response of a request that took longer than PROCESSING_TIMEOUT_MS. */
  const TIMEOUT := Response(504, Nothing)

  datatype Delivery = Delivery(conn: nat, response: Response)

  /** The scheduler, the tree, each worker's `response` variable, and two records:
      the responses computed and those handed to `send`. */
  datatype System = System(
    sched: State, files: Files, response: seq<Response>, log: seq<Response>, outbox: seq<Delivery>)

  datatype Setup = Setup(at: Place, pattern: AddPattern)

  /** Where the handlers run and where responses leave; the rest is scheduling.  A
      handler's step is its contract `Handles`, which `Server.Handlers.Handle` meets
      and `WorkerLoop` connects to the scheduler's code.  A slow handler's response
      is replaced after it has taken effect. */
  ghost predicate Step(u: Setup, y: System, e: Event, y': System) {
    && Enabled(y.sched, e)
    && y'.sched == Apply(y.sched, e)
    && |y.response| == |y.sched.workers|
    && match e
       case W(w, Handle) =>
         var cmd := Decode(y.sched.workers[w].task.request, u.pattern);
         && WellNamed(cmd)
         && |y'.response| == |y.response|
         && (exists r ::
              && Handles(y.files, u.at, cmd, y'.files, r)
              && (y'.response[w] == r || y'.response[w] == TIMEOUT))
         && y'.response == y.response[w := y'.response[w]]
         && y'.log == y.log + [y'.response[w]]
         && y'.outbox == y.outbox
       case W(w, Send) =>
         && y'.files == y.files && y'.response == y.response && y'.log == y.log
         && y'.outbox == y.outbox + [Delivery(y.sched.workers[w].task.conn, y.response[w])]
       case _ =>
         y'.files == y.files && y'.response == y.response && y'.log == y.log && y'.outbox == y.outbox
  }

  ghost predicate IsTrace(u: Setup, ys: seq<System>, es: seq<Event>) {
    |ys| == |es| + 1 && forall i | 0 <= i < |es| :: Step(u, ys[i], es[i], ys[i + 1])
  }

  ghost predicate Starts(u: Setup, y: System, capacity: int) {
    && y.sched == Init(1, capacity)
    && Consistent(y.files, u.at)
    && |y.response| == 1 && y.log == [] && y.outbox == []
  }

  /** The requests in pop order, as commands. */
  function CommandsOf(popped: seq<Task>, u: Setup): (cmds: seq<Command>)
    ensures |cmds| == |popped|
  {
    seq(|popped|, i requires 0 <= i < |popped| => Decode(popped[i].request, u.pattern))
  }

  /** Response i is what command i calls for in the store the earlier ones left. */
  ghost predicate Fits(store: Store, cmds: seq<Command>, log: seq<Response>)
    requires AllTables(store)
  {
    && |log| <= |cmds|
    && forall i | 0 <= i < |log| :: log[i] == TIMEOUT || Reply(Run(store, cmds[..i]), cmds[i], log[i])
  }

  predicate Delivered(popped: seq<Task>, log: seq<Response>, outbox: seq<Delivery>) {
    && |outbox| <= |log| <= |popped|
    && forall i | 0 <= i < |outbox| :: outbox[i] == Delivery(popped[i].conn, log[i])
  }

  /** How far the worker is with the last task it popped. */
  predicate InStep(y: System) {
    && |y.sched.workers| == 1 && |y.response| == 1
    && var n, pc := |y.sched.popped|, y.sched.workers[0];
    && (match pc
        case Working(t) => n > 0 && t == y.sched.popped[n - 1] && |y.log| == n - 1 && |y.outbox| == n - 1
        case Replying(t) =>
          && n > 0 && t == y.sched.popped[n - 1] && |y.log| == n && |y.outbox| == n - 1
          && y.response[0] == y.log[n - 1]
        case _ => |y.log| == n && |y.outbox| == n)
  }

  ghost predicate Refines(u: Setup, store: Store, y: System) {
    && InStep(y)
    && AllTables(store) && Consistent(y.files, u.at)
    && var cmds := CommandsOf(y.sched.popped, u);
    && Abstract(y.files, u.at) == Run(store, cmds[..|y.log|])
    && Fits(store, cmds, y.log)
    && Delivered(y.sched.popped, y.log, y.outbox)
  }

  lemma InStepStep(u: Setup, y: System, e: Event, y': System)
    requires InStep(y) && Step(u, y, e, y')
    ensures InStep(y')
  {
    hide Handles, WellNamed, Decode, IsTop, Reportable, Priority, ClientsOf;
    match e
    case W(w, act) =>
      assert w == 0;
      match act {
        case Pop(k) => PopBounds(y.sched.queue, k);
        case _ =>
      }
    case P(act) => ProducerKeepsHeld(y.sched, act);
    case S(act) =>
  }

  lemma PopBounds(queue: seq<Task>, k: nat)
    requires IsTop(queue, k)
    ensures k < |queue|
  {}

  lemma ProducerKeepsHeld(s: State, act: ProducerAct)
    requires ProducerCan(s, act)
    ensures var s' := ProducerStep(s, act);
            && |s'.workers| == |s.workers| && s'.popped == s.popped
            && forall w | 0 <= w < |s.workers| ::
                 s'.workers[w] == s.workers[w] || (s.workers[w] == Asleep && s'.workers[w] == Woken)
  {
    hide Reportable, Priority, ClientsOf;
  }

  lemma CommandsGrow(popped: seq<Task>, t: Task, u: Setup, n: nat)
    requires n <= |popped|
    ensures CommandsOf(popped + [t], u)[..n] == CommandsOf(popped, u)[..n]
    ensures forall i | 0 <= i < |popped| :: CommandsOf(popped + [t], u)[i] == CommandsOf(popped, u)[i]
  {}

  /** Popping only lengthens the list of commands. */
  lemma RefinesPop(u: Setup, store: Store, y: System, k: nat, y': System)
    requires Refines(u, store, y) && Step(u, y, W(0, Pop(k)), y')
    ensures Refines(u, store, y')
  {
    hide Run, Reply, Update, Consistent, Abstract, Decode, InStep;
    InStepStep(u, y, W(0, Pop(k)), y');
    PopBounds(y.sched.queue, k);
    var popped, t := y.sched.popped, y.sched.queue[k];
    CommandsGrow(popped, t, u, |y.log|);
    forall i | 0 <= i < |y.log| ensures CommandsOf(popped + [t], u)[..i] == CommandsOf(popped, u)[..i] {
      CommandsGrow(popped, t, u, i);
    }
  }

  /** Handling performs the next command of the fold. */
  lemma RefinesHandle(u: Setup, store: Store, y: System, y': System)
    requires Refines(u, store, y) && Step(u, y, W(0, Handle), y')
    ensures Refines(u, store, y')
  {
    hide Reply, Update, Consistent, Abstract, Decode, WellNamed, Run, Fits;
    InStepStep(u, y, W(0, Handle), y');
    hide InStep;
    InStepHandle(y);
    var cmds := CommandsOf(y.sched.popped, u);
    RunNext(store, cmds, |y.log|);
    FitsNext(store, cmds, y.log, y'.response[0]);
  }

  lemma RunNext(store: Store, cmds: seq<Command>, n: nat)
    requires AllTables(store) && n < |cmds|
    ensures Run(store, cmds[..n + 1]) == Update(Run(store, cmds[..n]), cmds[n])
  {
    assert cmds[..n + 1][..n] == cmds[..n] && cmds[..n + 1][n] == cmds[n];
  }

  lemma FitsNext(store: Store, cmds: seq<Command>, log: seq<Response>, r: Response)
    requires AllTables(store) && Fits(store, cmds, log) && |log| < |cmds|
    requires r == TIMEOUT || Reply(Run(store, cmds[..|log|]), cmds[|log|], r)
    ensures Fits(store, cmds, log + [r])
  {
    hide Reply, Run;
  }

  lemma InStepHandle(y: System)
    requires InStep(y) && y.sched.workers[0].Working?
    ensures |y.log| == |y.sched.popped| - 1 && |y.outbox| == |y.log|
    ensures y.sched.workers[0].task == y.sched.popped[|y.log|]
  {}

  lemma RefinesSend(u: Setup, store: Store, y: System, y': System)
    requires Refines(u, store, y) && Step(u, y, W(0, Send), y')
    ensures Refines(u, store, y')
  {
    hide Reply, Update, Consistent, Abstract, Decode, Run, Fits;
    InStepStep(u, y, W(0, Send), y');
  }

  lemma RefinesOther(u: Setup, store: Store, y: System, e: Event, y': System)
    requires Refines(u, store, y) && Step(u, y, e, y')
    requires e.W? ==> !e.act.Pop? && e.act != Handle && e.act != Send
    ensures Refines(u, store, y')
  {
    hide Reply, Update, Consistent, Abstract, Decode, Run, Fits, Delivered, InStep, IsTop, Reportable, Priority, ClientsOf, Handles;
    InStepStep(u, y, e, y');
    if e.P? { ProducerKeepsHeld(y.sched, e.pact); }
  }

  lemma RefinesStep(u: Setup, store: Store, y: System, e: Event, y': System)
    requires Refines(u, store, y) && Step(u, y, e, y')
    ensures Refines(u, store, y')
  {
    if e.W? {
      OneWorker(u, y, e, y');
      match e.act {
        case Pop(k) => RefinesPop(u, store, y, k, y');
        case Handle => RefinesHandle(u, store, y, y');
        case Send => RefinesSend(u, store, y, y');
        case _ => RefinesOther(u, store, y, e, y');
      }
    } else {
      RefinesOther(u, store, y, e, y');
    }
  }

  lemma OneWorker(u: Setup, y: System, e: Event, y': System)
    requires InStep(y) && Step(u, y, e, y') && e.W?
    ensures e == W(0, e.act)
  {}

  lemma RefinesInit(u: Setup, y: System, capacity: int)
    requires Starts(u, y, capacity)
    ensures Refines(u, Abstract(y.files, u.at), y)
  {
    ContentsAreTables(y.files, u.at);
    assert CommandsOf([], u)[..0] == [];
  }

  /** With one worker, at every point of every run: the tree represents the fold of
      the commands popped and handled, in pop order; each response computed is the
      one that command calls for at its position, or the time-out; and the i-th
      delivery goes to the connection of the i-th popped task with the i-th
      response. */
  lemma {:induction false} SerialRefinement(u: Setup, ys: seq<System>, es: seq<Event>, capacity: int)
    requires IsTrace(u, ys, es) && Starts(u, ys[0], capacity)
    ensures Refines(u, Abstract(ys[0].files, u.at), ys[|es|])
    decreases |es|
  {
    hide Refines, Step, Starts;
    var n := |es|;
    if n == 0 {
      RefinesInit(u, ys[0], capacity);
      StartsConsistent(u, ys[0], capacity);
    } else {
      StartsConsistent(u, ys[0], capacity);
      TracePrefix(u, ys, es);
      SerialRefinement(u, ys[..n], es[..n - 1], capacity);
      RefinesStep(u, Abstract(ys[0].files, u.at), ys[n - 1], es[n - 1], ys[n]);
    }
  }

  lemma TracePrefix(u: Setup, ys: seq<System>, es: seq<Event>)
    requires IsTrace(u, ys, es) && es != []
    ensures IsTrace(u, ys[..|es|], es[..|es| - 1]) && ys[..|es|][0] == ys[0]
    ensures Step(u, ys[|es| - 1], es[|es| - 1], ys[|es|])
  {
    hide Step;
    var n := |es|;
    forall i | 0 <= i < n - 1 ensures Step(u, ys[..n][i], es[..n - 1][i], ys[..n][i + 1]) {
      assert Step(u, ys[i], es[i], ys[i + 1]);
    }
  }

  lemma StartsConsistent(u: Setup, y: System, capacity: int)
    requires Starts(u, y, capacity)
    ensures Consistent(y.files, u.at)
  {}

  // ---------- one delivery each ----------

  function DeliveredTo(c: nat): Delivery -> nat { (d: Delivery) => OneIf(d.conn == c) }

  /** Every delivery is a response attempt of the scheduler. */
  lemma DeliveriesAreSent(u: Setup, y: System, e: Event, y': System, c: nat)
    requires Step(u, y, e, y')
    requires Sum(y.outbox, DeliveredTo(c)) <= Sum(y.sched.sent, SentTo(c))
    ensures Sum(y'.outbox, DeliveredTo(c)) <= Sum(y'.sched.sent, SentTo(c))
  {
    hide Sum, Handles, WellNamed, Decode, IsTop, Reportable, Priority, ClientsOf;
    match e
    case W(w, act) =>
      if act == Send {
        var conn := y.sched.workers[w].task.conn;
        SumSnoc(y.sched.sent, conn, SentTo(c));
        SumSnoc(y.outbox, Delivery(conn, y.response[w]), DeliveredTo(c));
      }
    case P(act) => if act == Reject { SumSnoc(y.sched.sent, y.sched.producer.task.conn, SentTo(c)); }
    case S(_) =>
  }

  lemma {:induction false} TraceDeliveries(u: Setup, ys: seq<System>, es: seq<Event>, capacity: int, c: nat)
    requires IsTrace(u, ys, es) && Starts(u, ys[0], capacity)
    ensures Sum(ys[|es|].outbox, DeliveredTo(c)) <= Sum(ys[|es|].sched.sent, SentTo(c))
    ensures IsRun(ys[0].sched, es) && After(ys[0].sched, es) == ys[|es|].sched
    decreases |es|
  {
    hide Step, Enabled, Apply, DeliveredTo, SentTo;
    var n := |es|;
    if n == 0 {
      NothingSent(u, ys[0], capacity, c);
    } else {
      TracePrefix(u, ys, es);
      TraceDeliveries(u, ys[..n], es[..n - 1], capacity, c);
      DeliveriesAreSent(u, ys[n - 1], es[n - 1], ys[n], c);
      StepApplies(u, ys[n - 1], es[n - 1], ys[n]);
      RunSnoc(ys[0].sched, es[..n - 1], es[n - 1]);
      assert es[..n - 1] + [es[n - 1]] == es;
    }
  }

  lemma StepApplies(u: Setup, y: System, e: Event, y': System)
    requires Step(u, y, e, y')
    ensures Enabled(y.sched, e) && y'.sched == Apply(y.sched, e)
  {}

  lemma NothingSent(u: Setup, y: System, capacity: int, c: nat)
    requires Starts(u, y, capacity)
    ensures Sum(y.outbox, DeliveredTo(c)) == 0
  {}

  /** No connection is delivered two responses. */
  lemma OneDeliveryEach(u: Setup, ys: seq<System>, es: seq<Event>, capacity: int, c: nat)
    requires IsTrace(u, ys, es) && Starts(u, ys[0], capacity)
    ensures Sum(ys[|es|].outbox, DeliveredTo(c)) <= 1
  {
    hide IsRun, After, Step;
    TraceDeliveries(u, ys, es, capacity, c);
    assert Reachable(ys[|es|].sched);
    ConnectionFate(ys[|es|].sched, c);
  }
}
