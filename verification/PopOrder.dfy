/** In what order tasks leave the queue, over whole runs. */
module PopOrder {
  import Text
  import opened Options
  import opened Counting
  import opened Scheduler
  import opened Safety

  /** The log of popped tasks only grows. */
  lemma PopStep(s: State, e: Event)
    requires Enabled(s, e)
    ensures var s' := Apply(s, e);
      if e.W? && e.act.Pop? then
        && IsTop(s.queue, e.act.k)
        && s'.popped == s.popped + [s.queue[e.act.k]]
        && s'.queue == Without(s.queue, e.act.k)
      else
        && s'.popped == s.popped
        && s'.queue == s.queue + if e == P(Push) then [s.producer.task] else []
  {
    hide IsTop, Priority, Reportable, ClientsOf;
    match e
    case W(w, act) => if act.Pop? { IsTopBounds(s.queue, act.k); }
    case _ =>
  }

  lemma {:induction false} PoppedGrows(s: State, es: seq<Event>)
    requires IsRun(s, es)
    ensures s.popped <= After(s, es).popped
    decreases |es|
  {
    hide Apply, Enabled;
    if es != [] {
      PopStep(s, es[0]);
      PoppedGrows(Apply(s, es[0]), es[1..]);
    }
  }

  /** What a run has popped. */
  function PoppedIn(s: State, es: seq<Event>): seq<Task>
    requires IsRun(s, es)
  {
    PoppedGrows(s, es);
    After(s, es).popped[|s.popped|..]
  }

  lemma PoppedCons(s: State, es: seq<Event>)
    requires es != [] && IsRun(s, es)
    ensures var s' := Apply(s, es[0]);
      PoppedIn(s, es) == s'.popped[|s.popped|..] + PoppedIn(s', es[1..])
    ensures |Apply(s, es[0]).popped| >= |s.popped|
  {
    hide Apply, Enabled;
    PopStep(s, es[0]);
    PoppedGrows(Apply(s, es[0]), es[1..]);
  }

  lemma WithoutMembers(queue: seq<Task>, k: nat, t: Task)
    requires k < |queue| && t in queue && queue[k] != t
    ensures t in Without(queue, k)
  {
    var i :| 0 <= i < |queue| && queue[i] == t;
    assert Without(queue, k)[if i < k then i else i - 1] == t;
  }

  /** A task in the queue leaves before every task of strictly lower priority, be it
      queued already or arriving later: in no run is such a task popped without it. */
  lemma {:induction false} HigherPriorityFirst(s: State, es: seq<Event>, a: Task, b: Task, j: nat)
    requires IsRun(s, es) && a in s.queue && a.priority > b.priority
    requires j < |PoppedIn(s, es)| && PoppedIn(s, es)[j] == b
    ensures exists i | 0 <= i < j :: PoppedIn(s, es)[i] == a
    decreases |es|
  {
    hide Apply, Enabled, PoppedIn, IsTop;
    PoppedNothing(s);
    if es != [] {
      var e, s' := es[0], Apply(s, es[0]);
      var rest := PoppedIn(s', es[1..]);
      PopStep(s, e);
      PoppedCons(s, es);
      if e.W? && e.act.Pop? {
        var k := e.act.k;
        IsTopBounds(s.queue, k);
        assert PoppedIn(s, es) == [s.queue[k]] + rest;
        TopBeats(s.queue, k, a);
        if s.queue[k] == a {
          assert PoppedIn(s, es)[0] == a && j > 0;
        } else {
          WithoutMembers(s.queue, k, a);
          HigherPriorityFirst(s', es[1..], a, b, j - 1);
          var i :| 0 <= i < j - 1 && rest[i] == a;
          assert PoppedIn(s, es)[i + 1] == a;
        }
      } else {
        assert PoppedIn(s, es) == rest;
        HigherPriorityFirst(s', es[1..], a, b, j);
      }
    }
  }

  lemma PoppedNothing(s: State)
    ensures PoppedIn(s, []) == []
  {}

  lemma TopBeats(queue: seq<Task>, k: nat, t: Task)
    requires IsTop(queue, k) && t in queue
    ensures t.priority <= queue[k].priority
  {}

  // ---------- without arrivals ----------

  predicate NoPush(es: seq<Event>) { forall i | 0 <= i < |es| :: es[i] != P(Push) }

  predicate Descending(ts: seq<Task>) { forall i, j | 0 <= i < j < |ts| :: ts[i].priority >= ts[j].priority }

  predicate Dominates(ts: seq<Task>, queue: seq<Task>) {
    forall t, u | t in ts && u in queue :: t.priority >= u.priority
  }

  /** Without arrivals a run pops the queue from the top: what was popped comes in
      descending priority, dominates what is left, and together they are the queue.
      After |queue| pops nothing is left. */
  lemma {:induction false} PopsDescend(s: State, es: seq<Event>)
    requires IsRun(s, es) && NoPush(es)
    ensures multiset(PoppedIn(s, es)) + multiset(After(s, es).queue) == multiset(s.queue)
    ensures Descending(PoppedIn(s, es)) && Dominates(PoppedIn(s, es), After(s, es).queue)
    ensures |PoppedIn(s, es)| + |After(s, es).queue| == |s.queue|
    decreases |es|
  {
    hide Apply, Enabled, PoppedIn, IsTop, Dominates, Descending;
    PoppedNothing(s);
    if es == [] {
      TriviallyDescending(s.queue);
    } else {
      var e, s' := es[0], Apply(s, es[0]);
      var rest := PoppedIn(s', es[1..]);
      PopStep(s, e);
      PoppedCons(s, es);
      assert forall i | 0 <= i < |es[1..]| :: es[1..][i] == es[i + 1];
      PopsDescend(s', es[1..]);
      if e.W? && e.act.Pop? {
        var k := e.act.k;
        IsTopBounds(s.queue, k);
        assert PoppedIn(s, es) == [s.queue[k]] + rest;
        WithoutOne(s.queue, k);
        hide Without;
        TopFirst(s.queue, k, rest, After(s', es[1..]).queue);
      } else {
        assert PoppedIn(s, es) == rest;
      }
    }
  }

  lemma TriviallyDescending(queue: seq<Task>)
    ensures Descending([]) && Dominates([], queue)
  {}

  lemma WithoutOne(queue: seq<Task>, k: nat)
    requires k < |queue|
    ensures multiset(queue) == multiset{queue[k]} + multiset(Without(queue, k))
    ensures |Without(queue, k)| == |queue| - 1
  {
    assert queue == queue[..k] + [queue[k]] + queue[k + 1..];
  }

  lemma TopFirst(queue: seq<Task>, k: nat, rest: seq<Task>, left: seq<Task>)
    requires IsTop(queue, k) && Descending(rest) && Dominates(rest, left)
    requires multiset(rest) + multiset(left) == multiset(Without(queue, k))
    ensures Descending([queue[k]] + rest) && Dominates([queue[k]] + rest, left)
  {
    forall t | t in rest || t in left ensures t.priority <= queue[k].priority {
      assert t in multiset(rest) + multiset(left);
      assert t in multiset(Without(queue, k));
      assert t in queue;
    }
  }

  /** The arguments of a command do not change its priority. */
  lemma PriorityIgnoresArguments(word: string, rest: string)
    requires forall i | 0 <= i < |word| :: word[i] != ' '
    ensures Priority(word + " " + rest) == Priority(word)
  {
    var s := word + " " + rest;
    Text.IndexOfIs(s, ' ', |word|);
    Text.IndexOfIs(word, ' ', |word|);
    assert s[..|word|] == word == word[..|word|];
  }
}
