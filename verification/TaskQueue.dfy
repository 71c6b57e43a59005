/** The worker task queue: a monitor with one lock and two condition variables.  A step is what one thread
    does while it holds the lock, from acquiring it to releasing it or to waiting.  Threads interleave
    freely, and a waiting thread may also wake for no reason. */
module TaskQueue {
  type Thread = nat

  /** A task is known by its position in the order of pushing.  `popped` records the order in which tasks
      left the queue, `running` who holds one that has not run yet, `finished` which have run. */
  datatype Tasks = Tasks(queue: seq<nat>, pushed: nat, popped: seq<nat>, running: map<Thread, nat>, finished: set<nat>)

  /** Workers are between two calls (`ready`), waiting for a task (`asleep`), woken but not yet running
      again (`woken`), running a task, about to report one that ran (`ran`), or gone (`exited`). */
  datatype State = State(
    tasks: Tasks, outstanding: int, stopped: bool,
    ready: set<Thread>, asleep: set<Thread>, woken: set<Thread>, ran: set<Thread>, exited: set<Thread>,
    drainAsleep: set<Thread>, drainWoken: set<Thread>)

  datatype Action =
    | Push(signalled: set<Thread>)   // Signal wakes at least one waiting worker, if there is one
    | BlockingPop(worker: Thread)    // enters, or goes round the wait loop again after waking
    | Run(worker: Thread)
    | NotifyOfCompletion(worker: Thread)
    | BlockingDrain(drainer: Thread) // enters, or goes round the wait loop again after waking
    | Stop
    | SpuriousWorker(worker: Thread)
    | SpuriousDrainer(drainer: Thread)

  function Initial(workers: set<Thread>): State {
    State(Tasks([], 0, [], map[], {}), 0, false, workers, {}, {}, {}, {}, {}, {})
  }

  predicate Enabled(s: State, a: Action) {
    match a
    case Push(w) => w <= s.asleep && (s.asleep != {} ==> w != {})
    case BlockingPop(w) => w in s.ready || w in s.woken
    case Run(w) => w in s.tasks.running
    case NotifyOfCompletion(w) => w in s.ran
    case BlockingDrain(d) => d !in s.drainAsleep
    case Stop => true
    case SpuriousWorker(w) => w in s.asleep
    case SpuriousDrainer(d) => d in s.drainAsleep
  }

  /** This step makes `BlockingDrain` return. */
  predicate Returns(s: State, a: Action) {
    a.BlockingDrain? && s.outstanding <= 0
  }

  function Pushed(t: Tasks): Tasks {
    t.(queue := t.queue + [t.pushed], pushed := t.pushed + 1)
  }

  function Popped(t: Tasks, w: Thread): Tasks
    requires t.queue != []
  {
    t.(queue := t.queue[1..], popped := t.popped + [t.queue[0]], running := t.running[w := t.queue[0]])
  }

  function Finished(t: Tasks, w: Thread): Tasks
    requires w in t.running
  {
    t.(running := t.running - {w}, finished := t.finished + {t.running[w]})
  }

  function Next(s: State, a: Action): State
    requires Enabled(s, a)
  {
    match a
    case Push(w) =>
      s.(outstanding := s.outstanding + 1, tasks := Pushed(s.tasks), asleep := s.asleep - w, woken := s.woken + w)
    case BlockingPop(w) =>
      var s := s.(ready := s.ready - {w}, woken := s.woken - {w});
      if s.tasks.queue == [] && !s.stopped then s.(asleep := s.asleep + {w})
      else if s.stopped then s.(exited := s.exited + {w})
      else s.(tasks := Popped(s.tasks, w))
    case Run(w) =>
      s.(tasks := Finished(s.tasks, w), ran := s.ran + {w})
    case NotifyOfCompletion(w) =>
      var s := s.(ran := s.ran - {w}, ready := s.ready + {w}, outstanding := s.outstanding - 1);
      if s.outstanding == 0 then s.(drainWoken := s.drainWoken + s.drainAsleep, drainAsleep := {}) else s
    case BlockingDrain(d) =>
      var s := s.(drainWoken := s.drainWoken - {d});
      if s.outstanding > 0 then s.(drainAsleep := s.drainAsleep + {d}) else s
    case Stop => s.(stopped := true, woken := s.woken + s.asleep, asleep := {})
    case SpuriousWorker(w) => s.(asleep := s.asleep - {w}, woken := s.woken + {w})
    case SpuriousDrainer(d) => s.(drainAsleep := s.drainAsleep - {d}, drainWoken := s.drainWoken + {d})
  }

  // ------------------------------------------------------------ the monitor as the code holds it

  /** The queue's own members; a condition variable is the set of threads waiting on it.  The lock is held
      throughout each method, and waiting ends the step. */
  class Monitor {
    var outstanding_tasks_: int
    var stopped_: bool
    var task_queue_: seq<nat>
    var tasks_available_: set<Thread>
    var tasks_drained_: set<Thread>
    ghost var s: State   // the queue among its threads

    ghost predicate Valid()
      reads this
    {
      && s.outstanding == outstanding_tasks_ && s.stopped == stopped_ && s.tasks.queue == task_queue_
      && s.asleep == tasks_available_ && s.drainAsleep == tasks_drained_
    }

    constructor (ghost workers: set<Thread>)
      ensures Valid() && s == Initial(workers)
    {
      outstanding_tasks_, stopped_, task_queue_ := 0, false, [];
      tasks_available_, tasks_drained_ := {}, {};
      s := Initial(workers);
    }

    method Push(task: nat)
      requires Valid() && task == s.tasks.pushed
      modifies this
      ensures Valid()
      ensures exists w :: Enabled(old(s), Action.Push(w)) && s == Next(old(s), Action.Push(w))
    {
      outstanding_tasks_ := outstanding_tasks_ + 1;
      task_queue_ := task_queue_ + [task];
      ghost var signalled := {};
      if tasks_available_ != {} {
        var w :| w in tasks_available_;
        tasks_available_ := tasks_available_ - {w};
        signalled := {w};
      }
      assert Enabled(s, Action.Push(signalled));
      s := Next(s, Action.Push(signalled));
    }

    /** One pass of the wait loop: waits again, gives up, or returns the oldest task. */
    method BlockingPop(worker: Thread) returns (waits: bool, task: seq<nat>)
      requires Valid() && Enabled(s, Action.BlockingPop(worker))
      modifies this
      ensures Valid() && s == Next(old(s), Action.BlockingPop(worker))
      ensures waits <==> old(s.tasks.queue) == [] && !old(s.stopped)
      ensures waits ==> task == []
      ensures !waits ==> task == if old(s.stopped) then [] else old(s.tasks.queue)[..1]
    {
      s := Next(s, Action.BlockingPop(worker));
      if task_queue_ == [] && !stopped_ {
        tasks_available_ := tasks_available_ + {worker};
        return true, [];
      }
      if stopped_ { return false, []; }
      waits, task := false, task_queue_[..1];
      task_queue_ := task_queue_[1..];
    }

    method NotifyOfCompletion(ghost worker: Thread)
      requires Valid() && Enabled(s, Action.NotifyOfCompletion(worker))
      modifies this
      ensures Valid() && s == Next(old(s), Action.NotifyOfCompletion(worker))
    {
      s := Next(s, Action.NotifyOfCompletion(worker));
      outstanding_tasks_ := outstanding_tasks_ - 1;
      if outstanding_tasks_ == 0 { tasks_drained_ := {}; }
    }

    /** One pass of the wait loop: waits again or returns. */
    method BlockingDrain(drainer: Thread) returns (waits: bool)
      requires Valid() && Enabled(s, Action.BlockingDrain(drainer))
      modifies this
      ensures Valid() && s == Next(old(s), Action.BlockingDrain(drainer))
      ensures waits <==> !Returns(old(s), Action.BlockingDrain(drainer))
    {
      waits := outstanding_tasks_ > 0;
      if waits { tasks_drained_ := tasks_drained_ + {drainer}; }
      s := Next(s, Action.BlockingDrain(drainer));
    }

    method Stop()
      requires Valid()
      modifies this
      ensures Valid() && s == Next(old(s), Action.Stop)
    {
      stopped_ := true;
      tasks_available_ := {};
      s := Next(s, Action.Stop);
    }
  }

  // ------------------------------------------------------------ what every step keeps

  /** A worker is in one place at a time. */
  ghost predicate Apart(s: State) {
    && s.ready !! s.asleep !! s.woken !! s.exited !! s.ran
    && s.tasks.running.Keys !! (s.ready + s.asleep + s.woken + s.exited + s.ran)
  }

  /** No worker is created or forgotten. */
  ghost function Everyone(s: State): set<Thread> {
    s.ready + s.asleep + s.woken + s.tasks.running.Keys + s.ran + s.exited
  }

  /** Before Stop, a sleeping worker means that every queued task has a woken worker coming for it;
      after Stop nobody sleeps. */
  ghost predicate NoLostWakeup(s: State) {
    && (!s.stopped && s.asleep != {} ==> |s.tasks.queue| <= |s.woken|)
    && (s.stopped ==> s.asleep == {})
    && (s.exited != {} ==> s.stopped)
  }

  ghost predicate Counted(s: State) {
    && s.outstanding == |s.tasks.queue| + |s.tasks.running| + |s.ran|
    && (s.drainAsleep != {} ==> s.outstanding > 0)
  }

  /** Tasks leave in the order they came, each once; a popped task is being run or has run, never both. */
  ghost predicate Fifo(t: Tasks) {
    && t.pushed == |t.popped| + |t.queue|
    && (forall i :: 0 <= i < |t.popped| ==> t.popped[i] == i)
    && (forall i :: 0 <= i < |t.queue| ==> t.queue[i] == |t.popped| + i)
    && (forall w :: w in t.running ==> t.running[w] < |t.popped| && t.running[w] !in t.finished)
    && (forall v, w :: v in t.running && w in t.running && v != w ==> t.running[v] != t.running[w])
    && (forall i :: i in t.finished ==> i < |t.popped|)
    && (forall i :: 0 <= i < |t.popped| && i !in t.finished ==> InHand(t, i))
  }

  ghost predicate InHand(t: Tasks, i: nat) {
    exists w :: w in t.running && t.running[w] == i
  }

  ghost predicate Inv(s: State) {
    Apart(s) && NoLostWakeup(s) && Counted(s) && Fifo(s.tasks)
  }

  lemma ApartStep(s: State, a: Action)
    requires Enabled(s, a) && Apart(s)
    ensures Apart(Next(s, a)) && Everyone(Next(s, a)) == Everyone(s)
  {
  }

  lemma WakeupPush(s: State, w: set<Thread>)
    requires Enabled(s, Push(w)) && Apart(s) && NoLostWakeup(s)
    ensures NoLostWakeup(Next(s, Push(w)))
  {
    hide Popped, Finished;
    Joins(s.woken, w);
  }

  lemma WakeupPop(s: State, w: Thread)
    requires Enabled(s, BlockingPop(w)) && Apart(s) && NoLostWakeup(s)
    ensures NoLostWakeup(Next(s, BlockingPop(w)))
  {
    hide Pushed, Finished;
    Leaves(s.woken, w);
  }

  lemma WakeupSpurious(s: State, w: Thread)
    requires Enabled(s, SpuriousWorker(w)) && Apart(s) && NoLostWakeup(s)
    ensures NoLostWakeup(Next(s, SpuriousWorker(w)))
  {
    Joins(s.woken, {w});
  }

  lemma WakeupQuiet(s: State, a: Action)
    requires Enabled(s, a) && NoLostWakeup(s) && !a.Push? && !a.BlockingPop? && !a.SpuriousWorker?
    ensures NoLostWakeup(Next(s, a))
  {
  }

  lemma WakeupStep(s: State, a: Action)
    requires Enabled(s, a) && Apart(s) && NoLostWakeup(s)
    ensures NoLostWakeup(Next(s, a))
  {
    hide Apart, NoLostWakeup, Next;
    match a
    case Push(w) => WakeupPush(s, w);
    case BlockingPop(w) => WakeupPop(s, w);
    case SpuriousWorker(w) => WakeupSpurious(s, w);
    case _ => WakeupQuiet(s, a);
  }

  lemma Joins(s: set<Thread>, w: set<Thread>)
    requires s !! w
    ensures |s + w| == |s| + |w|
    ensures w != {} ==> |s| < |s + w|
  {
  }

  lemma Leaves(s: set<Thread>, w: Thread)
    ensures |s - {w}| >= |s| - 1
  {
    if w in s { assert |s - {w}| == |s| - 1; } else { assert s - {w} == s; }
  }

  lemma CountPop(s: State, w: Thread)
    requires Enabled(s, BlockingPop(w)) && Apart(s) && Counted(s)
    ensures Counted(Next(s, BlockingPop(w)))
  {
    if s.tasks.queue != [] && !s.stopped { Added(s.tasks.running, w, s.tasks.queue[0]); }
  }

  lemma CountRun(s: State, w: Thread)
    requires Enabled(s, Run(w)) && Apart(s) && Counted(s)
    ensures Counted(Next(s, Run(w)))
  {
    Removed(s.tasks.running, w);
    Joins(s.ran, {w});
  }

  lemma CountNotify(s: State, w: Thread)
    requires Enabled(s, NotifyOfCompletion(w)) && Counted(s)
    ensures Counted(Next(s, NotifyOfCompletion(w)))
  {
    assert |s.ran - {w}| == |s.ran| - 1;
  }

  lemma CountStep(s: State, a: Action)
    requires Enabled(s, a) && Apart(s) && Counted(s)
    ensures Counted(Next(s, a))
  {
    hide Apart, Popped;
    match a
    case BlockingPop(w) => CountPop(s, w);
    case Run(w) => CountRun(s, w);
    case NotifyOfCompletion(w) => CountNotify(s, w);
    case _ =>
  }

  lemma Added(m: map<Thread, nat>, w: Thread, t: nat)
    requires w !in m
    ensures |m[w := t]| == |m| + 1
  {
    assert m[w := t].Keys == m.Keys + {w};
    assert |m| == |m.Keys| && |m[w := t]| == |m[w := t].Keys|;
  }

  lemma Removed(m: map<Thread, nat>, w: Thread)
    requires w in m
    ensures |m - {w}| == |m| - 1
  {
    assert (m - {w}).Keys == m.Keys - {w};
    assert |m| == |m.Keys| && |m - {w}| == |(m - {w}).Keys|;
  }

  lemma PushFifo(t: Tasks)
    requires Fifo(t)
    ensures Fifo(Pushed(t))
  {
    forall i | 0 <= i < |t.popped| && i !in t.finished ensures InHand(Pushed(t), i) {
      assert InHand(t, i);
    }
  }

  lemma PopFifo(t: Tasks, w: Thread)
    requires Fifo(t) && t.queue != [] && w !in t.running
    ensures Fifo(Popped(t, w))
  {
    var u := Popped(t, w);
    assert u.running[w] == |t.popped|;
    forall i | 0 <= i < |u.popped| && i !in u.finished ensures InHand(u, i) {
      if i < |t.popped| {
        assert InHand(t, i);
        var v :| v in t.running && t.running[v] == i;
        assert v in u.running && u.running[v] == i;
      } else {
        assert w in u.running && u.running[w] == i;
      }
    }
  }

  lemma RunFifo(t: Tasks, w: Thread)
    requires Fifo(t) && w in t.running
    ensures Fifo(Finished(t, w))
  {
    var u := Finished(t, w);
    forall i | 0 <= i < |u.popped| && i !in u.finished ensures InHand(u, i) {
      assert InHand(t, i);
      var v :| v in t.running && t.running[v] == i;
      assert v in u.running && u.running[v] == i;
    }
  }

  lemma FifoStep(s: State, a: Action)
    requires Enabled(s, a) && Apart(s) && Fifo(s.tasks)
    ensures Fifo(Next(s, a).tasks)
  {
    hide Fifo, Pushed, Popped, Finished;
    match a
    case Push(_) => PushFifo(s.tasks);
    case BlockingPop(w) => if s.tasks.queue != [] { PopFifo(s.tasks, w); }
    case Run(w) => RunFifo(s.tasks, w);
    case _ =>
  }

  lemma InvStep(s: State, a: Action)
    requires Enabled(s, a) && Inv(s)
    ensures Inv(Next(s, a)) && Everyone(Next(s, a)) == Everyone(s)
  {
    hide NoLostWakeup, Counted, Fifo, Everyone, Next, Apart, Enabled;
    ApartStep(s, a);
    WakeupStep(s, a);
    CountStep(s, a);
    FifoStep(s, a);
  }

  // ------------------------------------------------------------ whole runs

  /** Every action is possible when its turn comes. */
  ghost predicate Possible(s: State, run: seq<Action>)
    decreases |run|
  {
    run == [] || (Enabled(s, run[0]) && Possible(Next(s, run[0]), run[1..]))
  }

  ghost function After(s: State, run: seq<Action>): State
    requires Possible(s, run)
    decreases |run|
  {
    if run == [] then s else After(Next(s, run[0]), run[1..])
  }

  lemma {:induction false} RunKeeps(s: State, run: seq<Action>)
    requires Inv(s) && Possible(s, run)
    ensures Inv(After(s, run)) && Everyone(After(s, run)) == Everyone(s)
    decreases |run|
  {
    if run != [] {
      InvStep(s, run[0]);
      RunKeeps(Next(s, run[0]), run[1..]);
    }
  }

  ghost predicate Reachable(workers: set<Thread>, s: State) {
    exists run :: Possible(Initial(workers), run) && After(Initial(workers), run) == s
  }

  lemma ReachableInv(workers: set<Thread>, s: State)
    requires Reachable(workers, s)
    ensures Inv(s) && Everyone(s) == workers
  {
    var run :| Possible(Initial(workers), run) && After(Initial(workers), run) == s;
    RunKeeps(Initial(workers), run);
  }

  /** No lost wakeup: before Stop, while some worker sleeps, every queued task has its own woken worker;
      so no reachable state has a queued task, every worker asleep and none woken.  After Stop none sleeps. */
  lemma NoWakeupIsLost(workers: set<Thread>, s: State)
    requires Reachable(workers, s)
    ensures !s.stopped && s.asleep != {} ==> |s.tasks.queue| <= |s.woken|
    ensures workers != {} && s.tasks.queue != [] ==> s.asleep != workers
    ensures s.stopped ==> s.asleep == {}
  {
    ReachableInv(workers, s);
    hide Fifo, Counted;
    if s.asleep == workers { NoneWoken(s); }
  }

  lemma NoneWoken(s: State)
    requires Apart(s) && s.asleep == Everyone(s)
    ensures s.woken == {}
  {
    assert s.woken <= Everyone(s);
  }

  /** Tasks leave the queue in the order of pushing, each exactly once, and at any time a popped task has
      either run or is in the hands of exactly one worker. */
  lemma TasksLeaveInOrder(workers: set<Thread>, s: State)
    requires Reachable(workers, s)
    ensures s.tasks.popped + s.tasks.queue == seq(s.tasks.pushed, i => i)
    ensures forall i :: 0 <= i < |s.tasks.popped| ==> (i in s.tasks.finished <==> !InHand(s.tasks, i))
    ensures forall v, w | v in s.tasks.running && w in s.tasks.running ::
              s.tasks.running[v] == s.tasks.running[w] ==> v == w
  {
    hide Apart, NoLostWakeup, Counted, Everyone;
    ReachableInv(workers, s);
    InOrder(s.tasks);
  }

  lemma InOrder(t: Tasks)
    requires Fifo(t)
    ensures t.popped + t.queue == seq(t.pushed, i => i)
    ensures forall i :: 0 <= i < |t.popped| ==> (i in t.finished <==> !InHand(t, i))
  {
  }

  /** A sleeping drainer waits for real work: some task is queued, running or not yet reported. */
  lemma DrainerSleepsOnlyOnWork(workers: set<Thread>, s: State)
    requires Reachable(workers, s) && s.drainAsleep != {}
    ensures s.outstanding > 0 && (s.tasks.queue != [] || s.tasks.running != map[] || s.ran != {})
  {
    ReachableInv(workers, s);
  }

  /** Drain is sound: it returns only when every task pushed so far has run. */
  lemma DrainIsSound(workers: set<Thread>, s: State, d: Thread)
    requires Reachable(workers, s) && Enabled(s, BlockingDrain(d)) && Returns(s, BlockingDrain(d))
    ensures forall i :: 0 <= i < s.tasks.pushed ==> i in s.tasks.finished
  {
    ReachableInv(workers, s);
    assert |s.tasks.running| == 0;
    forall i | 0 <= i < s.tasks.pushed ensures i in s.tasks.finished {
      assert !InHand(s.tasks, i);
    }
  }

  lemma RunOne(s: State, a: Action, run: seq<Action>)
    requires Enabled(s, a) && Possible(Next(s, a), run)
    ensures Possible(s, [a] + run) && After(s, [a] + run) == After(Next(s, a), run)
  {
    assert ([a] + run)[1..] == run;
  }

  /** Work left before the count is zero. */
  ghost function Work(s: State): nat {
    3 * |s.tasks.queue| + 2 * |s.tasks.running| + |s.ran|
  }

  /** Stop has not caught tasks in the queue. */
  ghost predicate Completable(s: State) {
    s.stopped ==> s.tasks.queue == []
  }

  /** Unless tasks were stopped in the queue, the workers can always bring the count to zero. */
  lemma {:induction false} Progress(s: State) returns (run: seq<Action>)
    requires Inv(s) && Everyone(s) != {} && Completable(s)
    ensures Possible(s, run) && After(s, run).outstanding == 0
    decreases Work(s)
  {
    hide Next, Inv, Everyone, Possible, After, Work, Completable;
    var a, idle := NextMove(s);
    if idle {
      run := [];
      Nothing(s);
    } else {
      InvStep(s, a);
      run := Progress(Next(s, a));
      RunOne(s, a, run);
      run := [a] + run;
    }
  }

  lemma Nothing(s: State)
    requires Inv(s) && Work(s) == 0
    ensures Possible(s, []) && After(s, []).outstanding == 0
  {
  }

  /** A worker's move other than waiting or leaving. */
  predicate Helps(s: State, a: Action) {
    a.NotifyOfCompletion? || a.Run? || (a.BlockingPop? && s.tasks.queue != [] && !s.stopped)
  }

  lemma PopHelps(s: State, w: Thread)
    requires Apart(s) && Enabled(s, BlockingPop(w)) && s.tasks.queue != [] && !s.stopped
    ensures Work(Next(s, BlockingPop(w))) < Work(s)
  {
    Added(s.tasks.running, w, s.tasks.queue[0]);
  }

  lemma RunHelps(s: State, w: Thread)
    requires Apart(s) && Enabled(s, Run(w))
    ensures Work(Next(s, Run(w))) < Work(s)
  {
    Removed(s.tasks.running, w);
    Joins(s.ran, {w});
  }

  lemma NotifyHelps(s: State, w: Thread)
    requires Enabled(s, NotifyOfCompletion(w))
    ensures Work(Next(s, NotifyOfCompletion(w))) < Work(s)
  {
    assert |s.ran - {w}| == |s.ran| - 1;
  }

  /** No other move but a push changes the work left. */
  lemma OthersWait(s: State, a: Action)
    requires Enabled(s, a) && !a.Push? && !Helps(s, a)
    ensures Work(Next(s, a)) == Work(s)
  {
    hide Popped, Finished, Pushed;
  }

  /** Each worker's own moves bring a task closer to completion, and no move but a push makes more work. */
  lemma WorkStep(s: State, a: Action)
    requires Apart(s) && Enabled(s, a) && !a.Push?
    ensures Work(Next(s, a)) + (if Helps(s, a) then 1 else 0) <= Work(s)
  {
    hide Apart, Next, Work;
    if Helps(s, a) {
      match a
      case BlockingPop(w) => PopHelps(s, w);
      case Run(w) => RunHelps(s, w);
      case NotifyOfCompletion(w) => NotifyHelps(s, w);
    } else {
      OthersWait(s, a);
    }
  }

  lemma MoveHelps(s: State, a: Action)
    requires Inv(s) && Completable(s) && Enabled(s, a) && Helps(s, a)
    ensures Completable(Next(s, a)) && Work(Next(s, a)) < Work(s)
  {
    hide Apart, Fifo, NoLostWakeup, Counted, Work;
    WorkStep(s, a);
  }

  lemma NextMove(s: State) returns (a: Action, idle: bool)
    requires Inv(s) && Everyone(s) != {} && Completable(s)
    ensures idle ==> Work(s) == 0
    ensures !idle ==> Enabled(s, a) && Helps(s, a) && Completable(Next(s, a)) && Work(Next(s, a)) < Work(s)
  {
    hide Next, Everyone, Inv;
    a, idle := Stop, false;
    if s.ran != {} {
      var w :| w in s.ran;
      a := NotifyOfCompletion(w);
      MoveHelps(s, a);
    } else if s.tasks.running != map[] {
      var w :| w in s.tasks.running;
      a := Run(w);
      MoveHelps(s, a);
    } else if s.tasks.queue != [] {
      var w := SomeoneComes(s);
      a := BlockingPop(w);
      MoveHelps(s, a);
    } else {
      idle := true;
    }
  }

  ghost function Helpings(s: State, run: seq<Action>): nat
    requires Possible(s, run)
    decreases |run|
  {
    if run == [] then 0 else (if Helps(s, run[0]) then 1 else 0) + Helpings(Next(s, run[0]), run[1..])
  }

  /** In every run without pushes, whatever its order and however often threads wait or wake for nothing, the
      workers make at most `Work` moves of these. */
  lemma {:induction false} HelpingsBounded(s: State, run: seq<Action>)
    requires Inv(s) && Possible(s, run) && forall a :: a in run ==> !a.Push?
    ensures Helpings(s, run) + Work(After(s, run)) <= Work(s)
    decreases |run|
  {
    hide Next, Work, Helps, Enabled, Apart, NoLostWakeup, Counted, Fifo;
    if run != [] {
      assert run[0] in run;
      WorkStep(s, run[0]);
      InvStep(s, run[0]);
      HelpingsBounded(Next(s, run[0]), run[1..]);
    }
  }

  /** And where none of them is left to make, nothing is outstanding: so every run in which the workers go on as
      long as they can brings the count to zero. */
  lemma NoneLeft(workers: set<Thread>, s: State)
    requires Reachable(workers, s) && workers != {} && Completable(s)
    ensures (forall a :: Enabled(s, a) ==> !Helps(s, a)) <==> s.outstanding == 0
  {
    hide Apart, NoLostWakeup, Fifo, Everyone;
    ReachableInv(workers, s);
    if forall a :: Enabled(s, a) ==> !Helps(s, a) {
      var a, idle := NextMove(s);
      assert idle || Helps(s, a);
    } else {
      var a :| Enabled(s, a) && Helps(s, a);
      HelpMeansWork(s, a);
    }
  }

  lemma HelpMeansWork(s: State, a: Action)
    requires Enabled(s, a) && Helps(s, a)
    ensures Work(s) > 0
  {
  }

  /** When a task is queued and no worker has one, some worker is awake to take it. */
  lemma SomeoneComes(s: State) returns (w: Thread)
    requires Inv(s) && Everyone(s) != {} && Completable(s)
    requires s.ran == {} && s.tasks.running == map[] && s.tasks.queue != []
    ensures w in s.ready || w in s.woken
  {
    hide Fifo, Counted;
    if s.asleep == {} {
      assert s.exited == {};
      assert Everyone(s) == s.ready + s.woken;
    } else {
      assert s.woken != {};
    }
    w :| w in s.ready || w in s.woken;
  }

  /** Stop keeps queued tasks queued, so the count never reaches zero again. */
  lemma {:induction false} StoppedQueueStays(s: State, run: seq<Action>)
    requires Inv(s) && !Completable(s) && Possible(s, run)
    ensures var t := After(s, run); Inv(t) && !Completable(t)
    decreases |run|
  {
    hide Inv, Next, Completable;
    if run != [] {
      InvStep(s, run[0]);
      StoppedStep(s, run[0]);
      StoppedQueueStays(Next(s, run[0]), run[1..]);
    }
  }

  lemma StoppedStep(s: State, a: Action)
    requires Enabled(s, a) && !Completable(s)
    ensures !Completable(Next(s, a))
  {
  }

  /** From a reachable state some later `BlockingDrain` can return, if and only if Stop has not caught
      tasks in the queue. */
  lemma DrainCanReturn(workers: set<Thread>, s: State)
    requires Reachable(workers, s) && workers != {}
    ensures (exists run, d :: Possible(s, run) && Enabled(After(s, run), BlockingDrain(d)) &&
                              Returns(After(s, run), BlockingDrain(d)))
       <==> !(s.stopped && s.tasks.queue != [])
  {
    hide Next, Possible, After, Apart, NoLostWakeup, Fifo, Everyone;
    ReachableInv(workers, s);
    if !Completable(s) {
      forall run, d | Possible(s, run) && Enabled(After(s, run), BlockingDrain(d))
        ensures !Returns(After(s, run), BlockingDrain(d))
      {
        StoppedQueueStays(s, run);
      }
    } else {
      var run := Progress(s);
      RunKeeps(s, run);
      assert Enabled(After(s, run), BlockingDrain(0)) && Returns(After(s, run), BlockingDrain(0));
    }
  }
}
