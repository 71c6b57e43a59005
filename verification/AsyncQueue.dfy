/** The promise queue that runs a bounded number of jobs at a time. */
module AsyncQueue {
  type Job = nat

  /** What is waiting and running; and, for the record, what was ever added and started, in order. */
  datatype State = State(queue: seq<Job>, active: multiset<Job>, added: seq<Job>, started: seq<Job>,
                         finished: multiset<Job>)

  const EMPTY := State([], multiset{}, [], [], multiset{})

  /** Jobs start in the order in which they were added, each once; never more than allowed run at a time; and
      none waits while there is room for one more. */
  predicate Inv(s: State, concurrency: nat) {
    && s.started + s.queue == s.added
    && multiset(s.started) == s.active + s.finished
    && |s.active| <= concurrency
    && (s.queue != [] ==> |s.active| == concurrency)
  }

  datatype Action = Add(job: Job) | Finish(job: Job)

  predicate Enabled(s: State, a: Action) {
    a.Finish? ==> a.job in s.active
  }

  function Started(s: State, concurrency: nat): State {
    if |s.active| >= concurrency || s.queue == [] then s
    else s.(queue := s.queue[1..], active := s.active + multiset{s.queue[0]}, started := s.started + [s.queue[0]])
  }

  function Next(s: State, a: Action, concurrency: nat): State
    requires Enabled(s, a)
  {
    match a
    case Add(job) => Started(s.(queue := s.queue + [job], added := s.added + [job]), concurrency)
    case Finish(job) =>
      Started(s.(active := s.active - multiset{job}, finished := s.finished + multiset{job}), concurrency)
  }

  lemma StartedKeeps(s: State, concurrency: nat)
    requires s.started + s.queue == s.added && multiset(s.started) == s.active + s.finished && |s.active| <= concurrency
    requires s.queue != [] ==> |s.active| + 1 >= concurrency || |s.queue| == 1
    ensures Inv(Started(s, concurrency), concurrency)
  {
    if |s.active| < concurrency && s.queue != [] {
      var t := Started(s, concurrency);
      assert s.queue == [s.queue[0]] + s.queue[1..];
      assert t.started + t.queue == s.started + ([s.queue[0]] + s.queue[1..]);
      assert multiset(t.started) == multiset(s.started) + multiset{s.queue[0]};
    }
  }

  lemma InvStep(s: State, a: Action, concurrency: nat)
    requires Inv(s, concurrency) && Enabled(s, a)
    ensures Inv(Next(s, a, concurrency), concurrency)
  {
    match a
    case Add(job) =>
      assert s.started + (s.queue + [job]) == s.added + [job];
      StartedKeeps(s.(queue := s.queue + [job], added := s.added + [job]), concurrency);
    case Finish(job) =>
      StartedKeeps(s.(active := s.active - multiset{job}, finished := s.finished + multiset{job}), concurrency);
  }

  predicate Run(s: State, actions: seq<Action>, concurrency: nat)
    decreases |actions|
  {
    actions == [] || (Enabled(s, actions[0]) && Run(Next(s, actions[0], concurrency), actions[1..], concurrency))
  }

  function After(s: State, actions: seq<Action>, concurrency: nat): State
    requires Run(s, actions, concurrency)
    decreases |actions|
  {
    if actions == [] then s else After(Next(s, actions[0], concurrency), actions[1..], concurrency)
  }

  /** In every run; so with room for at least one job, whenever one waits another is running, and will make
      room for it. */
  lemma {:induction false} RunKeeps(s: State, actions: seq<Action>, concurrency: nat)
    requires Inv(s, concurrency) && Run(s, actions, concurrency)
    ensures var t := After(s, actions, concurrency);
      Inv(t, concurrency) && (concurrency > 0 && t.queue != [] ==> t.active != multiset{})
    decreases |actions|
  {
    if actions != [] {
      InvStep(s, actions[0], concurrency);
      RunKeeps(Next(s, actions[0], concurrency), actions[1..], concurrency);
    }
  }

  class Queue {
    const concurrency: nat
    var queue: seq<Job>
    var current: nat
    ghost var record: State

    ghost predicate Valid()
      reads this
    {
      Inv(record, concurrency) && queue == record.queue && current == |record.active|
    }

    constructor (concurrency: nat)
      ensures Valid() && record == EMPTY && this.concurrency == concurrency
    {
      this.concurrency, queue, current, record := concurrency, [], 0, EMPTY;
    }

    /** `run`, up to where it waits for the job that it has started, if any. */
    method Start()
      requires queue == record.queue && current == |record.active|
      modifies this
      ensures record == Started(old(record), concurrency) && queue == record.queue && current == |record.active|
    {
      record := Started(record, concurrency);
      if current >= concurrency { return; }
      current := current + 1;
      if queue != [] {
        queue := queue[1..];
        return;
      }
      current := current - 1;
    }

    /** `add` */
    method AddJob(job: Job)
      requires Valid()
      modifies this
      ensures Valid() && record == Next(old(record), Add(job), concurrency)
    {
      InvStep(record, Add(job), concurrency);
      queue := queue + [job];
      record := record.(queue := queue, added := record.added + [job]);
      Start();
    }

    /** The rest of `run`, when a job that it waited for has settled. */
    method Settle(job: Job)
      requires Valid() && job in record.active
      modifies this
      ensures Valid() && record == Next(old(record), Finish(job), concurrency)
    {
      InvStep(record, Finish(job), concurrency);
      record := record.(active := record.active - multiset{job}, finished := record.finished + multiset{job});
      current := current - 1;
      Start();
    }
  }
}
