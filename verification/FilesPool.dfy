/** The bounded worker pool of files/pool.go, under any interleaving of submitters, workers and drains. */
module FilesPool {
  import opened Wrappers

  type Worker = nat
  type Task = nat   // tasks are numbered in the order in which they were submitted

  /** A worker is about to lock the pool for its next task, or runs one. */
  datatype Phase = Seeking | Running(task: Task)

  datatype Pool = Pool(
    max: nat,
    queue: seq<Task>,
    running: nat,
    workers: map<Worker, Phase>,
    submitted: nat,
    started: seq<Task>,
    finished: set<Task>)

  function NewPool(max: int): Pool {
    Pool(if max < 1 then 1 else max, [], 0, map[], 0, [], {})
  }

  datatype Step =
    | Submit(worker: Worker)   // the goroutine that a spawn would get
    | Seek(worker: Worker)     // a worker takes the next task, or leaves
    | Finish(worker: Worker)

  predicate Enabled(p: Pool, step: Step) {
    match step
    case Submit(w) => w !in p.workers
    case Seek(w) => w in p.workers && p.workers[w] == Seeking
    case Finish(w) => w in p.workers && p.workers[w].Running?
  }

  function Next(p: Pool, step: Step): Pool
    requires Enabled(p, step)
  {
    match step
    case Submit(w) =>
      var p' := p.(queue := p.queue + [p.submitted], submitted := p.submitted + 1);
      if p.running >= p.max then p' else p'.(running := p.running + 1, workers := p.workers[w := Seeking])
    case Seek(w) =>
      if p.queue == [] then p.(running := if p.running > 0 then p.running - 1 else 0, workers := p.workers - {w})
      else p.(queue := p.queue[1..], started := p.started + [p.queue[0]],
              workers := p.workers[w := Running(p.queue[0])])
    case Finish(w) => p.(finished := p.finished + {p.workers[w].task}, workers := p.workers[w := Seeking])
  }

  ghost predicate Run(pools: seq<Pool>, steps: seq<Step>, max: int) {
    && |pools| == |steps| + 1 && pools[0] == NewPool(max)
    && forall i :: 0 <= i < |steps| ==> Enabled(pools[i], steps[i]) && pools[i + 1] == Next(pools[i], steps[i])
  }

  /** What drain waits for. */
  predicate Idle(p: Pool) {
    p.running == 0 && p.queue == []
  }

  // ---------------------------------------------------------------- what every step keeps

  function Seekers(p: Pool): set<Worker> {
    set w | w in p.workers && p.workers[w] == Seeking
  }

  function Busy(p: Pool): set<Task> {
    set w | w in p.workers && p.workers[w].Running? :: p.workers[w].task
  }

  function Numbers(n: nat): (s: seq<Task>)
    ensures |s| == n && forall i :: 0 <= i < n ==> s[i] == i
  {
    seq(n, i => i)
  }

  ghost predicate Inv(p: Pool) {
    && p.max >= 1
    && |p.workers| == p.running <= p.max
    && p.started + p.queue == Numbers(p.submitted)
    && (forall v, w :: v in p.workers && w in p.workers && v != w && p.workers[v].Running? ==>
                         p.workers[v] != p.workers[w])
    && (forall t :: t in p.started <==> t in p.finished || t in Busy(p))
    && (forall t :: t in Busy(p) ==> t !in p.finished)
    && (p.running < p.max ==> |p.queue| <= |Seekers(p)|)
  }

  lemma NumbersMore(started: seq<Task>, queue: seq<Task>, n: nat)
    requires started + queue == Numbers(n)
    ensures started + (queue + [n]) == Numbers(n + 1)
  {
    assert started + (queue + [n]) == (started + queue) + [n];
  }

  /** A worker that runs nothing before and after does not matter to what is being run. */
  lemma BusyStays(p: Pool, p': Pool, w: Worker)
    requires forall v :: v != w ==>
                           (v in p.workers <==> v in p'.workers) && (v in p.workers ==> p.workers[v] == p'.workers[v])
    requires (w in p.workers ==> p.workers[w] == Seeking) && (w in p'.workers ==> p'.workers[w] == Seeking)
    ensures Busy(p') == Busy(p)
  {
  }

  lemma Spawns(p: Pool, p': Pool, w: Worker)
    requires w !in p.workers && p'.workers == p.workers[w := Seeking]
    ensures |p'.workers| == |p.workers| + 1 && |Seekers(p')| == |Seekers(p)| + 1 && Busy(p') == Busy(p)
  {
    assert p'.workers.Keys == p.workers.Keys + {w};
    assert |p'.workers.Keys| == |p.workers.Keys| + 1;
    assert Seekers(p') == Seekers(p) + {w};
    BusyStays(p, p', w);
  }

  lemma SubmitKeeps(p: Pool, w: Worker)
    requires Inv(p) && Enabled(p, Submit(w))
    ensures Inv(Next(p, Submit(w)))
  {
    var p' := Next(p, Submit(w));
    NumbersMore(p.started, p.queue, p.submitted);
    if p.running < p.max {
      Spawns(p, p', w);
    } else {
      assert Busy(p') == Busy(p);
    }
  }

  lemma BusyGains(p: Pool, p': Pool, w: Worker, t: Task)
    requires w in p.workers && p.workers[w] == Seeking && p'.workers == p.workers[w := Running(t)]
    ensures Busy(p') == Busy(p) + {t}
  {
    assert p'.workers[w].task == t;
    forall x | x in Busy(p) ensures x in Busy(p') {
      var v :| v in p.workers && p.workers[v].Running? && p.workers[v].task == x;
      assert p'.workers[v].task == x;
    }
  }

  lemma BusyLoses(p: Pool, p': Pool, w: Worker, t: Task)
    requires w in p.workers && p.workers[w] == Running(t) && p'.workers == p.workers[w := Seeking]
    requires forall v :: v in p.workers && v != w && p.workers[w].Running? ==> p.workers[v] != p.workers[w]
    ensures Busy(p') == Busy(p) - {t}
  {
    forall x | x in Busy(p) - {t} ensures x in Busy(p') {
      var v :| v in p.workers && p.workers[v].Running? && p.workers[v].task == x;
      assert p'.workers[v].task == x;
    }
    forall x | x in Busy(p') ensures x in Busy(p) && x != t {
      var v :| v in p'.workers && p'.workers[v].Running? && p'.workers[v].task == x;
      assert p.workers[v].task == x;
    }
  }

  /** The head of the queue has not been started. */
  lemma FreshTask(p: Pool)
    requires Inv(p) && p.queue != []
    ensures p.queue[0] !in p.started && p.queue[0] !in Busy(p) && p.queue[0] !in p.finished
    ensures forall v :: v in p.workers ==> p.workers[v] != Running(p.queue[0])
  {
    var n := |p.started|;
    assert (p.started + p.queue)[n] == p.queue[0];
    forall i | 0 <= i < n ensures p.started[i] != p.queue[0] {
      assert (p.started + p.queue)[i] == p.started[i];
    }
    forall v | v in p.workers && p.workers[v].Running? ensures p.workers[v].task in Busy(p) {}
  }

  lemma SeekKeeps(p: Pool, w: Worker)
    requires Inv(p) && Enabled(p, Seek(w))
    ensures Inv(Next(p, Seek(w)))
  {
    var p' := Next(p, Seek(w));
    assert w in p.workers.Keys;
    if p.queue == [] {
      assert p'.workers.Keys == p.workers.Keys - {w};
      BusyStays(p, p', w);
    } else {
      var t := p.queue[0];
      assert p'.started + p'.queue == p.started + p.queue;
      assert p'.workers.Keys == p.workers.Keys;
      BusyGains(p, p', w, t);
      assert Seekers(p') == Seekers(p) - {w};
      FreshTask(p);
    }
  }

  lemma FinishKeeps(p: Pool, w: Worker)
    requires Inv(p) && Enabled(p, Finish(w))
    ensures Inv(Next(p, Finish(w)))
  {
    var p' := Next(p, Finish(w));
    var t := p.workers[w].task;
    assert t in Busy(p);
    assert p'.workers.Keys == p.workers.Keys;
    BusyLoses(p, p', w, t);
    assert Seekers(p') == Seekers(p) + {w};
  }

  lemma {:induction false} InvAlways(pools: seq<Pool>, steps: seq<Step>, max: int, n: nat)
    requires Run(pools, steps, max) && n < |pools|
    ensures Inv(pools[n])
  {
    if n > 0 {
      InvAlways(pools, steps, max, n - 1);
      assert Enabled(pools[n - 1], steps[n - 1]) && pools[n - 1 + 1] == Next(pools[n - 1], steps[n - 1]);
      match steps[n - 1]
      case Submit(w) => SubmitKeeps(pools[n - 1], w);
      case Seek(w) => SeekKeeps(pools[n - 1], w);
      case Finish(w) => FinishKeeps(pools[n - 1], w);
    }
  }

  // ---------------------------------------------------------------- main theorems

  lemma {:induction false} MaxStays(pools: seq<Pool>, steps: seq<Step>, max: int, n: nat)
    requires Run(pools, steps, max) && n < |pools|
    ensures pools[n].max == if max < 1 then 1 else max
  {
    if n > 0 {
      MaxStays(pools, steps, max, n - 1);
      assert pools[n - 1 + 1] == Next(pools[n - 1], steps[n - 1]);
    }
  }

  /** At most max workers run; tasks start exactly once and in the order of submission; and while there is
      spare capacity, every waiting task has a worker on its way to it. */
  lemma PoolIsBoundedAndFair(pools: seq<Pool>, steps: seq<Step>, max: int, n: nat)
    requires Run(pools, steps, max) && n < |pools|
    ensures var p := pools[n];
            && |p.workers| <= p.max == (if max < 1 then 1 else max)
            && p.started <= Numbers(p.submitted)
            && p.queue == Numbers(p.submitted)[|p.started|..]
            && (p.running < p.max ==> |p.queue| <= |Seekers(p)|)
  {
    InvAlways(pools, steps, max, n);
    MaxStays(pools, steps, max, n);
    var p := pools[n];
    assert Numbers(p.submitted)[..|p.started|] == p.started;
  }

  /** drain returns in an idle state, and then every task submitted so far is finished. */
  lemma DrainedMeansFinished(pools: seq<Pool>, steps: seq<Step>, max: int, n: nat)
    requires Run(pools, steps, max) && n < |pools| && Idle(pools[n])
    ensures forall t: Task :: t < pools[n].submitted ==> t in pools[n].finished
  {
    InvAlways(pools, steps, max, n);
    var p := pools[n];
    assert p.workers.Keys == {} by { assert |p.workers.Keys| == 0; }
    forall t: Task | t < p.submitted ensures t in p.finished {
      assert p.started == Numbers(p.submitted) && Numbers(p.submitted)[t] == t;
      assert t in p.started;
    }
  }

  /** No wake-up is lost: the pool becomes idle only in the step in which a worker leaves, which is the
      one that broadcasts. */
  lemma IdleIsBroadcast(pools: seq<Pool>, steps: seq<Step>, max: int, n: nat)
    requires Run(pools, steps, max) && n < |steps| && !Idle(pools[n]) && Idle(pools[n + 1])
    ensures steps[n].Seek? && pools[n].queue == [] && |pools[n].workers| == 1
  {
    InvAlways(pools, steps, max, n);
    assert Enabled(pools[n], steps[n]) && pools[n + 1] == Next(pools[n], steps[n]);
  }

  // ---------------------------------------------------------------- the pool as an object

  /** The fields that `mu` guards, and the three stretches of code that run under it. */
  class Guarded {
    const max: nat
    var queue: seq<Task>
    var running: nat

    constructor (max: int)
      ensures this.max == NewPool(max).max && queue == [] && running == 0
    {
      this.max := if max < 1 then 1 else max;
      queue, running := [], 0;
    }

    /** submit: whether a worker has to be spawned. */
    method RunSubmit(task: Task) returns (spawn: bool)
      modifies this
      ensures queue == old(queue) + [task]
      ensures spawn <==> old(running) < max
      ensures running == if spawn then old(running) + 1 else old(running)
      ensures forall p: Pool, w |
                p.max == max && p.queue == old(queue) && p.running == old(running) && p.submitted == task
                                  && Enabled(p, Submit(w)) ::
                queue == Next(p, Submit(w)).queue && running == Next(p, Submit(w)).running
                && (spawn <==> w in Next(p, Submit(w)).workers)
    {
      queue := queue + [task];
      if running >= max {
        return false;
      }
      running := running + 1;
      return true;
    }

    /** The head of the worker's loop: its next task, or None when it leaves. */
    method RunSeek() returns (task: Option<Task>)
      requires running > 0
      modifies this
      ensures old(queue) == [] ==> task == None && queue == [] && running == old(running) - 1
      ensures old(queue) != [] ==> task == Some(old(queue)[0]) && queue == old(queue)[1..] && running == old(running)
      ensures forall p: Pool, w | p.queue == old(queue) && p.running == old(running) && Enabled(p, Seek(w)) ::
                queue == Next(p, Seek(w)).queue && running == Next(p, Seek(w)).running
                && (if task.Some? then Next(p, Seek(w)).workers[w] == Running(task.value)
                    else w !in Next(p, Seek(w)).workers)
    {
      if |queue| == 0 {
        running := running - 1;
        return None;
      }
      task := Some(queue[0]);
      queue := queue[1..];
    }
  }
}
