/**
  The worker threads as a state machine. A job is handed to the workers in
  turn: the producer, holding the lock of the pool, appends it to the queue of
  the worker under the cursor and afterwards writes one byte into that worker's
  pipe. The worker sleeps in its event loop until an edge on the pipe wakes it,
  and then drains: while its count is not zero it reads one byte (blocking if
  there is none), takes its own lock, pops the oldest job and runs it.

  Each step below is one lock section or one system call, so a run is any
  interleaving of the producers and the workers.
*/
module Workers {
  import opened Arithmetic

  // Where a worker stands: asleep in its event loop, about to test its count,
  // in `read`, past `read` and about to pop, or running a job under its lock.
  datatype Phase<J> = Idle | Looking | Reading | Popping | Running(job: J)

  // `queue` is oldest first; `made` work cells were allocated, of which
  // `spare` are on the free list. `pipe` bytes are unread and `woken` is the
  // pending edge. `got` and `done` are the jobs received and completed so far.
  datatype Worker<J> = Worker(
    queue: seq<J>, count: nat, made: nat, spare: nat,
    pipe: nat, woken: bool, phase: Phase<J>,
    got: seq<J>, done: seq<J>)

  // Workers enter the list at its head and never leave, so the worker with
  // index `i` is followed by the one with index `i - 1`, and -1 is NULL.
  // `writing` is the worker whose byte the producer has yet to write, or -1.
  datatype Pool<J> = Pool(workers: seq<Worker<J>>, cursor: int, writing: int)

  datatype Step<J> =
    | Join
    | Submit(job: J)
    | Write
    | Wake(w: nat)
    | Look(w: nat)
    | Read(w: nat)
    | Pop(w: nat)
    | Finish(w: nat)

  const NONE := -1

  function Fresh<J>(): Worker<J> {
    Worker([], 0, 0, 0, 0, false, Idle, [], [])
  }

  function Start<J>(): Pool<J> {
    Pool([], NONE, NONE)
  }

  // The worker that gets the next job: the one under the cursor, or the head of
  // the list when the cursor has run off its end.
  function Target<J>(p: Pool<J>): int {
    if p.cursor == NONE then |p.workers| - 1 else p.cursor
  }

  predicate Enabled<J>(p: Pool<J>, a: Step<J>) {
    match a
    case Join => p.writing == NONE
    case Submit(_) =>
      p.writing == NONE
      && (0 <= Target(p) < |p.workers| ==> !p.workers[Target(p)].phase.Running?)
    case Write => 0 <= p.writing < |p.workers|
    case Wake(w) => w < |p.workers| && p.workers[w].phase.Idle? && p.workers[w].woken
    case Look(w) => w < |p.workers| && p.workers[w].phase.Looking?
    case Read(w) => w < |p.workers| && p.workers[w].phase.Reading? && p.workers[w].pipe > 0
    case Pop(w) => w < |p.workers| && p.workers[w].phase.Popping?
    case Finish(w) => w < |p.workers| && p.workers[w].phase.Running?
  }

  // The producer's lock section: a work cell off the free list or a new one,
  // linked in behind all the others.
  function Enqueued<J>(w: Worker<J>, job: J): Worker<J> {
    w.(queue := w.queue + [job], count := w.count + 1, got := w.got + [job],
       made := if w.spare > 0 then w.made else w.made + 1,
       spare := if w.spare > 0 then w.spare - 1 else 0)
  }

  // The worker's lock section up to the call of the job; with nothing queued it
  // goes straight back to the test of its count.
  function Popped<J>(w: Worker<J>): Worker<J> {
    if w.queue == [] then
      w.(phase := Looking)
    else
      w.(queue := w.queue[1..], count := if w.count > 0 then w.count - 1 else 0,
         phase := Running(w.queue[0]))
  }

  function Finished<J>(w: Worker<J>): Worker<J>
    requires w.phase.Running?
  {
    w.(done := w.done + [w.phase.job], spare := w.spare + 1, phase := Looking)
  }

  function Apply<J>(p: Pool<J>, a: Step<J>): Pool<J>
    requires Enabled(p, a)
  {
    match a
    case Join => p.(workers := p.workers + [Fresh()])
    case Submit(job) =>
      var w := Target(p);
      if 0 <= w < |p.workers| then
        Pool(p.workers[w := Enqueued(p.workers[w], job)], w - 1, w)
      else
        p
    case Write =>
      var w := p.writing;
      p.(workers := p.workers[w := p.workers[w].(pipe := p.workers[w].pipe + 1, woken := true)], writing := NONE)
    case Wake(w) => p.(workers := p.workers[w := p.workers[w].(woken := false, phase := Looking)])
    case Look(w) => p.(workers := p.workers[w := p.workers[w].(phase := if p.workers[w].count > 0 then Reading
      else Idle)])
    case Read(w) => p.(workers := p.workers[w := p.workers[w].(pipe := p.workers[w].pipe - 1, phase := Popping)])
    case Pop(w) => p.(workers := p.workers[w := Popped(p.workers[w])])
    case Finish(w) => p.(workers := p.workers[w := Finished(p.workers[w])])
  }

  // `run` leads from `p` to `q`.
  ghost predicate Runs<J>(p: Pool<J>, run: seq<Step<J>>, q: Pool<J>)
    decreases |run|
  {
    if run == [] then p == q
    else Enabled(p, run[0]) && Runs(Apply(p, run[0]), run[1..], q)
  }

  // ------------------------------------------------------------ what every run keeps

  function Current<J>(w: Worker<J>): seq<J> {
    if w.phase.Running? then [w.phase.job] else []
  }

  ghost predicate Sound<J>(w: Worker<J>, owed: bool) {
    // the counter is the length of the queue
    && w.count == |w.queue|
    // the jobs received are, in this order, those done, the one running and those queued
    && w.got == w.done + Current(w) + w.queue
    // each queued job has its byte: in the pipe, just read, or about to be written
    && w.pipe + (if w.phase.Popping? then 1 else 0) + (if owed then 1 else 0) == |w.queue|
    // a worker in `read` has a job
    && (w.phase.Reading? ==> w.queue != [])
    // a sleeping worker with unread bytes has an edge pending
    && (w.phase.Idle? && w.pipe > 0 ==> w.woken)
    // every work cell is queued, running or spare
    && w.made == |w.queue| + |Current(w)| + w.spare
  }

  ghost predicate Good<J>(p: Pool<J>) {
    && NONE <= p.cursor < |p.workers|
    && NONE <= p.writing < |p.workers|
    && (forall i :: 0 <= i < |p.workers| ==> Sound(p.workers[i], p.writing == i))
  }

  lemma EnqueuedSound<J>(w: Worker<J>, job: J)
    requires Sound(w, false)
    ensures Sound(Enqueued(w, job), true)
  {
    assert Enqueued(w, job).got == w.done + Current(w) + (w.queue + [job]);
  }

  lemma PoppedSound<J>(w: Worker<J>, owed: bool)
    requires Sound(w, owed) && w.phase.Popping?
    ensures Sound(Popped(w), owed)
  {
    assert w.queue == [w.queue[0]] + w.queue[1..];
  }

  lemma StepKeepsGood<J>(p: Pool<J>, a: Step<J>)
    requires Good(p) && Enabled(p, a)
    ensures Good(Apply(p, a))
  {
    var q := Apply(p, a);
    forall i | 0 <= i < |q.workers| ensures Sound(q.workers[i], q.writing == i) {
      if i < |p.workers| {
        assert Sound(p.workers[i], p.writing == i);
        if a.Submit? && i == Target(p) {
          EnqueuedSound(p.workers[i], a.job);
        } else if a.Pop? && i == a.w {
          PoppedSound(p.workers[i], p.writing == i);
        }
      }
    }
  }

  lemma {:induction false} RunKeepsGood<J>(p: Pool<J>, run: seq<Step<J>>, q: Pool<J>)
    requires Good(p) && Runs(p, run, q)
    ensures Good(q)
    decreases |run|
  {
    if run != [] {
      StepKeepsGood(p, run[0]);
      RunKeepsGood(Apply(p, run[0]), run[1..], q);
    }
  }

  // In whatever order producers and workers interleave: a worker has run a
  // prefix of the jobs it was given, in the order given, each once; its counter
  // is what is left; it blocks in `read` on an empty pipe only between a
  // producer's enqueue and that producer's write; and while it sleeps on a
  // non-empty queue an edge is pending or a byte is about to be written. A
  // worker that goes for its queue never finds it empty.
  lemma EveryRun<J>(run: seq<Step<J>>, q: Pool<J>, i: nat)
    requires Runs(Start(), run, q) && i < |q.workers|
    ensures var w := q.workers[i];
      && w.done + Current(w) + w.queue == w.got
      && w.count == |w.queue|
      && (w.phase.Reading? && w.pipe == 0 ==> q.writing == i)
      && (w.phase.Idle? && w.queue != [] ==> w.woken || q.writing == i)
      && (w.phase.Popping? ==> w.queue != [])
      && w.made == |w.queue| + |Current(w)| + w.spare
  {
    RunKeepsGood(Start(), run, q);
    assert Sound(q.workers[i], q.writing == i);
  }

  // ------------------------------------------------------------ every job gets done

  // Steps that finish what has been handed out, as opposed to new work.
  predicate Internal<J>(a: Step<J>) {
    !a.Join? && !a.Submit?
  }

  // A bound on the internal steps still to come.
  function Effort<J>(w: Worker<J>): nat {
    4 * |w.queue| + (if w.woken then 3 else 0)
    + match w.phase
      case Idle => 0
      case Popping => 0
      case Reading => 1
      case Looking => 2
      case Running(_) => 3
  }

  function Total<J>(ws: seq<Worker<J>>): nat {
    if ws == [] then 0 else Total(ws[..|ws| - 1]) + Effort(ws[|ws| - 1])
  }

  function Ahead<J>(p: Pool<J>): nat {
    Total(p.workers) + if p.writing == NONE then 0 else 4
  }

  lemma {:induction false} TotalUpdate<J>(ws: seq<Worker<J>>, i: nat, w: Worker<J>)
    requires i < |ws|
    ensures Total(ws[i := w]) == Total(ws) - Effort(ws[i]) + Effort(w)
    decreases |ws|
  {
    var n := |ws| - 1;
    if i == n {
      assert ws[i := w][..n] == ws[..n];
    } else {
      assert ws[i := w][..n] == ws[..n][i := w];
      TotalUpdate(ws[..n], i, w);
    }
  }

  lemma InternalStepShrinks<J>(p: Pool<J>, a: Step<J>)
    requires Good(p) && Enabled(p, a) && Internal(a)
    ensures Ahead(Apply(p, a)) < Ahead(p)
  {
    var i := if a.Write? then p.writing else a.w;
    var q := Apply(p, a);
    assert Sound(p.workers[i], p.writing == i);
    TotalUpdate(p.workers, i, q.workers[i]);
    assert q.workers == p.workers[i := q.workers[i]];
  }

  // Nothing handed out is left over: all queues are empty, all workers sleep,
  // and each has done exactly the jobs it was given.
  ghost predicate Settled<J>(p: Pool<J>) {
    p.writing == NONE
    && forall i :: 0 <= i < |p.workers| ==>
      p.workers[i].phase.Idle? && p.workers[i].queue == [] && p.workers[i].done == p.workers[i].got
  }

  // The internal step a worker, or the producer, can take now.
  function Ready<J>(p: Pool<J>, i: nat): Step<J>
    requires i < |p.workers|
  {
    match p.workers[i].phase
    case Idle => if p.workers[i].woken then Wake(i) else Write
    case Looking => Look(i)
    case Reading => if p.workers[i].pipe > 0 then Read(i) else Write
    case Popping => Pop(i)
    case Running(_) => Finish(i)
  }

  // No wake-up is lost and nobody blocks for good: short of the settled state
  // some internal step can always be taken.
  lemma NeverStuck<J>(p: Pool<J>)
    requires Good(p) && !Settled(p)
    ensures exists a: Step<J> :: Internal(a) && Enabled(p, a)
  {
    if p.writing != NONE {
      assert Internal<J>(Write) && Enabled(p, Write);
    } else {
      var i :| 0 <= i < |p.workers|
               && !(p.workers[i].phase.Idle? && p.workers[i].queue == [] && p.workers[i].done == p.workers[i].got);
      var w := p.workers[i];
      assert Sound(w, false);
      assert w.phase.Idle? && w.queue == [] ==> w.got == w.done;
      var a := Ready(p, i);
      assert Internal(a) && Enabled(p, a);
    }
  }

  // However the internal steps are scheduled there are fewer than `Ahead` of
  // them, and where they run out every job has been done.
  lemma {:induction false} InternalRunsAreBounded<J>(p: Pool<J>, run: seq<Step<J>>, q: Pool<J>)
    requires Good(p) && Runs(p, run, q)
    requires forall k :: 0 <= k < |run| ==> Internal(run[k])
    ensures |run| + Ahead(q) <= Ahead(p)
    ensures (forall a: Step<J> :: Internal(a) ==> !Enabled(q, a)) ==> Settled(q)
    decreases |run|
  {
    if run == [] {
      if !Settled(q) { NeverStuck(q); }
    } else {
      InternalStepShrinks(p, run[0]);
      StepKeepsGood(p, run[0]);
      InternalRunsAreBounded(Apply(p, run[0]), run[1..], q);
    }
  }

  // ------------------------------------------------------------ the jobs go round

  // The jobs that a run hands out, in order.
  function Submitted<J>(run: seq<Step<J>>): seq<J> {
    if run == [] then []
    else (if run[0].Submit? then [run[0].job] else []) + Submitted(run[1..])
  }

  // Of `jobs`, dealt in turn to `n` players of whom number `next` is the first
  // to get one: the jobs of player `i`.
  function Dealt<J>(jobs: seq<J>, n: nat, next: nat, i: nat): seq<J>
    requires next < n
  {
    if jobs == [] then []
    else (if i == next then [jobs[0]] else []) + Dealt(jobs[1..], n, if next == 0 then n - 1 else next - 1, i)
  }

  ghost function Next<J>(p: Pool<J>): (w: nat)
    requires Good(p) && p.workers != []
    ensures w < |p.workers|
  {
    Target(p)
  }

  lemma TurnStep<J>(p: Pool<J>, a: Step<J>, i: nat)
    requires Good(p) && Enabled(p, a) && !a.Join? && i < |p.workers|
    ensures var q := Apply(p, a);
      && Good(q) && |q.workers| == |p.workers|
      && q.workers[i].got == p.workers[i].got + (if a.Submit? && i == Next(p) then [a.job] else [])
      && Next(q) == if !a.Submit? then Next(p) else if Next(p) == 0 then |p.workers| - 1 else Next(p) - 1
  {
    StepKeepsGood(p, a);
    hide Sound;
  }

  // As long as no worker joins, the workers get the submitted jobs in turn.
  lemma {:induction false} RoundRobin<J>(p: Pool<J>, run: seq<Step<J>>, q: Pool<J>, i: nat)
    requires Good(p) && Runs(p, run, q) && i < |p.workers|
    requires forall k :: 0 <= k < |run| ==> !run[k].Join?
    ensures |q.workers| == |p.workers|
    ensures q.workers[i].got == p.workers[i].got + Dealt(Submitted(run), |p.workers|, Next(p), i)
    decreases |run|
  {
    hide Good, Enabled, Apply, Next, Dealt, Submitted;
    if run == [] {
      NothingDealt<J>(|p.workers|, Next(p), i);
    } else {
      var a := run[0];
      TurnStep(p, a, i);
      RoundRobin(Apply(p, a), run[1..], q, i);
      SubmittedFirst(run, |p.workers|, Next(p), i);
    }
  }

  lemma NothingDealt<J>(n: nat, next: nat, i: nat)
    requires next < n
    ensures Dealt<J>(Submitted([]), n, next, i) == []
  {
  }

  lemma SubmittedFirst<J>(run: seq<Step<J>>, n: nat, next: nat, i: nat)
    requires run != [] && next < n
    ensures var (a, later) := (run[0], Submitted(run[1..]));
      Dealt(Submitted(run), n, next, i)
      == (if a.Submit? && i == next then [a.job] else [])
         + Dealt(later, n, if !a.Submit? then next else if next == 0 then n - 1 else next - 1, i)
  {
    var a, later := run[0], Submitted(run[1..]);
    if a.Submit? {
      assert Submitted(run)[1..] == later;
    } else {
      assert Submitted(run) == later;
    }
  }

  // Who comes `k` turns after `next`; and how many turns after `next` player
  // `k` comes.
  function After(n: nat, next: nat, k: nat): nat
    requires next < n && k <= n
  {
    if k <= next then next - k else next + n - k
  }

  // A deal is fair: `n` players get either the whole part of the share or one
  // job more, the first `|jobs| % n` players of the round being the lucky ones.
  predicate Share(got: nat, m: nat, n: nat, turn: nat)
    requires n > 0
  {
    got == m / n + if turn < m % n then 1 else 0
  }

  lemma {:induction false} DealIsFair<J>(jobs: seq<J>, n: nat, next: nat, i: nat)
    requires next < n && i < n
    ensures Share(|Dealt(jobs, n, next, i)|, |jobs|, n, After(n, next, i))
    decreases |jobs|
  {
    if |jobs| < n {
      ShortDeal(jobs, n, next, i);
    } else {
      assert |jobs[n..]| / n == |jobs| / n - 1 && |jobs[n..]| % n == |jobs| % n by {
        OneRoundLess(|jobs|, n);
      }
      DealIsFair(jobs[n..], n, next, i);
      assert jobs == jobs[..n] + jobs[n..];
      DealSplits(jobs[..n], jobs[n..], n, next, i);
      FullRound(jobs[..n], n, next, i);
    }
  }

  lemma OneRoundLess(m: nat, n: nat)
    requires 0 < n <= m
    ensures (m - n) / n == m / n - 1 && (m - n) % n == m % n
  {
    var d := m / n;
    Quotient(m, n);
    assert d > 0;
    MulOneMore(n, d - 1);
    DivUnique(m - n, n, d - 1, m % n);
  }

  lemma {:induction false} ShortDeal<J>(jobs: seq<J>, n: nat, next: nat, i: nat)
    requires next < n && i < n && |jobs| < n
    ensures |Dealt(jobs, n, next, i)| == if After(n, next, i) < |jobs| then 1 else 0
    ensures |jobs| / n == 0 && |jobs| % n == |jobs|
    decreases |jobs|
  {
    DivUnique(|jobs|, n, 0, |jobs|);
    if jobs != [] {
      ShortDeal(jobs[1..], n, if next == 0 then n - 1 else next - 1, i);
    }
  }

  lemma {:induction false} DealSplits<J>(a: seq<J>, b: seq<J>, n: nat, next: nat, i: nat)
    requires next < n && |a| <= n
    ensures Dealt(a + b, n, next, i)
            == Dealt(a, n, next, i) + Dealt(b, n, if |a| == n then next else After(n, next, |a|), i)
    decreases |a|
  {
    if a == [] {
      assert a + b == b;
    } else {
      assert (a + b)[1..] == a[1..] + b;
      DealSplits(a[1..], b, n, if next == 0 then n - 1 else next - 1, i);
    }
  }

  lemma FullRound<J>(jobs: seq<J>, n: nat, next: nat, i: nat)
    requires next < n && i < n && |jobs| == n
    ensures |Dealt(jobs, n, next, i)| == 1
  {
    var last := jobs[n - 1..];
    assert jobs == jobs[..n - 1] + last;
    DealSplits(jobs[..n - 1], last, n, next, i);
    ShortDeal(jobs[..n - 1], n, next, i);
    assert last[1..] == [];
  }

  // Starting with an untouched pool of `n` workers, `m` jobs leave every worker
  // with `m / n` or `m / n + 1` of them, done in the order of submission.
  lemma EvenSpread<J>(p: Pool<J>, run: seq<Step<J>>, q: Pool<J>, i: nat)
    requires Good(p) && p.cursor == NONE && i < |p.workers| && p.workers[i] == Fresh()
    requires Runs(p, run, q) && Settled(q)
    requires forall k :: 0 <= k < |run| ==> !run[k].Join?
    ensures i < |q.workers|
    ensures q.workers[i].done == Dealt(Submitted(run), |p.workers|, |p.workers| - 1, i)
    ensures Share(|q.workers[i].done|, |Submitted(run)|, |p.workers|, |p.workers| - 1 - i)
  {
    hide Share, Dealt, Submitted, Good;
    RoundRobin(p, run, q, i);
    DealIsFair(Submitted(run), |p.workers|, |p.workers| - 1, i);
  }
}
