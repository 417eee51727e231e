/**
  The job queue of one worker: work cells in a doubly linked list, the newest at
  its head and the oldest at its tail, and a free list of used cells.
*/
module WorkQueue {
  import opened Workers
  import opened Roster
  import opened Wrappers

  // A work cell is a list node whose `it` is the job. The free list goes through `next`.
  ghost predicate Spare<J(!new)>(spare: seq<Node<J>>)
    reads spare`next
  {
    forall i | 0 <= i < |spare| :: spare[i].next == Nth(spare, i + 1)
  }

  // The jobs of the cells, from the last one to the first.
  ghost function JobsOf<J(!new)>(order: seq<Node<J>>): (jobs: seq<J>)
    reads order`it
    ensures |jobs| == |order|
  {
    if order == [] then [] else JobsOf(order[1..]) + [order[0].it]
  }

  lemma {:induction false} OldestJob<J(!new)>(order: seq<Node<J>>)
    requires order != []
    ensures JobsOf(order) == [order[|order| - 1].it] + JobsOf(order[..|order| - 1])
    decreases |order|
  {
    if |order| > 1 {
      OldestJob(order[1..]);
      assert order[1..][..|order| - 2] == order[..|order| - 1][1..];
    }
  }

  // A producer hands in a job; the worker takes its turn of the drain, if there is a job.
  datatype Act<J> = Give(job: J) | Turn

  function LeftAfter<J>(jobs: seq<J>, a: Act<J>): seq<J> {
    if a.Give? then jobs + [a.job] else if jobs == [] then [] else jobs[1..]
  }

  function RunIn<J>(jobs: seq<J>, a: Act<J>): seq<J> { if a.Turn? && jobs != [] then [jobs[0]] else [] }

  // The jobs left after a series of acts on `jobs`, and those run by it.
  function Left<J>(jobs: seq<J>, acts: seq<Act<J>>): seq<J> {
    if acts == [] then jobs else LeftAfter(Left(jobs, acts[..|acts| - 1]), acts[|acts| - 1])
  }

  function RunBy<J>(jobs: seq<J>, acts: seq<Act<J>>): seq<J> {
    if acts == [] then []
    else
      var front := acts[..|acts| - 1];
      RunBy(jobs, front) + RunIn(Left(jobs, front), acts[|acts| - 1])
  }

  function GivenBy<J>(acts: seq<Act<J>>): seq<J> {
    if acts == [] then []
    else GivenBy(acts[..|acts| - 1]) + if acts[|acts| - 1].Give? then [acts[|acts| - 1].job] else []
  }

  lemma OneGiven<J>(r: seq<J>, q: seq<J>, jobs: seq<J>, g: seq<J>, job: J)
    requires r + q == jobs + g
    ensures (r + []) + (q + [job]) == jobs + (g + [job])
  {
    assert (r + []) + (q + [job]) == (r + q) + [job];
    assert jobs + (g + [job]) == (jobs + g) + [job];
  }

  lemma OneTurn<J>(r: seq<J>, q: seq<J>)
    requires q != []
    ensures (r + [q[0]]) + q[1..] == r + q
  {
  }

  // However producers and turns alternate, the jobs run and then those left are the jobs
  // there were and then those given, in that order: none is lost, doubled or overtaken.
  lemma {:induction false} FirstInFirstOut<J>(jobs: seq<J>, acts: seq<Act<J>>)
    ensures RunBy(jobs, acts) + Left(jobs, acts) == jobs + GivenBy(acts)
    decreases |acts|
  {
    if acts != [] {
      var front, a := acts[..|acts| - 1], acts[|acts| - 1];
      FirstInFirstOut(jobs, front);
      var r, q, g := RunBy(jobs, front), Left(jobs, front), GivenBy(front);
      if a.Give? {
        OneGiven(r, q, jobs, g, a.job);
      } else if q != [] {
        OneTurn(r, q);
        assert jobs + (g + []) == jobs + g;
      }
    }
  }

  lemma ChainedButLast<J(!new)>(order: seq<Node<J>>)
    requires order != []
    requires forall i | 0 <= i < |order| ::
             order[i].next == Nth(order, if i == |order| - 2 then |order| else i + 1)
    requires forall i | 0 <= i < |order| :: order[i].prev == Nth(order, i - 1)
    ensures Chained(order[..|order| - 1])
  {
    hide Nth;
    var n := |order| - 1;
    forall i | 0 <= i < n
      ensures order[..n][i].next == Nth(order[..n], i + 1) && order[..n][i].prev == Nth(order[..n], i - 1)
    {
      NthFront(order, i + 1);
      NthFront(order, i - 1);
    }
  }

  lemma NthFront<J(!new)>(order: seq<Node<J>>, i: int)
    requires order != [] && i < |order|
    ensures Nth(order[..|order| - 1], i) == if i == |order| - 1 then null else Nth(order, i)
    ensures Nth(order, |order|) == null
  {
  }

  // The cells of `all` are used from the back.
  lemma OneMoreUsed<E>(all: seq<E>, rest: seq<E>, used: seq<E>, before: seq<E>)
    requires |rest| < |all| && rest == all[..|rest| + 1][..|rest|]
    requires used == [all[|rest|]] + (all[|rest| + 1..] + before)
    ensures rest == all[..|rest|] && used == all[|rest|..] + before
  {
    assert all[|rest|..] == [all[|rest|]] + all[|rest| + 1..];
  }

  class Queue<J(!new)> {
    var head: Node?<J>
    var tail: Node?<J>
    var heap: Node?<J>
    var count: nat
    ghost var order: seq<Node<J>>
    ghost var spare: seq<Node<J>>

    ghost predicate Valid()
      reads this, order, spare
    {
      && Distinct(order) && Distinct(spare)
      && (forall i, j :: 0 <= i < |order| && 0 <= j < |spare| ==> order[i] != spare[j])
      && head == Nth(order, 0) && tail == Nth(order, |order| - 1) && heap == Nth(spare, 0)
      && Chained(order) && Spare(spare) && count == |order|
    }

    // The queued jobs, oldest first.
    ghost function Jobs(): (jobs: seq<J>)
      requires Valid()
      reads this, order, spare
      ensures |jobs| == count
    {
      JobsOf(order)
    }

    // The worker of the state machine that has this queue.
    ghost predicate Shows(w: Worker<J>)
      requires Valid()
      reads this, order, spare
    {
      w.queue == Jobs() && w.count == count && w.spare == |spare|
    }

    ghost function AboutToPop(): (w: Worker<J>)
      requires Valid()
      reads this, order, spare
      ensures Shows(w) && w.phase.Popping?
    {
      Worker(Jobs(), count, 0, |spare|, 0, false, Popping, [], [])
    }

    constructor ()
      ensures Valid() && Jobs() == [] && order == [] && spare == []
    {
      head, tail, heap := null, null, null;
      count := 0;
      order, spare := [], [];
    }

    // A free cell, or a new one, filled with `job`.
    method Cell(job: J) returns (work: Node<J>)
      requires Valid()
      modifies this`heap, this`spare, spare
      ensures Valid() && Jobs() == old(Jobs()) && order == old(order) && work !in order && work !in spare
      ensures work.it == job
      ensures if old(spare) == [] then fresh(work) && spare == [] else work == old(spare[0]) && spare == old(spare[1..])
    {
      hide Chained, JobsOf;
      if heap != null {
        work := heap;
        heap := work.next;
        work.it := job;
        spare := spare[1..];
      } else {
        work := new Node(job);
      }
    }

    method LinkIn(work: Node<J>)
      requires Distinct(order) && head == Nth(order, 0) && work !in order && Chained(order)
      modifies order`prev, work`next, work`prev
      ensures Chained([work] + order)
      ensures work.next == head
    {
      work.next := head;
      work.prev := null;
      SetPrev(work.next, work, order, 0);
      ChainedLonger(work, order);
    }

    method Push(work: Node<J>)
      requires Valid() && work !in order && work !in spare
      modifies this`head, this`tail, this`count, this`order, order`prev, work`next, work`prev
      ensures Valid() && Jobs() == old(Jobs()) + [work.it]
      ensures order == [work] + old(order)
    {
      hide Chained, Spare;
      LinkIn(work);
      head := work;
      if tail == null {
        tail := work;
      }
      count := count + 1;
      order := [work] + order;
      assert order[1..] == old(order);
    }

    method Enqueue(job: J, ghost w: Worker<J>)
      requires Valid() && Shows(w)
      modifies this, order, spare
      ensures Valid()
      ensures Jobs() == old(Jobs()) + [job]
      ensures spare == if old(spare) == [] then [] else old(spare[1..])
      ensures order != [] && order[1..] == old(order)
      ensures if old(spare) == [] then fresh(order[0]) else order[0] == old(spare[0])
      ensures Shows(Enqueued(w, job))
    {
      hide Chained, Spare, JobsOf, Distinct;
      var work := Cell(job);
      Push(work);
    }

    // Unlinks the oldest cell.
    method Unlink(work: Node<J>)
      requires Distinct(order) && order != [] && work == order[|order| - 1] && Chained(order)
      modifies order`prev, order`next
      ensures Chained(order[..|order| - 1])
      ensures work.prev == Nth(order, |order| - 2)
    {
      hide Distinct, Nth;
      SetPrev(work.next, work.prev, order, |order|);
      SetNext(work.prev, work.next, order, |order| - 2);
      ChainedButLast(order);
    }

    method Dequeue() returns (work: Node?<J>)
      requires Valid()
      modifies this, order
      ensures Valid() && spare == old(spare)
      ensures work == null <==> old(Jobs()) == []
      ensures work == null ==> Jobs() == []
      ensures work != null ==> work !in order && work !in spare && [work.it] + Jobs() == old(Jobs())
      ensures work != null ==> order + [work] == old(order)
    {
      hide Chained, Spare, JobsOf;
      work := tail;
      if work != null {
        OldestJob(order);
        Unlink(work);
        tail := work.prev;
        if tail == null {
          head := null;
        }
        if count > 0 {
          count := count - 1;
        }
        order := order[..|order| - 1];
      }
    }

    // A used cell goes to the free list.
    method Recycle(work: Node<J>)
      requires Valid() && work !in order && work !in spare
      modifies this`heap, this`spare, work`next
      ensures Valid() && order == old(order) && Jobs() == old(Jobs())
      ensures spare == [work] + old(spare)
    {
      work.next := heap;
      heap := work;
      spare := [work] + spare;
    }

    // One turn of the drain: the oldest job, whose cell goes to the free list.
    method RunOldest(ghost w: Worker<J>) returns (job: J)
      requires Valid() && order != [] && Shows(w) && w.phase.Popping?
      modifies this, order, spare
      ensures Valid() && [job] + Jobs() == old(Jobs())
      ensures order == old(order[..|order| - 1]) && spare == [old(order[|order| - 1])] + old(spare)
      ensures Popped(w).phase == Running(job) && Shows(Finished(Popped(w)))
    {
      hide Chained, Spare, JobsOf;
      var work := Dequeue();
      job := work.it;
      Recycle(work);
    }

    lemma Counted()
      requires Valid()
      ensures count == |order|
    {
    }

    // The drain, with nobody enqueueing meanwhile: the jobs in the order run.
    method Drain() returns (run: seq<J>)
      requires Valid()
      modifies this, order, spare
      ensures Valid()
      ensures run == old(Jobs()) && Jobs() == []
      ensures spare == old(order) + old(spare)
    {
      hide Chained, Spare, JobsOf, Distinct, Shows, AboutToPop, Nth, Valid;
      run := [];
      Counted();
      while count > 0
        invariant Valid()
        invariant run + Jobs() == old(Jobs())
        invariant count == |order| <= |old(order)|
        invariant order == old(order)[..|order|] && spare == old(order)[|order|..] + old(spare)
        decreases count
      {
        var job := RunOldest(AboutToPop());
        OneMoreUsed(old(order), order, spare, old(spare));
        Counted();
        run := run + [job];
      }
    }

    // What a producer or the worker does in its lock section.
    method Do(a: Act<J>) returns (run: seq<J>)
      requires Valid()
      modifies this, order, spare
      ensures Valid() && Jobs() == LeftAfter(old(Jobs()), a) && run == RunIn(old(Jobs()), a)
      ensures forall k | 0 <= k < |order| :: order[k] in old(order) || order[k] in old(spare) || fresh(order[k])
      ensures forall k | 0 <= k < |spare| :: spare[k] in old(order) || spare[k] in old(spare)
    {
      hide Chained, Spare, JobsOf, Distinct, Shows, AboutToPop, Nth;
      run := [];
      match a
      case Give(job) =>
        ghost var w := AboutToPop();
        Enqueue(job, w);
        assert forall k | 0 < k < |order| :: order[k] == order[1..][k - 1];
      case Turn =>
        if count > 0 {
          ghost var w := AboutToPop();
          var job := RunOldest(w);
          run := [job];
        }
    }

    // Producers and the worker in any alternation.
    method Run(acts: seq<Act<J>>) returns (run: seq<J>)
      requires Valid()
      modifies this, order, spare
      ensures Valid() && Jobs() == Left(old(Jobs()), acts) && run == RunBy(old(Jobs()), acts)
    {
      hide Chained, Spare, JobsOf, Distinct, Shows, AboutToPop, Nth, LeftAfter, RunIn, Valid;
      run := [];
      var i := 0;
      while i < |acts|
        invariant 0 <= i <= |acts| && Valid()
        invariant forall k | 0 <= k < |order| :: order[k] in old(order) || order[k] in old(spare) || fresh(order[k])
        invariant forall k | 0 <= k < |spare| :: spare[k] in old(order) || spare[k] in old(spare) || fresh(spare[k])
        invariant Jobs() == Left(old(Jobs()), acts[..i]) && run == RunBy(old(Jobs()), acts[..i])
      {
        assert acts[..i + 1][..i] == acts[..i];
        var more := Do(acts[i]);
        run := run + more;
        i := i + 1;
      }
      assert acts[..i] == acts;
    }
  }
}
