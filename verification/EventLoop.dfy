/**
  The event loop of a thread, on Linux. A registered descriptor is an entry of a
  list. Deleting an entry only clears bits of its mask and, once neither READ nor
  WRITE is left, pushes it on a stack; the loop closes, unlinks and frees the
  entries on the stack later, just before it waits for events.
*/
module EventLoop {
  import opened Roster
  import opened Wrappers

  type Mask = bv16

  const READ: Mask := 0x01
  const WRITE: Mask := 0x02
  const ERROR: Mask := 0x10
  const ALL: Mask := 0xFF
  const RW: Mask := READ | WRITE

  // Of an entry, besides its links: the descriptor and the mask.
  datatype Reg = Reg(fd: int, what: Mask)
  type Entry = Node<Reg>

  // ------------------------------------------------------------ one loop, as a value

  datatype Loop<!E(==)> = Loop(order: seq<E>, heap: seq<E>, what: map<E, Mask>, count: int)

  // The bits a deletion leaves, whether it concerns the entry at all, and
  // whether there is nothing left to wait for.
  function Left(m: Mask, what: Mask): Mask { m & !what }
  predicate Hit(m: Mask, what: Mask) { m & what != 0 }
  predicate Spent(m: Mask) { m & RW == 0 }

  predicate Accepted(fd: int, what: Mask, polled: bool) {
    !Spent(what) && fd > 0 && polled
  }

  function Added<E>(l: Loop<E>, e: E, what: Mask): Loop<E> {
    Loop([e] + l.order, l.heap, l.what[e := what], l.count + 1)
  }

  // The lock section of a deletion, behind the test of the mask.
  function Cleared<E>(l: Loop<E>, e: E, what: Mask): Loop<E>
    requires e in l.what
  {
    var left := Left(l.what[e], what);
    Loop(l.order, if Spent(left) then [e] + l.heap else l.heap, l.what[e := left], l.count)
  }

  // A whole deletion: the test, which takes no lock, and the lock section.
  function Deleted<E>(l: Loop<E>, e: E, what: Mask): Loop<E>
    requires e in l.what
  {
    if Hit(l.what[e], what) then Cleared(l, e, what) else l
  }

  // `order` without the members of `gone`.
  function Kept<E(==)>(order: seq<E>, gone: seq<E>): seq<E> {
    if order == [] then []
    else (if order[0] in gone then [] else [order[0]]) + Kept(order[1..], gone)
  }

  function Drained<E>(l: Loop<E>): Loop<E> {
    Loop(Kept(l.order, l.heap), [], map e | e in l.what && e !in l.heap :: l.what[e], l.count - |l.heap|)
  }

  // Nothing but READ and WRITE, as the server and the workers use it.
  predicate Tame(what: Mask) {
    what & !RW == 0
  }

  ghost predicate Sound<E>(l: Loop<E>) {
    && Distinct(l.order) && Distinct(l.heap) && l.count == |l.order|
    && (forall e | e in l.order :: e in l.what) && (forall e | e in l.what :: e in l.order)
    && (forall e | e in l.heap :: e in l.what)
    && (forall e | e in l.what :: Tame(l.what[e]) && (e in l.heap <==> l.what[e] == 0))
  }

  // What these say bit by bit.
  lemma LeftMeans(m: Mask, what: Mask)
    ensures Left(m, what) & what == 0
    ensures Left(m, what) | (m & what) == m
  {
  }

  lemma HitMeans(m: Mask, what: Mask)
    ensures Hit(m, what) <==> Left(m, what) != m
  {
  }

  lemma SpentMeans(m: Mask)
    ensures Spent(m) <==> m & READ == 0 && m & WRITE == 0
  {
  }

  lemma TameMeans(m: Mask)
    ensures Tame(m) <==> m == 0 || m == READ || m == WRITE || m == READ | WRITE
  {
  }

  lemma TameBits(m: Mask, what: Mask)
    requires Tame(m)
    ensures Tame(Left(m, what))
    ensures Spent(m) <==> m == 0
    ensures Spent(Left(m, what)) <==> Left(m, what) == 0
  {
  }

  lemma AddKeepsSound<E(!new)>(l: Loop<E>, e: E, what: Mask)
    requires Sound(l) && e !in l.order && Tame(what) && !Spent(what)
    ensures Sound(Added(l, e, what))
  {
  }

  lemma ClearKeepsSound<E>(l: Loop<E>, e: E, what: Mask)
    requires Sound(l) && e in l.order && l.what[e] != 0
    ensures Sound(Cleared(l, e, what))
  {
    TameBits(l.what[e], what);
  }

  lemma NothingToHit(what: Mask)
    ensures !Hit(0, what)
  {
  }

  lemma DelKeepsSound<E>(l: Loop<E>, e: E, what: Mask)
    requires Sound(l) && e in l.order
    ensures Sound(Deleted(l, e, what))
    ensures e in l.heap ==> !Hit(l.what[e], what)
  {
    NothingToHit(what);
    if l.what[e] != 0 { ClearKeepsSound(l, e, what); }
  }

  lemma {:induction false} KeptMembers<E>(order: seq<E>, gone: seq<E>)
    requires Distinct(order)
    ensures Distinct(Kept(order, gone))
    ensures var kept := Kept(order, gone);
      && (forall k | 0 <= k < |kept| :: kept[k] in order && kept[k] !in gone)
      && (forall k | 0 <= k < |order| :: order[k] in gone || order[k] in kept)
  {
    if order != [] {
      var rest, kept := Kept(order[1..], gone), Kept(order, gone);
      KeptMembers(order[1..], gone);
      assert forall k | 0 < k < |order| :: order[k] == order[1..][k - 1];
      if order[0] in gone {
        assert kept == rest;
      } else {
        assert forall k | 0 < k < |kept| :: kept[k] == rest[k - 1];
      }
    }
  }

  lemma {:induction false} KeptAll<E>(order: seq<E>)
    ensures Kept(order, []) == order
  {
    if order != [] {
      KeptAll(order[1..]);
    }
  }

  // Taking one entry out and then the others.
  lemma {:induction false} KeptLess<E>(order: seq<E>, gone: seq<E>, d: nat)
    requires d < |order| && Distinct(order)
    ensures Kept(Without(order, d), gone) == Kept(order, [order[d]] + gone)
    decreases |order|
  {
    var e := order[d];
    if d == 0 {
      assert Without(order, d) == order[1..];
      KeptSame(order[1..], gone, [e] + gone);
    } else {
      var less := Without(order, d);
      assert less[0] == order[0] && less[1..] == order[1..][..d - 1] + order[1..][d..];
      KeptLess(order[1..], gone, d - 1);
    }
  }

  lemma {:induction false} KeptSame<E>(order: seq<E>, a: seq<E>, b: seq<E>)
    requires forall k | 0 <= k < |order| :: order[k] in a <==> order[k] in b
    ensures Kept(order, a) == Kept(order, b)
  {
    if order != [] {
      KeptSame(order[1..], a, b);
    }
  }

  // As many entries leave the list as were on the stack.
  lemma {:induction false} KeptLength<E>(order: seq<E>, gone: seq<E>)
    requires Distinct(order) && Distinct(gone) && forall k | 0 <= k < |gone| :: gone[k] in order
    ensures |Kept(order, gone)| == |order| - |gone|
    decreases |gone|
  {
    if gone == [] {
      KeptAll(order);
    } else {
      var e, rest := gone[0], gone[1..];
      var d := IndexOf(order, e);
      assert gone == [e] + rest;
      KeptLess(order, rest, d);
      DistinctWithout(order, d);
      KeptLength(Without(order, d), rest);
    }
  }

  // The server registers a connection for READ and closes it by deleting ALL:
  // once, for the second time finds nothing to delete.
  lemma CloseDeletes<E>(l: Loop<E>, e: E)
    requires Sound(l) && e in l.what && l.what[e] == READ
    ensures var m := Deleted(l, e, ALL);
      m.heap == [e] + l.heap && m.what == l.what[e := 0] && Deleted(m, e, ALL) == m
  {
    assert Hit(READ, ALL) && Left(READ, ALL) == 0 && Spent(0) && !Hit(0, ALL);
  }

  lemma DrainKeepsSound<E(!new)>(l: Loop<E>)
    requires Sound(l)
    ensures Sound(Drained(l))
    ensures l.count == 0 ==> Drained(l) == l
  {
    KeptMembers(l.order, l.heap);
    KeptLength(l.order, l.heap);
  }

  // ------------------------------------------------------------ the loop on the heap

  // The value of the loop whose root is `root`; the stack and the list run
  // through different fields of the entries.
  ghost function View(root: Root<Reg>): Loop<Entry>
    reads root, root.live`it
  {
    Loop(root.live, root.stack, Masks(root.live), root.count)
  }

  ghost function Masks(live: seq<Entry>): (masks: map<Entry, Mask>)
    reads live`it
  {
    map x | x in live :: x.it.what
  }

  lemma MasksLonger(e: Entry, live: seq<Entry>)
    requires e !in live
    ensures Masks([e] + live) == Masks(live)[e := e.it.what]
  {
  }

  lemma MasksKept(live: seq<Entry>, stack: seq<Entry>)
    requires Distinct(live) && Distinct(stack) && forall k | 0 <= k < |stack| :: stack[k] in live
    ensures |Kept(live, stack)| == |live| - |stack|
    ensures Masks(Kept(live, stack)) == map e | e in Masks(live) && e !in stack :: Masks(live)[e]
  {
    KeptMembers(live, stack);
    KeptLength(live, stack);
  }

  method ClearBits(e: Entry, what: Mask, ghost live: seq<Entry>)
    requires e in live
    modifies e`it
    ensures e.it == old(e.it).(what := Left(old(e.it.what), what))
    ensures Masks(live) == old(Masks(live))[e := e.it.what]
  {
    e.it := e.it.(what := Left(e.it.what, what));
  }

  // Registers a descriptor; `polled` is the answer of the kernel.
  method Register(root: Root<Reg>, fd: int, what: Mask, polled: bool) returns (ret: int, evl: Node?<Reg>)
    requires root.Valid()
    modifies root, root.live
    ensures root.Valid()
    ensures if Accepted(fd, what, polled) then ret == 0 && evl != null && fresh(evl) && evl.it == Reg(fd, what)
            else ret == -1 && evl == null
    ensures View(root) == if evl == null then old(View(root)) else Added(old(View(root)), evl, what)
  {
    hide Distinct, Chained, Stacked, Masks, Spent;
    ret, evl := -1, null;
    if Spent(what) {
      return;
    }
    if fd <= 0 {
      return;
    }
    var self := new Node(Reg(fd, what));
    if !polled {
      return;
    }
    root.Add(self);
    MasksLonger(self, old(root.live));
    ret, evl := 0, self;
  }

  // The lock section of a deletion: clears bits of the entry and pushes it if neither READ
  // nor WRITE is left.
  method ClearAndPush(root: Root<Reg>, e: Entry, what: Mask, polled: bool) returns (ret: int)
    requires root.Valid() && e in root.live && e !in root.stack
    modifies root`heap, root`stack, e`heap, e`it
    ensures root.Valid()
    ensures View(root) == Cleared(old(View(root)), e, what) && e.it.fd == old(e.it.fd)
    ensures ret == if polled then 0 else -1
  {
    hide Left, Spent, Distinct, Chained, Stacked;
    ret := 0;
    ClearBits(e, what, root.live);
    if !polled {
      ret := -1;
    }
    if Spent(e.it.what) {
      root.Push(e);
    }
  }

  // Deletes bits of an entry, with nobody between the test and the lock section.
  method Unregister(root: Root<Reg>, e: Entry, what: Mask, polled: bool) returns (ret: int)
    requires root.Valid() && e in root.live && (e in root.stack ==> !Hit(e.it.what, what))
    modifies root`heap, root`stack, e`heap, e`it
    ensures root.Valid()
    ensures View(root) == Deleted(old(View(root)), e, what) && e.it.fd == old(e.it.fd)
    ensures ret == if Hit(old(e.it.what), what) && !polled then -1 else 0
  {
    hide Hit, Left, Spent, Distinct, Chained, Stacked;
    ret := 0;
    if !Hit(e.it.what, what) {
      return;
    }
    ret := ClearAndPush(root, e, what, polled);
  }

  ghost predicate AllIn(stack: seq<Entry>, live: seq<Entry>) {
    forall j | 0 <= j < |stack| :: stack[j] in live
  }

  // One entry is off the stack and off the list.
  lemma OthersStay(live: seq<Entry>, stack: seq<Entry>, d: nat)
    requires Distinct(live) && Distinct(stack) && stack != [] && d < |live| && live[d] == stack[0]
    requires AllIn(stack, live)
    ensures AllIn(stack[1..], Without(live, d))
    ensures forall j | 0 <= j < |Without(live, d)| :: Without(live, d)[j] in live
  {
    DistinctWithout(live, d);
  }

  lemma OneLess(live: seq<Entry>, stack: seq<Entry>)
    requires Distinct(live) && Distinct(stack) && stack != []
    requires AllIn(stack, live)
    ensures stack[0] in live
    ensures var less := Without(live, IndexOf(live, stack[0]));
      && Kept(less, stack[1..]) == Kept(live, stack)
      && AllIn(stack[1..], less)
      && (forall j | 0 <= j < |less| :: less[j] in live)
  {
    assert stack[0] in live;
    hide AllIn, Distinct, Without, Kept;
    var d := IndexOf(live, stack[0]);
    OthersStay(live, stack, d);
    KeptLess(live, stack[1..], d);
    assert stack == [stack[0]] + stack[1..];
  }

  // The entry on top of the stack leaves stack and list.
  method UnlinkTop(root: Root<Reg>) returns (self: Entry)
    requires root.Valid() && root.stack != [] && AllIn(root.stack, root.live)
    modifies root, root.live`next, root.live`prev
    ensures root.Valid() && self == old(root.stack[0])
    ensures root.stack == old(root.stack[1..]) && AllIn(root.stack, root.live)
    ensures forall j | 0 <= j < |root.live| :: root.live[j] in old(root.live)
    ensures Kept(root.live, root.stack) == old(Kept(root.live, root.stack))
  {
    hide Distinct, Chained, Stacked, Without, Kept, IndexOf, AllIn, Tame;
    OneLess(root.live, root.stack);
    self := root.Pop();
    root.Remove(self);
  }

  method UnlinkStacked(root: Root<Reg>) returns (freed: seq<Entry>)
    requires root.Valid() && AllIn(root.stack, root.live)
    modifies root, root.live`next, root.live`prev
    ensures root.Valid()
    ensures root.live == Kept(old(root.live), old(root.stack)) && root.stack == []
    ensures freed == old(root.stack)
  {
    hide Distinct, Chained, Stacked, Kept, AllIn;
    ghost var live, stack := root.live, root.stack;
    freed := [];
    while root.heap != null
      invariant root.Valid() && AllIn(root.stack, root.live)
      invariant freed + root.stack == stack
      invariant forall j | 0 <= j < |root.live| :: root.live[j] in live
      invariant Kept(root.live, root.stack) == Kept(live, stack)
      decreases |root.stack|
    {
      var self := UnlinkTop(root);
      freed := freed + [self];
    }
    KeptAll(root.live);
  }

  // Closes and frees what is on the stack, in that order.
  method FreeDeleted(root: Root<Reg>) returns (freed: seq<Entry>)
    requires root.Valid() && AllIn(root.stack, root.live)
    modifies root, root.live
    ensures root.Valid() && View(root) == Drained(old(View(root)))
    ensures freed == old(root.stack)
  {
    hide Distinct, Chained, Stacked, Kept, Tame, Masks;
    ghost var live, stack := root.live, root.stack;
    MasksKept(live, stack);
    freed := UnlinkStacked(root);
    MasksKept(live, stack);
  }

  // ------------------------------------------------------------ which masks are safe

  // How often a series of deletions pushes an entry registered with mask `m`.
  function Pushes(m: Mask, dels: seq<Mask>): nat {
    if dels == [] then 0
    else if !Hit(m, dels[0]) then Pushes(m, dels[1..])
    else (if Spent(Left(m, dels[0])) then 1 else 0) + Pushes(Left(m, dels[0]), dels[1..])
  }

  lemma {:induction false} TameIsPushedOnce(m: Mask, dels: seq<Mask>)
    requires Tame(m)
    ensures Pushes(m, dels) <= if m == 0 then 0 else 1
  {
    if dels != [] {
      TameBits(m, dels[0]);
      TameIsPushedOnce(Left(m, dels[0]), dels[1..]);
      TameIsPushedOnce(m, dels[1..]);
      if m == 0 { assert !Hit(m, dels[0]); }
    }
  }

  lemma OtherBits(m: Mask, others: Mask)
    requires !Spent(m) && !Tame(m) && others == !RW
    ensures Hit(m, RW) && Spent(Left(m, RW))
    ensures Hit(Left(m, RW), others) && Spent(Left(Left(m, RW), others))
  {
  }

  lemma TwoPushes(m: Mask, others: Mask)
    requires !Spent(m) && !Tame(m) && others == !RW
    ensures Pushes(m, [RW, others]) == 2
  {
    OtherBits(m, others);
    hide Hit, Left, Spent, Tame;
    assert Pushes(Left(m, RW), [others]) == 1;
    assert [RW, others][1..] == [others];
  }

  // By deletions one after the other an entry is pushed, and so closed and freed, at most
  // once whatever is deleted from it exactly if it was registered for READ and WRITE only;
  // with any other bit in the mask two deletions free it twice.
  lemma PushedOnceExactly(m: Mask)
    requires !Spent(m)
    ensures Tame(m) <==> forall dels: seq<Mask> :: Pushes(m, dels) <= 1
  {
    if Tame(m) {
      forall dels: seq<Mask> ensures Pushes(m, dels) <= 1 {
        TameIsPushedOnce(m, dels);
      }
    } else {
      TwoPushes(m, !RW);
    }
  }

  // ------------------------------------------------------------ runs of the loop

  // Before the drain, before the wait, or handing out the events of one wait.
  datatype Phase = Top | Waiting | Dispatching

  // What the kernel reports of an entry, and a call of the entry's function.
  datatype Event<E> = Event(e: E, readable: bool, writable: bool, hungup: bool, failed: bool)
  datatype Call<E> = Call(e: E, what: Mask)

  // A deletion past its test of the mask, waiting for the lock.
  datatype Deletion<E> = Deletion(e: E, what: Mask)

  // `due` are the calls left of the event being handed out, `batch` the events behind it;
  // `late` the deletions past their tests; `deleted` the entries pushed so far and `freed`
  // those closed and freed.
  datatype World<!E(==)> = World(loop: Loop<E>, phase: Phase, batch: seq<Event<E>>, due: seq<Call<E>>,
                                 late: seq<Deletion<E>>, deleted: seq<E>, freed: seq<E>)

  // Additions and deletions come from callbacks and other threads, at any time; a deletion
  // is its test and, if the test is passed, its lock section. The drain holds the lock.
  datatype Step<E> =
    | Add(e: E, fd: int, what: Mask, polled: bool)
    | Test(e: E, what: Mask)
    | Clear(i: nat)
    | Skip
    | Drain
    | Wait(ready: seq<Event<E>>)
    | Take
    | Dispatch
    | EndBatch
    | Stop

  const BATCH := 10240

  // The calls one event makes, in this order.
  function CallsOf<E>(v: Event<E>): seq<Call<E>> {
    (if v.readable then [Call(v.e, READ)] else []) + (if v.writable then [Call(v.e, WRITE)] else [])
    + (if v.hungup then [Call(v.e, ERROR)] else []) + if v.failed then [Call(v.e, ERROR)] else []
  }

  function AllCalls<E>(batch: seq<Event<E>>): seq<Call<E>> {
    if batch == [] then [] else CallsOf(batch[0]) + AllCalls(batch[1..])
  }

  ghost predicate OneEach<E>(batch: seq<Event<E>>) {
    forall i, j | 0 <= i < j < |batch| :: batch[i].e != batch[j].e
  }

  ghost predicate Enabled<E>(w: World<E>, a: Step<E>) {
    match a
    case Add(e, _, what, _) => e !in w.loop.order && e !in w.freed && Tame(what)
    case Test(e, _) => e in w.loop.what
    case Clear(i) => i < |w.late| && w.late[i].e in w.loop.what
    case Skip => w.phase == Top && w.loop.count == 0
    case Drain => w.phase == Top && w.loop.count != 0
    // the kernel reports entries that have not been taken out of the epoll set
    case Wait(ready) =>
      w.phase == Waiting && |ready| <= BATCH && OneEach(ready)
      && forall i | 0 <= i < |ready| :: ready[i].e in w.loop.what && !Spent(w.loop.what[ready[i].e])
    case Take => w.phase == Dispatching && w.due == [] && w.batch != []
    case Dispatch => w.phase == Dispatching && w.due != []
    case EndBatch => w.phase == Dispatching && w.due == [] && w.batch == []
    case Stop => w.phase == Dispatching && w.due == []
  }

  ghost function Apply<E>(w: World<E>, a: Step<E>): World<E>
    requires Enabled(w, a)
  {
    match a
    case Add(e, fd, what, polled) =>
      if Accepted(fd, what, polled) then w.(loop := Added(w.loop, e, what)) else w
    case Test(e, what) =>
      if Hit(w.loop.what[e], what) then w.(late := w.late + [Deletion(e, what)]) else w
    case Clear(i) =>
      var d := w.late[i];
      w.(loop := Cleared(w.loop, d.e, d.what), late := Without(w.late, i),
         deleted := if Spent(Left(w.loop.what[d.e], d.what)) then [d.e] + w.deleted else w.deleted)
    case Skip => w
    case Drain => w.(loop := Drained(w.loop), phase := Waiting, freed := w.freed + w.loop.heap)
    case Wait(ready) => w.(phase := Dispatching, batch := ready)
    case Take => w.(due := CallsOf(w.batch[0]), batch := w.batch[1..])
    case Dispatch => w.(due := w.due[1..])
    case EndBatch => w.(phase := Top)
    case Stop => w.(phase := Top, batch := [])
  }

  // The lock section that leaves an entry neither READ nor WRITE finds no other deletion of
  // it past its test.
  ghost predicate Tidy<E>(w: World<E>, a: Step<E>)
    requires Enabled(w, a)
  {
    a.Clear? && Spent(Left(w.loop.what[w.late[a.i].e], w.late[a.i].what)) ==>
      forall j | 0 <= j < |w.late| && j != a.i :: w.late[j].e != w.late[a.i].e
  }

  // Any run, and one whose every step is tidy.
  ghost predicate Moves<E>(w: World<E>, run: seq<Step<E>>, v: World<E>)
    decreases |run|
  {
    if run == [] then w == v else Enabled(w, run[0]) && Moves(Apply(w, run[0]), run[1..], v)
  }

  ghost predicate Runs<E>(w: World<E>, run: seq<Step<E>>, v: World<E>)
    decreases |run|
  {
    if run == [] then w == v
    else Enabled(w, run[0]) && Tidy(w, run[0]) && Runs(Apply(w, run[0]), run[1..], v)
  }

  function Start<E>(): World<E> {
    World(Loop([], [], map[], 0), Top, [], [], [], [], [])
  }

  ghost predicate Ledger<E>(w: World<E>) {
    && Sound(w.loop) && Distinct(w.deleted) && Distinct(w.freed)
    && (forall e | e in w.deleted :: e in w.loop.heap || e in w.freed)
    && (forall e | e in w.loop.heap :: e in w.deleted && e !in w.freed)
    && (forall e | e in w.freed :: e in w.deleted && e !in w.loop.order)
  }

  // Deletions past their tests are of entries that still wait for something.
  ghost predicate Pending<E>(w: World<E>) {
    forall k | 0 <= k < |w.late| :: w.late[k].e in w.loop.what && w.loop.what[w.late[k].e] != 0
  }

  // The calls left are of one entry, which has no event behind.
  ghost predicate Handing<E>(w: World<E>) {
    && OneEach(w.batch) && |w.due| <= 4
    && (forall k | 0 <= k < |w.batch| :: w.batch[k].e in w.loop.order)
    && (forall k | 0 <= k < |w.due| :: w.due[k].e in w.loop.order && w.due[k].e == w.due[0].e)
    && (forall k | 0 <= k < |w.batch| :: w.due != [] ==> w.batch[k].e != w.due[0].e)
    && (w.phase != Dispatching ==> w.batch == [] && w.due == [])
  }

  ghost predicate Good<E>(w: World<E>) {
    Ledger(w) && Pending(w) && Handing(w)
  }

  lemma AddKeepsGood<E(!new)>(w: World<E>, a: Step<E>)
    requires Good(w) && Enabled(w, a) && a.Add?
    ensures Good(Apply(w, a))
  {
    if Accepted(a.fd, a.what, a.polled) {
      AddKeepsSound(w.loop, a.e, a.what);
    }
  }

  lemma TestKeepsGood<E(!new)>(w: World<E>, a: Step<E>)
    requires Good(w) && Enabled(w, a) && a.Test?
    ensures Good(Apply(w, a))
  {
    NothingToHit(a.what);
  }

  lemma ClearKeepsLedger<E(!new)>(w: World<E>, a: Step<E>)
    requires Ledger(w) && Pending(w) && Enabled(w, a) && a.Clear?
    ensures Ledger(Apply(w, a))
  {
    hide Tame;
    var d := w.late[a.i];
    ClearKeepsSound(w.loop, d.e, d.what);
    TameBits(w.loop.what[d.e], d.what);
    hide Spent, Left, Without;
    assert d.e !in w.loop.heap && d.e !in w.deleted;
  }

  lemma ClearKeepsPending<E(!new)>(w: World<E>, a: Step<E>)
    requires Sound(w.loop) && Pending(w) && Enabled(w, a) && Tidy(w, a) && a.Clear?
    ensures Pending(Apply(w, a))
  {
    var d := w.late[a.i];
    TameBits(w.loop.what[d.e], d.what);
    hide Spent, Left, Sound, Tame, Distinct;
    assert forall k | 0 <= k < |w.late| - 1 ::
        Without(w.late, a.i)[k] == w.late[if k < a.i then k else k + 1];
  }

  lemma ClearKeepsGood<E(!new)>(w: World<E>, a: Step<E>)
    requires Good(w) && Enabled(w, a) && Tidy(w, a) && a.Clear?
    ensures Good(Apply(w, a))
  {
    hide Pending, Tidy;
    ClearKeepsPending(w, a);
    ClearKeepsLedger(w, a);
    hide Ledger;
  }

  lemma DistinctConcat<E(!new)>(a: seq<E>, b: seq<E>)
    requires Distinct(a) && Distinct(b) && forall e | e in b :: e !in a
    ensures Distinct(a + b)
  {
    forall i, j | 0 <= i < j < |a + b| ensures (a + b)[i] != (a + b)[j] {
      if i < |a| <= j {
        assert b[j - |a|] in b && a[i] in a;
      }
    }
  }

  lemma DrainKeepsGood<E(!new)>(w: World<E>)
    requires Good(w) && Enabled(w, Drain)
    ensures Good(Apply(w, Drain))
  {
    DrainKeepsSound(w.loop);
    KeptMembers(w.loop.order, w.loop.heap);
    DistinctConcat(w.freed, w.loop.heap);
  }

  lemma CallsOfOne<E>(v: Event<E>)
    ensures |CallsOf(v)| <= 4 && forall k | 0 <= k < |CallsOf(v)| :: CallsOf(v)[k].e == v.e
  {
  }

  lemma HandingKeepsGood<E(!new)>(w: World<E>, a: Step<E>)
    requires Good(w) && Enabled(w, a)
    requires a.Skip? || a.Wait? || a.Take? || a.Dispatch? || a.EndBatch? || a.Stop?
    ensures Good(Apply(w, a))
  {
    hide Distinct;
    if a.Take? {
      hide CallsOf;
      CallsOfOne(w.batch[0]);
    }
  }

  lemma StepKeepsGood<E(!new)>(w: World<E>, a: Step<E>)
    requires Good(w) && Enabled(w, a) && Tidy(w, a)
    ensures Good(Apply(w, a))
  {
    hide Good;
    if a.Add? {
      AddKeepsGood(w, a);
    } else if a.Test? {
      TestKeepsGood(w, a);
    } else if a.Clear? {
      ClearKeepsGood(w, a);
    } else if a.Drain? {
      DrainKeepsGood(w);
    } else {
      HandingKeepsGood(w, a);
    }
  }

  lemma {:induction false} RunKeepsGood<E(!new)>(w: World<E>, run: seq<Step<E>>, v: World<E>)
    requires Good(w) && Runs(w, run, v)
    ensures Good(v)
    decreases |run|
  {
    if run != [] {
      StepKeepsGood(w, run[0]);
      RunKeepsGood(Apply(w, run[0]), run[1..], v);
    }
  }

  // In every run: the stack holds registered entries, none twice; the count is
  // the number of registered entries, so with a count of zero there is nothing
  // to drain; what was deleted is either on the stack or has been freed, once;
  // no entry that has not yet heard all of its event has been freed; and a deletion
  // past its test finds its entry registered and not yet deleted.
  lemma EveryRun<E(!new)>(run: seq<Step<E>>, w: World<E>)
    requires Runs(Start(), run, w)
    ensures Distinct(w.loop.heap) && forall e | e in w.loop.heap :: e in w.loop.order
    ensures w.loop.count == |w.loop.order|
    ensures w.loop.count == 0 ==> w.loop.heap == []
    ensures Distinct(w.deleted) && Distinct(w.freed)
    ensures forall e :: e in w.deleted <==> e in w.loop.heap || e in w.freed
    ensures forall e | e in w.freed :: e !in w.loop.heap && e !in w.loop.order
    ensures forall k | 0 <= k < |w.batch| :: w.batch[k].e in w.loop.order && w.batch[k].e !in w.freed
    ensures forall k | 0 <= k < |w.due| :: w.due[k].e in w.loop.order && w.due[k].e !in w.freed
    ensures forall k | 0 <= k < |w.late| :: w.late[k].e in w.loop.order && w.late[k].e !in w.deleted
  {
    RunKeepsGood(Start(), run, w);
    if w.loop.heap != [] { assert w.loop.heap[0] in w.loop.order; }
  }

  // ------------------------------------------------------------ deletions that overlap

  lemma StaysSpent(m: Mask, what: Mask)
    requires Spent(m)
    ensures Spent(Left(m, what))
  {
  }

  lemma PushedAgain<E>(l: Loop<E>, e: E, a: Mask, b: Mask)
    requires e in l.what && Spent(Left(l.what[e], a))
    ensures Cleared(Cleared(l, e, a), e, b).heap == [e, e] + l.heap
  {
    StaysSpent(Left(l.what[e], a), b);
    hide Spent, Left;
    assert [e] + ([e] + l.heap) == [e, e] + l.heap;
  }

  lemma StillLate<E>(late: seq<Deletion<E>>, i: nat, k: nat)
    requires i < |late| && k < |late| && k != i
    ensures var j := if k < i then k else k - 1; j < |Without(late, i)| && Without(late, i)[j] == late[k]
  {
  }

  lemma ClearedKeeps<E>(l: Loop<E>, e: E, what: Mask)
    requires e in l.what
    ensures e in Cleared(l, e, what).what
  {
  }

  // Where a lock section leaves an entry neither READ nor WRITE while another deletion of it
  // is past its test, that deletion pushes the entry a second time.
  lemma UntidyPushesTwice<E(!new)>(w: World<E>, i: nat)
    requires Enabled(w, Clear(i)) && !Tidy(w, Clear(i))
    ensures exists j: nat :: var v := Apply(w, Clear(i)); var e := w.late[i].e;
            Enabled(v, Clear(j)) && Apply(v, Clear(j)).loop.heap == [e, e] + w.loop.heap
  {
    var d := w.late[i];
    var k :| 0 <= k < |w.late| && k != i && w.late[k].e == d.e;
    var j := if k < i then k else k - 1;
    var v := Apply(w, Clear(i));
    StillLate(w.late, i, k);
    PushedAgain(w.loop, d.e, d.what, w.late[k].what);
    hide Spent, Left, Without, Cleared;
    assert v.late == Without(w.late, i);
    ClearedKeeps(w.loop, d.e, d.what);
    assert Enabled(v, Clear(j));
  }

  lemma PushKeepsDistinct<E(!new)>(v: World<E>, j: nat)
    requires Good(v) && Enabled(v, Clear(j))
    ensures Distinct(Apply(v, Clear(j)).loop.heap)
  {
    ClearKeepsSound(v.loop, v.late[j].e, v.late[j].what);
  }

  // A step is tidy exactly if no entry is on the stack twice after it, nor after any lock
  // section that may follow it at once.
  lemma TidyExactly<E(!new)>(w: World<E>, a: Step<E>)
    requires Good(w) && Enabled(w, a)
    ensures Tidy(w, a) <==>
      Distinct(Apply(w, a).loop.heap)
      && forall j: nat | Enabled(Apply(w, a), Clear(j)) :: Distinct(Apply(Apply(w, a), Clear(j)).loop.heap)
  {
    var v := Apply(w, a);
    if Tidy(w, a) {
      StepKeepsGood(w, a);
      hide Tidy, Apply, Enabled;
      forall j: nat | Enabled(v, Clear(j)) ensures Distinct(Apply(v, Clear(j)).loop.heap) {
        PushKeepsDistinct(v, j);
      }
    } else {
      UntidyPushesTwice(w, a.i);
      hide Good, Apply, Enabled;
      var e := w.late[a.i].e;
      var j: nat :| Enabled(v, Clear(j)) && Apply(v, Clear(j)).loop.heap == [e, e] + w.loop.heap;
      var heap := Apply(v, Clear(j)).loop.heap;
      assert heap[0] == heap[1];
    }
  }

  function ClosedTwice<E>(e: E, fd: int): seq<Step<E>> {
    [Add(e, fd, READ, true), Test(e, ALL), Test(e, ALL), Clear(0), Clear(0)]
  }

  // A connection, registered for READ and closed from two sides at once: both tests are
  // passed, and both lock sections push it.
  lemma ClosedFromTwoSides<E>(e: E, fd: int)
    requires fd > 0
    ensures exists v: World<E> :: v.loop.heap == [e, e] && Moves(Start(), ClosedTwice(e, fd), v)
  {
    assert Accepted(fd, READ, true) && Tame(READ);
    assert Hit(READ, ALL) && Left(READ, ALL) == 0 && Spent(0) && Left(0, ALL) == 0;
    hide Hit, Left, Spent, Accepted, Tame;
    var w0 := Start<E>();
    var w1 := Apply(w0, Add(e, fd, READ, true));
    var w2 := Apply(w1, Test(e, ALL));
    var w3 := Apply(w2, Test(e, ALL));
    var w4 := Apply(w3, Clear(0));
    var v := Apply(w4, Clear(0));
    var run := ClosedTwice(e, fd);
    assert run[4..] == run[3..][1..] == [run[4]] && run[3..] == run[2..][1..] && run[2..] == run[1..][1..];
    assert Moves(v, [], v);
    assert Moves(w4, run[4..], v);
    assert Moves(w3, run[3..], v);
    assert Moves(w2, run[2..], v);
    assert Moves(w1, run[1..], v);
    assert Moves(w0, run, v);
  }

  // ------------------------------------------------------------ what becomes of a deleted entry

  lemma NoSkip<E(!new)>(w: World<E>, e: E)
    requires Good(w) && e in w.loop.heap
    ensures !Enabled(w, Skip)
  {
  }

  lemma StepOnDeleted<E(!new)>(w: World<E>, a: Step<E>, e: E)
    requires Good(w) && Enabled(w, a) && e in w.deleted
    ensures e in Apply(w, a).deleted
    ensures e in w.freed || a.Drain? ==> e in Apply(w, a).freed
  {
  }

  // Whatever happens in between, the next drain frees a deleted entry, and the
  // loop cannot pass by the drain.
  lemma {:induction false} NextDrainFrees<E(!new)>(w: World<E>, run: seq<Step<E>>, v: World<E>, e: E)
    requires Good(w) && Runs(w, run, v) && e in w.deleted
    ensures e in v.deleted
    ensures e in w.freed || Drain in run ==> e in v.freed
    ensures e in w.loop.heap ==> !Enabled(w, Skip)
    decreases |run|
  {
    hide Good, Apply, Enabled, Tidy;
    if e in w.loop.heap { NoSkip(w, e); }
    if run != [] {
      StepKeepsGood(w, run[0]);
      StepOnDeleted(w, run[0], e);
      NextDrainFrees(Apply(w, run[0]), run[1..], v, e);
    }
  }

  // The steps of the loop itself, as opposed to those of other threads and of callbacks.
  predicate OfTheLoop<E>(a: Step<E>) { !a.Add? && !a.Test? && !a.Clear? }

  // Once a batch has ended, or the loop was stopped, with an entry on the stack, the next
  // step of the loop can only be the drain, whatever others do before it.
  lemma OnlyDrainNext<E(!new)>(w: World<E>, a: Step<E>, run: seq<Step<E>>, v: World<E>, b: Step<E>)
    requires Good(w) && Enabled(w, a) && (a.EndBatch? || a.Stop?) && w.loop.heap != []
    requires Runs(Apply(w, a), run, v) && forall i | 0 <= i < |run| :: !OfTheLoop(run[i])
    ensures Enabled(v, Drain)
    ensures OfTheLoop(b) && Enabled(v, b) ==> b.Drain?
  {
    var m := Apply(w, a);
    StepKeepsGood(w, a);
    OthersKeepTop(m, run, v);
    NoSkip(v, v.loop.heap[0]);
    assert v.loop.heap[0] in v.loop.order;
  }

  lemma {:induction false} OthersKeepTop<E(!new)>(w: World<E>, run: seq<Step<E>>, v: World<E>)
    requires Good(w) && Runs(w, run, v) && w.phase == Top && w.loop.heap != []
    requires forall i | 0 <= i < |run| :: !OfTheLoop(run[i])
    ensures Good(v) && v.phase == Top && v.loop.heap != []
    decreases |run|
  {
    if run != [] {
      var m := Apply(w, run[0]);
      StepKeepsGood(w, run[0]);
      assert !OfTheLoop(run[0]) && m.phase == Top && m.loop.heap != [];
      hide Good, Apply, Enabled, Tidy;
      OthersKeepTop(m, run[1..], v);
    }
  }

  // Before it waits for events the loop drains.
  lemma {:induction false} DrainBeforeWait<E>(w: World<E>, run: seq<Step<E>>, v: World<E>, j: nat)
    requires Runs(w, run, v) && w.phase != Waiting && j < |run| && run[j].Wait?
    ensures Drain in run[..j]
    decreases |run|
  {
    var m := Apply(w, run[0]);
    assert j > 0;
    if run[0].Drain? {
      assert run[..j][0] == Drain;
    } else {
      assert m.phase != Waiting;
      hide Apply, Enabled, Tidy;
      DrainBeforeWait(m, run[1..], v, j - 1);
      assert run[..j][1..] == run[1..][..j - 1];
    }
  }

  // So between two waits there is a drain.
  lemma {:induction false} DrainBetweenWaits<E>(w: World<E>, run: seq<Step<E>>, v: World<E>, i: nat, j: nat)
    requires Runs(w, run, v) && i < j < |run| && run[i].Wait? && run[j].Wait?
    ensures Drain in run[i + 1..j]
    decreases |run|
  {
    var m := Apply(w, run[0]);
    if i == 0 {
      assert m.phase == Dispatching;
      hide Apply, Enabled, Tidy;
      DrainBeforeWait(m, run[1..], v, j - 1);
      assert run[1..][..j - 1] == run[1..j];
    } else {
      hide Apply, Enabled, Tidy;
      DrainBetweenWaits(m, run[1..], v, i - 1, j - 1);
      assert run[1..][i..j - 1] == run[i + 1..j];
    }
  }

  // And an entry that is deleted by the time a batch ends has been freed at the next wait.
  lemma FreedAtNextWait<E(!new)>(w: World<E>, run: seq<Step<E>>, v: World<E>, e: E)
    requires Good(w) && Runs(w, run, v) && w.phase != Waiting && e in w.deleted
    requires run != [] && run[|run| - 1].Wait?
    ensures e in v.freed
  {
    hide Good, Apply, Enabled, Tidy, Runs;
    DrainBeforeWait(w, run, v, |run| - 1);
    NextDrainFrees(w, run, v, e);
  }

  // The calls for `e` in a series of calls.
  function CallsFor<E(==)>(calls: seq<Call<E>>, e: E): seq<Mask> {
    if calls == [] then [] else (if calls[0].e == e then [calls[0].what] else []) + CallsFor(calls[1..], e)
  }

  // The calls of the current batch still to be made for `e`.
  function Ahead<E>(w: World<E>): seq<Call<E>> { w.due + AllCalls(w.batch) }

  function Owed<E(==)>(w: World<E>, e: E): seq<Mask> { CallsFor(Ahead(w), e) }

  // The calls made for `e` during a run.
  ghost function Heard<E>(w: World<E>, run: seq<Step<E>>, v: World<E>, e: E): seq<Mask>
    requires Runs(w, run, v)
    decreases |run|
  {
    if run == [] then []
    else (if run[0].Dispatch? && w.due[0].e == e then [w.due[0].what] else [])
         + Heard(Apply(w, run[0]), run[1..], v, e)
  }

  lemma Front<A>(x: A, s: seq<A>, t: seq<A>)
    ensures [x] + (s + t) == [x] + s + t
  {
  }

  lemma {:induction false} CallsForConcat<E>(a: seq<Call<E>>, b: seq<Call<E>>, e: E)
    ensures CallsFor(a + b, e) == CallsFor(a, e) + CallsFor(b, e)
  {
    if a == [] {
      assert a + b == b;
    } else {
      CallsForConcat(a[1..], b, e);
      assert (a + b)[1..] == a[1..] + b;
      if a[0].e == e {
        Front(a[0].what, CallsFor(a[1..], e), CallsFor(b, e));
      } else {
        assert CallsFor(a + b, e) == CallsFor(a[1..] + b, e) && CallsFor(a, e) == CallsFor(a[1..], e);
      }
    }
  }

  lemma {:induction false} NoCallsFor<E>(calls: seq<Call<E>>, e: E)
    requires forall k | 0 <= k < |calls| :: calls[k].e != e
    ensures CallsFor(calls, e) == []
  {
    if calls != [] { NoCallsFor(calls[1..], e); }
  }

  lemma {:induction false} NoEventFor<E>(batch: seq<Event<E>>, e: E)
    requires forall k | 0 <= k < |batch| :: batch[k].e != e
    ensures CallsFor(AllCalls(batch), e) == []
  {
    if batch != [] {
      CallsOfOne(batch[0]);
      NoCallsFor(CallsOf(batch[0]), e);
      CallsForConcat(CallsOf(batch[0]), AllCalls(batch[1..]), e);
      NoEventFor(batch[1..], e);
    }
  }

  lemma {:induction false} FewCallsFor<E>(calls: seq<Call<E>>, e: E)
    ensures |CallsFor(calls, e)| <= |calls|
  {
    if calls != [] { FewCallsFor(calls[1..], e); }
  }

  lemma {:induction false} OneEventFor<E>(batch: seq<Event<E>>, e: E)
    requires OneEach(batch)
    ensures |CallsFor(AllCalls(batch), e)| <= 4
  {
    if batch != [] {
      var first, rest := CallsOf(batch[0]), batch[1..];
      CallsOfOne(batch[0]);
      CallsForConcat(first, AllCalls(rest), e);
      FewCallsFor(first, e);
      if batch[0].e == e { NoEventFor(rest, e); } else { NoCallsFor(first, e); OneEventFor(rest, e); }
    }
  }

  // They are those of one event.
  lemma OwedIsFew<E(!new)>(w: World<E>, e: E)
    requires Good(w)
    ensures |Owed(w, e)| <= 4
  {
    CallsForConcat(w.due, AllCalls(w.batch), e);
    FewCallsFor(w.due, e);
    OneEventFor(w.batch, e);
    if w.due != [] && w.due[0].e == e { NoEventFor(w.batch, e); } else { NoCallsFor(w.due, e); }
  }

  lemma DeletedIsSpent<E(!new)>(w: World<E>, e: E)
    requires Good(w) && e in w.deleted
    ensures e in w.loop.what ==> Spent(w.loop.what[e])
  {
    assert Spent(0);
  }

  lemma AheadAfter<E(!new)>(w: World<E>, a: Step<E>)
    requires Handing(w) && Enabled(w, a)
    ensures var v := Apply(w, a);
      match a
      case Wait(ready) => Ahead(w) == [] && Ahead(v) == AllCalls(ready)
      case Dispatch => Ahead(w) == [w.due[0]] + Ahead(v)
      case Stop => Ahead(v) == []
      case _ => Ahead(v) == Ahead(w)
  {
    hide CallsOf, Spent, Left, Hit, Tame, Accepted;
    if a.Dispatch? { Front(w.due[0], w.due[1..], AllCalls(w.batch)); }
  }

  // Of a deleted entry no new event is reported, and each call made was owed.
  lemma StepOnOwed<E(!new)>(w: World<E>, a: Step<E>, e: E)
    requires Good(w) && Enabled(w, a) && e in w.deleted
    ensures a.Dispatch? && w.due[0].e == e ==> Owed(w, e) == [w.due[0].what] + Owed(Apply(w, a), e)
    ensures !(a.Dispatch? && w.due[0].e == e) && !a.Stop? ==> Owed(Apply(w, a), e) == Owed(w, e)
    ensures a.Stop? ==> Owed(Apply(w, a), e) == []
  {
    DeletedIsSpent(w, e);
    AheadAfter(w, a);
    hide Ledger, Pending, Spent, Ahead, Apply;
    if a.Wait? { NoEventFor(a.ready, e); }
  }

  // Once deleted, an entry hears nothing but what is left of the one event the current
  // batch holds for it, in that order: at most four calls.
  lemma {:induction false} LastEvent<E(!new)>(w: World<E>, run: seq<Step<E>>, v: World<E>, e: E)
    requires Good(w) && Runs(w, run, v) && e in w.deleted
    ensures Heard(w, run, v, e) <= Owed(w, e) && |Owed(w, e)| <= 4
    decreases |run|
  {
    hide Good, Apply, Enabled, Tidy, Owed;
    OwedIsFew(w, e);
    if run != [] {
      StepKeepsGood(w, run[0]);
      StepOnDeleted(w, run[0], e);
      StepOnOwed(w, run[0], e);
      LastEvent(Apply(w, run[0]), run[1..], v, e);
    }
  }

  function DeletedInCall<E>(e: E, fd: int): seq<Step<E>> {
    [Add(e, fd, READ, true), Drain, Wait([Event(e, true, false, false, true)]), Take, Dispatch, Test(e, ALL), Clear(0)]
  }

  ghost function Handling<E>(e: E): World<E> {
    World(Loop([e], [], map[e := READ], 1), Dispatching, [], [Call(e, READ), Call(e, ERROR)], [], [], [])
  }

  ghost function Registered<E>(e: E, phase: Phase): World<E> {
    World(Loop([e], [], map[e := READ], 1), phase, [], [], [], [], [])
  }

  lemma ToTheWait<E(!new)>(e: E, fd: int)
    requires fd > 0
    ensures Enabled(Start(), Add(e, fd, READ, true))
    ensures Apply(Start(), Add(e, fd, READ, true)) == Registered(e, Top)
    ensures Enabled(Registered(e, Top), Drain) && Apply(Registered(e, Top), Drain) == Registered(e, Waiting)
  {
    assert Accepted(fd, READ, true) && Tame(READ);
    hide Spent, Accepted, Tame;
    assert Kept([e], []) == [e];
  }

  lemma FromTheWait<E(!new)>(e: E)
    ensures var v, w := Event(e, true, false, false, true), Registered(e, Waiting);
      && Enabled(w, Wait([v])) && Enabled(Apply(w, Wait([v])), Take)
      && Apply(Apply(w, Wait([v])), Take) == Handling(e)
  {
    assert !Spent(READ);
    hide Spent;
  }

  lemma ToTheCall<E(!new)>(e: E, fd: int, w: World<E>)
    requires fd > 0 && Runs(Handling(e), DeletedInCall(e, fd)[4..], w)
    ensures Runs(Start(), DeletedInCall(e, fd), w)
  {
    ToTheWait(e, fd);
    FromTheWait(e);
    hide Enabled, Apply, Registered, Handling;
    var run := DeletedInCall(e, fd);
    assert run[4..] == run[3..][1..] && run[3..] == run[2..][1..] && run[2..] == run[1..][1..];
    assert Runs(Apply(Registered(e, Waiting), run[2]), run[3..], w);
    assert Runs(Registered(e, Waiting), run[2..], w);
    assert Runs(Registered(e, Top), run[1..], w);
  }

  // An entry that is readable and has failed, and is deleted by the call for READ: the call
  // for ERROR is still to come.
  lemma CalledAfterDeletion<E(!new)>(e: E, fd: int)
    requires fd > 0
    ensures exists v: World<E> ::
              Runs(Start(), DeletedInCall(e, fd), v) && e in v.deleted && v.due == [Call(e, ERROR)]
  {
    assert Hit(READ, ALL) && Left(READ, ALL) == 0 && Spent(0);
    hide Hit, Left, Spent;
    var w4 := Handling(e);
    var w5 := Apply(w4, Dispatch);
    var w6 := Apply(w5, Test(e, ALL));
    var w7 := Apply(w6, Clear(0));
    var run := DeletedInCall(e, fd);
    assert run[6..] == run[5..][1..] == [run[6]] && run[5..] == run[4..][1..];
    assert Runs(w7, [], w7);
    assert Runs(w6, run[6..], w7);
    assert Runs(w5, run[5..], w7);
    assert Runs(w4, run[4..], w7);
    ToTheCall(e, fd, w7);
  }

  // ------------------------------------------------------------ the calls of a batch

  // Which calls an event makes: READ, WRITE and ERROR for what the kernel reports, in this
  // order, ERROR a second time if it reports both a hang-up and a failure.
  lemma CallsOfMeans<E>(v: Event<E>)
    ensures var c := CallsOf(v);
      && (forall k | 0 <= k < |c| :: c[k].e == v.e && (c[k].what == READ || c[k].what == WRITE || c[k].what == ERROR))
      && (forall k | 0 <= k < |c| :: c[k].what == READ ==> k == 0)
      && (forall k | 0 <= k < |c| :: c[k].what == WRITE ==> k == if v.readable then 1 else 0)
      && (v.readable <==> Call(v.e, READ) in c) && (v.writable <==> Call(v.e, WRITE) in c)
      && (v.hungup || v.failed <==> Call(v.e, ERROR) in c)
      && |c| == (if v.readable then 1 else 0) + (if v.writable then 1 else 0) + (if v.hungup then 1 else 0)
                + if v.failed then 1 else 0
  {
    var c := CallsOf(v);
    var r, x := if v.readable then 1 else 0, if v.writable then 1 else 0;
    assert READ != WRITE && READ != ERROR && WRITE != ERROR;
    if v.readable { assert c[0] == Call(v.e, READ); }
    if v.writable { assert c[r] == Call(v.e, WRITE); }
    if v.hungup || v.failed { assert c[r + x] == Call(v.e, ERROR); }
  }

  // The calls made during a run.
  ghost function Made<E>(w: World<E>, run: seq<Step<E>>, v: World<E>): seq<Call<E>>
    requires Runs(w, run, v)
    decreases |run|
  {
    if run == [] then []
    else (if run[0].Dispatch? then [w.due[0]] else []) + Made(Apply(w, run[0]), run[1..], v)
  }

  // Unless the loop is stopped, the calls of a batch are made one after the other, each once;
  // and the batch does not end before the last.
  lemma {:induction false} CallsAreMade<E(!new)>(w: World<E>, run: seq<Step<E>>, v: World<E>)
    requires Good(w) && Runs(w, run, v) && forall i | 0 <= i < |run| :: !run[i].Wait? && !run[i].Stop?
    ensures Made(w, run, v) + Ahead(v) == Ahead(w)
    ensures Enabled(v, EndBatch) ==> Made(w, run, v) == Ahead(w)
    decreases |run|
  {
    if run != [] {
      var m := Apply(w, run[0]);
      StepKeepsGood(w, run[0]);
      AheadAfter(w, run[0]);
      assert !run[0].Wait? && !run[0].Stop? && Runs(m, run[1..], v);
      ghost var rest := Made(m, run[1..], v);
      assert Made(w, run, v) == (if run[0].Dispatch? then [w.due[0]] else []) + rest;
      hide *;
      CallsAreMade(m, run[1..], v);
      if run[0].Dispatch? { Front(w.due[0], rest, Ahead(v)); } else { assert [] + rest == rest; }
    }
    EndOfBatch(v);
  }

  lemma EndOfBatch<E>(v: World<E>)
    ensures Enabled(v, EndBatch) ==> Ahead(v) == []
  {
  }

  // After a wait these are the calls of the events it reported.
  lemma BatchIsMade<E(!new)>(w: World<E>, ready: seq<Event<E>>, run: seq<Step<E>>, v: World<E>)
    requires Good(w) && Enabled(w, Wait(ready)) && Runs(Apply(w, Wait(ready)), run, v) && Enabled(v, EndBatch)
    requires forall i | 0 <= i < |run| :: !run[i].Wait? && !run[i].Stop?
    ensures Made(Apply(w, Wait(ready)), run, v) == AllCalls(ready)
  {
    AheadAfter(w, Wait(ready));
    StepKeepsGood(w, Wait(ready));
    CallsAreMade(Apply(w, Wait(ready)), run, v);
  }
}
