/**
  What the single steps of a connection's life do to it: opening, connecting, what an event
  orders, closing, and what becomes of a connection from the step on that closes it.
*/
module LifecycleSteps {
  import opened Lifecycle
  import opened Server

  // The references and the state of a live connection.
  ghost predicate Has<C>(w: World<C>, c: C, count: nat, r: Refs) {
    Known(w, c) && c in w.objs.live && w.objs.conns[c].count == count && w.refs[c] == r
    && (w.objs.conns[c].evloop <==> r.reg == Active)
  }

  lemma LiveHas<C(!new)>(w: World<C>, c: C)
    requires Good(w) && c in w.objs.live
    ensures Known(w, c) && Has(w, c, w.objs.conns[c].count, w.refs[c]) && w.objs.conns[c].count == Owed(w.refs[c]) > 0
  {
    GoodIsNearly(w, c);
    assert Tidy(w.objs.conns[c], w.refs[c], true, 0);
  }

  // ------------------------------------------------------------ opening

  // A new connection is an object nobody had, with the one reference of its connect job; if
  // the job cannot be queued the object goes back to the pool.
  lemma OpenMeans<C(!new)>(w: World<C>, made: C, fd: int, queued: bool)
    requires Good(w) && Enabled(w, Open(made, fd, queued))
    ensures var (c, v) := (Opened(w.objs, made, fd).0, Apply(w, Open(made, fd, queued)));
      && c !in w.objs.live && (c == made || c in w.objs.pool) && Known(v, c)
      && (queued ==> Has(v, c, 1, v.refs[c]) && v.refs[c].connecting && v.refs[c].reg == Absent
                     && v.objs.conns[c].fd == fd && v.objs.live == [c] + w.objs.live)
      && (!queued ==> c in v.objs.pool && v.objs.live == w.objs.live)
  {
    var c := Opened(w.objs, made, fd).0;
    EnteredItself(w, made, fd);
    OpenedApart(w, made);
    var v := Entered(w, made, fd).1;
    if !queued { BackToPool(v, c, w.objs.live); }
  }

  // A listener's or timer's object is held for good by its caller.
  lemma HoldMeans<C(!new)>(w: World<C>, made: C, fd: int, kept: bool)
    requires Good(w) && Enabled(w, Hold(made, fd, kept))
    ensures var (c, v) := (Opened(w.objs, made, fd).0, Apply(w, Hold(made, fd, kept)));
      && c !in w.objs.live && (c == made || c in w.objs.pool) && Known(v, c)
      && (kept ==> Has(v, c, 1, v.refs[c]) && v.refs[c].held && v.refs[c].reg == Absent
                   && v.objs.conns[c].fd == fd && v.objs.live == [c] + w.objs.live)
      && (!kept ==> c in v.objs.pool && v.objs.live == w.objs.live)
  {
    var c := Opened(w.objs, made, fd).0;
    EnteredItself(w, made, fd);
    OpenedApart(w, made);
    if !kept { BackToPool(Entered(w, made, fd).1, c, w.objs.live); }
  }

  lemma OpenedApart<C(!new)>(w: World<C>, made: C)
    requires Good(w) && made !in w.objs.conns
    ensures made !in w.objs.live && made !in w.objs.pool
    ensures w.objs.pool != [] ==> w.objs.pool[0] in w.objs.pool && w.objs.pool[0] !in w.objs.live
  {
    if w.objs.pool != [] { NotLive(w.objs); }
  }

  lemma BackToPool<C>(v: World<C>, c: C, live: seq<C>)
    requires Known(v, c) && v.objs.live == [c] + live && c !in live && v.objs.conns[c].count == 1
    ensures Destroy(v, c).objs.live == live && c in Destroy(v, c).objs.pool && Known(Destroy(v, c), c)
  {
    var o := v.objs;
    assert o.live[0] == c && o.live[1..] == live;
    assert Minus(o.live, c) == live;
    assert Destroy(v, c).objs.pool[0] == c;
  }

  // ------------------------------------------------------------ what the callbacks do

  // What giving up a reference leaves.
  ghost predicate GivenUp<C>(v: World<C>, c: C, count: nat, r: Refs) {
    Known(v, c) && if Owed(r) == 0 then c in v.objs.pool else count > 0 && Has(v, c, count - 1, r)
  }

  lemma DestroyedMeans<C(!new)>(u: World<C>, c: C)
    requires Nearly(u, c, 1)
    ensures Known(u, c) && GivenUp(Destroy(u, c), c, u.objs.conns[c].count, u.refs[c])
  {
    assert Tidy(u.objs.conns[c], u.refs[c], true, 1);
    DestroyItself(u, c);
    DestroyRestores(u, c);
    var v := Destroy(u, c);
    GoodIsNearly(v, c);
    hide Destroy, Nearly;
    assert c in v.objs.live || c in v.objs.pool;
  }

  lemma NotedMeans<C(!new)>(w: World<C>, c: C, after: Refs)
    requires Good(w) && Known(w, c) && Releases(w.objs.conns[c], w.refs[c], after)
    ensures c in w.objs.live && Nearly(Noted(w, c, after), c, 1) && Owed(after) + 1 == Owed(w.refs[c])
    ensures GivenUp(Destroy(Noted(w, c, after), c), c, w.objs.conns[c].count, after)
  {
    GoodIsNearly(w, c);
    ReleaseTidy(w.objs.conns[c], w.refs[c], after, c in w.objs.live);
    OneComesFree(w, c, after);
    hide Good, Nearly, Tidy, Releases, Owed, GivenUp, Destroy;
    DestroyedMeans(Noted(w, c, after), c);
  }

  lemma ShutMeans<C(!new)>(u: World<C>, c: C)
    requires Nearly(u, c, 1)
    ensures Known(u, c) && var r := u.refs[c];
      && Nearly(Shut(u, c), c, 1) && Known(Shut(u, c), c)
      && Shut(u, c).objs.conns[c].count == u.objs.conns[c].count
      && Shut(u, c).refs[c] == r.(reg := if r.reg == Active then Deleted else r.reg)
      && (u.objs.conns[c].evloop <==> r.reg == Active)
  {
    assert Tidy(u.objs.conns[c], u.refs[c], true, 1);
    ShutKeeps(u, c, 1);
  }

  // The connect job hands its reference on to a registration, at once deleted if the user
  // closes; refused, it gives it up, and the connection is over.
  lemma ConnectMeans<C(!new)>(w: World<C>, c: C, added: bool, closes: bool)
    requires Good(w) && Enabled(w, Connect(c, added, closes))
    ensures var (r, v) := (w.refs[c], Apply(w, Connect(c, added, closes)));
      && c in w.objs.live && Known(v, c)
      && if added && !w.stopping
         then Has(v, c, w.objs.conns[c].count, r.(connecting := false, registered := r.registered + 1,
                  reg := if closes then Deleted else Active))
         else if Owed(r) == 1 then c in v.objs.pool
         else Has(v, c, w.objs.conns[c].count - 1, r.(connecting := false))
  {
    NotedMeans(w, c, w.refs[c].(connecting := false));
    LiveHas(w, c);
    hide Good, Nearly, Stored, Destroy, Releases;
  }

  lemma OrderMeans<C(!new)>(w: World<C>, c: C, queued: bool)
    requires Nearly(w, c, 0)
    ensures Known(w, c) && Has(Ordered(w, c, queued), c, w.objs.conns[c].count + (if queued then 1 else 0),
      w.refs[c].(inputs := w.refs[c].inputs + if queued then 1 else 0))
  {
    assert Tidy(w.objs.conns[c], w.refs[c], true, 0);
    DestroyItself(w.(objs := Referenced(w.objs, c)), c);
    hide Destroy;
  }

  // An event of a registered connection orders one input job, if it is readable and the job
  // can be queued; an error, and any event of a stopping server, closes the connection.
  lemma EventMeans<C(!new)>(w: World<C>, c: C, read: bool, error: bool, queued: bool)
    requires Good(w) && Enabled(w, Event(c, read, error, queued))
    ensures var (r, v) := (w.refs[c], Apply(w, Event(c, read, error, queued)));
      var ordered := if r.reg == Active && read && queued && !w.stopping then 1 else 0;
      && c in w.objs.live
      && Has(v, c, w.objs.conns[c].count + ordered, r.(inputs := r.inputs + ordered,
             reg := if error || w.stopping then Deleted else r.reg))
  {
    GoodIsNearly(w, c);
    assert Tidy(w.objs.conns[c], w.refs[c], c in w.objs.live, 0);
    LiveHas(w, c);
    hide Good, Stored, Destroy;
    OrderMeans(w, c, queued);
    hide Ordered, Nearly;
  }

  // An input job gives up its reference; where the user or the peer closes, or the server
  // stops, it closes the connection before.
  lemma InputMeans<C(!new)>(w: World<C>, c: C, closes: bool, eof: bool)
    requires Good(w) && Enabled(w, Input(c, closes, eof))
    ensures var (r, v) := (w.refs[c], Apply(w, Input(c, closes, eof)));
      && c in w.objs.live && Known(v, c)
      && if Owed(r) == 1 then c in v.objs.pool
         else Has(v, c, w.objs.conns[c].count - 1, r.(inputs := r.inputs - 1,
                  reg := if r.reg == Active && (closes || eof || w.stopping) then Deleted else r.reg))
  {
    var u := Noted(w, c, w.refs[c].(inputs := w.refs[c].inputs - 1));
    NotedMeans(w, c, u.refs[c]);
    LiveHas(w, c);
    ShutMeans(u, c);
    hide Good, Nearly, Stored, Destroy, Shut, Releases;
    DestroyedMeans(Shut(u, c), c);
  }

  // The drain takes the reference of a deleted registration and tells of its end.
  lemma DrainMeans<C(!new)>(w: World<C>, c: C)
    requires Good(w) && Enabled(w, Drain(c))
    ensures var (r, v) := (w.refs[c], Apply(w, Drain(c)));
      && c in w.objs.live && Known(v, c)
      && if Owed(r) == 1 then c in v.objs.pool
         else Has(v, c, w.objs.conns[c].count - 1, r.(reg := Absent, closed := r.closed + 1))
  {
    NotedMeans(w, c, w.refs[c].(reg := Absent, closed := w.refs[c].closed + 1));
    LiveHas(w, c);
    hide Good, Nearly, Stored, Destroy, Releases;
  }

  // Closing deletes the registration, if there is one, and takes no reference.
  lemma CloseMeans<C(!new)>(w: World<C>, c: C)
    requires Good(w) && Enabled(w, Close(c))
    ensures var (r, v) := (w.refs[c], Apply(w, Close(c)));
      Has(v, c, w.objs.conns[c].count, r.(reg := if r.reg == Active then Deleted else r.reg))
  {
    LiveHas(w, c);
  }

  // From the stop on every event closes and no connection is registered; and a trim leaves
  // the live objects alone, and no more pooled ones than those.
  lemma StopAndTrimMean<C(!new)>(w: World<C>)
    requires Good(w)
    ensures Apply(w, Stop).stopping && Apply(w, Stop).objs == w.objs && Apply(w, Stop).refs == w.refs
    ensures w.objs.count > 0 ==> var v := Apply(w, Trim);
      && v.objs.live == w.objs.live && |v.objs.pool| <= |v.objs.live|
      && forall c | c in w.objs.live :: Known(w, c) && Same(w, v, c)
  {
    if w.objs.count > 0 {
      TrimKeepsStored(w.objs);
      forall c | c in w.objs.live ensures Known(w, c) && Same(w, Apply(w, Trim), c) {
        LiveHas(w, c);
        TrimSame(w, c);
      }
    }
  }

  lemma {:induction false} StoppedForGood<C(!new)>(w: World<C>, run: seq<Step<C>>, v: World<C>)
    requires Runs(w, run, v) && w.stopping
    ensures v.stopping
    decreases |run|
  {
    if run != [] { StoppedForGood(Apply(w, run[0]), run[1..], v); }
  }

  // ------------------------------------------------------------ from the closing step on

  // The steps that close a connection.
  ghost predicate Closes<C>(w: World<C>, a: Step<C>, c: C)
    requires Enabled(w, a)
  {
    match a
    case Close(x) => x == c && !w.refs[c].connecting
    case Connect(x, added, closes) => x == c && added && closes && !w.stopping
    case Event(x, _, error, _) => x == c && w.refs[c].reg == Active && (error || w.stopping)
    case Input(x, closes, eof) => x == c && w.refs[c].reg == Active && (closes || eof || w.stopping)
    case _ => false
  }

  // The references that are out after such a step.
  ghost function LeftAfter<C>(w: World<C>, a: Step<C>, c: C): nat
    requires Enabled(w, a) && Known(w, c) && w.objs.conns[c].count > 0
  {
    var n := w.objs.conns[c].count;
    match a
    case Event(_, read, _, queued) => if read && queued && !w.stopping then n + 1 else n
    case Input(_, _, _) => n - 1
    case _ => n
  }

  // It leaves the connection closed and live, and a registration that was active deleted.
  lemma ClosesIt<C(!new)>(w: World<C>, a: Step<C>, c: C)
    requires Good(w) && Enabled(w, a) && Closes(w, a, c) && c in w.objs.live && !w.refs[c].held
    ensures Known(w, c) && w.objs.conns[c].count > 0
    ensures var v := Apply(w, a);
      && Known(v, c) && c in v.objs.live && Closing(v.refs[c]) && v.objs.conns[c].count == LeftAfter(w, a, c) > 0
      && (w.refs[c].reg == Active || a.Connect? ==> v.refs[c].reg == Deleted)
  {
    LiveHas(w, c);
    match a
    case Close(_) => CloseMeans(w, c);
    case Connect(_, added, closes) => ConnectMeans(w, c, added, closes);
    case Event(_, read, error, queued) => EventMeans(w, c, read, error, queued);
    case Input(_, closes, eof) => InputMeans(w, c, closes, eof);
  }

  // Whatever goes on after it, the connection stays live until all references but one that
  // were out after the closing step have been given up by jobs and drains, and is recycled
  // when the last one is.
  lemma ClosedOnceForAll<C(!new)>(w: World<C>, a: Step<C>, run: seq<Step<C>>, v: World<C>, c: C)
    requires Good(w) && Enabled(w, a) && Closes(w, a, c) && c in w.objs.live && !w.refs[c].held
    requires Runs(Apply(w, a), run, v)
    ensures Known(w, c) && w.objs.conns[c].count > 0
    ensures var n := LeftAfter(w, a, c);
      && (Served(run, c) < n ==> c in v.objs.live && Known(v, c) && v.objs.conns[c].count == n - Served(run, c))
      && (run != [] && Serves(run[|run| - 1], c) && Served(run, c) == n ==> c in v.objs.pool)
  {
    ClosesIt(w, a, c);
    StepKeepsGood(w, a);
    hide Good, Apply, Enabled, Closes, LeftAfter, Closing;
    ClosedIsReleased(Apply(w, a), run, v, c);
  }
}
