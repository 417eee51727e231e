/**
  The life of the connections as a state machine. Its steps are the callbacks of
  the server, each run by whichever worker holds the job or the registration; a
  step is possible as soon as its job is queued or its registration exists, and
  not only while the connection is still alive.
*/
module Lifecycle {
  import opened Server

  // The registration of a connection: none, in place, or deleted but not yet
  // drained by the loop.
  datatype Reg = Absent | Active | Deleted

  // Who holds a reference to an object: a queued connect job, the registration,
  // `inputs` input jobs, or the caller for good (`held`: listeners and timers).
  // The rest is history: how often it was opened, recycled, registered, and told
  // that its registration was closed.
  datatype Refs = Refs(connecting: bool, reg: Reg, inputs: nat, held: bool,
                       uses: nat, recycled: nat, registered: nat, closed: nat)

  const NOBODY := Refs(false, Absent, 0, false, 0, 0, 0, 0)

  datatype World<!C(==)> = World(objs: Objects<C>, refs: map<C, Refs>, stopping: bool)

  // The parameters say what the callback meets: whether the job could be queued
  // or the descriptor registered, whether the user's function closes the
  // connection, and whether the peer has.
  datatype Step<C> =
    | Open(made: C, fd: int, queued: bool)
    | Hold(made: C, fd: int, kept: bool)
    | Connect(c: C, added: bool, closes: bool)
    | Event(c: C, read: bool, error: bool, queued: bool)
    | Input(c: C, closes: bool, eof: bool)
    | Drain(c: C)
    | Close(c: C)
    | Stop
    | Trim

  // ------------------------------------------------------------ the steps

  function Noted<C>(w: World<C>, c: C, r: Refs): World<C> {
    w.(refs := w.refs[c := r])
  }

  predicate Known<C>(w: World<C>, c: C) {
    c in w.objs.conns && c in w.refs
  }

  ghost function Destroy<C>(w: World<C>, c: C): World<C>
    requires Known(w, c)
  {
    var r := w.refs[c];
    World(Destroyed(w.objs, c),
          if w.objs.conns[c].count <= 1 then w.refs[c := r.(recycled := r.recycled + 1)] else w.refs,
          w.stopping)
  }

  // Deletes the registration, if the connection still has one.
  function Shut<C>(w: World<C>, c: C): World<C>
    requires Known(w, c)
  {
    if w.objs.conns[c].evloop then
      World(Detached(w.objs, c), w.refs[c := w.refs[c].(reg := Deleted)], w.stopping)
    else
      w
  }

  // A new reference, and the job that is to release it.
  ghost function Ordered<C>(w: World<C>, c: C, queued: bool): World<C>
    requires Known(w, c)
  {
    var v := w.(objs := Referenced(w.objs, c));
    if queued then Noted(v, c, w.refs[c].(inputs := w.refs[c].inputs + 1)) else Destroy(v, c)
  }

  ghost predicate Enabled<C>(w: World<C>, a: Step<C>) {
    match a
    case Open(made, _, _) => made !in w.objs.conns
    case Hold(made, _, _) => made !in w.objs.conns
    case Connect(c, _, _) => Known(w, c) && w.refs[c].connecting
    case Event(c, _, _, _) => Known(w, c) && w.refs[c].reg != Absent
    case Input(c, _, _) => Known(w, c) && w.refs[c].inputs > 0
    case Drain(c) => Known(w, c) && w.refs[c].reg == Deleted
    case Close(c) => Known(w, c) && c in w.objs.live
    case Stop => true
    case Trim => w.objs.count > 0
  }

  ghost function Entered<C>(w: World<C>, made: C, fd: int): (C, World<C>) {
    var (c, objs) := Opened(w.objs, made, fd);
    var r := if c in w.refs then w.refs[c] else NOBODY;
    (c, World(objs, w.refs[c := r.(uses := r.uses + 1)], w.stopping))
  }

  ghost function OpenStep<C>(w: World<C>, made: C, fd: int, held: bool, ok: bool): World<C> {
    var (c, v) := Entered(w, made, fd);
    if ok then Noted(v, c, if held then v.refs[c].(held := true) else v.refs[c].(connecting := true))
    else Destroy(v, c)
  }

  // The connect job gives up its reference, or hands it on to the registration.
  ghost function Refused<C>(w: World<C>, c: C): World<C>
    requires Known(w, c)
  {
    Destroy(Noted(w, c, w.refs[c].(connecting := false)), c)
  }

  function Registered<C>(w: World<C>, c: C): (v: World<C>)
    requires Known(w, c)
    ensures Known(v, c)
  {
    World(Attached(w.objs, c),
          w.refs[c := w.refs[c].(connecting := false, reg := Active, registered := w.refs[c].registered + 1)],
          w.stopping)
  }

  ghost function ConnectStep<C>(w: World<C>, c: C, added: bool, closes: bool): World<C>
    requires Known(w, c)
  {
    if w.stopping || !added then Refused(w, c)
    else if closes then Shut(Registered(w, c), c)
    else Registered(w, c)
  }

  ghost function EventStep<C>(w: World<C>, c: C, read: bool, error: bool, queued: bool): World<C>
    requires Known(w, c)
  {
    if !w.objs.conns[c].evloop then w
    else if w.stopping then Shut(w, c)
    else
      var v := if read then Ordered(w, c, queued) else w;
      if error then Shut(v, c) else v
  }

  ghost function InputStep<C>(w: World<C>, c: C, closes: bool, eof: bool): World<C>
    requires Known(w, c) && w.refs[c].inputs > 0
  {
    var v := Noted(w, c, w.refs[c].(inputs := w.refs[c].inputs - 1));
    if !w.objs.conns[c].evloop then Destroy(v, c)
    else if w.stopping || closes || eof then Destroy(Shut(v, c), c)
    else Destroy(v, c)
  }

  ghost function DrainStep<C>(w: World<C>, c: C): World<C>
    requires Known(w, c)
  {
    Destroy(Noted(w, c, w.refs[c].(reg := Absent, closed := w.refs[c].closed + 1)), c)
  }

  ghost function TrimStep<C>(w: World<C>): World<C>
    requires w.objs.count > 0
  {
    var objs := Trimmed(w.objs);
    World(objs, map c | c in w.refs && c in objs.conns :: w.refs[c], w.stopping)
  }

  ghost function Apply<C>(w: World<C>, a: Step<C>): World<C>
    requires Enabled(w, a)
  {
    match a
    case Open(made, fd, queued) => OpenStep(w, made, fd, false, queued)
    case Hold(made, fd, kept) => OpenStep(w, made, fd, true, kept)
    case Connect(c, added, closes) => ConnectStep(w, c, added, closes)
    case Event(c, read, error, queued) => EventStep(w, c, read, error, queued)
    case Input(c, closes, eof) => InputStep(w, c, closes, eof)
    case Drain(c) => DrainStep(w, c)
    case Close(c) => Shut(w, c)
    case Stop => w.(stopping := true)
    case Trim => TrimStep(w)
  }

  ghost predicate Runs<C>(w: World<C>, run: seq<Step<C>>, v: World<C>)
    decreases |run|
  {
    if run == [] then w == v
    else Enabled(w, run[0]) && Runs(Apply(w, run[0]), run[1..], v)
  }

  function Start<C>(): World<C> {
    World(Objects([], [], map[], 0, 0), map[], false)
  }

  // ------------------------------------------------------------ what every step keeps

  // The references that are out.
  function Owed(r: Refs): nat {
    (if r.connecting then 1 else 0) + (if r.reg != Absent then 1 else 0) + r.inputs + (if r.held then 1 else 0)
  }

  // A live object counts its references, of which `spare` belong to nobody; a
  // recycled one has none.
  predicate Tidy(conn: Conn, r: Refs, live: bool, spare: nat) {
    && (if live then conn.count == Owed(r) + spare && conn.count > 0 && r.uses == r.recycled + 1
        else conn.count == 0 && Owed(r) == 0 && r.uses == r.recycled)
    && (conn.evloop <==> r.reg == Active)
    && (r.connecting ==> r.reg == Absent)
    && r.registered == r.closed + (if r.reg != Absent then 1 else 0)
  }

  // `spare` references of `at` are about to be released.
  ghost predicate Nearly<C>(w: World<C>, at: C, spare: nat) {
    && Stored(w.objs) && w.refs.Keys == w.objs.conns.Keys && at in w.objs.live
    && forall c | c in w.refs :: Tidy(w.objs.conns[c], w.refs[c], c in w.objs.live, if c == at then spare else 0)
  }

  ghost predicate Good<C>(w: World<C>) {
    && Stored(w.objs) && w.refs.Keys == w.objs.conns.Keys
    && forall c | c in w.refs :: Tidy(w.objs.conns[c], w.refs[c], c in w.objs.live, 0)
  }

  // A step changes one live object and its references.
  function Changed<C>(w: World<C>, c: C, conn: Conn, r: Refs): World<C> {
    World(w.objs.(conns := w.objs.conns[c := conn]), w.refs[c := r], w.stopping)
  }

  lemma ChangeIsLocal<C(!new)>(w: World<C>, c: C, conn: Conn, r: Refs, was: nat, spare: nat)
    requires Nearly(w, c, was) && Tidy(conn, r, true, spare)
    ensures Nearly(Changed(w, c, conn, r), c, spare)
  {
    hide Tidy;
  }

  lemma GoodIsNearly<C(!new)>(w: World<C>, c: C)
    requires Good(w)
    ensures c in w.objs.live ==> Known(w, c) && Nearly(w, c, 0)
    ensures Known(w, c) ==> Tidy(w.objs.conns[c], w.refs[c], c in w.objs.live, 0)
  {
  }

  lemma NearlyIsGood<C(!new)>(w: World<C>, c: C)
    requires Nearly(w, c, 0)
    ensures Good(w)
  {
  }

  lemma ReleasedTidy(conn: Conn, r: Refs)
    requires Tidy(conn, r, true, 1)
    ensures conn.count > 0 && (conn.count > 1 <==> Owed(r) > 0)
    ensures conn.count > 1 ==> Tidy(conn.(count := conn.count - 1), r, true, 0)
    ensures conn.count == 1 ==> Tidy(Conn(0, 0, false), r.(recycled := r.recycled + 1), false, 0)
  {
  }

  // What `Destroy` makes of the object itself.
  lemma DestroyItself<C(!new)>(w: World<C>, c: C)
    requires Known(w, c) && Stored(w.objs) && c in w.objs.live && w.objs.conns[c].count > 0
    ensures var (v, conn, r) := (Destroy(w, c), w.objs.conns[c], w.refs[c]);
      && Known(v, c) && Stored(v.objs)
      && (c in v.objs.live <==> conn.count > 1)
      && v.objs.conns[c] == (if conn.count > 1 then conn.(count := conn.count - 1) else Conn(0, 0, false))
      && v.refs[c] == if conn.count > 1 then r else r.(recycled := r.recycled + 1)
  {
    DestroyKeepsStored(w.objs, c);
    hide Stored;
  }

  lemma DestroyLocal<C(!new)>(w: World<C>, c: C)
    requires Nearly(w, c, 1)
    ensures var v := Destroy(w, c);
      && c in w.refs && Known(v, c)
      && Stored(v.objs)
      && (c in v.objs.live <==> Owed(w.refs[c]) > 0)
      && (c in v.objs.live ==> v.refs[c] == w.refs[c])
      && Tidy(v.objs.conns[c], v.refs[c], c in v.objs.live, 0)
  {
    ReleasedTidy(w.objs.conns[c], w.refs[c]);
    hide Stored, Tidy, Owed, Destroy;
    DestroyItself(w, c);
  }

  lemma DestroyOthers<C(!new)>(w: World<C>, c: C)
    requires Nearly(w, c, 1)
    ensures var v := Destroy(w, c);
      && v.refs.Keys == v.objs.conns.Keys == w.refs.Keys
      && forall x | x in v.refs && x != c ::
        v.refs[x] == w.refs[x] && v.objs.conns[x] == w.objs.conns[x] && (x in v.objs.live <==> x in w.objs.live)
  {
    DestroyKeepsStored(w.objs, c);
    hide Tidy, Stored;
  }

  lemma DestroyRestores<C(!new)>(w: World<C>, c: C)
    requires Nearly(w, c, 1)
    ensures Good(Destroy(w, c))
    ensures c in w.refs && Known(Destroy(w, c), c)
    ensures c in Destroy(w, c).objs.live <==> Owed(w.refs[c]) > 0
    ensures c in Destroy(w, c).objs.live ==> Destroy(w, c).refs[c] == w.refs[c]
  {
    DestroyLocal(w, c);
    DestroyOthers(w, c);
    hide Tidy, Stored, Owed, Destroy;
  }

  lemma ShutKeeps<C(!new)>(w: World<C>, c: C, spare: nat)
    requires Nearly(w, c, spare)
    ensures Nearly(Shut(w, c), c, spare)
  {
    assert Tidy(w.objs.conns[c], w.refs[c], true, spare);
    if w.objs.conns[c].evloop {
      ChangeIsLocal(w, c, w.objs.conns[c].(evloop := false), w.refs[c].(reg := Deleted), spare, spare);
    }
  }

  lemma OrderTidy(conn: Conn, r: Refs)
    requires Tidy(conn, r, true, 0)
    ensures Tidy(conn.(count := conn.count + 1), r.(inputs := r.inputs + 1), true, 0)
    ensures Tidy(conn.(count := conn.count + 1), r, true, 1)
    ensures Owed(r) > 0
  {
  }

  lemma OrderQueued<C(!new)>(w: World<C>, c: C)
    requires Nearly(w, c, 0)
    ensures Known(w, c) && Nearly(Ordered(w, c, true), c, 0)
  {
    var conn, r := w.objs.conns[c].(count := w.objs.conns[c].count + 1), w.refs[c];
    OrderTidy(w.objs.conns[c], r);
    hide Tidy, Nearly, Owed, Ordered;
    ChangeIsLocal(w, c, conn, r.(inputs := r.inputs + 1), 0, 0);
    OrderedIs(w, c);
  }

  lemma OrderedIs<C(!new)>(w: World<C>, c: C)
    requires Known(w, c)
    ensures Ordered(w, c, true)
         == Changed(w, c, w.objs.conns[c].(count := w.objs.conns[c].count + 1),
           w.refs[c].(inputs := w.refs[c].inputs + 1))
  {
  }

  lemma ReferencedNearly<C(!new)>(w: World<C>, c: C)
    requires Nearly(w, c, 0)
    ensures Known(w, c) && Nearly(w.(objs := Referenced(w.objs, c)), c, 1) && Owed(w.refs[c]) > 0
  {
    var conn, r := w.objs.conns[c].(count := w.objs.conns[c].count + 1), w.refs[c];
    OrderTidy(w.objs.conns[c], r);
    hide Tidy, Nearly, Owed;
    ChangeIsLocal(w, c, conn, r, 0, 1);
    assert w.(objs := Referenced(w.objs, c)) == Changed(w, c, conn, r);
  }

  lemma OrderKeeps<C(!new)>(w: World<C>, c: C, queued: bool)
    requires Nearly(w, c, 0)
    ensures Known(w, c) && Nearly(Ordered(w, c, queued), c, 0)
  {
    OrderQueued(w, c);
    ReferencedNearly(w, c);
    var v := w.(objs := Referenced(w.objs, c));
    hide Tidy, Nearly, Owed, Destroy, Good;
    DestroyRestores(v, c);
    GoodIsNearly(Destroy(v, c), c);
  }

  // What `Entered` makes of the object itself, and of the others.
  lemma EnteredItself<C(!new)>(w: World<C>, made: C, fd: int)
    requires Good(w) && made !in w.objs.conns
    ensures var (c, v) := Entered(w, made, fd);
      Known(v, c) && c in v.objs.live && Tidy(v.objs.conns[c], v.refs[c], true, 1) && Owed(v.refs[c]) == 0
  {
    var c := Opened(w.objs, made, fd).0;
    if w.objs.pool != [] { assert Tidy(w.objs.conns[c], w.refs[c], false, 0); }
  }

  lemma EnteredOthers<C(!new)>(w: World<C>, made: C, fd: int)
    requires Good(w) && made !in w.objs.conns
    ensures var (c, v) := Entered(w, made, fd);
      && Stored(v.objs) && v.refs.Keys == v.objs.conns.Keys
      && forall x | x in v.refs && x != c ::
        x in w.refs && v.refs[x] == w.refs[x] && v.objs.conns[x] == w.objs.conns[x]
          && (x in v.objs.live <==> x in w.objs.live)
  {
    OpenKeepsStored(w.objs, made, fd);
    hide Tidy;
  }

  lemma EnteredNearly<C(!new)>(w: World<C>, made: C, fd: int)
    requires Good(w) && made !in w.objs.conns
    ensures var (c, v) := Entered(w, made, fd); Known(v, c) && Nearly(v, c, 1) && Owed(v.refs[c]) == 0
  {
    hide Entered, Tidy, Stored, Owed;
    EnteredItself(w, made, fd);
    EnteredOthers(w, made, fd);
  }

  lemma OpenTidy(conn: Conn, r: Refs, held: bool)
    requires Tidy(conn, r, true, 1) && Owed(r) == 0
    ensures Tidy(conn, if held then r.(held := true) else r.(connecting := true), true, 0)
  {
  }

  lemma TakenKeeps<C(!new)>(v: World<C>, c: C, held: bool)
    requires Nearly(v, c, 1) && Known(v, c) && Owed(v.refs[c]) == 0
    ensures Good(Noted(v, c, if held then v.refs[c].(held := true) else v.refs[c].(connecting := true)))
  {
    var r := if held then v.refs[c].(held := true) else v.refs[c].(connecting := true);
    assert Tidy(v.objs.conns[c], v.refs[c], true, 1);
    OpenTidy(v.objs.conns[c], v.refs[c], held);
    ChangeIsLocal(v, c, v.objs.conns[c], r, 1, 0);
    assert Noted(v, c, r) == Changed(v, c, v.objs.conns[c], r);
    NearlyIsGood(Noted(v, c, r), c);
    hide *;
  }

  lemma OpenStepKeeps<C(!new)>(w: World<C>, made: C, fd: int, held: bool, ok: bool)
    requires Good(w) && made !in w.objs.conns
    ensures Good(OpenStep(w, made, fd, held, ok))
  {
    EnteredNearly(w, made, fd);
    var (c, v) := Entered(w, made, fd);
    TakenKeeps(v, c, held);
    DestroyRestores(v, c);
    hide Tidy, Nearly, Good, Destroy, Entered, Stored, Owed, Noted;
  }

  // A job that starts, and a drain, give up one of the references of `c`.
  predicate Releases(conn: Conn, r: Refs, after: Refs) {
    || (r.connecting && after == r.(connecting := false))
    || (r.inputs > 0 && after == r.(inputs := r.inputs - 1))
    || (r.reg == Deleted && after == r.(reg := Absent, closed := r.closed + 1))
  }

  lemma ReleaseTidy(conn: Conn, r: Refs, after: Refs, live: bool)
    requires Tidy(conn, r, live, 0) && Releases(conn, r, after)
    ensures live && Tidy(conn, after, true, 1) && Owed(after) + 1 == Owed(r) == conn.count
  {
  }

  lemma OneComesFree<C(!new)>(w: World<C>, c: C, after: Refs)
    requires Good(w) && Known(w, c) && Releases(w.objs.conns[c], w.refs[c], after)
    ensures c in w.objs.live && Nearly(Noted(w, c, after), c, 1)
  {
    GoodIsNearly(w, c);
    ReleaseTidy(w.objs.conns[c], w.refs[c], after, c in w.objs.live);
    hide Tidy, Nearly, Good;
    ChangeIsLocal(w, c, w.objs.conns[c], after, 0, 1);
    assert Noted(w, c, after) == Changed(w, c, w.objs.conns[c], after);
  }

  lemma ConnectTidy(conn: Conn, r: Refs)
    requires Tidy(conn, r, true, 0) && r.connecting
    ensures Tidy(conn.(evloop := true), r.(connecting := false, reg := Active, registered := r.registered + 1), true, 0)
  {
  }

  lemma RegisteredKeeps<C(!new)>(w: World<C>, c: C)
    requires Good(w) && Known(w, c) && w.refs[c].connecting && c in w.objs.live
    ensures Nearly(Registered(w, c), c, 0)
  {
    var on := w.refs[c].(connecting := false, reg := Active, registered := w.refs[c].registered + 1);
    var attached := w.objs.conns[c].(evloop := true);
    GoodIsNearly(w, c);
    hide Tidy, Stored, Nearly, Good;
    ConnectTidy(w.objs.conns[c], w.refs[c]);
    ChangeIsLocal(w, c, attached, on, 0, 0);
    assert Registered(w, c) == Changed(w, c, attached, on);
  }

  lemma RefusedKeeps<C(!new)>(w: World<C>, c: C)
    requires Good(w) && Known(w, c) && w.refs[c].connecting
    ensures c in w.objs.live && Good(Refused(w, c))
  {
    var r := w.refs[c].(connecting := false);
    hide Tidy, Stored, Nearly, Good, Destroy, Noted, Owed;
    OneComesFree(w, c, r);
    DestroyRestores(Noted(w, c, r), c);
  }

  lemma ConnectStepKeeps<C(!new)>(w: World<C>, c: C, added: bool, closes: bool)
    requires Good(w) && Enabled(w, Connect(c, added, closes))
    ensures Good(ConnectStep(w, c, added, closes))
  {
    hide Good, Nearly, Shut, Refused, Registered;
    RefusedKeeps(w, c);
    RegisteredKeeps(w, c);
    var v := Registered(w, c);
    ShutKeeps(v, c, 0);
    NearlyIsGood(Shut(v, c), c);
    NearlyIsGood(v, c);
  }

  lemma EventStepKeeps<C(!new)>(w: World<C>, c: C, read: bool, error: bool, queued: bool)
    requires Good(w) && Enabled(w, Event(c, read, error, queued))
    ensures Good(EventStep(w, c, read, error, queued))
  {
    GoodIsNearly(w, c);
    hide Tidy, Stored;
    var v := if read then Ordered(w, c, queued) else w;
    if read { OrderKeeps(w, c, queued); }
    ShutKeeps(v, c, 0);
    ShutKeeps(w, c, 0);
  }

  lemma InputStepKeeps<C(!new)>(w: World<C>, c: C, closes: bool, eof: bool)
    requires Good(w) && Enabled(w, Input(c, closes, eof))
    ensures Good(InputStep(w, c, closes, eof))
  {
    var r := w.refs[c].(inputs := w.refs[c].inputs - 1);
    OneComesFree(w, c, r);
    hide Tidy, Stored, Nearly, Good, Destroy, Shut;
    var v := Noted(w, c, r);
    ShutKeeps(v, c, 1);
    DestroyRestores(v, c);
    DestroyRestores(Shut(v, c), c);
  }

  lemma DrainIs<C(!new)>(w: World<C>, c: C)
    requires Known(w, c)
    ensures DrainStep(w, c) == Destroy(Noted(w, c, w.refs[c].(reg := Absent, closed := w.refs[c].closed + 1)), c)
  {
  }

  lemma DrainStepKeeps<C(!new)>(w: World<C>, c: C)
    requires Good(w) && Enabled(w, Drain(c))
    ensures Good(DrainStep(w, c))
  {
    var r := w.refs[c].(reg := Absent, closed := w.refs[c].closed + 1);
    assert Releases(w.objs.conns[c], w.refs[c], r);
    hide *;
    OneComesFree(w, c, r);
    DestroyRestores(Noted(w, c, r), c);
    assert DrainStep(w, c) == Destroy(Noted(w, c, r), c) by {
      DrainIs(w, c);
    }
  }

  lemma TrimStepKeeps<C(!new)>(w: World<C>)
    requires Good(w) && Enabled(w, Trim)
    ensures Good(TrimStep(w))
  {
    TrimKeepsStored(w.objs);
    hide Tidy, Stored;
  }

  lemma StepKeepsGood<C(!new)>(w: World<C>, a: Step<C>)
    requires Good(w) && Enabled(w, a)
    ensures Good(Apply(w, a))
  {
    match a
    case Open(made, fd, queued) => OpenStepKeeps(w, made, fd, false, queued);
    case Hold(made, fd, kept) => OpenStepKeeps(w, made, fd, true, kept);
    case Connect(c, added, closes) => ConnectStepKeeps(w, c, added, closes);
    case Event(c, read, error, queued) => EventStepKeeps(w, c, read, error, queued);
    case Input(c, closes, eof) => InputStepKeeps(w, c, closes, eof);
    case Drain(c) => DrainStepKeeps(w, c);
    case Close(c) => ShutKeeps(w, c, 0); NearlyIsGood(Shut(w, c), c);
    case Stop =>
    case Trim => TrimStepKeeps(w);
  }

  lemma {:induction false} RunKeepsGood<C(!new)>(w: World<C>, run: seq<Step<C>>, v: World<C>)
    requires Good(w) && Runs(w, run, v)
    ensures Good(v)
    decreases |run|
  {
    if run != [] {
      StepKeepsGood(w, run[0]);
      RunKeepsGood(Apply(w, run[0]), run[1..], v);
    }
  }

  // In every run: each object is either live or pooled, and the two counters say
  // how many there are. A live one counts exactly the references that are out; a
  // pooled one has none, was recycled as often as it was opened, and was told of
  // the end of each of its registrations.
  lemma EveryRun<C(!new)>(run: seq<Step<C>>, w: World<C>)
    requires Runs(Start(), run, w)
    ensures w.objs.count == |w.objs.live| && w.objs.tick == w.objs.count + |w.objs.pool|
    ensures forall c | c in w.refs :: c in w.objs.conns && (c in w.objs.live <==> c !in w.objs.pool)
    ensures forall c | c in w.refs && c in w.objs.live ::
      0 < w.objs.conns[c].count == Owed(w.refs[c]) && w.refs[c].uses == w.refs[c].recycled + 1
    ensures forall c | c in w.refs && c in w.objs.pool ::
      Owed(w.refs[c]) == 0 && w.refs[c].uses == w.refs[c].recycled && w.refs[c].registered == w.refs[c].closed
  {
    RunKeepsGood(Start(), run, w);
  }

  // The connection a callback works on.
  predicate Touches<C(==)>(a: Step<C>, c: C) {
    (a.Connect? || a.Event? || a.Input? || a.Drain?) && a.c == c
  }

  lemma TouchKeepsUses<C(!new)>(w: World<C>, a: Step<C>, c: C)
    requires Good(w) && Enabled(w, a) && Touches(a, c)
    ensures Known(Apply(w, a), c) && Apply(w, a).refs[c].uses == w.refs[c].uses
  {
  }

  // No job and no event ever reaches a connection that has been recycled or
  // freed; and it is recycled by the very step that gives up its last reference.
  lemma NoLateStep<C(!new)>(w: World<C>, a: Step<C>, c: C)
    requires Good(w) && Enabled(w, a) && Touches(a, c)
    ensures c in w.objs.live && c !in w.objs.pool
    ensures var v := Apply(w, a);
      && Known(v, c)
      && (c in v.objs.pool <==> Owed(v.refs[c]) == 0)
      && v.refs[c].recycled == w.refs[c].recycled + if c in v.objs.pool then 1 else 0
  {
    assert Tidy(w.objs.conns[c], w.refs[c], c in w.objs.live, 0);
    StepKeepsGood(w, a);
    TouchKeepsUses(w, a, c);
    hide Apply, Enabled;
    var v := Apply(w, a);
    assert Tidy(v.objs.conns[c], v.refs[c], c in v.objs.live, 0);
  }

  // A live connection that nobody holds for good has a step to come.
  lemma NothingLeaks<C(!new)>(w: World<C>, c: C)
    requires Good(w) && c in w.objs.live && !w.refs[c].held
    ensures exists a: Step<C> :: Enabled(w, a) && Touches(a, c)
  {
    assert Tidy(w.objs.conns[c], w.refs[c], true, 0);
    var r := w.refs[c];
    var a := if r.connecting then Connect(c, true, false)
             else if r.inputs > 0 then Input(c, false, false)
             else Event(c, true, false, true);
    assert Enabled(w, a) && Touches(a, c);
  }

  // ------------------------------------------------------------ closed connections

  // A connection whose registration is deleted or gone.
  predicate Closing(r: Refs) {
    !r.connecting && r.reg != Active && !r.held
  }

  // The steps that release a reference of a closed connection.
  predicate Serves<C(==)>(a: Step<C>, c: C) {
    (a.Input? || a.Drain?) && a.c == c
  }

  function Served<C(==)>(run: seq<Step<C>>, c: C): nat {
    if run == [] then 0 else (if Serves(run[0], c) then 1 else 0) + Served(run[1..], c)
  }

  // Nothing about `c` is different.
  ghost predicate Same<C>(w: World<C>, v: World<C>, c: C) {
    Known(w, c) && Known(v, c) && v.objs.conns[c] == w.objs.conns[c] && v.refs[c] == w.refs[c]
    && (c in w.objs.live <==> c in v.objs.live)
  }

  lemma DestroySame<C(!new)>(w: World<C>, x: C, c: C)
    requires Known(w, x) && Known(w, c) && x != c && x in w.objs.live && Stored(w.objs)
    ensures Same(w, Destroy(w, x), c)
  {
    DestroyKeepsStored(w.objs, x);
    hide Stored;
  }

  lemma ShutSame<C(!new)>(w: World<C>, x: C, c: C)
    requires Known(w, x) && Known(w, c) && Stored(w.objs)
    requires x != c || !w.objs.conns[c].evloop
    ensures Same(w, Shut(w, x), c) && Stored(Shut(w, x).objs) && Shut(w, x).objs.live == w.objs.live
            && Known(Shut(w, x), x)
  {
  }

  lemma OrderSame<C(!new)>(w: World<C>, x: C, c: C, queued: bool)
    requires Nearly(w, x, 0) && Known(w, x) && Known(w, c) && x != c
    ensures Same(w, Ordered(w, x, queued), c)
  {
    var v := w.(objs := Referenced(w.objs, x));
    assert Same(w, v, c);
    assert Stored(v.objs);
    if !queued { DestroySame(v, x, c); }
  }

  lemma EnteredSame<C(!new)>(w: World<C>, made: C, fd: int, c: C)
    requires Good(w) && made !in w.objs.conns && c in w.objs.live && Known(w, c)
    ensures var (x, v) := Entered(w, made, fd); x != c && Same(w, v, c)
  {
    OpenKeepsStored(w.objs, made, fd);
    hide Tidy;
  }

  lemma OpenSame<C(!new)>(w: World<C>, made: C, fd: int, held: bool, ok: bool, c: C)
    requires Good(w) && made !in w.objs.conns && c in w.objs.live && Known(w, c)
    ensures Same(w, OpenStep(w, made, fd, held, ok), c)
  {
    EnteredNearly(w, made, fd);
    EnteredSame(w, made, fd, c);
    var (x, v) := Entered(w, made, fd);
    if !ok { DestroySame(v, x, c); }
    hide Good, Stored, Destroy, Entered, Tidy;
  }

  lemma ConnectSame<C(!new)>(w: World<C>, a: Step<C>, c: C)
    requires Good(w) && Enabled(w, a) && a.Connect? && a.c != c && Known(w, c)
    ensures Same(w, Apply(w, a), c)
  {
    GoodIsNearly(w, a.c);
    var r := w.refs[a.c].(connecting := false);
    var v := Noted(w, a.c, r);
    OneComesFree(w, a.c, r);
    DestroySame(v, a.c, c);
    hide Nearly, Good, Stored, Destroy, Tidy;
  }

  lemma EventSame<C(!new)>(w: World<C>, a: Step<C>, c: C)
    requires Good(w) && Enabled(w, a) && a.Event? && Known(w, c)
    requires a.c != c || !w.objs.conns[c].evloop
    ensures Same(w, Apply(w, a), c)
  {
    GoodIsNearly(w, a.c);
    if a.c != c {
      OrderSame(w, a.c, c, a.queued);
    }
    hide Nearly, Good, Stored, Destroy, Tidy, Ordered;
  }

  lemma InputSame<C(!new)>(w: World<C>, a: Step<C>, c: C)
    requires Good(w) && Enabled(w, a) && a.Input? && a.c != c && Known(w, c)
    ensures Same(w, Apply(w, a), c)
  {
    var r := w.refs[a.c].(inputs := w.refs[a.c].inputs - 1);
    var v := Noted(w, a.c, r);
    OneComesFree(w, a.c, r);
    DestroySame(v, a.c, c);
    ShutSame(v, a.c, c);
    DestroySame(Shut(v, a.c), a.c, c);
    hide Nearly, Good, Stored, Destroy, Tidy, Shut;
  }

  lemma DrainSame<C(!new)>(w: World<C>, a: Step<C>, c: C)
    requires Good(w) && Enabled(w, a) && a.Drain? && a.c != c && Known(w, c)
    ensures Same(w, Apply(w, a), c)
  {
    var r := w.refs[a.c].(reg := Absent, closed := w.refs[a.c].closed + 1);
    OneComesFree(w, a.c, r);
    DestroySame(Noted(w, a.c, r), a.c, c);
    hide Nearly, Good, Stored, Destroy, Tidy;
  }

  lemma TrimSame<C(!new)>(w: World<C>, c: C)
    requires Good(w) && w.objs.count > 0 && c in w.objs.live && Known(w, c)
    ensures Same(w, TrimStep(w), c)
  {
    TrimKeepsStored(w.objs);
  }

  // A step that does not serve a closed connection leaves it alone.
  lemma OtherStep<C(!new)>(w: World<C>, a: Step<C>, c: C)
    requires Good(w) && Enabled(w, a) && c in w.objs.live && Known(w, c) && Closing(w.refs[c]) && !Serves(a, c)
    ensures Same(w, Apply(w, a), c)
  {
    GoodIsNearly(w, c);
    assert !w.objs.conns[c].evloop;
    hide Nearly, Good, Stored, Tidy;
    match a
    case Open(made, fd, queued) => OpenSame(w, made, fd, false, queued, c);
    case Hold(made, fd, kept) => OpenSame(w, made, fd, true, kept, c);
    case Connect(x, added, closes) => ConnectSame(w, a, c);
    case Event(x, read, error, queued) => EventSame(w, a, c);
    case Input(x, closes, eof) => InputSame(w, a, c);
    case Drain(x) => DrainSame(w, a, c);
    case Close(x) => GoodIsNearly(w, x);
    case Stop =>
    case Trim => TrimSame(w, c);
  }

  lemma ServingStep<C(!new)>(w: World<C>, a: Step<C>, c: C)
    requires Good(w) && Enabled(w, a) && c in w.objs.live && Known(w, c) && Closing(w.refs[c]) && Serves(a, c)
    ensures var v := Apply(w, a);
      && Known(v, c)
      && (c in v.objs.live ==> Closing(v.refs[c]) && Owed(v.refs[c]) == w.objs.conns[c].count - 1)
      && (c !in v.objs.live ==> w.objs.conns[c].count == 1)
  {
    var r := if a.Input? then w.refs[c].(inputs := w.refs[c].inputs - 1)
             else w.refs[c].(reg := Absent, closed := w.refs[c].closed + 1);
    OneComesFree(w, c, r);
    ReleaseTidy(w.objs.conns[c], w.refs[c], r, true);
    DestroyRestores(Noted(w, c, r), c);
    assert !w.objs.conns[c].evloop;
    hide Nearly, Good, Stored, Destroy, Tidy;
  }

  lemma ClosingStep<C(!new)>(w: World<C>, a: Step<C>, c: C)
    requires Good(w) && Enabled(w, a) && c in w.objs.live && Closing(w.refs[c])
    ensures var (v, n) := (Apply(w, a), w.objs.conns[c].count - if Serves(a, c) then 1 else 0);
      && Known(v, c)
      && if n == 0 then c in v.objs.pool
         else c in v.objs.live && Closing(v.refs[c]) && v.objs.conns[c].count == n
  {
    GoodIsNearly(w, c);
    StepKeepsGood(w, a);
    var v := Apply(w, a);
    if Serves(a, c) { ServingStep(w, a, c); } else { OtherStep(w, a, c); }
    GoodIsNearly(v, c);
    assert c in v.objs.live || c in v.objs.pool;
    hide Apply, Enabled, Nearly, Stored;
  }

  lemma {:induction false} LastServes<C>(run: seq<Step<C>>, c: C)
    requires run != [] && Serves(run[|run| - 1], c)
    ensures Served(run, c) > 0
  {
    if |run| > 1 {
      LastServes(run[1..], c);
    }
  }

  // Whatever else goes on, a closed connection with `n` references stays live
  // for `n - 1` of its jobs and drains and is recycled by the `n`-th.
  lemma {:induction false} ClosedIsReleased<C(!new)>(w: World<C>, run: seq<Step<C>>, v: World<C>, c: C)
    requires Good(w) && Runs(w, run, v) && c in w.objs.live && Closing(w.refs[c])
    ensures Served(run, c) < w.objs.conns[c].count ==>
              c in v.objs.live && Known(v, c) && v.objs.conns[c].count == w.objs.conns[c].count - Served(run, c)
    ensures run != [] && Serves(run[|run| - 1], c) && Served(run, c) == w.objs.conns[c].count ==> c in v.objs.pool
    decreases |run|
  {
    hide Good, Nearly, Enabled, Apply, Closing, Serves, Tidy;
    GoodIsNearly(w, c);
    if run != [] {
      var a, rest := run[0], run[1..];
      var m := Apply(w, a);
      ClosingStep(w, a, c);
      StepKeepsGood(w, a);
      if rest != [] && Serves(run[|run| - 1], c) {
        LastServes(rest, c);
      }
      if w.objs.conns[c].count > 1 || !Serves(a, c) {
        ClosedIsReleased(m, rest, v, c);
      }
    }
  }
}
