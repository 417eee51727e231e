/**
  The connections of the server. A connection object is shared by the job that
  connects it, by its registration with the event loop of some worker and by any
  number of input jobs; it counts these references and, when the last is gone,
  moves from the list of live connections to a stack of objects to be reused,
  which is trimmed from time to time.
*/
module Server {
  import opened Roster
  import opened Wrappers

  // ------------------------------------------------------------ the objects

  // `evloop` tells whether the pointer to the registration is set.
  datatype Conn = Conn(count: nat, fd: int, evloop: bool)

  // `tick` counts the objects that exist, `count` those in use.
  datatype Objects<!C(==)> = Objects(live: seq<C>, pool: seq<C>, conns: map<C, Conn>, count: int, tick: int)

  // The object that `open` hands out: a pooled one or else the new one.
  function Opened<C>(o: Objects<C>, made: C, fd: int): (r: (C, Objects<C>)) {
    if o.pool == [] then
      (made, Objects([made] + o.live, [], o.conns[made := Conn(1, fd, false)], o.count + 1, o.tick + 1))
    else
      (o.pool[0], Objects([o.pool[0]] + o.live, o.pool[1..], o.conns[o.pool[0] := Conn(1, fd, false)], o.count + 1,
        o.tick))
  }

  ghost function Minus<C>(s: seq<C>, c: C): seq<C> {
    if c in s then Without(s, IndexOf(s, c)) else s
  }

  // One reference less; the last one recycles the object.
  ghost function Destroyed<C>(o: Objects<C>, c: C): Objects<C>
    requires c in o.conns
  {
    var left := if o.conns[c].count > 0 then o.conns[c].count - 1 else 0;
    if left > 0 then
      o.(conns := o.conns[c := o.conns[c].(count := left)])
    else
      Objects(Minus(o.live, c), [c] + o.pool, o.conns[c := Conn(0, 0, false)], o.count - 1, o.tick)
  }

  function Referenced<C>(o: Objects<C>, c: C): Objects<C>
    requires c in o.conns
  {
    o.(conns := o.conns[c := o.conns[c].(count := o.conns[c].count + 1)])
  }

  function Detached<C>(o: Objects<C>, c: C): Objects<C>
    requires c in o.conns
  {
    o.(conns := o.conns[c := o.conns[c].(evloop := false)])
  }

  function Attached<C>(o: Objects<C>, c: C): Objects<C>
    requires c in o.conns
  {
    o.(conns := o.conns[c := o.conns[c].(evloop := true)])
  }

  // No more pooled objects than live ones; the oldest are kept.
  function Trimmed<C>(o: Objects<C>): Objects<C>
    requires o.count >= 0
  {
    if o.tick <= 2 * o.count || |o.pool| <= o.count then o
    else
      var pool := o.pool[|o.pool| - o.count..];
      o.(pool := pool, tick := o.tick - (|o.pool| - o.count),
         conns := map c | c in o.conns && c !in o.pool[..|o.pool| - o.count] :: o.conns[c])
  }

  ghost predicate Stored<C>(o: Objects<C>) {
    && Distinct(o.live) && Distinct(o.pool)
    && (forall i | 0 <= i < |o.live| :: o.live[i] in o.conns && o.live[i] !in o.pool)
    && (forall i | 0 <= i < |o.pool| :: o.pool[i] in o.conns)
    && (forall c | c in o.conns :: c in o.live || c in o.pool)
    && o.count == |o.live| && o.tick == |o.live| + |o.pool|
  }

  lemma OpenKeepsStored<C>(o: Objects<C>, made: C, fd: int)
    requires Stored(o) && (o.pool == [] ==> made !in o.conns)
    ensures Stored(Opened(o, made, fd).1)
  {
  }

  lemma OpenedIs<C>(o: Objects<C>, v: Objects<C>, c: C, fd: int)
    requires Stored(o) && v.live == [c] + o.live && v.count == o.count + 1
    requires v.conns == o.conns[c := Conn(1, fd, false)]
    requires if o.pool == [] then v.pool == [] && v.tick == o.tick + 1 && c !in o.conns
             else [c] + v.pool == o.pool && v.tick == o.tick
    ensures (c, v) == Opened(o, c, fd) && Stored(v)
  {
    OpenKeepsStored(o, c, fd);
    if o.pool != [] { assert v.pool == o.pool[1..]; }
  }

  lemma DestroyKeepsStored<C>(o: Objects<C>, c: C)
    requires Stored(o) && c in o.live
    ensures Stored(Destroyed(o, c))
    ensures c in Destroyed(o, c).live <==> o.conns[c].count > 1
    ensures forall x | x != c ::
            (x in Destroyed(o, c).live <==> x in o.live) && (x in Destroyed(o, c).pool <==> x in o.pool)
  {
    DistinctWithout(o.live, IndexOf(o.live, c));
  }

  lemma StoredApart<C>(o: Objects<C>)
    requires Stored(o)
    ensures o.count == |o.live| && o.tick == |o.live| + |o.pool|
    ensures forall i | 0 <= i < |o.live| :: o.live[i] !in o.pool
  {
  }

  lemma NotLive<C>(o: Objects<C>)
    requires Stored(o) && o.pool != []
    ensures o.pool[0] !in o.live && o.pool[0] !in o.pool[1..]
  {
  }

  lemma TrimmedIs<C>(o: Objects<C>, v: Objects<C>)
    requires Stored(o) && v.live == o.live && v.count == o.count
    requires var n := if |o.pool| <= o.count then |o.pool| else o.count;
      v.tick == o.count + n && v.pool == o.pool[|o.pool| - n..]
    requires v.conns == map c | c in o.conns && c !in o.pool[..|o.pool| - |v.pool|] :: o.conns[c]
    ensures v == Trimmed(o)
  {
    if |o.pool| <= o.count { assert v.conns == o.conns; }
  }

  lemma TrimKeepsStored<C>(o: Objects<C>)
    requires Stored(o)
    ensures Stored(Trimmed(o)) && Trimmed(o).live == o.live
    ensures |Trimmed(o).pool| <= o.count
    ensures forall c | c in Trimmed(o).conns :: c in o.conns && Trimmed(o).conns[c] == o.conns[c]
  {
  }

  // ------------------------------------------------------------ the objects on the heap

  ghost function Conns(nodes: seq<Node<Conn>>): (conns: map<Node<Conn>, Conn>)
    reads nodes`it
  {
    map x | x in nodes :: x.it
  }

  // The map does not depend on the order of the lists.
  lemma ConnsOfSame(a: seq<Node<Conn>>, b: seq<Node<Conn>>)
    requires forall x :: x in a <==> x in b
    ensures Conns(a) == Conns(b)
  {
  }

  lemma ConnsAt(nodes: seq<Node<Conn>>, c: Node<Conn>)
    requires c in nodes
    ensures c in Conns(nodes) && Conns(nodes)[c] == c.it
  {
  }

  lemma ConnsLacks(nodes: seq<Node<Conn>>, c: Node<Conn>)
    requires c !in nodes
    ensures c !in Conns(nodes)
  {
  }

  lemma TrimKeepsConns(live: seq<Node<Conn>>, pool: seq<Node<Conn>>, kept: seq<Node<Conn>>)
    requires |kept| <= |pool| && kept == pool[|pool| - |kept|..]
    requires Distinct(pool) && forall i | 0 <= i < |live| :: live[i] !in pool
    ensures Conns(live + kept)
      == map c | c in Conns(live + pool) && c !in pool[..|pool| - |kept|] :: Conns(live + pool)[c]
  {
    var gone := pool[..|pool| - |kept|];
    assert pool == gone + kept;
  }

  method SetConn(c: Node<Conn>, conn: Conn, ghost nodes: seq<Node<Conn>>)
    modifies c`it
    ensures c.it == conn
    ensures Conns([c] + nodes) == old(Conns(nodes))[c := conn]
    ensures c in nodes ==> Conns(nodes) == old(Conns(nodes))[c := conn]
  {
    c.it := conn;
  }

  class Server {
    const root: Root<Conn>
    var tick: nat

    ghost function View(): Objects<Node<Conn>>
      reads this, root, root.live`it, root.stack`it
    {
      Objects(root.live, root.stack, Conns(root.live + root.stack), root.count, tick)
    }

    ghost predicate Valid()
      reads this, root, root.live, root.stack
    {
      root.Valid() && Stored(View())
    }

    constructor ()
      ensures Valid() && fresh(root) && View() == Objects([], [], map[], 0, 0)
    {
      root := new Root();
      tick := 0;
    }

    // A pooled object or a new one.
    method Take(fd: int) returns (c: Node<Conn>)
      requires Valid()
      modifies this`tick, root`heap, root`stack, root.stack`it
      ensures root.Valid() && c !in root.live && c !in root.stack && c.it == Conn(1, fd, false)
      ensures if old(root.stack) == [] then fresh(c) && root.stack == [] && tick == old(tick) + 1
              else [c] + root.stack == old(root.stack) && tick == old(tick)
      ensures old(root.stack) == [] ==> c !in old(Conns(root.live + root.stack))
      ensures Conns([c] + root.live + root.stack) == old(Conns(root.live + root.stack))[c := Conn(1, fd, false)]
    {
      hide Chained, Stacked, Conns, Stored, Distinct;
      ghost var nodes := root.live + root.stack;
      if root.stack != [] { NotLive(View()); }
      var top := root.Pop();
      if top != null {
        c := top;
      } else {
        c := new Node(Conn(0, 0, false));
        ConnsLacks(nodes, c);
        tick := tick + 1;
      }
      SetConn(c, Conn(1, fd, false), nodes);
      ConnsOfSame([c] + nodes, [c] + root.live + root.stack);
    }

    // An object with one reference.
    method Open(fd: int) returns (c: Node<Conn>)
      requires Valid()
      modifies this, root, root.live, root.stack
      ensures Valid()
      ensures old(root.stack) == [] ==> fresh(c)
      ensures (c, View()) == Opened(old(View()), c, fd)
    {
      hide Distinct, Chained, Stacked, Conns, Stored, Opened;
      c := Take(fd);
      root.Add(c);
      OpenedIs(old(View()), View(), c, fd);
    }

    // The object goes from the live list to the pool.
    method Recycle(c: Node<Conn>)
      requires root.Valid() && c in root.live && c !in root.stack
      modifies root, root.live, c
      ensures root.Valid()
      ensures root.live == Minus(old(root.live), c) && root.stack == [c] + old(root.stack)
      ensures root.count == old(root.count) - 1
      ensures Conns(root.live + root.stack) == old(Conns(root.live + root.stack))[c := Conn(0, 0, false)]
    {
      hide Distinct, Chained, Stacked, Conns;
      ghost var live, nodes := root.live, root.live + root.stack;
      DistinctWithout(live, IndexOf(live, c));
      root.Remove(c);
      SetConn(c, Conn(0, 0, false), nodes);
      root.Push(c);
      ConnsOfSame(nodes, root.live + root.stack);
    }

    // One reference less; the last one recycles the object.
    method Destroy(c: Node<Conn>)
      requires Valid() && c in root.live
      modifies root, root.live
      ensures Valid()
      ensures View() == Destroyed(old(View()), c)
    {
      hide Distinct, Chained, Stacked, Conns, Minus, Stored;
      ghost var nodes := root.live + root.stack;
      ConnsAt(nodes, c);
      StoredApart(View());
      var left := if c.it.count > 0 then c.it.count - 1 else 0;
      SetConn(c, c.it.(count := left), nodes);
      if left == 0 {
        Recycle(c);
      }
      assert View() == Destroyed(old(View()), c);
      DestroyKeepsStored(old(View()), c);
    }

    method TrimPool()
      requires root.Valid() && tick == root.count + |root.stack|
      modifies this`tick, root`heap, root`stack
      ensures root.Valid()
      ensures var n := if |old(root.stack)| <= root.count then |old(root.stack)| else root.count;
        tick == root.count + n && root.stack == old(root.stack)[|old(root.stack)| - n..]
    {
      hide Distinct, Chained, Stacked;
      ghost var pool := root.stack;
      while tick > root.count * 2
        invariant root.Valid() && tick == root.count + |root.stack| && |root.stack| <= |pool|
        invariant |root.stack| >= root.count || root.stack == pool
        invariant root.stack == pool[|pool| - |root.stack|..]
        decreases tick
      {
        var self := root.Pop();
        if self != null {
          tick := tick - 1;
        }
      }
    }

    // Frees pooled objects until there are no more of them than live ones.
    method Trim()
      requires Valid()
      modifies this`tick, root`heap, root`stack
      ensures Valid()
      ensures View() == Trimmed(old(View()))
    {
      hide Distinct, Chained, Stacked, Conns, Trimmed, Stored;
      ghost var pool := root.stack;
      StoredApart(View());
      TrimKeepsStored(View());
      TrimPool();
      TrimKeepsConns(root.live, pool, root.stack);
      TrimmedIs(old(View()), View());
    }
  }
}
