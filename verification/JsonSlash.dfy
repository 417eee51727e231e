/** Strings that begin with a slash.  The decoder takes a slash that opens no comment for the
    start of a string without quotes, in a container even where no value is due: behind the
    finished text, and where the name of a member should stand. */
module JsonSlash {
  import opened JsonText
  import opened JsonMembers
  import opened JsonScan
  import opened JsonPasses
  import opened JsonVisits
  import opened JsonAgree

  /** One turn of a pass. */
  lemma Turn(first: bool, data: string, s: Scan, t: Scan)
    requires Inv(first, data, s) && Step(first, data, s) == Go(t)
    ensures Inv(first, data, t) && Run(first, data, s) == Run(first, data, t)
    ensures Visits(first, data, s) == Begun(s, t) + Visits(first, data, t)
  {
    hide Step;
    StepShrinks(first, data, s);
  }

  ghost function At(p: int, top: int, seek: bool, str: bool, comma: bool, done: bool, len: nat,
                    nodes: seq<Node>, alloc: nat): Scan {
    Scan(Ctl(p, str, false, str, false, false, done, comma, false, seek, len, top), NO_NUMBER, nodes, alloc)
  }

  lemma Begins(data: string)
    ensures Inv(true, data, Start([]))
  {
    StartInv(data, []);
  }

  // ---------------------------------------------------------------- behind the finished text

  const BEHIND := "[]/x "
  const ARRAY := Fresh(Array, -1)
  const STRAY := Fresh(Str, 0)

  lemma BehindOpens()
    ensures Inv(true, BEHIND, Start([])) && Inv(true, BEHIND, At(2, 0, false, false, true, true, 0, [ARRAY], 1))
    ensures Run(true, BEHIND, Start([])) == Run(true, BEHIND, At(2, 0, false, false, true, true, 0, [ARRAY], 1))
    ensures Visits(true, BEHIND, Start([]))
         == [Visit(0, false)] + Visits(true, BEHIND, At(2, 0, false, false, true, true, 0, [ARRAY], 1))
  {
    hide Inv, Run, Visits;
    Begins(BEHIND);
    var s1 := At(1, 0, true, false, false, false, 0, [ARRAY], 1);
    var s2 := At(2, 0, false, false, true, true, 0, [ARRAY], 1);
    assert Step(true, BEHIND, Start([])) == Go(s1);
    assert Step(true, BEHIND, s1) == Go(s2);
    Turn(true, BEHIND, Start([]), s1);
    Turn(true, BEHIND, s1, s2);
  }

  lemma BehindEnds()
    requires Inv(true, BEHIND, At(2, 0, false, false, true, true, 0, [ARRAY], 1))
    ensures Run(true, BEHIND, At(2, 0, false, false, true, true, 0, [ARRAY], 1)) == Accept([ARRAY, STRAY.(len := 2)])
    ensures Visits(true, BEHIND, At(2, 0, false, false, true, true, 0, [ARRAY], 1)) == [Visit(2, true)]
  {
    hide Inv;
    var s2 := At(2, 0, false, false, true, true, 0, [ARRAY], 1);
    var s3 := At(2, 1, false, true, true, true, 0, [ARRAY, STRAY], 2);
    var s4 := At(3, 1, false, true, true, true, 1, [ARRAY, STRAY], 2);
    var s5 := At(4, 1, false, true, true, true, 2, [ARRAY, STRAY], 2);
    var s6 := At(4, 1, false, false, true, true, 2, [ARRAY, STRAY.(len := 2)], 2);
    var s7 := At(5, 1, false, false, true, true, 2, [ARRAY, STRAY.(len := 2)], 2);
    assert Step(true, BEHIND, s2) == Go(s3);
    assert Step(true, BEHIND, s3) == Go(s4);
    assert Step(true, BEHIND, s4) == Go(s5);
    assert Step(true, BEHIND, s5) == Go(s6);
    assert Step(true, BEHIND, s6) == Go(s7);
    assert Step(true, BEHIND, s7) == Accept(s7.nodes);
    Turn(true, BEHIND, s2, s3);
    Turn(true, BEHIND, s3, s4);
    Turn(true, BEHIND, s4, s5);
    Turn(true, BEHIND, s5, s6);
    Turn(true, BEHIND, s6, s7);
  }

  /** An input: the string behind the array is read, and belongs to nothing. */
  lemma Behind()
    ensures Decoded(BEHIND).Accept?
    ensures var g := Decoded(BEHIND).nodes; |g| == 2 && g[1].parent == 0 && g[0].kind == Array && g[0].items == []
  {
    BehindOpens();
    BehindEnds();
    var f, visits := [ARRAY, STRAY.(len := 2)], [Visit(0, false), Visit(2, true)];
    assert SkipMark(BEHIND) == BEHIND;
    assert Run(true, BEHIND, Start([])) == Accept(f) && Visits(true, BEHIND, Start([])) == visits;
    hide Run, Visits;
    PassesAgree(BEHIND);
    assert Roomy(f);
    var g := Decoded(BEHIND).nodes;
    assert Filled(f[1], g[1], f[1], 0, true) && Filled(f[0], g[0], f[0], 0, true);
    assert HoldsChildren(Children(f, visits, 0), f[0], g[0]);
  }

  // ---------------------------------------------------------------- where a name should stand

  /** In an object that seeks no value the first pass begins a node exactly at such a slash. */
  lemma OnlyAtSlash(data: string, s: Scan)
    requires Inv(true, data, s) && TopIs(s, Object) && !s.c.seek && Step(true, data, s).Go?
    ensures |Step(true, data, s).s.nodes| > |s.nodes| <==>
            && !s.c.str && !s.c.line && !s.c.block && CharAt(data, s.c.p) == '/'
            && CharAt(data, s.c.p + 1) != '/' && CharAt(data, s.c.p + 1) != '*'
  {
    hide Family, StringStep, CommentStep, NameStep, CharAt;
    if s.c.str {
      KeptByString(data, s);
    } else if s.c.line || s.c.block {
      KeptByComment(data, s);
    } else if CharAt(data, s.c.p) == '/' {
      BegunBySlash(data, s);
    } else if !s.c.done {
      KeptByName(data, s);
    }
  }

  lemma KeptByString(data: string, s: Scan)
    requires TopIs(s, Object) && StringStep(true, data, s).Go?
    ensures |StringStep(true, data, s).s.nodes| == |s.nodes|
  {
    hide CharAt, Escaped, Ends;
  }

  lemma KeptByComment(data: string, s: Scan)
    requires CommentStep(data, s).Go?
    ensures CommentStep(data, s).s.nodes == s.nodes
  {
    hide CharAt;
    if s.c.line {
    } else if CharAt(data, s.c.p) == '*' {
    } else {
    }
  }

  lemma BegunBySlash(data: string, s: Scan)
    requires TopIs(s, Object) && SlashStep(true, data, s).Go?
    ensures |SlashStep(true, data, s).s.nodes| > |s.nodes| <==>
            CharAt(data, s.c.p + 1) != '/' && CharAt(data, s.c.p + 1) != '*'
  {
    hide CharAt;
    if CharAt(data, s.c.p + 1) == '/' {
    } else if CharAt(data, s.c.p + 1) == '*' {
    } else {
    }
  }

  lemma KeptByName(data: string, s: Scan)
    requires TopIs(s, Object) && Family(s.nodes) && !s.c.done && NameStep(true, data, s).Go?
    ensures |NameStep(true, data, s).s.nodes| == |s.nodes|
  {
    hide Family, Attach;
    if CharAt(data, s.c.p) == '}' { AttachMoves(s.(c := s.c.(comma := false, p := s.c.p + 1))); }
  }

  /** The value that follows a name is stored under it. */
  lemma ValueAfterName(n: Node, name: string, child: int)
    requires n.kind == Object && Increasing(n.members)
    ensures var m := n.(members := Named(n.members, name), index := Find(n.members, name));
            var r := Adopt(false, m, child);
            r.Some? && Increasing(r.value.members) && r.value.index == 0
            && AsMap(r.value.members) == AsMap(n.members)[Visible(name) := child]
  {
    NamedIsPlaced(n.members, name, child);
    PlacedIsUpdate(n.members, Member(name, child));
    PlacedIncreasing(n.members, Member(name, child));
    hide Named, Find, Placed, AsMap, Increasing;
  }

  /** Without a name it takes the place of the value with the smallest name, if there is any,
      and is lost if there is none. */
  lemma ValueWithoutName(n: Node, child: int)
    requires n.kind == Object && Increasing(n.members) && n.index == 0 && n.room > 0
    ensures var r := Adopt(false, n, child);
            r.Some? && Increasing(r.value.members) && r.value.index == 0
            && AsMap(r.value.members)
               == if n.members == [] then map[] else AsMap(n.members)[Visible(n.members[0].name) := child]
  {
    if n.members != [] {
      var r := Adopt(false, n, child).value.members;
      AsMapUpdate(n.members, 0, child);
      assert r == n.members[0 := Member(n.members[0].name, child)];
    }
  }

  const BESIDE := "{a:[]/x}"

  ghost function Colon(s: Scan): Scan { s.(c := s.c.(colon := true)) }

  const OBJECT := Fresh(Object, -1)
  const NAMED := OBJECT.(num := 2)
  const INNER := Fresh(Array, 0)
  const SLASH := Fresh(Str, 0)
  const MEASURED := [NAMED.(size := 2), INNER, SLASH.(len := 2)]

  lemma Turns(first: bool, data: string, run: seq<Scan>)
    requires run != [] && Inv(first, data, run[0])
    requires forall i | 0 <= i < |run| - 1 :: Step(first, data, run[i]) == Go(run[i + 1])
    ensures Inv(first, data, run[|run| - 1]) && Run(first, data, run[0]) == Run(first, data, run[|run| - 1])
  {
    hide Step, Inv;
    if |run| > 1 {
      Turn(first, data, run[0], run[1]);
      Turns(first, data, run[1..]);
    }
  }

  ghost function FirstHalf1(): seq<Scan> {
    [Start([]),
     At(1, 0, false, false, false, false, 0, [OBJECT], 1),
     At(1, 0, false, true, false, false, 0, [OBJECT], 1),
     At(2, 0, false, true, false, false, 1, [OBJECT], 1),
     Colon(At(2, 0, true, false, false, false, 1, [NAMED], 1)),
     At(3, 0, true, false, false, false, 1, [NAMED], 1),
     At(4, 1, true, false, false, false, 1, [NAMED, INNER], 2),
     At(5, 0, false, false, true, false, 1, [NAMED.(size := 1), INNER], 2)]
  }

  ghost function SecondHalf1(): seq<Scan> {
    [At(5, 0, false, false, true, false, 1, [NAMED.(size := 1), INNER], 2),
     At(5, 2, false, true, true, false, 0, [NAMED.(size := 1), INNER, SLASH], 3),
     At(6, 2, false, true, true, false, 1, [NAMED.(size := 1), INNER, SLASH], 3),
     At(7, 2, false, true, true, false, 2, [NAMED.(size := 1), INNER, SLASH], 3),
     At(7, 0, false, false, true, false, 2, MEASURED, 3),
     At(8, 0, false, false, true, true, 2, MEASURED, 3)]
  }

  lemma FirstHalf()
    ensures var run := FirstHalf1();
      forall i | 0 <= i < |run| - 1 :: Step(true, BESIDE, run[i]) == Go(run[i + 1])
  {
    var run := FirstHalf1();
    assert Step(true, BESIDE, run[0]) == Go(run[1]);
    assert Step(true, BESIDE, run[1]) == Go(run[2]);
    assert Step(true, BESIDE, run[2]) == Go(run[3]);
    assert Step(true, BESIDE, run[3]) == Go(run[4]);
    assert Step(true, BESIDE, run[4]) == Go(run[5]);
    assert Step(true, BESIDE, run[5]) == Go(run[6]);
    assert Step(true, BESIDE, run[6]) == Go(run[7]);
  }

  lemma SecondHalf()
    ensures var run := SecondHalf1();
      && (forall i | 0 <= i < |run| - 1 :: Step(true, BESIDE, run[i]) == Go(run[i + 1]))
      && Step(true, BESIDE, run[|run| - 1]) == Accept(MEASURED)
  {
    var run := SecondHalf1();
    assert Step(true, BESIDE, run[0]) == Go(run[1]);
    assert Step(true, BESIDE, run[1]) == Go(run[2]);
    assert Step(true, BESIDE, run[2]) == Go(run[3]);
    assert Step(true, BESIDE, run[3]) == Go(run[4]);
    assert Step(true, BESIDE, run[4]) == Go(run[5]);
  }

  // The object in the second pass: taken, with the name, and with its first value.
  const TAKEN := NAMED.(size := 2, room := 3, area := "\0\0")
  const WRITTEN := TAKEN.(area := "a\0")
  const OPEN := WRITTEN.(used := 2, index := 0, members := [Member("a", -1)])
  const HELD := OPEN.(members := [Member("a", 1)], size := 3)
  const TEXT := SLASH.(text := "\0\0\0", len := 0)

  ghost function FirstHalf2(): seq<Scan> {
    var (a, s) := (INNER, SLASH.(len := 2));
    [Start(MEASURED),
     At(1, 0, false, false, false, false, 0, [TAKEN, a, s], 1),
     At(1, 0, false, true, false, false, 0, [TAKEN, a, s], 1),
     At(2, 0, false, true, false, false, 1, [WRITTEN, a, s], 1),
     Colon(At(2, 0, true, false, false, false, 1, [OPEN, a, s], 1)),
     At(3, 0, true, false, false, false, 1, [OPEN, a, s], 1),
     At(4, 1, true, false, false, false, 1, [OPEN, a, s], 2),
     At(5, 0, false, false, true, false, 1, [HELD, a, s], 2)]
  }

  ghost function SecondHalf2(): seq<Scan> {
    var (a, s) := (INNER, SLASH.(len := 2));
    var last := [HELD.(members := [Member("a", 2)], size := 4), a, s.(text := "/x\0")];
    [At(5, 0, false, false, true, false, 1, [HELD, a, s], 2),
     At(5, 2, false, true, true, false, 0, [HELD, a, TEXT], 3),
     At(6, 2, false, true, true, false, 1, [HELD, a, TEXT.(text := "/\0\0")], 3),
     At(7, 2, false, true, true, false, 2, [HELD, a, TEXT.(text := "/x\0")], 3),
     At(7, 0, false, false, true, false, 2, last, 3),
     At(8, 0, false, false, true, true, 2, last, 3)]
  }

  lemma Names()
    ensures Zeros(2) == "\0\0" && Zeros(3) == "\0\0\0" && Overwrite("\0\0", 0, "a") == "a\0"
    ensures "a\0"[1 := '\0'] == "a\0" && "a\0"[0..1] == "a" && Named([], "a") == [Member("a", -1)]
    ensures Overwrite("\0\0\0", 0, "/") == "/\0\0" && Overwrite("/\0\0", 1, "x") == "/x\0"
    ensures "/x\0"[2 := '\0'] == "/x\0"
    ensures [Member("a", -1)][0 := Member("a", 1)] == [Member("a", 1)]
    ensures [Member("a", 1)][0 := Member("a", 2)] == [Member("a", 2)]
  {
  }

  lemma BeginsAgain()
    ensures Inv(false, BESIDE, Start(MEASURED))
  {
  }

  lemma FirstHalfAgain()
    ensures var run := FirstHalf2();
      forall i | 0 <= i < |run| - 1 :: Step(false, BESIDE, run[i]) == Go(run[i + 1])
  {
    Names();
    hide Zeros, Overwrite, Named;
    var run := FirstHalf2();
    assert Step(false, BESIDE, run[0]) == Go(run[1]);
    assert Step(false, BESIDE, run[1]) == Go(run[2]);
    assert Step(false, BESIDE, run[2]) == Go(run[3]);
    assert Step(false, BESIDE, run[3]) == Go(run[4]);
    assert Step(false, BESIDE, run[4]) == Go(run[5]);
    assert Step(false, BESIDE, run[5]) == Go(run[6]);
    assert Step(false, BESIDE, run[6]) == Go(run[7]);
  }

  lemma SecondHalfAgain()
    ensures var run := SecondHalf2();
      && (forall i | 0 <= i < |run| - 1 :: Step(false, BESIDE, run[i]) == Go(run[i + 1]))
      && Step(false, BESIDE, run[|run| - 1]) == Accept(run[|run| - 1].nodes)
  {
    Names();
    hide Zeros, Overwrite, Named;
    var run := SecondHalf2();
    assert Step(false, BESIDE, run[0]) == Go(run[1]);
    assert Step(false, BESIDE, run[1]) == Go(run[2]);
    assert Step(false, BESIDE, run[2]) == Go(run[3]);
    assert Step(false, BESIDE, run[3]) == Go(run[4]);
    assert Step(false, BESIDE, run[4]) == Go(run[5]);
  }

  /** An input: the array that follows the name `a` is lost, and `a` is the string. */
  lemma Beside()
    ensures Decoded(BESIDE).Accept?
    ensures var g := Decoded(BESIDE).nodes;
            |g| == 3 && g[0].members == [Member("a", 2)] && g[1].kind == Array && g[2].text == "/x\0"
  {
    FirstHalf();
    SecondHalf();
    FirstHalfAgain();
    SecondHalfAgain();
    hide Step, Inv;
    Begins(BESIDE);
    BeginsAgain();
    Turns(true, BESIDE, FirstHalf1());
    Turns(true, BESIDE, SecondHalf1());
    RunAccepts(true, BESIDE, Start([]));
    Turns(false, BESIDE, FirstHalf2());
    Turns(false, BESIDE, SecondHalf2());
  }
}
