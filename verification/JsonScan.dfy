/** One turn of the decoder's loop, for both of its passes.

    The first pass allocates a node for every value and measures it; the second walks the
    text again, takes the nodes in the order of their allocation and fills them.  A node is
    known by its place in that order. */
module JsonScan {
  import opened JsonText
  import opened Wrappers
  import opened JsonMembers

  /** `size` counts members or elements, `num` the bytes of all names with their NULs, `len`
      the bytes of a string: the measures of the first pass.  `room`, `text` and `area` are
      the memory the second pass takes for that many, `used` is how much of `area` is taken,
      `index` the member whose value is awaited.  The value of a member is a node, -1 until
      it is known. */
  datatype Node = Node(kind: Kind, parent: int, bval: bool, ival: int, len: nat, size: nat, num: nat,
                       room: nat, text: string, area: string, used: nat, index: nat,
                       items: seq<int>, members: seq<Member<int>>)

  function Fresh(kind: Kind, parent: int): Node {
    Node(kind, parent, false, 0, 0, 0, 0, 0, "", "", 0, 0, [], [])
  }

  function Zeros(n: nat): (s: string)
    ensures |s| == n
  {
    seq(n, _ => '\0')
  }

  /** The second pass takes memory for what the first one measured. */
  function Prepared(n: Node): Node {
    match n.kind
    case Object => if n.size == 0 then n
      else n.(room := n.size + 1, area := Zeros(n.num), used := 0, index := 0, members := [])
    case Array => if n.size == 0 then n else n.(room := n.size, items := [])
    case Str => n.(text := Zeros(n.len + 1), len := 0)
    case _ => n
  }

  /** Where the scanner is and what it expects. */
  datatype Ctl = Ctl(p: int, str: bool, esc: bool, quote: bool, line: bool, block: bool,
                     done: bool, comma: bool, colon: bool, seek: bool, len: nat, top: int)

  /** The number being read: where it starts and what was seen of it. */
  datatype Num = Num(start: int, digits: nat, zero: bool, exp: bool, sign: bool)

  datatype Scan = Scan(c: Ctl, num: Num, nodes: seq<Node>, alloc: nat)

  /** `Fault` is a step outside the memory that was taken, or outside the text. */
  datatype Outcome = Go(s: Scan) | Accept(nodes: seq<Node>) | Reject | Fault

  const NO_NUMBER := Num(0, 0, false, false, false)

  function Start(nodes: seq<Node>): Scan {
    Scan(Ctl(0, false, false, false, false, false, false, false, false, true, 0, -1), NO_NUMBER, nodes, 0)
  }

  predicate HasTop(s: Scan) { 0 <= s.c.top < |s.nodes| }

  predicate TopIs(s: Scan, kind: Kind) { HasTop(s) && s.nodes[s.c.top].kind == kind }

  predicate InContainer(s: Scan) { TopIs(s, Array) || TopIs(s, Object) }

  function SetTop(s: Scan, n: Node): Scan
    requires HasTop(s)
  {
    s.(nodes := s.nodes[s.c.top := n])
  }

  function Move(s: Scan, p: int): Scan { s.(c := s.c.(p := p)) }

  // ---------------------------------------------------------------- what differs between the passes

  /** A value begins. */
  function New(first: bool, s: Scan, kind: Kind): Outcome {
    if first then
      Go(Scan(s.c.(top := |s.nodes|), s.num, s.nodes + [Fresh(kind, s.c.top)], |s.nodes| + 1))
    else if s.alloc < |s.nodes| then
      Go(Scan(s.c.(top := s.alloc), s.num, s.nodes[s.alloc := Prepared(s.nodes[s.alloc])], s.alloc + 1))
    else Fault
  }

  /** Overwrites part of a buffer. */
  function Overwrite(buffer: string, at: nat, text: string): (r: string)
    requires at + |text| <= |buffer|
    ensures |r| == |buffer|
  {
    buffer[..at] + text + buffer[at + |text|..]
  }

  /** The bytes `text` go behind those read of the current string or name. */
  function Put(first: bool, s: Scan, text: string): Outcome
    requires HasTop(s)
  {
    var t := s.(c := s.c.(len := s.c.len + |text|));
    var n := s.nodes[s.c.top];
    if first then Go(t)
    else if n.kind == Object then
      if n.used + s.c.len + |text| <= |n.area|
        then Go(SetTop(t, n.(area := Overwrite(n.area, n.used + s.c.len, text)))) else Fault
    else
      if s.c.len + |text| <= |n.text| then Go(SetTop(t, n.(text := Overwrite(n.text, s.c.len, text)))) else Fault
  }

  /** The members after a name was looked up or made room for. */
  function Named(members: seq<Member<int>>, name: string): seq<Member<int>> {
    var i := Find(members, name);
    if Has(members, name) then members[i := members[i].(name := name)] else Insert(members, Member(name, -1))
  }

  /** With its value the member of a name is placed. */
  lemma NamedIsPlaced(members: seq<Member<int>>, name: string, id: int)
    ensures var m, i := Named(members, name), Find(members, name);
            i < |m| && m[i := m[i].(value := id)] == Placed(members, Member(name, id))
  {
    hide Find;
  }

  /** A name ends. */
  function EndName(first: bool, s: Scan): Outcome
    requires HasTop(s)
  {
    var n := s.nodes[s.c.top];
    var t := s.(c := s.c.(seek := true, colon := true));
    if first then Go(SetTop(t, n.(num := n.num + s.c.len + 1)))
    else if n.used + s.c.len < |n.area| then
      var area := n.area[n.used + s.c.len := '\0'];
      var name := n.area[n.used..n.used + s.c.len];
      var members := Named(n.members, name);
      if |members| < n.room then
        Go(SetTop(t, n.(area := area, used := n.used + s.c.len + 1, index := Find(n.members, name),
          members := members)))
      else Fault
    else Fault
  }

  /** A string value ends. */
  function EndStr(first: bool, s: Scan): Outcome
    requires HasTop(s)
  {
    var n := s.nodes[s.c.top].(len := s.c.len);
    if first then Go(SetTop(s, n))
    else if s.c.len < |n.text| then Go(SetTop(s, n.(text := n.text[s.c.len := '\0']))) else Fault
  }

  /** The parent takes a finished value. */
  function Adopt(first: bool, n: Node, child: int): Option<Node> {
    if first then Some(n.(size := n.size + 1))
    else match n.kind
      case Object =>
        if n.index < |n.members| then
          Some(n.(members := n.members[n.index := n.members[n.index].(value := child)], index := 0, size := n.size + 1))
        else if n.index < n.room then Some(n.(index := 0, size := n.size + 1))
        else None
      case Array => if |n.items| < n.room then Some(n.(items := n.items + [child], size := n.size + 1)) else None
      case _ => Some(n.(size := n.size + 1))
  }

  /** A value ends: its parent takes it, or the whole text is done. */
  function Attach(first: bool, s: Scan): Outcome
    requires HasTop(s)
  {
    var parent := s.nodes[s.c.top].parent;
    var t := s.(c := s.c.(comma := true));
    if !(0 <= parent < |s.nodes|) then Go(t.(c := t.c.(done := true)))
    else
      match Adopt(first, s.nodes[parent], s.c.top)
      case None => Fault
      case Some(n) =>
        if n.size > MAX_SIZE then Reject
        else Go(t.(c := t.c.(seek := t.c.seek || n.kind == Array, top := parent), nodes := s.nodes[parent := n]))
  }

  // ---------------------------------------------------------------- strings

  /** The rest of a string without quotes begins at the current character. */
  function Bare(s: Scan): Scan { s.(c := s.c.(str := true, quote := true, len := 0)) }

  function NewBare(first: bool, s: Scan): Outcome {
    match New(first, s, Str)
    case Go(t) => Go(Bare(t))
    case o => o
  }

  /** A character that ends a string without quotes. */
  predicate Ends(s: Scan, b: char) {
    Space(b) || b == ',' || b == ']' || b == '}' || (b == ':' && TopIs(s, Object))
  }

  function StringStep(first: bool, data: string, s: Scan): Outcome
    requires HasTop(s)
  {
    var b, p := CharAt(data, s.c.p), s.c.p;
    if b == '\0' || s.c.len > MAX_SIZE then Reject
    else if s.c.esc then
      match Escaped(data, p)
      case Bad => Reject
      case Escape(end, text) => Put(first, Move(s, end + 1).(c := s.c.(esc := false, p := end + 1)), text)
    else if b == '\\' then Go(s.(c := s.c.(esc := true, p := p + 1)))
    else if s.c.quote && b == '"' then Reject
    else if b == '"' then StringEnd(first, s.(c := s.c.(str := false, p := p + 1)), b)
    else if s.c.quote && Ends(s, b) then StringEnd(first, s.(c := s.c.(str := false, quote := false)), b)
    else Put(first, Move(s, p + 1), [b])
  }

  /** A string ended at `b`; behind a finished text only white space may follow. */
  function StringEnd(first: bool, s: Scan, b: char): Outcome
    requires HasTop(s)
  {
    if TopIs(s, Object) then EndName(first, s)
    else
      match EndStr(first, s)
      case Go(t) => if !s.c.done then Attach(first, t) else if Space(b) then Go(t) else Reject
      case o => o
  }

  // ---------------------------------------------------------------- comments, the end

  function CommentStep(data: string, s: Scan): Outcome {
    if s.c.line then LineStep(data, s) else BlockStep(data, s)
  }

  /** Within a comment or not, at the place `p`. */
  function CommentAt(s: Scan, p: int, line: bool, block: bool): (t: Scan)
    ensures t.c.p == p
  {
    s.(c := s.c.(p := p, line := line, block := block))
  }

  function LineStep(data: string, s: Scan): Outcome {
    var b, p := CharAt(data, s.c.p), s.c.p;
    if b == '\r' || b == '\n' || b == '\0' then Go(CommentAt(s, p, false, s.c.block))
    else Go(CommentAt(s, p + 1, s.c.line, s.c.block))
  }

  function BlockStep(data: string, s: Scan): Outcome {
    var b, p := CharAt(data, s.c.p), s.c.p;
    if b == '\0' then Reject
    else if b == '*' && CharAt(data, p + 1) == '/' then Go(CommentAt(s, p + 2, s.c.line, false))
    else Go(CommentAt(s, p + 1, s.c.line, s.c.block))
  }

  /** A slash opens a comment, or a string without quotes inside a container. */
  function SlashStep(first: bool, data: string, s: Scan): Outcome {
    var p := s.c.p;
    if !(s.c.seek || s.c.done) && !TopIs(s, Object) then Reject
    else if p + 1 >= |data| then Reject
    else if CharAt(data, p + 1) == '/' then Go(CommentAt(s, p + 2, true, s.c.block))
    else if CharAt(data, p + 1) == '*' then Go(CommentAt(s, p + 2, s.c.line, true))
    else if InContainer(s) then NewBare(first, s.(c := s.c.(seek := false)))
    else Reject
  }

  function DoneStep(data: string, s: Scan): Outcome {
    var b := CharAt(data, s.c.p);
    if b == '\0' then Accept(s.nodes) else if Space(b) then Go(Move(s, s.c.p + 1)) else Reject
  }

  // ---------------------------------------------------------------- values

  predicate Reads(data: string, p: int, word: string) {
    forall i | 0 <= i < |word| :: CharAt(data, p + i) == word[i]
  }

  /** A value of the given kind that ends before `p`. */
  function Atom(first: bool, s: Scan, kind: Kind, bval: bool, p: int): Outcome {
    match New(first, s, kind)
    case Go(t) =>
      if !HasTop(t) then Fault
      else Attach(first, SetTop(Move(t, p), t.nodes[t.c.top].(bval := bval || t.nodes[t.c.top].bval)))
    case o => o
  }

  function SeekStep(first: bool, data: string, s: Scan): Outcome {
    var b, p := CharAt(data, s.c.p), s.c.p;
    if Space(b) then Go(Move(s, p + 1))
    else if b == ']' then
      if TopIs(s, Array) then Attach(first, s.(c := s.c.(comma := false, seek := false, p := p + 1))) else Reject
    else if s.c.comma then if b == ',' then Go(s.(c := s.c.(comma := false, p := p + 1))) else Reject
    else if s.c.colon then if b == ':' then Go(s.(c := s.c.(colon := false, p := p + 1))) else Reject
    else ValueStep(first, data, s.(c := s.c.(seek := false)), b)
  }

  function ValueStep(first: bool, data: string, s: Scan, b: char): Outcome {
    var p := s.c.p;
    match b
    case '{' => New(first, Move(s, p + 1), Object)
    case '[' => (match New(first, Move(s, p + 1), Array)
                 case Go(t) => Go(t.(c := t.c.(seek := true)))
                 case o => o)
    case '"' => (match New(first, Move(s, p + 1), Str)
                 case Go(t) => Go(t.(c := t.c.(str := true, len := 0)))
                 case o => o)
    case 't' => if |data| - p >= 3
      && Reads(data, p + 1, "rue") then Atom(first, s, Boolean, true, p + 4) else NewBare(first, s)
    case 'f' => if |data| - p >= 4
      && Reads(data, p + 1, "alse") then Atom(first, s, Boolean, false, p + 5) else NewBare(first, s)
    case 'n' =>
      if |data| - p >= 3 && CharAt(data, p + 1) != 'u' && CharAt(data, p + 2) != 'l' && CharAt(data, p + 3) != 'l'
      then Atom(first, s, Null, false, p + 4) else NewBare(first, s)
    case _ =>
      if Digit(b) || b == '-' then NumberStart(first, data, s, b)
      else if InContainer(s) then NewBare(first, s)
      else Reject
  }

  // ---------------------------------------------------------------- numbers

  predicate NumberChar(b: char) { Digit(b) || b == '+' || b == '-' || b == 'e' || b == 'E' || b == '.' }

  /** The first place from `p` on that does not belong to a number. */
  function SkipNumber(data: string, p: int): (q: int)
    requires 0 <= p <= |data|
    ensures p <= q <= |data|
    decreases |data| - p
  {
    if p < |data| && NumberChar(data[p]) then SkipNumber(data, p + 1) else p
  }

  /** The first pass begins to read a number; the second knows how it ended. */
  function NumberStart(first: bool, data: string, s: Scan, b: char): Outcome {
    match New(first, s, Integer)
    case Go(t) =>
      if first then Go(t.(num := Num(s.c.p, 0, false, false, false),
        c := t.c.(p := if b == '-' then s.c.p + 1 else s.c.p)))
      else if TopIs(t, Str) then Go(Bare(t))
      else if HasTop(t) && 0 <= s.c.p <= |data| then Attach(first, Move(t, SkipNumber(data, s.c.p)))
      else Fault
    case o => o
  }

  /** The number goes on behind the current character. */
  function NumberOn(s: Scan, n: Node, num: Num): Scan
    requires HasTop(s)
  {
    Scan(s.c.(p := s.c.p + 1), num, s.nodes[s.c.top := n], s.alloc)
  }

  /** It is no number but a string without quotes, which is read from the start. */
  function NumberBack(s: Scan): Scan
    requires HasTop(s)
  {
    Bare(SetTop(Move(s, s.num.start), s.nodes[s.c.top].(kind := Str)))
  }

  function DigitStep(s: Scan, b: char): Outcome
    requires HasTop(s)
  {
    var num, n := s.num, s.nodes[s.c.top];
    if n.kind != Integer || num.exp then Go(NumberOn(s, n, num.(digits := num.digits + 1, sign := num.sign || num.exp)))
    else if num.zero then Reject
    else
      Go(NumberOn(s, n.(ival := Int64(n.ival * 10 + (b as int - '0' as int))),
                  num.(digits := num.digits + 1, zero := num.digits == 0 && b == '0')))
  }

  function NumberStep(data: string, s: Scan): Outcome
    requires HasTop(s)
  {
    var b, num, n := CharAt(data, s.c.p), s.num, s.nodes[s.c.top];
    if Digit(b) then DigitStep(s, b)
    else if (b == '+' || b == '-') && num.exp && !num.sign then Go(NumberOn(s, n, num.(sign := true)))
    else if b == '.' && n.kind == Integer then
      if num.digits == 0 then Reject else Go(NumberOn(s, n.(kind := Double), num.(digits := 0)))
    else if (num.exp || n.kind == Double) && num.digits == 0 then Reject
    else if !num.exp && (b == 'e' || b == 'E') then
      Go(NumberOn(s, n.(kind := Double), num.(digits := 0, zero := false, exp := true)))
    else if b != ',' then Go(NumberBack(s))
    else Attach(true, s)
  }

  // ---------------------------------------------------------------- objects

  function NameStep(first: bool, data: string, s: Scan): Outcome
    requires HasTop(s)
  {
    var b, p := CharAt(data, s.c.p), s.c.p;
    if Space(b) then Go(Move(s, p + 1))
    else if b == '}' then Attach(first, s.(c := s.c.(comma := false, p := p + 1)))
    else if b == ',' && s.c.comma then Go(s.(c := s.c.(comma := false, p := p + 1)))
    else if s.c.comma then Reject
    else if b == '"' then Go(s.(c := s.c.(str := true, len := 0, p := p + 1)))
    else Go(Bare(s))
  }

  // ---------------------------------------------------------------- one turn

  predicate InNumber(s: Scan) {
    !s.c.str && !s.c.line && !s.c.block && !s.c.done && !s.c.seek && (TopIs(s, Integer) || TopIs(s, Double))
  }

  function Step(first: bool, data: string, s: Scan): Outcome {
    if !(0 <= s.c.p <= |data|) then Fault
    else if s.c.str then if HasTop(s) then StringStep(first, data, s) else Fault
    else if s.c.line || s.c.block then CommentStep(data, s)
    else if CharAt(data, s.c.p) == '/' then SlashStep(first, data, s)
    else if s.c.done then DoneStep(data, s)
    else if s.c.seek then SeekStep(first, data, s)
    else if TopIs(s, Object) then NameStep(first, data, s)
    else if TopIs(s, Integer) || TopIs(s, Double) then if first then NumberStep(data, s) else Fault
    else Go(Move(s, s.c.p + 1))
  }
}
