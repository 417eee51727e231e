/** Texts that are refused: the flaw may be at any depth, behind anything that is right, and
    whatever follows it does not matter. */
module JsonRefused {
  import opened JsonText
  import opened JsonValue
  import opened JsonSpelling
  import opened JsonScan
  import opened JsonPasses
  import opened JsonBuild
  import opened JsonMeasure
  import opened JsonRoundTrip
  import opened JsonGaps
  import opened JsonTwins
  import opened JsonWords
  import opened JsonDocs
  import opened JsonNumbers
  import opened Wrappers

  /** A container that is not closed yet: its parts so far, each with its comma, and in an
      object the name of the next one with its colon. */
  datatype Frame =
    | InList(inside: seq<Gap>, slots: seq<Slot>, ahead: seq<Gap>)
    | InRecord(inside: seq<Gap>, entries: seq<Entry>, before: seq<Gap>, name: Label, after: seq<Gap>,
               ahead: seq<Gap>)

  function SlotsDone(slots: seq<Slot>): string {
    if slots == [] then "" else WriteSlot(slots[0]) + "," + SlotsDone(slots[1..])
  }

  function EntriesDone(entries: seq<Entry>): string {
    if entries == [] then "" else WriteEntry(entries[0]) + "," + EntriesDone(entries[1..])
  }

  function ListText(inside: seq<Gap>, slots: seq<Slot>): string { "[" + GapsText(inside) + SlotsDone(slots) }

  function RecordText(inside: seq<Gap>, entries: seq<Entry>): string { "{" + GapsText(inside) + EntriesDone(entries) }

  function HeadText(before: seq<Gap>, name: Label, after: seq<Gap>): string {
    GapsText(before) + LabelText(name) + GapsText(after)
  }

  function FrameText(f: Frame): string {
    match f
    case InList(inside, slots, ahead) => ListText(inside, slots) + GapsText(ahead)
    case InRecord(inside, entries, before, name, after, ahead) =>
      RecordText(inside, entries) + HeadText(before, name, after) + ":" + GapsText(ahead)
  }

  function FramesText(frames: seq<Frame>): string {
    if frames == [] then "" else FrameText(frames[0]) + FramesText(frames[1..])
  }

  ghost predicate RightSlotsDone(slots: seq<Slot>) {
    |slots| < MAX_SIZE && forall i | 0 <= i < |slots| :: RightSlot(slots[i]) && Countable(PlainSlot(slots[i], false))
  }

  ghost predicate RightEntriesDone(entries: seq<Entry>) {
    && |entries| < MAX_SIZE
    && forall i | 0 <= i < |entries| :: RightEntry(entries[i]) && Countable(PlainSlot(entries[i].slot, false))
  }

  ghost predicate RightHead(before: seq<Gap>, name: Label, after: seq<Gap>) {
    RightGaps(before) && RightLabel(name, after) && RightGaps(after)
  }

  ghost predicate RightFrame(f: Frame) {
    match f
    case InList(inside, slots, ahead) => RightGaps(inside) && RightSlotsDone(slots) && RightGaps(ahead)
    case InRecord(inside, entries, before, name, after, ahead) =>
      RightGaps(inside) && RightEntriesDone(entries) && RightHead(before, name, after) && RightGaps(ahead)
  }

  ghost predicate RightFrames(frames: seq<Frame>) { forall i | 0 <= i < |frames| :: RightFrame(frames[i]) }

  function KindOf(f: Frame): Kind { if f.InList? then Array else Object }

  // ---------------------------------------------------------------- into the frames

  /** Where the next part of a container may begin, of which there can be `room` more. */
  ghost predicate Inside(s: Scan, kind: Kind, room: int) {
    && (kind == Array || kind == Object) && TopIs(s, kind) && s.c.p >= 0 && s.nodes[s.c.top].size + room <= MAX_SIZE
    && (if kind == Array then AtValue(true, s) else AtName(true, s))
  }

  lemma InsideTakes(s: Scan, kind: Kind, room: int)
    requires Inside(s, kind, room) && room > 0
    ensures s.c.p >= 0 && TopIs(s, kind) && CanTake(s) && Between(s)
    ensures if kind == Array then AtValue(true, s) else AtName(true, s)
  {
    hide Sane;
  }

  lemma InsideRoom(s: Scan, kind: Kind, room: int)
    requires Inside(s, kind, room)
    ensures InContainer(s) && s.nodes[s.c.top].size + room <= MAX_SIZE && (TopIs(s, Array) <==> kind == Array)
  {
    hide AtValue, AtName;
  }

  lemma InsideMoved(s: Scan, kind: Kind, room: int, p: int)
    requires Inside(s, kind, room) && p >= 0
    ensures Inside(Move(s, p), kind, room)
  {
    hide Family;
  }

  lemma InsideTwin(a: Scan, b: Scan, kind: Kind, room: int)
    requires Inside(a, kind, room) && SameBut(a, b) && b.c.p >= 0
    ensures Inside(b, kind, room)
  {
    if kind == Array { AtValueAlike(true, a, b); } else { AtNameAlike(true, a, b); }
    TopTwins(a, b);
    hide AtValue, AtName, SameNodes;
  }

  lemma FollowsReaches(first: bool, data: string, s: Scan, o: Outcome, t: Scan, n: nat)
    requires Follows(first, data, s, o, t, n)
    ensures Reaches(first, data, s, t)
  {
    hide Reaches;
  }

  /** Behind a value of a container. */
  ghost predicate Behind(x: Scan) {
    && InContainer(x) && x.c.comma && !x.c.colon && x.c.seek == TopIs(x, Array)
    && !x.c.done && !x.c.str && !x.c.line && !x.c.block
  }

  lemma TookInside(s: Scan, x: Scan, n: nat, room: nat)
    requires AtValue(true, s) && InContainer(s) && s.c.p >= 0 && s.nodes[s.c.top].size + 1 + room <= MAX_SIZE
    requires Over(true, s, x, n) && Took(s, x)
    ensures Behind(x) && (TopIs(x, Array) <==> TopIs(s, Array))
    ensures Inside(Comma(x), if TopIs(s, Array) then Array else Object, room)
  {
    hide Family;
  }

  /** The first pass comes to a comma behind a value. */
  lemma TakesComma(data: string, s: Scan, n: Scan, v: Value, x: Scan, k: nat, room: nat) returns (t: Scan)
    requires AtValue(true, n) && InContainer(n) && n.c.p >= 0 && n.nodes[n.c.top].size + 1 + room <= MAX_SIZE
    requires Printable(v) && Countable(v) && Follows(true, data, s, Build(true, n, v, false), x, k)
    requires 0 <= x.c.p < |data| && data[x.c.p] == ','
    ensures Reaches(true, data, s, t) && t.c.p == x.c.p + 1
    ensures Inside(t, if TopIs(n, Array) then Array else Object, room)
  {
    hide Follows, AtValue, Over, Took, Printable, Bounded, Build, Inside, Sane, SameBut, Reaches, Comma;
    var o := Build(true, n, v, false);
    assert CanTake(n);
    MeasureValue(n, v, false);
    BuildOver(true, n, v, false);
    TookInside(n, o.s, |Print(v)|, room);
    FollowsComma(true, data, s, o, x, k);
    t := Comma(x);
    FollowsAt(true, data, s, Go(Comma(o.s)), t, k + 1);
    FollowsAt(true, data, s, o, x, k);
    FollowsReaches(true, data, s, Go(Comma(o.s)), t, k + 1);
    InsideTwin(Comma(o.s), t, if TopIs(n, Array) then Array else Object, room);
  }

  lemma CommaHere(data: string, p: int, text: string)
    requires Spells(data, p, text + ",")
    ensures Spells(data, p, text) && Ending(CharAt(data, p + |text|), false)
    ensures 0 <= p + |text| < |data| && data[p + |text|] == ','
  {
    SpellsSplit(data, p, text, ",");
    SpellsHere(data, p + |text|, ",");
  }

  lemma DoneSlot(data: string, s: Scan, k: Slot, room: nat) returns (t: Scan)
    requires Inside(s, Array, room + 1) && RightSlot(k) && Countable(PlainSlot(k, false))
    requires Spells(data, s.c.p, WriteSlot(k) + ",")
    ensures Reaches(true, data, s, t) && Inside(t, Array, room) && t.c.p == s.c.p + |WriteSlot(k)| + 1
  {
    hide *;
    var v, n := PlainSlot(k, false), |WriteSlot(k)|;
    InsideTakes(s, Array, room + 1);
    InsideRoom(s, Array, room + 1);
    CommaHere(data, s.c.p, WriteSlot(k));
    SlotRight(k, false);
    MeasureValue(s, v, false);
    SameSelf(s);
    var x := ScanSlot(true, data, s, s, k, false);
    FollowsAt(true, data, s, Build(true, s, v, false), x, n);
    t := TakesComma(data, s, s, v, x, n, room);
  }

  /** The parts of an array so far. */
  lemma {:induction false} ScanSlotsDone(data: string, s: Scan, slots: seq<Slot>) returns (t: Scan)
    requires Inside(s, Array, |slots| + 1) && RightSlotsDone(slots) && Spells(data, s.c.p, SlotsDone(slots))
    ensures Reaches(true, data, s, t) && Inside(t, Array, 1) && t.c.p == s.c.p + |SlotsDone(slots)|
    decreases |slots|
  {
    hide Reaches, Inside, RightSlot, Bounded, PlainSlot, WriteSlot, Spells;
    ReachesSelf(true, data, s);
    t := s;
    if slots != [] {
      SpellsSplit(data, s.c.p, WriteSlot(slots[0]) + ",", SlotsDone(slots[1..]));
      var x := DoneSlot(data, s, slots[0], |slots|);
      t := ScanSlotsDone(data, x, slots[1..]);
      ReachesTrans(true, data, s, x, t);
    }
  }

  lemma DoneEntry(data: string, s: Scan, e: Entry, room: nat) returns (t: Scan)
    requires Inside(s, Object, room + 1) && RightEntry(e) && Countable(PlainSlot(e.slot, false))
    requires Spells(data, s.c.p, WriteEntry(e) + ",")
    ensures Reaches(true, data, s, t) && Inside(t, Object, room) && t.c.p == s.c.p + |WriteEntry(e)| + 1
  {
    hide *;
    var name, v, k := LabelBytes(e.name), PlainSlot(e.slot, false), |WriteEntry(e)|;
    InsideTakes(s, Object, room + 1);
    CommaHere(data, s.c.p, WriteEntry(e));
    EntryRight(e, false);
    MeasureName(s, name);
    var n := BuildName(true, s, name, |Quote(name)|).s;
    NamedRoom(s, n, name, room);
    MeasureValue(n, v, false);
    SameSelf(s);
    var x := ScanEntry(true, data, s, s, e, false);
    FollowsAt(true, data, s, Build(true, n, v, false), x, k);
    t := TakesComma(data, s, n, v, x, k, room);
  }

  lemma NamedRoom(s: Scan, n: Scan, name: string, room: nat)
    requires Inside(s, Object, room + 1) && TopIs(n, Object) && n.c.top == s.c.top
    requires n.nodes[s.c.top] == s.nodes[s.c.top].(num := s.nodes[s.c.top].num + |name| + 1)
    ensures InContainer(n) && n.nodes[n.c.top].size + 1 + room <= MAX_SIZE && CanTake(n) && !TopIs(n, Array)
  {
    hide AtName;
  }

  /** The members of an object so far. */
  lemma {:induction false} ScanEntriesDone(data: string, s: Scan, entries: seq<Entry>) returns (t: Scan)
    requires Inside(s, Object, |entries| + 1) && RightEntriesDone(entries) && Spells(data, s.c.p, EntriesDone(entries))
    ensures Reaches(true, data, s, t) && Inside(t, Object, 1) && t.c.p == s.c.p + |EntriesDone(entries)|
    decreases |entries|
  {
    hide Reaches, Inside, RightEntry, Bounded, PlainSlot, WriteEntry, Spells;
    ReachesSelf(true, data, s);
    t := s;
    if entries != [] {
      SpellsSplit(data, s.c.p, WriteEntry(entries[0]) + ",", EntriesDone(entries[1..]));
      var x := DoneEntry(data, s, entries[0], |entries|);
      t := ScanEntriesDone(data, x, entries[1..]);
      ReachesTrans(true, data, s, x, t);
    }
  }

  lemma OpeningFirst(s: Scan, kind: Kind, room: nat)
    requires AtValue(true, s) && s.c.p >= 0 && (kind == Array || kind == Object) && room <= MAX_SIZE
    ensures Opening(true, s, kind).Go? && Inside(Opening(true, s, kind).s, kind, room)
    ensures TopIs(Opening(true, s, kind).s, kind) && Opening(true, s, kind).s.c.p == s.c.p + 1
  {
    hide Family;
    NewKeeps(true, s.(c := s.c.(seek := false, p := s.c.p + 1)), kind);
  }

  lemma ThreeHere(data: string, p: int, a: string, b: string, c: string)
    requires Spells(data, p, a + b + c)
    ensures Spells(data, p, a) && Spells(data, p + |a|, b) && Spells(data, p + |a| + |b|, c)
  {
    hide Spells;
    SpellsSplit(data, p, a + b, c);
    SpellsSplit(data, p, a, b);
  }

  /** An opening bracket or brace and the gap behind it. */
  lemma Enter(data: string, s: Scan, kind: Kind, inside: seq<Gap>, room: nat) returns (t: Scan)
    requires AtValue(true, s) && s.c.p >= 0 && (kind == Array || kind == Object)
    requires RightGaps(inside) && room <= MAX_SIZE
    requires Spells(data, s.c.p, if kind == Array then "[" else "{") && Spells(data, s.c.p + 1, GapsText(inside))
    ensures Reaches(true, data, s, t) && Inside(t, kind, room) && t.c.p == s.c.p + 1 + |GapsText(inside)|
  {
    hide *;
    BracketHere(data, s.c.p, kind);
    OpeningFirst(s, kind, room);
    OpeningIs(true, data, s, kind);
    var u := Opening(true, s, kind).s;
    StepReaches(true, data, s, u);
    t := OverGaps(data, u, kind, room, inside);
    ReachesTrans(true, data, s, u, t);
  }

  lemma BracketHere(data: string, p: int, kind: Kind)
    requires Spells(data, p, if kind == Array then "[" else "{")
    ensures 0 <= p < |data| && data[p] == if kind == Array then '[' else '{'
  {
    SpellsHere(data, p, if kind == Array then "[" else "{");
  }

  lemma OverGaps(data: string, s: Scan, kind: Kind, room: nat, gs: seq<Gap>) returns (t: Scan)
    requires Inside(s, kind, room) && Between(s) && RightGaps(gs) && Spells(data, s.c.p, GapsText(gs))
    ensures Reaches(true, data, s, t) && Inside(t, kind, room) && t.c.p == s.c.p + |GapsText(gs)|
  {
    hide *;
    var p := s.c.p + |GapsText(gs)|;
    ScanGaps(true, data, s, gs);
    InsideAt(s, kind, room);
    InsideMoved(s, kind, room, p);
    t := Move(s, p);
    MovedAt(s, p);
  }

  lemma InsideAt(s: Scan, kind: Kind, room: int)
    requires Inside(s, kind, room)
    ensures s.c.p >= 0
  {
    hide AtValue, AtName;
  }

  lemma EnterList(data: string, s: Scan, inside: seq<Gap>, slots: seq<Slot>) returns (t: Scan)
    requires AtValue(true, s) && s.c.p >= 0 && RightGaps(inside) && RightSlotsDone(slots)
    requires Spells(data, s.c.p, ListText(inside, slots))
    ensures Reaches(true, data, s, t) && Inside(t, Array, 1) && t.c.p == s.c.p + |ListText(inside, slots)|
  {
    hide Reaches, Inside, GapsText, RightGaps, SlotsDone, AtValue, Spells;
    ThreeHere(data, s.c.p, "[", GapsText(inside), SlotsDone(slots));
    assert |slots| + 1 <= MAX_SIZE;
    hide RightSlotsDone;
    var u := Enter(data, s, Array, inside, |slots| + 1);
    t := ScanSlotsDone(data, u, slots);
    ReachesTrans(true, data, s, u, t);
  }

  lemma EnterRecord(data: string, s: Scan, inside: seq<Gap>, entries: seq<Entry>) returns (t: Scan)
    requires AtValue(true, s) && s.c.p >= 0 && RightGaps(inside) && RightEntriesDone(entries)
    requires Spells(data, s.c.p, RecordText(inside, entries))
    ensures Reaches(true, data, s, t) && Inside(t, Object, 1) && t.c.p == s.c.p + |RecordText(inside, entries)|
  {
    hide Reaches, Inside, GapsText, RightGaps, EntriesDone, AtValue, Spells;
    ThreeHere(data, s.c.p, "{", GapsText(inside), EntriesDone(entries));
    assert |entries| + 1 <= MAX_SIZE;
    hide RightEntriesDone;
    var u := Enter(data, s, Object, inside, |entries| + 1);
    t := ScanEntriesDone(data, u, entries);
    ReachesTrans(true, data, s, u, t);
  }

  /** A name with its gaps, in front of its colon. */
  lemma EnterHead(data: string, s: Scan, before: seq<Gap>, name: Label, after: seq<Gap>) returns (t: Scan)
    requires Inside(s, Object, 1) && RightHead(before, name, after)
    requires Spells(data, s.c.p, HeadText(before, name, after))
    requires var p := s.c.p + |HeadText(before, name, after)|;
      after != [] || name.Pieces? || (0 <= p < |data| && data[p] == ':')
    ensures Reaches(true, data, s, t) && AtColon(true, t) && t.c.p == s.c.p + |HeadText(before, name, after)|
    ensures HasTop(t) && t.nodes[t.c.top].size < MAX_SIZE
  {
    hide *;
    HeadIs(before, name, after);
    var text, m := LabelBytes(name), |Quote(LabelBytes(name))|;
    var p := s.c.p + |GapsText(before)| + |LabelText(name)|;
    ThreeHere(data, s.c.p, GapsText(before), LabelText(name), GapsText(after));
    if name.Pieces? { PiecesEnd(name, CharAt(data, p)); } else { LabelEnds(data, p, name, after); }
    InsideTakes(s, Object, 1);
    MeasureName(s, text);
    NameIs(true, s, text, m);
    SameSelf(s);
    t := ScanHead(true, data, s, s, before, name, after);
    var k := |GapsText(before)| + |LabelText(name)| + |GapsText(after)|;
    var o := ReadName(true, s, text, m);
    FollowsAt(true, data, s, o, t, k);
    FollowsReaches(true, data, s, o, t, k);
    HeadRoom(s, Colon(o.s), o.s, t, text);
  }

  lemma PiecesEnd(n: Label, c: char)
    requires n.Pieces?
    ensures EndsLabel(n, c)
  {
  }

  lemma HeadIs(before: seq<Gap>, name: Label, after: seq<Gap>)
    requires RightHead(before, name, after)
    ensures HeadText(before, name, after) == GapsText(before) + LabelText(name) + GapsText(after)
    ensures RightGaps(before) && RightLabel(name, after) && RightGaps(after) && |LabelBytes(name)| <= MAX_SIZE
  {
    hide GapsText, LabelText, RightGaps, RightLabel;
    LabelIs(name, after, ':');
  }

  lemma HeadRoom(s: Scan, n: Scan, x: Scan, t: Scan, name: string)
    requires Inside(s, Object, 1) && TopIs(n, Object) && n.c.top == s.c.top && n == Colon(x) && SameBut(x, t)
    requires n.nodes[s.c.top] == s.nodes[s.c.top].(num := s.nodes[s.c.top].num + |name| + 1)
    ensures HasTop(t) && t.nodes[t.c.top].size < MAX_SIZE
  {
    TopTwins(x, t);
    hide AtName, SameNodes;
  }

  /** Where a value is sought that can be taken. */
  ghost predicate Seeking(s: Scan) { AtValue(true, s) && CanTake(s) && s.c.p >= 0 }

  lemma ColonSeeks(data: string, t: Scan)
    requires AtColon(true, t) && HasTop(t) && t.nodes[t.c.top].size < MAX_SIZE
    requires 0 <= t.c.p < |data| && data[t.c.p] == ':'
    ensures Step(true, data, t) == Go(Colon(t)) && Seeking(Colon(t)) && TopIs(Colon(t), Object)
    ensures Colon(t).c.p == t.c.p + 1
  {
    hide Family;
    ColonStep(true, data, t);
  }

  lemma SeekingAt(s: Scan)
    requires Seeking(s)
    ensures s.c.p >= 0 && AtValue(true, s) && CanTake(s)
  {
    hide AtValue;
  }

  lemma SeekingMoved(s: Scan, p: int)
    requires Seeking(s) && p >= 0
    ensures Seeking(Move(s, p)) && Between(s)
  {
    hide Family;
  }

  lemma InsideSeeks(s: Scan)
    requires Inside(s, Array, 1)
    ensures Seeking(s)
  {
    hide AtValue;
  }

  lemma SeekingGaps(data: string, s: Scan, gs: seq<Gap>) returns (t: Scan)
    requires Seeking(s) && RightGaps(gs) && Spells(data, s.c.p, GapsText(gs))
    ensures Reaches(true, data, s, t) && Seeking(t) && t == Move(s, s.c.p + |GapsText(gs)|)
  {
    hide *;
    SeekingAt(s);
    SeekingMoved(s, s.c.p + |GapsText(gs)|);
    ScanGaps(true, data, s, gs);
    t := Move(s, s.c.p + |GapsText(gs)|);
  }

  lemma {:induction false} EnterFrame(data: string, s: Scan, f: Frame) returns (t: Scan)
    requires Seeking(s) && RightFrame(f) && Spells(data, s.c.p, FrameText(f))
    ensures Reaches(true, data, s, t) && Seeking(t) && TopIs(t, KindOf(f)) && t.c.p == s.c.p + |FrameText(f)|
  {
    hide Reaches, Spells, GapsText, RightGaps, RightSlotsDone, RightEntriesDone, RightHead;
    hide HeadText, ListText, RecordText, AtValue, CanTake, Inside, AtColon, Step;
    match f
    case InList(inside, slots, ahead) =>
      SpellsSplit(data, s.c.p, ListText(inside, slots), GapsText(ahead));
      var u := EnterList(data, s, inside, slots);
      InsideTakes(u, Array, 1);
      InsideSeeks(u);
      t := SeekingGaps(data, u, ahead);
      ReachesTrans(true, data, s, u, t);
    case InRecord(inside, entries, before, name, after, ahead) =>
      var a, b := RecordText(inside, entries), HeadText(before, name, after);
      SpellsSplit(data, s.c.p, a + b + ":", GapsText(ahead));
      ThreeHere(data, s.c.p, a, b, ":");
      SpellsHere(data, s.c.p + |a| + |b|, ":");
      var u := EnterRecord(data, s, inside, entries);
      var v := EnterHead(data, u, before, name, after);
      ReachesTrans(true, data, s, u, v);
      ColonSeeks(data, v);
      StepReaches(true, data, v, Colon(v));
      ReachesTrans(true, data, s, v, Colon(v));
      t := SeekingGaps(data, Colon(v), ahead);
      ReachesTrans(true, data, s, Colon(v), t);
  }

  lemma {:induction false} EnterFrames(data: string, s: Scan, frames: seq<Frame>) returns (t: Scan)
    requires Seeking(s) && RightFrames(frames) && Spells(data, s.c.p, FramesText(frames))
    ensures Reaches(true, data, s, t) && Seeking(t) && t.c.p == s.c.p + |FramesText(frames)|
    ensures if frames == [] then t == s else TopIs(t, KindOf(frames[|frames| - 1]))
    decreases |frames|
  {
    hide Reaches, Spells, RightFrame, FrameText, Seeking;
    ReachesSelf(true, data, s);
    t := s;
    if frames != [] {
      SpellsSplit(data, s.c.p, FrameText(frames[0]), FramesText(frames[1..]));
      var u := EnterFrame(data, s, frames[0]);
      t := EnterFrames(data, u, frames[1..]);
      ReachesTrans(true, data, s, u, t);
    }
  }

  // ---------------------------------------------------------------- flaws

  /** What is read last in front of a flaw, inside the innermost frame. */
  datatype Place =
    | AtStart
    | InObject(inside: seq<Gap>, entries: seq<Entry>)
    | BehindName(inside: seq<Gap>, entries: seq<Entry>, before: seq<Gap>, name: Label, after: seq<Gap>)
    | BehindValue(doc: Doc, after: seq<Gap>)
    | BehindNumber(n: int)
    | BehindNumeral(m: Numeral)
    | InString(pieces: seq<Piece>)
    | InWord(text: string)
    | InComment(text: string)
    | InName(inside: seq<Gap>, entries: seq<Entry>, before: seq<Gap>, pieces: seq<Piece>)

  function PlaceText(at: Place): string {
    match at
    case AtStart => ""
    case InObject(inside, entries) => RecordText(inside, entries)
    case BehindName(inside, entries, before, name, after) =>
      RecordText(inside, entries) + HeadText(before, name, after)
    case BehindValue(doc, after) => Write(doc) + GapsText(after)
    case BehindNumber(n) => Decimal(n)
    case BehindNumeral(m) => NumeralText(m)
    case InString(pieces) => "\"" + Texts(pieces)
    case InWord(text) => text
    case InComment(text) => "/*" + text
    case InName(inside, entries, before, pieces) =>
      RecordText(inside, entries) + GapsText(before) + ("\"" + Texts(pieces))
  }

  ghost predicate RightPlace(at: Place) {
    match at
    case AtStart => true
    case InObject(inside, entries) => RightGaps(inside) && RightEntriesDone(entries)
    case BehindName(inside, entries, before, name, after) =>
      RightGaps(inside) && RightEntriesDone(entries) && RightHead(before, name, after) && (name.Chars? ==> after != [])
    case BehindValue(doc, after) =>
      RightDoc(doc) && Definite(doc) && Countable(Plain(doc)) && RightGaps(after)
    case BehindNumber(n) => INT64_MIN < n <= INT64_MAX
    case BehindNumeral(m) => RightNumeral(m)
    case InString(pieces) => AllRight(pieces)
    case InWord(text) => RightWord(text)
    case InComment(text) => OpenComment(text)
    case InName(inside, entries, before, pieces) =>
      RightGaps(inside) && RightEntriesDone(entries) && RightGaps(before) && AllRight(pieces)
  }

  /** Four hexadecimal digits from `i` on. */
  predicate Word(t: string, i: nat) { i + 4 <= |t| && forall k | i <= k < i + 4 :: t[k] in "0123456789abcdefABCDEF" }

  /** And these are from D800 to DFFF. */
  predicate Half(t: string, i: nat) { Word(t, i) && t[i] in "dD" && t[i + 1] in "89abcdefABCDEF" }

  /** Behind a backslash: the end of the text, or a `u` and no four hexadecimal digits, or
      those of a half without a second one. */
  predicate BadEscape(t: string) {
    || CharAt(t, 0) == '\0'
    || (t[0] == 'u' && !Word(t, 1))
    || (t[0] == 'u' && Half(t, 1) && !(Word(t, 7) && t[5] == '\\' && t[6] == 'u'))
  }

  /** What cannot follow at a place, where `frames` are open and `tail` is the rest of the text. */
  predicate Spoils(frames: seq<Frame>, at: Place, tail: string) {
    var c := CharAt(tail, 0);
    match at
    case AtStart =>
      if frames != [] then c == '\0' || (c == ']' && frames[|frames| - 1].InRecord?)
      else c !in " \t\r\n/[{\"tfn-" && !Digit(c)
    case InObject(_, _) => c == '\0'
    case BehindName(_, _, _, _, _) => c !in " \t\r\n/:"
    case BehindValue(_, _) =>
      && c !in " \t\r\n/"
      && if frames == [] then c != '\0' else c != ',' && c != (if frames[|frames| - 1].InList? then ']' else '}')
    case BehindNumber(n) => c == '/' || (n == 0 && Digit(c))
    case BehindNumeral(m) => c == ',' && !Numeric(m)
    case InString(pieces) => !Fits(pieces) || BadInside(tail)
    case InWord(_) => frames != [] && (c == '\0' || c == '"')
    case InComment(_) => c == '\0'
    case InName(_, _, _, pieces) => !Fits(pieces) || BadInside(tail)
  }

  // ---------------------------------------------------------------- the turn that refuses

  lemma RefusedBehind(data: string, x: Scan)
    requires Behind(x) && 0 <= x.c.p <= |data|
    requires CharAt(data, x.c.p) !in " \t\r\n/," && CharAt(data, x.c.p) != if TopIs(x, Array) then ']' else '}'
    ensures Step(true, data, x) == Reject
  {
    hide ValueStep, SlashStep, Attach;
  }

  lemma RefusedDone(data: string, x: Scan)
    requires x.c.done && !x.c.str && !x.c.line && !x.c.block && 0 <= x.c.p <= |data|
    requires CharAt(data, x.c.p) !in " \t\r\n/\0"
    ensures Step(true, data, x) == Reject
  {
    hide SlashStep;
  }

  lemma RefusedColon(data: string, x: Scan)
    requires AtColon(true, x) && 0 <= x.c.p <= |data| && CharAt(data, x.c.p) !in " \t\r\n/:"
    ensures Step(true, data, x) == Reject
  {
    hide ValueStep, SlashStep, Attach, Family;
  }

  lemma RefusedStart(data: string, x: Scan)
    requires AtValue(true, x) && 0 <= x.c.p <= |data| && !TopIs(x, Array) && CharAt(data, x.c.p) == ']'
    ensures Step(true, data, x) == Reject
  {
    hide ValueStep, SlashStep, Attach, Family;
  }

  lemma RefusedOutside(data: string, x: Scan)
    requires AtValue(true, x) && 0 <= x.c.p <= |data| && x.c.top == -1
    requires var c := CharAt(data, x.c.p); c !in " \t\r\n/[{\"tfn-" && !Digit(c)
    ensures Step(true, data, x) == Reject
  {
    hide SlashStep, Attach, Family, NumberStart, Atom, NewBare, New;
  }

  /** At the end of the text a string without quotes begins, and is not ended. */
  lemma RefusedEnd(data: string, s: Scan) returns (t: Scan)
    requires AtValue(true, s) && InContainer(s) && 0 <= s.c.p <= |data| && CharAt(data, s.c.p) == '\0'
    ensures Step(true, data, s) == Go(t) && Step(true, data, t) == Reject
  {
    hide SlashStep, Attach, Family, NumberStart, Atom;
    t := Bare(New(true, s.(c := s.c.(seek := false)), Str).s);
  }

  lemma RefusedNoName(data: string, s: Scan) returns (t: Scan)
    requires AtName(true, s) && 0 <= s.c.p <= |data| && CharAt(data, s.c.p) == '\0'
    ensures Step(true, data, s) == Go(t) && Step(true, data, t) == Reject
  {
    hide SlashStep, Attach, Family;
    t := Bare(s);
  }

  lemma RefusedInside(data: string, s: Scan)
    requires Quoted(s) && 0 <= s.c.p <= |data| && CharAt(data, s.c.p) == '\0'
    ensures Step(true, data, s) == Reject
  {
  }

  lemma HexOrNot(c: char)
    ensures HexToByte(c) == 255 <==> c !in "0123456789abcdefABCDEF"
    ensures HexToByte(c) == 255 || HexToByte(c) < 16
  {
  }

  /** The rest of a text. */
  predicate RestIs(data: string, p: int, t: string) {
    p >= 0 && p + |t| == |data| && forall i | 0 <= i < |t| :: data[p + i] == t[i]
  }

  lemma RestAt(data: string, p: int, t: string, i: nat)
    requires RestIs(data, p, t)
    ensures CharAt(data, p + i) == CharAt(t, i)
  {
  }

  lemma WordIs(data: string, p: int, t: string, i: nat)
    requires RestIs(data, p, t)
    ensures Hex4(data, p + i) >= 0 <==> Word(t, i)
  {
    RestAt(data, p, t, i);
    RestAt(data, p, t, i + 1);
    RestAt(data, p, t, i + 2);
    RestAt(data, p, t, i + 3);
    HexOrNot(CharAt(t, i));
    HexOrNot(CharAt(t, i + 1));
    HexOrNot(CharAt(t, i + 2));
    HexOrNot(CharAt(t, i + 3));
    hide RestIs, HexToByte;
    if Word(t, i) { assert t[i + 1] in "0123456789abcdefABCDEF" && t[i + 2] in "0123456789abcdefABCDEF"; }
    if Hex4(data, p + i) >= 0 {
      assert CharAt(t, i + 3) != '\0';
      forall k | i <= k < i + 4 ensures t[k] in "0123456789abcdefABCDEF" {
        assert k == i || k == i + 1 || k == i + 2 || k == i + 3;
      }
    }
  }

  lemma HalfIs(data: string, p: int, t: string, i: nat)
    requires RestIs(data, p, t) && Half(t, i)
    ensures 0xD800 <= Hex4(data, p + i) < 0xE000
  {
    WordIs(data, p, t, i);
    RestAt(data, p, t, i);
    RestAt(data, p, t, i + 1);
    assert HexToByte(t[i]) == 13 && 8 <= HexToByte(t[i + 1]) < 16;
    hide RestIs, Word;
  }

  lemma BadUnicode(data: string, p: int)
    requires var u, v := Hex4(data, p + 1), Hex4(data, p + 7);
      u < 0 || (0xD800 <= u < 0xE000 && !(v >= 0 && CharAt(data, p + 5) == '\\' && CharAt(data, p + 6) == 'u'))
    ensures Unicode(data, p) == Bad
  {
    hide Hex4, Utf8, Joined, CharAt;
  }

  lemma BadEscaped(data: string, p: int, t: string)
    requires RestIs(data, p, t) && BadEscape(t)
    ensures CharAt(data, p) == '\0' || Escaped(data, p) == Bad
  {
    hide RestIs, Word, Hex4, Half, Unicode;
    RestAt(data, p, t, 0);
    if CharAt(t, 0) != '\0' {
      WordIs(data, p, t, 1);
      WordIs(data, p, t, 7);
      RestAt(data, p, t, 5);
      RestAt(data, p, t, 6);
      if Half(t, 1) { HalfIs(data, p, t, 1); }
      WordLong(t);
      BadUnicode(data, p);
    }
  }

  lemma WordLong(t: string)
    ensures Word(t, 7) ==> |t| > 7
  {
  }

  lemma RefusedEscape(data: string, s: Scan) returns (t: Scan)
    requires Quoted(s) && s.c.len <= MAX_SIZE && 0 <= s.c.p < |data| && data[s.c.p] == '\\'
    requires CharAt(data, s.c.p + 1) == '\0' || Escaped(data, s.c.p + 1) == Bad
    ensures Step(true, data, s) == Go(t) && Step(true, data, t) == Reject
  {
    EscapeBegins(true, data, s);
    t := s.(c := s.c.(esc := true, p := s.c.p + 1));
    hide Escaped, Put;
  }

  // ---------------------------------------------------------------- refusal

  lemma TailHere(data: string, p: int, text: string, tail: string)
    requires Spells(data, p, text + tail) && p + |text| + |tail| == |data|
    ensures Spells(data, p, text) && RestIs(data, p + |text|, tail)
    ensures 0 <= p + |text| <= |data| && CharAt(data, p + |text|) == CharAt(tail, 0)
  {
    SpellsSplit(data, p, text, tail);
    forall i | 0 <= i < |tail| ensures data[p + |text| + i] == tail[i] { SpellsAt(data, p + |text|, tail, i); }
  }

  predicate BadInside(tail: string) {
    CharAt(tail, 0) == '\0' || (CharAt(tail, 0) == '\\' && BadEscape(tail[1..]))
  }

  lemma QuotedRefuses(data: string, s: Scan, ps: seq<Piece>, tail: string)
    requires Quoted(s) && s.c.len == 0 && AllRight(ps)
    requires Spells(data, s.c.p, Texts(ps)) && RestIs(data, s.c.p + |Texts(ps)|, tail) && (!Fits(ps) || BadInside(tail))
    ensures Refuses(data, s)
  {
    hide Reaches, Refuses, Spells, Texts, Bytes, Put, AllRight, BadEscape, Step, Escaped;
    if !Fits(ps) {
      LongRefuses(data, s, ps);
    } else {
      ScanPieces(true, data, s, ps) by { PutFirst(s, Bytes(ps)); }
      PutFirst(s, Bytes(ps));
      PutKeepsQuoted(true, s, Bytes(ps));
      var t := Move(Put(true, s, Bytes(ps)).s, s.c.p + |Texts(ps)|);
      RestAt(data, t.c.p, tail, 0);
      if CharAt(tail, 0) == '\0' {
        RefusedInside(data, t);
        RefusesHere(data, t);
      } else {
        BadEscaped(data, t.c.p + 1, tail[1..]);
        var u := RefusedEscape(data, t);
        RefusesNext(data, t, u);
      }
      RefusesBack(data, s, t);
    }
  }

  /** A string is too long. */
  lemma {:induction false} LongRefuses(data: string, s: Scan, ps: seq<Piece>)
    requires Quoted(s) && s.c.len <= MAX_SIZE < s.c.len + |Bytes(ps)| && AllRight(ps) && Spells(data, s.c.p, Texts(ps))
    ensures Refuses(data, s)
    decreases |ps|
  {
    hide Reaches, Refuses, Spells, Put, Right, Step, Escaped;
    var q := ps[0];
    SpellsSplit(data, s.c.p, q.text, Texts(ps[1..]));
    PutFirst(s, q.bytes);
    ScanPiece(true, data, s, q);
    PutKeepsQuoted(true, s, q.bytes);
    var t := Move(Put(true, s, q.bytes).s, s.c.p + |q.text|);
    if t.c.len > MAX_SIZE {
      PlaceInside(data, s.c.p, q.text);
      RefusedLong(data, t);
      RefusesHere(data, t);
    } else {
      LongRefuses(data, t, ps[1..]);
    }
    RefusesBack(data, s, t);
  }

  lemma PlaceInside(data: string, p: int, word: string)
    requires Spells(data, p, word)
    ensures 0 <= p && p + |word| <= |data|
  {
  }

  lemma RefusedLong(data: string, s: Scan)
    requires Quoted(s) && s.c.len > MAX_SIZE && 0 <= s.c.p <= |data|
    ensures Step(true, data, s) == Reject
  {
  }

  lemma PutFirst(s: Scan, text: string)
    requires HasTop(s)
    ensures Put(true, s, text).Go?
  {
  }

  lemma StartRefuses(data: string, s: Scan, frames: seq<Frame>, tail: string)
    requires Seeking(s) && 0 <= s.c.p <= |data| && CharAt(data, s.c.p) == CharAt(tail, 0)
    requires Spoils(frames, AtStart, tail)
    requires if frames == [] then s.c.top == -1 else TopIs(s, KindOf(frames[|frames| - 1]))
    ensures Refuses(data, s)
  {
    hide AtValue, Refuses, Step, CharAt;
    if frames == [] {
      RefusedOutside(data, s);
      RefusesHere(data, s);
    } else if CharAt(tail, 0) == ']' {
      RefusedStart(data, s);
      RefusesHere(data, s);
    } else {
      var t := RefusedEnd(data, s);
      RefusesNext(data, s, t);
    }
  }

  lemma ObjectRefuses(data: string, s: Scan, inside: seq<Gap>, entries: seq<Entry>)
    requires Seeking(s) && RightGaps(inside) && RightEntriesDone(entries)
    requires Spells(data, s.c.p, RecordText(inside, entries))
    requires var p := s.c.p + |RecordText(inside, entries)|; 0 <= p <= |data| && CharAt(data, p) == '\0'
    ensures Refuses(data, s)
  {
    hide *;
    SeekingAt(s);
    var u := EnterRecord(data, s, inside, entries);
    InsideTakes(u, Object, 1);
    var t := RefusedNoName(data, u);
    RefusesNext(data, u, t);
    RefusesBack(data, s, u);
  }

  lemma NameRefuses(data: string, s: Scan, inside: seq<Gap>, entries: seq<Entry>, before: seq<Gap>, name: Label,
      after: seq<Gap>)
    requires Seeking(s) && RightGaps(inside) && RightEntriesDone(entries) && RightHead(before, name, after)
    requires name.Chars? ==> after != []
    requires var a, b := RecordText(inside, entries), HeadText(before, name, after);
      && Spells(data, s.c.p, a + b) && 0 <= s.c.p + |a| + |b| <= |data|
      && CharAt(data, s.c.p + |a| + |b|) !in " \t\r\n/:"
    ensures Refuses(data, s)
  {
    hide *;
    SeekingAt(s);
    SpellsSplit(data, s.c.p, RecordText(inside, entries), HeadText(before, name, after));
    var u := EnterRecord(data, s, inside, entries);
    var t := EnterHead(data, u, before, name, after);
    RefusedColon(data, t);
    RefusesHere(data, t);
    RefusesBack(data, u, t);
    RefusesBack(data, s, u);
  }

  /** The character behind a value is none that can follow. */
  lemma ValueRefuses(data: string, s: Scan, frames: seq<Frame>, doc: Doc, after: seq<Gap>, tail: string)
    requires Seeking(s) && RightDoc(doc) && Definite(doc) && Countable(Plain(doc)) && RightGaps(after)
    requires Spells(data, s.c.p, Write(doc) + GapsText(after))
    requires 0 <= s.c.p + |Write(doc)| + |GapsText(after)| <= |data|
    requires CharAt(data, s.c.p + |Write(doc)| + |GapsText(after)|) == CharAt(tail, 0)
    requires Spoils(frames, BehindValue(doc, after), tail)
    requires if frames == [] then s.c.top == -1 else TopIs(s, KindOf(frames[|frames| - 1]))
    ensures Refuses(data, s)
  {
    hide *;
    var v, n, q := Plain(doc), |Write(doc)|, |Write(doc)| + |GapsText(after)|;
    var o := Build(true, s, v, false);
    SpoilsBehind(data, frames, doc, after, tail, s.c.p + q);
    SeekingTop(s);
    SeekingAt(s);
    SpellsSplit(data, s.c.p, Write(doc), GapsText(after));
    RightPrintable(doc);
    MeasureValue(s, v, false);
    SameSelf(s);
    DefiniteStops(doc, CharAt(data, s.c.p + n));
    var x := ScanDoc(true, data, s, s, doc, false);
    FollowsAt(true, data, s, o, x, n);
    BuildOver(true, s, v, false);
    OverBetween(true, s, o.s, x, |Print(v)|);
    var y := FollowsGaps(true, data, s, o, x, n, after);
    FollowsAt(true, data, s, o, y, q);
    FollowsReaches(true, data, s, o, y, q);
    if frames == [] {
      DoneTwin(s, o.s, x, y);
      RefusedDone(data, y);
    } else {
      KindIs(frames[|frames| - 1]);
      BehindTwin(s, o.s, y, |Print(v)|, KindOf(frames[|frames| - 1]));
      RefusedBehind(data, y);
    }
    RefusesHere(data, y);
    RefusesBack(data, s, y);
  }

  lemma KindIs(f: Frame)
    ensures KindOf(f) == if f.InList? then Array else Object
  {
  }

  lemma SeekingTop(s: Scan)
    requires Seeking(s)
    ensures s.c.top == -1 || InContainer(s)
  {
    hide AtValue;
  }

  lemma SpoilsBehind(data: string, frames: seq<Frame>, doc: Doc, after: seq<Gap>, tail: string, p: int)
    requires Spoils(frames, BehindValue(doc, after), tail) && CharAt(data, p) == CharAt(tail, 0)
    ensures var c := CharAt(data, p);
      && c !in " \t\r\n/"
      && if frames == [] then c != '\0' else c != ',' && c != (if frames[|frames| - 1].InList? then ']' else '}')
  {
    hide CharAt;
  }

  lemma DoneTwin(s: Scan, x: Scan, u: Scan, t: Scan)
    requires s.c.top == -1 && Took(s, x) && SameBut(x, t) && Between(u) && t == Move(u, t.c.p)
    ensures t.c.done && !t.c.str && !t.c.line && !t.c.block
  {
    hide SameNodes;
  }

  lemma BehindTwin(s: Scan, x: Scan, t: Scan, n: nat, kind: Kind)
    requires Seeking(s) && TopIs(s, kind) && (kind == Array || kind == Object) && Over(true, s, x, n) && Took(s, x)
    requires SameBut(x, t)
    ensures Behind(t) && (TopIs(t, Array) <==> kind == Array)
  {
    TookInside(s, x, n, 0);
    InsideAlike(x, t);
    hide SameNodes, Sane, Inside;
  }

  lemma NumberRefuses(data: string, s: Scan, n: int)
    requires Seeking(s) && INT64_MIN < n <= INT64_MAX && Spells(data, s.c.p, Decimal(n))
    requires 0 <= s.c.p + |Decimal(n)| <= |data|
    requires var c := CharAt(data, s.c.p + |Decimal(n)|); c == '/' || (n == 0 && Digit(c))
    ensures Refuses(data, s)
  {
    hide *;
    SeekingAt(s);
    ScanNumber(data, s, n);
    RefusedNumber(data, s, n);
    RefusesHere(data, NumberRead(s, n));
    RefusesBack(data, s, NumberRead(s, n));
  }

  lemma NumeralRefuses(data: string, s: Scan, m: Numeral, tail: string)
    requires Seeking(s) && RightNumeral(m) && !Numeric(m) && CharAt(tail, 0) == ','
    requires Spells(data, s.c.p, NumeralText(m) + tail)
    ensures Refuses(data, s)
  {
    hide *;
    SeekingAt(s);
    CommaFirst(tail);
    Regrouped(NumeralText(m), ",", tail[1..]);
    SpellsSplit(data, s.c.p, NumeralText(m) + ",", tail[1..]);
    NumeralIs(data, s, m);
  }

  lemma CommaFirst(tail: string)
    requires CharAt(tail, 0) == ','
    ensures tail != "" && tail == "," + tail[1..]
  {
  }

  lemma RefusedNumber(data: string, s: Scan, n: int)
    requires AtValue(true, s) && 0 <= s.c.p + |Decimal(n)| <= |data|
    requires var c := CharAt(data, s.c.p + |Decimal(n)|); c == '/' || (n == 0 && Digit(c))
    ensures Step(true, data, NumberRead(s, n)) == Reject
  {
    hide Decimal, Digits, Family, Attach;
  }

  lemma StringRefuses(data: string, s: Scan, ps: seq<Piece>, tail: string)
    requires Seeking(s) && AllRight(ps) && Spells(data, s.c.p, "\"" + Texts(ps))
    requires RestIs(data, s.c.p + 1 + |Texts(ps)|, tail) && (!Fits(ps) || BadInside(tail))
    ensures Refuses(data, s)
  {
    hide *;
    SpellsSplit(data, s.c.p, "\"", Texts(ps));
    SpellsHere(data, s.c.p, "\"");
    var t := QuoteOpened(data, s);
    QuotedRefuses(data, t, ps, tail);
    StepReaches(true, data, s, t);
    RefusesBack(data, s, t);
  }

  lemma QuoteOpened(data: string, s: Scan) returns (t: Scan)
    requires Seeking(s) && 0 <= s.c.p < |data| && data[s.c.p] == '"'
    ensures Step(true, data, s) == Go(t) && Quoted(t) && t.c.len == 0 && t.c.p == s.c.p + 1
  {
    hide Step, Family;
    QuoteBegins(true, data, s);
    var u := New(true, s.(c := s.c.(p := s.c.p + 1, seek := false)), Str).s;
    t := u.(c := u.c.(str := true, len := 0));
  }

  lemma WordRefuses(data: string, s: Scan, w: string)
    requires Seeking(s) && InContainer(s) && RightWord(w) && Spells(data, s.c.p, w) && 0 <= s.c.p + |w| <= |data|
    requires var c := CharAt(data, s.c.p + |w|); c == '\0' || c == '"'
    ensures Refuses(data, s)
  {
    hide *;
    WordLoose(w);
    var t := WordOpened(data, s, w);
    StepReaches(true, data, s, t);
    UnquotedTop(t);
    PutFirst(t, w);
    ScanLoose(true, data, t, w);
    PutUnquoted(t, w);
    var u := Move(Put(true, t, w).s, s.c.p + |w|);
    MovedAt(Put(true, t, w).s, s.c.p + |w|);
    RefusedWord(data, u);
    RefusesHere(data, u);
    RefusesBack(data, t, u);
    RefusesBack(data, s, t);
  }

  lemma WordLoose(w: string)
    requires RightWord(w)
    ensures |w| <= MAX_SIZE && forall i | 0 <= i < |w| :: Loose(w[i])
  {
  }

  lemma WordOpened(data: string, s: Scan, w: string) returns (t: Scan)
    requires Seeking(s) && InContainer(s) && RightWord(w) && Spells(data, s.c.p, w)
    requires var c := CharAt(data, s.c.p + |w|); c == '\0' || c == '"'
    ensures Step(true, data, s) == Go(t) && Unquoted(t) && !TopIs(t, Object) && t.c.len == 0 && t.c.p == s.c.p
  {
    hide Step, Spells, Family, RightWord, CharAt;
    WordBegins(true, data, s, w);
    t := Bare(New(true, s.(c := s.c.(seek := false)), Str).s);
  }

  lemma UnquotedTop(t: Scan)
    requires Unquoted(t)
    ensures HasTop(t)
  {
  }

  lemma PutUnquoted(t: Scan, w: string)
    requires Unquoted(t) && Put(true, t, w).Go?
    ensures Unquoted(Move(Put(true, t, w).s, t.c.p + |w|))
  {
  }

  lemma RefusedWord(data: string, s: Scan)
    requires Unquoted(s) && 0 <= s.c.p <= |data| && (CharAt(data, s.c.p) == '\0' || CharAt(data, s.c.p) == '"')
    ensures Step(true, data, s) == Reject
  {
  }

  lemma CommentRefuses(data: string, s: Scan, text: string)
    requires Seeking(s) && OpenComment(text) && Spells(data, s.c.p, "/*" + text)
    requires var p := s.c.p + |text| + 2; 0 <= p <= |data| && CharAt(data, p) == '\0'
    ensures Refuses(data, s)
  {
    hide *;
    SeekingAt(s);
    SeekingMoved(s, s.c.p);
    var t := OpensBlock(true, data, s, text);
    RefusedComment(data, s, t);
    RefusesHere(data, t);
    RefusesBack(data, s, t);
  }

  lemma RefusedComment(data: string, s: Scan, t: Scan)
    requires Between(s) && t == s.(c := s.c.(p := t.c.p, block := true))
    requires 0 <= t.c.p <= |data| && CharAt(data, t.c.p) == '\0'
    ensures Step(true, data, t) == Reject
  {
  }

  lemma FrameInside(s: Scan, frames: seq<Frame>)
    requires frames != [] && TopIs(s, KindOf(frames[|frames| - 1]))
    ensures InContainer(s)
  {
  }

  lemma NameStringRefuses(data: string, s: Scan, inside: seq<Gap>, entries: seq<Entry>, before: seq<Gap>,
      ps: seq<Piece>, tail: string)
    requires Seeking(s) && RightGaps(inside) && RightEntriesDone(entries)
    requires RightGaps(before) && AllRight(ps) && (!Fits(ps) || BadInside(tail))
    requires var a, b := RecordText(inside, entries), GapsText(before);
      && Spells(data, s.c.p, a + b + ("\"" + Texts(ps)))
      && RestIs(data, s.c.p + |a| + |b| + 1 + |Texts(ps)|, tail)
    ensures Refuses(data, s)
  {
    hide *;
    var a, b := RecordText(inside, entries), GapsText(before);
    SeekingAt(s);
    ThreeHere(data, s.c.p, a, b, "\"" + Texts(ps));
    SpellsSplit(data, s.c.p + |a| + |b|, "\"", Texts(ps));
    SpellsHere(data, s.c.p + |a| + |b|, "\"");
    var u := EnterRecord(data, s, inside, entries);
    InsideTakes(u, Object, 1);
    var v := OverGaps(data, u, Object, 1, before);
    InsideTakes(v, Object, 1);
    NameBegins(true, data, v);
    var t := v.(c := v.c.(str := true, len := 0, p := v.c.p + 1));
    NameQuoted(v);
    QuotedRefuses(data, t, ps, tail);
    StepReaches(true, data, v, t);
    RefusesBack(data, v, t);
    RefusesBack(data, u, v);
    RefusesBack(data, s, u);
  }

  lemma NameQuoted(s: Scan)
    requires AtName(true, s)
    ensures Quoted(s.(c := s.c.(str := true, len := 0, p := s.c.p + 1)))
  {
    hide Sane;
  }

  lemma PlaceRefuses(data: string, s: Scan, frames: seq<Frame>, at: Place, tail: string)
    requires Seeking(s) && RightPlace(at) && Spells(data, s.c.p, PlaceText(at) + tail) && Spoils(frames, at, tail)
    requires s.c.p + |PlaceText(at)| + |tail| == |data|
    requires if frames == [] then s.c.top == -1 else TopIs(s, KindOf(frames[|frames| - 1]))
    ensures Refuses(data, s)
  {
    hide *;
    TailHere(data, s.c.p, PlaceText(at), tail);
    PlaceIs(at);
    SpoilsIs(frames, at, tail);
    match at
    case AtStart => StartRefuses(data, s, frames, tail);
    case InObject(inside, entries) => ObjectRefuses(data, s, inside, entries);
    case BehindName(inside, entries, before, name, after) => NameRefuses(data, s, inside, entries, before, name, after);
    case BehindValue(doc, after) => ValueRefuses(data, s, frames, doc, after, tail);
    case BehindNumber(n) => NumberRefuses(data, s, n);
    case BehindNumeral(m) => NumeralRefuses(data, s, m, tail);
    case InString(pieces) => StringRefuses(data, s, pieces, tail);
    case InWord(text) =>
      FrameInside(s, frames);
      WordRefuses(data, s, text);
    case InComment(text) => CommentRefuses(data, s, text);
    case InName(inside, entries, before, pieces) =>
      NameStringRefuses(data, s, inside, entries, before, pieces, tail);
  }

  lemma PlaceIs(at: Place)
    requires RightPlace(at)
    ensures at.AtStart? ==> PlaceText(at) == ""
    ensures at.InObject? ==> PlaceText(at) == RecordText(at.inside, at.entries)
    ensures at.InObject? || at.BehindName? || at.InName? ==> RightGaps(at.inside) && RightEntriesDone(at.entries)
    ensures at.BehindName? ==>
              PlaceText(at) == RecordText(at.inside, at.entries) + HeadText(at.before, at.name, at.after)
    ensures at.BehindName? ==> RightHead(at.before, at.name, at.after) && (at.name.Chars? ==> at.after != [])
    ensures at.BehindValue? ==> PlaceText(at) == Write(at.doc) + GapsText(at.after)
    ensures at.BehindValue? ==> RightDoc(at.doc) && Definite(at.doc) && Countable(Plain(at.doc))
    ensures at.BehindValue? ==> RightGaps(at.after)
    ensures at.InString? ==> PlaceText(at) == "\"" + Texts(at.pieces)
    ensures at.InString? || at.InName? ==> AllRight(at.pieces)
    ensures at.InWord? ==> PlaceText(at) == at.text && RightWord(at.text)
    ensures at.InComment? ==> PlaceText(at) == "/*" + at.text && OpenComment(at.text)
    ensures at.InName? ==> RightGaps(at.before)
    ensures at.InName? ==>
              PlaceText(at) == RecordText(at.inside, at.entries) + GapsText(at.before) + ("\"" + Texts(at.pieces))
    ensures at.BehindNumber? ==> PlaceText(at) == Decimal(at.n) && INT64_MIN < at.n <= INT64_MAX
    ensures at.BehindNumeral? ==> PlaceText(at) == NumeralText(at.m) && RightNumeral(at.m)
  {
    hide GapsText, RecordText, HeadText, Write, Texts, RightGaps, RightEntriesDone, RightHead, AllRight, Fits, RightDoc;
    hide OpenComment, Bounded, Plain, Definite, Decimal, NumeralText, RightNumeral, RightWord;
  }

  lemma SpoilsIs(frames: seq<Frame>, at: Place, tail: string)
    requires Spoils(frames, at, tail)
    ensures at.InObject? ==> CharAt(tail, 0) == '\0'
    ensures at.BehindName? ==> CharAt(tail, 0) !in " \t\r\n/:"
    ensures at.InString? || at.InName? ==> !Fits(at.pieces) || BadInside(tail)
    ensures at.InComment? ==> CharAt(tail, 0) == '\0'
    ensures at.InWord? ==> frames != [] && (CharAt(tail, 0) == '\0' || CharAt(tail, 0) == '"')
    ensures at.BehindNumber? ==> CharAt(tail, 0) == '/' || (at.n == 0 && Digit(CharAt(tail, 0)))
    ensures at.BehindNumeral? ==> CharAt(tail, 0) == ',' && !Numeric(at.m)
  {
    hide CharAt, BadInside, Numeric, Fits;
  }

  /** A text with a flaw is refused, however deep the flaw is and whatever follows it. */
  lemma FlawIsRefused(whole: string, before: seq<Gap>, frames: seq<Frame>, at: Place, tail: string)
    requires RightGaps(before) && RightFrames(frames) && RightPlace(at) && Spoils(frames, at, tail)
    requires SkipMark(whole) == GapsText(before) + FramesText(frames) + (PlaceText(at) + tail)
    ensures Reading(whole) == None
  {
    hide *;
    var data, s := SkipMark(whole), Start([]);
    var a, b := GapsText(before), FramesText(frames);
    WholeSpells(data);
    ThreeHere(data, 0, a, b, PlaceText(at) + tail);
    NoFamily();
    StartAtValue(true, data, []);
    StartSeeks();
    var u := SeekingGaps(data, s, before);
    MovedAt(s, |a|);
    var t := EnterFrames(data, u, frames);
    PlaceRefuses(data, t, frames, at, tail);
    RefusesBack(data, u, t);
    RefusesBack(data, s, u);
    NoReading(whole);
  }

  lemma StartSeeks()
    ensures Seeking(Start([]))
  {
    NoFamily();
  }

  lemma MovedAt(s: Scan, p: int)
    ensures Move(s, p).c.top == s.c.top && Move(s, p).c.p == p
  {
  }

  lemma NoReading(whole: string)
    requires Refuses(SkipMark(whole), Start([])) && Inv(true, SkipMark(whole), Start([]))
    ensures Reading(whole) == None
  {
    hide Run, Inv, SkipMark;
  }

  /** Every right spelling of a string is decoded to the bytes it spells, unless these are too
      many. */
  lemma StringIsRead(ps: seq<Piece>)
    requires AllRight(ps)
    ensures Reading("\"" + Texts(ps) + "\"") == if |Bytes(ps)| <= MAX_SIZE then Some(Text(Bytes(ps))) else None
  {
    hide Texts, Bytes, AllRight;
    var whole := "\"" + Texts(ps) + "\"";
    if |Bytes(ps)| <= MAX_SIZE {
      TextIsRead(false, [], Spelled(ps), [], "");
      assert WholeText([], Spelled(ps), [], "") == whole;
    } else {
      assert SkipMark(whole) == GapsText([]) + FramesText([]) + (PlaceText(InString(ps)) + "\"");
      FlawIsRefused(whole, [], [], InString(ps), "\"");
    }
  }
}
