/** Texts of JSON values with white space and comments between their tokens and with every way
    of spelling their strings: what is decoded depends on neither. */
module JsonDocs {
  import opened JsonText
  import opened JsonMembers
  import opened JsonValue
  import opened JsonSpelling
  import opened JsonScan
  import opened JsonPasses
  import opened JsonAgree
  import opened JsonBuild
  import opened JsonMeasure
  import opened JsonFill
  import opened JsonRoundTrip
  import opened JsonGaps
  import opened JsonTwins
  import opened JsonWords
  import opened Wrappers

  /** How a value is written down. */
  datatype Doc =
    | Spelled(pieces: seq<Piece>)
    | Number(n: int)
    | Truth(b: bool)
    | Word(text: string)
    | List(inside: seq<Gap>, slots: seq<Slot>)
    | Record(inside: seq<Gap>, entries: seq<Entry>)

  /** A value and the gaps around it. */
  datatype Slot = Slot(ahead: seq<Gap>, doc: Doc, behind: seq<Gap>)

  /** A member: its name, a colon and its value. */
  datatype Entry = Entry(before: seq<Gap>, name: Label, after: seq<Gap>, slot: Slot)

  /** A name in quotes, or one that needs none. */
  datatype Label = Pieces(pieces: seq<Piece>) | Chars(text: string)

  function InQuotation(ps: seq<Piece>): string { "\"" + Texts(ps) + "\"" }

  function LabelText(n: Label): string { if n.Pieces? then InQuotation(n.pieces) else n.text }

  function LabelBytes(n: Label): string { if n.Pieces? then Bytes(n.pieces) else n.text }

  function Write(d: Doc): string
    decreases d, 1
  {
    match d
    case Spelled(pieces) => InQuotation(pieces)
    case Number(n) => Decimal(n)
    case Truth(b) => if b then "true" else "false"
    case Word(text) => text
    case List(inside, slots) => "[" + (GapsText(inside) + WriteSlots(slots)) + "]"
    case Record(inside, entries) => "{" + (GapsText(inside) + WriteEntries(entries)) + "}"
  }

  function WriteSlot(t: Slot): string
    decreases t, 2
  {
    GapsText(t.ahead) + Write(t.doc) + GapsText(t.behind)
  }

  function WriteSlots(slots: seq<Slot>): string
    decreases slots, 0
  {
    if slots == [] then ""
    else if |slots| == 1 then WriteSlot(slots[0])
    else WriteSlot(slots[0]) + ("," + WriteSlots(slots[1..]))
  }

  function WriteEntry(e: Entry): string
    decreases e, 3
  {
    GapsText(e.before) + LabelText(e.name) + (GapsText(e.after) + ":") + WriteSlot(e.slot)
  }

  function WriteEntries(entries: seq<Entry>): string
    decreases entries, 0
  {
    if entries == [] then ""
    else if |entries| == 1 then WriteEntry(entries[0])
    else WriteEntry(entries[0]) + ("," + WriteEntries(entries[1..]))
  }

  /** The value that is written down. */
  function Plain(d: Doc): Value
    decreases d, 1
  {
    match d
    case Spelled(pieces) => Text(Bytes(pieces))
    case Number(n) => Int(n)
    case Truth(b) => Bool(b)
    case Word(text) => Text(text)
    case List(_, slots) => Arr(PlainSlots(slots))
    case Record(_, entries) => Obj(PlainEntries(entries))
  }

  /** A number is taken for one only if a comma follows at once. */
  predicate Wordlike(k: Slot, last: bool) { k.doc.Number? && (last || k.behind != []) }

  function PlainSlot(k: Slot, last: bool): Value
    decreases k, 2
  {
    if Wordlike(k, last) then Text(Decimal(k.doc.n)) else Plain(k.doc)
  }

  function PlainSlots(slots: seq<Slot>): (r: seq<Value>)
    ensures |r| == |slots|
    decreases slots, 0
  {
    if slots == [] then [] else [PlainSlot(slots[0], |slots| == 1)] + PlainSlots(slots[1..])
  }

  function PlainEntries(entries: seq<Entry>): (r: seq<Member<Value>>)
    ensures |r| == |entries|
    decreases entries, 0
  {
    if entries == [] then []
    else [Member(LabelBytes(entries[0].name), PlainSlot(entries[0].slot, |entries| == 1))] + PlainEntries(entries[1..])
  }

  /** Strings are spelled right and not too long, numbers have 64 bits, and no comment follows
      a number, or a string or name without quotes, at once. */
  ghost predicate RightDoc(d: Doc)
    decreases d, 1
  {
    match d
    case Spelled(pieces) => AllRight(pieces) && Fits(pieces)
    case Number(n) => INT64_MIN < n <= INT64_MAX
    case Word(text) => RightWord(text)
    case List(inside, slots) => RightGaps(inside) && RightSlots(slots)
    case Record(inside, entries) => RightGaps(inside) && RightEntries(entries)
    case _ => true
  }

  ghost predicate RightSlot(k: Slot)
    decreases k, 2
  {
    && RightGaps(k.ahead) && RightDoc(k.doc) && RightGaps(k.behind)
    && (k.doc.Number? || k.doc.Word? ==> k.behind == [] || k.behind[0].Blank?)
  }

  ghost predicate RightSlots(slots: seq<Slot>)
    decreases slots, 0
  {
    slots == [] || (RightSlot(slots[0]) && RightSlots(slots[1..]))
  }

  ghost predicate RightEntry(e: Entry)
    decreases e, 3
  {
    RightGaps(e.before) && RightLabel(e.name, e.after) && RightGaps(e.after) && RightSlot(e.slot)
  }

  /** A name in front of a gap. */
  ghost predicate RightLabel(n: Label, after: seq<Gap>) {
    match n
    case Pieces(pieces) => AllRight(pieces) && Fits(pieces)
    case Chars(text) => RightName(text) && (after == [] || after[0].Blank?)
  }

  ghost predicate RightEntries(entries: seq<Entry>)
    decreases entries, 0
  {
    entries == [] || (RightEntry(entries[0]) && RightEntries(entries[1..]))
  }

  lemma {:induction false} RightPrintable(d: Doc)
    requires RightDoc(d)
    ensures Printable(Plain(d))
    decreases d, 1
  {
    match d
    case List(_, slots) => SlotsPrintable(slots);
    case Record(_, entries) => EntriesPrintable(entries);
    case _ =>
  }

  lemma {:induction false} SlotPrintable(k: Slot, last: bool)
    requires RightSlot(k)
    ensures Printable(PlainSlot(k, last))
    decreases k, 2
  {
    hide Decimal;
    RightPrintable(k.doc);
    if k.doc.Number? { DecimalShort(k.doc.n); }
  }

  lemma {:induction false} SlotsPrintable(slots: seq<Slot>)
    requires RightSlots(slots)
    ensures Printable(Arr(PlainSlots(slots)))
    decreases slots, 0
  {
    if slots != [] {
      SlotPrintable(slots[0], |slots| == 1);
      SlotsPrintable(slots[1..]);
      PartsPrintable(Arr(PlainSlots(slots[1..])));
      hide PlainSlot, RightSlots;
    }
  }

  lemma {:induction false} EntriesPrintable(entries: seq<Entry>)
    requires RightEntries(entries)
    ensures Printable(Obj(PlainEntries(entries)))
    decreases entries, 0
  {
    if entries != [] {
      SlotPrintable(entries[0].slot, |entries| == 1);
      EntriesPrintable(entries[1..]);
      PartsPrintable(Obj(PlainEntries(entries[1..])));
      hide PlainSlot, RightEntries, LabelBytes;
    }
  }

  // ---------------------------------------------------------------- states in step

  lemma AtValueAlike(first: bool, a: Scan, b: Scan)
    requires SameBut(a, b) && AtValue(first, a)
    ensures AtValue(first, b) && Between(b)
  {
    FamilySame(a.nodes, b.nodes);
    TopTwins(a, b);
    SameLength(a.nodes, b.nodes);
    hide Family, SameNodes;
  }

  lemma AtNameAlike(first: bool, a: Scan, b: Scan)
    requires SameBut(a, b) && AtName(first, a)
    ensures AtName(first, b) && Between(b)
  {
    FamilySame(a.nodes, b.nodes);
    TopTwins(a, b);
    SameLength(a.nodes, b.nodes);
    hide Family, SameNodes;
  }

  lemma InsideAlike(a: Scan, b: Scan)
    requires SameBut(a, b)
    ensures InContainer(b) <==> InContainer(a)
    ensures TopIs(b, Array) <==> TopIs(a, Array)
    ensures TopIs(b, Object) <==> TopIs(a, Object)
  {
    TopTwins(a, b);
    hide SameNodes;
  }

  // ---------------------------------------------------------------- reading what is written

  /** From `s` the pass comes `n` characters on to `t`, which is like the end of `o`. */
  ghost predicate Follows(first: bool, data: string, s: Scan, o: Outcome, t: Scan, n: nat) {
    Reaches(first, data, s, t) && o.Go? && SameBut(o.s, t) && t.c.p == s.c.p + n
  }

  /** What has to stand behind a value. */
  predicate Stops(d: Doc, b: char) {
    && (d.Number? ==> Closes(b, false))
    && (d.Word? ==> Closes(b, true) || Closes(b, false))
  }

  lemma OverAt(first: bool, s: Scan, t: Scan, n: nat)
    requires Over(first, s, t, n)
    ensures t.c.p == s.c.p + n
  {
  }

  lemma {:induction false} ScanDoc(first: bool, data: string, s: Scan, s0: Scan, d: Doc, last: bool) returns (t: Scan)
    requires AtValue(first, s0) && s0.c.p >= 0 && SameBut(s0, s) && RightDoc(d) && Spells(data, s.c.p, Write(d))
    requires Stops(d, CharAt(data, s.c.p + |Write(d)|)) && (d.Number? ==> !last) && (d.Word? ==> InContainer(s0))
    requires Build(first, s0, Plain(d), last).Go?
    ensures Follows(first, data, s, Build(first, s0, Plain(d), last), t, |Write(d)|)
    decreases d, 1
  {
    hide *;
    StopsNumber(d, CharAt(data, s.c.p + |Write(d)|));
    match d
    case Spelled(pieces) => t := ScanSpelled(first, data, s, s0, d, last);
    case Number(n) => t := ScanDigitsOf(first, data, s, s0, d);
    case Truth(b) => t := ScanTruth(first, data, s, s0, d, last);
    case Word(_) => t := ScanWordOf(first, data, s, s0, d, last);
    case List(_, _) => t := ScanList(first, data, s, s0, d, last);
    case Record(_, _) => t := ScanRecord(first, data, s, s0, d, last);
   
  }

  lemma StopsNumber(d: Doc, b: char)
    requires Stops(d, b)
    ensures d.Number? ==> Closes(b, false)
  {
    hide Closes;
  }

  lemma ScanSpelled(first: bool, data: string, s: Scan, s0: Scan, d: Doc, last: bool) returns (t: Scan)
    requires AtValue(first, s0) && SameBut(s0, s) && d.Spelled? && RightDoc(d) && Spells(data, s.c.p, Write(d))
    requires Build(first, s0, Plain(d), last).Go?
    ensures Follows(first, data, s, Build(first, s0, Plain(d), last), t, |Write(d)|)
  {
    hide *;
    var ps, text := d.pieces, Bytes(d.pieces);
    var m, n := |Quote(text)|, |Texts(ps)|;
    SpelledIs(first, s0, d, last);
    AtValueAlike(first, s0, s);
    StrAlike(first, s0, s, text, m, n);
    AlikeGoes(BuildStr(first, s0, text, m), BuildStr(first, s, text, n));
    ScanStr(first, data, s, ps);
    t := BuildStr(first, s, text, n).s;
    OverAt(first, s, t, n + 2);
    FollowsIs(first, data, s, Build(first, s0, Plain(d), last), Go(t), n + 2);
  }

  lemma ScanDigitsOf(first: bool, data: string, s: Scan, s0: Scan, d: Doc) returns (t: Scan)
    requires AtValue(first, s0) && SameBut(s0, s) && d.Number? && RightDoc(d) && Spells(data, s.c.p, Write(d))
    requires Closes(CharAt(data, s.c.p + |Write(d)|), false) && Build(first, s0, Plain(d), false).Go?
    ensures Follows(first, data, s, Build(first, s0, Plain(d), false), t, |Write(d)|)
  {
    hide *;
    var n := d.n;
    NumberIs(first, s0, d);
    AtValueAlike(first, s0, s);
    DecimalShort(n);
    var o, q := BuildInt(first, s0, n, false), BuildInt(first, s, n, false);
    if first { IntAlikeFirst(s0, s, n); } else { IntAlikeSecond(s0, s, n); }
    AlikeGoes(o, q);
    if first { ScanIntFirst(data, s, n, false); } else { ScanIntSecond(data, s, n, false); }
    t := q.s;
    OverAt(first, s, t, |Decimal(n)|);
    FollowsIs(first, data, s, o, q, |Decimal(n)|);
  }

  /** A number that no comma follows at once is a string. */
  lemma ScanLooseNumber(first: bool, data: string, s: Scan, s0: Scan, d: Doc, last: bool) returns (t: Scan)
    requires AtValue(first, s0) && SameBut(s0, s) && d.Number? && RightDoc(d) && Spells(data, s.c.p, Write(d))
    requires Closes(CharAt(data, s.c.p + |Write(d)|), true) && Build(first, s0, Text(Decimal(d.n)), last).Go?
    ensures Follows(first, data, s, Build(first, s0, Text(Decimal(d.n)), last), t, |Write(d)|)
  {
    hide *;
    var n, m := d.n, |Quote(Decimal(d.n))|;
    NumberIs(first, s0, d);
    TextBuilds(first, s0, Decimal(n), last);
    AtValueAlike(first, s0, s);
    DecimalShort(n);
    var o, q := BuildStr(first, s0, Decimal(n), m), BuildInt(first, s, n, true);
    if first { DigitsAlikeFirst(s0, s, n, m); } else { DigitsAlikeSecond(s0, s, n, m); }
    AlikeGoes(o, q);
    if first { ScanIntFirst(data, s, n, true); } else { ScanIntSecond(data, s, n, true); }
    t := q.s;
    OverAt(first, s, t, |Decimal(n)|);
    FollowsIs(first, data, s, o, q, |Decimal(n)|);
  }

  lemma TextBuilds(first: bool, s: Scan, text: string, last: bool)
    ensures Build(first, s, Text(text), last) == BuildStr(first, s, text, |Quote(text)|)
  {
    hide BuildStr, Quote;
  }

  lemma ScanTruth(first: bool, data: string, s: Scan, s0: Scan, d: Doc, last: bool) returns (t: Scan)
    requires AtValue(first, s0) && SameBut(s0, s) && d.Truth? && Spells(data, s.c.p, Write(d))
    requires Build(first, s0, Plain(d), last).Go?
    ensures Follows(first, data, s, Build(first, s0, Plain(d), last), t, |Write(d)|)
  {
    hide *;
    var b, n := d.b, |Write(d)|;
    var u0, u := s0.(c := s0.c.(seek := false)), s.(c := s.c.(seek := false));
    TruthIs(first, s0, d, last);
    TruthIs(first, s, d, false);
    AtValueAlike(first, s0, s);
    SeekSame(s0, s);
    AtomAlike(first, u0, u, b, s0.c.p + n, s.c.p + n);
    AlikeGoes(Atom(first, u0, Boolean, b, s0.c.p + n), Atom(first, u, Boolean, b, s.c.p + n));
    ScanBool(first, data, s, b);
    t := Build(first, s, Bool(b), false).s;
    OverAt(first, s, t, n);
    FollowsIs(first, data, s, Build(first, s0, Plain(d), last), Go(t), n);
  }

  lemma SeekSame(a: Scan, b: Scan)
    requires SameBut(a, b)
    ensures SameBut(a.(c := a.c.(seek := false)), b.(c := b.c.(seek := false)))
  {
  }

  lemma TruthIs(first: bool, s: Scan, d: Doc, last: bool)
    requires d.Truth?
    ensures Build(first, s, Plain(d), last)
         == Atom(first, s.(c := s.c.(seek := false)), Boolean, d.b, s.c.p + |Write(d)|)
    ensures Plain(d) == Bool(d.b) && Write(d) == Print(Bool(d.b)) == if d.b then "true" else "false"
  {
    hide Atom;
  }

  lemma ScanWordOf(first: bool, data: string, s: Scan, s0: Scan, d: Doc, last: bool) returns (t: Scan)
    requires AtValue(first, s0) && InContainer(s0) && SameBut(s0, s) && d.Word? && RightDoc(d)
    requires Spells(data, s.c.p, Write(d)) && Stops(d, CharAt(data, s.c.p + |Write(d)|))
    requires Build(first, s0, Plain(d), last).Go?
    ensures Follows(first, data, s, Build(first, s0, Plain(d), last), t, |Write(d)|)
  {
    hide *;
    var w, m, c := d.text, |Quote(d.text)|, CharAt(data, s.c.p + |Write(d)|);
    WordIs(first, s0, d, c, last);
    AtValueAlike(first, s0, s);
    InsideAlike(s0, s);
    WordAlike(first, s0, s, w, m);
    var o, q := BuildStr(first, s0, w, m), BuildBare(first, s, w);
    AlikeGoes(o, q);
    ScanBareWord(first, data, s, w, Closes(c, true));
    t := q.s;
    OverAt(first, s, t, |w|);
    FollowsIs(first, data, s, o, q, |w|);
  }

  lemma WordIs(first: bool, s: Scan, d: Doc, c: char, last: bool)
    requires d.Word?
    ensures Build(first, s, Plain(d), last) == BuildStr(first, s, d.text, |Quote(d.text)|) && Write(d) == d.text
    ensures RightDoc(d) <==> RightWord(d.text)
    ensures Stops(d, c) ==> Closes(c, Closes(c, true))
  {
    hide BuildStr, Quote, RightWord;
  }

  lemma FollowsIs(first: bool, data: string, s: Scan, o: Outcome, q: Outcome, n: nat)
    requires q.Go? && Reaches(first, data, s, q.s) && o.Go? && Alike(o, q) && q.s.c.p == s.c.p + n
    ensures Follows(first, data, s, o, q.s, n)
  {
    hide Reaches;
  }

  lemma NumberIs(first: bool, s: Scan, d: Doc)
    requires d.Number?
    ensures Build(first, s, Plain(d), false) == BuildInt(first, s, d.n, false) && Write(d) == Decimal(d.n)
    ensures RightDoc(d) <==> INT64_MIN < d.n <= INT64_MAX
  {
    hide BuildInt, Decimal;
  }

  lemma SpelledIs(first: bool, s: Scan, d: Doc, last: bool)
    requires d.Spelled?
    ensures Build(first, s, Plain(d), last) == BuildStr(first, s, Bytes(d.pieces), |Quote(Bytes(d.pieces))|)
    ensures Write(d) == "\"" + Texts(d.pieces) + "\""
    ensures RightDoc(d) <==> AllRight(d.pieces) && Fits(d.pieces)
  {
    hide BuildStr, Quote, Texts, Bytes, AllRight, Fits;
  }

  lemma FollowsGaps(first: bool, data: string, s: Scan, o: Outcome, t: Scan, n: nat, gs: seq<Gap>) returns (u: Scan)
    requires Follows(first, data, s, o, t, n) && Between(t) && RightGaps(gs) && Spells(data, t.c.p, GapsText(gs))
    ensures Follows(first, data, s, o, u, n + |GapsText(gs)|) && u == Move(t, u.c.p)
  {
    hide Reaches, Spells, Between, RightGaps, GapsText, SameBut;
    ScanGaps(first, data, t, gs);
    u := Move(t, t.c.p + |GapsText(gs)|);
    ReachesTrans(first, data, s, t, u);
    SameMoved(o.s, t, u.c.p);
  }

  lemma FollowsOn(first: bool, data: string, s: Scan, o: Outcome, t: Scan, n: nat, q: Outcome, u: Scan, m: nat)
    requires Follows(first, data, s, o, t, n) && Follows(first, data, t, q, u, m)
    ensures Follows(first, data, s, q, u, n + m)
  {
    hide Reaches;
    ReachesTrans(first, data, s, t, u);
  }

  lemma FollowsSelf(first: bool, data: string, s: Scan, s0: Scan)
    requires SameBut(s0, s)
    ensures Follows(first, data, s, Go(s0), s, 0)
  {
    hide Reaches;
    ReachesSelf(first, data, s);
  }

  /** The end of a slot. */
  predicate Ending(b: char, last: bool) { if last then b == ']' || b == '}' else b == ',' }

  lemma SlotText(data: string, p: int, t: Slot)
    requires Spells(data, p, WriteSlot(t))
    ensures var a, q, b := GapsText(t.ahead), Write(t.doc), GapsText(t.behind);
      && Spells(data, p, a) && Spells(data, p + |a|, q) && Spells(data, p + |a| + |q|, b)
      && |WriteSlot(t)| == |a| + |q| + |b|
  {
    var a, q, b := GapsText(t.ahead), Write(t.doc), GapsText(t.behind);
    assert WriteSlot(t) == a + q + b;
    hide Spells, GapsText, Write, WriteSlot;
    SpellsSplit(data, p, a + q, b);
    SpellsSplit(data, p, a, q);
  }

  lemma SlotStops(data: string, p: int, k: Slot, last: bool)
    requires RightSlot(k) && Spells(data, p, GapsText(k.behind))
    requires Ending(CharAt(data, p + |GapsText(k.behind)|), last)
    ensures if Wordlike(k, last) then Closes(CharAt(data, p), true)
            else Stops(k.doc, CharAt(data, p)) && (k.doc.Number? ==> !last)
  {
    if k.behind != [] && k.behind[0].Blank? {
      GapsBegin(k.behind);
      SpellsHere(data, p, GapsText(k.behind));
    }
    hide Spells, GapsText, RightGaps, RightDoc;
    if k.behind == [] { assert GapsText(k.behind) == "" by { GapsNone(); } }
  }

  lemma GapsNone()
    ensures GapsText([]) == ""
  {
  }

  lemma GapsBegin(gs: seq<Gap>)
    requires gs != [] && gs[0].Blank? && RightGaps(gs)
    ensures GapsText(gs) != "" && Space(GapsText(gs)[0])
  {
    assert RightGap(gs[0]);
  }

  lemma {:induction false} ScanSlot(first: bool, data: string, s: Scan, s0: Scan, k: Slot, last: bool) returns (t: Scan)
    requires AtValue(first, s0) && InContainer(s0) && s0.c.p >= 0 && SameBut(s0, s) && RightSlot(k)
    requires Spells(data, s.c.p, WriteSlot(k)) && Ending(CharAt(data, s.c.p + |WriteSlot(k)|), last)
    requires Build(first, s0, PlainSlot(k, last), last).Go?
    ensures Follows(first, data, s, Build(first, s0, PlainSlot(k, last), last), t, |WriteSlot(k)|)
    decreases k, 2
  {
    hide *;
    var a, q, b, v := |GapsText(k.ahead)|, |Write(k.doc)|, |GapsText(k.behind)|, PlainSlot(k, last);
    SlotText(data, s.c.p, k);
    SlotStops(data, s.c.p + a + q, k, last);
    SlotRight(k, last);
    AtValueAlike(first, s0, s);
    FollowsSelf(first, data, s, s0);
    var u := FollowsGaps(first, data, s, Go(s0), s, 0, k.ahead);
    FollowsAt(first, data, s, Go(s0), u, a);
    var o := Build(first, s0, v, last);
    var x;
    if Wordlike(k, last) {
      x := ScanLooseNumber(first, data, u, s0, k.doc, last);
    } else {
      x := ScanDoc(first, data, u, s0, k.doc, last);
    }
    FollowsOn(first, data, s, Go(s0), u, a, o, x, q);
    FollowsAt(first, data, s, o, x, a + q);
    BuildOver(first, s0, v, last);
    OverBetween(first, s0, o.s, x, |Print(v)|);
    t := FollowsGaps(first, data, s, o, x, a + q, k.behind);
  }

  lemma FollowsAt(first: bool, data: string, s: Scan, o: Outcome, t: Scan, n: nat)
    requires Follows(first, data, s, o, t, n)
    ensures o.Go? && SameBut(o.s, t) && t.c.p == s.c.p + n
  {
    hide Reaches, SameBut;
  }

  lemma SlotRight(k: Slot, last: bool)
    requires RightSlot(k)
    ensures RightGaps(k.ahead) && RightDoc(k.doc) && RightGaps(k.behind) && Printable(PlainSlot(k, last))
    ensures Wordlike(k, last) ==> k.doc.Number? && PlainSlot(k, last) == Text(Decimal(k.doc.n))
    ensures !Wordlike(k, last) ==> PlainSlot(k, last) == Plain(k.doc)
  {
    hide RightGaps, Decimal;
    SlotPrintable(k, last);
  }

  lemma OverBetween(first: bool, s: Scan, x: Scan, t: Scan, n: nat)
    requires AtValue(first, s) && Over(first, s, x, n) && SameBut(x, t)
    ensures Between(t)
  {
    InsideAlike(x, t);
    hide Sane, SameNodes;
  }

  lemma PartAndRest(data: string, p: int, a: string, rest: string)
    requires Spells(data, p, a + ("," + rest))
    ensures Spells(data, p, a) && 0 <= p + |a| < |data| && data[p + |a|] == ',' && Spells(data, p + |a| + 1, rest)
    ensures |a + ("," + rest)| == |a| + 1 + |rest|
  {
    hide Spells;
    SpellsSplit(data, p, a, "," + rest);
    SpellsSplit(data, p + |a|, ",", rest);
    SpellsHere(data, p + |a|, ",");
  }

  lemma CommaEnding(data: string, p: int)
    requires 0 <= p < |data| && data[p] == ','
    ensures Ending(CharAt(data, p), false)
  {
  }

  lemma LastEnding(data: string, p: int)
    requires CharAt(data, p) == ']' || CharAt(data, p) == '}'
    ensures Ending(CharAt(data, p), true)
  {
  }

  lemma SlotsText(data: string, p: int, slots: seq<Slot>)
    requires slots != [] && Spells(data, p, WriteSlots(slots)) && CharAt(data, p + |WriteSlots(slots)|) == ']'
    ensures Spells(data, p, WriteSlot(slots[0]))
    ensures var q := p + |WriteSlot(slots[0])|;
      Ending(CharAt(data, q), |slots| == 1)
    ensures var q, rest := p + |WriteSlot(slots[0])|, WriteSlots(slots[1..]);
      if |slots| == 1 then q == p + |WriteSlots(slots)|
      else 0 <= q < |data| && data[q] == ',' && Spells(data, q + 1, rest) && q + 1 + |rest| == p + |WriteSlots(slots)|
  {
    hide *;
    SlotsAre(slots);
    if |slots| > 1 {
      PartAndRest(data, p, WriteSlot(slots[0]), WriteSlots(slots[1..]));
      CommaEnding(data, p + |WriteSlot(slots[0])|);
    } else {
      LastEnding(data, p + |WriteSlot(slots[0])|);
    }
  }

  lemma SlotsAre(slots: seq<Slot>)
    requires slots != []
    ensures |slots| == 1 ==> WriteSlots(slots) == WriteSlot(slots[0])
    ensures |slots| > 1 ==> WriteSlots(slots) == WriteSlot(slots[0]) + ("," + WriteSlots(slots[1..]))
  {
    hide WriteSlot;
  }

  /** A comma behind a value inside a container. */
  lemma FollowsComma(first: bool, data: string, s: Scan, o: Outcome, x: Scan, n: nat)
    requires Follows(first, data, s, o, x, n) && InContainer(o.s) && o.s.c.comma && o.s.c.seek == TopIs(o.s, Array)
    requires !o.s.c.done && !o.s.c.str && !o.s.c.line && !o.s.c.block && 0 <= x.c.p < |data| && data[x.c.p] == ','
    ensures Follows(first, data, s, Go(Comma(o.s)), Comma(x), n + 1)
  {
    hide Reaches, SameNodes;
    InsideAlike(o.s, x);
    StepReaches(first, data, x, Comma(x)) by { CommaStep(first, data, x); }
    FollowsOn(first, data, s, o, x, n, Go(Comma(o.s)), Comma(x), 1);
  }

  lemma SlotsOn(first: bool, s: Scan, slots: seq<Slot>)
    requires slots != [] && RightSlots(slots) && AtValue(first, s) && s.c.p >= 0 && TopIs(s, Array)
    requires BuildItems(first, s, PlainSlots(slots)).Go?
    ensures RightSlot(slots[0]) && RightSlots(slots[1..])
    ensures var last, all := |slots| == 1, BuildItems(first, s, PlainSlots(slots));
      var o := Build(first, s, PlainSlot(slots[0], last), last);
      && o.Go? && InContainer(o.s) && o.s.c.comma && o.s.c.seek == TopIs(o.s, Array)
      && !o.s.c.done && !o.s.c.str && !o.s.c.line && !o.s.c.block
      && (last ==> all == o)
      && (!last ==> AtValue(first, Comma(o.s)) && Comma(o.s).c.p >= 0 && TopIs(Comma(o.s), Array))
      && (!last ==> all == BuildItems(first, Comma(o.s), PlainSlots(slots[1..])))
  {
    hide PlainSlot, RightSlot, Build, Family;
    var last := |slots| == 1;
    assert PlainSlots(slots)[0] == PlainSlot(slots[0], last) && PlainSlots(slots)[1..] == PlainSlots(slots[1..]);
    SlotRight(slots[0], last);
    BuildOver(first, s, PlainSlot(slots[0], last), last);
  }

  lemma Contains(s: Scan, kind: Kind)
    requires TopIs(s, kind) && (kind == Array || kind == Object)
    ensures InContainer(s)
  {
  }

  /** All slots of an array, up to its closing bracket. */
  lemma {:induction false} ScanSlots(first: bool, data: string, s: Scan, s0: Scan, slots: seq<Slot>) returns (t: Scan)
    requires AtValue(first, s0) && s0.c.p >= 0 && TopIs(s0, Array) && SameBut(s0, s) && RightSlots(slots)
    requires Spells(data, s.c.p, WriteSlots(slots)) && CharAt(data, s.c.p + |WriteSlots(slots)|) == ']'
    requires BuildItems(first, s0, PlainSlots(slots)).Go?
    ensures Follows(first, data, s, BuildItems(first, s0, PlainSlots(slots)), t, |WriteSlots(slots)|)
    decreases slots, 3
  {
    hide *;
    t := s;
    if slots == [] {
      FollowsSelf(first, data, s, s0);
      NoSlots(first, s0);
    } else {
      var last, k := |slots| == 1, |WriteSlot(slots[0])|;
      SlotsText(data, s.c.p, slots);
      SlotsOn(first, s0, slots);
      var o := Build(first, s0, PlainSlot(slots[0], last), last);
      Contains(s0, Array);
      t := ScanSlot(first, data, s, s0, slots[0], last);
      FollowsAt(first, data, s, o, t, k);
      if !last {
        var x, q := Comma(t), Go(Comma(o.s));
        FollowsComma(first, data, s, o, t, k);
        FollowsAt(first, data, s, q, x, k + 1);
        t := ScanSlots(first, data, x, q.s, slots[1..]);
        FollowsOn(first, data, s, q, x, k + 1, BuildItems(first, s0, PlainSlots(slots)), t, |WriteSlots(slots[1..])|);
      }
    }
  }

  lemma NoSlots(first: bool, s: Scan)
    ensures BuildItems(first, s, PlainSlots([])) == Go(s) && WriteSlots([]) == ""
  {
  }

  // ---------------------------------------------------------------- arrays

  /** A container is opened: for an array the pass seeks a value in it. */
  function Opening(first: bool, s: Scan, kind: Kind): Outcome {
    match New(first, s.(c := s.c.(seek := false, p := s.c.p + 1)), kind)
    case Go(t) => Go(t.(c := t.c.(seek := kind == Array)))
    case o => o
  }

  function Closing(first: bool, o: Outcome, kind: Kind): Outcome {
    if kind == Array then CloseArray(first, o) else CloseObject(first, o)
  }

  lemma OpeningAlike(first: bool, a: Scan, b: Scan, kind: Kind)
    requires SameBut(a, b)
    ensures Alike(Opening(first, a, kind), Opening(first, b, kind))
    ensures Opening(first, b, kind).Go? ==> Opening(first, b, kind).s.c.p == b.c.p + 1
  {
    hide New, SameNodes;
    NewAlike(first, a.(c := a.c.(seek := false, p := a.c.p + 1)), b.(c := b.c.(seek := false, p := b.c.p + 1)), kind);
  }

  lemma OpeningIs(first: bool, data: string, s: Scan, kind: Kind)
    requires AtValue(first, s) && (kind == Array || kind == Object)
    requires Opening(first, s, kind).Go? && TopIs(Opening(first, s, kind).s, kind)
    requires 0 <= s.c.p < |data| && data[s.c.p] == if kind == Array then '[' else '{'
    ensures var t := Opening(first, s, kind).s;
      && Step(first, data, s) == Go(t) && Between(t) && TopIs(t, kind)
      && (if kind == Array then AtValue(first, t) else AtName(first, t)) && t.c.p == s.c.p + 1
  {
    hide New, Family;
    var u := s.(c := s.c.(seek := false, p := s.c.p + 1));
    NewKeeps(first, u, kind);
    if kind == Array { ArrayBegins(first, data, s); } else { ObjectBegins(first, data, s); }
  }

  lemma ClosingAlike(first: bool, data: string, a: Scan, b: Scan, kind: Kind)
    requires SameBut(a, b) && (kind == Array || kind == Object) && TopIs(a, kind) && Between(b) && !a.c.done
    requires a.c.seek == (kind == Array) && Closing(first, Go(a), kind).Go?
    requires 0 <= b.c.p < |data| && data[b.c.p] == if kind == Array then ']' else '}'
    ensures Alike(Closing(first, Go(a), kind), Step(first, data, b))
  {
    hide Attach, SameNodes;
    InsideAlike(a, b);
    ClosingStep(first, data, b);
    var u := a.(c := a.c.(comma := false, seek := a.c.seek && kind != Array, p := a.c.p + 1));
    var v := b.(c := b.c.(comma := false, seek := b.c.seek && kind != Array, p := b.c.p + 1));
    AttachAlike(first, u, v);
  }

  lemma ContainerText(data: string, p: int, open: string, inside: seq<Gap>, text: string, close: string)
    requires |open| == |close| == 1 && Spells(data, p, open + (GapsText(inside) + text) + close)
    ensures var q := p + 1 + |GapsText(inside)|;
      && Spells(data, p + 1, GapsText(inside)) && Spells(data, q, text) && 0 <= p < |data| && data[p] == open[0]
      && 0 <= q + |text| < |data| && data[q + |text|] == close[0]
  {
    hide GapsText;
    var inner := GapsText(inside) + text;
    SpellsSplit(data, p, open + inner, close);
    SpellsSplit(data, p, open, inner);
    SpellsSplit(data, p + 1, GapsText(inside), text);
    SpellsHere(data, p, open);
    SpellsHere(data, p + 1 + |inner|, close);
  }

  lemma ListIs(first: bool, s: Scan, d: Doc, last: bool)
    requires d.List? && Build(first, s, Plain(d), last).Go? && s.c.p >= 0 && RightDoc(d) && AtValue(first, s)
    ensures Write(d) == "[" + (GapsText(d.inside) + WriteSlots(d.slots)) + "]"
    ensures RightGaps(d.inside) && RightSlots(d.slots)
    ensures var o := Opening(first, s, Array);
      && o.Go? && AtValue(first, o.s) && o.s.c.p >= 0 && TopIs(o.s, Array)
      && var q := BuildItems(first, o.s, PlainSlots(d.slots));
      && q.Go? && TopIs(q.s, Array) && q.s.c.seek && !q.s.c.done && !q.s.c.str && !q.s.c.line && !q.s.c.block
      && Build(first, s, Plain(d), last) == Closing(first, q, Array)
  {
    hide New, Family, Attach, BuildItems, GapsText, RightGaps, Printable, PlainSlots, RightSlots, WriteSlots;
    var items := PlainSlots(d.slots);
    RightPrintable(d);
    var u := s.(c := s.c.(seek := false, p := s.c.p + 1));
    NewKeeps(first, u, Array);
    NewAlike(first, u, u, Array) by { SameSelf(u); }
    var t := Opening(first, s, Array).s;
    BuildItemsGoes(first, t, items);
    ItemsOver(first, t, items);
  }

  lemma {:induction false} ScanList(first: bool, data: string, s: Scan, s0: Scan, d: Doc, last: bool) returns (t: Scan)
    requires AtValue(first, s0) && s0.c.p >= 0 && SameBut(s0, s) && d.List? && RightDoc(d)
    requires Spells(data, s.c.p, Write(d)) && Build(first, s0, Plain(d), last).Go?
    ensures Follows(first, data, s, Build(first, s0, Plain(d), last), t, |Write(d)|)
    decreases d, 0
  {
    hide *;
    var a, b := |GapsText(d.inside)|, |WriteSlots(d.slots)|;
    ListIs(first, s0, d, last);
    ContainerText(data, s.c.p, "[", d.inside, WriteSlots(d.slots), "]");
    var u0 := Opening(first, s0, Array);
    var u := FollowsOpening(first, data, s, s0, Array, d.inside);
    FollowsAt(first, data, s, u0, u, 1 + a);
    var o := BuildItems(first, u0.s, PlainSlots(d.slots));
    CharHere(data, u.c.p + b);
    var x := ScanSlots(first, data, u, u0.s, d.slots);
    FollowsAt(first, data, u, o, x, b);
    FollowsOn(first, data, s, u0, u, 1 + a, o, x, b);
    t := FollowsClosing(first, data, s, o, x, 1 + a + b, Array);
  }

  lemma CharHere(data: string, p: int)
    requires 0 <= p < |data|
    ensures CharAt(data, p) == data[p]
  {
  }

  lemma TopAlike(o: Outcome, q: Outcome, kind: Kind)
    requires Alike(o, q) && o.Go? && TopIs(o.s, kind)
    ensures q.Go? && TopIs(q.s, kind)
  {
    TopTwins(o.s, q.s);
    hide SameNodes;
  }

  /** A container is opened, and the gap in front of its first part is passed. */
  lemma FollowsOpening(first: bool, data: string, s: Scan, s0: Scan, kind: Kind, gs: seq<Gap>) returns (u: Scan)
    requires AtValue(first, s0) && SameBut(s0, s) && (kind == Array || kind == Object)
    requires Opening(first, s0, kind).Go? && TopIs(Opening(first, s0, kind).s, kind)
    requires 0 <= s.c.p < |data| && data[s.c.p] == if kind == Array then '[' else '{'
    requires RightGaps(gs) && Spells(data, s.c.p + 1, GapsText(gs))
    ensures Follows(first, data, s, Opening(first, s0, kind), u, 1 + |GapsText(gs)|)
  {
    hide *;
    AtValueAlike(first, s0, s);
    OpeningAlike(first, s0, s, kind);
    AlikeGoes(Opening(first, s0, kind), Opening(first, s, kind));
    TopAlike(Opening(first, s0, kind), Opening(first, s, kind), kind);
    OpeningIs(first, data, s, kind);
    var v := Opening(first, s, kind).s;
    StepReaches(first, data, s, v);
    FollowsIs(first, data, s, Opening(first, s0, kind), Go(v), 1);
    u := FollowsGaps(first, data, s, Opening(first, s0, kind), v, 1, gs);
  }

  /** And closed. */
  lemma FollowsClosing(first: bool, data: string, s: Scan, o: Outcome, x: Scan, n: nat, kind: Kind) returns (t: Scan)
    requires Follows(first, data, s, o, x, n) && (kind == Array || kind == Object) && TopIs(o.s, kind) && !o.s.c.done
    requires o.s.c.seek == (kind == Array) && !o.s.c.str && !o.s.c.line && !o.s.c.block && Closing(first, o, kind).Go?
    requires 0 <= x.c.p < |data| && data[x.c.p] == if kind == Array then ']' else '}'
    ensures Follows(first, data, s, Closing(first, o, kind), t, n + 1)
  {
    FollowsAt(first, data, s, o, x, n);
    ClosingAlike(first, data, o.s, x, kind);
    ClosingMoves(first, data, x, kind);
    hide *;
    AlikeGoes(Closing(first, o, kind), Step(first, data, x));
    t := Step(first, data, x).s;
    StepReaches(first, data, x, t);
    FollowsIs(first, data, x, Closing(first, o, kind), Go(t), 1);
    FollowsOn(first, data, s, o, x, n, Closing(first, o, kind), t, 1);
  }

  lemma ClosingMoves(first: bool, data: string, x: Scan, kind: Kind)
    requires TopIs(x, kind) && (kind == Array || kind == Object)
    requires Between(x) && !x.c.done && x.c.seek == (kind == Array)
    requires 0 <= x.c.p < |data| && data[x.c.p] == if kind == Array then ']' else '}'
    ensures Step(first, data, x).Go? ==> Step(first, data, x).s.c.p == x.c.p + 1
  {
    ClosingStep(first, data, x);
  }

  // ---------------------------------------------------------------- objects

  lemma EntryText(data: string, p: int, e: Entry)
    requires Spells(data, p, WriteEntry(e))
    ensures var a, q, b, v := GapsText(e.before), LabelText(e.name), GapsText(e.after), WriteSlot(e.slot);
      && Spells(data, p, a) && Spells(data, p + |a|, q) && Spells(data, p + |a| + |q|, b)
      && 0 <= p + |a| + |q| + |b| < |data| && data[p + |a| + |q| + |b|] == ':'
      && Spells(data, p + |a| + |q| + |b| + 1, v) && |WriteEntry(e)| == |a| + |q| + |b| + 1 + |v|
  {
    hide *;
    var a, q, b, v := GapsText(e.before), LabelText(e.name), GapsText(e.after), WriteSlot(e.slot);
    EntryIs(e);
    SpellsSplit(data, p, a + q + (b + ":"), v);
    SpellsSplit(data, p, a + q, b + ":");
    SpellsSplit(data, p, a, q);
    SpellsSplit(data, p + |a| + |q|, b, ":");
    SpellsHere(data, p + |a| + |q| + |b|, ":");
  }

  lemma EntryIs(e: Entry)
    ensures WriteEntry(e) == GapsText(e.before) + LabelText(e.name) + (GapsText(e.after) + ":") + WriteSlot(e.slot)
  {
  }

  lemma EntriesText(data: string, p: int, entries: seq<Entry>)
    requires entries != [] && Spells(data, p, WriteEntries(entries)) && CharAt(data, p + |WriteEntries(entries)|) == '}'
    ensures Spells(data, p, WriteEntry(entries[0]))
    ensures Ending(CharAt(data, p + |WriteEntry(entries[0])|), |entries| == 1)
    ensures var q, rest := p + |WriteEntry(entries[0])|, WriteEntries(entries[1..]);
      if |entries| == 1 then q == p + |WriteEntries(entries)|
      else (0 <= q < |data| && data[q] == ',' && Spells(data, q + 1, rest)
            && q + 1 + |rest| == p + |WriteEntries(entries)|)
  {
    hide *;
    EntriesAre(entries);
    if |entries| > 1 {
      PartAndRest(data, p, WriteEntry(entries[0]), WriteEntries(entries[1..]));
      CommaEnding(data, p + |WriteEntry(entries[0])|);
    } else {
      LastEnding(data, p + |WriteEntry(entries[0])|);
    }
  }

  lemma EntriesAre(entries: seq<Entry>)
    requires entries != []
    ensures |entries| == 1 ==> WriteEntries(entries) == WriteEntry(entries[0])
    ensures |entries| > 1 ==> WriteEntries(entries) == WriteEntry(entries[0]) + ("," + WriteEntries(entries[1..]))
  {
    hide WriteEntry;
  }

  /** Behind a name without quotes. */
  predicate EndsLabel(n: Label, c: char) { n.Chars? ==> Space(c) || c == ':' }

  lemma ScanLabel(first: bool, data: string, s: Scan, s0: Scan, n: Label, after: seq<Gap>) returns (t: Scan)
    requires AtName(first, s0) && SameBut(s0, s) && RightLabel(n, after) && Spells(data, s.c.p, LabelText(n))
    requires EndsLabel(n, CharAt(data, s.c.p + |LabelText(n)|))
    requires ReadName(first, s0, LabelBytes(n), |Quote(LabelBytes(n))|).Go?
    ensures Follows(first, data, s, ReadName(first, s0, LabelBytes(n), |Quote(LabelBytes(n))|), t, |LabelText(n)|)
    ensures AtColon(first, t)
  {
    hide *;
    LabelIs(n, after, CharAt(data, s.c.p + |LabelText(n)|));
    match n
    case Pieces(ps) => t := ScanPiecesLabel(first, data, s, s0, ps);
    case Chars(w) => t := ScanCharsLabel(first, data, s, s0, w);
  }

  lemma ScanPiecesLabel(first: bool, data: string, s: Scan, s0: Scan, ps: seq<Piece>) returns (t: Scan)
    requires AtName(first, s0) && SameBut(s0, s) && AllRight(ps) && Fits(ps)
    requires Spells(data, s.c.p, "\"" + Texts(ps) + "\"")
    requires ReadName(first, s0, Bytes(ps), |Quote(Bytes(ps))|).Go?
    ensures Follows(first, data, s, ReadName(first, s0, Bytes(ps), |Quote(Bytes(ps))|), t, |Texts(ps)| + 2)
    ensures AtColon(first, t)
  {
    hide *;
    var m, n := |Quote(Bytes(ps))|, |Texts(ps)|;
    var o, q := ReadName(first, s0, Bytes(ps), m), ReadName(first, s, Bytes(ps), n);
    AtNameAlike(first, s0, s);
    NameAlike(first, s0, s, Bytes(ps), m, n);
    AlikeGoes(o, q);
    ScanNameText(first, data, s, ps);
    t := q.s;
    FollowsIs(first, data, s, o, q, n + 2);
  }

  lemma ScanCharsLabel(first: bool, data: string, s: Scan, s0: Scan, w: string) returns (t: Scan)
    requires AtName(first, s0) && SameBut(s0, s) && RightName(w) && Spells(data, s.c.p, w)
    requires var c := CharAt(data, s.c.p + |w|); Space(c) || c == ':'
    requires ReadName(first, s0, w, |Quote(w)|).Go?
    ensures Follows(first, data, s, ReadName(first, s0, w, |Quote(w)|), t, |w|)
    ensures AtColon(first, t)
  {
    hide *;
    var m, n := |Quote(w)|, |w|;
    var o, q := ReadName(first, s0, w, m), ReadBare(first, s, w, n);
    AtNameAlike(first, s0, s);
    NoQuote(first, s0);
    ReadBareIs(first, s0, w, m);
    BareNameAlike(first, s0, s, w, m + 2, n);
    AlikeGoes(o, q);
    ScanBareName(first, data, s, w);
    t := q.s;
    FollowsIs(first, data, s, o, q, n);
  }

  lemma NoQuote(first: bool, s: Scan)
    requires AtName(first, s)
    ensures !s.c.quote
  {
    hide Sane;
  }

  lemma LabelIs(n: Label, after: seq<Gap>, c: char)
    requires RightLabel(n, after)
    ensures n.Pieces? ==> AllRight(n.pieces) && Fits(n.pieces) && LabelBytes(n) == Bytes(n.pieces)
    ensures n.Pieces? ==> LabelText(n) == "\"" + Texts(n.pieces) + "\"" && |LabelText(n)| == |Texts(n.pieces)| + 2
    ensures n.Chars? ==> RightName(n.text) && LabelBytes(n) == n.text == LabelText(n)
    ensures n.Chars? && EndsLabel(n, c) ==> Space(c) || c == ':'
    ensures |LabelBytes(n)| <= MAX_SIZE
  {
    hide AllRight, Texts, Bytes;
  }

  /** A name and the gaps around it. */
  lemma ScanHead(first: bool, data: string, s: Scan, s0: Scan, before: seq<Gap>, name: Label, after: seq<Gap>)
    returns (t: Scan)
    requires AtName(first, s0) && SameBut(s0, s)
    requires RightGaps(before) && RightLabel(name, after) && RightGaps(after)
    requires var a, q := |GapsText(before)|, |LabelText(name)|;
      && Spells(data, s.c.p, GapsText(before)) && Spells(data, s.c.p + a, LabelText(name))
      && Spells(data, s.c.p + a + q, GapsText(after)) && EndsLabel(name, CharAt(data, s.c.p + a + q))
    requires ReadName(first, s0, LabelBytes(name), |Quote(LabelBytes(name))|).Go?
    ensures Follows(first, data, s, ReadName(first, s0, LabelBytes(name), |Quote(LabelBytes(name))|), t,
                    |GapsText(before)| + |LabelText(name)| + |GapsText(after)|)
    ensures AtColon(first, t)
  {
    hide *;
    var a, q, b := |GapsText(before)|, |LabelText(name)|, |GapsText(after)|;
    var o := ReadName(first, s0, LabelBytes(name), |Quote(LabelBytes(name))|);
    AtNameAlike(first, s0, s);
    FollowsSelf(first, data, s, s0);
    var u := FollowsGaps(first, data, s, Go(s0), s, 0, before);
    FollowsAt(first, data, s, Go(s0), u, a);
    var y := ScanLabel(first, data, u, s0, name, after);
    FollowsOn(first, data, s, Go(s0), u, a, o, y, q);
    ColonBetween(first, y);
    FollowsAt(first, data, s, o, y, a + q);
    t := FollowsGaps(first, data, s, o, y, a + q, after);
    ColonStays(first, y, t);
  }

  lemma ColonStays(first: bool, y: Scan, t: Scan)
    requires AtColon(first, y) && t == Move(y, t.c.p)
    ensures AtColon(first, t)
  {
    hide Family;
  }

  /** A name with the gap in front of it, the colon and the gap in front of that. */
  lemma ScanEntryName(first: bool, data: string, s: Scan, s0: Scan, e: Entry) returns (t: Scan)
    requires AtName(first, s0) && s0.c.p >= 0 && SameBut(s0, s) && Spells(data, s.c.p, WriteEntry(e))
    requires RightGaps(e.before) && RightLabel(e.name, e.after) && RightGaps(e.after)
    requires BuildName(first, s0, LabelBytes(e.name), |Quote(LabelBytes(e.name))|).Go?
    ensures Follows(first, data, s, BuildName(first, s0, LabelBytes(e.name), |Quote(LabelBytes(e.name))|), t,
                    |GapsText(e.before)| + |LabelText(e.name)| + |GapsText(e.after)| + 1)
  {
    hide *;
    var name, m := LabelBytes(e.name), |Quote(LabelBytes(e.name))|;
    var k := |GapsText(e.before)| + |LabelText(e.name)| + |GapsText(e.after)|;
    EntryText(data, s.c.p, e);
    NameIs(first, s0, name, m);
    LabelEnds(data, s.c.p + |GapsText(e.before)| + |LabelText(e.name)|, e.name, e.after);
    var o := ReadName(first, s0, name, m);
    var z := ScanHead(first, data, s, s0, e.before, e.name, e.after);
    FollowsAt(first, data, s, o, z, k);
    t := FollowsColon(first, data, s, o, z, k);
  }

  /** What follows a name is what ends it. */
  lemma LabelEnds(data: string, p: int, n: Label, after: seq<Gap>)
    requires RightLabel(n, after) && RightGaps(after) && Spells(data, p, GapsText(after))
    requires after != [] || (0 <= p + |GapsText(after)| < |data| && data[p + |GapsText(after)|] == ':')
    ensures EndsLabel(n, CharAt(data, p))
  {
    hide RightName, AllRight, Fits;
    if after == [] {
      GapsNone();
    } else if n.Chars? {
      GapsBegin(after);
      SpellsHere(data, p, GapsText(after));
    }
    hide GapsText, Spells, RightGaps;
  }

  lemma FollowsColon(first: bool, data: string, s: Scan, o: Outcome, z: Scan, n: nat) returns (t: Scan)
    requires Follows(first, data, s, o, z, n) && AtColon(first, z) && 0 <= z.c.p < |data| && data[z.c.p] == ':'
    ensures Follows(first, data, s, Go(Colon(o.s)), t, n + 1) && t == Colon(z)
  {
    hide Reaches, SameNodes, Sane;
    t := Colon(z);
    StepReaches(first, data, z, t) by { ColonStep(first, data, z); }
    ReachesTrans(first, data, s, z, t);
  }

  lemma NameIs(first: bool, s: Scan, name: string, m: nat)
    requires BuildName(first, s, name, m).Go?
    ensures ReadName(first, s, name, m).Go?
    ensures BuildName(first, s, name, m) == Go(Colon(ReadName(first, s, name, m).s))
  {
    hide ReadName;
  }

  lemma ColonBetween(first: bool, y: Scan)
    requires AtColon(first, y)
    ensures Between(y)
  {
    hide Sane;
  }

  lemma EntryRight(e: Entry, last: bool)
    requires RightEntry(e)
    ensures RightGaps(e.before) && RightLabel(e.name, e.after) && RightGaps(e.after) && RightSlot(e.slot)
    ensures |LabelBytes(e.name)| <= MAX_SIZE && Printable(PlainSlot(e.slot, last))
  {
    hide RightGaps, RightLabel;
    LabelIs(e.name, e.after, ':');
    SlotPrintable(e.slot, last);
  }

  lemma {:induction false} ScanEntry(first: bool, data: string, s: Scan, s0: Scan, e: Entry, last: bool)
    returns (t: Scan)
    requires AtName(first, s0) && s0.c.p >= 0 && SameBut(s0, s) && RightEntry(e)
    requires Spells(data, s.c.p, WriteEntry(e)) && Ending(CharAt(data, s.c.p + |WriteEntry(e)|), last)
    requires var n := BuildName(first, s0, LabelBytes(e.name), |Quote(LabelBytes(e.name))|);
      n.Go? && Build(first, n.s, PlainSlot(e.slot, last), last).Go?
    ensures var n := BuildName(first, s0, LabelBytes(e.name), |Quote(LabelBytes(e.name))|);
      Follows(first, data, s, Build(first, n.s, PlainSlot(e.slot, last), last), t, |WriteEntry(e)|)
    decreases e, 3
  {
    hide *;
    var name := LabelBytes(e.name);
    var n := BuildName(first, s0, name, |Quote(name)|);
    EntryText(data, s.c.p, e);
    EntryRight(e, last);
    NameOver(first, s0, name);
    var k := |GapsText(e.before)| + |LabelText(e.name)| + |GapsText(e.after)| + 1;
    var y := ScanEntryName(first, data, s, s0, e);
    FollowsAt(first, data, s, n, y, k);
    Contains(n.s, Object);
    t := ScanSlot(first, data, y, n.s, e.slot, last);
    FollowsOn(first, data, s, n, y, k, Build(first, n.s, PlainSlot(e.slot, last), last), t, |WriteSlot(e.slot)|);
  }

  lemma EntriesOn(first: bool, s: Scan, entries: seq<Entry>)
    requires entries != [] && RightEntries(entries) && AtName(first, s) && s.c.p >= 0
    requires BuildMembers(first, s, PlainEntries(entries)).Go?
    ensures RightEntry(entries[0]) && RightEntries(entries[1..])
    ensures var name, last := LabelBytes(entries[0].name), |entries| == 1;
      var all, n := BuildMembers(first, s, PlainEntries(entries)), BuildName(first, s, name, |Quote(name)|);
      && n.Go?
      && var o := Build(first, n.s, PlainSlot(entries[0].slot, last), last);
      && o.Go? && InContainer(o.s) && o.s.c.comma && o.s.c.seek == TopIs(o.s, Array)
      && !o.s.c.done && !o.s.c.str && !o.s.c.line && !o.s.c.block
      && (last ==> all == o)
      && (!last ==> AtName(first, Comma(o.s)) && Comma(o.s).c.p >= 0)
      && (!last ==> all == BuildMembers(first, Comma(o.s), PlainEntries(entries[1..])))
  {
    hide PlainSlot, RightEntry, Build, BuildName, Family, LabelBytes, Quote;
    var name, last := LabelBytes(entries[0].name), |entries| == 1;
    var members := PlainEntries(entries);
    assert members[0] == Member(name, PlainSlot(entries[0].slot, last)) && members[1..] == PlainEntries(entries[1..]);
    EntryRight(entries[0], last);
    NameOver(first, s, name);
    BuildOver(first, BuildName(first, s, name, |Quote(name)|).s, PlainSlot(entries[0].slot, last), last);
  }

  /** All members of an object, up to its closing brace. */
  lemma {:induction false} ScanEntries(first: bool, data: string, s: Scan, s0: Scan, entries: seq<Entry>)
    returns (t: Scan)
    requires AtName(first, s0) && s0.c.p >= 0 && SameBut(s0, s) && RightEntries(entries)
    requires Spells(data, s.c.p, WriteEntries(entries)) && CharAt(data, s.c.p + |WriteEntries(entries)|) == '}'
    requires BuildMembers(first, s0, PlainEntries(entries)).Go?
    ensures Follows(first, data, s, BuildMembers(first, s0, PlainEntries(entries)), t, |WriteEntries(entries)|)
    decreases entries, 4
  {
    hide *;
    t := s;
    if entries == [] {
      FollowsSelf(first, data, s, s0);
      NoEntries(first, s0);
    } else {
      var name, last, k := LabelBytes(entries[0].name), |entries| == 1, |WriteEntry(entries[0])|;
      EntriesText(data, s.c.p, entries);
      EntriesOn(first, s0, entries);
      var n := BuildName(first, s0, name, |Quote(name)|);
      var o := Build(first, n.s, PlainSlot(entries[0].slot, last), last);
      t := ScanEntry(first, data, s, s0, entries[0], last);
      FollowsAt(first, data, s, o, t, k);
      if !last {
        var x, q := Comma(t), Go(Comma(o.s));
        FollowsComma(first, data, s, o, t, k);
        FollowsAt(first, data, s, q, x, k + 1);
        t := ScanEntries(first, data, x, q.s, entries[1..]);
        FollowsOn(first, data, s, q, x, k + 1, BuildMembers(first, s0, PlainEntries(entries)), t,
                  |WriteEntries(entries[1..])|);
      }
    }
  }

  lemma NoEntries(first: bool, s: Scan)
    ensures BuildMembers(first, s, PlainEntries([])) == Go(s) && WriteEntries([]) == ""
  {
  }

  lemma RecordIs(first: bool, s: Scan, d: Doc, last: bool)
    requires d.Record? && Build(first, s, Plain(d), last).Go? && s.c.p >= 0 && RightDoc(d) && AtValue(first, s)
    ensures Write(d) == "{" + (GapsText(d.inside) + WriteEntries(d.entries)) + "}"
    ensures RightGaps(d.inside) && RightEntries(d.entries)
    ensures var o := Opening(first, s, Object);
      && o.Go? && AtName(first, o.s) && o.s.c.p >= 0 && TopIs(o.s, Object)
      && var q := BuildMembers(first, o.s, PlainEntries(d.entries));
      && q.Go? && TopIs(q.s, Object) && !q.s.c.seek && !q.s.c.done && !q.s.c.str && !q.s.c.line && !q.s.c.block
      && Build(first, s, Plain(d), last) == Closing(first, q, Object)
  {
    hide New, Family, Attach, BuildMembers, GapsText, RightGaps, Printable, PlainEntries, RightEntries, WriteEntries;
    var members := PlainEntries(d.entries);
    RightPrintable(d);
    var u := s.(c := s.c.(seek := false, p := s.c.p + 1));
    NewKeeps(first, u, Object);
    NewAlike(first, u, u, Object) by { SameSelf(u); }
    var t := Opening(first, s, Object).s;
    BuildMembersGoes(first, t, members);
    MembersOver(first, t, members);
  }

  lemma {:induction false} ScanRecord(first: bool, data: string, s: Scan, s0: Scan, d: Doc, last: bool)
    returns (t: Scan)
    requires AtValue(first, s0) && s0.c.p >= 0 && SameBut(s0, s) && d.Record? && RightDoc(d)
    requires Spells(data, s.c.p, Write(d)) && Build(first, s0, Plain(d), last).Go?
    ensures Follows(first, data, s, Build(first, s0, Plain(d), last), t, |Write(d)|)
    decreases d, 0
  {
    hide *;
    var a, b := |GapsText(d.inside)|, |WriteEntries(d.entries)|;
    RecordIs(first, s0, d, last);
    ContainerText(data, s.c.p, "{", d.inside, WriteEntries(d.entries), "}");
    var u0 := Opening(first, s0, Object);
    var u := FollowsOpening(first, data, s, s0, Object, d.inside);
    FollowsAt(first, data, s, u0, u, 1 + a);
    var o := BuildMembers(first, u0.s, PlainEntries(d.entries));
    CharHere(data, u.c.p + b);
    var x := ScanEntries(first, data, u, u0.s, d.entries);
    FollowsAt(first, data, u, o, x, b);
    FollowsOn(first, data, s, u0, u, 1 + a, o, x, b);
    t := FollowsClosing(first, data, s, o, x, 1 + a + b, Object);
  }

  // ---------------------------------------------------------------- whole texts

  /** A text behind a byte order mark or not. */
  function Marked(mark: bool, text: string): string { if mark then ['\U{EF}', '\U{BB}', '\U{BF}'] + text else text }

  lemma MarkSkipped(mark: bool, text: string)
    requires text != "" && text[0] as int < 0x80
    ensures Marked(mark, text) != "" && SkipMark(Marked(mark, text)) == text
  {
    if mark { assert Marked(mark, text)[3..] == text; }
  }

  /** A value with gaps before and after it, and what follows. */
  function WholeText(before: seq<Gap>, d: Doc, after: seq<Gap>, tail: string): string {
    GapsText(before) + Write(d) + GapsText(after) + tail
  }

  lemma TextBegins(before: seq<Gap>, d: Doc, after: seq<Gap>, tail: string)
    requires RightGaps(before) && Definite(d)
    ensures var text := WholeText(before, d, after, tail);
      text != "" && text[0] as int < 0x80
  {
    if before != [] { GapBegins(before); } else { WriteBegins(d); }
    hide GapText, Write;
  }

  lemma GapBegins(gs: seq<Gap>)
    requires gs != [] && RightGaps(gs)
    ensures GapsText(gs) != "" && GapsText(gs)[0] as int < 0x80
  {
    assert RightGap(gs[0]);
    assert GapText(gs[0]) != "" && GapText(gs[0])[0] as int < 0x80;
  }

  lemma WriteBegins(d: Doc)
    requires Definite(d)
    ensures Write(d) != "" && Write(d)[0] as int < 0x80
  {
    hide GapsText, WriteSlots, WriteEntries, Texts;
  }

  /** One pass over a text does what it does over the printed value. */
  lemma PassOver(first: bool, data: string, before: seq<Gap>, d: Doc, after: seq<Gap>, tail: string, f0: seq<Node>,
      f: seq<Node>) returns (g: seq<Node>)
    requires RightGaps(before) && RightDoc(d) && RightGaps(after) && Definite(d)
    requires data == WholeText(before, d, after, tail) && CharAt(tail, 0) == '\0'
    requires Family(f0) && SameNodes(f0, f) && (first ==> f == f0 == [])
    requires Build(first, Start(f0), Plain(d), false).Go? && Build(first, Start(f0), Plain(d), false).s.c.done
    ensures Inv(first, data, Start(f)) && Run(first, data, Start(f)) == Accept(g)
    ensures SameNodes(Build(first, Start(f0), Plain(d), false).s.nodes, g)
  {
    hide *;
    var a, q, b := GapsText(before), Write(d), GapsText(after);
    var s0, s := Start(f0), Start(f);
    WholeParts(data, before, d, after, tail);
    FamilySame(f0, f);
    StartAtValue(first, data, f0);
    StartAtValue(first, data, f);
    StartSame(f0, f);
    AtValueAlike(first, s0, s);
    FollowsSelf(first, data, s, s0);
    var u := FollowsGaps(first, data, s, Go(s0), s, 0, before);
    FollowsAt(first, data, s, Go(s0), u, |a|);
    DefiniteStops(d, CharAt(data, |a| + |q|));
    var o := Build(first, s0, Plain(d), false);
    var x := ScanDoc(first, data, u, s0, d, false);
    FollowsOn(first, data, s, Go(s0), u, |a|, o, x, |q|);
    FollowsAt(first, data, s, o, x, |a| + |q|);
    RightPrintable(d);
    BuildOver(first, s0, Plain(d), false);
    OverBetween(first, s0, o.s, x, |Print(Plain(d))|);
    var t := FollowsGaps(first, data, s, o, x, |a| + |q|, after);
    FollowsEnd(first, data, s, o, t, x, |a| + |q| + |b|);
    EndAccepts(first, data, t);
    g := t.nodes;
  }

  lemma StartSame(a: seq<Node>, b: seq<Node>)
    requires SameNodes(a, b)
    ensures SameBut(Start(a), Start(b))
  {
    hide SameNodes;
  }

  /** A value that ends by itself. */
  predicate Definite(d: Doc) { !d.Number? && !d.Word? }

  lemma DefiniteStops(d: Doc, b: char)
    requires Definite(d)
    ensures Stops(d, b) && !d.Number? && !d.Word?
  {
  }

  lemma WholeParts(data: string, before: seq<Gap>, d: Doc, after: seq<Gap>, tail: string)
    requires data == WholeText(before, d, after, tail)
    ensures var a, q, b := |GapsText(before)|, |Write(d)|, |GapsText(after)|;
      && Spells(data, 0, GapsText(before)) && Spells(data, a, Write(d)) && Spells(data, a + q, GapsText(after))
      && Spells(data, a + q + b, tail) && a + q + b <= |data| && CharAt(data, a + q + b) == CharAt(tail, 0)
  {
    hide GapsText, Write;
    FourParts(data, GapsText(before), Write(d), GapsText(after), tail);
  }

  lemma FourParts(data: string, a: string, b: string, c: string, d: string)
    requires data == a + b + c + d
    ensures Spells(data, 0, a) && Spells(data, |a|, b) && Spells(data, |a| + |b|, c)
    ensures var n := |a| + |b| + |c|;
      Spells(data, n, d) && n <= |data| && CharAt(data, n) == CharAt(d, 0)
  {
    WholeSpells(data);
    hide Spells;
    SpellsSplit(data, 0, a + b + c, d);
    SpellsSplit(data, 0, a + b, c);
    SpellsSplit(data, 0, a, b);
  }

  lemma FollowsEnd(first: bool, data: string, s: Scan, o: Outcome, t: Scan, x: Scan, n: nat)
    requires Follows(first, data, s, o, t, n) && s.c.p == 0 && Inv(first, data, s) && o.s.c.done && Between(x)
    requires t == Move(x, t.c.p)
    ensures Inv(first, data, t) && Run(first, data, t) == Run(first, data, s)
    ensures t.c.done && !t.c.str && !t.c.line && !t.c.block && t.c.p == n && SameNodes(o.s.nodes, t.nodes)
  {
    hide Inv, SameNodes;
  }

  /** Decoding a text gives what decoding the printed value does: the gaps between its tokens,
      how its strings are spelled, and what stands behind a NUL do not count. */
  lemma TextIsRead(mark: bool, before: seq<Gap>, d: Doc, after: seq<Gap>, tail: string)
    requires RightGaps(before) && RightDoc(d) && RightGaps(after) && Definite(d) && Countable(Plain(d))
    requires CharAt(tail, 0) == '\0'
    ensures Reading(Marked(mark, WholeText(before, d, after, tail)))
         == if Modest(Plain(d)) then Some(Norm(Plain(d), false)) else None
  {
    hide *;
    var data, v := WholeText(before, d, after, tail), Plain(d);
    var whole := Marked(mark, data);
    RightPrintable(d);
    TextBegins(before, d, after, tail);
    MarkSkipped(mark, data);
    var f0 := FirstNodes(v);
    NoFamily();
    NoneSame();
    var f := PassOver(true, data, before, d, after, tail, [], []);
    if Modest(v) {
      var g0 := SecondNodes(v, f0);
      var g := PassOver(false, data, before, d, after, tail, f0, f);
      ReadingIs(whole, f, g);
      ValueSame(g0, g, 0);
    } else {
      SizedCrowded(f0, 0, -1, v, false);
      CrowdedSame(f0, f);
      CrowdedReading(whole, f);
    }
  }

  lemma CrowdedSame(a: seq<Node>, b: seq<Node>)
    requires SameNodes(a, b) && Crowded(a, 0, |a|)
    ensures Crowded(b, 0, |b|)
  {
    var k :| 0 <= k < |a| && 2 * a[k].size > MAX_SIZE;
    assert Twins(a[k], b[k]);
  }

  /** What a number left behind does not count in a string. */
  lemma {:induction false} ValueSame(a: seq<Node>, b: seq<Node>, k: int)
    requires SameNodes(a, b)
    ensures ValueOf(a, k) == ValueOf(b, k)
    decreases |a| - k, 1, 0
  {
    if 0 <= k < |a| {
      assert Twins(a[k], b[k]);
      match a[k].kind
      case Object => MembersSame(a, b, a[k].members, k);
      case Array => ItemsSame(a, b, a[k].items, k);
      case _ =>
    }
  }

  lemma {:induction false} ItemsSame(a: seq<Node>, b: seq<Node>, ids: seq<int>, k: int)
    requires SameNodes(a, b)
    ensures ItemsOf(a, ids, k) == ItemsOf(b, ids, k)
    decreases |a| - k, 0, |ids|
  {
    hide SameNodes, ValueOf;
    SameLength(a, b);
    if ids != [] {
      if k < ids[0] < |a| && 0 <= k { ValueSame(a, b, ids[0]); }
      ItemsSame(a, b, ids[1..], k);
    }
  }

  lemma {:induction false} MembersSame(a: seq<Node>, b: seq<Node>, ids: seq<Member<int>>, k: int)
    requires SameNodes(a, b)
    ensures MembersOf(a, ids, k) == MembersOf(b, ids, k)
    decreases |a| - k, 0, |ids|
  {
    hide SameNodes, ValueOf;
    SameLength(a, b);
    if ids != [] {
      if k < ids[0].value < |a| && 0 <= k { ValueSame(a, b, ids[0].value); }
      MembersSame(a, b, ids[1..], k);
    }
  }

  lemma NoneSame()
    ensures SameNodes([], [])
  {
  }

  /** An input: a blank in front of its comma makes a number a string, and so does the end of
      its container. */
  lemma SpacedNumber()
    ensures Reading("[1 ,2]") == Some(Arr([Text("1"), Text("2")]))
  {
    var one, two := Slot([], Number(1), [Blank(' ')]), Slot([], Number(2), []);
    var d := List([], [one, two]);
    SpacedText(one, two, d);
    hide *;
    TextIsRead(false, [], d, [], "");
  }

  lemma SpacedText(one: Slot, two: Slot, d: Doc)
    requires one == Slot([], Number(1), [Blank(' ')]) && two == Slot([], Number(2), []) && d == List([], [one, two])
    ensures Marked(false, WholeText([], d, [], "")) == "[1 ,2]"
    ensures RightDoc(d) && Definite(d) && RightGaps([]) && CharAt("", 0) == '\0'
    ensures Modest(Plain(d)) && Countable(Plain(d)) && Norm(Plain(d), false) == Arr([Text("1"), Text("2")])
  {
    assert Decimal(1) == "1" && Decimal(2) == "2";
    assert [one, two][1..] == [two] && [two][1..] == [];
    assert GapsText([Blank(' ')]) == " ";
    assert WriteSlot(one) == "1 " && WriteSlot(two) == "2";
    assert WriteSlots([one, two]) == "1 " + ("," + WriteSlots([two])) && WriteSlots([two]) == "2";
    assert GapsText([]) + WriteSlots([one, two]) == "1 ,2" && Write(d) == "[1 ,2]";
    assert RightGap(Blank(' ')) && RightSlot(one) && RightSlot(two);
    assert RightSlots([two]) && RightSlots([one, two]);
    assert PlainSlots([two]) == [Text("2")];
    assert PlainSlots([one, two]) == [Text("1"), Text("2")];
    var v := Arr([Text("1"), Text("2")]);
    assert Plain(d) == v;
    assert v.items[1..] == [Text("2")] && v.items[1..][1..] == [];
  }
}
