/** The printer: it walks a tree along parent pointers and cursors, once to measure and
    once to write. */
module JsonPrinter {
  import opened JsonText
  import opened JsonValue
  import opened JsonTree

  // ---------------------------------------------------------------- strings

  lemma {:induction false} QuotePrefix(s: string, i: nat)
    requires i <= |s|
    ensures |Quote(s[..i])| <= |Quote(s)|
    ensures i < |s| ==> Quote(s[..i + 1]) == Quote(s[..i]) + QuoteChar(s[i])
    ensures i < |s| ==> |Quote(s[..i])| + |QuoteChar(s[i])| <= |Quote(s)|
    ensures i < |s| ==> Specials(s[..i + 1]) == Specials(s[..i]) + if Special(s[i]) then 1 else 0
    decreases |s| - i
  {
    if i == |s| {
      assert s[..i] == s;
    } else {
      assert s[..i + 1][..i] == s[..i];
      QuotePrefix(s, i + 1);
    }
  }

  /** Writes `text` into the buffer. */
  method Copy(data: array<char>, at: nat, text: string) returns (ret: nat)
    requires at + |text| <= data.Length
    modifies data
    ensures ret == |text| && data[..at + ret] == old(data[..at]) + text
  {
    var i := 0;
    while i < |text|
      invariant i <= |text| && data[..at + i] == old(data[..at]) + text[..i]
    {
      data[at + i] := text[i];
      i := i + 1;
    }
    ret := i;
  }

  /** Writes one byte of a string; all bytes below 32 become four-digit escapes. */
  method EncodeChar(b: char, data: array<char>, at: nat) returns (ret: nat)
    requires at + |QuoteChar(b)| <= data.Length
    modifies data
    ensures ret == |QuoteChar(b)| && data[..at + ret] == old(data[..at]) + QuoteChar(b)
  {
    if Control(b) {
      ret := Copy(data, at, "\\u00" + [ByteToHex(b as int / 16, false), ByteToHex(b as int % 16, false)]);
    } else if b == '"' {
      ret := Copy(data, at, "\\\"");
    } else if b == '\\' {
      ret := Copy(data, at, "\\\\");
    } else {
      ret := Copy(data, at, [b]);
    }
  }

  /** Writes a string with its escapes. */
  method EncodeString(str: string, data: array<char>, at: nat) returns (ret: nat)
    requires at + |Quote(str)| <= data.Length
    modifies data
    ensures ret == |Quote(str)| && data[..at + ret] == old(data[..at]) + Quote(str)
  {
    QuotePrefix(str, 0);
    ret := 0;
    ghost var before, done := data[..at], Quote(str[..0]);
    assert before + done == before;
    hide Quote, QuoteChar;
    for i := 0 to |str|
      invariant ret == |done| && at + ret <= data.Length && done == Quote(str[..i])
      invariant data[..at + ret] == before + done
    {
      QuotePrefix(str, i);
      Regrouped(before, done, QuoteChar(str[i]));
      done := done + QuoteChar(str[i]);
      var n := EncodeChar(str[i], data, at + ret);
      ret := ret + n;
    }
    assert str[..|str|] == str;
  }

  /** Measures a string: a quote or backslash counts for three, although two are written. */
  method EncodeStrlen(str: string) returns (ret: nat)
    ensures ret == |Quote(str)| + Specials(str)
  {
    ret := 0;
    for i := 0 to |str|
      invariant ret == |Quote(str[..i])| + Specials(str[..i])
    {
      QuotePrefix(str, i);
      if Control(str[i]) {
        ret := ret + 6;
      } else if str[i] == '"' || str[i] == '\\' {
        ret := ret + 3;
      } else {
        ret := ret + 1;
      }
    }
    assert str[..|str|] == str;
  }

  // ---------------------------------------------------------------- numbers

  lemma DigitsBegin(n: nat)
    ensures Digits(n) == (if n < 10 then "" else Digits(n / 10)) + [DigitChar(n % 10)]
  {
  }

  /** What is written of a number: `tail`, behind the digits of `n`. */
  function Before(n: nat, tail: string): string { (if n == 0 then "" else Digits(n)) + tail }

  lemma BeforeNext(n: nat, tail: string)
    requires n > 0
    ensures Before(n, tail) == Before(n / 10, [DigitChar(n % 10)] + tail)
    ensures |Before(n, tail)| == |Before(n / 10, tail)| + 1
  {
    DigitsBegin(n);
    hide Digits;
    if n >= 10 { Regrouped(Digits(n / 10), [DigitChar(n % 10)], tail); }
  }

  /** Writes the digits of a number backwards from `end` on. */
  method WriteDigits(num: nat, data: array<char>, end: nat)
    requires |Digits(num)| <= end <= data.Length
    modifies data
    ensures data[..end] == old(data[..end - |Digits(num)|]) + Digits(num)
  {
    hide Digits, Before;
    var num1: nat, ptr: int := num / 10, end - 1;
    DigitsBegin(num);
    StartBefore(num);
    data[ptr] := DigitChar(num % 10);
    ghost var tail := [DigitChar(num % 10)];
    while num1 > 0
      invariant |tail| <= end && ptr == end - |tail| && 0 <= ptr
      invariant Digits(num) == Before(num1, tail) && |Digits(num)| <= end
      invariant data[..end] == old(data[..ptr]) + tail
    {
      BeforeLength(num1, tail);
      BeforeNext(num1, tail);
      ptr := ptr - 1;
      tail := [DigitChar(num1 % 10)] + tail;
      data[ptr] := DigitChar(num1 % 10);
      num1 := num1 / 10;
    }
    BeforeNothing(tail);
  }

  lemma StartBefore(n: nat)
    ensures Digits(n) == Before(n / 10, [DigitChar(n % 10)]) && |Before(n / 10, [DigitChar(n % 10)])| >= 1
  {
    DigitsBegin(n);
  }

  lemma BeforeLength(n: nat, tail: string)
    ensures |Before(n, tail)| >= |tail| && (n > 0 ==> |Before(n, tail)| > |tail|)
  {
    DigitsBegin(n);
  }

  lemma BeforeNothing(tail: string)
    ensures Before(0, tail) == tail
  {
  }

  /** Counts the digits of a number; writes it if there is a buffer. */
  method EncodeInteger(n: int, data: array?<char>, at: nat) returns (ret: nat)
    requires INT64_MIN < n <= INT64_MAX
    requires data != null ==> at + |Decimal(n)| <= data.Length
    modifies data
    ensures ret == |Decimal(n)|
    ensures data != null ==> data[..at + ret] == old(data[..at]) + Decimal(n)
  {
    hide Digits;
    var num1: int := n;
    ret := 0;
    if num1 < 0 {
      if data != null {
        var k := Copy(data, at, "-");
      }
      ret := ret + 1;
      num1 := -num1;
    }
    var num2: nat := num1;
    ghost var sign, start := ret, if n < 0 then "-" else "";
    assert |start| == sign && Decimal(n) == start + Digits(num2);
    assert data != null ==> data[..at + sign] == old(data[..at]) + start;
    hide Decimal;
    ret := ret + 1;
    while num1 >= 10
      invariant 0 <= num1 && ret + |Digits(num1)| == sign + |Digits(num2)| + 1
      invariant data != null ==> data[..at + sign] == old(data[..at]) + start
    {
      DigitsBegin(num1);
      ret := ret + 1;
      num1 := num1 / 10;
    }
    DigitsBegin(num1);
    assert ret == |start| + |Digits(num2)|;
    if data != null {
      assert data[..at + ret - |Digits(num2)|] == old(data[..at]) + start;
      WriteDigits(num2, data, at + ret);
      Regrouped(old(data[..at]), start, Digits(num2));
    }
  }

  // ---------------------------------------------------------------- measuring and writing

  /** `out` is printed: written at the start of the buffer, or, without one, counted, with
      `extra` bytes too many. */
  ghost predicate Printed(data: array?<char>, ret: nat, out: string, extra: nat)
    reads data
  {
    if data == null then ret == |out| + extra else ret == |out| <= data.Length && data[..ret] == out
  }

  method PrintText(data: array?<char>, at: nat, text: string, ghost out: string, ghost extra: nat) returns (ret: nat)
    requires Printed(data, at, out, extra)
    requires data != null ==> |out| + |text| <= data.Length
    modifies data
    ensures Printed(data, ret, out + text, extra)
  {
    ret := at + |text|;
    if data != null {
      var n := Copy(data, at, text);
    }
  }

  method PrintString(data: array?<char>, at: nat, text: string, ghost out: string, ghost extra: nat) returns (ret: nat)
    requires Printed(data, at, out, extra)
    requires data != null ==> |out| + |Quote(text)| + 2 <= data.Length
    modifies data
    ensures Printed(data, ret, out + ("\"" + Quote(text) + "\""), extra + Specials(text))
  {
    if data != null {
      data[at] := '"';
      var n := EncodeString(text, data, at + 1);
      ret := at + 1 + n;
      data[ret] := '"';
      ret := ret + 1;
      assert data[..ret] == out + ['"'] + Quote(text) + ['"'];
      assert out + ['"'] + Quote(text) + ['"'] == out + ("\"" + Quote(text) + "\"");
    } else {
      ret := EncodeStrlen(text);
      ret := at + ret + 2;
    }
  }

  // ---------------------------------------------------------------- values in memory

  /** The slot of `n` holds the value `v`: nothing, or a node whose parent is `n`. */
  ghost predicate Child(n: JValue, c: JValue?, v: Value, s: set<JValue>)
    reads s`parent, s`tree
  {
    if c == null then v == Gone else c in s && c.parent == n && c.tree == v
  }

  /** The fields of a node spell its value. */
  ghost predicate Built(n: JValue, s: set<JValue>)
    reads n`bval, n`ival, n`text, n`count, n`tree, n.slots, s`parent, s`tree
  {
    && n.count <= n.slots.Length
    && match n.tree
       case Obj(members) =>
         n.kind == Object && |members| == n.count
         && forall i | 0 <= i < n.count ::
            n.slots[i].name == members[i].name && Child(n, n.slots[i].value, members[i].value, s)
       case Arr(items) =>
         n.kind == Array && |items| == n.count && forall i | 0 <= i < n.count :: Child(n, n.slots[i].value, items[i], s)
       case Text(text) => n.kind == Str && n.text == text
       case Int(k) => n.kind == Integer && n.ival == k && INT64_MIN < k <= INT64_MAX
       case Bool(b) => n.kind == Boolean && n.bval == b
       case Nil => n.kind == Null
       case Gone => false
  }

  ghost predicate Forest(s: set<JValue>)
    reads s`bval, s`ival, s`text, s`count, s`tree, s`parent, (set n <- s :: n.slots)
  {
    forall n <- s :: Built(n, s)
  }

  // ---------------------------------------------------------------- the way up

  /** A container that is being printed: `i` of its parts have been begun. */
  datatype Frame = Frame(node: JValue, tree: Value, i: nat)

  /** What is left to print of the containers on the way, the innermost last. */
  ghost function Tail(path: seq<Frame>): string {
    if path == [] then "" else var f := path[|path| - 1]; Rest(f.tree, f.i) + Tail(path[..|path| - 1])
  }

  ghost function TailExtras(path: seq<Frame>): nat {
    if path == [] then 0 else var f := path[|path| - 1]; RestExtras(f.tree, f.i) + TailExtras(path[..|path| - 1])
  }

  ghost function Upper(path: seq<Frame>, k: int): JValue? { if 0 < k <= |path| then path[k - 1].node else null }

  /** The parent pointers from `value` lead along the path to a root, and the only cursors
      that are not 0 are those of the path and of `value` itself. */
  ghost predicate OnPath(path: seq<Frame>, value: JValue, s: set<JValue>)
    reads s`parent, s`tree, s`index
  {
    && value in s && value.index <= Parts(value.tree)
    && (forall k | 0 <= k < |path| :: path[k].node in s && path[k].node.tree == path[k].tree
          && path[k].node.index == path[k].i && path[k].i <= Parts(path[k].tree))
    && (forall k | 0 <= k < |path| :: path[k].node.parent == Upper(path, k))
    && value.parent == Upper(path, |path|)
    && (forall j, k | 0 <= j < k < |path| :: Nesting(path[k].tree) < Nesting(path[j].tree))
    && (forall k | 0 <= k < |path| :: Nesting(value.tree) < Nesting(path[k].tree))
    && Cursors(path, value, s)
  }

  /** The cursors along a path, and no others, are those that are not 0. */
  ghost predicate Cursors(path: seq<Frame>, value: JValue, s: set<JValue>)
    reads s`index
  {
    forall n <- s :: n.index != 0 ==> n == value || exists k :: 0 <= k < |path| && path[k].node == n
  }

  lemma PushCursors(path: seq<Frame>, value: JValue, child: JValue, s: set<JValue>)
    requires Cursors(path, value, s)
    ensures Cursors(path + [Frame(value, value.tree, value.index)], child, s)
  {
    var path' := path + [Frame(value, value.tree, value.index)];
    forall n <- s | n.index != 0 ensures n == child || exists k :: 0 <= k < |path'| && path'[k].node == n {
      if n == value {
        assert path'[|path|].node == n;
      } else {
        var k :| 0 <= k < |path| && path[k].node == n;
        assert path'[k].node == n;
      }
    }
  }

  lemma NoCursor(path: seq<Frame>, value: JValue, s: set<JValue>, n: JValue)
    requires OnPath(path, value, s) && n in s && Nesting(n.tree) < Nesting(value.tree)
    ensures n.index == 0
  {
  }

  lemma Push(path: seq<Frame>, value: JValue, child: JValue, s: set<JValue>)
    requires OnPath(path, value, s) && child in s && child.parent == value && Nesting(child.tree) < Nesting(value.tree)
    ensures child.index == 0 && OnPath(path + [Frame(value, value.tree, value.index)], child, s)
  {
    hide Cursors, Upper, Nesting, Parts;
    var last := Frame(value, value.tree, value.index);
    var path' := path + [last];
    NoCursor(path, value, s, child);
    PushCursors(path, value, child, s);
    forall k | 0 <= k <= |path'| ensures Upper(path', k) == if k == |path'| then value else Upper(path, k) {
      PushUpper(path, last, k);
    }
  }

  lemma PushUpper(path: seq<Frame>, last: Frame, k: nat)
    requires k <= |path| + 1
    ensures Upper(path + [last], k) == if k == |path| + 1 then last.node else Upper(path, k)
  {
  }

  lemma PathIndex(path: seq<Frame>, value: JValue, s: set<JValue>)
    requires OnPath(path, value, s)
    ensures value in s && value.index <= Parts(value.tree)
  {
  }

  lemma PopCursors(path: seq<Frame>, value: JValue, s: set<JValue>)
    requires Cursors(path, value, s) && path != [] && value.index == 0
    ensures Cursors(path[..|path| - 1], path[|path| - 1].node, s)
  {
    var path', up := path[..|path| - 1], path[|path| - 1].node;
    forall n <- s | n.index != 0 ensures n == up || exists k :: 0 <= k < |path'| && path'[k].node == n {
      var k :| 0 <= k < |path| && path[k].node == n;
      if k < |path'| { assert path'[k].node == n; }
    }
  }

  lemma PopUpper(path: seq<Frame>, k: int)
    requires path != [] && k < |path|
    ensures Upper(path[..|path| - 1], k) == Upper(path, k)
  {
  }

  lemma Pop(path: seq<Frame>, value: JValue, s: set<JValue>)
    requires OnPath(path, value, s) && path != [] && value.index == 0
    ensures OnPath(path[..|path| - 1], path[|path| - 1].node, s)
  {
    hide Cursors, Upper, Nesting, Parts;
    var path', last := path[..|path| - 1], path[|path| - 1];
    assert forall k | 0 <= k < |path'| :: path'[k] == path[k];
    assert last.node.tree == last.tree && last.node.index == last.i && last.node in s;
    PopCursors(path, value, s);
    forall k | 0 <= k <= |path'| ensures Upper(path', k) == Upper(path, k) {
      PopUpper(path, k);
    }
  }

  /** The cursor of the current value moves. */
  method SetIndex(value: JValue, i: nat, ghost path: seq<Frame>, ghost s: set<JValue>)
    requires OnPath(path, value, s) && i <= Parts(value.tree)
    modifies value`index
    ensures value.index == i && OnPath(path, value, s)
  {
    value.index := i;
    forall n <- s | n.index != 0 ensures n == value || exists k :: 0 <= k < |path| && path[k].node == n {
      if n != value { assert old(n.index) != 0; }
    }
  }

  // ---------------------------------------------------------------- one turn of the printer

  lemma BuiltPart(n: JValue, s: set<JValue>, i: nat)
    requires Forest(s) && n in s && i < Parts(n.tree)
    ensures n.count == Parts(n.tree) && i < n.slots.Length && Child(n, n.slots[i].value, Part(n.tree, i), s)
    ensures n.tree.Obj? ==> n.slots[i].name == n.tree.members[i].name
    ensures Nesting(Part(n.tree, i)) < Nesting(n.tree)
  {
    assert Built(n, s);
    if n.tree.Obj? { MemberIsInside(n.tree.members, i); } else { ItemIsInside(n.tree.items, i); }
  }

  lemma BuiltKind(n: JValue, s: set<JValue>)
    requires Forest(s) && n in s
    ensures n.kind == Object <==> n.tree.Obj?
    ensures n.kind == Array <==> n.tree.Arr?
    ensures n.kind == Object || n.kind == Array ==> n.count == Parts(n.tree)
    ensures Built(n, s)
  {
    assert Built(n, s);
  }

  /** Part `i` of a container was begun; a missing one is printed already. */
  ghost predicate Begun(value: JValue, i: nat, child: JValue?, s: set<JValue>, out: string, extra: nat, out': string,
      extra': nat)
    reads value`tree, value`index, s`parent, s`tree
  {
    && i < Parts(value.tree) && value.index == i + 1 && Child(value, child, Part(value.tree, i), s)
    && out' == out + Lead(value.tree, i) + (if child == null then "null" else "")
    && extra' == extra + LeadExtras(value.tree, i)
  }

  /** The closing brace; an empty container is opened here too. */
  method CloseContainer(data: array?<char>, value: JValue, at: nat, ghost out: string, ghost extra: nat)
    returns (ret: nat, ghost out': string)
    requires Printed(data, at, out, extra) && (value.kind == Object || value.kind == Array)
    requires data != null ==> |out| + (if value.index == 0 then 2 else 1) <= data.Length
    modifies data
    ensures var close := if value.kind == Object then "}" else "]";
            out' == out + (if value.index == 0 then (if value.kind == Object then "{}" else "[]") else close)
    ensures Printed(data, ret, out', extra)
  {
    ret, out' := at, out;
    if value.index == 0 {
      ret := PrintText(data, ret, if value.kind == Object then "{" else "[", out', extra);
      out' := out' + if value.kind == Object then "{" else "[";
    }
    ret := PrintText(data, ret, if value.kind == Object then "}" else "]", out', extra);
    out' := out' + if value.kind == Object then "}" else "]";
  }

  /** What stands in front of the next part: a brace or a comma, and a member's name. */
  method LeadIn(data: array?<char>, value: JValue, i: nat, at: nat, ghost s: set<JValue>, ghost out: string,
      ghost extra: nat)
    returns (ret: nat, ghost out': string, ghost extra': nat)
    requires Forest(s) && value in s && i < Parts(value.tree)
    requires Printed(data, at, out, extra)
    requires data != null ==> |out| + |Lead(value.tree, i)| <= data.Length
    modifies data
    ensures out' == out + Lead(value.tree, i) && extra' == extra + LeadExtras(value.tree, i)
    ensures Printed(data, ret, out', extra')
  {
    hide Forest, Printed, Quote;
    BuiltPart(value, s, i);
    BuiltKind(value, s);
    var open := if value.kind == Object then "{" else "[";
    ret := PrintText(data, at, if i == 0 then open else ",", out, extra);
    out', extra' := out + (if i == 0 then open else ","), extra;
    if value.kind == Object {
      var name := value.slots[i].name;
      ret := PrintString(data, ret, name, out', extra');
      out', extra' := out' + ("\"" + Quote(name) + "\""), extra' + Specials(name);
      ret := PrintText(data, ret, ":", out', extra');
      out' := out' + ":";
      LeadMember(value.tree, i, out);
    }
  }

  lemma LeadMember(v: Value, i: nat, out: string)
    requires v.Obj? && i < |v.members|
    ensures out + (if i == 0 then "{" else ",") + ("\"" + Quote(v.members[i].name) + "\"") + ":" == out + Lead(v, i)
  {
    Regrouped(out, if i == 0 then "{" else ",", "\"" + Quote(v.members[i].name) + "\"");
    Regrouped(out, (if i == 0 then "{" else ",") + ("\"" + Quote(v.members[i].name) + "\""), ":");
  }

  lemma LeadSize(v: Value, i: nat)
    requires i < Parts(v)
    ensures |Lead(v, i)| > 0 && Print(Gone) == "null" && Extras(Gone) == 0
  {
  }

  /** A turn at a container: either it ends, or one more part is begun. */
  method ContainerTurn(data: array?<char>, value: JValue, at: nat, ghost path: seq<Frame>, ghost s: set<JValue>,
                       ghost out: string, ghost extra: nat)
    returns (ret: nat, done: bool, child: JValue?, ghost out': string, ghost extra': nat)
    requires Forest(s) && OnPath(path, value, s) && (value.kind == Object || value.kind == Array)
    requires Printed(data, at, out, extra)
    requires data != null ==> |out| + |Rest(value.tree, value.index)| <= data.Length
    modifies data, value`index
    ensures Forest(s) && OnPath(path, value, s) && Printed(data, ret, out', extra') && |out'| > |out|
    ensures done ==> value.index == 0 && out' == out + Rest(value.tree, old(value.index))
                     && extra' == extra + RestExtras(value.tree, old(value.index))
    ensures !done ==> Begun(value, old(value.index), child, s, out, extra, out', extra')
  {
    hide OnPath, Forest, Printed, Built, Rest, Lead, LeadExtras, RestExtras, Print;
    PathIndex(path, value, s);
    BuiltKind(value, s);
    RestEnds(value.tree);
    ret, done, child, out', extra' := at, false, null, out, extra;
    var i := value.index;
    if i == value.count {
      ret, out' := CloseContainer(data, value, ret, out, extra);
      SetIndex(value, 0, path, s);
      done := true;
      return;
    }
    BuiltPart(value, s, i);
    RestStep(value.tree, i);
    LeadSize(value.tree, i);
    ret, out', extra' := LeadIn(data, value, i, ret, s, out, extra);
    child := value.slots[i].value;
    if child == null {
      ret := PrintText(data, ret, "null", out', extra');
      out' := out' + "null";
    }
    SetIndex(value, i + 1, path, s);
  }

  /** A turn at a value without parts. */
  method LeafTurn(data: array?<char>, value: JValue, at: nat, ghost s: set<JValue>, ghost out: string, ghost extra: nat)
    returns (ret: nat, ghost out': string, ghost extra': nat)
    requires Forest(s) && value in s && value.kind != Object && value.kind != Array
    requires Printed(data, at, out, extra)
    requires data != null ==> |out| + |Print(value.tree)| <= data.Length
    modifies data
    ensures Printed(data, ret, out', extra')
    ensures out' == out + Print(value.tree) && extra' == extra + Extras(value.tree)
  {
    hide Forest, Quote;
    BuiltKind(value, s);
    ret, out', extra' := at, out + Print(value.tree), extra + Extras(value.tree);
    if value.kind == Str {
      ret := PrintString(data, at, value.text, out, extra);
    } else if value.kind == Integer {
      var n := EncodeInteger(value.ival, data, at);
      ret := at + n;
    } else if value.kind == Boolean {
      ret := PrintText(data, at, if value.bval then "true" else "false", out, extra);
    } else {
      ret := PrintText(data, at, "null", out, extra);
    }
  }

  /** Where the printer is: what it has printed and what is left make up the whole. */
  ghost predicate Halfway(whole: Value, value: JValue?, path: seq<Frame>, s: set<JValue>, out: string, extra: nat)
    reads s`parent, s`tree, s`index
  {
    if value == null then out == Print(whole) && extra == Extras(whole) && forall n <- s :: n.index == 0
    else
      && OnPath(path, value, s)
      && out + (Rest(value.tree, value.index) + Tail(path)) == Print(whole)
      && extra + RestExtras(value.tree, value.index) + TailExtras(path) == Extras(whole)
  }

  /** After a value was printed its parent is next, or all is done. */
  lemma Climb(whole: Value, value: JValue, path: seq<Frame>, s: set<JValue>, out: string, extra: nat)
    requires OnPath(path, value, s) && value.index == 0
    requires out + Tail(path) == Print(whole) && extra + TailExtras(path) == Extras(whole)
    ensures Halfway(whole, value.parent, if path == [] then [] else path[..|path| - 1], s, out, extra)
  {
    if path != [] {
      Pop(path, value, s);
    } else {
      assert out + "" == out;
    }
  }

  lemma Reassociate(a: string, b: string, c: string, d: string, e: string)
    ensures a + ((b + c + d) + e) == a + b + (c + (d + e))
  {
    Regrouped(a + b, c, d + e);
    assert b + c + d + e == b + (c + (d + e));
    Regrouped(a, b, c + (d + e));
  }

  lemma RestZero(v: Value)
    ensures Rest(v, 0) == Print(v)
  {
  }

  /** After a part was begun it is next, or, if it was missing, the container goes on. */
  lemma Descend(whole: Value, value: JValue, i: nat, child: JValue?, path: seq<Frame>, s: set<JValue>,
                out: string, extra: nat, out': string, extra': nat)
    requires OnPath(path, value, s) && Begun(value, i, child, s, out, extra, out', extra')
    requires Nesting(Part(value.tree, i)) < Nesting(value.tree)
    requires out + (Rest(value.tree, i) + Tail(path)) == Print(whole)
    requires extra + RestExtras(value.tree, i) + TailExtras(path) == Extras(whole)
    ensures if child == null then Halfway(whole, value, path, s, out', extra')
            else Halfway(whole, child, path + [Frame(value, value.tree, i + 1)], s, out', extra')
  {
    hide OnPath, Print, Rest, Lead, Extras;
    var v := value.tree;
    RestStep(v, i);
    LeadSize(v, i);
    var part, rest, tail := Print(Part(v, i)), Rest(v, i + 1), Tail(path);
    Reassociate(out, Lead(v, i), part, rest, tail);
    if child == null {
      Regrouped(out + Lead(v, i), part, rest + tail);
    } else {
      var path' := path + [Frame(value, v, i + 1)];
      assert path'[..|path|] == path;
      Push(path, value, child, s);
      RestExtrasStep(child.tree, 0);
      assert Rest(child.tree, 0) == part by { RestZero(child.tree); }
      assert Tail(path') == rest + tail;
    }
  }

  /** One turn of the loop: something is printed, and the next value is found. */
  method Turn(data: array?<char>, value: JValue, at: nat, ghost whole: Value, ghost path: seq<Frame>,
      ghost s: set<JValue>,
              ghost out: string, ghost extra: nat)
    returns (ret: nat, next: JValue?, ghost path': seq<Frame>, ghost out': string, ghost extra': nat)
    requires Forest(s) && Halfway(whole, value, path, s, out, extra) && Printed(data, at, out, extra)
    requires data != null ==> |Print(whole)| < data.Length
    modifies data, s`index
    ensures Forest(s) && Halfway(whole, next, path', s, out', extra') && Printed(data, ret, out', extra')
    ensures |out| < |out'| <= |Print(whole)|
  {
    hide OnPath, Forest, Printed, Begun, Print, Rest, RestExtras, Extras, Tail, TailExtras, Halfway;
    HalfwayAt(whole, value, path, s, out, extra);
    BuiltKind(value, s);
    if value.kind == Object || value.kind == Array {
      ghost var i := value.index;
      var done, child;
      ret, done, child, out', extra' := ContainerTurn(data, value, at, path, s, out, extra);
      if !done {
        BegunPart(value, s, i, child, out, extra, out', extra');
        Descend(whole, value, i, child, path, s, out, extra, out', extra');
        path' := if child == null then path else path + [Frame(value, value.tree, i + 1)];
        next := if child == null then value else child;
        HalfwayLength(whole, next, path', s, out', extra');
        return;
      }
      Regrouped(out, Rest(value.tree, i), Tail(path));
    } else {
      LeafRest(path, value, s);
      ret, out', extra' := LeafTurn(data, value, at, s, out, extra);
      Regrouped(out, Print(value.tree), Tail(path));
    }
    Climb(whole, value, path, s, out', extra');
    path' := if path == [] then [] else path[..|path| - 1];
    next := value.parent;
    HalfwayLength(whole, next, path', s, out', extra');
  }

  lemma HalfwayAt(whole: Value, value: JValue, path: seq<Frame>, s: set<JValue>, out: string, extra: nat)
    requires Halfway(whole, value, path, s, out, extra)
    ensures OnPath(path, value, s) && value in s && value.index <= Parts(value.tree)
    ensures out + (Rest(value.tree, value.index) + Tail(path)) == Print(whole)
    ensures |out| + |Rest(value.tree, value.index)| <= |Print(whole)|
    ensures extra + RestExtras(value.tree, value.index) + TailExtras(path) == Extras(whole)
  {
  }

  lemma HalfwayLength(whole: Value, value: JValue?, path: seq<Frame>, s: set<JValue>, out: string, extra: nat)
    requires Halfway(whole, value, path, s, out, extra)
    ensures |out| <= |Print(whole)|
  {
  }

  lemma BegunPart(value: JValue, s: set<JValue>, i: nat, child: JValue?, out: string, extra: nat, out': string,
      extra': nat)
    requires Forest(s) && value in s && Begun(value, i, child, s, out, extra, out', extra')
    ensures i < Parts(value.tree) && Nesting(Part(value.tree, i)) < Nesting(value.tree)
  {
    BuiltPart(value, s, i);
  }

  /** A value without parts is printed at once. */
  lemma LeafRest(path: seq<Frame>, value: JValue, s: set<JValue>)
    requires Forest(s) && OnPath(path, value, s) && value.kind != Object && value.kind != Array
    ensures value.index == 0 && Rest(value.tree, 0) == Print(value.tree)
            && RestExtras(value.tree, 0) == Extras(value.tree)
    ensures |Print(value.tree)| > 0
  {
    BuiltKind(value, s);
    if value.tree.Int? { assert |Decimal(value.tree.n)| > 0; }
  }

  /** Prints a whole value.  Without a buffer it only measures. */
  method Encode(data: array?<char>, self: JValue, ghost s: set<JValue>) returns (ret: nat)
    requires Forest(s) && self in s && self.parent == null && forall n <- s :: n.index == 0
    requires data != null ==> |Print(self.tree)| < data.Length
    modifies data, s`index
    ensures Forest(s) && forall n <- s :: n.index == 0
    ensures data == null ==> ret == |Print(self.tree)| + Extras(self.tree) + 1
    ensures data != null ==> ret == |Print(self.tree)| + 1 && data[..ret] == Print(self.tree) + "\0"
  {
    ghost var path, out, extra, whole := [], "", 0, self.tree;
    var value: JValue? := self;
    ret := 0;
    HalfwayStart(self, s);
    hide Forest, Printed, Halfway, Print, Extras;
    assert Printed(data, ret, out, extra) by { NothingPrinted(data); }
    while value != null
      invariant Forest(s) && Halfway(whole, value, path, s, out, extra) && Printed(data, ret, out, extra)
      invariant |out| <= |Print(whole)|
      decreases |Print(whole)| - |out|
    {
      ret, value, path, out, extra := Turn(data, value, ret, whole, path, s, out, extra);
    }
    AllPrinted(data, ret, whole, path, s, out, extra);
    if data != null {
      data[ret] := '\0';
    }
    ret := ret + 1;
  }

  lemma NothingPrinted(data: array?<char>)
    ensures Printed(data, 0, "", 0)
  {
  }

  lemma HalfwayStart(self: JValue, s: set<JValue>)
    requires self in s && self.parent == null && forall n <- s :: n.index == 0
    ensures Halfway(self.tree, self, [], s, "", 0)
  {
    RestExtrasStep(self.tree, 0);
    assert "" + (Print(self.tree) + "") == Print(self.tree);
  }

  lemma AllPrinted(data: array?<char>, ret: nat, whole: Value, path: seq<Frame>, s: set<JValue>, out: string,
      extra: nat)
    requires Halfway(whole, null, path, s, out, extra) && Printed(data, ret, out, extra)
    ensures forall n <- s :: n.index == 0
    ensures if data == null then ret == |Print(whole)| + Extras(whole)
            else ret == |Print(whole)| <= data.Length && data[..ret] == Print(whole)
  {
  }

  /** A printed copy of a value: measured first, then written. */
  method Dump(self: JValue, ghost s: set<JValue>) returns (text: array<char>)
    requires Forest(s) && self in s && self.parent == null && forall n <- s :: n.index == 0
    modifies s`index
    ensures Forest(s) && forall n <- s :: n.index == 0
    ensures fresh(text) && text.Length == |Print(self.tree)| + 1 + Extras(self.tree)
    ensures text[..|Print(self.tree)| + 1] == Print(self.tree) + "\0"
  {
    hide Forest;
    var len := Encode(null, self, s);
    text := new char[len];
    var n := Encode(text, self, s);
  }
}
