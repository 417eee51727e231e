/** JSON values as trees, and their printed form. */
module JsonValue {
  import opened JsonText
  import opened JsonMembers

  /** `Gone` stands for a member or element without a value (a null pointer). */
  datatype Value =
    | Obj(members: seq<Member<Value>>)
    | Arr(items: seq<Value>)
    | Text(text: string)
    | Int(n: int)
    | Bool(b: bool)
    | Nil
    | Gone

  const INT64_MIN := -0x8000_0000_0000_0000
  const INT64_MAX := 0x7FFF_FFFF_FFFF_FFFF

  // ---------------------------------------------------------------- strings and numbers

  predicate Control(b: char) { b as int < 32 }

  predicate Special(b: char) { b == '"' || b == '\\' }

  /** One byte of a string as it is printed. */
  function QuoteChar(b: char): string {
    if Control(b) then "\\u00" + [ByteToHex(b as int / 16, false), ByteToHex(b as int % 16, false)]
    else if Special(b) then ['\\', b]
    else [b]
  }

  function Quote(s: string): string {
    if s == "" then "" else Quote(s[..|s| - 1]) + QuoteChar(s[|s| - 1])
  }

  /** How many bytes of a string are quotes or backslashes. */
  function Specials(s: string): nat {
    if s == "" then 0 else Specials(s[..|s| - 1]) + if Special(s[|s| - 1]) then 1 else 0
  }

  function DigitChar(d: nat): char
    requires d < 10
  {
    ('0' as int + d) as char
  }

  function Digits(n: nat): string {
    if n < 10 then [DigitChar(n)] else Digits(n / 10) + [DigitChar(n % 10)]
  }

  function Decimal(n: int): string { if n < 0 then "-" + Digits(-n) else Digits(n) }

  // ---------------------------------------------------------------- the recursive printer

  function Print(v: Value): string {
    match v
    case Obj(members) => "{" + PrintMembers(members) + "}"
    case Arr(items) => "[" + PrintItems(items) + "]"
    case Text(s) => "\"" + Quote(s) + "\""
    case Int(n) => Decimal(n)
    case Bool(b) => if b then "true" else "false"
    case Nil => "null"
    case Gone => "null"
  }

  function PrintMember(p: Member<Value>): string { "\"" + Quote(p.name) + "\":" + Print(p.value) }

  function PrintMembers(members: seq<Member<Value>>): string {
    if members == [] then ""
    else if |members| == 1 then PrintMember(members[0])
    else PrintMember(members[0]) + "," + PrintMembers(members[1..])
  }

  function PrintItems(items: seq<Value>): string {
    if items == [] then ""
    else if |items| == 1 then Print(items[0])
    else Print(items[0]) + "," + PrintItems(items[1..])
  }

  /** The quotes and backslashes in all strings and names of a value. */
  function Extras(v: Value): nat {
    match v
    case Obj(members) => MemberExtras(members)
    case Arr(items) => ItemExtras(items)
    case Text(s) => Specials(s)
    case _ => 0
  }

  function MemberExtras(members: seq<Member<Value>>): nat {
    if members == [] then 0 else Specials(members[0].name) + Extras(members[0].value) + MemberExtras(members[1..])
  }

  function ItemExtras(items: seq<Value>): nat {
    if items == [] then 0 else Extras(items[0]) + ItemExtras(items[1..])
  }

  // ---------------------------------------------------------------- printing in steps

  /** What a printer that stands at member `i` of an object still has to print of it. */
  function RestMembers(members: seq<Member<Value>>, i: nat): string
    decreases |members| - i
  {
    if i >= |members| then "}" else "," + PrintMember(members[i]) + RestMembers(members, i + 1)
  }

  function RestItems(items: seq<Value>, i: nat): string
    decreases |items| - i
  {
    if i >= |items| then "]" else "," + Print(items[i]) + RestItems(items, i + 1)
  }

  /** The same for any value; at 0 nothing of it is printed yet. */
  function Rest(v: Value, i: nat): string {
    if i == 0 then Print(v)
    else match v
      case Obj(members) => RestMembers(members, i)
      case Arr(items) => RestItems(items, i)
      case _ => Print(v)
  }

  lemma {:induction false} RestMembersIs(members: seq<Member<Value>>, i: nat)
    requires i <= |members|
    ensures RestMembers(members, i) == (if i == |members| then "" else "," + PrintMembers(members[i..])) + "}"
    decreases |members| - i
  {
    if i < |members| {
      RestMembersIs(members, i + 1);
      assert members[i..][1..] == members[i + 1..];
    }
  }

  lemma {:induction false} RestItemsIs(items: seq<Value>, i: nat)
    requires i <= |items|
    ensures RestItems(items, i) == (if i == |items| then "" else "," + PrintItems(items[i..])) + "]"
    decreases |items| - i
  {
    if i < |items| {
      RestItemsIs(items, i + 1);
      assert items[i..][1..] == items[i + 1..];
    }
  }

  lemma MembersBegin(members: seq<Member<Value>>)
    requires members != []
    ensures PrintMembers(members) + "}" == PrintMember(members[0]) + RestMembers(members, 1)
  {
    RestMembersIs(members, 1);
    hide PrintMember, RestMembers;
  }

  lemma ItemsBegin(items: seq<Value>)
    requires items != []
    ensures PrintItems(items) + "]" == Print(items[0]) + RestItems(items, 1)
  {
    RestItemsIs(items, 1);
    hide Print, RestItems;
  }

  /** How the printing of a container begins. */
  lemma PrintBegins(v: Value)
    ensures v.Obj? ==> Print(v) == if v.members == [] then "{}" else "{" + PrintMember(v.members[0]) + Rest(v, 1)
    ensures v.Arr? ==> Print(v) == if v.items == [] then "[]" else "[" + Print(v.items[0]) + Rest(v, 1)
  {
    hide PrintMember, RestMembers, RestItems;
    match v
    case Obj(members) =>
      if members != [] {
        MembersBegin(members);
        Regrouped("{", PrintMembers(members), "}");
        Regrouped("{", PrintMember(members[0]), RestMembers(members, 1));
      }
    case Arr(items) =>
      if items != [] {
        ItemsBegin(items);
        Regrouped("[", PrintItems(items), "]");
        Regrouped("[", Print(items[0]), RestItems(items, 1));
      }
    case _ =>
  }

  function RestExtras(v: Value, i: nat): nat {
    match v
    case Obj(members) => if i <= |members| then MemberExtras(members[i..]) else 0
    case Arr(items) => if i <= |items| then ItemExtras(items[i..]) else 0
    case _ => Extras(v)
  }

  lemma RestExtrasStep(v: Value, i: nat)
    ensures RestExtras(v, 0) == Extras(v)
    ensures v.Obj? && i < |v.members| ==>
              RestExtras(v, i) == Specials(v.members[i].name) + Extras(v.members[i].value) + RestExtras(v, i + 1)
    ensures v.Arr? && i < |v.items| ==> RestExtras(v, i) == Extras(v.items[i]) + RestExtras(v, i + 1)
  {
    match v
    case Obj(members) => assert members[0..] == members;
      if i < |members| { assert members[i..][1..] == members[i + 1..]; }
    case Arr(items) => assert items[0..] == items; if i < |items| { assert items[i..][1..] == items[i + 1..]; }
    case _ =>
  }

  /** The members or elements of a container. */
  function Parts(v: Value): nat {
    match v
    case Obj(members) => |members|
    case Arr(items) => |items|
    case _ => 0
  }

  function Part(v: Value, i: nat): Value
    requires i < Parts(v)
  {
    match v
    case Obj(members) => members[i].value
    case Arr(items) => items[i]
  }

  /** What stands in front of part `i`. */
  function Lead(v: Value, i: nat): string
    requires i < Parts(v)
  {
    match v
    case Obj(members) => (if i == 0 then "{" else ",") + ("\"" + Quote(members[i].name) + "\"") + ":"
    case Arr(items) => if i == 0 then "[" else ","
  }

  /** The quotes and backslashes in the name of part `i`. */
  function LeadExtras(v: Value, i: nat): nat
    requires i < Parts(v)
  {
    match v
    case Obj(members) => Specials(members[i].name)
    case Arr(items) => 0
  }

  lemma RestStep(v: Value, i: nat)
    requires i < Parts(v)
    ensures Rest(v, i) == Lead(v, i) + Print(Part(v, i)) + Rest(v, i + 1)
    ensures RestExtras(v, i) == LeadExtras(v, i) + Extras(Part(v, i)) + RestExtras(v, i + 1)
  {
    PrintBegins(v);
    RestExtrasStep(v, i);
    if v.Obj? {
      var m := v.members[i];
      assert PrintMember(m) == "\"" + Quote(m.name) + "\"" + ":" + Print(m.value);
    }
  }

  lemma RestEnds(v: Value)
    requires v.Obj? || v.Arr?
    ensures Parts(v) > 0 ==> Rest(v, Parts(v)) == if v.Obj? then "}" else "]"
    ensures Parts(v) == 0 ==> Rest(v, 0) == if v.Obj? then "{}" else "[]"
    ensures RestExtras(v, Parts(v)) == 0
  {
    PrintBegins(v);
    RestExtrasStep(v, Parts(v));
  }

  // ---------------------------------------------------------------- how deep a value goes

  function Nesting(v: Value): nat {
    match v
    case Obj(members) => 1 + MemberNesting(members)
    case Arr(items) => 1 + ItemNesting(items)
    case _ => 0
  }

  function MemberNesting(members: seq<Member<Value>>): nat {
    if members == [] then 0 else Nesting(members[0].value) + MemberNesting(members[1..])
  }

  function ItemNesting(items: seq<Value>): nat {
    if items == [] then 0 else Nesting(items[0]) + ItemNesting(items[1..])
  }

  lemma {:induction false} MemberIsInside(members: seq<Member<Value>>, i: nat)
    requires i < |members|
    ensures Nesting(members[i].value) < Nesting(Obj(members))
  {
    if i > 0 { MemberIsInside(members[1..], i - 1); }
  }

  lemma {:induction false} ItemIsInside(items: seq<Value>, i: nat)
    requires i < |items|
    ensures Nesting(items[i]) < Nesting(Arr(items))
  {
    if i > 0 { ItemIsInside(items[1..], i - 1); }
  }
}
