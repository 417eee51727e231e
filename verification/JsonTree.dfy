/** JSON values in memory: objects kept sorted in an array, and the printer that walks a
    tree along its parent pointers. */
module JsonTree {
  import opened JsonText
  import opened JsonMembers
  import opened JsonValue

  class JValue {
    var parent: JValue?
    const kind: Kind
    var bval: bool
    var ival: int
    var text: string
    var count: nat
    const size: nat
    /** Members of an object, elements (without names) of an array; an object has one slot
        to spare. */
    const slots: array<Member<JValue?>>
    /** What an object keeps in its spare slot: the bytes of all names set, with their NULs. */
    var namesLen: nat
    /** How far the printer has come with a container. */
    var index: nat
    /** The values handed back when a member is replaced. */
    var freed: seq<JValue>

    ghost var tree: Value

    constructor NewObject(size: nat)
      ensures kind == Object && this.size == size && count == 0 && parent == null && index == 0 && freed == []
      ensures Sound() && Members() == [] && fresh(slots) && namesLen == 0
    {
      kind, this.size, count, parent, index, namesLen := Object, size, 0, null, 0, 0;
      slots := new Member<JValue?>[size + 1](_ => Member("", null));
      bval, ival, text, freed, tree := false, 0, "", [], Obj([]);
    }

    // ---------------------------------------------------------------- objects

    ghost function Members(): seq<Member<JValue?>>
      requires count <= slots.Length
      reads this`count, slots
    {
      slots[..count]
    }

    /** The members are sorted by name and fit. */
    ghost predicate Sound()
      reads this`count, slots
    {
      kind == Object && count <= size && slots.Length == size + 1 && Increasing(Members())
    }

    /** The binary search: `ret` is 0 if the name is at `i`, and else `a` is its place. */
    method Search(name: string) returns (ret: int, i: nat, a: nat)
      requires Sound()
      ensures ret == 0 <==> Has(Members(), name)
      ensures if ret == 0 then i == Find(Members(), name) else a == Find(Members(), name)
    {
      ghost var members := Members();
      ret, i, a := -1, 0, 0;
      if count > 0 {
        var b := count - 1;
        while a <= b
          invariant a <= count && b < count && a <= b + 1 && ret != 0
          invariant a > 0 ==> Compare(name, members[a - 1].name) > 0
          invariant b + 1 < count ==> Compare(name, members[b + 1].name) < 0
          decreases b + 1 - a
        {
          i := (a + b) / 2;
          ret := Compare(name, slots[i].name);
          if ret == 0 {
            FoundAt(members, name, i);
            return;
          }
          if ret > 0 {
            a := i + 1;
          } else {
            if i < 1 {
              break;
            }
            b := i - 1;
          }
        }
      }
      FindUnique(members, name, a);
    }

    /** The slots from `a` on move up by one. */
    method Shift(a: nat)
      requires a <= count < slots.Length
      modifies slots
      ensures slots[..a] == old(slots[..a]) && slots[a + 1..count + 1] == old(slots[a..count])
    {
      ghost var was := slots[..];
      var i := count;
      while i > a
        invariant a <= i <= count
        invariant slots[..i] == was[..i]
        invariant slots[i + 1..count + 1] == was[i..count]
      {
        slots[i] := slots[i - 1];
        i := i - 1;
      }
    }

    /** Looks a name up; with `force` makes room for it where it belongs, if there is room. */
    method ObjectFind(name: string, force: bool) returns (ret: int, index: nat)
      requires Sound()
      modifies this`count, slots
      ensures ret == 0 <==> old(Has(Members(), name))
      ensures ret == 0 ==> index == old(Find(Members(), name)) < count
      ensures ret == 0 || !force || old(count) == size ==> count == old(count) && slots[..] == old(slots[..])
      ensures ret != 0 && force ==>
                if old(count) < size then
                  index == old(Find(Members(), name)) && count == old(count) + 1
                  && slots[..index] == old(slots[..index]) && slots[index + 1..count] == old(slots[index..count])
                else index == size
    {
      var i, a;
      ret, i, a := Search(name);
      index := i;
      if ret != 0 && force {
        index := count;
        if count < size {
          Shift(a);
          index := a;
          count := count + 1;
        }
      }
    }

    method SetMember(name: string, value: JValue?) returns (ret: int)
      requires Sound()
      modifies this`count, this`freed, this`namesLen, slots
      ensures Sound()
      ensures if old(Has(Members(), name) || count < size)
              then ret == 0 && Members() == Set(old(Members()), name, value)
              else ret == -1 && count == old(count) && slots[..] == old(slots[..])
      ensures freed == old(freed) + Released(old(Members()), name)
      ensures namesLen == old(namesLen) + if ret != 0 || old(Has(Members(), name)) then 0 else |Visible(name)| + 1
    {
      hide Increasing, Sorted, Find, Visible;
      ghost var members := Members();
      var index;
      ret, index := ObjectFind(name, true);
      SetIncreasing(members, name, value);
      if ret != 0 {
        if index >= size {
          ret := -1;
          return;
        }
        slots[index] := Member(name, value);
        assert Members() == members[..index] + [Member(name, value)] + members[index..];
        namesLen := namesLen + |Visible(name)| + 1;
        ret := 0;
      } else {
        if slots[index].value != null {
          freed := freed + [slots[index].value];
        }
        slots[index] := Member(slots[index].name, value);
        assert Members() == members[index := Member(members[index].name, value)];
      }
    }

    /** The member `name` gets `value`; a full object takes no new member. */
    method ObjectSet(name: string, value: JValue?) returns (ret: int)
      requires kind == Object ==> Sound()
      modifies this`count, this`freed, this`namesLen, slots, (if value == null then {} else {value})`parent
      ensures kind == Object ==> Sound() && Sorted(Members())
      ensures kind != Object || !old(Has(Members(), name) || count < size) ==>
                ret == -1 && count == old(count) && slots[..] == old(slots[..]) && freed == old(freed)
                && namesLen == old(namesLen) && (value != null ==> value.parent == old(value.parent))
      ensures kind == Object && old(Has(Members(), name) || count < size) ==>
                ret == 0 && Members() == Set(old(Members()), name, value) && (value != null ==> value.parent == this)
                && namesLen + NamesLen(old(Members())) == old(namesLen) + NamesLen(Members())
                && freed == old(freed) + Released(old(Members()), name)
    {
      hide NamesLen, Set, Find, Increasing, Sorted;
      if kind != Object {
        return -1;
      }
      SetNamesLen(Members(), name, value);
      ret := SetMember(name, value);
      IncreasingMeans(Members());
      if ret != 0 {
        return;
      }
      if value != null {
        value.parent := this;
      }
    }

    method ObjectGet(name: string) returns (value: JValue?)
      requires kind == Object ==> Sound()
      modifies this`count, slots
      ensures kind != Object ==> value == null && count == old(count) && slots[..] == old(slots[..])
      ensures kind == Object ==>
                Sound() && Members() == old(Members())
                && value == if Visible(name) in AsMap(Members()) then AsMap(Members())[Visible(name)] else null
    {
      value := null;
      if kind == Object {
        GetIsLookup(Members(), name);
        var ret, index := ObjectFind(name, false);
        if ret == 0 {
          value := slots[index].value;
        }
      }
    }
  }

  /** What setting a member hands back: the value it replaces. */
  function Released(members: seq<Member<JValue?>>, name: string): seq<JValue> {
    if Has(members, name) && members[Find(members, name)].value != null
    then [members[Find(members, name)].value]
    else []
  }

  /** A value handed back is out of the object, unless another member holds it, exactly if it
      is not the one that was set. */
  lemma ReleasedIsOut(members: seq<Member<JValue?>>, name: string, value: JValue?)
    requires Released(members, name) != []
    requires forall j | 0 <= j < |members| && j != Find(members, name) ::
             members[j].value != members[Find(members, name)].value
    ensures (exists j | 0 <= j < |members| :: Set(members, name, value)[j].value == Released(members, name)[0])
            <==> value == Released(members, name)[0]
  {
    var i := Find(members, name);
    assert Set(members, name, value)[i].value == value;
  }

  lemma FoundAt(members: seq<Member<JValue?>>, name: string, i: nat)
    requires Increasing(members) && i < |members| && Compare(name, members[i].name) == 0
    ensures Has(members, name) && Find(members, name) == i
  {
    HasIff(members, name);
    if i > 0 {
      CompareFlip(members[i - 1].name, name);
      CompareFlip(members[i].name, name);
      CompareTrans(members[i - 1].name, members[i].name, name);
    }
    FindUnique(members, name, i);
  }
}
